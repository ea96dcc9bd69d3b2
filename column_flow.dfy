/** The second half of `drawMultiColumnFormatted`: the measured words are
    laid out in a column by a pen that moves right by each word's width and
    drops to the next line when a word would cross the column's right edge
    or when an end-of-line marker comes, but only if it is not already at
    the left edge. */
module ColumnFlow {
  import opened Text
  import opened Colors
  import opened Tokens
  import opened Tokenizer
  import opened TokenizerProps

  /** The pen: where the next word goes, and the furthest right reached. */
  datatype Pen = Pen(x: real, y: real, maxX: real)

  /** One word drawn: the word, where, in which font and colour, at which
      size. */
  datatype Draw = Draw(word: seq<Codepoint>, x: real, y: real, font: int, color: Color, size: real)

  /** A two-dimensional result. */
  datatype Vec2 = Vec2(x: real, y: real)

  /** The five lists have one entry per word. */
  predicate Parallel(lists: WordLists)
  {
    && |lists.sizes| == |lists.words| && |lists.fonts| == |lists.words|
    && |lists.colors| == |lists.words| && |lists.scales| == |lists.words|
  }

  const ORIGIN: Pen := Pen(0.0, 0.0, 0.0)

  /** Where a word of width `w` is drawn, coming after `pen`: a new line,
      `lead * scale` further down, when the pen is not at the left edge and
      the word would cross `width` or is the marker; otherwise where the pen
      is. */
  function Start(pen: Pen, word: seq<Codepoint>, w: real, scale: real, width: real, lead: real): (s: Pen)
    ensures s.maxX == pen.maxX
    ensures s.x == 0.0 || s == pen
    ensures s.x == 0.0 || (s.x + w <= width && word != MARKER)
    ensures s != pen <==> pen.x != 0.0 && (pen.x + w > width || word == MARKER)
    ensures s != pen ==> s.y == pen.y + lead * scale
  {
    if pen.x != 0.0 && (pen.x + w > width || word == MARKER) then Pen(0.0, pen.y + lead * scale, pen.maxX)
    else pen
  }

  /** The pen after drawing the word: moved right by the word's width. */
  function Advance(pen: Pen, word: seq<Codepoint>, w: real, scale: real, width: real, lead: real): Pen
  {
    var s := Start(pen, word, w, scale, width, lead);
    var x := s.x + w;
    Pen(x, s.y, if x > s.maxX then x else s.maxX)
  }

  /** The pen after the first `n` words. */
  function FlowOf(lists: WordLists, width: real, lead: real, n: nat): Pen
    requires Parallel(lists) && n <= |lists.words|
  {
    if n == 0 then ORIGIN
    else
      var k := n - 1;
      Advance(FlowOf(lists, width, lead, k), lists.words[k], lists.sizes[k].w, lists.scales[k], width, lead)
  }

  /** Where word `k` is drawn. */
  function StartOf(lists: WordLists, width: real, lead: real, k: nat): Pen
    requires Parallel(lists) && k < |lists.words|
  {
    Start(FlowOf(lists, width, lead, k), lists.words[k], lists.sizes[k].w, lists.scales[k], width, lead)
  }

  /** Where word `k` ends. */
  function EndOf(lists: WordLists, width: real, lead: real, k: nat): real
    requires Parallel(lists) && k < |lists.words|
  {
    FlowOf(lists, width, lead, k + 1).x
  }

  /** The draw call for word `k`: where it starts, in its font and colour,
      at the requested size times its scale. */
  function DrawOf(lists: WordLists, width: real, lead: real, size: real, k: nat): Draw
    requires Parallel(lists) && k < |lists.words|
  {
    var s := StartOf(lists, width, lead, k);
    Draw(lists.words[k], s.x, s.y, lists.fonts[k], lists.colors[k], size * lists.scales[k])
  }

  /** The draw calls for the first `n` words. */
  function DrawsOf(lists: WordLists, width: real, lead: real, size: real, n: nat): seq<Draw>
    requires Parallel(lists) && n <= |lists.words|
  {
    if n == 0 then [] else DrawsOf(lists, width, lead, size, n - 1) + [DrawOf(lists, width, lead, size, n - 1)]
  }

  /** The flow loop. Moves the pen over every word and, unless this is a dry
      run, draws each word where the pen starts it; `lead` is the line height
      times the font size, `size` the font size. */
  method Flow(lists: WordLists, size: real, columnWidth: real, lead: real, dryrun: bool)
    returns (pen: Pen, draws: seq<Draw>)
    requires Parallel(lists)
    ensures pen == FlowOf(lists, columnWidth, lead, |lists.words|)
    ensures draws == if dryrun then [] else DrawsOf(lists, columnWidth, lead, size, |lists.words|)
  {
    var x, y, maxX := 0.0, 0.0, 0.0;
    draws := [];
    var i := 0;
    while i < |lists.words|
      invariant i <= |lists.words|
      invariant Pen(x, y, maxX) == FlowOf(lists, columnWidth, lead, i)
      invariant draws == if dryrun then [] else DrawsOf(lists, columnWidth, lead, size, i)
    {
      ghost var s := StartOf(lists, columnWidth, lead, i);
      if (x + lists.sizes[i].w > columnWidth || lists.words[i] == MARKER) && x != 0.0 {
        y := y + lead * lists.scales[i];
        x := 0.0;
      }
      assert s == Pen(x, y, maxX);
      if !dryrun {
        assert DrawOf(lists, columnWidth, lead, size, i).x == x;
        draws := draws + [Draw(lists.words[i], x, y, lists.fonts[i], lists.colors[i], size * lists.scales[i])];
        assert DrawsOf(lists, columnWidth, lead, size, i + 1) == DrawsOf(lists, columnWidth, lead, size, i) + [DrawOf(lists, columnWidth, lead, size, i)];
        assert DrawOf(lists, columnWidth, lead, size, i) == Draw(lists.words[i], x, y, lists.fonts[i], lists.colors[i], size * lists.scales[i]);
      }
      x := x + lists.sizes[i].w;
      if x > maxX {
        maxX := x;
      }
      i := i + 1;
    }
    pen := Pen(x, y, maxX);
  }

  /** One more word keeps `maxX` the largest of zero and the words' ends. */
  lemma MaxStep(lists: WordLists, width: real, lead: real, n: nat)
    requires Parallel(lists) && 0 < n <= |lists.words|
    requires var pen := FlowOf(lists, width, lead, n - 1);
      && pen.maxX >= 0.0 && pen.maxX >= pen.x
      && (forall k :: 0 <= k < n - 1 ==> EndOf(lists, width, lead, k) <= pen.maxX)
      && (pen.maxX == 0.0 || exists k :: 0 <= k < n - 1 && EndOf(lists, width, lead, k) == pen.maxX)
    ensures var pen := FlowOf(lists, width, lead, n);
      && pen.maxX >= 0.0 && pen.maxX >= pen.x
      && (forall k :: 0 <= k < n ==> EndOf(lists, width, lead, k) <= pen.maxX)
      && (pen.maxX == 0.0 || exists k :: 0 <= k < n && EndOf(lists, width, lead, k) == pen.maxX)
  {
    var before := FlowOf(lists, width, lead, n - 1);
    var pen := FlowOf(lists, width, lead, n);
    assert EndOf(lists, width, lead, n - 1) == pen.x;
    if pen.maxX != before.maxX {
      assert EndOf(lists, width, lead, n - 1) == pen.maxX;
    }
  }

  /** `maxX` is never negative, never behind the pen, and is exactly the
      largest of zero and the points where the words end. */
  lemma {:induction false} MaxReached(lists: WordLists, width: real, lead: real, n: nat)
    requires Parallel(lists) && n <= |lists.words|
    ensures var pen := FlowOf(lists, width, lead, n);
      && pen.maxX >= 0.0 && pen.maxX >= pen.x
      && (forall k :: 0 <= k < n ==> EndOf(lists, width, lead, k) <= pen.maxX)
      && (pen.maxX == 0.0 || exists k :: 0 <= k < n && EndOf(lists, width, lead, k) == pen.maxX)
    decreases n
  {
    if n > 0 {
      MaxReached(lists, width, lead, n - 1);
      MaxStep(lists, width, lead, n);
    }
  }

  /** A word starts at the left edge or ends within the column: the pen
      wraps whenever it can, so only a word wider than the column sticks
      out, and then alone on its line. */
  lemma PlacedInColumn(lists: WordLists, width: real, lead: real, k: nat)
    requires Parallel(lists) && k < |lists.words|
    ensures var s := StartOf(lists, width, lead, k);
      s.x == 0.0 || (EndOf(lists, width, lead, k) <= width && lists.words[k] != MARKER)
  {
  }

  /** When no word is wider than a column of non-negative width, nothing is
      drawn beyond it. */
  lemma {:induction false} WithinColumn(lists: WordLists, width: real, lead: real, n: nat)
    requires Parallel(lists) && n <= |lists.words|
    requires 0.0 <= width
    requires forall k :: 0 <= k < n ==> lists.sizes[k].w <= width
    ensures FlowOf(lists, width, lead, n).maxX <= width
    decreases n
  {
    if n > 0 {
      WithinColumn(lists, width, lead, n - 1);
      PlacedInColumn(lists, width, lead, n - 1);
    }
  }

  /** With a non-negative line step and non-negative scales the pen never
      moves up. */
  lemma {:induction false} NeverUp(lists: WordLists, width: real, lead: real, m: nat, n: nat)
    requires Parallel(lists) && m <= n <= |lists.words|
    requires 0.0 <= lead
    requires forall k :: 0 <= k < n ==> 0.0 <= lists.scales[k]
    ensures FlowOf(lists, width, lead, m).y <= FlowOf(lists, width, lead, n).y
    decreases n
  {
    if m < n {
      NeverUp(lists, width, lead, m, n - 1);
      var k := n - 1;
      assert 0.0 <= lead * lists.scales[k];
    }
  }

  /** A marker of no width leaves the pen at the left edge: after every
      logical line the next one starts at x = 0. */
  lemma MarkerReturns(lists: WordLists, width: real, lead: real, k: nat)
    requires Parallel(lists) && k < |lists.words|
    requires lists.words[k] == MARKER && lists.sizes[k].w == 0.0
    ensures EndOf(lists, width, lead, k) == 0.0
  {
  }

  /** The ascent the first line is moved down by: that of the font and
      pixel size (size times scale over the display scale) given, or none. */
  function FirstLineAscent(topLeftAlign: bool, ascent: (int, real) -> real, style: Style, size: real, dpiScale: real): real
    requires dpiScale != 0.0
  {
    if topLeftAlign then ascent(style.font, size * style.scale / dpiScale) else 0.0
  }

  /** The reported extent: the width reached, and the pen's final height
      less one line step (taken over the display scale) and the ascent. */
  function Extent(pen: Pen, lineHeight: real, size: real, dpiScale: real, asc: real): Vec2
    requires dpiScale != 0.0
  {
    Vec2(pen.maxX, pen.y - (lineHeight * size / dpiScale - asc))
  }

  /** `drawMultiColumnFormatted`. Without a loaded font it reports (0, 0)
      and draws nothing. Otherwise it tokenizes the text, flows the words
      and reports the width reached and the height below the first line;
      with `topLeftAlign` the first line is moved down by the ascent of the
      font and size in force at the END of the text. */
  method DrawMultiColumnFormatted(ready: bool, env: Env, drawColor: Color, text: seq<Codepoint>,
                                  columnWidth: real, lineHeight: real, topLeftAlign: bool, dryrun: bool,
                                  ascent: (int, real) -> real)
    returns (extent: Vec2, draws: seq<Draw>)
    requires ready && env.fontIds != [] ==> env.dpiScale != 0.0 && PiecesValid(env, Pieces(text))
    ensures !ready || env.fontIds == [] ==> extent == Vec2(0.0, 0.0) && draws == []
    ensures ready && env.fontIds != [] ==>
      var e := TextTokens(env, Initial(env, drawColor), Pieces(text), |Pieces(text)|);
      extent == Extent(FlowOf(Tabulation(e.tokens), columnWidth, lineHeight * env.size, |e.tokens|),
                       lineHeight, env.size, env.dpiScale,
                       FirstLineAscent(topLeftAlign, ascent, e.style, env.size, env.dpiScale))
    ensures ready && env.fontIds != [] ==>
      var e := TextTokens(env, Initial(env, drawColor), Pieces(text), |Pieces(text)|);
      draws == if dryrun then [] else DrawsOf(Tabulation(e.tokens), columnWidth, lineHeight * env.size, env.size, |e.tokens|)
  {
    if !ready || env.fontIds == [] {
      return Vec2(0.0, 0.0), [];
    }
    var lists, style := Tokenize(env, drawColor, text);
    var asc := FirstLineAscent(topLeftAlign, ascent, style, env.size, env.dpiScale);
    var lead := lineHeight * env.size;
    var pen;
    pen, draws := Flow(lists, env.size, columnWidth, lead, dryrun);
    extent := Extent(pen, lineHeight, env.size, env.dpiScale, asc);
  }

  /** In formatted text every logical line starts at the left edge: the
      tokenizer gives its markers no width, so each leaves the pen at
      x = 0. */
  lemma FormattedLinesStartLeft(env: Env, drawColor: Color, text: seq<Codepoint>, width: real, lead: real)
    requires env.fontIds != [] && env.dpiScale != 0.0
    requires PiecesValid(env, Pieces(text))
    ensures var tokens := TextTokens(env, Initial(env, drawColor), Pieces(text), |Pieces(text)|).tokens;
      var lists := Tabulation(tokens);
      forall k :: 0 <= k < |tokens| && tokens[k].word == MARKER ==> EndOf(lists, width, lead, k) == 0.0
  {
    var tokens := TextTokens(env, Initial(env, drawColor), Pieces(text), |Pieces(text)|).tokens;
    var lists := Tabulation(tokens);
    TokenizeMeasured(env, drawColor, text);
    forall k | 0 <= k < |tokens| && tokens[k].word == MARKER
      ensures EndOf(lists, width, lead, k) == 0.0
    {
      assert Measured(env, tokens[k]);
      MarkerReturns(lists, width, lead, k);
    }
  }
}
