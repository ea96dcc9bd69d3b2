/** The first half of `drawMultiColumnFormatted`: styled text is cut into
    words, each measured in the style in force where it appears. A word that
    begins with '@', '#' or '%' is a control code that switches the font, the
    colour or the scale and is not drawn. */
module Tokens {
  import opened Text
  import opened Colors

  const AT: Codepoint := 64
  const HASH: Codepoint := 35
  const PERCENT: Codepoint := 37

  /** The end-of-line marker word. */
  const MARKER: seq<Codepoint> := [NEWLINE]

  predicate IsFontCode(w: seq<Codepoint>) { |w| > 0 && w[0] == AT }
  predicate IsColorCode(w: seq<Codepoint>) { |w| > 0 && w[0] == HASH }
  predicate IsScaleCode(w: seq<Codepoint>) { |w| > 0 && w[0] == PERCENT }
  predicate IsCode(w: seq<Codepoint>) { IsFontCode(w) || IsColorCode(w) || IsScaleCode(w) }

  /** Width and height of a word's bounds. */
  datatype Size = Size(w: real, h: real)

  /** The style in force: a font id, a colour and a scale factor. */
  datatype Style = Style(font: int, color: Color, scale: real)

  /** What the tokenizer takes from outside: the loaded font ids, the parsers
      of code arguments, the font's text bounds at a font id and pixel size,
      the requested size and the display's scale. */
  datatype Env = Env(
    fontIds: seq<int>,
    toInt: seq<Codepoint> -> int,
    fromHex: seq<Codepoint> -> Color,
    toFloat: seq<Codepoint> -> real,
    bounds: (int, real, seq<Codepoint>) -> Size,
    size: real,
    dpiScale: real)

  /** A word with its size and the style it is drawn in. */
  datatype Token = Token(word: seq<Codepoint>, size: Size, font: int, color: Color, scale: real)

  /** The five parallel lists the tokenizer fills. */
  datatype WordLists = WordLists(
    words: seq<seq<Codepoint>>,
    sizes: seq<Size>,
    fonts: seq<int>,
    colors: seq<Color>,
    scales: seq<real>)

  /** The style at the start: the first font, the current drawing colour and
      scale 1. */
  function Initial(env: Env, drawColor: Color): Style
    requires env.fontIds != []
  {
    Style(env.fontIds[0], drawColor, 1.0)
  }

  /** Every newline gets a space in front of it, so that an empty line still
      splits into a piece of its own. */
  function ReplaceNewlines(s: seq<Codepoint>): (r: seq<Codepoint>)
    ensures |r| == |s| + Count(s, NEWLINE)
    ensures Count(r, NEWLINE) == Count(s, NEWLINE)
  {
    if s == [] then []
    else
      var head := if s[0] == NEWLINE then [SPACE, NEWLINE] else [s[0]];
      CountAppend(head, ReplaceNewlines(s[1..]), NEWLINE);
      head + ReplaceNewlines(s[1..])
  }

  /** Every font code among `words` names a loaded font. */
  predicate FontCodesValid(env: Env, words: seq<seq<Codepoint>>)
  {
    forall j :: 0 <= j < |words| && IsFontCode(words[j]) ==> 0 <= env.toInt(words[j][1..]) < |env.fontIds|
  }

  /** Every font code in any line names a loaded font. */
  predicate PiecesValid(env: Env, pieces: seq<seq<seq<Codepoint>>>)
  {
    forall i :: 0 <= i < |pieces| ==> FontCodesValid(env, pieces[i])
  }

  /** The logical lines of `text`, after the newline rewrite. */
  function Lines(text: seq<Codepoint>): (lines: seq<seq<Codepoint>>)
    ensures |lines| == Count(text, NEWLINE) + 1
  {
    SplitPieces(ReplaceNewlines(text), NEWLINE);
    Split(ReplaceNewlines(text), NEWLINE)
  }

  /** The space-separated pieces of each logical line of `text`. */
  function Pieces(text: seq<Codepoint>): (pieces: seq<seq<seq<Codepoint>>>)
    ensures |pieces| == |Lines(text)| == Count(text, NEWLINE) + 1
  {
    var lines := Lines(text);
    seq(|lines|, i requires 0 <= i < |lines| => Split(lines[i], SPACE))
  }

  /** The size a word is measured at. */
  function Measure(env: Env, style: Style, word: seq<Codepoint>): Size
    requires env.dpiScale != 0.0
  {
    env.bounds(style.font, env.size * style.scale / env.dpiScale, word)
  }

  /** The style in force after `word`: a font code selects a loaded font by
      index, a colour code sets the colour from hex, a scale code sets the
      scale; any other word leaves the style alone. */
  function Restyle(env: Env, style: Style, word: seq<Codepoint>): Style
    requires IsFontCode(word) ==> 0 <= env.toInt(word[1..]) < |env.fontIds|
  {
    if IsFontCode(word) then style.(font := env.fontIds[env.toInt(word[1..])])
    else if IsColorCode(word) then style.(color := env.fromHex(word[1..]))
    else if IsScaleCode(word) then style.(scale := env.toFloat(word[1..]))
    else style
  }

  /** What one split piece does: a code changes its style component and
      emits nothing; any other piece is emitted, with a space after it unless
      it is the last piece of its line, measured in the current style. */
  datatype Emitted = Emitted(style: Style, tokens: seq<Token>)

  function WordStep(env: Env, style: Style, word: seq<Codepoint>, last: bool): (e: Emitted)
    requires env.dpiScale != 0.0
    requires IsFontCode(word) ==> 0 <= env.toInt(word[1..]) < |env.fontIds|
    ensures IsCode(word) <==> e.tokens == []
    ensures IsFontCode(word) ==> e.style == style.(font := env.fontIds[env.toInt(word[1..])])
    ensures IsColorCode(word) ==> e.style == style.(color := env.fromHex(word[1..]))
    ensures IsScaleCode(word) ==> e.style == style.(scale := env.toFloat(word[1..]))
    ensures !IsCode(word) ==> e.style == style && |e.tokens| == 1
    ensures !IsCode(word) ==> e.tokens[0].word == if last then word else word + [SPACE]
    ensures !IsCode(word) ==> var t := e.tokens[0];
      t.size == Measure(env, style, t.word) && t.font == style.font && t.color == style.color && t.scale == style.scale
  {
    if IsCode(word) then Emitted(Restyle(env, style, word), [])
    else
      var w := if last then word else word + [SPACE];
      Emitted(style, [Token(w, Measure(env, style, w), style.font, style.color, style.scale)])
  }

  /** The tokens of the first `j` pieces of a line split into `words`. */
  function LineTokens(env: Env, style: Style, words: seq<seq<Codepoint>>, j: nat): Emitted
    requires env.dpiScale != 0.0
    requires j <= |words|
    requires FontCodesValid(env, words)
  {
    if j == 0 then Emitted(style, [])
    else
      var before := LineTokens(env, style, words, j - 1);
      var e := WordStep(env, before.style, words[j - 1], j - 1 == |words| - 1);
      Emitted(e.style, before.tokens + e.tokens)
  }

  /** One more piece of a line: what it emits follows what came before. */
  lemma LineTokensStep(env: Env, style: Style, words: seq<seq<Codepoint>>, j: nat)
    requires env.dpiScale != 0.0
    requires j < |words|
    requires FontCodesValid(env, words)
    ensures var before := LineTokens(env, style, words, j);
      var e := WordStep(env, before.style, words[j], j == |words| - 1);
      LineTokens(env, style, words, j + 1) == Emitted(e.style, before.tokens + e.tokens)
  {
  }

  /** The end-of-line marker in the given style, with no size. */
  function Marker(style: Style): Token
  {
    Token(MARKER, Size(0.0, 0.0), style.font, style.color, style.scale)
  }

  /** The tokens of the first `i` lines: each line's words, then a marker. */
  function TextTokens(env: Env, style: Style, pieces: seq<seq<seq<Codepoint>>>, i: nat): Emitted
    requires env.dpiScale != 0.0
    requires i <= |pieces|
    requires PiecesValid(env, pieces)
  {
    if i == 0 then Emitted(style, [])
    else
      var before := TextTokens(env, style, pieces, i - 1);
      var line := LineTokens(env, before.style, pieces[i - 1], |pieces[i - 1]|);
      Emitted(line.style, before.tokens + line.tokens + [Marker(line.style)])
  }

  /** Line `i` of `text` is cut at its spaces. */
  lemma PieceAt(text: seq<Codepoint>, i: nat)
    requires i < |Lines(text)|
    ensures Pieces(text)[i] == Split(Lines(text)[i], SPACE)
  {
  }

  /** One more line: its tokens, then its marker, in the style in force at
      its end. */
  lemma TextTokensStep(env: Env, style: Style, pieces: seq<seq<seq<Codepoint>>>, i: nat)
    requires env.dpiScale != 0.0
    requires 0 < i <= |pieces|
    requires PiecesValid(env, pieces)
    ensures var before := TextTokens(env, style, pieces, i - 1);
      var line := LineTokens(env, before.style, pieces[i - 1], |pieces[i - 1]|);
      TextTokens(env, style, pieces, i) == Emitted(line.style, before.tokens + line.tokens + [Marker(line.style)])
  {
  }

  /** The five lists of `tokens`: their words, sizes, fonts, colours and
      scales, index by index. */
  function Tabulation(tokens: seq<Token>): WordLists
  {
    WordLists(seq(|tokens|, i requires 0 <= i < |tokens| => tokens[i].word),
              seq(|tokens|, i requires 0 <= i < |tokens| => tokens[i].size),
              seq(|tokens|, i requires 0 <= i < |tokens| => tokens[i].font),
              seq(|tokens|, i requires 0 <= i < |tokens| => tokens[i].color),
              seq(|tokens|, i requires 0 <= i < |tokens| => tokens[i].scale))
  }

  /** Appending one token to each of the five lists. */
  function Push(lists: WordLists, t: Token): WordLists
  {
    WordLists(lists.words + [t.word], lists.sizes + [t.size], lists.fonts + [t.font],
              lists.colors + [t.color], lists.scales + [t.scale])
  }

  /** Pushing a token onto the lists of `tokens` gives the lists of
      `tokens` with that token appended. */
  lemma PushTabulation(tokens: seq<Token>, t: Token)
    ensures Push(Tabulation(tokens), t) == Tabulation(tokens + [t])
  {
    var l, r := Push(Tabulation(tokens), t), Tabulation(tokens + [t]);
    assert l.words == r.words;
    assert l.sizes == r.sizes;
    assert l.fonts == r.fonts;
    assert l.colors == r.colors;
    assert l.scales == r.scales;
  }
}
