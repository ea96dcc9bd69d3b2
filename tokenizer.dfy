module Tokenizer {
  import opened Text
  import opened Colors
  import opened Tokens
  import opened TokenizerProps
  import opened TokenStyles

  /** One line: its pieces, from the given style on, then the end-of-line
      marker in the style in force at its end. */
  method TokenizeLine(env: Env, style0: Style, words: seq<seq<Codepoint>>, lists0: WordLists, ghost tokens0: seq<Token>)
    returns (lists: WordLists, style: Style)
    requires env.dpiScale != 0.0
    requires FontCodesValid(env, words)
    requires lists0 == Tabulation(tokens0)
    ensures var e := LineTokens(env, style0, words, |words|);
      style == e.style && lists == Tabulation(tokens0 + e.tokens + [Marker(e.style)])
  {
    lists, style := lists0, style0;
    ghost var tokens := tokens0;
    var j := 0;
    while j < |words|
      invariant j <= |words|
      invariant LineTokens(env, style0, words, j).style == style
      invariant tokens == tokens0 + LineTokens(env, style0, words, j).tokens
      invariant lists == Tabulation(tokens)
    {
      ghost var e := WordStep(env, style, words[j], j == |words| - 1);
      LineTokensStep(env, style0, words, j);
      if IsFontCode(words[j]) {
        style := style.(font := env.fontIds[env.toInt(words[j][1..])]);
      } else if IsColorCode(words[j]) {
        style := style.(color := env.fromHex(words[j][1..]));
      } else if IsScaleCode(words[j]) {
        style := style.(scale := env.toFloat(words[j][1..]));
      } else {
        var word := words[j];
        if j != |words| - 1 {
          word := word + [SPACE];
        }
        var t := Token(word, Measure(env, style, word), style.font, style.color, style.scale);
        PushTabulation(tokens, t);
        lists := Push(lists, t);
        tokens := tokens + [t];
      }
      j := j + 1;
    }
    PushTabulation(tokens, Marker(style));
    lists := Push(lists, Marker(style));
  }

  /** The outer loop over the lines, each split at its spaces into the
      pieces `pieces` stands for. Returns the five lists and the style in
      force at the end. */
  method TokenizeLines(env: Env, style0: Style, lines: seq<seq<Codepoint>>, ghost pieces: seq<seq<seq<Codepoint>>>)
    returns (lists: WordLists, style: Style)
    requires env.dpiScale != 0.0
    requires |pieces| == |lines|
    requires forall i :: 0 <= i < |lines| ==> pieces[i] == Split(lines[i], SPACE)
    requires PiecesValid(env, pieces)
    ensures var e := TextTokens(env, style0, pieces, |pieces|);
      lists == Tabulation(e.tokens) && style == e.style
  {
    style := style0;
    lists := WordLists([], [], [], [], []);
    assert lists == Tabulation([]);
    ghost var tokens: seq<Token> := [];
    var i := 0;
    while i < |lines|
      invariant i <= |lines|
      invariant TextTokens(env, style0, pieces, i) == Emitted(style, tokens)
      invariant lists == Tabulation(tokens)
    {
      var words := Split(lines[i], SPACE);
      ghost var e := LineTokens(env, style, words, |words|);
      lists, style := TokenizeLine(env, style, words, lists, tokens);
      tokens := tokens + e.tokens + [Marker(e.style)];
      TextTokensStep(env, style0, pieces, i + 1);
      i := i + 1;
    }
  }

  /** `drawMultiColumnFormatted`'s tokenizer: the text, with a space put
      before each newline, split into lines and the lines into words, from
      the first font in the draw colour at scale 1. */
  method Tokenize(env: Env, drawColor: Color, text: seq<Codepoint>) returns (lists: WordLists, style: Style)
    requires env.fontIds != [] && env.dpiScale != 0.0
    requires PiecesValid(env, Pieces(text))
    ensures var e := TextTokens(env, Initial(env, drawColor), Pieces(text), |Pieces(text)|);
      lists == Tabulation(e.tokens) && style == e.style
  {
    var localText := ReplaceNewlines(text);
    var lines := Split(localText, NEWLINE);
    forall i | 0 <= i < |lines|
      ensures Pieces(text)[i] == Split(lines[i], SPACE)
    {
      PieceAt(text, i);
    }
    lists, style := TokenizeLines(env, Style(env.fontIds[0], drawColor, 1.0), lines, Pieces(text));
  }

  /** The tokenizer's markers: one per logical line (of which there is one
      more than the text has newlines), and the word list ends with one. */
  lemma TokenizeMarkers(env: Env, drawColor: Color, text: seq<Codepoint>)
    requires env.fontIds != [] && env.dpiScale != 0.0
    requires PiecesValid(env, Pieces(text))
    ensures var tokens := TextTokens(env, Initial(env, drawColor), Pieces(text), |Pieces(text)|).tokens;
      Markers(tokens) == |Pieces(text)|
    ensures var tokens := TextTokens(env, Initial(env, drawColor), Pieces(text), |Pieces(text)|).tokens;
      tokens != [] && tokens[|tokens| - 1].word == MARKER
  {
    PiecesHaveNoNewline(text);
    TextShape(env, Initial(env, drawColor), Pieces(text));
  }

  /** The five lists the tokenizer fills stay parallel: one entry in each
      per word or marker. */
  lemma TokenizeParallel(env: Env, drawColor: Color, text: seq<Codepoint>)
    requires env.fontIds != [] && env.dpiScale != 0.0
    requires PiecesValid(env, Pieces(text))
    ensures var tokens := TextTokens(env, Initial(env, drawColor), Pieces(text), |Pieces(text)|).tokens;
      var lists := Tabulation(tokens);
      |lists.words| == |lists.sizes| == |lists.fonts| == |lists.colors| == |lists.scales| == |tokens|
  {
  }

  /** Every word the tokenizer lists is measured in the style it is drawn
      in, and the markers have size zero. */
  lemma TokenizeMeasured(env: Env, drawColor: Color, text: seq<Codepoint>)
    requires env.fontIds != [] && env.dpiScale != 0.0
    requires PiecesValid(env, Pieces(text))
    ensures AllMeasured(env, TextTokens(env, Initial(env, drawColor), Pieces(text), |Pieces(text)|).tokens)
  {
    PiecesHaveNoNewline(text);
    TextShape(env, Initial(env, drawColor), Pieces(text));
  }

  /** Without control codes the tokenizer loses and invents nothing: its
      words, concatenated, spell the text with a space before every newline
      and one more newline at the end, and the style at the end is the
      initial one. */
  lemma TokenizeSpellsText(env: Env, drawColor: Color, text: seq<Codepoint>)
    requires env.fontIds != [] && env.dpiScale != 0.0
    requires forall k :: 0 <= k < |Pieces(text)| ==> NoCodes(Pieces(text)[k])
    ensures PiecesValid(env, Pieces(text))
    ensures var e := TextTokens(env, Initial(env, drawColor), Pieces(text), |Pieces(text)|);
      e.style == Initial(env, drawColor) && Spelled(e.tokens) == ReplaceNewlines(text) + [NEWLINE]
  {
    var lines, pieces := Lines(text), Pieces(text);
    forall k | 0 <= k < |pieces|
      ensures NoCodes(pieces[k]) && Join(pieces[k], SPACE) == lines[k]
    {
      PieceAt(text, k);
      JoinSplit(lines[k], SPACE);
    }
    forall k | 0 <= k < |pieces|
      ensures FontCodesValid(env, pieces[k])
    {
      NoCodesValid(env, pieces[k]);
    }
    TextSpelled(env, Initial(env, drawColor), pieces, lines, |pieces|);
    JoinSplit(ReplaceNewlines(text), NEWLINE);
    assert lines[..|pieces|] == lines;
  }

  /** What the tokenizer makes of any text, control codes included: line by
      line, the pieces that are not codes, each followed by a space unless it
      is its line's last piece, then one marker; each word in the style the
      codes before it set, starting from the first font, the drawing colour
      and scale 1, and each marker in the style at the end of its line. */
  lemma TokenizeWithCodes(env: Env, drawColor: Color, text: seq<Codepoint>)
    requires env.fontIds != [] && env.dpiScale != 0.0
    requires PiecesValid(env, Pieces(text))
    ensures var pieces, style := Pieces(text), Initial(env, drawColor);
      var e := TextTokens(env, style, pieces, |pieces|);
      && Spelled(e.tokens) == TextSpelling(pieces, |pieces|)
      && e.style == LineStyle(env, style, pieces, |pieces|)
      && |e.tokens| == LineOffset(pieces, |pieces|)
      && LinesAt(env, style, pieces, |pieces|, e.tokens)
      && MarkersAt(env, style, pieces, |pieces|, e.tokens)
  {
    var pieces, style := Pieces(text), Initial(env, drawColor);
    TextStyled(env, style, pieces, |pieces|);
    TextSpelledWithCodes(env, style, pieces, |pieces|);
  }
}
