/** What the tokenizer promises about the words it produces. */
module TokenizerProps {
  import opened Text
  import opened Tokens

  /** The number of end-of-line markers among `tokens`. */
  function Markers(tokens: seq<Token>): (n: nat)
    ensures n <= |tokens|
  {
    if tokens == [] then 0
    else Markers(tokens[..|tokens| - 1]) + (if tokens[|tokens| - 1].word == MARKER then 1 else 0)
  }

  lemma {:induction false} MarkersAppend(a: seq<Token>, b: seq<Token>)
    ensures Markers(a + b) == Markers(a) + Markers(b)
    decreases |b|
  {
    if b == [] {
      assert a + b == a;
    } else {
      assert (a + b)[..|a + b| - 1] == a + b[..|b| - 1];
      MarkersAppend(a, b[..|b| - 1]);
    }
  }

  /** A token is measured in its own style, except the marker, which has no
      size. */
  predicate Measured(env: Env, t: Token)
    requires env.dpiScale != 0.0
  {
    if t.word == MARKER then t.size == Size(0.0, 0.0)
    else t.size == Measure(env, Style(t.font, t.color, t.scale), t.word)
  }

  /** Every token of `tokens` is measured in its own style. */
  predicate AllMeasured(env: Env, tokens: seq<Token>)
    requires env.dpiScale != 0.0
  {
    forall k :: 0 <= k < |tokens| ==> Measured(env, tokens[k])
  }

  lemma AllMeasuredAppend(env: Env, a: seq<Token>, b: seq<Token>)
    requires env.dpiScale != 0.0
    requires AllMeasured(env, a) && AllMeasured(env, b)
    ensures AllMeasured(env, a + b)
  {
    forall k | 0 <= k < |a + b|
      ensures Measured(env, (a + b)[k])
    {
      if k >= |a| {
        assert (a + b)[k] == b[k - |a|];
      }
    }
  }

  /** A piece without a newline gives no marker, and what it gives is
      measured in the style in force. */
  lemma StepShape(env: Env, style: Style, word: seq<Codepoint>, last: bool)
    requires env.dpiScale != 0.0
    requires IsFontCode(word) ==> 0 <= env.toInt(word[1..]) < |env.fontIds|
    requires NEWLINE !in word
    ensures var e := WordStep(env, style, word, last);
      Markers(e.tokens) == 0 && AllMeasured(env, e.tokens)
  {
    var e := WordStep(env, style, word, last);
    if e.tokens != [] {
      var t := e.tokens[0];
      assert t.word != MARKER by {
        assert t.word == if last then word else word + [SPACE];
        if |word| > 0 {
          assert word[0] in word;
          assert t.word[0] == word[0];
        } else if !last {
          assert t.word[0] == SPACE;
        }
      }
      assert e.tokens[..0] == [];
      assert Style(t.font, t.color, t.scale) == style;
    }
  }

  /** None of `words` holds a newline. */
  predicate NoNewlineWords(words: seq<seq<Codepoint>>)
  {
    forall k :: 0 <= k < |words| ==> NEWLINE !in words[k]
  }

  /** Piece `j` of a line without newlines adds no marker and only
      measured tokens. */
  lemma LineShapeStep(env: Env, style: Style, words: seq<seq<Codepoint>>, j: nat)
    requires env.dpiScale != 0.0
    requires 0 < j <= |words|
    requires FontCodesValid(env, words)
    requires NEWLINE !in words[j - 1]
    requires var tokens := LineTokens(env, style, words, j - 1).tokens;
      Markers(tokens) == 0 && AllMeasured(env, tokens)
    ensures var tokens := LineTokens(env, style, words, j).tokens;
      Markers(tokens) == 0 && AllMeasured(env, tokens)
  {
    var before := LineTokens(env, style, words, j - 1);
    StepShape(env, before.style, words[j - 1], j == |words|);
    var e := WordStep(env, before.style, words[j - 1], j == |words|);
    MarkersAppend(before.tokens, e.tokens);
    AllMeasuredAppend(env, before.tokens, e.tokens);
  }

  /** The pieces of a line without newlines give no marker and are measured
      in their own style. */
  lemma {:induction false} LineTokensShape(env: Env, style: Style, words: seq<seq<Codepoint>>, j: nat)
    requires env.dpiScale != 0.0
    requires j <= |words|
    requires FontCodesValid(env, words)
    requires NoNewlineWords(words)
    ensures var tokens := LineTokens(env, style, words, j).tokens;
      Markers(tokens) == 0 && AllMeasured(env, tokens)
    decreases j
  {
    if j > 0 {
      LineTokensShape(env, style, words, j - 1);
      LineShapeStep(env, style, words, j);
    }
  }

  lemma PiecesHaveNoNewline(text: seq<Codepoint>)
    ensures forall i :: 0 <= i < |Pieces(text)| ==> NoNewlineWords(Pieces(text)[i])
  {
    var lines := Lines(text);
    SplitPieces(ReplaceNewlines(text), NEWLINE);
    forall i | 0 <= i < |lines|
      ensures NoNewlineWords(Pieces(text)[i])
    {
      SplitAbsent(lines[i], SPACE, NEWLINE);
    }
  }

  /** A block without markers, closed by a marker, adds one marker. */
  lemma MarkersBlock(a: seq<Token>, b: seq<Token>, m: Token)
    requires Markers(b) == 0 && m.word == MARKER
    ensures Markers(a + b + [m]) == Markers(a) + 1
  {
    var x := a + b + [m];
    assert x[..|x| - 1] == a + b;
    MarkersAppend(a, b);
  }

  /** Line `i` adds one marker and ends with it. */
  lemma TextMarkersStep(env: Env, style: Style, pieces: seq<seq<seq<Codepoint>>>, i: nat)
    requires env.dpiScale != 0.0
    requires 0 < i <= |pieces|
    requires PiecesValid(env, pieces)
    requires NoNewlineWords(pieces[i - 1])
    requires Markers(TextTokens(env, style, pieces, i - 1).tokens) == i - 1
    ensures var tokens := TextTokens(env, style, pieces, i).tokens;
      && Markers(tokens) == i
      && tokens != [] && tokens[|tokens| - 1].word == MARKER
  {
    var before := TextTokens(env, style, pieces, i - 1);
    var words := pieces[i - 1];
    LineTokensShape(env, before.style, words, |words|);
    var line := LineTokens(env, before.style, words, |words|);
    TextTokensStep(env, style, pieces, i);
    MarkersBlock(before.tokens, line.tokens, Marker(line.style));
  }

  /** The first `i` lines give exactly `i` markers. */
  lemma {:induction false} TextMarkers(env: Env, style: Style, pieces: seq<seq<seq<Codepoint>>>, i: nat)
    requires env.dpiScale != 0.0
    requires i <= |pieces|
    requires PiecesValid(env, pieces)
    requires forall k :: 0 <= k < |pieces| ==> NoNewlineWords(pieces[k])
    ensures Markers(TextTokens(env, style, pieces, i).tokens) == i
    decreases i
  {
    if i > 0 {
      TextMarkers(env, style, pieces, i - 1);
      TextMarkersStep(env, style, pieces, i);
    }
  }

  /** Line `i` adds only tokens measured in their own style. */
  lemma TextMeasuredStep(env: Env, style: Style, pieces: seq<seq<seq<Codepoint>>>, i: nat)
    requires env.dpiScale != 0.0
    requires 0 < i <= |pieces|
    requires PiecesValid(env, pieces)
    requires NoNewlineWords(pieces[i - 1])
    requires AllMeasured(env, TextTokens(env, style, pieces, i - 1).tokens)
    ensures AllMeasured(env, TextTokens(env, style, pieces, i).tokens)
  {
    var before := TextTokens(env, style, pieces, i - 1);
    var words := pieces[i - 1];
    LineTokensShape(env, before.style, words, |words|);
    var line := LineTokens(env, before.style, words, |words|);
    var marker := [Marker(line.style)];
    TextTokensStep(env, style, pieces, i);
    assert AllMeasured(env, marker);
    AllMeasuredAppend(env, before.tokens, line.tokens);
    AllMeasuredAppend(env, before.tokens + line.tokens, marker);
  }

  /** Every token of the first `i` lines is measured in its own style. */
  lemma {:induction false} TextMeasured(env: Env, style: Style, pieces: seq<seq<seq<Codepoint>>>, i: nat)
    requires env.dpiScale != 0.0
    requires i <= |pieces|
    requires PiecesValid(env, pieces)
    requires forall k :: 0 <= k < |pieces| ==> NoNewlineWords(pieces[k])
    ensures AllMeasured(env, TextTokens(env, style, pieces, i).tokens)
    decreases i
  {
    if i > 0 {
      TextMeasured(env, style, pieces, i - 1);
      TextMeasuredStep(env, style, pieces, i);
    }
  }

  /** Lines whose pieces hold no newline give one marker per line, end with
      a marker and are measured throughout. */
  lemma TextShape(env: Env, style: Style, pieces: seq<seq<seq<Codepoint>>>)
    requires env.dpiScale != 0.0
    requires |pieces| > 0
    requires PiecesValid(env, pieces)
    requires forall k :: 0 <= k < |pieces| ==> NoNewlineWords(pieces[k])
    ensures var tokens := TextTokens(env, style, pieces, |pieces|).tokens;
      && Markers(tokens) == |pieces|
      && tokens != [] && tokens[|tokens| - 1].word == MARKER
      && AllMeasured(env, tokens)
  {
    var n := |pieces|;
    TextMarkers(env, style, pieces, n - 1);
    assert Markers(TextTokens(env, style, pieces, n - 1).tokens) == n - 1;
    TextMarkersStep(env, style, pieces, n);
    TextMeasured(env, style, pieces, n);
  }

  /** The text the tokens spell out, markers included. */
  function Spelled(tokens: seq<Token>): seq<Codepoint>
  {
    if tokens == [] then [] else Spelled(tokens[..|tokens| - 1]) + tokens[|tokens| - 1].word
  }

  lemma {:induction false} SpelledAppend(a: seq<Token>, b: seq<Token>)
    ensures Spelled(a + b) == Spelled(a) + Spelled(b)
    decreases |b|
  {
    if b == [] {
      assert a + b == a;
    } else {
      assert (a + b)[..|a + b| - 1] == a + b[..|b| - 1];
      SpelledAppend(a, b[..|b| - 1]);
    }
  }

  lemma SpelledOne(t: Token)
    ensures Spelled([t]) == t.word
  {
    assert [t][..0] == [];
  }

  /** None of `words` is a control code. */
  predicate NoCodes(words: seq<seq<Codepoint>>)
  {
    forall j :: 0 <= j < |words| ==> !IsCode(words[j])
  }

  /** Spelling one more piece of a line: a space after every piece but
      the line's last. */
  lemma JoinPieceStep(words: seq<seq<Codepoint>>, j: nat, before: seq<Codepoint>, piece: seq<Codepoint>)
    requires 0 < j <= |words|
    requires before == if j == 1 then [] else Join(words[..j - 1], SPACE) + [SPACE]
    requires piece == if j == |words| then words[j - 1] else words[j - 1] + [SPACE]
    ensures before + piece == Join(words[..j], SPACE) + (if j < |words| then [SPACE] else [])
  {
    if j > 1 {
      JoinSnoc(words[..j - 1], words[j - 1], SPACE);
      assert words[..j] == words[..j - 1] + [words[j - 1]];
    } else {
      assert words[..1] == [words[0]];
    }
  }

  /** Without codes every piece is a word, so no font code needs checking. */
  lemma NoCodesValid(env: Env, words: seq<seq<Codepoint>>)
    requires NoCodes(words)
    ensures FontCodesValid(env, words)
  {
  }

  /** Piece `j` of a line without codes adds itself, with a space unless it
      is the line's last. */
  lemma LineSpelledStep(env: Env, style: Style, words: seq<seq<Codepoint>>, j: nat)
    requires env.dpiScale != 0.0
    requires 0 < j <= |words|
    requires NoCodes(words) && FontCodesValid(env, words)
    requires var e := LineTokens(env, style, words, j - 1);
      e.style == style && Spelled(e.tokens) == if j == 1 then [] else Join(words[..j - 1], SPACE) + [SPACE]
    ensures var e := LineTokens(env, style, words, j);
      e.style == style && Spelled(e.tokens) == Join(words[..j], SPACE) + (if j < |words| then [SPACE] else [])
  {
    var before := LineTokens(env, style, words, j - 1);
    var e := WordStep(env, style, words[j - 1], j == |words|);
    SpelledAppend(before.tokens, e.tokens);
    assert e.tokens == [e.tokens[0]];
    SpelledOne(e.tokens[0]);
    JoinPieceStep(words, j, Spelled(before.tokens), e.tokens[0].word);
  }

  /** The first `j` pieces of a line without codes spell those pieces with a
      space after each but the line's last, and leave the style alone. */
  lemma {:induction false} LineSpelledUpTo(env: Env, style: Style, words: seq<seq<Codepoint>>, j: nat)
    requires env.dpiScale != 0.0
    requires 0 < j <= |words|
    requires NoCodes(words) && FontCodesValid(env, words)
    ensures var e := LineTokens(env, style, words, j);
      e.style == style && Spelled(e.tokens) == Join(words[..j], SPACE) + (if j < |words| then [SPACE] else [])
    decreases j
  {
    if j > 1 {
      LineSpelledUpTo(env, style, words, j - 1);
    }
    LineSpelledStep(env, style, words, j);
  }

  /** A line without codes spells its pieces joined by spaces. */
  lemma LineSpelled(env: Env, style: Style, words: seq<seq<Codepoint>>)
    requires env.dpiScale != 0.0
    requires NoCodes(words) && FontCodesValid(env, words)
    ensures var e := LineTokens(env, style, words, |words|);
      e.style == style && Spelled(e.tokens) == Join(words, SPACE)
  {
    if words != [] {
      LineSpelledUpTo(env, style, words, |words|);
      assert words[..|words|] == words;
    }
  }

  /** Spelling one more line: the line, then a newline. */
  lemma JoinLineStep(lines: seq<seq<Codepoint>>, i: nat, before: seq<Codepoint>)
    requires 0 < i <= |lines|
    requires before == if i == 1 then [] else Join(lines[..i - 1], NEWLINE) + [NEWLINE]
    ensures before + lines[i - 1] + [NEWLINE] == Join(lines[..i], NEWLINE) + [NEWLINE]
  {
    if i > 1 {
      JoinSnoc(lines[..i - 1], lines[i - 1], NEWLINE);
      assert lines[..i] == lines[..i - 1] + [lines[i - 1]];
    } else {
      assert lines[..1] == [lines[0]];
    }
  }

  /** Line `i` of a text without codes adds that line and a newline. */
  lemma TextSpelledStep(env: Env, style: Style, pieces: seq<seq<seq<Codepoint>>>, lines: seq<seq<Codepoint>>, i: nat)
    requires env.dpiScale != 0.0
    requires 0 < i <= |pieces| == |lines|
    requires PiecesValid(env, pieces)
    requires NoCodes(pieces[i - 1]) && Join(pieces[i - 1], SPACE) == lines[i - 1]
    requires var e := TextTokens(env, style, pieces, i - 1);
      e.style == style && Spelled(e.tokens) == if i == 1 then [] else Join(lines[..i - 1], NEWLINE) + [NEWLINE]
    ensures var e := TextTokens(env, style, pieces, i);
      e.style == style && Spelled(e.tokens) == Join(lines[..i], NEWLINE) + [NEWLINE]
  {
    var before := TextTokens(env, style, pieces, i - 1);
    LineSpelled(env, style, pieces[i - 1]);
    var line := LineTokens(env, style, pieces[i - 1], |pieces[i - 1]|);
    TextTokensStep(env, style, pieces, i);
    SpelledAppend(before.tokens + line.tokens, [Marker(style)]);
    SpelledAppend(before.tokens, line.tokens);
    SpelledOne(Marker(style));
    JoinLineStep(lines, i, Spelled(before.tokens));
  }
  /** The first `i` lines of a text without codes spell those lines, each
      followed by a newline, and leave the style alone. */
  lemma {:induction false} TextSpelled(env: Env, style: Style, pieces: seq<seq<seq<Codepoint>>>, lines: seq<seq<Codepoint>>, i: nat)
    requires env.dpiScale != 0.0
    requires 0 < i <= |pieces| == |lines|
    requires PiecesValid(env, pieces)
    requires forall k :: 0 <= k < |pieces| ==> NoCodes(pieces[k]) && Join(pieces[k], SPACE) == lines[k]
    ensures var e := TextTokens(env, style, pieces, i);
      e.style == style && Spelled(e.tokens) == Join(lines[..i], NEWLINE) + [NEWLINE]
    decreases i
  {
    if i > 1 {
      TextSpelled(env, style, pieces, lines, i - 1);
    }
    TextSpelledStep(env, style, pieces, lines, i);
  }
}
