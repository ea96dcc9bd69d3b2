/** What the tokenizer makes of styled text, control codes included, stated
    from the split pieces alone: each logical line contributes its pieces
    that are not codes, in order, each followed by a space unless it is the
    line's last piece, and then one marker; every word is drawn in the style
    the codes before it set, and that style carries over from one line to
    the next. */
module TokenStyles {
  import opened Text
  import opened Tokens
  import opened TokenizerProps

  // ---------------------------------------------------------------------
  // Reference definitions over the pieces

  /** How many of the first `j` pieces of a line are words, not codes. */
  function WordCount(words: seq<seq<Codepoint>>, j: nat): (n: nat)
    requires j <= |words|
    ensures n <= j
  {
    if j == 0 then 0 else WordCount(words, j - 1) + (if IsCode(words[j - 1]) then 0 else 1)
  }

  /** Piece `k` of a line as it is drawn: with a space after it, unless it
      is the line's last piece. */
  function Drawn(words: seq<seq<Codepoint>>, k: nat): seq<Codepoint>
    requires k < |words|
  {
    if k == |words| - 1 then words[k] else words[k] + [SPACE]
  }

  /** The style in force before piece `j` of a line that began in `style`:
      the codes among the earlier pieces applied in order. */
  function StyleAfter(env: Env, style: Style, words: seq<seq<Codepoint>>, j: nat): Style
    requires j <= |words|
    requires FontCodesValid(env, words)
  {
    if j == 0 then style else Restyle(env, StyleAfter(env, style, words, j - 1), words[j - 1])
  }

  /** The style in force at the start of line `i`: every code of the earlier
      lines applied in order. */
  function LineStyle(env: Env, style: Style, pieces: seq<seq<seq<Codepoint>>>, i: nat): Style
    requires i <= |pieces|
    requires PiecesValid(env, pieces)
  {
    if i == 0 then style
    else StyleAfter(env, LineStyle(env, style, pieces, i - 1), pieces[i - 1], |pieces[i - 1]|)
  }

  /** Where the tokens of line `i` begin: each earlier line gave its words
      and one marker. */
  function LineOffset(pieces: seq<seq<seq<Codepoint>>>, i: nat): nat
    requires i <= |pieces|
  {
    if i == 0 then 0 else LineOffset(pieces, i - 1) + WordCount(pieces[i - 1], |pieces[i - 1]|) + 1
  }

  /** Where the marker that closes line `l` sits: after the line's words. */
  function LineEnd(pieces: seq<seq<seq<Codepoint>>>, l: nat): nat
    requires l < |pieces|
  {
    LineOffset(pieces, l) + WordCount(pieces[l], |pieces[l]|)
  }

  /** `t` draws `word` in `style`, measured in that style. */
  predicate Carries(env: Env, t: Token, word: seq<Codepoint>, style: Style)
    requires env.dpiScale != 0.0
  {
    t == Token(word, Measure(env, style, word), style.font, style.color, style.scale)
  }

  /** The first `j` pieces of a line, codes left out, each as drawn. */
  function LineSpelling(words: seq<seq<Codepoint>>, j: nat): seq<Codepoint>
    requires j <= |words|
  {
    if j == 0 then [] else LineSpelling(words, j - 1) + (if IsCode(words[j - 1]) then [] else Drawn(words, j - 1))
  }

  /** The first `i` lines spelled, each closed by a newline. */
  function TextSpelling(pieces: seq<seq<seq<Codepoint>>>, i: nat): seq<Codepoint>
    requires i <= |pieces|
  {
    if i == 0 then [] else TextSpelling(pieces, i - 1) + LineSpelling(pieces[i - 1], |pieces[i - 1]|) + [NEWLINE]
  }

  /** Piece `k` of a line, and line `l` of a text: named so that the
      statements below are instantiated only where a proof asks for them. */
  function PieceOf(words: seq<seq<Codepoint>>, k: nat): seq<Codepoint>
    requires k < |words|
  {
    words[k]
  }

  function LineOf(pieces: seq<seq<seq<Codepoint>>>, l: nat): seq<seq<Codepoint>>
    requires l < |pieces|
  {
    pieces[l]
  }

  /** The words of the first `j` pieces of a line that began in `style`
      sit in `tokens` from index `base` on: piece `k`, when not a code, is
      drawn at `base` plus the number of words before it, in the style the
      codes before it set. */
  ghost predicate WordsAt(env: Env, style: Style, words: seq<seq<Codepoint>>, j: nat, tokens: seq<Token>, base: nat)
    requires env.dpiScale != 0.0
    requires j <= |words|
    requires FontCodesValid(env, words)
  {
    forall k {:trigger PieceOf(words, k)} :: 0 <= k < j && !IsCode(PieceOf(words, k)) ==>
      base + WordCount(words, k) < |tokens| &&
      Carries(env, tokens[base + WordCount(words, k)], Drawn(words, k), StyleAfter(env, style, words, k))
  }

  /** Each of the first `i` lines sits in `tokens` at its offset. */
  ghost predicate LinesAt(env: Env, style: Style, pieces: seq<seq<seq<Codepoint>>>, i: nat, tokens: seq<Token>)
    requires env.dpiScale != 0.0
    requires i <= |pieces|
    requires PiecesValid(env, pieces)
  {
    forall l {:trigger LineOf(pieces, l)} :: 0 <= l < i ==>
      WordsAt(env, LineStyle(env, style, pieces, l), LineOf(pieces, l), |pieces[l]|, tokens, LineOffset(pieces, l))
  }

  /** Each of the first `i` lines is closed in `tokens` by a marker in the
      style in force at its end. */
  ghost predicate MarkersAt(env: Env, style: Style, pieces: seq<seq<seq<Codepoint>>>, i: nat, tokens: seq<Token>)
    requires i <= |pieces|
    requires PiecesValid(env, pieces)
  {
    forall l {:trigger LineEnd(pieces, l)} :: 0 <= l < i ==>
      LineEnd(pieces, l) < |tokens| && tokens[LineEnd(pieces, l)] == Marker(LineStyle(env, style, pieces, l + 1))
  }

  // ---------------------------------------------------------------------
  // Growing the token list

  lemma WordsAtPrefix(env: Env, style: Style, words: seq<seq<Codepoint>>, j: nat, before: seq<Token>, after: seq<Token>, base: nat)
    requires env.dpiScale != 0.0
    requires j <= |words|
    requires FontCodesValid(env, words)
    requires |before| <= |after| && after[..|before|] == before
    requires WordsAt(env, style, words, j, before, base)
    ensures WordsAt(env, style, words, j, after, base)
  {
    forall k | 0 <= k < j && !IsCode(words[k])
      ensures base + WordCount(words, k) < |after|
      ensures Carries(env, after[base + WordCount(words, k)], Drawn(words, k), StyleAfter(env, style, words, k))
    {
      assert PieceOf(words, k) == words[k];
      assert after[base + WordCount(words, k)] == after[..|before|][base + WordCount(words, k)];
    }
  }

  lemma WordsAtSnoc(env: Env, style: Style, words: seq<seq<Codepoint>>, j: nat, tokens: seq<Token>, base: nat)
    requires env.dpiScale != 0.0
    requires 0 < j <= |words|
    requires FontCodesValid(env, words)
    requires WordsAt(env, style, words, j - 1, tokens, base)
    requires !IsCode(words[j - 1]) ==>
      base + WordCount(words, j - 1) < |tokens| &&
      Carries(env, tokens[base + WordCount(words, j - 1)], Drawn(words, j - 1), StyleAfter(env, style, words, j - 1))
    ensures WordsAt(env, style, words, j, tokens, base)
  {
    forall k | 0 <= k < j && !IsCode(words[k])
      ensures base + WordCount(words, k) < |tokens|
      ensures Carries(env, tokens[base + WordCount(words, k)], Drawn(words, k), StyleAfter(env, style, words, k))
    {
      assert PieceOf(words, k) == words[k];
    }
  }

  lemma LinesAtSnoc(env: Env, style: Style, pieces: seq<seq<seq<Codepoint>>>, i: nat, tokens: seq<Token>)
    requires env.dpiScale != 0.0
    requires 0 < i <= |pieces|
    requires PiecesValid(env, pieces)
    requires LinesAt(env, style, pieces, i - 1, tokens)
    requires WordsAt(env, LineStyle(env, style, pieces, i - 1), pieces[i - 1], |pieces[i - 1]|, tokens, LineOffset(pieces, i - 1))
    ensures LinesAt(env, style, pieces, i, tokens)
  {
    forall l | 0 <= l < i
      ensures WordsAt(env, LineStyle(env, style, pieces, l), pieces[l], |pieces[l]|, tokens, LineOffset(pieces, l))
    {
      assert LineOf(pieces, l) == pieces[l];
    }
  }

  lemma MarkersAtSnoc(env: Env, style: Style, pieces: seq<seq<seq<Codepoint>>>, i: nat, tokens: seq<Token>)
    requires 0 < i <= |pieces|
    requires PiecesValid(env, pieces)
    requires MarkersAt(env, style, pieces, i - 1, tokens)
    requires LineEnd(pieces, i - 1) < |tokens|
    requires tokens[LineEnd(pieces, i - 1)] == Marker(LineStyle(env, style, pieces, i))
    ensures MarkersAt(env, style, pieces, i, tokens)
  {
    forall l | 0 <= l < i
      ensures LineEnd(pieces, l) < |tokens|
      ensures tokens[LineEnd(pieces, l)] == Marker(LineStyle(env, style, pieces, l + 1))
    {
    }
  }

  lemma LinesAtPrefix(env: Env, style: Style, pieces: seq<seq<seq<Codepoint>>>, i: nat, before: seq<Token>, after: seq<Token>)
    requires env.dpiScale != 0.0
    requires i <= |pieces|
    requires PiecesValid(env, pieces)
    requires |before| <= |after| && after[..|before|] == before
    requires LinesAt(env, style, pieces, i, before)
    ensures LinesAt(env, style, pieces, i, after)
  {
    forall l | 0 <= l < i
      ensures WordsAt(env, LineStyle(env, style, pieces, l), pieces[l], |pieces[l]|, after, LineOffset(pieces, l))
    {
      assert LineOf(pieces, l) == pieces[l];
      WordsAtPrefix(env, LineStyle(env, style, pieces, l), pieces[l], |pieces[l]|, before, after, LineOffset(pieces, l));
    }
  }

  lemma MarkersAtPrefix(env: Env, style: Style, pieces: seq<seq<seq<Codepoint>>>, i: nat, before: seq<Token>, after: seq<Token>)
    requires i <= |pieces|
    requires PiecesValid(env, pieces)
    requires |before| <= |after| && after[..|before|] == before
    requires MarkersAt(env, style, pieces, i, before)
    ensures MarkersAt(env, style, pieces, i, after)
  {
    forall l | 0 <= l < i
      ensures LineEnd(pieces, l) < |after|
      ensures after[LineEnd(pieces, l)] == Marker(LineStyle(env, style, pieces, l + 1))
    {
      assert after[LineEnd(pieces, l)] == after[..|before|][LineEnd(pieces, l)];
    }
  }

  /** A line's words shifted behind `prefix` sit `|prefix|` further on. */
  lemma WordsAtShift(env: Env, style: Style, words: seq<seq<Codepoint>>, line: seq<Token>, prefix: seq<Token>, suffix: seq<Token>)
    requires env.dpiScale != 0.0
    requires FontCodesValid(env, words)
    requires WordsAt(env, style, words, |words|, line, 0)
    ensures WordsAt(env, style, words, |words|, prefix + line + suffix, |prefix|)
  {
    forall k | 0 <= k < |words| && !IsCode(words[k])
      ensures |prefix| + WordCount(words, k) < |prefix + line + suffix|
      ensures Carries(env, (prefix + line + suffix)[|prefix| + WordCount(words, k)], Drawn(words, k), StyleAfter(env, style, words, k))
    {
      assert PieceOf(words, k) == words[k];
      assert (prefix + line + suffix)[|prefix| + WordCount(words, k)] == line[WordCount(words, k)];
    }
  }

  // ---------------------------------------------------------------------
  // One line

  /** Piece `j - 1` of a line emits the next word, if it is one. */
  lemma LineStyledStep(env: Env, style: Style, words: seq<seq<Codepoint>>, j: nat)
    requires env.dpiScale != 0.0
    requires 0 < j <= |words|
    requires FontCodesValid(env, words)
    requires var e := LineTokens(env, style, words, j - 1);
      && e.style == StyleAfter(env, style, words, j - 1)
      && |e.tokens| == WordCount(words, j - 1)
    ensures var before := LineTokens(env, style, words, j - 1);
      var e := LineTokens(env, style, words, j);
      && e.style == StyleAfter(env, style, words, j)
      && |e.tokens| == WordCount(words, j)
      && e.tokens[..|before.tokens|] == before.tokens
      && (!IsCode(words[j - 1]) ==>
            Carries(env, e.tokens[|before.tokens|], Drawn(words, j - 1), StyleAfter(env, style, words, j - 1)))
  {
    var before := LineTokens(env, style, words, j - 1);
    var w := WordStep(env, before.style, words[j - 1], j - 1 == |words| - 1);
    LineTokensStep(env, style, words, j - 1);
    assert (before.tokens + w.tokens)[..|before.tokens|] == before.tokens;
  }

  /** The tokens of the first `j` pieces of a line: one per piece that is
      not a code, at the index that counts the words before it, drawing the
      piece in the style its preceding codes set; the line ends in the style
      all its codes set. */
  lemma {:induction false} LineStyled(env: Env, style: Style, words: seq<seq<Codepoint>>, j: nat)
    requires env.dpiScale != 0.0
    requires j <= |words|
    requires FontCodesValid(env, words)
    ensures var e := LineTokens(env, style, words, j);
      && e.style == StyleAfter(env, style, words, j)
      && |e.tokens| == WordCount(words, j)
      && WordsAt(env, style, words, j, e.tokens, 0)
    decreases j
  {
    if j > 0 {
      LineStyled(env, style, words, j - 1);
      LineStyledStep(env, style, words, j);
      var before := LineTokens(env, style, words, j - 1).tokens;
      var e := LineTokens(env, style, words, j).tokens;
      WordsAtPrefix(env, style, words, j - 1, before, e, 0);
      WordsAtSnoc(env, style, words, j, e, 0);
    }
  }

  /** Counting the words of more pieces never gives fewer. */
  lemma {:induction false} WordCountMono(words: seq<seq<Codepoint>>, k: nat, j: nat)
    requires k <= j <= |words|
    ensures WordCount(words, k) <= WordCount(words, j)
    decreases j - k
  {
    if k < j {
      WordCountMono(words, k, j - 1);
    }
  }

  /** The words of all but the last piece sit in the tokens before that
      piece's word. */
  lemma WordsAtInit(env: Env, style: Style, words: seq<seq<Codepoint>>, j: nat, tokens: seq<Token>)
    requires env.dpiScale != 0.0
    requires 0 < j <= |words|
    requires FontCodesValid(env, words)
    requires WordCount(words, j - 1) <= |tokens|
    requires WordsAt(env, style, words, j, tokens, 0)
    ensures WordsAt(env, style, words, j - 1, tokens[..WordCount(words, j - 1)], 0)
  {
    var n := WordCount(words, j - 1);
    forall k | 0 <= k < j - 1 && !IsCode(words[k])
      ensures WordCount(words, k) < n
      ensures Carries(env, tokens[..n][WordCount(words, k)], Drawn(words, k), StyleAfter(env, style, words, k))
    {
      assert PieceOf(words, k) == words[k];
      WordCountMono(words, k + 1, j - 1);
    }
  }

  /** Tokens that hold exactly the words of a line's first `j` pieces spell
      those pieces, codes left out. */
  lemma {:induction false} SpelledWords(env: Env, style: Style, words: seq<seq<Codepoint>>, j: nat, tokens: seq<Token>)
    requires env.dpiScale != 0.0
    requires j <= |words|
    requires FontCodesValid(env, words)
    requires |tokens| == WordCount(words, j)
    requires WordsAt(env, style, words, j, tokens, 0)
    ensures Spelled(tokens) == LineSpelling(words, j)
    decreases j
  {
    if j > 0 {
      var n := WordCount(words, j - 1);
      WordsAtInit(env, style, words, j, tokens);
      SpelledWords(env, style, words, j - 1, tokens[..n]);
      if IsCode(words[j - 1]) {
        assert tokens[..n] == tokens;
      } else {
        assert PieceOf(words, j - 1) == words[j - 1];
      }
    }
  }

  /** The first `j` pieces of a line spell their words, codes left out. */
  lemma LineSpelledWithCodes(env: Env, style: Style, words: seq<seq<Codepoint>>, j: nat)
    requires env.dpiScale != 0.0
    requires j <= |words|
    requires FontCodesValid(env, words)
    ensures Spelled(LineTokens(env, style, words, j).tokens) == LineSpelling(words, j)
  {
    LineStyled(env, style, words, j);
    SpelledWords(env, style, words, j, LineTokens(env, style, words, j).tokens);
  }

  // ---------------------------------------------------------------------
  // A whole text

  /** Line `i - 1` appends its words and then its marker. */
  lemma TextStyledStep(env: Env, style: Style, pieces: seq<seq<seq<Codepoint>>>, i: nat)
    requires env.dpiScale != 0.0
    requires 0 < i <= |pieces|
    requires PiecesValid(env, pieces)
    requires var e := TextTokens(env, style, pieces, i - 1);
      e.style == LineStyle(env, style, pieces, i - 1) && |e.tokens| == LineOffset(pieces, i - 1)
    ensures var before := TextTokens(env, style, pieces, i - 1);
      var e := TextTokens(env, style, pieces, i);
      && e.style == LineStyle(env, style, pieces, i)
      && |e.tokens| == LineOffset(pieces, i)
      && e.tokens[..|before.tokens|] == before.tokens
      && LineEnd(pieces, i - 1) < |e.tokens|
      && e.tokens[LineEnd(pieces, i - 1)] == Marker(LineStyle(env, style, pieces, i))
      && WordsAt(env, LineStyle(env, style, pieces, i - 1), pieces[i - 1], |pieces[i - 1]|, e.tokens, LineOffset(pieces, i - 1))
  {
    var before := TextTokens(env, style, pieces, i - 1);
    var words := pieces[i - 1];
    var line := LineTokens(env, before.style, words, |words|);
    TextTokensStep(env, style, pieces, i);
    LineStyled(env, before.style, words, |words|);
    WordsAtShift(env, before.style, words, line.tokens, before.tokens, [Marker(line.style)]);
    assert (before.tokens + line.tokens + [Marker(line.style)])[..|before.tokens|] == before.tokens;
  }

  /** The tokens of the first `i` lines of any text, codes included: line
      `l` starts at LineOffset(pieces, l), holds there the pieces that are
      not codes, each in the style every earlier code set, and closes with a
      marker in the style at its end, which carries into the next line. */
  lemma {:induction false} TextStyled(env: Env, style: Style, pieces: seq<seq<seq<Codepoint>>>, i: nat)
    requires env.dpiScale != 0.0
    requires i <= |pieces|
    requires PiecesValid(env, pieces)
    ensures var e := TextTokens(env, style, pieces, i);
      && e.style == LineStyle(env, style, pieces, i)
      && |e.tokens| == LineOffset(pieces, i)
      && LinesAt(env, style, pieces, i, e.tokens)
      && MarkersAt(env, style, pieces, i, e.tokens)
    decreases i
  {
    if i > 0 {
      TextStyled(env, style, pieces, i - 1);
      TextStyledStep(env, style, pieces, i);
      var before := TextTokens(env, style, pieces, i - 1).tokens;
      var e := TextTokens(env, style, pieces, i).tokens;
      LinesAtPrefix(env, style, pieces, i - 1, before, e);
      MarkersAtPrefix(env, style, pieces, i - 1, before, e);
      LinesAtSnoc(env, style, pieces, i, e);
      MarkersAtSnoc(env, style, pieces, i, e);
    }
  }

  /** Line `i - 1` adds its spelling and a newline. */
  lemma TextSpelledStep(env: Env, style: Style, pieces: seq<seq<seq<Codepoint>>>, i: nat)
    requires env.dpiScale != 0.0
    requires 0 < i <= |pieces|
    requires PiecesValid(env, pieces)
    requires Spelled(TextTokens(env, style, pieces, i - 1).tokens) == TextSpelling(pieces, i - 1)
    ensures Spelled(TextTokens(env, style, pieces, i).tokens) == TextSpelling(pieces, i)
  {
    var before := TextTokens(env, style, pieces, i - 1);
    var line := LineTokens(env, before.style, pieces[i - 1], |pieces[i - 1]|);
    TextTokensStep(env, style, pieces, i);
    LineSpelledWithCodes(env, before.style, pieces[i - 1], |pieces[i - 1]|);
    SpelledAppend(before.tokens + line.tokens, [Marker(line.style)]);
    SpelledAppend(before.tokens, line.tokens);
    SpelledOne(Marker(line.style));
  }

  /** The first `i` lines of any text spell, line by line, their pieces that
      are not codes, each followed by a space unless it is the line's last
      piece, and then a newline for the marker. */
  lemma {:induction false} TextSpelledWithCodes(env: Env, style: Style, pieces: seq<seq<seq<Codepoint>>>, i: nat)
    requires env.dpiScale != 0.0
    requires i <= |pieces|
    requires PiecesValid(env, pieces)
    ensures Spelled(TextTokens(env, style, pieces, i).tokens) == TextSpelling(pieces, i)
    decreases i
  {
    if i > 0 {
      TextSpelledWithCodes(env, style, pieces, i - 1);
      TextSpelledStep(env, style, pieces, i);
    }
  }
}
