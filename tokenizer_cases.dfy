/** A worked case of the styled tokenizer: "@1 Hello #FF0000World". */
module TokenizerCases {
  import opened Text
  import opened Colors
  import opened Tokens
  import opened TokenStyles

  /** "@1" */
  const FONT_CODE: seq<Codepoint> := [64, 49]
  /** "Hello" */
  const HELLO: seq<Codepoint> := [72, 101, 108, 108, 111]
  /** "#FF0000World" */
  const COLOR_CODE: seq<Codepoint> := [35, 70, 70, 48, 48, 48, 48, 87, 111, 114, 108, 100]
  /** "@1 Hello #FF0000World" */
  const STYLED: seq<Codepoint> := FONT_CODE + [SPACE] + HELLO + [SPACE] + COLOR_CODE

  /** A text without newlines is left alone by the newline rewrite. */
  lemma {:induction false} ReplaceNewlinesAbsent(s: seq<Codepoint>)
    requires NEWLINE !in s
    ensures ReplaceNewlines(s) == s
    decreases |s|
  {
    if s != [] {
      assert NEWLINE !in s[1..];
      ReplaceNewlinesAbsent(s[1..]);
      assert [s[0]] + s[1..] == s;
    }
  }

  /** Three pieces joined by a delimiter none of them holds split back
      into those pieces. */
  lemma SplitThree(a: seq<Codepoint>, b: seq<Codepoint>, c: seq<Codepoint>, d: Codepoint)
    requires d !in a && d !in b && d !in c
    ensures Split(a + [d] + b + [d] + c, d) == [a, b, c]
  {
    SplitNoDelimiter(c, d);
    SplitSeparated(b, c, d);
    SplitSeparated(a, b + [d] + c, d);
    assert a + [d] + b + [d] + c == a + [d] + (b + [d] + c);
  }

  /** STYLED, cut at its spaces. */
  lemma StyledSplit()
    ensures Split(STYLED, SPACE) == [FONT_CODE, HELLO, COLOR_CODE]
  {
    assert SPACE !in FONT_CODE && SPACE !in HELLO && SPACE !in COLOR_CODE;
    SplitThree(FONT_CODE, HELLO, COLOR_CODE, SPACE);
  }

  /** STYLED is a single logical line. */
  lemma StyledLines()
    ensures Lines(STYLED) == [STYLED]
  {
    assert NEWLINE !in STYLED;
    ReplaceNewlinesAbsent(STYLED);
    SplitNoDelimiter(STYLED, NEWLINE);
  }

  /** STYLED is one logical line of three pieces. */
  lemma StyledPieces()
    ensures Pieces(STYLED) == [[FONT_CODE, HELLO, COLOR_CODE]]
  {
    StyledLines();
    StyledSplit();
    PieceAt(STYLED, 0);
  }

  /** A colour code runs to the end of its piece, so "#FF0000World" is one
      code (with "FF0000World" handed to the hex parser) and "World" is
      never drawn: the text yields the single word "Hello " in the second
      font and the drawing colour, then a marker in the new colour. */
  lemma StyledExample(env: Env, drawColor: Color)
    requires env.dpiScale != 0.0
    requires |env.fontIds| >= 2 && env.toInt([49]) == 1
    ensures PiecesValid(env, Pieces(STYLED))
    ensures var hello := Style(env.fontIds[1], drawColor, 1.0);
      var word := HELLO + [SPACE];
      TextTokens(env, Initial(env, drawColor), Pieces(STYLED), 1).tokens ==
        [Token(word, Measure(env, hello, word), hello.font, hello.color, hello.scale),
         Marker(hello.(color := env.fromHex(COLOR_CODE[1..])))]
  {
    StyledPieces();
    var words := [FONT_CODE, HELLO, COLOR_CODE];
    assert FONT_CODE[1..] == [49];
    assert IsFontCode(words[0]) && !IsCode(words[1]) && IsColorCode(words[2]);
    assert FontCodesValid(env, words);
    var style := Initial(env, drawColor);
    var hello := Style(env.fontIds[1], drawColor, 1.0);
    assert LineTokens(env, style, words, 1) == Emitted(hello, []);
    assert LineTokens(env, style, words, 2).tokens == [Token(HELLO + [SPACE], Measure(env, hello, HELLO + [SPACE]), hello.font, hello.color, hello.scale)];
    assert LineTokens(env, style, words, 3).style == hello.(color := env.fromHex(COLOR_CODE[1..]));
  }
}
