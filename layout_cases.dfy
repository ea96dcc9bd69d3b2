/** Worked cases of the line breaker in a monospaced column where only the
    space is whitespace. None of these lines begins with whitespace, so each
    case holds under either resume rule. */
module LayoutCases {
  import opened Text
  import opened LineBreaker
  import opened LineBreakProps

  /** One unit of width per codepoint. */
  function Monospace(s: seq<Codepoint>): (w: real)
    ensures w == |s| as real
  {
    |s| as real
  }

  /** A monospaced column `w` units wide. */
  function Mono(w: real): (col: Column)
    ensures col.maxW == w
  {
    Column(w, Monospace, c => c == SPACE)
  }

  function FiveWide(): (col: Column)
    ensures col.maxW == 5.0
  {
    Mono(5.0)
  }

  /** "abcdef" */
  const WORD: seq<Codepoint> := [97, 98, 99, 100, 101, 102]

  lemma WordFirstLine(v: Variant)
    ensures StepOf(v, Mono(3.0), WORD, 0) == Break(WORD[..4], 4, true)
  {
    var col, text := Mono(3.0), WORD;
    assert BreaksAt(col, text, 0, 4) by {
      assert |text[0..4]| == 4;
    }
    forall j | 0 < j < 4
      ensures !BreaksAt(col, text, 0, j)
    {
      assert |text[0..j]| == j;
    }
    FirstBreakSkip(col, text, 0, 4);
    assert LastSpaceEnd(col, text, 0, 4) == 0;
    StepOfBreak(v, col, text, 0, 4);
  }

  lemma WordSecondLine(v: Variant)
    ensures StepOf(v, Mono(3.0), WORD, 4) == Break(WORD[4..], 6, false)
  {
    var col, text := Mono(3.0), WORD;
    forall j | 4 < j <= 6
      ensures !BreaksAt(col, text, 4, j)
    {
      assert |text[4..j]| == j - 4;
    }
    FirstBreakSkip(col, text, 4, 7);
    StepOfEnd(v, col, text, 4);
    LeadingSpacesUnique(text[4..6], col.isSpace, 0);
  }

  /** A word wider than the column is not kept on a line of its own: the
      line that overflows is cut where the overflow was detected, flagged,
      and the rest of the word starts the next line. */
  lemma LongWordSpills(v: Variant)
    ensures LayoutOf(v, Mono(3.0), WORD, 0) == Layout([[97, 98, 99, 100], [101, 102]], true)
  {
    WordFirstLine(v);
    WordSecondLine(v);
    assert WORD[..4] == [97, 98, 99, 100] && WORD[4..] == [101, 102];
    assert LayoutOf(v, Mono(3.0), WORD, 6) == Layout([], false);
    assert LayoutOf(v, Mono(3.0), WORD, 4) == Layout([[101, 102]], false);
  }

  /** "ab c" */
  const SHORT: seq<Codepoint> := [97, 98, 32, 99]

  /** "ab \nc", SHORT as handed back after breaking it two units wide. */
  const SHORT_REFLOWED: seq<Codepoint> := [97, 98, 32, 10, 99]

  /** Both texts begin with "ab ", the line that overflows two units and is
      cut after its space. */
  lemma ShortFirstLine(v: Variant, text: seq<Codepoint>)
    requires text == SHORT || text == SHORT_REFLOWED
    ensures StepOf(v, Mono(2.0), text, 0) == Break([97, 98, 32], 3, false)
  {
    var col := Mono(2.0);
    assert BreaksAt(col, text, 0, 3) by {
      assert |text[0..3]| == 3;
    }
    forall j | 0 < j < 3
      ensures !BreaksAt(col, text, 0, j)
    {
      assert |text[0..j]| == j;
    }
    FirstBreakSkip(col, text, 0, 3);
    assert LastSpaceEnd(col, text, 0, 3) == 3;
    LeadingSpacesUnique(text[0..3], col.isSpace, 0);
    StepOfBreak(v, col, text, 0, 3);
    assert Fill(col.isSpace, text, 0, 3, 3) == text[0..3];
  }

  /** The last codepoint of either text, "c", fits on its own. */
  lemma ShortLastLine(v: Variant, text: seq<Codepoint>)
    requires text == SHORT || text == SHORT_REFLOWED
    ensures StepOf(v, Mono(2.0), text, |text| - 1) == Break([99], |text|, false)
  {
    var col, s := Mono(2.0), |text| - 1;
    assert !BreaksAt(col, text, s, |text|) by {
      assert |text[s..|text|]| == 1;
    }
    FirstBreakSkip(col, text, s, |text| + 1);
    StepOfEnd(v, col, text, s);
    LeadingSpacesUnique(text[s..], col.isSpace, 0);
    assert text[s..] == [99];
  }

  lemma ShortLayout(v: Variant)
    ensures LayoutOf(v, Mono(2.0), SHORT, 0).lines == [[97, 98, 32], [99]]
  {
    var col := Mono(2.0);
    ShortFirstLine(v, SHORT);
    ShortLastLine(v, SHORT);
    assert LayoutOf(v, col, SHORT, 4).lines == [];
    assert LayoutOf(v, col, SHORT, 3).lines == [[99]];
  }

  /** The newline of SHORT_REFLOWED, met at the start of a line, is drawn as
      a space. */
  lemma ReflowedNewline(v: Variant)
    ensures StepOf(v, Mono(2.0), SHORT_REFLOWED, 3) == Break([SPACE], 4, false)
  {
    var col := Mono(2.0);
    assert BreaksAt(col, SHORT_REFLOWED, 3, 4);
    assert FirstBreak(col, SHORT_REFLOWED, 3, 4) == Some(4);
    StepOfBreak(v, col, SHORT_REFLOWED, 3, 4);
    assert SHORT_REFLOWED[3..4] == [NEWLINE];
  }

  lemma ReflowedLayout(v: Variant)
    ensures LayoutOf(v, Mono(2.0), SHORT_REFLOWED, 0).lines == [[97, 98, 32], [32], [99]]
  {
    var col := Mono(2.0);
    ShortFirstLine(v, SHORT_REFLOWED);
    ReflowedNewline(v);
    ShortLastLine(v, SHORT_REFLOWED);
    assert LayoutOf(v, col, SHORT_REFLOWED, 5).lines == [];
    assert LayoutOf(v, col, SHORT_REFLOWED, 4).lines == [[99]];
    assert LayoutOf(v, col, SHORT_REFLOWED, 3).lines == [[32], [99]];
  }

  /** SHORT's two lines, rejoined. */
  lemma ShortRejoined()
    ensures Join([[97, 98, 32], [99]], NEWLINE) == SHORT_REFLOWED
  {
    var lines: seq<Line> := [[97, 98, 32], [99]];
    assert lines[1..] == [[99]];
    assert Join(lines, NEWLINE) == lines[0] + [NEWLINE] + [99];
  }

  /** The newline handed back stands for a break that was already there:
      breaking the handed-back text again finds it and draws it as a line of
      its own, so breaking is not idempotent. */
  lemma RejoinNotIdempotent(v: Variant, col: Column)
    requires col == Mono(2.0)
    ensures LayoutOf(v, col, SHORT, 0).lines == [[97, 98, 32], [99]]
    ensures Join(LayoutOf(v, col, SHORT, 0).lines, NEWLINE) == SHORT_REFLOWED
    ensures LayoutOf(v, col, SHORT_REFLOWED, 0).lines != LayoutOf(v, col, SHORT, 0).lines
  {
    ShortLayout(v);
    ReflowedLayout(v);
    ShortRejoined();
    assert |LayoutOf(v, col, SHORT_REFLOWED, 0).lines| == 3;
  }
}
