/** The line breaker's resume rule as the source writes it (`AsWritten`)
    against the corrected one (`Corrected`). After wrapping a line at its
    last whitespace the source resumes scanning just after that whitespace,
    except when the line began with whitespace: then it resumes where the
    overflow was detected, and whatever lay between the last whitespace and
    that point is never drawn. The corrected rule resumes after the last
    whitespace whenever the drawn line reached it. The two emit the same line
    from any start, and agree entirely on lines that do not begin with
    whitespace. */
module LineBreakFinding {
  import opened Text
  import opened LineBreaker
  import opened LineBreakProps
  import opened LayoutCases

  /** On a line that does not begin with whitespace the source's step is the
      corrected one. */
  lemma AsWrittenAgrees(col: Column, text: seq<Codepoint>, start: nat)
    requires start < |text|
    requires !col.isSpace(text[start])
    ensures StepOf(AsWritten, col, text, start) == StepOf(Corrected, col, text, start)
  {
    match FirstBreak(col, text, start, start + 1)
    case None =>
    case Some(k) =>
      assert text[start..k][0] == text[start];
      assert LeadingSpaces(text[start..k], col.isSpace) == 0;
  }

  /** From any start the two steps emit the same line with the same flag;
      they differ only in where the scan resumes. */
  lemma AsWrittenSameLine(col: Column, text: seq<Codepoint>, start: nat)
    requires start < |text|
    ensures StepOf(AsWritten, col, text, start).line == StepOf(Corrected, col, text, start).line
    ensures StepOf(AsWritten, col, text, start).truncated == StepOf(Corrected, col, text, start).truncated
  {
  }

  /** " ab cd": six codepoints, one unit wider than FiveWide(). */
  const EXAMPLE: seq<Codepoint> := [32, 97, 98, 32, 99, 100]

  /** The first line of EXAMPLE overflows only with its last codepoint, and
      its last whitespace ends at 4. */
  lemma ExampleFirstBreak()
    ensures FirstBreak(FiveWide(), EXAMPLE, 0, 1) == Some(6)
    ensures LastSpaceEnd(FiveWide(), EXAMPLE, 0, 6) == 4
    ensures LeadingSpaces(EXAMPLE[0..6], FiveWide().isSpace) == 1
  {
    var col, text := FiveWide(), EXAMPLE;
    assert BreaksAt(col, text, 0, 6) by {
      assert |text[0..6]| == 6;
    }
    forall j | 0 < j < 6
      ensures !BreaksAt(col, text, 0, j)
    {
      assert |text[0..j]| == j;
    }
    FirstBreakSkip(col, text, 0, 6);
    assert text[0..6] == text;
    LeadingSpacesUnique(text, col.isSpace, 1);
  }

  /** What remains after the corrected first line, "cd", fits. */
  lemma ExampleSecondBreak()
    ensures FirstBreak(FiveWide(), EXAMPLE, 4, 5) == None
    ensures LeadingSpaces(EXAMPLE[4..6], FiveWide().isSpace) == 0
  {
    var col, text := FiveWide(), EXAMPLE;
    forall j | 4 < j <= 6
      ensures !BreaksAt(col, text, 4, j)
    {
      assert |text[4..j]| == j - 4;
    }
    FirstBreakSkip(col, text, 4, 7);
    LeadingSpacesUnique(text[4..6], col.isSpace, 0);
  }

  /** The source emits "ab " and resumes at the end of the text; the
      corrected step emits "ab " and resumes at "cd". */
  lemma ExampleFirstLine()
    ensures StepOf(AsWritten, FiveWide(), EXAMPLE, 0) == Break([97, 98, 32], 6, false)
    ensures StepOf(Corrected, FiveWide(), EXAMPLE, 0) == Break([97, 98, 32], 4, false)
  {
    ExampleFirstBreak();
    assert Fill(FiveWide().isSpace, EXAMPLE, 0, 6, 4) == EXAMPLE[1..4];
  }

  lemma ExampleSecondLine()
    ensures StepOf(Corrected, FiveWide(), EXAMPLE, 4) == Break([99, 100], 6, false)
  {
    ExampleSecondBreak();
    assert Fill(FiveWide().isSpace, EXAMPLE, 4, 6, 6) == EXAMPLE[4..6];
  }

  /** The "c" of EXAMPLE is in none of the lines the source draws, while the
      corrected breaker draws both words. */
  lemma AsWrittenDropsCodepoints()
    ensures LayoutOf(AsWritten, FiveWide(), EXAMPLE, 0).lines == [[97, 98, 32]]
    ensures 99 in EXAMPLE
    ensures forall line :: line in LayoutOf(AsWritten, FiveWide(), EXAMPLE, 0).lines ==> 99 !in line
    ensures LayoutOf(Corrected, FiveWide(), EXAMPLE, 0).lines == [[97, 98, 32], [99, 100]]
  {
    var col := FiveWide();
    ExampleFirstLine();
    ExampleSecondLine();
    assert LayoutOf(AsWritten, col, EXAMPLE, 6).lines == [];
    assert LayoutOf(Corrected, col, EXAMPLE, 6).lines == [];
    assert LayoutOf(Corrected, col, EXAMPLE, 4).lines == [[99, 100]];
    assert EXAMPLE[4] == 99;
  }
}
