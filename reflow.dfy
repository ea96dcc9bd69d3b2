/** What `drawMultiLineColumn` does with the lines once they are broken: how
    many it draws under a line cap, the text it hands back with the breaks
    written in as newlines, and the counts and flags it reports. */
module Reflow {
  import opened Text
  import opened LineBreaker
  import opened LineBreakProps

  /** How many of `n` lines are drawn: all of them when `maxLines` is not
      positive, otherwise at most `maxLines`. */
  function LinesToDraw(n: nat, maxLines: int): (d: nat)
    ensures d <= n
    ensures maxLines > 0 ==> d <= maxLines && (d == n || d == maxLines)
    ensures maxLines <= 0 ==> d == n
  {
    if maxLines > 0 && maxLines < n then maxLines else n
  }

  /** The text handed back: the first `maxLines` lines, each followed by a
      newline except the very last line of all. A cap that is not positive
      hands back nothing, and a cap below the line count leaves a trailing
      newline. */
  method Rejoin(lines: seq<Line>, maxLines: int) returns (text: seq<Codepoint>)
    ensures maxLines <= 0 ==> text == []
    ensures maxLines >= |lines| ==> text == Join(lines, NEWLINE)
    ensures 0 < maxLines < |lines| ==> text == Join(lines[..maxLines], NEWLINE) + [NEWLINE]
  {
    var cap: nat := if maxLines <= 0 then 0 else maxLines;
    text := [];
    var i := 0;
    while i < |lines|
      invariant i <= |lines|
      invariant var k := if i < cap then i else cap;
        text == if k == 0 then [] else Join(lines[..k], NEWLINE) + (if k < |lines| then [NEWLINE] else [])
    {
      if i < maxLines {
        if i > 0 {
          JoinSnoc(lines[..i], lines[i], NEWLINE);
          assert lines[..i + 1] == lines[..i] + [lines[i]];
        }
        text := text + lines[i];
        if i != |lines| - 1 {
          text := text + [NEWLINE];
        }
      }
      i := i + 1;
    }
    assert lines[..|lines|] == lines;
  }

  /** The outcome of `drawMultiLineColumn`: the text as the caller sees it
      afterwards, the reported line count, how many lines are drawn and
      whether an unbreakable word overflowed. */
  datatype Outcome = Outcome(text: seq<Codepoint>, numLines: int, linesToDraw: nat, truncated: bool)

  /** `drawMultiLineColumn`. Without a loaded font it only resets the
      truncation flag and leaves the text and the caller's line count alone;
      otherwise it breaks the text, reports the full line count, draws up to
      the cap and, when asked, hands back the rejoined lines. With
      `AsWritten` the lines are the source's; with `Corrected`, those of the
      corrected breaker. */
  method DrawMultiLineColumn(v: Variant, ready: bool, col: Column, text: seq<Codepoint>, callerNumLines: int,
                             maxLines: int, giveBackNewLinedText: bool)
    returns (r: Outcome)
    ensures !ready ==> r == Outcome(text, callerNumLines, 0, false)
    ensures ready ==> var layout := LayoutOf(v, col, text, 0);
      && r.numLines == |layout.lines|
      && r.truncated == layout.truncated
      && r.linesToDraw == LinesToDraw(|layout.lines|, maxLines)
      && (!giveBackNewLinedText ==> r.text == text)
      && (giveBackNewLinedText && maxLines >= |layout.lines| ==> r.text == Join(layout.lines, NEWLINE))
      && (giveBackNewLinedText && 0 < maxLines < |layout.lines| ==> r.text == Join(layout.lines[..maxLines], NEWLINE) + [NEWLINE])
      && (giveBackNewLinedText && maxLines <= 0 ==> r.text == [])
  {
    if !ready {
      return Outcome(text, callerNumLines, 0, false);
    }
    var splitLines, truncated := BreakLines(v, col, text);
    var newText := text;
    if giveBackNewLinedText {
      newText := Rejoin(splitLines, maxLines);
    }
    r := Outcome(newText, |splitLines|, LinesToDraw(|splitLines|, maxLines), truncated);
  }

  /** Handed back uncapped, the text splits at its newlines into exactly the
      lines the breaker produced, so the reported count is the number of
      segments; the empty text is the exception, with no lines but one
      (empty) segment. */
  lemma RejoinedSegments(v: Variant, col: Column, text: seq<Codepoint>)
    ensures var lines := LayoutOf(v, col, text, 0).lines;
      && (text != [] ==> Split(Join(lines, NEWLINE), NEWLINE) == lines)
      && (text == [] ==> lines == [] && |Split(Join(lines, NEWLINE), NEWLINE)| == 1)
  {
    LayoutLineCount(v, col, text, 0);
    LayoutNoNewline(v, col, text, 0);
    var lines := LayoutOf(v, col, text, 0).lines;
    if text != [] {
      forall i | 0 <= i < |lines|
        ensures NEWLINE !in lines[i]
      {
        assert NoNewline(lines[i]);
      }
      SplitJoin(lines, NEWLINE);
    }
  }
}
