/** The greedy line breaker of `drawMultiLineColumn`: it walks the text one
    codepoint at a time, measures the growing line, and breaks on a newline
    or when the line gets wider than the column, backtracking to the last
    whitespace when there is one. */
module LineBreaker {
  import opened Text

  /** The width of a run of text at the call's font size (the host's
      bounding-box width), taken as given. */
  type Measure = seq<Codepoint> -> real

  /** The fixed inputs of one wrapping pass. */
  datatype Column = Column(maxW: real, width: Measure, isSpace: SpacePredicate)

  /** One emitted line, the position scanning resumes from, and whether the
      line was an unbreakable overflow. */
  datatype Break = Break(line: Line, next: nat, truncated: bool)

  /** The result of breaking a whole text. */
  datatype Layout = Layout(lines: seq<Line>, truncated: bool)

  // ---------------------------------------------------------------------
  // Specification of one line

  /** Having appended text[k-1] to the line that began at `start`, the
      breaker stops: that codepoint was a newline or the line is too wide. */
  predicate BreaksAt(col: Column, text: seq<Codepoint>, start: nat, k: nat)
    requires start < k <= |text|
  {
    text[k - 1] == NEWLINE || col.width(text[start..k]) > col.maxW
  }

  /** The first end position at or after `k` where the line that began at
      `start` stops, or None when it runs to the end of the text. */
  function FirstBreak(col: Column, text: seq<Codepoint>, start: nat, k: nat): (b: Option<nat>)
    requires start < k <= |text| + 1
    ensures b.Some? ==> k <= b.value <= |text| && BreaksAt(col, text, start, b.value)
    decreases |text| + 1 - k
  {
    if k > |text| then None
    else if BreaksAt(col, text, start, k) then Some(k)
    else FirstBreak(col, text, start, k + 1)
  }

  /** When no break happens before `k`, the search for the first break may
      start at `k`. */
  lemma {:induction false} FirstBreakSkip(col: Column, text: seq<Codepoint>, start: nat, k: nat)
    requires start < k <= |text| + 1
    requires forall j :: start < j < k ==> !BreaksAt(col, text, start, j)
    ensures FirstBreak(col, text, start, start + 1) == FirstBreak(col, text, start, k)
    decreases k - start
  {
    if k > start + 1 {
      FirstBreakSkip(col, text, start, k - 1);
    }
  }

  /** The position just after the last whitespace in text[start..k], or
      `start` when there is none. */
  function LastSpaceEnd(col: Column, text: seq<Codepoint>, start: nat, k: nat): (p: nat)
    requires start <= k <= |text|
    ensures start <= p <= k
    decreases k - start
  {
    if k == start then start
    else if col.isSpace(text[k - 1]) then k
    else LastSpaceEnd(col, text, start, k - 1)
  }

  /** What `walkAndFill(begin, iter, end)` produces: text[begin..iter] without
      its leading whitespace, cut short right after the codepoint that ends
      at `end` when that codepoint is copied. */
  function Fill(isSpace: SpacePredicate, text: seq<Codepoint>, begin: nat, iter: nat, end: nat): Line
    requires begin <= iter <= |text|
  {
    var first := begin + LeadingSpaces(text[begin..iter], isSpace);
    text[first..if first < end <= iter then end else iter]
  }

  lemma FillShape(isSpace: SpacePredicate, text: seq<Codepoint>, begin: nat, iter: nat, end: nat)
    requires begin <= iter <= |text|
    ensures var r := Fill(isSpace, text, begin, iter, end);
      && (r == [] || !isSpace(r[0]))
      && (begin < end <= iter && !isSpace(text[begin]) ==> r == text[begin..end])
      && (end <= begin + LeadingSpaces(text[begin..iter], isSpace) ==>
            r == text[begin..iter][LeadingSpaces(text[begin..iter], isSpace)..])
  {
    var n := LeadingSpaces(text[begin..iter], isSpace);
    if begin < iter && !isSpace(text[begin]) {
      assert text[begin..iter][0] == text[begin];
    }
    if n < iter - begin {
      assert text[begin..iter][n] == text[begin + n];
    }
  }

  /** Which resume rule a line wrapped at whitespace follows. `AsWritten`
      is the source's: resume just after the last whitespace unless the line
      began with whitespace, and otherwise where the overflow was found.
      `Corrected` resumes just after the last whitespace whenever that lies
      beyond the line's leading whitespace (see LineBreakFinding). */
  datatype Variant = AsWritten | Corrected

  /** The corrected resume rule: after a line wrapped at its last
      whitespace, scanning resumes just after that whitespace when the
      emitted line reached it, otherwise (the only whitespace was the line's
      leading run) after the whole line. */
  function Resume(col: Column, text: seq<Codepoint>, start: nat, k: nat, lastSpace: nat): (r: nat)
    requires start < lastSpace <= k <= |text|
    ensures start < r <= k
  {
    if start + LeadingSpaces(text[start..k], col.isSpace) < lastSpace then lastSpace else k
  }

  /** Where a line wrapped at whitespace resumes, under either rule. */
  function ResumeOf(v: Variant, col: Column, text: seq<Codepoint>, start: nat, k: nat, lastSpace: nat): (r: nat)
    requires start < lastSpace <= k <= |text|
    ensures start < r <= k
  {
    match v
    case AsWritten => if !col.isSpace(text[start]) then lastSpace else k
    case Corrected => Resume(col, text, start, k, lastSpace)
  }

  /** The line that starts at `start` and where the scan resumes afterwards:
      a newline ends the line (a lone newline is drawn as a space); an
      overflowing line is cut after its last whitespace, without its leading
      whitespace, and the scan resumes by the rule `v`; an overflowing line
      without whitespace is kept whole and flagged; the rest of the text,
      when it fits, is the last line. */
  function StepOf(v: Variant, col: Column, text: seq<Codepoint>, start: nat): (b: Break)
    requires start < |text|
    ensures start < b.next <= |text|
  {
    match FirstBreak(col, text, start, start + 1)
    case None => Break(Fill(col.isSpace, text, start, |text|, |text|), |text|, false)
    case Some(k) =>
      var thisLine := text[start..k];
      if text[k - 1] == NEWLINE then
        Break(if thisLine == [NEWLINE] then [SPACE] else thisLine[..|thisLine| - 1], k, false)
      else
        var lastSpace := LastSpaceEnd(col, text, start, k);
        if lastSpace > start then
          Break(Fill(col.isSpace, text, start, k, lastSpace), ResumeOf(v, col, text, start, k, lastSpace), false)
        else
          Break(thisLine, k, true)
  }

  /** The lines emitted from `start` to the end of the text under the rule
      `v`; `LayoutOf(AsWritten, ...)` is the source's layout. */
  function LayoutOf(v: Variant, col: Column, text: seq<Codepoint>, start: nat): Layout
    requires start <= |text|
    decreases |text| - start
  {
    if start == |text| then Layout([], false)
    else
      var b := StepOf(v, col, text, start);
      var rest := LayoutOf(v, col, text, b.next);
      Layout([b.line] + rest.lines, b.truncated || rest.truncated)
  }

  /** Emitting the last line, which runs to the end of the text. */
  lemma LinkedFlush(v: Variant, col: Column, text: seq<Codepoint>, starts: seq<nat>, emitted: seq<Line>, truncated: bool,
                    lineStart: nat, finalLine: Line)
    requires lineStart < |text|
    requires forall j :: lineStart < j <= |text| ==> !BreaksAt(col, text, lineStart, j)
    requires finalLine == Fill(col.isSpace, text, lineStart, |text|, |text|)
    requires Linked(v, col, text, starts, emitted, truncated, lineStart)
    ensures Linked(v, col, text, starts + [lineStart], emitted + [finalLine], truncated, |text|)
  {
    FirstBreakSkip(col, text, lineStart, |text| + 1);
    StepOfEnd(v, col, text, lineStart);
    LinkedExtend(v, col, text, starts, emitted, truncated, lineStart, Break(finalLine, |text|, false));
  }

  lemma SliceExtend(text: seq<Codepoint>, a: nat, b: nat)
    requires a <= b < |text|
    ensures text[a..b + 1] == text[a..b] + [text[b]]
  {
  }

  /** StepOf when the line runs to the end of the text: both rules agree. */
  lemma StepOfEnd(v: Variant, col: Column, text: seq<Codepoint>, start: nat)
    requires start < |text|
    requires FirstBreak(col, text, start, start + 1) == None
    ensures StepOf(v, col, text, start) == Break(Fill(col.isSpace, text, start, |text|, |text|), |text|, false)
  {
  }

  /** StepOf once its break position `k` is known: the rules differ only in
      where a line wrapped at whitespace resumes. */
  lemma StepOfBreak(v: Variant, col: Column, text: seq<Codepoint>, start: nat, k: nat)
    requires start < k <= |text|
    requires FirstBreak(col, text, start, start + 1) == Some(k)
    ensures var b := StepOf(v, col, text, start);
      var lastSpace := LastSpaceEnd(col, text, start, k);
      && (text[k - 1] == NEWLINE ==>
            b == Break(if text[start..k] == [NEWLINE] then [SPACE] else text[start..k][..k - start - 1], k, false))
      && (text[k - 1] != NEWLINE && lastSpace > start ==>
            b == Break(Fill(col.isSpace, text, start, k, lastSpace), ResumeOf(v, col, text, start, k, lastSpace), false))
      && (text[k - 1] != NEWLINE && lastSpace == start ==> b == Break(text[start..k], k, true))
  {
  }

  /** Emitting the line at `start` moves it from the pending layout to the
      emitted prefix. */
  lemma LayoutStep(v: Variant, col: Column, text: seq<Codepoint>, start: nat, before: seq<Line>)
    requires start < |text|
    ensures var b := StepOf(v, col, text, start);
      && (before + [b.line]) + LayoutOf(v, col, text, b.next).lines == before + LayoutOf(v, col, text, start).lines
      && LayoutOf(v, col, text, start).truncated == (b.truncated || LayoutOf(v, col, text, b.next).truncated)
  {
    var b := StepOf(v, col, text, start);
    assert LayoutOf(v, col, text, start).lines == [b.line] + LayoutOf(v, col, text, b.next).lines;
    assert (before + [b.line]) + LayoutOf(v, col, text, b.next).lines == before + ([b.line] + LayoutOf(v, col, text, b.next).lines);
  }

  /** Line `i` of `lines` is the one emitted for the line that began at
      starts[i], and scanning then resumed where the next line began (at `end`
      after the last one). */
  ghost predicate Link(v: Variant, col: Column, text: seq<Codepoint>, starts: seq<nat>, lines: seq<Line>, i: nat, end: nat)
    requires i < |starts| == |lines|
  {
    && starts[i] < |text|
    && StepOf(v, col, text, starts[i]).line == lines[i]
    && StepOf(v, col, text, starts[i]).next == (if i + 1 < |starts| then starts[i + 1] else end)
  }

  /** The line that began at starts[i] was an unbreakable overflow. */
  ghost predicate Truncates(v: Variant, col: Column, text: seq<Codepoint>, starts: seq<nat>, i: nat)
    requires i < |starts|
  {
    starts[i] < |text| && StepOf(v, col, text, starts[i]).truncated
  }

  /** Some line that began at one of `starts` was an unbreakable overflow. */
  ghost predicate AnyTruncated(v: Variant, col: Column, text: seq<Codepoint>, starts: seq<nat>)
  {
    exists i :: 0 <= i < |starts| && Truncates(v, col, text, starts, i)
  }

  lemma AnyTruncatedSnoc(v: Variant, col: Column, text: seq<Codepoint>, init: seq<nat>, start: nat)
    requires start < |text|
    ensures AnyTruncated(v, col, text, init + [start]) == (AnyTruncated(v, col, text, init) || StepOf(v, col, text, start).truncated)
  {
    var starts := init + [start];
    if AnyTruncated(v, col, text, init) {
      var i :| 0 <= i < |init| && Truncates(v, col, text, init, i);
      assert Truncates(v, col, text, starts, i);
    }
    if StepOf(v, col, text, start).truncated {
      assert Truncates(v, col, text, starts, |init|);
    }
    if AnyTruncated(v, col, text, starts) {
      var i :| 0 <= i < |starts| && Truncates(v, col, text, starts, i);
      if i < |init| {
        assert Truncates(v, col, text, init, i);
      }
    }
  }

  /** `lines` and `truncated` are what the breaker has emitted so far for the
      lines that began at `starts`, the first at 0, with scanning now at `end`. */
  ghost predicate Linked(v: Variant, col: Column, text: seq<Codepoint>, starts: seq<nat>, lines: seq<Line>, truncated: bool, end: nat)
  {
    && |starts| == |lines|
    && (if starts == [] then end == 0 else starts[0] == 0)
    && (forall i :: 0 <= i < |starts| ==> Link(v, col, text, starts, lines, i, end))
    && truncated == AnyTruncated(v, col, text, starts)
  }

  lemma LinkedExtend(v: Variant, col: Column, text: seq<Codepoint>, starts: seq<nat>, lines: seq<Line>, truncated: bool, start: nat, b: Break)
    requires start < |text|
    requires Linked(v, col, text, starts, lines, truncated, start)
    requires b == StepOf(v, col, text, start)
    ensures Linked(v, col, text, starts + [start], lines + [b.line], truncated || b.truncated, b.next)
  {
    var starts', lines' := starts + [start], lines + [b.line];
    forall i | 0 <= i < |starts'|
      ensures Link(v, col, text, starts', lines', i, b.next)
    {
      if i < |starts| {
        assert Link(v, col, text, starts, lines, i, start);
      }
    }
    AnyTruncatedSnoc(v, col, text, starts, start);
  }

  lemma LinkedPrefix(v: Variant, col: Column, text: seq<Codepoint>, starts: seq<nat>, lines: seq<Line>, truncated: bool, end: nat)
    requires starts != []
    requires Linked(v, col, text, starts, lines, truncated, end)
    ensures var n := |starts| - 1;
      && starts[n] < |text|
      && Linked(v, col, text, starts[..n], lines[..n], AnyTruncated(v, col, text, starts[..n]), starts[n])
      && truncated == (AnyTruncated(v, col, text, starts[..n]) || StepOf(v, col, text, starts[n]).truncated)
  {
    var n := |starts| - 1;
    var init, initLines := starts[..n], lines[..n];
    forall i | 0 <= i < n
      ensures Link(v, col, text, init, initLines, i, starts[n])
    {
      assert Link(v, col, text, starts, lines, i, end);
    }
    assert Link(v, col, text, starts, lines, n, end);
    assert starts == init + [starts[n]];
    AnyTruncatedSnoc(v, col, text, init, starts[n]);
  }

  /** Where the line after starts[i] begins: the next start, or `end`. */
  function NextStart(starts: seq<nat>, i: nat, end: nat): nat
    requires i < |starts|
  {
    if i + 1 < |starts| then starts[i + 1] else end
  }

  /** A link of a chain is one step of the layout. */
  lemma LinkLayout(v: Variant, col: Column, text: seq<Codepoint>, starts: seq<nat>, lines: seq<Line>, i: nat, end: nat)
    requires i < |starts| == |lines|
    requires Link(v, col, text, starts, lines, i, end)
    ensures NextStart(starts, i, end) <= |text|
    ensures [lines[i]] + LayoutOf(v, col, text, NextStart(starts, i, end)).lines == LayoutOf(v, col, text, starts[i]).lines
  {
    LayoutStep(v, col, text, starts[i], []);
  }

  /** A chain of lines, each of which puts itself in front of what `layout`
      gives for where the next line begins, with nothing after `last`, spells
      out `layout` from where its i-th line begins. */
  lemma {:induction false} ChainLines(starts: seq<nat>, lines: seq<Line>, last: nat, layout: nat -> seq<Line>, i: nat)
    requires i <= |starts| == |lines|
    requires layout(last) == []
    requires forall j :: i <= j < |starts| ==> [lines[j]] + layout(NextStart(starts, j, last)) == layout(starts[j])
    ensures lines[i..] == layout(if i < |starts| then starts[i] else last)
    decreases |starts| - i
  {
    if i < |starts| {
      ChainLines(starts, lines, last, layout, i + 1);
      assert [lines[i]] + layout(NextStart(starts, i, last)) == layout(starts[i]);
      assert lines[i..] == [lines[i]] + lines[i + 1..];
    }
  }

  /** The lines a chain that reached the end of the text emitted are the
      whole layout. */
  lemma LinkedLayoutLines(v: Variant, col: Column, text: seq<Codepoint>, starts: seq<nat>, lines: seq<Line>, truncated: bool)
    requires Linked(v, col, text, starts, lines, truncated, |text|)
    ensures lines == LayoutOf(v, col, text, 0).lines
  {
    var layout := (s: nat) => if s <= |text| then LayoutOf(v, col, text, s).lines else [];
    forall j | 0 <= j < |starts|
      ensures [lines[j]] + layout(NextStart(starts, j, |text|)) == layout(starts[j])
    {
      assert Link(v, col, text, starts, lines, j, |text|);
      LinkLayout(v, col, text, starts, lines, j, |text|);
    }
    ChainLines(starts, lines, |text|, layout, 0);
    assert lines[0..] == lines;
  }

  /** The flag a chain has raised, joined with the rest of the layout's, is
      the whole layout's flag. */
  lemma {:induction false} LinkedLayoutTruncated(v: Variant, col: Column, text: seq<Codepoint>, starts: seq<nat>, lines: seq<Line>, truncated: bool, end: nat)
    requires end <= |text|
    requires Linked(v, col, text, starts, lines, truncated, end)
    ensures (truncated || LayoutOf(v, col, text, end).truncated) == LayoutOf(v, col, text, 0).truncated
    decreases |starts|
  {
    if starts != [] {
      var n := |starts| - 1;
      var s := starts[n];
      LinkedPrefix(v, col, text, starts, lines, truncated, end);
      LinkedLayoutTruncated(v, col, text, starts[..n], lines[..n], AnyTruncated(v, col, text, starts[..n]), s);
      assert Link(v, col, text, starts, lines, n, end);
      LayoutStep(v, col, text, s, lines[..n]);
    }
  }

  // ---------------------------------------------------------------------
  // The imperative routines

  /** `walkAndFill`: re-reads text[begin..iter], skipping whitespace until
      the first other codepoint, and stops after the codepoint ending at `end`. */
  method WalkAndFill(isSpace: SpacePredicate, text: seq<Codepoint>, begin: nat, iter: nat, end: nat)
    returns (finalLine: Line)
    requires begin <= iter <= |text|
    ensures finalLine == Fill(isSpace, text, begin, iter, end)
  {
    ghost var first := begin + LeadingSpaces(text[begin..iter], isSpace);
    assert forall j :: begin <= j < first ==> isSpace(text[j]) by {
      forall j | begin <= j < first ensures isSpace(text[j]) {
        assert text[begin..iter][j - begin] == text[j];
      }
    }
    assert first < iter ==> !isSpace(text[first]) by {
      if first < iter { assert text[begin..iter][first - begin] == text[first]; }
    }
    finalLine := [];
    var i := begin;
    while i < iter
      invariant begin <= i <= iter
      invariant i <= first ==> finalLine == []
      invariant first < i ==> finalLine == text[first..i] && !(first < end <= i)
    {
      var c := text[i];
      i := i + 1;
      if finalLine == [] && isSpace(c) {
        continue;
      }
      finalLine := finalLine + [c];
      if i == end {
        break;
      }
    }
  }

  /** The body of the breaking loop once the line that began at `lineStart`
      and now ends at `iter` must be emitted: the emitted line, the position the
      scan resumes from (by the rule `v`), and whether the line is an
      unbreakable overflow. */
  method BreakLine(v: Variant, col: Column, text: seq<Codepoint>, lineStart: nat, iter: nat, thisLine: Line,
                   foundNewLine: bool, foundSpace: bool, lastSpace: nat,
                   ghost starts: seq<nat>, ghost emitted: seq<Line>, ghost truncated: bool)
    returns (line: Line, resume: nat, truncatedHere: bool)
    requires lineStart < iter <= |text|
    requires forall j :: lineStart < j < iter ==> !BreaksAt(col, text, lineStart, j)
    requires thisLine == text[lineStart..iter]
    requires foundNewLine <==> text[iter - 1] == NEWLINE
    requires col.width(thisLine) > col.maxW || foundNewLine
    requires foundSpace <==> LastSpaceEnd(col, text, lineStart, iter) > lineStart
    requires foundSpace ==> lastSpace == LastSpaceEnd(col, text, lineStart, iter)
    requires Linked(v, col, text, starts, emitted, truncated, lineStart)
    ensures lineStart < resume <= |text|
    ensures Linked(v, col, text, starts + [lineStart], emitted + [line], truncated || truncatedHere, resume)
  {
    assert BreaksAt(col, text, lineStart, iter);
    FirstBreakSkip(col, text, lineStart, iter);
    StepOfBreak(v, col, text, lineStart, iter);
    truncatedHere := false;
    resume := iter;
    if foundNewLine {
      if thisLine == [NEWLINE] { // a line holding only the newline is drawn as a space
        line := [SPACE];
      } else {
        line := thisLine[..|thisLine| - 1];
      }
    } else if foundSpace {
      line := WalkAndFill(col.isSpace, text, lineStart, iter, lastSpace);
      match v {
        case AsWritten =>
          // the source's test: the line did not begin with whitespace
          if !col.isSpace(text[lineStart]) {
            resume := lastSpace;
          }
        case Corrected =>
          // the emitted line reached past its leading whitespace
          if lineStart + LeadingSpaces(thisLine, col.isSpace) < lastSpace {
            resume := lastSpace;
          }
      }
    } else {
      line := thisLine;
      truncatedHere := true;
    }
    LinkedExtend(v, col, text, starts, emitted, truncated, lineStart, Break(line, resume, truncatedHere));
  }

  /** The last line, once the scan reaches the end of the text without a
      break: the rest of the text without its leading whitespace. */
  method FlushLine(v: Variant, col: Column, text: seq<Codepoint>, lineStart: nat,
                   ghost starts: seq<nat>, ghost emitted: seq<Line>, ghost truncated: bool)
    returns (finalLine: Line)
    requires lineStart < |text|
    requires forall j :: lineStart < j <= |text| ==> !BreaksAt(col, text, lineStart, j)
    requires Linked(v, col, text, starts, emitted, truncated, lineStart)
    ensures Linked(v, col, text, starts + [lineStart], emitted + [finalLine], truncated, |text|)
  {
    finalLine := WalkAndFill(col.isSpace, text, lineStart, |text|, |text|);
    LinkedFlush(v, col, text, starts, emitted, truncated, lineStart, finalLine);
  }

  /** The breaking loop of `drawMultiLineColumn`: the lines it pushes into
      `splitLines` and the value it leaves in `*wordsWereTruncated`. With
      `AsWritten` this is the source's loop; with `Corrected` it resumes by
      the corrected rule. */
  method BreakLines(v: Variant, col: Column, text: seq<Codepoint>) returns (splitLines: seq<Line>, wordsWereTruncated: bool)
    ensures splitLines == LayoutOf(v, col, text, 0).lines
    ensures wordsWereTruncated == LayoutOf(v, col, text, 0).truncated
  {
    wordsWereTruncated := false;
    splitLines := [];
    var iter: nat := 0;
    var lineStart: nat := 0;
    var lastSpace: nat := 0;
    var thisLine: Line := [];
    var foundSpace, foundNewLine := false, false;
    ghost var starts: seq<nat> := [];
    while iter < |text|
      invariant lineStart <= iter <= |text|
      invariant iter == |text| ==> lineStart == iter
      invariant thisLine == text[lineStart..iter]
      invariant !foundNewLine
      invariant LastSpaceEnd(col, text, lineStart, iter) == if foundSpace then lastSpace else lineStart
      invariant foundSpace ==> lineStart < lastSpace
      invariant forall j :: lineStart < j <= iter ==> !BreaksAt(col, text, lineStart, j)
      invariant Linked(v, col, text, starts, splitLines, wordsWereTruncated, lineStart)
      decreases |text| - lineStart, |text| - iter
    {
      var c := text[iter];
      iter := iter + 1;
      if col.isSpace(c) {
        foundSpace := true;
        lastSpace := iter;
      }
      if c == NEWLINE {
        foundNewLine := true;
      }
      thisLine := thisLine + [c];
      SliceExtend(text, lineStart, iter - 1);
      if col.width(thisLine) > col.maxW || foundNewLine {
        var line, resume, truncatedHere := BreakLine(v, col, text, lineStart, iter, thisLine, foundNewLine, foundSpace, lastSpace,
                                                      starts, splitLines, wordsWereTruncated);
        starts := starts + [lineStart];
        splitLines := splitLines + [line];
        if truncatedHere {
          wordsWereTruncated := true;
        }
        iter := resume;
        // the next line starts where the scan resumes
        lineStart := iter;
        thisLine := [];
        assert thisLine == text[lineStart..iter];
        foundSpace, foundNewLine := false, false;
      } else {
        assert !BreaksAt(col, text, lineStart, iter);
        if iter == |text| { // the text ends without a break
          var finalLine := FlushLine(v, col, text, lineStart, starts, splitLines, wordsWereTruncated);
          starts := starts + [lineStart];
          splitLines := splitLines + [finalLine];
          lineStart := iter;
          break;
        }
      }
    }
    LinkedLayoutLines(v, col, text, starts, splitLines, wordsWereTruncated);
    LinkedLayoutTruncated(v, col, text, starts, splitLines, wordsWereTruncated, lineStart);
  }
}
