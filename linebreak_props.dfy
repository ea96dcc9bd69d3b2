/** What the greedy line breaker promises. Under either resume rule, lines
    never contain a newline, the line count is bounded by the text, and the
    truncation flag is raised exactly for lines that could not be broken at
    whitespace. Under the corrected rule, moreover, every line is a piece of
    the text cut at a break point, and no codepoint other than whitespace
    and newlines is lost or invented. */
module LineBreakProps {
  import opened Text
  import opened LineBreaker

  // ---------------------------------------------------------------------
  // Facts about the helper functions

  /** LastSpaceEnd points just past the last whitespace of text[start..k]. */
  lemma {:induction false} LastSpaceEndSpec(col: Column, text: seq<Codepoint>, start: nat, k: nat)
    requires start <= k <= |text|
    ensures var p := LastSpaceEnd(col, text, start, k);
      && (p > start ==> col.isSpace(text[p - 1]))
      && (forall j :: p <= j < k ==> !col.isSpace(text[j]))
    decreases k - start
  {
    if k > start && !col.isSpace(text[k - 1]) {
      LastSpaceEndSpec(col, text, start, k - 1);
    }
  }

  /** No break happens between `k` and the first break FirstBreak reports,
      nor anywhere after `k` when it reports none. */
  lemma {:induction false} FirstBreakMinimal(col: Column, text: seq<Codepoint>, start: nat, k: nat)
    requires start < k <= |text| + 1
    ensures FirstBreak(col, text, start, k).Some? ==>
      forall j :: k <= j < FirstBreak(col, text, start, k).value ==> !BreaksAt(col, text, start, j)
    ensures FirstBreak(col, text, start, k).None? ==>
      forall j :: k <= j <= |text| ==> !BreaksAt(col, text, start, j)
    decreases |text| + 1 - k
  {
    if k <= |text| && !BreaksAt(col, text, start, k) {
      FirstBreakMinimal(col, text, start, k + 1);
    }
  }

  /** The leading-whitespace count is the unique position where the
      whitespace run ends. */
  lemma {:induction false} LeadingSpacesUnique(s: seq<Codepoint>, isSpace: SpacePredicate, n: nat)
    requires n <= |s|
    requires forall i :: 0 <= i < n ==> isSpace(s[i])
    requires n < |s| ==> !isSpace(s[n])
    ensures LeadingSpaces(s, isSpace) == n
  {
    if n > 0 {
      assert isSpace(s[0]);
      LeadingSpacesUnique(s[1..], isSpace, n - 1);
    }
  }

  /** Cutting a text after its leading whitespace run keeps that run. */
  lemma LeadingSpacesPrefix(s: seq<Codepoint>, isSpace: SpacePredicate, m: nat)
    requires LeadingSpaces(s, isSpace) < m <= |s|
    ensures LeadingSpaces(s[..m], isSpace) == LeadingSpaces(s, isSpace)
  {
    var n := LeadingSpaces(s, isSpace);
    assert s[..m][n] == s[n];
    LeadingSpacesUnique(s[..m], isSpace, n);
  }

  // ---------------------------------------------------------------------
  // Every line is the text it was cut from

  /** `line` is what the breaker draws for the stretch `span` of the text:
      the stretch without its leading whitespace, the stretch without the
      newline that ended it, or a single space for a lone newline. */
  predicate Covers(isSpace: SpacePredicate, line: Line, span: seq<Codepoint>)
  {
    || line == span[LeadingSpaces(span, isSpace)..]
    || span == line + [NEWLINE]
    || (span == [NEWLINE] && line == [SPACE])
  }

  /** The last line covers the rest of the text. */
  lemma FlushCovers(isSpace: SpacePredicate, text: seq<Codepoint>, start: nat)
    requires start <= |text|
    ensures Covers(isSpace, Fill(isSpace, text, start, |text|, |text|), text[start..|text|])
  {
  }

  /** A line ended by a newline covers its text up to and including the newline. */
  lemma NewlineCovers(isSpace: SpacePredicate, thisLine: seq<Codepoint>)
    requires thisLine != [] && thisLine[|thisLine| - 1] == NEWLINE
    ensures Covers(isSpace, if thisLine == [NEWLINE] then [SPACE] else thisLine[..|thisLine| - 1], thisLine)
  {
    if thisLine != [NEWLINE] {
      assert thisLine == thisLine[..|thisLine| - 1] + [NEWLINE];
    }
  }

  /** A line wrapped at whitespace covers the text up to where scanning resumes. */
  lemma WrapCovers(col: Column, text: seq<Codepoint>, start: nat, k: nat, lastSpace: nat)
    requires start < lastSpace <= k <= |text|
    ensures Covers(col.isSpace, Fill(col.isSpace, text, start, k, lastSpace), text[start..Resume(col, text, start, k, lastSpace)])
  {
    var thisLine := text[start..k];
    var n := LeadingSpaces(thisLine, col.isSpace);
    if start + n < lastSpace {
      LeadingSpacesPrefix(thisLine, col.isSpace, lastSpace - start);
      assert thisLine[..lastSpace - start] == text[start..lastSpace];
    }
  }

  /** An unbreakable line covers itself. */
  lemma WholeCovers(isSpace: SpacePredicate, thisLine: seq<Codepoint>)
    requires NoSpace(thisLine, isSpace)
    ensures Covers(isSpace, thisLine, thisLine)
  {
    LeadingSpacesUnique(thisLine, isSpace, 0);
  }

  /** Under the corrected rule each step draws exactly the stretch of text
      it consumes. */
  lemma StepCovers(col: Column, text: seq<Codepoint>, start: nat)
    requires start < |text|
    ensures var b := StepOf(Corrected, col, text, start);
      Covers(col.isSpace, b.line, text[start..b.next])
  {
    match FirstBreak(col, text, start, start + 1)
    case None =>
      StepOfEnd(Corrected, col, text, start);
      FlushCovers(col.isSpace, text, start);
    case Some(k) =>
      StepOfBreak(Corrected, col, text, start, k);
      var lastSpace := LastSpaceEnd(col, text, start, k);
      if text[k - 1] == NEWLINE {
        NewlineCovers(col.isSpace, text[start..k]);
      } else if lastSpace > start {
        WrapCovers(col, text, start, k, lastSpace);
      } else {
        LastSpaceEndSpec(col, text, start, k);
        WholeCovers(col.isSpace, text[start..k]);
      }
  }

  /** The number of occurrences of `c` over all lines. */
  function CountLines(lines: seq<Line>, c: Codepoint): (n: nat)
    ensures lines == [] ==> n == 0
  {
    if lines == [] then 0 else Count(lines[0], c) + CountLines(lines[1..], c)
  }

  /** Dropping leading whitespace keeps the count of a non-whitespace codepoint. */
  lemma CountAfterLeading(isSpace: SpacePredicate, span: seq<Codepoint>, c: Codepoint)
    requires !isSpace(c)
    ensures Count(span[LeadingSpaces(span, isSpace)..], c) == Count(span, c)
  {
    var n := LeadingSpaces(span, isSpace);
    var lead := span[..n];
    assert forall i :: 0 <= i < |lead| ==> isSpace(lead[i]);
    assert c !in lead;
    assert span == lead + span[n..];
    CountAppend(lead, span[n..], c);
  }

  /** A codepoint that is neither whitespace, a newline nor a space occurs as
      often in a line as in the stretch of text it covers. */
  lemma CoversCount(isSpace: SpacePredicate, line: Line, span: seq<Codepoint>, c: Codepoint)
    requires Covers(isSpace, line, span)
    requires !isSpace(c) && c != NEWLINE && c != SPACE
    ensures Count(line, c) == Count(span, c)
  {
    if line == span[LeadingSpaces(span, isSpace)..] {
      CountAfterLeading(isSpace, span, c);
    } else if span == line + [NEWLINE] {
      CountAppend(line, [NEWLINE], c);
    }
  }

  /** The corrected breaker loses no codepoint other than whitespace and
      newlines, and invents none other than the space drawn for a lone
      newline. */
  lemma {:induction false} LayoutPreservesCount(col: Column, text: seq<Codepoint>, start: nat, c: Codepoint)
    requires start <= |text|
    requires !col.isSpace(c) && c != NEWLINE && c != SPACE
    ensures CountLines(LayoutOf(Corrected, col, text, start).lines, c) == Count(text[start..], c)
    decreases |text| - start
  {
    if start < |text| {
      var b := StepOf(Corrected, col, text, start);
      var rest := LayoutOf(Corrected, col, text, b.next).lines;
      StepCovers(col, text, start);
      CoversCount(col.isSpace, b.line, text[start..b.next], c);
      LayoutPreservesCount(col, text, b.next, c);
      SliceSplit(text, start, b.next);
      CountAppend(text[start..b.next], text[b.next..], c);
      assert ([b.line] + rest)[1..] == rest;
    }
  }

  // ---------------------------------------------------------------------
  // Shape of the lines

  /** Fill keeps a text free of newlines free of them. */
  lemma FillNoNewline(isSpace: SpacePredicate, text: seq<Codepoint>, begin: nat, iter: nat, end: nat)
    requires begin <= iter <= |text|
    requires NoNewline(text[begin..iter])
    ensures NoNewline(Fill(isSpace, text, begin, iter, end))
  {
    var first := begin + LeadingSpaces(text[begin..iter], isSpace);
    var e := if first < end <= iter then end else iter;
    forall i | 0 <= i < e - first
      ensures text[first..e][i] != NEWLINE
    {
      assert text[first..e][i] == text[begin..iter][first - begin + i];
    }
  }

  /** Before the first break of a line no newline was met. */
  lemma NoBreakNoNewline(col: Column, text: seq<Codepoint>, start: nat, k: nat)
    requires start < k <= |text| + 1
    requires forall j :: start < j < k ==> !BreaksAt(col, text, start, j)
    ensures NoNewline(text[start..k - 1])
  {
    var prefix := text[start..k - 1];
    forall i | 0 <= i < |prefix|
      ensures prefix[i] != NEWLINE
    {
      assert !BreaksAt(col, text, start, start + i + 1);
    }
  }

  /** None of the lines a break at `k` can draw holds a newline. */
  lemma BreakNoNewline(col: Column, text: seq<Codepoint>, start: nat, k: nat)
    requires start < k <= |text|
    requires forall j :: start < j < k ==> !BreaksAt(col, text, start, j)
    ensures var thisLine := text[start..k];
      var lastSpace := LastSpaceEnd(col, text, start, k);
      && (text[k - 1] == NEWLINE ==> NoNewline(thisLine[..|thisLine| - 1]))
      && (text[k - 1] != NEWLINE ==> NoNewline(thisLine))
      && (text[k - 1] != NEWLINE && lastSpace > start ==> NoNewline(Fill(col.isSpace, text, start, k, lastSpace)))
  {
    NoBreakNoNewline(col, text, start, k);
    var thisLine := text[start..k];
    assert thisLine[..|thisLine| - 1] == text[start..k - 1];
    SliceExtend(text, start, k - 1);
    if text[k - 1] != NEWLINE {
      FillNoNewline(col.isSpace, text, start, k, LastSpaceEnd(col, text, start, k));
    }
  }

  /** No drawn line holds a newline. */
  lemma StepNoNewline(v: Variant, col: Column, text: seq<Codepoint>, start: nat)
    requires start < |text|
    ensures NoNewline(StepOf(v, col, text, start).line)
  {
    FirstBreakMinimal(col, text, start, start + 1);
    match FirstBreak(col, text, start, start + 1)
    case None =>
      StepOfEnd(v, col, text, start);
      NoBreakNoNewline(col, text, start, |text| + 1);
      FillNoNewline(col.isSpace, text, start, |text|, |text|);
    case Some(k) =>
      StepOfBreak(v, col, text, start, k);
      BreakNoNewline(col, text, start, k);
  }

  /** No line of a layout holds a newline. */
  lemma {:induction false} LayoutNoNewline(v: Variant, col: Column, text: seq<Codepoint>, start: nat)
    requires start <= |text|
    ensures forall i :: 0 <= i < |LayoutOf(v, col, text, start).lines| ==> NoNewline(LayoutOf(v, col, text, start).lines[i])
    decreases |text| - start
  {
    if start < |text| {
      var b := StepOf(v, col, text, start);
      StepNoNewline(v, col, text, start);
      LayoutNoNewline(v, col, text, b.next);
    }
  }

  /** Every step consumes at least one codepoint, so a non-empty text gives
      at least one line and never more lines than codepoints; an empty text
      gives none. */
  lemma {:induction false} LayoutLineCount(v: Variant, col: Column, text: seq<Codepoint>, start: nat)
    requires start <= |text|
    ensures var n := |LayoutOf(v, col, text, start).lines|;
      && (start < |text| ==> 1 <= n)
      && n <= |text| - start
      && (start == |text| ==> n == 0)
    decreases |text| - start
  {
    if start < |text| {
      LayoutLineCount(v, col, text, StepOf(v, col, text, start).next);
    }
  }

  /** A text that never has to break is drawn as one line: the whole text
      without its leading whitespace. */
  lemma LayoutFits(v: Variant, col: Column, text: seq<Codepoint>)
    requires text != []
    requires forall k :: 0 < k <= |text| ==> !BreaksAt(col, text, 0, k)
    ensures LayoutOf(v, col, text, 0) == Layout([text[LeadingSpaces(text, col.isSpace)..]], false)
  {
    FirstBreakSkip(col, text, 0, |text| + 1);
    assert text[0..|text|] == text;
  }

  /** A run of m newlines draws m lines, each a single space: blank lines are
      kept, not collapsed. */
  lemma {:induction false} NewlineRun(v: Variant, col: Column, text: seq<Codepoint>, start: nat, m: nat)
    requires start + m <= |text|
    requires forall i :: start <= i < start + m ==> text[i] == NEWLINE
    ensures var lines := LayoutOf(v, col, text, start).lines;
      m <= |lines| && forall i :: 0 <= i < m ==> lines[i] == [SPACE]
    decreases m
  {
    if m > 0 {
      assert text[start..start + 1] == [NEWLINE];
      assert StepOf(v, col, text, start) == Break([SPACE], start + 1, false);
      NewlineRun(v, col, text, start + 1, m - 1);
    }
  }

  // ---------------------------------------------------------------------
  // Truncation

  /** A step is flagged exactly when the line overflows without a newline and
      holds no whitespace to break at; it is then drawn whole, wider than the
      column. */
  lemma StepTruncated(v: Variant, col: Column, text: seq<Codepoint>, start: nat)
    requires start < |text|
    ensures var b := StepOf(v, col, text, start);
      var f := FirstBreak(col, text, start, start + 1);
      && (b.truncated <==> f.Some? && text[f.value - 1] != NEWLINE && NoSpace(text[start..f.value], col.isSpace))
      && (b.truncated ==> b.line == text[start..b.next] && NoSpace(b.line, col.isSpace) && col.width(b.line) > col.maxW)
  {
    match FirstBreak(col, text, start, start + 1)
    case None =>
    case Some(k) =>
      var lastSpace := LastSpaceEnd(col, text, start, k);
      LastSpaceEndSpec(col, text, start, k);
      if lastSpace > start {
        assert text[start..k][lastSpace - 1 - start] == text[lastSpace - 1];
      }
  }

  /** A layout is flagged only when one of its lines is an unbreakable
      overflow: no whitespace and wider than the column. */
  lemma {:induction false} LayoutTruncated(v: Variant, col: Column, text: seq<Codepoint>, start: nat)
    requires start <= |text|
    ensures var l := LayoutOf(v, col, text, start);
      l.truncated ==> exists i :: 0 <= i < |l.lines| && NoSpace(l.lines[i], col.isSpace) && col.width(l.lines[i]) > col.maxW
    decreases |text| - start
  {
    if start < |text| {
      var b := StepOf(v, col, text, start);
      var l := LayoutOf(v, col, text, start);
      var rest := LayoutOf(v, col, text, b.next);
      StepTruncated(v, col, text, start);
      LayoutTruncated(v, col, text, b.next);
      if b.truncated {
        assert l.lines[0] == b.line;
      } else if rest.truncated {
        var i :| 0 <= i < |rest.lines| && NoSpace(rest.lines[i], col.isSpace) && col.width(rest.lines[i]) > col.maxW;
        assert l.lines[i + 1] == rest.lines[i];
      }
    }
  }
}
