/** Text as the layout engine sees it: a sequence of Unicode scalar values,
    decoded from UTF-8 by the host framework. Positions in the text are
    indices into this sequence. */
module Text {

  /** A Unicode scalar value (a code point that is not a surrogate). */
  type Codepoint = c: int | 0 <= c <= 0x10FFFF && !(0xD800 <= c <= 0xDFFF)

  type Line = seq<Codepoint>

  datatype Option<T> = None | Some(value: T)

  const NEWLINE: Codepoint := 10
  const SPACE: Codepoint := 32

  /** The host's whitespace classification, taken as given. */
  type SpacePredicate = Codepoint -> bool

  /** The number of codepoints at the front of `s` that are whitespace. */
  function LeadingSpaces(s: seq<Codepoint>, isSpace: SpacePredicate): (n: nat)
    ensures n <= |s|
    ensures forall i :: 0 <= i < n ==> isSpace(s[i])
    ensures n < |s| ==> !isSpace(s[n])
  {
    if s == [] || !isSpace(s[0]) then 0 else 1 + LeadingSpaces(s[1..], isSpace)
  }

  /** `s` contains no whitespace codepoint. */
  predicate NoSpace(s: seq<Codepoint>, isSpace: SpacePredicate)
  {
    forall i :: 0 <= i < |s| ==> !isSpace(s[i])
  }

  /** `s` contains no newline codepoint. */
  predicate NoNewline(s: seq<Codepoint>)
  {
    forall i :: 0 <= i < |s| ==> s[i] != NEWLINE
  }

  /** The number of occurrences of `c` in `s`. */
  function Count(s: seq<Codepoint>, c: Codepoint): (n: nat)
    ensures n <= |s|
    ensures n == 0 <==> c !in s
  {
    if s == [] then 0 else (if s[0] == c then 1 else 0) + Count(s[1..], c)
  }

  /** Splitting a suffix of `s` at `m`. */
  lemma SliceSplit(s: seq<Codepoint>, a: nat, m: nat)
    requires a <= m <= |s|
    ensures s[a..] == s[a..m] + s[m..]
  {
  }

  lemma {:induction false} CountAppend(a: seq<Codepoint>, b: seq<Codepoint>, c: Codepoint)
    ensures Count(a + b, c) == Count(a, c) + Count(b, c)
  {
    if a == [] {
      assert a + b == b;
    } else {
      assert (a + b)[1..] == a[1..] + b;
      CountAppend(a[1..], b, c);
    }
  }

  /** The pieces of `s` between occurrences of `d`, empty pieces included:
      the empty text is one empty piece. */
  function Split(s: seq<Codepoint>, d: Codepoint): (parts: seq<seq<Codepoint>>)
    ensures |parts| >= 1
    decreases |s|
  {
    if s == [] then [[]]
    else
      var rest := Split(s[1..], d);
      if s[0] == d then [[]] + rest else [[s[0]] + rest[0]] + rest[1..]
  }

  /** `parts` with `d` between each two of them. */
  function Join(parts: seq<seq<Codepoint>>, d: Codepoint): seq<Codepoint>
    decreases |parts|
  {
    if parts == [] then []
    else if |parts| == 1 then parts[0]
    else parts[0] + [d] + Join(parts[1..], d)
  }

  lemma {:induction false} SplitNoDelimiter(a: seq<Codepoint>, d: Codepoint)
    requires d !in a
    ensures Split(a, d) == [a]
    decreases |a|
  {
    if a != [] {
      SplitNoDelimiter(a[1..], d);
      assert [a[0]] + a[1..] == a;
    }
  }

  lemma {:induction false} SplitSeparated(a: seq<Codepoint>, b: seq<Codepoint>, d: Codepoint)
    requires d !in a
    ensures Split(a + [d] + b, d) == [a] + Split(b, d)
    decreases |a|
  {
    var s := a + [d] + b;
    if a == [] {
      assert s[1..] == b;
    } else {
      assert s[1..] == a[1..] + [d] + b;
      SplitSeparated(a[1..], b, d);
      assert [a[0]] + a[1..] == a;
    }
  }

  /** Splitting undoes joining pieces that do not contain the delimiter. */
  lemma {:induction false} SplitJoin(parts: seq<seq<Codepoint>>, d: Codepoint)
    requires parts != []
    requires forall i :: 0 <= i < |parts| ==> d !in parts[i]
    ensures Split(Join(parts, d), d) == parts
    decreases |parts|
  {
    if |parts| == 1 {
      SplitNoDelimiter(parts[0], d);
    } else {
      SplitSeparated(parts[0], Join(parts[1..], d), d);
      SplitJoin(parts[1..], d);
    }
  }

  /** Prefixing the first part of a join prefixes the join. */
  lemma JoinCons(c: Codepoint, parts: seq<seq<Codepoint>>, d: Codepoint)
    requires parts != []
    ensures Join([[c] + parts[0]] + parts[1..], d) == [c] + Join(parts, d)
  {
    var joined := [[c] + parts[0]] + parts[1..];
    assert joined[0] == [c] + parts[0];
    if |parts| > 1 {
      assert joined[1..] == parts[1..];
    }
  }

  /** Joining undoes splitting. */
  lemma {:induction false} JoinSplit(s: seq<Codepoint>, d: Codepoint)
    ensures Join(Split(s, d), d) == s
    decreases |s|
  {
    if s != [] {
      var rest := Split(s[1..], d);
      JoinSplit(s[1..], d);
      if s[0] == d {
        assert ([[]] + rest)[1..] == rest;
      } else {
        JoinCons(s[0], rest, d);
      }
      assert s == [s[0]] + s[1..];
    }
  }

  /** No piece contains the delimiter, and there is one piece more than
      there are delimiters. */
  lemma {:induction false} SplitPieces(s: seq<Codepoint>, d: Codepoint)
    ensures forall i :: 0 <= i < |Split(s, d)| ==> d !in Split(s, d)[i]
    ensures |Split(s, d)| == Count(s, d) + 1
    decreases |s|
  {
    if s != [] {
      SplitPieces(s[1..], d);
      var rest := Split(s[1..], d);
      if s[0] != d {
        assert d !in [s[0]] + rest[0] by {
          assert d !in rest[0];
        }
      }
    }
  }

  lemma {:induction false} JoinSnoc(parts: seq<seq<Codepoint>>, part: seq<Codepoint>, d: Codepoint)
    requires parts != []
    ensures Join(parts + [part], d) == Join(parts, d) + [d] + part
    decreases |parts|
  {
    var all := parts + [part];
    assert all[1..] == parts[1..] + [part];
    if |parts| > 1 {
      JoinSnoc(parts[1..], part, d);
    }
  }

  /** A codepoint absent from `s` is absent from each of its pieces. */
  lemma {:induction false} SplitAbsent(s: seq<Codepoint>, d: Codepoint, c: Codepoint)
    requires c !in s
    ensures forall i :: 0 <= i < |Split(s, d)| ==> c !in Split(s, d)[i]
    decreases |s|
  {
    if s != [] {
      SplitAbsent(s[1..], d, c);
      var rest := Split(s[1..], d);
      assert c !in rest[0];
      assert c !in [s[0]] + rest[0];
    }
  }
}
