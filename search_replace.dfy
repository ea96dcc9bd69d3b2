/** `searchAndReplace`: replaces the first occurrence of a substring. */
module SearchReplace {
  import opened Text

  /** `t` occurs in `s` at position `p`. */
  predicate OccursAt<T(==)>(s: seq<T>, t: seq<T>, p: nat)
  {
    p + |t| <= |s| && s[p..p + |t|] == t
  }

  /** The position of the first occurrence of `t` in `s` at or after `from`,
      if there is one. */
  function Find<T(==)>(s: seq<T>, t: seq<T>, from: nat): (p: Option<nat>)
    requires from <= |s|
    ensures p.Some? ==> from <= p.value && OccursAt(s, t, p.value)
    decreases |s| - from
  {
    if OccursAt(s, t, from) then Some(from)
    else if from == |s| then None
    else Find(s, t, from + 1)
  }

  /** Find returns the first occurrence, and nothing only when there is none. */
  lemma {:induction false} FindFirst<T>(s: seq<T>, t: seq<T>, from: nat)
    requires from <= |s|
    ensures Find(s, t, from).Some? ==> forall q: nat :: from <= q < Find(s, t, from).value ==> !OccursAt(s, t, q)
    ensures Find(s, t, from).None? ==> forall q: nat :: from <= q ==> !OccursAt(s, t, q)
    decreases |s| - from
  {
    if !OccursAt(s, t, from) && from < |s| {
      FindFirst(s, t, from + 1);
    }
  }

  /** `s` with its first occurrence of `t` replaced by `r`; None where the
      source throws because `t` does not occur. */
  function SearchAndReplace<T(==)>(s: seq<T>, t: seq<T>, r: seq<T>): (res: Option<seq<T>>)
    ensures res.Some? <==> exists p: nat :: OccursAt(s, t, p)
    ensures res.Some? ==> exists p: nat ::
      && OccursAt(s, t, p)
      && (forall q: nat :: q < p ==> !OccursAt(s, t, q))
      && res.value == s[..p] + r + s[p + |t|..]
  {
    FindFirst(s, t, 0);
    match Find(s, t, 0)
    case None => None
    case Some(p) => Some(s[..p] + r + s[p + |t|..])
  }
}
