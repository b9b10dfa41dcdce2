/**
 * The array helpers the original code leans on (`find`, `findIndex`, `filter`),
 * as pure functions over sequences.
 */
module Collections {
  import opened Optional

  /** `array.findIndex(p)`: the first position whose element satisfies `p`, or none. */
  function FindIndex<T>(s: seq<T>, p: T -> bool): (r: Option<nat>)
    ensures r.Some? ==> r.value < |s| && p(s[r.value])
    ensures r.Some? ==> forall j :: 0 <= j < r.value ==> !p(s[j])
    ensures r.None? <==> forall j :: 0 <= j < |s| ==> !p(s[j])
  {
    if |s| == 0 then None
    else if p(s[0]) then Some(0)
    else match FindIndex(s[1..], p)
      case None => None
      case Some(k) => Some(k + 1)
  }

  /** `array.find(p)`: the first element satisfying `p`, or none. */
  function Find<T>(s: seq<T>, p: T -> bool): (r: Option<T>)
    ensures r.Some? <==> exists j :: 0 <= j < |s| && p(s[j])
    ensures r.Some? ==> r.value in s && p(r.value)
    ensures r.Some? ==> exists j :: 0 <= j < |s| && s[j] == r.value && forall i :: 0 <= i < j ==> !p(s[i])
  {
    match FindIndex(s, p)
    case None => None
    case Some(k) => Some(s[k])
  }

  /** `array.filter(p)`: the elements satisfying `p`. */
  function Filter<T>(s: seq<T>, p: T -> bool): (r: seq<T>)
    ensures |r| <= |s|
    ensures forall j :: 0 <= j < |r| ==> r[j] in s && p(r[j])
    ensures forall j :: 0 <= j < |s| && p(s[j]) ==> s[j] in r
    ensures multiset(r) <= multiset(s)
  {
    if |s| == 0 then []
    else
      assert s == [s[0]] + s[1..];
      if p(s[0]) then [s[0]] + Filter(s[1..], p) else Filter(s[1..], p)
  }

  /** Filtering keeps every element when none is rejected. */
  lemma {:induction false} FilterAll<T>(s: seq<T>, p: T -> bool)
    requires forall j :: 0 <= j < |s| ==> p(s[j])
    ensures Filter(s, p) == s
  {
    if |s| > 0 {
      FilterAll(s[1..], p);
    }
  }

  /** Filtering distributes over concatenation, so it preserves relative order. */
  lemma {:induction false} FilterConcat<T>(a: seq<T>, b: seq<T>, p: T -> bool)
    ensures Filter(a + b, p) == Filter(a, p) + Filter(b, p)
  {
    if |a| == 0 {
      assert a + b == b;
    } else {
      assert (a + b)[1..] == a[1..] + b;
      FilterConcat(a[1..], b, p);
    }
  }

  /** No two elements share a key. */
  predicate DistinctBy<T, K(==)>(s: seq<T>, key: T -> K) {
    forall i, j :: 0 <= i < j < |s| ==> key(s[i]) != key(s[j])
  }

  /** A filter of a sequence whose keys do not repeat has no repeated key either. */
  lemma {:induction false} FilterDistinctBy<T, K>(s: seq<T>, p: T -> bool, key: T -> K)
    requires DistinctBy(s, key)
    ensures DistinctBy(Filter(s, p), key)
  {
    if |s| > 0 {
      FilterDistinctBy(s[1..], p, key);
      if p(s[0]) {
        var r := Filter(s, p);
        assert r == [s[0]] + Filter(s[1..], p);
        forall i, j | 0 <= i < j < |r| ensures key(r[i]) != key(r[j]) {
          if i == 0 {
            assert r[j] in Filter(s[1..], p);
            assert r[j] in s[1..];
          }
        }
      }
    }
  }

  /** Two sequences that agree everywhere on `p` have the same first match. */
  lemma {:induction false} FindIndexAgree<T>(s: seq<T>, t: seq<T>, p: T -> bool)
    requires |s| == |t|
    requires forall j :: 0 <= j < |s| ==> p(s[j]) == p(t[j])
    ensures FindIndex(s, p) == FindIndex(t, p)
  {
    if |s| > 0 {
      FindIndexAgree(s[1..], t[1..], p);
    }
  }

  /** Appending an element only matters when nothing earlier matches. */
  lemma {:induction false} FindIndexAppend<T>(s: seq<T>, x: T, p: T -> bool)
    ensures FindIndex(s + [x], p) ==
      if FindIndex(s, p).Some? then FindIndex(s, p) else if p(x) then Some(|s|) else None
  {
    if |s| > 0 {
      assert (s + [x])[1..] == s[1..] + [x];
      FindIndexAppend(s[1..], x, p);
    }
  }
}
