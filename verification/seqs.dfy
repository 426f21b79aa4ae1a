/** Sequence helpers shared by the model: order-preserving filtering,
    distinctness and JavaScript's `Array.prototype.slice` index rules. */
module Seqs {

  /** No element occurs twice. */
  predicate Distinct<T(==)>(s: seq<T>) {
    forall i, j :: 0 <= i < j < |s| ==> s[i] != s[j]
  }

  /** `s.filter(p)`: the elements satisfying `p`, in their original order. */
  function Filter<T(!new)>(s: seq<T>, p: T -> bool): (r: seq<T>)
    ensures |r| <= |s|
    ensures forall x :: x in r <==> x in s && p(x)
    ensures forall k :: 0 <= k < |r| ==> p(r[k])
  {
    if s == [] then []
    else (if p(s[0]) then [s[0]] else []) + Filter(s[1..], p)
  }

  /** Filtering keeps a sequence free of duplicates. */
  lemma {:induction false} FilterDistinct<T(!new)>(s: seq<T>, p: T -> bool)
    requires Distinct(s)
    ensures Distinct(Filter(s, p))
  {
    if s != [] {
      FilterDistinct(s[1..], p);
      var rest := Filter(s[1..], p);
      assert s[0] !in rest;
    }
  }

  /** Filtering distributes over concatenation. */
  lemma {:induction false} FilterAppend<T(!new)>(a: seq<T>, b: seq<T>, p: T -> bool)
    ensures Filter(a + b, p) == Filter(a, p) + Filter(b, p)
  {
    if a != [] {
      FilterAppend(a[1..], b, p);
      var h := if p(a[0]) then [a[0]] else [];
      assert (a + b)[0] == a[0] && (a + b)[1..] == a[1..] + b;
      assert Filter(a + b, p) == h + (Filter(a[1..], p) + Filter(b, p));
      assert Filter(a, p) == h + Filter(a[1..], p);
    } else {
      assert a + b == b;
    }
  }

  /** Filtering a sequence all of whose elements pass keeps it whole. */
  lemma {:induction false} FilterAll<T(!new)>(s: seq<T>, p: T -> bool)
    requires forall k :: 0 <= k < |s| ==> p(s[k])
    ensures Filter(s, p) == s
  {
    if s != [] {
      FilterAll(s[1..], p);
      assert s == [s[0]] + s[1..];
    }
  }

  /** A duplicate-free sequence has as many distinct elements as entries. */
  lemma {:induction false} DistinctCard<T>(s: seq<T>)
    requires Distinct(s)
    ensures |set x | x in s| == |s|
  {
    if s != [] {
      DistinctCard(s[1..]);
      var tail := set x | x in s[1..];
      assert (set x | x in s) == tail + {s[0]};
      assert s[0] !in tail;
    }
  }

  /** The index `Array.prototype.slice` uses for an argument `k` on an array
      of length `len`: negative arguments count back from the end and every
      argument is clamped to `[0, len]`. */
  function JsIndex(k: int, len: nat): (r: nat)
    ensures r <= len
    ensures k >= 0 ==> r == if k < len then k else len
    ensures k < 0 ==> r == if len + k > 0 then len + k else 0
  {
    if k < 0 then (if len + k > 0 then len + k else 0)
    else if k < len then k else len
  }

  /** `s.slice(start)`. */
  function SliceFrom<T>(s: seq<T>, start: int): seq<T> {
    s[JsIndex(start, |s|)..]
  }

  /** `s.slice(start, end)`: empty when the clamped end is not after the start. */
  function Slice<T>(s: seq<T>, start: int, end: int): seq<T> {
    var lo := JsIndex(start, |s|);
    var hi := JsIndex(end, |s|);
    if lo < hi then s[lo..hi] else []
  }

  /** The elements of a sequence, as a set. */
  function SetOf<T>(s: seq<T>): set<T> {
    set x | x in s
  }

  /** In a duplicate-free sequence no element occurs more than once. */
  lemma {:induction false} DistinctMultiplicity<T>(s: seq<T>)
    requires Distinct(s)
    ensures forall x :: multiset(s)[x] <= 1
  {
    if s != [] {
      DistinctMultiplicity(s[1..]);
      assert s == [s[0]] + s[1..];
      assert multiset(s) == multiset{s[0]} + multiset(s[1..]);
      assert s[0] !in s[1..];
    }
  }

  /** An element found at two positions occurs at least twice. */
  lemma RepeatCounted<T>(b: seq<T>, i: int, j: int)
    requires 0 <= i < j < |b|
    ensures b[i] == b[j] ==> multiset(b)[b[i]] >= 2
  {
    assert b == b[..i] + [b[i]] + b[i + 1..j] + [b[j]] + b[j + 1..];
    assert multiset(b) == multiset(b[..i]) + multiset{b[i]} + multiset(b[i + 1..j])
                          + multiset{b[j]} + multiset(b[j + 1..]);
  }

  /** A permutation of a duplicate-free sequence is duplicate-free. */
  lemma PermutationDistinct<T>(a: seq<T>, b: seq<T>)
    requires Distinct(a) && multiset(a) == multiset(b)
    ensures Distinct(b)
    ensures SetOf(a) == SetOf(b)
  {
    DistinctMultiplicity(a);
    forall i, j | 0 <= i < j < |b| ensures b[i] != b[j] {
      RepeatCounted(b, i, j);
    }
    forall x ensures x in a <==> x in b {
      assert x in a <==> x in multiset(a);
      assert x in b <==> x in multiset(b);
    }
  }

  function Min(a: int, b: int): int {
    if a <= b then a else b
  }
}
