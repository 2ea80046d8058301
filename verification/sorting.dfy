/** Python's `sorted(xs, key=k)` is a stable sort: elements with equal keys
    keep their original relative order.  Every sort of the pipeline
    (`heapq.nsmallest`, the gene-set order of the linear method, the final
    gene order) is modelled as a sort of positions 0..n-1 under the strict
    order "smaller key, or equal key and earlier position", which is exactly
    the order a stable sort produces.  Keys are pairs of reals compared
    lexicographically, as Python compares tuples. */
module Sorting {
  import opened Outcome

  type Key = (real, real)

  /** Python's `<` on a pair. */
  predicate KeyLess(a: Key, b: Key) {
    a.0 < b.0 || (a.0 == b.0 && a.1 < b.1)
  }

  /** Position `i` comes before position `j` in the stable ascending sort. */
  predicate Before(keys: seq<Key>, i: nat, j: nat)
    requires i < |keys| && j < |keys|
  {
    KeyLess(keys[i], keys[j]) || (keys[i] == keys[j] && i < j)
  }

  lemma BeforeTotal(keys: seq<Key>, i: nat, j: nat)
    requires i < |keys| && j < |keys| && i != j
    ensures Before(keys, i, j) != Before(keys, j, i)
  {
  }

  lemma BeforeTransitive(keys: seq<Key>, i: nat, j: nat, k: nat)
    requires i < |keys| && j < |keys| && k < |keys|
    requires Before(keys, i, j) && Before(keys, j, k)
    ensures Before(keys, i, k)
  {
  }

  /** `idx` lists positions of `keys` in strictly increasing `Before` order. */
  predicate SortedBy(keys: seq<Key>, idx: seq<nat>) {
    && (forall a :: 0 <= a < |idx| ==> idx[a] < |keys|)
    && (forall a, b :: 0 <= a < b < |idx| ==> Before(keys, idx[a], idx[b]))
  }

  /** A position placed before every position of a sorted list keeps it
      sorted. */
  lemma ConsSorted(keys: seq<Key>, h: nat, tail: seq<nat>)
    requires h < |keys| && SortedBy(keys, tail)
    requires forall e :: e in tail ==> e < |keys| && Before(keys, h, e)
    ensures SortedBy(keys, [h] + tail)
  {
    var r := [h] + tail;
    forall a, b | 0 <= a < b < |r|
      ensures Before(keys, r[a], r[b])
    {
      assert r[b] == tail[b - 1];
      if a > 0 {
        assert r[a] == tail[a - 1];
      }
    }
  }

  /** The head of a sorted list comes before the rest, and so before
      anything the rest is rearranged into together with a later `x`. */
  lemma HeadBeforeRest(keys: seq<Key>, sorted: seq<nat>, x: nat, tail: seq<nat>)
    requires SortedBy(keys, sorted) && |sorted| > 0 && x < |keys|
    requires Before(keys, sorted[0], x)
    requires multiset(tail) == multiset(sorted[1..]) + multiset{x}
    ensures forall e :: e in tail ==> e < |keys| && Before(keys, sorted[0], e)
  {
    forall e | e in tail
      ensures e < |keys| && Before(keys, sorted[0], e)
    {
      assert e in multiset(tail);
      if e != x {
        assert e in multiset(sorted[1..]);
        var b :| 0 <= b < |sorted[1..]| && sorted[1..][b] == e;
        assert sorted[b + 1] == e;
      }
    }
  }

  /** A position before the head of a sorted list goes in front of it. */
  lemma InsertFront(keys: seq<Key>, x: nat, sorted: seq<nat>)
    requires x < |keys| && SortedBy(keys, sorted) && |sorted| > 0
    requires Before(keys, x, sorted[0])
    ensures SortedBy(keys, [x] + sorted)
  {
    forall e | e in sorted
      ensures e < |keys| && Before(keys, x, e)
    {
      var b :| 0 <= b < |sorted| && sorted[b] == e;
      if b > 0 {
        BeforeTransitive(keys, x, sorted[0], e);
      }
    }
    ConsSorted(keys, x, sorted);
  }

  /** A position after the head of a sorted list is inserted into the
      rest, and the head stays in front. */
  lemma InsertBehind(keys: seq<Key>, x: nat, sorted: seq<nat>, tail: seq<nat>)
    requires x < |keys| && x !in sorted && SortedBy(keys, sorted) && |sorted| > 0
    requires !Before(keys, x, sorted[0])
    requires multiset(tail) == multiset(sorted[1..]) + multiset{x} && SortedBy(keys, tail)
    ensures multiset([sorted[0]] + tail) == multiset(sorted) + multiset{x}
    ensures SortedBy(keys, [sorted[0]] + tail)
  {
    assert sorted == [sorted[0]] + sorted[1..];
    BeforeTotal(keys, x, sorted[0]);
    HeadBeforeRest(keys, sorted, x, tail);
    ConsSorted(keys, sorted[0], tail);
  }

  /** Insertion of position `x` into a sorted list of other positions. */
  function Insert(keys: seq<Key>, x: nat, sorted: seq<nat>): (r: seq<nat>)
    requires x < |keys| && x !in sorted
    requires SortedBy(keys, sorted)
    ensures |r| == |sorted| + 1
    ensures multiset(r) == multiset(sorted) + multiset{x}
    ensures SortedBy(keys, r)
  {
    if |sorted| == 0 then [x]
    else if Before(keys, x, sorted[0]) then
      InsertFront(keys, x, sorted);
      [x] + sorted
    else
      var tail := Insert(keys, x, sorted[1..]);
      InsertBehind(keys, x, sorted, tail);
      [sorted[0]] + tail
  }

  /** The positions 0..n-1 of `keys` in stable ascending order. */
  function SortedPrefix(keys: seq<Key>, n: nat): (r: seq<nat>)
    requires n <= |keys|
    ensures |r| == n
    ensures multiset(r) == multiset(Range(n))
    ensures SortedBy(keys, r)
  {
    if n == 0 then []
    else
      var prefix := SortedPrefix(keys, n - 1);
      NextPosition(n, prefix);
      Insert(keys, n - 1, prefix)
  }

  /** Position `n-1` is new to any rearrangement of 0..n-2, and adding it
      gives a rearrangement of 0..n-1. */
  lemma NextPosition(n: nat, prefix: seq<nat>)
    requires n > 0 && multiset(prefix) == multiset(Range(n - 1))
    ensures n - 1 !in prefix
    ensures multiset(prefix) + multiset{(n - 1) as nat} == multiset(Range(n))
  {
    assert Range(n) == Range(n - 1) + [n - 1];
    assert n - 1 !in multiset(Range(n - 1));
  }

  /** `[0, 1, ..., n-1]`. */
  function Range(n: nat): (r: seq<nat>)
    ensures |r| == n
    ensures forall i :: 0 <= i < n ==> r[i] == i
  {
    if n == 0 then [] else Range(n - 1) + [n - 1]
  }

  /** The stable ascending order of all positions of `keys`: a permutation of
      0..|keys|-1 that lists positions by key, equal keys in their original
      order. */
  function SortedIndices(keys: seq<Key>): (r: seq<nat>)
    ensures |r| == |keys|
    ensures Distinct(r)
    ensures forall i :: 0 <= i < |keys| ==> i in r
    ensures SortedBy(keys, r)
  {
    var r := SortedPrefix(keys, |keys|);
    forall i | 0 <= i < |keys|
      ensures i in r
    {
      assert Range(|keys|)[i] == i;
      assert i in multiset(Range(|keys|));
    }
    forall a, b | 0 <= a < b < |r|
      ensures r[a] != r[b]
    {
      BeforeTotal(keys, r[a], r[b]);
    }
    r
  }

  /** `xs` rearranged in the order the positions `idx` give. */
  function Permute<T>(xs: seq<T>, idx: seq<nat>): (r: seq<T>)
    requires forall a :: 0 <= a < |idx| ==> idx[a] < |xs|
    ensures |r| == |idx|
    ensures forall a :: 0 <= a < |idx| ==> r[a] == xs[idx[a]]
  {
    seq(|idx|, a requires 0 <= a < |idx| => xs[idx[a]])
  }

  /** Rearranging by a permutation of the positions keeps exactly the
      same elements, and keeps a duplicate-free sequence duplicate-free. */
  lemma PermuteKeeps<T>(xs: seq<T>, idx: seq<nat>)
    requires |idx| == |xs| && Distinct(idx)
    requires forall a :: 0 <= a < |idx| ==> idx[a] < |xs|
    requires forall k :: 0 <= k < |xs| ==> k in idx
    ensures forall x :: x in Permute(xs, idx) <==> x in xs
    ensures Distinct(xs) ==> Distinct(Permute(xs, idx))
  {
    var r := Permute(xs, idx);
    forall x | x in xs
      ensures x in r
    {
      var k :| 0 <= k < |xs| && xs[k] == x;
      assert k in idx;
      var a :| 0 <= a < |idx| && idx[a] == k;
      assert r[a] == x;
    }
  }
}
