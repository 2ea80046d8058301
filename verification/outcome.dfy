/** Failure values of the pipeline.  Each constructor of `Error` stands for
    one Python exception the original code can raise; `Result` carries
    either a value or the exception that ended the computation, and is
    failure-compatible so that `:-` propagates the first error. */
module Outcome {

  datatype Error =
    | KeyError           // a dict lookup of a key that is not present
    | IndexError         // a list index past the end
    | ValueError         // int() of a string that is not an integer literal
    | ZeroDivisionError  // a float division by zero
    | FileFormatError(message: string)  // the parsers' own exception

  datatype Result<+T> = Ok(value: T) | Err(error: Error) {

    predicate IsFailure() {
      Err?
    }

    function PropagateFailure<U>(): Result<U>
      requires Err?
    {
      Err(error)
    }

    function Extract(): T
      requires Ok?
    {
      value
    }
  }

  /** A duplicate-free sequence: the key order of a Python dict or the
      iteration order of a Python set. */
  predicate Distinct<T(==)>(xs: seq<T>) {
    forall i, j :: 0 <= i < j < |xs| ==> xs[i] != xs[j]
  }

  /** A duplicate-free sequence has as many elements as its set. */
  lemma {:induction false} DistinctCardinality<T>(xs: seq<T>)
    requires Distinct(xs)
    ensures |set x | x in xs| == |xs|
    decreases |xs|
  {
    if |xs| > 0 {
      var init := xs[..|xs| - 1];
      var last := xs[|xs| - 1];
      assert Distinct(init);
      DistinctCardinality(init);
      assert (set x | x in xs) == (set x | x in init) + {last};
      assert last !in (set x | x in init);
    }
  }

  /** A subset is no larger than its superset. */
  lemma {:induction false} SubsetCardinality<T>(a: set<T>, b: set<T>)
    requires a <= b
    ensures |a| <= |b|
    decreases |a|
  {
    if a != {} {
      var x :| x in a;
      SubsetCardinality(a - {x}, b - {x});
    }
  }

  /** The elements of `[h] + rest` after the first are those of `rest`. */
  lemma ConsElements<T>(h: T, rest: seq<T>)
    ensures ([h] + rest)[0] == h
    ensures forall k :: 1 <= k <= |rest| ==> ([h] + rest)[k] == rest[k - 1]
  {
  }

  /** The elements of `xs[1..]` are those of `xs` after the first. */
  lemma TailElements<T>(xs: seq<T>)
    requires |xs| > 0
    ensures forall k :: 1 <= k < |xs| ==> xs[k] == xs[1..][k - 1]
  {
  }

  /** The elements of `xs[..|xs| - 1]` are those of `xs` but the last. */
  lemma InitElements<T>(xs: seq<T>)
    requires |xs| > 0
    ensures forall k :: 0 <= k < |xs| - 1 ==> xs[k] == xs[..|xs| - 1][k]
  {
  }

  /** A Python loop that appends `f(x)` for each `x` in order and lets the
      first exception escape: every result in order, or the error of the
      first element that fails. */
  function MapAll<A, B>(f: A -> Result<B>, xs: seq<A>): (r: Result<seq<B>>)
    ensures r.Ok? <==> forall k :: 0 <= k < |xs| ==> f(xs[k]).Ok?
    ensures r.Ok? ==> |r.value| == |xs| && forall k :: 0 <= k < |xs| ==> f(xs[k]) == Ok(r.value[k])
    ensures r.Err? ==> exists k :: 0 <= k < |xs| && f(xs[k]) == Err(r.error) &&
                                   forall j :: 0 <= j < k ==> f(xs[j]).Ok?
    decreases |xs|
  {
    if |xs| == 0 then Ok([])
    else
      var first := f(xs[0]);
      if first.Err? then Err(first.error)
      else
        var rest := MapAll(f, xs[1..]);
        TailElements(xs);
        if rest.Err? then
          var k :| 0 <= k < |xs[1..]| && f(xs[1..][k]) == Err(rest.error) &&
                   forall j :: 0 <= j < k ==> f(xs[1..][j]).Ok?;
          assert f(xs[k + 1]) == Err(rest.error);
          Err(rest.error)
        else
          ConsElements(first.value, rest.value);
          Ok([first.value] + rest.value)
  }

  /** Dropping a prefix of `xs + ys` that lies within `xs`. */
  lemma DropFromAppend<T>(xs: seq<T>, ys: seq<T>, n: nat)
    requires n <= |xs|
    ensures (xs + ys)[n..] == xs[n..] + ys
  {
  }

  /** The keys of a key-ordered list of pairs (a Python dict's `keys()` in
      insertion order). */
  function Firsts<K, V>(pairs: seq<(K, V)>): (keys: seq<K>)
    ensures |keys| == |pairs|
    ensures forall k :: 0 <= k < |pairs| ==> keys[k] == pairs[k].0
  {
    seq(|pairs|, k requires 0 <= k < |pairs| => pairs[k].0)
  }

  /** `idx` picks `r` out of `xs`: strictly increasing positions of `xs`
      whose elements, in that order, are `r` (the order a Python list
      comprehension with an `if` keeps). */
  ghost predicate Picks<T>(xs: seq<T>, idx: seq<int>, r: seq<T>) {
    && |idx| == |r|
    && (forall a :: 0 <= a < |idx| ==> 0 <= idx[a] < |xs| && r[a] == xs[idx[a]])
    && (forall a, b :: 0 <= a < b < |idx| ==> idx[a] < idx[b])
  }

  /** Putting `ys[0]` in front of `ys[1..]` shifts every picked position
      by one; picking `ys[0]` as well adds position 0 in front. */
  lemma PickCons<T>(ys: seq<T>, idx: seq<int>, r: seq<T>, keep: bool) returns (idx': seq<int>)
    requires |ys| > 0 && Picks(ys[1..], idx, r)
    ensures Picks(ys, idx', if keep then [ys[0]] + r else r)
    ensures 0 in idx' <==> keep
    ensures forall k :: 1 <= k < |ys| ==> (k in idx' <==> k - 1 in idx)
  {
    assert [ys[0]] + ys[1..] == ys;
    var shifted := PickShift(ys[0], ys[1..], idx, r);
    if keep {
      PickFront(ys[0], ys[1..], shifted, r);
      idx' := [0] + shifted;
    } else {
      idx' := shifted;
    }
  }

  lemma PickShift<T>(x: T, xs: seq<T>, idx: seq<int>, r: seq<T>) returns (shifted: seq<int>)
    requires Picks(xs, idx, r)
    ensures Picks([x] + xs, shifted, r)
    ensures forall a :: 0 <= a < |shifted| ==> shifted[a] >= 1
    ensures forall k :: 1 <= k <= |xs| ==> (k in shifted <==> k - 1 in idx)
  {
    shifted := seq(|idx|, a requires 0 <= a < |idx| => idx[a] + 1);
    ConsElements(x, xs);
    forall a | 0 <= a < |shifted|
      ensures 0 <= shifted[a] < |[x] + xs| && r[a] == ([x] + xs)[shifted[a]]
    {
      assert ([x] + xs)[idx[a] + 1] == xs[idx[a]];
    }
    forall k | 1 <= k <= |xs|
      ensures k in shifted <==> k - 1 in idx
    {
      if k - 1 in idx {
        var a :| 0 <= a < |idx| && idx[a] == k - 1;
        assert shifted[a] == k;
      }
    }
  }

  lemma PickFront<T>(x: T, xs: seq<T>, idx: seq<int>, r: seq<T>)
    requires Picks([x] + xs, idx, r)
    requires forall a :: 0 <= a < |idx| ==> idx[a] >= 1
    ensures Picks([x] + xs, [0] + idx, [x] + r)
  {
    var ys, idx', r' := [x] + xs, [0] + idx, [x] + r;
    ConsElements(0, idx);
    ConsElements(x, r);
    forall a | 0 <= a < |idx'|
      ensures 0 <= idx'[a] < |ys| && r'[a] == ys[idx'[a]]
    {
      if a > 0 {
        assert idx'[a] == idx[a - 1] && r'[a] == r[a - 1];
      }
    }
  }

  /** `from` names, in increasing order, the part each element of `xs`
      comes from: a part that succeeded with exactly that one element. */
  ghost predicate Gathered<T>(parts: seq<Result<seq<T>>>, xs: seq<T>, from: seq<int>) {
    && |from| == |xs|
    && (forall j :: 0 <= j < |from| ==> 0 <= from[j] < |parts| && parts[from[j]] == Ok([xs[j]]))
    && (forall i, j :: 0 <= i < j < |from| ==> from[i] < from[j])
  }

  /** A last part holding at most one element extends what was gathered
      from the parts before it. */
  lemma GatherNext<T>(parts: seq<Result<seq<T>>>, xs: seq<T>, from: seq<int>, last: seq<T>) returns (from': seq<int>)
    requires |parts| > 0 && Gathered(parts[..|parts| - 1], xs, from)
    requires parts[|parts| - 1] == Ok(last) && |last| <= 1
    ensures Gathered(parts, xs + last, from')
  {
    var k := |parts| - 1;
    forall j | 0 <= j < |from|
      ensures 0 <= from[j] < k && parts[from[j]] == Ok([xs[j]])
    {
      assert parts[..k][from[j]] == parts[from[j]];
    }
    if |last| == 0 {
      assert xs + last == xs;
      from' := from;
    } else {
      assert last == [last[0]];
      from' := from + [k];
      var ys := xs + last;
      forall j | 0 <= j < |from'|
        ensures 0 <= from'[j] < |parts| && parts[from'[j]] == Ok([ys[j]])
      {
        if j < |from| {
          assert from'[j] == from[j] && ys[j] == xs[j];
        }
      }
      forall i, j | 0 <= i < j < |from'|
        ensures from'[i] < from'[j]
      {
        if j < |from| {
          assert from'[i] == from[i] && from'[j] == from[j];
        }
      }
    }
  }
}
