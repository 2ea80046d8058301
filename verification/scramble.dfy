/** `scramble_sample`: the null-hypothesis transform that hands each sample's
    intensities back to its genes in a random order, and what it does to the
    memoised sample dict it is applied to. */
module Scramble {
  import opened Outcome
  import opened Data
  import Memo

  /** `[profiles[gene].intensity for gene in profiles]`. */
  function Intensities(s: Sample): (xs: seq<real>)
    requires WellFormed(s)
    ensures |xs| == |s.genes|
    ensures forall k :: 0 <= k < |xs| ==> xs[k] == s.intensity[s.genes[k]]
  {
    seq(|s.genes|, k requires 0 <= k < |s.genes| => s.intensity[s.genes[k]])
  }

  /** The reassignment loop: each gene, in key order, takes the value
      `profile_scores.pop()` removes from the end of the shuffled list. */
  function Reassign(genes: seq<string>, stack: seq<real>): (m: map<string, real>)
    requires |stack| == |genes| && Distinct(genes)
    ensures forall g :: g in m <==> g in genes
    ensures forall k :: 0 <= k < |genes| ==> m[genes[k]] == stack[|stack| - 1 - k]
  {
    if |genes| == 0 then map[]
    else
      var n := |stack| - 1;
      TailElements(genes);
      InitElements(stack);
      var rest := Reassign(genes[1..], stack[..n]);
      rest[genes[0] := stack[n]]
  }

  function Reverse<T>(xs: seq<T>): (r: seq<T>)
    ensures |r| == |xs|
    ensures forall k :: 0 <= k < |xs| ==> r[k] == xs[|xs| - 1 - k]
  {
    if |xs| == 0 then [] else [xs[|xs| - 1]] + Reverse(xs[..|xs| - 1])
  }

  lemma {:induction false} ReverseMultiset<T>(xs: seq<T>)
    ensures multiset(Reverse(xs)) == multiset(xs)
    decreases |xs|
  {
    if |xs| > 0 {
      ReverseMultiset(xs[..|xs| - 1]);
      assert xs == xs[..|xs| - 1] + [xs[|xs| - 1]];
    }
  }

  /** One sample after `scramble_sample`, where `shuffled` is the order
      `random.shuffle` produced: the same genes in the same key order, and
      the same intensities, only handed out differently. */
  function ScrambleSample(s: Sample, shuffled: seq<real>): (r: Sample)
    requires WellFormed(s)
    requires multiset(shuffled) == multiset(Intensities(s))
    ensures WellFormed(r)
    ensures r.num == s.num && r.genes == s.genes
    ensures r.intensity.Keys == s.intensity.Keys
    ensures multiset(Intensities(r)) == multiset(Intensities(s))
  {
    assert |shuffled| == |multiset(shuffled)| == |multiset(Intensities(s))| == |s.genes|;
    var r := Sample(s.num, s.genes, Reassign(s.genes, shuffled));
    assert Intensities(r) == Reverse(shuffled);
    ReverseMultiset(shuffled);
    r
  }

  /** `random.shuffle` produced a reordering of each sample's intensities. */
  ghost predicate ShufflesFit(samples: seq<Sample>, shuffles: seq<seq<real>>) {
    && |shuffles| == |samples|
    && forall i :: 0 <= i < |samples| ==>
         WellFormed(samples[i]) && multiset(shuffles[i]) == multiset(Intensities(samples[i]))
  }

  /** `scramble_sample(samples)` over the whole sample dict. */
  function ScrambleAll(samples: seq<Sample>, shuffles: seq<seq<real>>): (r: seq<Sample>)
    requires ShufflesFit(samples, shuffles)
    ensures |r| == |samples|
    ensures forall i :: 0 <= i < |r| ==>
              && WellFormed(r[i])
              && r[i].num == samples[i].num && r[i].genes == samples[i].genes
              && multiset(Intensities(r[i])) == multiset(Intensities(samples[i]))
  {
    seq(|samples|, i requires 0 <= i < |samples| && ShufflesFit(samples, shuffles) => ScrambleSample(samples[i], shuffles[i]))
  }

  /** The `tag == 'null'` branch of the scoring dumps as written: the sample
      dict comes from the memoised `load_sample_profiles`, and
      `scramble_sample` rewrites it in place, so the cache entry itself
      becomes the scrambled profiles.  Returns the profiles that get scored
      and the session afterwards. */
  function NullRunAsWritten(s: Memo.Session<string, seq<Sample>>, dataset: string, shuffles: seq<seq<real>>): (r: (seq<Sample>, Memo.Session<string, seq<Sample>>))
    requires dataset in s.cache && ShufflesFit(s.cache[dataset], shuffles)
    ensures r.1.store == s.store
    ensures dataset in r.1.cache && r.1.cache[dataset] == r.0
  {
    var scrambled := ScrambleAll(s.cache[dataset], shuffles);
    (scrambled, Memo.Session(s.cache[dataset := scrambled], s.store))
  }

  /** The null branch as intended: score a scrambled copy and leave the
      memoised sample dict alone, so later loads in the same process still
      see the stored profiles. */
  function NullRun(s: Memo.Session<string, seq<Sample>>, dataset: string, shuffles: seq<seq<real>>): (r: (seq<Sample>, Memo.Session<string, seq<Sample>>))
    requires dataset in s.cache && ShufflesFit(s.cache[dataset], shuffles)
    ensures r.1 == s
    ensures |r.0| == |s.cache[dataset]|
    ensures forall i :: 0 <= i < |r.0| ==>
              r.0[i].genes == s.cache[dataset][i].genes &&
              WellFormed(r.0[i]) && WellFormed(s.cache[dataset][i]) &&
              multiset(Intensities(r.0[i])) == multiset(Intensities(s.cache[dataset][i]))
  {
    (ScrambleAll(s.cache[dataset], shuffles), s)
  }

  /** The intended null run keeps a coherent cache coherent. */
  lemma NullRunKeepsCoherence(s: Memo.Session<string, seq<Sample>>, dataset: string, shuffles: seq<seq<real>>)
    requires dataset in s.cache && ShufflesFit(s.cache[dataset], shuffles)
    requires Memo.Coherent(s)
    ensures Memo.Coherent(NullRun(s, dataset, shuffles).1)
  {
  }

  /** As written, one null run breaks the cache: with one sample holding
      genes a (1.0) and b (2.0) and the shuffle [1.0, 2.0], gene a is handed
      2.0, and the next `load_sample_profiles("BC")` in the same process
      returns these swapped profiles instead of the stored ones. */
  lemma NullRunAsWrittenBreaksCoherence()
    ensures var sample := Sample(1, ["a", "b"], map["a" := 1.0, "b" := 2.0]);
            var s := Memo.Session(map["BC" := [sample]], map["BC" := [sample]]);
            && Memo.Coherent(s)
            && ShufflesFit([sample], [[1.0, 2.0]])
            && !Memo.Coherent(NullRunAsWritten(s, "BC", [[1.0, 2.0]]).1)
  {
    var sample := Sample(1, ["a", "b"], map["a" := 1.0, "b" := 2.0]);
    var s := Memo.Session(map["BC" := [sample]], map["BC" := [sample]]);
    assert Intensities(sample) == [1.0, 2.0];
    assert multiset([1.0, 2.0]) == multiset(Intensities(sample));
    var after := NullRunAsWritten(s, "BC", [[1.0, 2.0]]).1;
    var scrambled := after.cache["BC"][0];
    assert scrambled == ScrambleSample(sample, [1.0, 2.0]);
    assert scrambled.intensity["a"] == 2.0;
    assert after.cache["BC"] != after.store["BC"];
  }
}
