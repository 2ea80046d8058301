/** `analyze_phenotype_score_dist`, `rank_by_t_test` and its keyed wrapper:
    split each gene set's per-sample enrichment scores by simulated
    phenotype class and rank the sets by a Welch t-test between the two
    classes.  The t-test itself is a parameter returning `(t, p)`. */
module Ranking {
  import opened Outcome

  /** A simulated phenotype: sample id to class label, in dict key order. */
  type Phenotype = seq<(int, int)>

  /** Enrichment scores: gene set name to (sample id to score), in dict key
      order. */
  type Enrichment = seq<(string, map<int, real>)>

  /** One trial's ranking: gene set name to `(abs(tstat), pvalue)`. */
  type TrialRanking = seq<(string, (real, real))>

  function Abs(x: real): (r: real)
    ensures r >= 0.0 && (r == x || r == -x)
  {
    if x < 0.0 then -x else x
  }

  /** `phenotype[id] == 0` picks class 0; every other label is class 1. */
  predicate IsClass0(cls: int) {
    cls == 0
  }

  predicate IsClass1(cls: int) {
    cls != 0
  }

  /** The scores of the phenotype's samples whose label satisfies `inClass`,
      in phenotype order: the reference the partition is checked against. */
  function ClassScores(phenotype: Phenotype, scores: map<int, real>, inClass: int -> bool): seq<real>
    requires forall k :: 0 <= k < |phenotype| ==> phenotype[k].0 in scores
  {
    if |phenotype| == 0 then []
    else
      var rest := ClassScores(phenotype[1..], scores, inClass);
      if inClass(phenotype[0].1) then [scores[phenotype[0].0]] + rest else rest
  }

  /** Every id of the phenotype has a score. */
  predicate Covers(phenotype: Phenotype, scores: map<int, real>) {
    forall k :: 0 <= k < |phenotype| ==> phenotype[k].0 in scores
  }

  /** The scores of all samples of the phenotype, in phenotype order. */
  function AllScores(phenotype: Phenotype, scores: map<int, real>): (xs: seq<real>)
    requires Covers(phenotype, scores)
    ensures |xs| == |phenotype|
    ensures forall k :: 0 <= k < |phenotype| ==> xs[k] == scores[phenotype[k].0]
  {
    seq(|phenotype|, k requires 0 <= k < |phenotype| => scores[phenotype[k].0])
  }

  /** Every id of the phenotype has a score iff the first one has and the
      others have. */
  lemma CoversFirst(phenotype: Phenotype, scores: map<int, real>)
    requires |phenotype| > 0
    ensures Covers(phenotype, scores) <==> phenotype[0].0 in scores && Covers(phenotype[1..], scores)
    ensures Covers(phenotype, scores) ==>
              AllScores(phenotype, scores) == [scores[phenotype[0].0]] + AllScores(phenotype[1..], scores)
  {
    assert forall k :: 1 <= k < |phenotype| ==> phenotype[k] == phenotype[1..][k - 1];
  }

  /** The loop of `analyze_phenotype_score_dist` over one set's scores:
      label 0 goes to class 0, every other label to class 1, and an id
      without a score raises `KeyError`. */
  function Partition(phenotype: Phenotype, scores: map<int, real>): (r: Result<(seq<real>, seq<real>)>)
    ensures r.Ok? <==> Covers(phenotype, scores)
    ensures r.Err? ==> r.error == KeyError
    ensures r.Ok? ==> |r.value.0| + |r.value.1| == |phenotype|
    ensures r.Ok? ==> multiset(r.value.0) + multiset(r.value.1) == multiset(AllScores(phenotype, scores))
  {
    if |phenotype| == 0 then Ok(([], []))
    else
      var id := phenotype[0].0;
      CoversFirst(phenotype, scores);
      if id !in scores then Err(KeyError)
      else
        var rest :- Partition(phenotype[1..], scores);
        if phenotype[0].1 == 0 then Ok(([scores[id]] + rest.0, rest.1))
        else Ok((rest.0, [scores[id]] + rest.1))
  }

  /** The two classes are exactly the scores of the samples labelled 0 and
      of all other samples, each in phenotype order. */
  lemma {:induction false} PartitionMatchesClasses(phenotype: Phenotype, scores: map<int, real>)
    requires Covers(phenotype, scores)
    ensures Partition(phenotype, scores) ==
            Ok((ClassScores(phenotype, scores, IsClass0), ClassScores(phenotype, scores, IsClass1)))
  {
    if |phenotype| > 0 {
      assert forall k :: 1 <= k < |phenotype| ==> phenotype[k] == phenotype[1..][k - 1];
      PartitionMatchesClasses(phenotype[1..], scores);
    }
  }

  /** `enrichment_scores[gene_set]`: the scores of the first set with that
      name, or `KeyError`. */
  function Lookup(enrichment: Enrichment, geneSet: string): (r: Result<map<int, real>>)
    ensures r.Ok? <==> exists s :: 0 <= s < |enrichment| && enrichment[s].0 == geneSet
    ensures r.Ok? ==> exists s :: 0 <= s < |enrichment| && enrichment[s] == (geneSet, r.value) &&
                                 forall e :: 0 <= e < s ==> enrichment[e].0 != geneSet
    ensures r.Err? ==> r.error == KeyError
  {
    if |enrichment| == 0 then Err(KeyError)
    else if enrichment[0].0 == geneSet then Ok(enrichment[0].1)
    else
      assert forall s :: 1 <= s < |enrichment| ==> enrichment[s] == enrichment[1..][s - 1];
      Lookup(enrichment[1..], geneSet)
  }

  /** `analyze_phenotype_score_dist(enrichment_scores, phenotype, gene_set)`:
      `KeyError` for an unknown set or a sample the set has no score for,
      otherwise the scores of class 0 and of class 1. */
  function ScoreDistribution(enrichment: Enrichment, phenotype: Phenotype, geneSet: string): (r: Result<(seq<real>, seq<real>)>)
    ensures r.Ok? <==> exists s :: 0 <= s < |enrichment| && enrichment[s].0 == geneSet &&
                                   Covers(phenotype, Lookup(enrichment, geneSet).value)
    ensures r.Ok? ==> r.value == (ClassScores(phenotype, Lookup(enrichment, geneSet).value, IsClass0),
                                  ClassScores(phenotype, Lookup(enrichment, geneSet).value, IsClass1))
    ensures r.Err? ==> r.error == KeyError
  {
    var scores :- Lookup(enrichment, geneSet);
    if Covers(phenotype, scores) then
      PartitionMatchesClasses(phenotype, scores);
      Partition(phenotype, scores)
    else Partition(phenotype, scores)
  }

  /** What one gene set's ranking entry holds: `abs(tstat)` and `pvalue` of
      the t-test between its class 0 and class 1 scores. */
  function TestEntry(phenotype: Phenotype, scores: map<int, real>, tTest: (seq<real>, seq<real>) -> (real, real)): (real, real)
    requires Covers(phenotype, scores)
  {
    var t := tTest(ClassScores(phenotype, scores, IsClass0), ClassScores(phenotype, scores, IsClass1));
    (Abs(t.0), t.1)
  }

  /** Every gene set has a score for every sample of the phenotype. */
  predicate CoversAll(enrichment: Enrichment, phenotype: Phenotype) {
    forall s :: 0 <= s < |enrichment| ==> Covers(phenotype, enrichment[s].1)
  }

  /** `ranking` is one trial's ranking: an entry per gene set, in key order,
      holding `abs(t)` (never negative) and `p` of the t-test between the
      set's two classes. */
  predicate Ranks(enrichment: Enrichment, phenotype: Phenotype, tTest: (seq<real>, seq<real>) -> (real, real), ranking: TrialRanking) {
    && |ranking| == |enrichment|
    && forall s :: 0 <= s < |enrichment| ==>
         && ranking[s].0 == enrichment[s].0
         && ranking[s].1.0 >= 0.0
         && Covers(phenotype, enrichment[s].1)
         && ranking[s].1 == TestEntry(phenotype, enrichment[s].1, tTest)
  }

  /** The gene-set loop of one trial, in the key order of the enrichment
      scores. */
  function RankTrial(enrichment: Enrichment, phenotype: Phenotype, tTest: (seq<real>, seq<real>) -> (real, real)): (r: Result<TrialRanking>)
    ensures r.Ok? <==> CoversAll(enrichment, phenotype)
    ensures r.Err? ==> r.error == KeyError
    ensures r.Ok? ==> Ranks(enrichment, phenotype, tTest, r.value)
  {
    if |enrichment| == 0 then Ok([])
    else
      CoversAllFirst(enrichment, phenotype);
      var classes :- Partition(phenotype, enrichment[0].1);
      PartitionMatchesClasses(phenotype, enrichment[0].1);
      var t := tTest(classes.0, classes.1);
      var rest :- RankTrial(enrichment[1..], phenotype, tTest);
      RanksFirst(enrichment, phenotype, tTest, rest);
      Ok([(enrichment[0].0, (Abs(t.0), t.1))] + rest)
  }

  /** All sets are covered iff the first one is and the others are. */
  lemma CoversAllFirst(enrichment: Enrichment, phenotype: Phenotype)
    requires |enrichment| > 0
    ensures CoversAll(enrichment, phenotype) <==> Covers(phenotype, enrichment[0].1) && CoversAll(enrichment[1..], phenotype)
  {
    assert forall s :: 1 <= s < |enrichment| ==> enrichment[s] == enrichment[1..][s - 1];
  }

  /** The first set's entry in front of a ranking of the others ranks them
      all. */
  lemma RanksFirst(enrichment: Enrichment, phenotype: Phenotype, tTest: (seq<real>, seq<real>) -> (real, real), rest: TrialRanking)
    requires |enrichment| > 0 && Covers(phenotype, enrichment[0].1)
    requires Ranks(enrichment[1..], phenotype, tTest, rest)
    ensures Ranks(enrichment, phenotype, tTest, [(enrichment[0].0, TestEntry(phenotype, enrichment[0].1, tTest))] + rest)
  {
    var r := [(enrichment[0].0, TestEntry(phenotype, enrichment[0].1, tTest))] + rest;
    assert forall s :: 1 <= s < |enrichment| ==> enrichment[s] == enrichment[1..][s - 1] && r[s] == rest[s - 1];
  }

  /** `rank_by_t_test`: one ranking per simulated phenotype, in trial
      order, each ranking every gene set of the enrichment scores. */
  function RankByTTest(enrichment: Enrichment, phenotypes: seq<Phenotype>, tTest: (seq<real>, seq<real>) -> (real, real)): (r: Result<seq<TrialRanking>>)
    ensures r.Ok? <==> forall t :: 0 <= t < |phenotypes| ==> CoversAll(enrichment, phenotypes[t])
    ensures r.Err? ==> r.error == KeyError
    ensures r.Ok? ==> |r.value| == |phenotypes|
    ensures r.Ok? ==> forall t :: 0 <= t < |phenotypes| ==> Ranks(enrichment, phenotypes[t], tTest, r.value[t])
  {
    if |phenotypes| == 0 then Ok([])
    else
      var n := |phenotypes| - 1;
      CoversAllSplit(enrichment, phenotypes);
      var earlier :- RankByTTest(enrichment, phenotypes[..n], tTest);
      var last :- RankTrial(enrichment, phenotypes[n], tTest);
      assert forall t :: 0 <= t < n ==> phenotypes[t] == phenotypes[..n][t];
      Ok(earlier + [last])
  }

  /** Every trial is covered iff the trials before the last one are and the
      last one is. */
  lemma CoversAllSplit(enrichment: Enrichment, phenotypes: seq<Phenotype>)
    requires |phenotypes| > 0
    ensures var n := |phenotypes| - 1;
            (forall t :: 0 <= t < |phenotypes| ==> CoversAll(enrichment, phenotypes[t])) <==>
            (forall t :: 0 <= t < n ==> CoversAll(enrichment, phenotypes[..n][t])) && CoversAll(enrichment, phenotypes[n])
  {
    var n := |phenotypes| - 1;
    assert forall t :: 0 <= t < n ==> phenotypes[..n][t] == phenotypes[t];
  }

  /** `rank_by_t_test_keyed`: the rankings under the single key
      `master_gene`. */
  function RankByTTestKeyed(enrichment: Enrichment, phenotypes: seq<Phenotype>, masterGene: string,
                            tTest: (seq<real>, seq<real>) -> (real, real)): (r: Result<map<string, seq<TrialRanking>>>)
    ensures r.Ok? <==> RankByTTest(enrichment, phenotypes, tTest).Ok?
    ensures r.Ok? ==> r.value.Keys == {masterGene} && r.value[masterGene] == RankByTTest(enrichment, phenotypes, tTest).value
  {
    var rankings :- RankByTTest(enrichment, phenotypes, tTest);
    Ok(map[masterGene := rankings])
  }
}
