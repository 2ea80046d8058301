/** `evaluate_rankings` and its inner `linear_method`: how well a trial's
    gene-set ranking places the master gene.  Sets are taken from the
    strongest t-statistic down; every gene scores the mean 1-based position
    of the sets holding it; genes are then sorted by that score and the
    master gene's 1-based place is reported. */
module Evaluation {
  import opened Outcome
  import opened Sorting
  import opened Data
  import Ranking
  import Reals

  // ---------------------------------------------------------------------
  // sorted(ranking, key=ranking.get, reverse=True)
  // ---------------------------------------------------------------------

  /** `(t, p)` strictly above `(u, q)` in Python's tuple order. */
  predicate TupleAbove(a: (real, real), b: (real, real)) {
    a.0 > b.0 || (a.0 == b.0 && a.1 > b.1)
  }

  /** Descending by `(|t|, p)` is ascending by `(-|t|, -p)`; the sort stays
      stable, so equal tuples keep their ranking order. */
  function DescendingKeys(ranking: Ranking.TrialRanking): (keys: seq<Key>)
    ensures |keys| == |ranking|
    ensures forall i, j :: 0 <= i < |ranking| && 0 <= j < |ranking| ==>
              (KeyLess(keys[i], keys[j]) <==> TupleAbove(ranking[i].1, ranking[j].1))
    ensures forall i, j :: 0 <= i < |ranking| && 0 <= j < |ranking| ==>
              (keys[i] == keys[j] <==> ranking[i].1 == ranking[j].1)
  {
    seq(|ranking|, k requires 0 <= k < |ranking| => (-ranking[k].1.0, -ranking[k].1.1))
  }

  /** Positions of the ranking's entries, strongest first. */
  function SetOrder(ranking: Ranking.TrialRanking): (order: seq<nat>)
    ensures |order| == |ranking| && Distinct(order)
    ensures forall a :: 0 <= a < |order| ==> order[a] < |ranking|
    ensures forall k :: 0 <= k < |ranking| ==> k in order
    ensures forall a, b :: 0 <= a < b < |order| ==>
              TupleAbove(ranking[order[a]].1, ranking[order[b]].1) ||
              (ranking[order[a]].1 == ranking[order[b]].1 && order[a] < order[b])
  {
    var keys := DescendingKeys(ranking);
    var order := SortedIndices(keys);
    forall a, b | 0 <= a < b < |order|
      ensures TupleAbove(ranking[order[a]].1, ranking[order[b]].1) ||
              (ranking[order[a]].1 == ranking[order[b]].1 && order[a] < order[b])
    {
      assert Before(keys, order[a], order[b]);
    }
    order
  }

  /** `sorted_sets`: the set names, strongest first; the same names as the
      ranking's. */
  function SortedSets(ranking: Ranking.TrialRanking): (names: seq<string>)
    ensures |names| == |ranking|
    ensures forall x :: x in names <==> x in Firsts(ranking)
  {
    var order := SetOrder(ranking);
    PermuteKeeps(Firsts(ranking), order);
    Permute(Firsts(ranking), order)
  }

  // ---------------------------------------------------------------------
  // Positions of the genes
  // ---------------------------------------------------------------------

  /** Every gene of one set, paired with the set's 1-based position. */
  function Tagged(genes: seq<string>, pos: nat): (r: seq<(string, nat)>)
    ensures |r| == |genes|
    ensures forall j :: 0 <= j < |genes| ==> r[j] == (genes[j], pos)
  {
    seq(|genes|, j requires 0 <= j < |genes| => (genes[j], pos))
  }

  /** The `(gene, i)` pairs the running-score loop visits, in visiting
      order; `gene_sets[set]` raises `KeyError` for a set it does not
      know. */
  function Occurrences(sorted: seq<string>, geneSets: map<string, GeneSet>): (r: Result<seq<(string, nat)>>)
    ensures r.Ok? <==> forall k :: 0 <= k < |sorted| ==> sorted[k] in geneSets
    ensures r.Err? ==> r.error == KeyError
    ensures r.Ok? ==> forall j :: 0 <= j < |r.value| ==>
              && 1 <= r.value[j].1 <= |sorted|
              && sorted[r.value[j].1 - 1] in geneSets
              && r.value[j].0 in geneSets[sorted[r.value[j].1 - 1]].genes
    decreases |sorted|
  {
    if |sorted| == 0 then Ok([])
    else
      var n := |sorted| - 1;
      var earlier :- Occurrences(sorted[..n], geneSets);
      if sorted[n] !in geneSets then Err(KeyError)
      else
        var last := Tagged(geneSets[sorted[n]].genes, n + 1);
        assert forall k :: 0 <= k < n ==> sorted[..n][k] == sorted[k];
        Ok(earlier + last)
  }

  /** Every listing of a gene by a ranked set is visited. */
  lemma {:induction false} VisitsEveryListing(sorted: seq<string>, geneSets: map<string, GeneSet>, k: nat, g: string)
    requires Occurrences(sorted, geneSets).Ok?
    requires k < |sorted| && g in geneSets[sorted[k]].genes
    ensures (g, k + 1) in Occurrences(sorted, geneSets).value
    decreases |sorted|
  {
    var n := |sorted| - 1;
    var earlier := Occurrences(sorted[..n], geneSets).value;
    var last := Tagged(geneSets[sorted[n]].genes, n + 1);
    if k == n {
      var j :| 0 <= j < |geneSets[sorted[n]].genes| && geneSets[sorted[n]].genes[j] == g;
      assert (earlier + last)[|earlier| + j] == (g, k + 1);
    } else {
      assert sorted[..n][k] == sorted[k];
      VisitsEveryListing(sorted[..n], geneSets, k, g);
      assert (g, k + 1) in earlier + last;
    }
  }

  /** The positions at which `g` is visited. */
  function Positions(occ: seq<(string, nat)>, g: string): seq<nat> {
    if |occ| == 0 then []
    else
      var n := |occ| - 1;
      Positions(occ[..n], g) + (if occ[n].0 == g then [occ[n].1] else [])
  }

  function SumOf(xs: seq<nat>): nat {
    if |xs| == 0 then 0 else SumOf(xs[..|xs| - 1]) + xs[|xs| - 1]
  }

  function Count(genes: seq<string>, g: string): nat {
    if |genes| == 0 then 0
    else Count(genes[..|genes| - 1], g) + (if genes[|genes| - 1] == g then 1 else 0)
  }

  /** The reference: for every set in ranked order, its position once per
      listing of `g` in the set. */
  function SetPositions(sorted: seq<string>, geneSets: map<string, GeneSet>, g: string): seq<nat>
    requires forall k :: 0 <= k < |sorted| ==> sorted[k] in geneSets
  {
    if |sorted| == 0 then []
    else
      var n := |sorted| - 1;
      SetPositions(sorted[..n], geneSets, g) + seq(Count(geneSets[sorted[n]].genes, g), _ => n + 1)
  }

  lemma {:induction false} PositionsAppend(a: seq<(string, nat)>, b: seq<(string, nat)>, g: string)
    ensures Positions(a + b, g) == Positions(a, g) + Positions(b, g)
    decreases |b|
  {
    if |b| == 0 {
      assert a + b == a;
    } else {
      var n := |b| - 1;
      assert (a + b)[..|a + b| - 1] == a + b[..n];
      assert (a + b)[|a + b| - 1] == b[n];
      PositionsAppend(a, b[..n], g);
    }
  }

  lemma {:induction false} PositionsTagged(genes: seq<string>, pos: nat, g: string)
    ensures Positions(Tagged(genes, pos), g) == seq(Count(genes, g), _ => pos)
    decreases |genes|
  {
    if |genes| > 0 {
      var n := |genes| - 1;
      assert Tagged(genes, pos)[..n] == Tagged(genes[..n], pos);
      PositionsTagged(genes[..n], pos, g);
    }
  }

  /** The loop visits `g` at exactly the reference positions. */
  lemma {:induction false} OccurrencePositions(sorted: seq<string>, geneSets: map<string, GeneSet>, g: string)
    requires forall k :: 0 <= k < |sorted| ==> sorted[k] in geneSets
    ensures Occurrences(sorted, geneSets).Ok?
    ensures Positions(Occurrences(sorted, geneSets).value, g) == SetPositions(sorted, geneSets, g)
    decreases |sorted|
  {
    if |sorted| > 0 {
      var n := |sorted| - 1;
      OccurrencePositions(sorted[..n], geneSets, g);
      var earlier := Occurrences(sorted[..n], geneSets).value;
      var last := Tagged(geneSets[sorted[n]].genes, n + 1);
      PositionsAppend(earlier, last, g);
      PositionsTagged(geneSets[sorted[n]].genes, n + 1, g);
    }
  }

  // ---------------------------------------------------------------------
  // running_scores and set_count
  // ---------------------------------------------------------------------

  /** The two dicts of the running-score loop: the genes in first-visit
      order, the sum of their positions, and how often each was visited. */
  datatype Tally = Tally(order: seq<string>, sums: map<string, nat>, counts: map<string, nat>)

  /** The genes the visits reach. */
  function Visited(occ: seq<(string, nat)>): set<string> {
    if |occ| == 0 then {} else Visited(occ[..|occ| - 1]) + {occ[|occ| - 1].0}
  }

  lemma {:induction false} VisitedMeans(occ: seq<(string, nat)>, g: string)
    ensures g in Visited(occ) <==> exists j :: 0 <= j < |occ| && occ[j].0 == g
  {
    if |occ| > 0 {
      var n := |occ| - 1;
      VisitedMeans(occ[..n], g);
      assert forall j :: 0 <= j < n ==> occ[..n][j] == occ[j];
    }
  }

  /** The tally after the visits `occ`: both dicts hold exactly the
      visited genes, listed once each in first-visit order, ... */
  ghost predicate TallyKeys(occ: seq<(string, nat)>, t: Tally) {
    && Distinct(t.order)
    && (forall g :: g in t.order <==> g in Visited(occ))
    && t.sums.Keys == Visited(occ)
    && t.counts.Keys == Visited(occ)
  }

  /** ... and each gene's sum and count are those of its positions. */
  ghost predicate TallyValues(occ: seq<(string, nat)>, t: Tally) {
    forall g :: g in t.sums && g in t.counts ==>
      t.sums[g] == SumOf(Positions(occ, g)) && t.counts[g] == |Positions(occ, g)|
  }

  ghost predicate Tallies(occ: seq<(string, nat)>, t: Tally) {
    TallyKeys(occ, t) && TallyValues(occ, t)
  }

  /** One visit of the running-score loop: a gene seen for the first time
      starts at 0 in both dicts; every visit adds the position and one. */
  function Visit(t: Tally, g: string, pos: nat): Tally {
    if g in t.sums && g in t.counts then Tally(t.order, t.sums[g := t.sums[g] + pos], t.counts[g := t.counts[g] + 1])
    else Tally(t.order + [g], t.sums[g := pos], t.counts[g := 1])
  }

  /** The running-score loop over all visits. */
  function Accumulate(occ: seq<(string, nat)>): (t: Tally)
    ensures Tallies(occ, t)
  {
    if |occ| == 0 then Tally([], map[], map[])
    else
      var t := Accumulate(occ[..|occ| - 1]);
      KeysStep(occ, t);
      ValuesStep(occ, t);
      Visit(t, occ[|occ| - 1].0, occ[|occ| - 1].1)
  }

  lemma PositionsLast(occ: seq<(string, nat)>)
    requires |occ| > 0
    ensures var n := |occ| - 1;
            && Positions(occ, occ[n].0) == Positions(occ[..n], occ[n].0) + [occ[n].1]
            && SumOf(Positions(occ, occ[n].0)) == SumOf(Positions(occ[..n], occ[n].0)) + occ[n].1
            && forall h :: h != occ[n].0 ==> Positions(occ, h) == Positions(occ[..n], h)
  {
    var n := |occ| - 1;
    var p := Positions(occ, occ[n].0);
    assert p[..|p| - 1] == Positions(occ[..n], occ[n].0);
  }

  lemma {:induction false} PositionsNone(occ: seq<(string, nat)>, g: string)
    requires g !in Visited(occ)
    ensures Positions(occ, g) == []
  {
    if |occ| > 0 {
      PositionsNone(occ[..|occ| - 1], g);
    }
  }

  lemma KeysStep(occ: seq<(string, nat)>, t: Tally)
    requires |occ| > 0 && TallyKeys(occ[..|occ| - 1], t)
    ensures TallyKeys(occ, Visit(t, occ[|occ| - 1].0, occ[|occ| - 1].1))
  {
  }

  lemma ValuesStep(occ: seq<(string, nat)>, t: Tally)
    requires |occ| > 0 && TallyKeys(occ[..|occ| - 1], t) && TallyValues(occ[..|occ| - 1], t)
    ensures TallyValues(occ, Visit(t, occ[|occ| - 1].0, occ[|occ| - 1].1))
  {
    var n := |occ| - 1;
    var g := occ[n].0;
    var t' := Visit(t, g, occ[n].1);
    forall h | h in t'.sums && h in t'.counts
      ensures t'.sums[h] == SumOf(Positions(occ, h)) && t'.counts[h] == |Positions(occ, h)|
    {
      if h != g {
        ValuesOther(occ, t, h);
      } else if g in t.sums {
        ValuesRevisit(occ, t);
      } else {
        ValuesFirstVisit(occ, t);
      }
    }
  }

  lemma ValuesOther(occ: seq<(string, nat)>, t: Tally, h: string)
    requires |occ| > 0 && TallyKeys(occ[..|occ| - 1], t) && TallyValues(occ[..|occ| - 1], t)
    requires h != occ[|occ| - 1].0
    ensures var t' := Visit(t, occ[|occ| - 1].0, occ[|occ| - 1].1);
            h in t'.sums && h in t'.counts ==>
              t'.sums[h] == SumOf(Positions(occ, h)) && t'.counts[h] == |Positions(occ, h)|
  {
    PositionsLast(occ);
  }

  lemma ValuesRevisit(occ: seq<(string, nat)>, t: Tally)
    requires |occ| > 0 && TallyKeys(occ[..|occ| - 1], t) && TallyValues(occ[..|occ| - 1], t)
    requires occ[|occ| - 1].0 in t.sums
    ensures var g := occ[|occ| - 1].0;
            var t' := Visit(t, g, occ[|occ| - 1].1);
            t'.sums[g] == SumOf(Positions(occ, g)) && t'.counts[g] == |Positions(occ, g)|
  {
    PositionsLast(occ);
  }

  lemma ValuesFirstVisit(occ: seq<(string, nat)>, t: Tally)
    requires |occ| > 0 && TallyKeys(occ[..|occ| - 1], t) && occ[|occ| - 1].0 !in t.sums
    ensures var g := occ[|occ| - 1].0;
            var t' := Visit(t, g, occ[|occ| - 1].1);
            t'.sums[g] == SumOf(Positions(occ, g)) && t'.counts[g] == |Positions(occ, g)|
  {
    var n := |occ| - 1;
    PositionsLast(occ);
    PositionsNone(occ[..n], occ[n].0);
    assert [occ[n].1][..0] == [];
  }

  /** A visited gene was visited at least once. */
  lemma {:induction false} VisitedPositions(occ: seq<(string, nat)>, g: string)
    requires g in Visited(occ)
    ensures |Positions(occ, g)| > 0
  {
    var n := |occ| - 1;
    if occ[n].0 != g {
      VisitedPositions(occ[..n], g);
    }
  }

  /** Every position lies between 1 and `n`, so their sum lies between the
      count and `n` times the count. */
  lemma {:induction false} SumBounds(xs: seq<nat>, n: nat)
    requires forall j :: 0 <= j < |xs| ==> 1 <= xs[j] <= n
    ensures |xs| <= SumOf(xs) <= n * |xs|
  {
    if |xs| > 0 {
      var m := |xs| - 1;
      assert forall j :: 0 <= j < m ==> xs[..m][j] == xs[j];
      SumBounds(xs[..m], n);
      assert SumOf(xs) == SumOf(xs[..m]) + xs[m];
      assert n * |xs| == n * m + n;
    }
  }

  /** A mean of values between 1 and `n` lies between 1 and `n`. */
  lemma MeanBounds(sum: nat, count: nat, n: nat)
    requires 0 < count <= sum <= n * count
    ensures 1.0 <= (sum as real) / (count as real) <= n as real
  {
    var c, s, m := count as real, sum as real, n as real;
    Reals.CastProduct(n, count);
    assert c <= s <= m * c;
    Reals.QuotientAtMost(c, s, c);
    Reals.QuotientAtMost(s, m * c, c);
    Reals.ProductQuotient(m, c);
    Reals.ProductQuotient(1.0, c);
  }

  /** `final_scores`: each gene's mean position. */
  function FinalScores(t: Tally): (scores: map<string, real>)
    requires forall g :: g in t.sums ==> g in t.counts && t.counts[g] > 0
    ensures scores.Keys == t.sums.Keys
  {
    map g | g in t.sums :: (t.sums[g] as real) / (t.counts[g] as real)
  }

  /** The mean of a non-empty sequence of positions. */
  function Mean(xs: seq<nat>): real
    requires |xs| > 0
  {
    (SumOf(xs) as real) / (|xs| as real)
  }

  /** Some set of the ranking lists the gene. */
  ghost predicate Listed(ranking: Ranking.TrialRanking, geneSets: map<string, GeneSet>, g: string) {
    exists k :: 0 <= k < |ranking| && ranking[k].0 in geneSets && g in geneSets[ranking[k].0].genes
  }

  /** Every set the ranking names is a known gene set. */
  predicate Known(ranking: Ranking.TrialRanking, geneSets: map<string, GeneSet>) {
    forall k :: 0 <= k < |ranking| ==> ranking[k].0 in geneSets
  }

  /** `linear_method(ranking)`: the scored genes in first-visit order and
      their scores.  Exactly the genes of the ranked sets are scored, each
      with the mean of the positions of the sets listing it, a value
      between 1 and the number of ranked sets. */
  function LinearMethod(ranking: Ranking.TrialRanking, geneSets: map<string, GeneSet>): (r: Result<(seq<string>, map<string, real>)>)
    ensures r.Ok? <==> Known(ranking, geneSets)
    ensures r.Err? ==> r.error == KeyError
    ensures r.Ok? ==> Distinct(r.value.0) && forall g :: g in r.value.0 <==> g in r.value.1
    ensures r.Ok? ==> forall g :: g in r.value.1 <==> Listed(ranking, geneSets, g)
    ensures r.Ok? ==> forall g :: g in r.value.1 ==> 1.0 <= r.value.1[g] <= |ranking| as real
    ensures r.Ok? ==> forall g :: g in r.value.1 ==>
              var positions := SetPositions(SortedSets(ranking), geneSets, g);
              |positions| > 0 && r.value.1[g] == Mean(positions)
  {
    var sorted := SortedSets(ranking);
    KnownIffSortedKnown(ranking, geneSets);
    var found := Occurrences(sorted, geneSets);
    if found.Err? then Err(KeyError)
    else
      var occ := found.value;
      var t := Accumulate(occ);
      CountsPositive(occ, t);
      ScoredIffListed(ranking, geneSets, occ, t);
      ScoresAreMeans(ranking, geneSets, occ, t);
      Ok((t.order, FinalScores(t)))
  }

  lemma KnownIffSortedKnown(ranking: Ranking.TrialRanking, geneSets: map<string, GeneSet>)
    ensures Known(ranking, geneSets) <==> forall a :: 0 <= a < |SortedSets(ranking)| ==> SortedSets(ranking)[a] in geneSets
  {
    var sorted := SortedSets(ranking);
    if forall a :: 0 <= a < |sorted| ==> sorted[a] in geneSets {
      forall k | 0 <= k < |ranking|
        ensures ranking[k].0 in geneSets
      {
        var a := ListedIsSorted(ranking, k);
      }
    }
    if Known(ranking, geneSets) {
      forall a | 0 <= a < |sorted|
        ensures sorted[a] in geneSets
      {
        var k := SortedIsListed(ranking, a);
      }
    }
  }

  /** Where the ranking's `k`-th set sits in `sorted_sets`. */
  lemma ListedIsSorted(ranking: Ranking.TrialRanking, k: nat) returns (a: nat)
    requires k < |ranking|
    ensures a < |SortedSets(ranking)| && SortedSets(ranking)[a] == ranking[k].0
  {
    var sorted := SortedSets(ranking);
    assert Firsts(ranking)[k] in sorted;
    a :| 0 <= a < |sorted| && sorted[a] == ranking[k].0;
  }

  /** Where the `a`-th set of `sorted_sets` sits in the ranking. */
  lemma SortedIsListed(ranking: Ranking.TrialRanking, a: nat) returns (k: nat)
    requires a < |SortedSets(ranking)|
    ensures k < |ranking| && ranking[k].0 == SortedSets(ranking)[a]
  {
    var ranked := Firsts(ranking);
    assert SortedSets(ranking)[a] in ranked;
    k :| 0 <= k < |ranked| && ranked[k] == SortedSets(ranking)[a];
  }

  lemma CountsPositive(occ: seq<(string, nat)>, t: Tally)
    requires Tallies(occ, t)
    ensures forall g :: g in t.sums ==> g in t.counts && t.counts[g] > 0
  {
    forall g | g in t.sums
      ensures g in t.counts && t.counts[g] > 0
    {
      VisitedPositions(occ, g);
    }
  }

  /** The visited genes are the genes listed by some ranked set. */
  lemma ScoredIffListed(ranking: Ranking.TrialRanking, geneSets: map<string, GeneSet>, occ: seq<(string, nat)>, t: Tally)
    requires Occurrences(SortedSets(ranking), geneSets) == Ok(occ)
    requires Tallies(occ, t)
    ensures forall g :: g in t.sums <==> Listed(ranking, geneSets, g)
  {
    forall g
      ensures g in t.sums <==> Listed(ranking, geneSets, g)
    {
      VisitedMeans(occ, g);
      if g in t.sums {
        var j :| 0 <= j < |occ| && occ[j].0 == g;
        VisitIsListed(ranking, geneSets, occ, j);
      }
      if Listed(ranking, geneSets, g) {
        ListedIsVisited(ranking, geneSets, occ, g);
      }
    }
  }

  lemma VisitIsListed(ranking: Ranking.TrialRanking, geneSets: map<string, GeneSet>, occ: seq<(string, nat)>, j: nat)
    requires Occurrences(SortedSets(ranking), geneSets) == Ok(occ)
    requires j < |occ|
    ensures Listed(ranking, geneSets, occ[j].0)
  {
    OccurrenceAt(SortedSets(ranking), geneSets, occ, j);
    ListedBy(ranking, geneSets, occ[j].1 - 1, occ[j].0);
  }

  /** A visit names a set in the list and a gene that set lists. */
  lemma OccurrenceAt(sorted: seq<string>, geneSets: map<string, GeneSet>, occ: seq<(string, nat)>, j: nat)
    requires Occurrences(sorted, geneSets) == Ok(occ) && j < |occ|
    ensures 1 <= occ[j].1 <= |sorted|
    ensures sorted[occ[j].1 - 1] in geneSets
    ensures occ[j].0 in geneSets[sorted[occ[j].1 - 1]].genes
  {
  }

  /** A gene in a ranked set's gene list is listed. */
  lemma ListedBy(ranking: Ranking.TrialRanking, geneSets: map<string, GeneSet>, a: nat, g: string)
    requires a < |SortedSets(ranking)|
    requires SortedSets(ranking)[a] in geneSets && g in geneSets[SortedSets(ranking)[a]].genes
    ensures Listed(ranking, geneSets, g)
  {
    var name := SortedSets(ranking)[a];
    assert name in SortedSets(ranking);
    assert name in Firsts(ranking);
    var k :| 0 <= k < |ranking| && Firsts(ranking)[k] == name;
    assert ranking[k].0 == name;
  }

  lemma ListedIsVisited(ranking: Ranking.TrialRanking, geneSets: map<string, GeneSet>, occ: seq<(string, nat)>, g: string)
    requires Occurrences(SortedSets(ranking), geneSets) == Ok(occ)
    requires Listed(ranking, geneSets, g)
    ensures exists j :: 0 <= j < |occ| && occ[j].0 == g
  {
    var sorted := SortedSets(ranking);
    var k :| 0 <= k < |ranking| && ranking[k].0 in geneSets && g in geneSets[ranking[k].0].genes;
    assert Firsts(ranking)[k] in sorted;
    var a :| 0 <= a < |sorted| && sorted[a] == ranking[k].0;
    VisitsEveryListing(sorted, geneSets, a, g);
    var j :| 0 <= j < |occ| && occ[j] == (g, a + 1);
  }

  lemma ScoresAreMeans(ranking: Ranking.TrialRanking, geneSets: map<string, GeneSet>, occ: seq<(string, nat)>, t: Tally)
    requires Occurrences(SortedSets(ranking), geneSets) == Ok(occ)
    requires Tallies(occ, t)
    requires forall g :: g in t.sums ==> g in t.counts && t.counts[g] > 0
    ensures forall g :: g in t.sums ==> 1.0 <= FinalScores(t)[g] <= |ranking| as real
    ensures forall g :: g in t.sums ==>
              var positions := SetPositions(SortedSets(ranking), geneSets, g);
              |positions| > 0 && FinalScores(t)[g] == Mean(positions)
  {
    forall g | g in t.sums
      ensures 1.0 <= FinalScores(t)[g] <= |ranking| as real
      ensures var positions := SetPositions(SortedSets(ranking), geneSets, g);
              |positions| > 0 && FinalScores(t)[g] == Mean(positions)
    {
      ScoreIsMean(ranking, geneSets, occ, t, g);
    }
  }

  /** One gene's part of `ScoresAreMeans`. */
  lemma ScoreIsMean(ranking: Ranking.TrialRanking, geneSets: map<string, GeneSet>, occ: seq<(string, nat)>, t: Tally, g: string)
    requires Occurrences(SortedSets(ranking), geneSets) == Ok(occ)
    requires Tallies(occ, t)
    requires forall g :: g in t.sums ==> g in t.counts && t.counts[g] > 0
    requires g in t.sums
    ensures 1.0 <= FinalScores(t)[g] <= |ranking| as real
    ensures var positions := SetPositions(SortedSets(ranking), geneSets, g);
            |positions| > 0 && FinalScores(t)[g] == Mean(positions)
  {
    ScoreInRange(ranking, geneSets, occ, t, g);
    OccurrencePositions(SortedSets(ranking), geneSets, g);
  }

  /** A gene's score lies between 1 and the number of ranked sets. */
  lemma ScoreInRange(ranking: Ranking.TrialRanking, geneSets: map<string, GeneSet>, occ: seq<(string, nat)>, t: Tally, g: string)
    requires Occurrences(SortedSets(ranking), geneSets) == Ok(occ)
    requires Tallies(occ, t)
    requires forall g :: g in t.sums ==> g in t.counts && t.counts[g] > 0
    requires g in t.sums
    ensures 1.0 <= FinalScores(t)[g] <= |ranking| as real
  {
    var n := |SortedSets(ranking)|;
    PositionsInRange(occ, g, n);
    SumBounds(Positions(occ, g), n);
    MeanBounds(t.sums[g], t.counts[g], n);
  }

  lemma {:induction false} PositionsInRange(occ: seq<(string, nat)>, g: string, n: nat)
    requires forall j :: 0 <= j < |occ| ==> 1 <= occ[j].1 <= n
    ensures forall j :: 0 <= j < |Positions(occ, g)| ==> 1 <= Positions(occ, g)[j] <= n
  {
    if |occ| > 0 {
      PositionsInRange(occ[..|occ| - 1], g, n);
    }
  }

  // ---------------------------------------------------------------------
  // sorted(scores, key=scores.get) and the master gene's place
  // ---------------------------------------------------------------------

  /** Positions of the scored genes in ascending score order, equal scores
      in first-visit order. */
  function GeneOrder(order: seq<string>, scores: map<string, real>): (idx: seq<nat>)
    requires forall g :: g in order ==> g in scores
    ensures |idx| == |order| && Distinct(idx)
    ensures forall a :: 0 <= a < |idx| ==> idx[a] < |order|
    ensures forall k :: 0 <= k < |order| ==> k in idx
    ensures forall a, b :: 0 <= a < b < |idx| ==>
              scores[order[idx[a]]] < scores[order[idx[b]]] ||
              (scores[order[idx[a]]] == scores[order[idx[b]]] && idx[a] < idx[b])
  {
    var keys := seq(|order|, k requires 0 <= k < |order| => (scores[order[k]], 0.0));
    var idx := SortedIndices(keys);
    forall a, b | 0 <= a < b < |idx|
      ensures scores[order[idx[a]]] < scores[order[idx[b]]] ||
              (scores[order[idx[a]]] == scores[order[idx[b]]] && idx[a] < idx[b])
    {
      var i, j := idx[a], idx[b];
      assert Before(keys, i, j);
      assert keys[i] == (scores[order[i]], 0.0) && keys[j] == (scores[order[j]], 0.0);
    }
    idx
  }

  /** `sorted_genes`: the scored genes by ascending score; the same genes,
      each once. */
  function RankGenes(order: seq<string>, scores: map<string, real>): (sorted: seq<string>)
    requires Distinct(order) && forall g :: g in order ==> g in scores
    ensures |sorted| == |order| && Distinct(sorted)
    ensures forall g :: g in sorted <==> g in order
    ensures forall a, b :: 0 <= a < b < |sorted| ==> scores[sorted[a]] <= scores[sorted[b]]
  {
    var idx := GeneOrder(order, scores);
    PermuteKeeps(order, idx);
    Permute(order, idx)
  }

  /** The closing loop: the 1-based place of every occurrence of the master
      gene in the sorted genes. */
  function MasterRanks(sorted: seq<string>, master: string): (r: seq<nat>)
    ensures forall e :: e in r ==> 1 <= e <= |sorted| && sorted[e - 1] == master
    ensures |r| > 0 <==> master in sorted
    ensures Distinct(sorted) ==> |r| <= 1
  {
    if |sorted| == 0 then []
    else
      var n := |sorted| - 1;
      var earlier := MasterRanks(sorted[..n], master);
      assert sorted == sorted[..n] + [sorted[n]];
      if sorted[n] == master then
        assert Distinct(sorted) ==> master !in sorted[..n];
        earlier + [n + 1]
      else earlier
  }

  /** The body of the loop over rankings for one trial: the master gene's
      place among the scored genes, once if it was scored and not at all
      otherwise. */
  function EvaluateTrial(ranking: Ranking.TrialRanking, geneSets: map<string, GeneSet>, master: string): (r: Result<seq<nat>>)
    ensures r.Ok? <==> Known(ranking, geneSets)
    ensures r.Err? ==> r.error == KeyError
    ensures r.Ok? ==> |r.value| == if Listed(ranking, geneSets, master) then 1 else 0
    ensures r.Ok? ==> forall e :: e in r.value ==> 1 <= e <= |LinearMethod(ranking, geneSets).value.0|
  {
    var scored :- LinearMethod(ranking, geneSets);
    var sorted := RankGenes(scored.0, scored.1);
    Ok(MasterRanks(sorted, master))
  }

  /** The trials in which some ranked set lists the master gene. */
  ghost function ScoredTrials(rankings: seq<Ranking.TrialRanking>, geneSets: map<string, GeneSet>, master: string): (n: nat)
    ensures n <= |rankings|
  {
    if |rankings| == 0 then 0
    else
      var k := |rankings| - 1;
      ScoredTrials(rankings[..k], geneSets, master) + (if Listed(rankings[k], geneSets, master) then 1 else 0)
  }

  /** Every ranked set of every trial has a gene set. */
  ghost predicate AllKnown(rankings: seq<Ranking.TrialRanking>, geneSets: map<string, GeneSet>) {
    forall t :: 0 <= t < |rankings| ==> Known(rankings[t], geneSets)
  }

  lemma AllKnownSplit(rankings: seq<Ranking.TrialRanking>, geneSets: map<string, GeneSet>)
    requires |rankings| > 0
    ensures var k := |rankings| - 1;
            AllKnown(rankings, geneSets) <==> AllKnown(rankings[..k], geneSets) && Known(rankings[k], geneSets)
  {
    var k := |rankings| - 1;
    assert forall t :: 0 <= t < k ==> rankings[..k][t] == rankings[t];
  }

  /** Each trial's own evaluation, in trial order. */
  ghost function TrialResults(rankings: seq<Ranking.TrialRanking>, geneSets: map<string, GeneSet>, master: string): (rs: seq<Result<seq<nat>>>)
    ensures |rs| == |rankings|
    ensures forall t :: 0 <= t < |rankings| ==> rs[t] == EvaluateTrial(rankings[t], geneSets, master)
  {
    seq(|rankings|, t requires 0 <= t < |rankings| => EvaluateTrial(rankings[t], geneSets, master))
  }

  /** What the loop over rankings promises of the places it collects: one
      place for each trial in which some ranked set lists the master gene,
      in trial order, each the place that trial's own evaluation gives. */
  ghost predicate Places(rankings: seq<Ranking.TrialRanking>, geneSets: map<string, GeneSet>, master: string, places: seq<nat>) {
    && |places| == ScoredTrials(rankings, geneSets, master)
    && exists trials :: Gathered(TrialResults(rankings, geneSets, master), places, trials)
  }

  /** Appending the last trial's places to those of the trials before it. */
  lemma AppendPlaces(rankings: seq<Ranking.TrialRanking>, geneSets: map<string, GeneSet>, master: string, earlier: seq<nat>, last: seq<nat>)
    requires |rankings| > 0
    requires Places(rankings[..|rankings| - 1], geneSets, master, earlier)
    requires EvaluateTrial(rankings[|rankings| - 1], geneSets, master) == Ok(last)
    ensures Places(rankings, geneSets, master, earlier + last)
  {
    var k := |rankings| - 1;
    var rs := TrialResults(rankings, geneSets, master);
    var trials :| Gathered(TrialResults(rankings[..k], geneSets, master), earlier, trials);
    ResultsPrefix(rankings, geneSets, master);
    var trials' := GatherNext(rs, earlier, trials, last);
  }

  lemma ResultsPrefix(rankings: seq<Ranking.TrialRanking>, geneSets: map<string, GeneSet>, master: string)
    requires |rankings| > 0
    ensures TrialResults(rankings[..|rankings| - 1], geneSets, master) == TrialResults(rankings, geneSets, master)[..|rankings| - 1]
  {
    var k := |rankings| - 1;
    assert forall t :: 0 <= t < k ==> rankings[..k][t] == rankings[t];
  }

  /** Trial `t` lists the master gene and `e` lies between 1 and the number
      of genes that trial scores. */
  ghost predicate WithinTrial(rankings: seq<Ranking.TrialRanking>, geneSets: map<string, GeneSet>, master: string, t: int, e: nat) {
    && 0 <= t < |rankings|
    && Known(rankings[t], geneSets)
    && Listed(rankings[t], geneSets, master)
    && 1 <= e <= |LinearMethod(rankings[t], geneSets).value.0|
  }

  /** Every collected place comes from a trial listing the master gene and
      lies between 1 and the number of genes that trial scores. */
  lemma PlacesInRange(rankings: seq<Ranking.TrialRanking>, geneSets: map<string, GeneSet>, master: string)
    ensures var r := EvaluateRankings(rankings, geneSets, master);
      r.Ok? ==> (exists trials: seq<int> :: |trials| == |r.value| &&
                   (forall j :: 0 <= j < |r.value| ==> WithinTrial(rankings, geneSets, master, trials[j], r.value[j])))
  {
    var r := EvaluateRankings(rankings, geneSets, master);
    if r.Err? { return; }
    var places := r.value;
    var rs := TrialResults(rankings, geneSets, master);
    var trials :| Gathered(rs, places, trials);
    forall j | 0 <= j < |places|
      ensures WithinTrial(rankings, geneSets, master, trials[j], places[j])
    {
      var t := trials[j];
      assert rs[t] == Ok([places[j]]);
      assert places[j] in EvaluateTrial(rankings[t], geneSets, master).value;
    }
  }

  /** `evaluate_rankings`: the master gene's places over all trials; a
      trial where no ranked set lists it contributes nothing. */
  function EvaluateRankings(rankings: seq<Ranking.TrialRanking>, geneSets: map<string, GeneSet>, master: string): (r: Result<seq<nat>>)
    ensures r.Ok? <==> AllKnown(rankings, geneSets)
    ensures r.Err? ==> r.error == KeyError
    ensures r.Ok? ==> Places(rankings, geneSets, master, r.value)
  {
    if |rankings| == 0 then
      assert Gathered(TrialResults(rankings, geneSets, master), [], []);
      Ok([])
    else
      var k := |rankings| - 1;
      AllKnownSplit(rankings, geneSets);
      var earlier := EvaluateRankings(rankings[..k], geneSets, master);
      if earlier.Err? then Err(KeyError)
      else
        var last := EvaluateTrial(rankings[k], geneSets, master);
        if last.Err? then Err(KeyError)
        else
          AppendPlaces(rankings, geneSets, master, earlier.value, last.value);
          Ok(earlier.value + last.value)
  }

  /** `evaluate_rankings_keyed`: the places under the single key
      `master_gene`. */
  function EvaluateRankingsKeyed(rankings: seq<Ranking.TrialRanking>, geneSets: map<string, GeneSet>, master: string): (r: Result<map<string, seq<nat>>>)
    ensures r.Ok? <==> EvaluateRankings(rankings, geneSets, master).Ok?
    ensures r.Ok? ==> r.value.Keys == {master} && r.value[master] == EvaluateRankings(rankings, geneSets, master).value
  {
    var places :- EvaluateRankings(rankings, geneSets, master);
    Ok(map[master := places])
  }

  /** The genes scoring strictly below, and at most, a given score. */
  function Below(scores: map<string, real>, x: real): set<string> {
    set g | g in scores && scores[g] < x
  }

  function AtMost(scores: map<string, real>, x: real): set<string> {
    set g | g in scores && scores[g] <= x
  }

  /** Before place `p` of an ascending, duplicate-free list stand at least
      the genes scoring below the gene at `p`. */
  lemma BelowBound(sorted: seq<string>, scores: map<string, real>, p: nat)
    requires Distinct(sorted) && (forall g :: g in sorted <==> g in scores)
    requires forall a, b :: 0 <= a < b < |sorted| ==> scores[sorted[a]] <= scores[sorted[b]]
    requires p < |sorted|
    ensures |Below(scores, scores[sorted[p]])| <= p
  {
    var x := scores[sorted[p]];
    var head := sorted[..p];
    var before := set g | g in head;
    forall g | g in Below(scores, x)
      ensures g in before
    {
      var q :| 0 <= q < |sorted| && sorted[q] == g;
      assert head[q] == g;
    }
    DistinctCardinality(head);
    SubsetCardinality(Below(scores, x), before);
  }

  /** Up to place `p` stand only genes scoring at most the gene at `p`. */
  lemma AtMostBound(sorted: seq<string>, scores: map<string, real>, p: nat)
    requires Distinct(sorted) && (forall g :: g in sorted ==> g in scores)
    requires forall a, b :: 0 <= a < b < |sorted| ==> scores[sorted[a]] <= scores[sorted[b]]
    requires p < |sorted|
    ensures p + 1 <= |AtMost(scores, scores[sorted[p]])|
  {
    var x := scores[sorted[p]];
    var head := sorted[..p + 1];
    var upto := set g | g in head;
    forall g | g in upto
      ensures g in AtMost(scores, x)
    {
      var q :| 0 <= q < |head| && head[q] == g;
      assert sorted[q] == g;
    }
    DistinctCardinality(head);
    SubsetCardinality(upto, AtMost(scores, x));
  }

  /** The place reported for a trial that scores the master gene: more
      than the number of genes averaging a smaller position, and at most
      the number averaging no larger one, so ties are the only slack. */
  lemma MasterPlace(ranking: Ranking.TrialRanking, geneSets: map<string, GeneSet>, master: string)
    requires Known(ranking, geneSets) && Listed(ranking, geneSets, master)
    ensures var scores := LinearMethod(ranking, geneSets).value.1;
            var places := EvaluateTrial(ranking, geneSets, master).value;
            && master in scores && |places| == 1
            && |Below(scores, scores[master])| < places[0] <= |AtMost(scores, scores[master])|
  {
    var scored := LinearMethod(ranking, geneSets).value;
    SortedPlace(scored.0, scored.1, master);
  }

  lemma SortedPlace(order: seq<string>, scores: map<string, real>, master: string)
    requires Distinct(order) && (forall g :: g in order <==> g in scores)
    requires master in scores
    ensures var places := MasterRanks(RankGenes(order, scores), master);
            && |places| == 1
            && |Below(scores, scores[master])| < places[0] <= |AtMost(scores, scores[master])|
  {
    var sorted := RankGenes(order, scores);
    var places := MasterRanks(sorted, master);
    assert places[0] in places;
    var p := places[0] - 1;
    assert sorted[p] == master;
    BelowBound(sorted, scores, p);
    AtMostBound(sorted, scores, p);
  }

  /** A worked trial: set S1 (|t| = 3) lists A and B, set S2 (|t| = 1)
      lists B and C. */
  const ScenarioRanking: Ranking.TrialRanking := [("S1", (3.0, 0.01)), ("S2", (1.0, 0.2))]
  const ScenarioSets: map<string, GeneSet> :=
    map["S1" := GeneSet("S1", "u1", ["A", "B"]), "S2" := GeneSet("S2", "u2", ["B", "C"])]

  /** Two sets whose first is strictly stronger keep their order. */
  lemma OrderOfTwo(ranking: Ranking.TrialRanking)
    requires |ranking| == 2 && TupleAbove(ranking[0].1, ranking[1].1)
    ensures SortedSets(ranking) == [ranking[0].0, ranking[1].0]
  {
    var order := SetOrder(ranking);
    assert 0 in order && 1 in order;
    assert order == [0, 1];
  }

  lemma ScenarioOrder()
    ensures SortedSets(ScenarioRanking) == ["S1", "S2"]
  {
    OrderOfTwo(ScenarioRanking);
  }

  lemma ScenarioPositions()
    ensures SetPositions(["S1", "S2"], ScenarioSets, "A") == [1]
    ensures SetPositions(["S1", "S2"], ScenarioSets, "B") == [1, 2]
    ensures SetPositions(["S1", "S2"], ScenarioSets, "C") == [2]
  {
    assert ["S1", "S2"][..1] == ["S1"];
    assert ["S1"][..0] == [];
    CountPair("A", "B", "A");
    CountPair("A", "B", "B");
    CountPair("A", "B", "C");
    CountPair("B", "C", "A");
    CountPair("B", "C", "B");
    CountPair("B", "C", "C");
  }

  lemma CountPair(x: string, y: string, g: string)
    ensures Count([x, y], g) == (if x == g then 1 else 0) + (if y == g then 1 else 0)
  {
    assert Count([x], g) == (if x == g then 1 else 0) by {
      assert [x][..0] == [];
    }
    assert [x, y][..1] == [x];
  }

  /** The scores are pinned down by which genes are listed and by their
      mean positions. */
  lemma ScoresFromMeans(ranking: Ranking.TrialRanking, geneSets: map<string, GeneSet>, expected: map<string, real>)
    requires Known(ranking, geneSets)
    requires forall g :: g in expected <==> Listed(ranking, geneSets, g)
    requires forall g :: g in expected ==>
               var positions := SetPositions(SortedSets(ranking), geneSets, g);
               |positions| > 0 && expected[g] == Mean(positions)
    ensures LinearMethod(ranking, geneSets) == Ok((LinearMethod(ranking, geneSets).value.0, expected))
  {
    var r := LinearMethod(ranking, geneSets);
    SameMeans(ranking, geneSets, r.value.1, expected);
  }

  /** Two score maps that both give every listed gene its mean position
      agree. */
  lemma SameMeans(ranking: Ranking.TrialRanking, geneSets: map<string, GeneSet>, scores: map<string, real>, expected: map<string, real>)
    requires Known(ranking, geneSets)
    requires forall g :: g in scores <==> Listed(ranking, geneSets, g)
    requires forall g :: g in expected <==> Listed(ranking, geneSets, g)
    requires forall g :: g in scores ==>
               var positions := SetPositions(SortedSets(ranking), geneSets, g);
               |positions| > 0 && scores[g] == Mean(positions)
    requires forall g :: g in expected ==>
               var positions := SetPositions(SortedSets(ranking), geneSets, g);
               |positions| > 0 && expected[g] == Mean(positions)
    ensures scores == expected
  {
    assert scores.Keys == expected.Keys;
  }

  lemma ScenarioListed(ranking: Ranking.TrialRanking, geneSets: map<string, GeneSet>, g: string)
    requires ranking == ScenarioRanking && geneSets == ScenarioSets
    ensures Listed(ranking, geneSets, g) <==> g in {"A", "B", "C"}
  {
    if g in {"A", "B", "C"} {
      assert g in geneSets[ranking[0].0].genes || g in geneSets[ranking[1].0].genes;
    }
  }

  /** The three mean positions: A 1, B 1.5 and C 2. */
  const ScenarioScoreMap: map<string, real> := map["A" := 1.0, "B" := 1.5, "C" := 2.0]

  lemma ScenarioMeans(g: string)
    requires g in ScenarioScoreMap
    ensures var positions := SetPositions(["S1", "S2"], ScenarioSets, g);
            |positions| > 0 && ScenarioScoreMap[g] == Mean(positions)
  {
    ScenarioPositions();
    if g == "B" {
      MeanOfOneTwo();
    } else if g == "A" {
      MeanOfOne(1);
    } else {
      MeanOfOne(2);
    }
  }

  lemma MeanOfOne(x: nat)
    ensures Mean([x]) == x as real
  {
    assert SumOf([x]) == x by {
      assert [x][..0] == [];
    }
  }

  lemma MeanOfOneTwo()
    ensures Mean([1, 2]) == 1.5
  {
    assert SumOf([1, 2]) == 3 by {
      assert [1, 2][..1] == [1];
      assert [1][..0] == [];
    }
  }

  /** S1 ranks first, so A averages position 1, B 1.5 and C 2. */
  lemma ScenarioScores(ranking: Ranking.TrialRanking, geneSets: map<string, GeneSet>)
    requires ranking == ScenarioRanking && geneSets == ScenarioSets
    ensures LinearMethod(ranking, geneSets) == Ok((LinearMethod(ranking, geneSets).value.0, ScenarioScoreMap))
  {
    assert Known(ranking, geneSets);
    ScenarioScored(ranking, geneSets);
    ScenarioAllMeans(ranking, geneSets);
    ScoresFromMeans(ranking, geneSets, ScenarioScoreMap);
  }

  /** The scenario's scored genes are A, B and C. */
  lemma ScenarioScored(ranking: Ranking.TrialRanking, geneSets: map<string, GeneSet>)
    requires ranking == ScenarioRanking && geneSets == ScenarioSets
    ensures forall g :: g in ScenarioScoreMap <==> Listed(ranking, geneSets, g)
  {
    forall g
      ensures g in ScenarioScoreMap <==> Listed(ranking, geneSets, g)
    {
      ScenarioListed(ranking, geneSets, g);
    }
  }

  /** Each scenario score is the mean of the gene's set positions. */
  lemma ScenarioAllMeans(ranking: Ranking.TrialRanking, geneSets: map<string, GeneSet>)
    requires ranking == ScenarioRanking && geneSets == ScenarioSets
    ensures forall g :: g in ScenarioScoreMap ==>
              var positions := SetPositions(SortedSets(ranking), geneSets, g);
              |positions| > 0 && ScenarioScoreMap[g] == Mean(positions)
  {
    ScenarioOrder();
    forall g | g in ScenarioScoreMap
      ensures var positions := SetPositions(SortedSets(ranking), geneSets, g);
              |positions| > 0 && ScenarioScoreMap[g] == Mean(positions)
    {
      ScenarioMeans(g);
    }
  }

  lemma ScenarioBounds()
    ensures |Below(ScenarioScoreMap, 2.0)| == 2 && |AtMost(ScenarioScoreMap, 2.0)| == 3
  {
    assert Below(ScenarioScoreMap, 2.0) == {"A", "B"};
    assert AtMost(ScenarioScoreMap, 2.0) == {"A", "B", "C"};
  }

  /** When no other gene ties the master's score, its place is fixed. */
  lemma PlaceWithoutTies(ranking: Ranking.TrialRanking, geneSets: map<string, GeneSet>, master: string, below: nat)
    requires Known(ranking, geneSets) && Listed(ranking, geneSets, master)
    requires var scores := LinearMethod(ranking, geneSets).value.1;
             master in scores &&
             |Below(scores, scores[master])| == below && |AtMost(scores, scores[master])| == below + 1
    ensures EvaluateTrial(ranking, geneSets, master).Ok?
    ensures EvaluateTrial(ranking, geneSets, master).value == [below + 1]
  {
    PlaceOfMaster(ranking, geneSets, master, below);
    Singleton(EvaluateTrial(ranking, geneSets, master).value, below + 1);
  }

  lemma Singleton(xs: seq<nat>, x: nat)
    requires |xs| == 1 && xs[0] == x
    ensures xs == [x]
  {
  }

  lemma PlaceOfMaster(ranking: Ranking.TrialRanking, geneSets: map<string, GeneSet>, master: string, below: nat)
    requires Known(ranking, geneSets) && Listed(ranking, geneSets, master)
    requires var scores := LinearMethod(ranking, geneSets).value.1;
             master in scores &&
             |Below(scores, scores[master])| == below && |AtMost(scores, scores[master])| == below + 1
    ensures var r := EvaluateTrial(ranking, geneSets, master);
            r.Ok? && |r.value| == 1 && r.value[0] == below + 1
  {
    MasterPlace(ranking, geneSets, master);
  }

  /** Master gene C scores highest, so it is placed third of the three
      scored genes. */
  lemma ScenarioTrial(ranking: Ranking.TrialRanking, geneSets: map<string, GeneSet>)
    requires ranking == ScenarioRanking && geneSets == ScenarioSets
    ensures EvaluateTrial(ranking, geneSets, "C").Ok?
    ensures EvaluateTrial(ranking, geneSets, "C").value == [3]
  {
    ScenarioScores(ranking, geneSets);
    ScenarioListed(ranking, geneSets, "C");
    ScenarioBounds();
    PlaceWithoutTies(ranking, geneSets, "C", 2);
  }

  /** Over the one trial, the master gene is reported in third place. */
  lemma ScenarioPlace(ranking: Ranking.TrialRanking, geneSets: map<string, GeneSet>)
    requires ranking == ScenarioRanking && geneSets == ScenarioSets
    ensures EvaluateRankings([ranking], geneSets, "C").Ok?
    ensures EvaluateRankings([ranking], geneSets, "C").value == [3]
  {
    ScenarioTrial(ranking, geneSets);
    OneTrial(ranking, geneSets, "C");
  }

  /** Over a single trial the places are that trial's. */
  lemma OneTrial(ranking: Ranking.TrialRanking, geneSets: map<string, GeneSet>, master: string)
    requires Known(ranking, geneSets)
    ensures EvaluateRankings([ranking], geneSets, master).Ok?
    ensures EvaluateRankings([ranking], geneSets, master).value == EvaluateTrial(ranking, geneSets, master).value
  {
    var rankings := [ranking];
    assert rankings[..0] == [];
    var earlier := EvaluateRankings(rankings[..0], geneSets, master);
    assert earlier == Ok([]);
    var last := EvaluateTrial(ranking, geneSets, master);
    assert EvaluateRankings(rankings, geneSets, master) == Ok(earlier.value + last.value);
    assert earlier.value + last.value == last.value;
  }
}
