/** `dump_best_models`: spread the selection across the prior range.  Genes
    with popularity > 0 and prior >= 0.1 are placed in one of `num_bins`
    equal-width prior bins between 0.1 and 0.5, and each bin keeps the
    `genes_per_bin` genes of smallest Bayes error.  The model of a gene is
    opaque (`M`); its prior and Bayes error come from outside functions. */
module BestModels {
  import opened Outcome
  import opened Sorting
  import Reals

  /** `bin_bounds`: 0.1, then 0.1 + x * (0.5 - 0.1) / num_bins for
      x = 1..num_bins; strictly increasing from 0.1 up to 0.5. */
  function BinBounds(numBins: nat): (b: seq<real>)
    ensures |b| == numBins + 1
    ensures b[0] == 0.1
    ensures numBins > 0 ==> b[numBins] == 0.5
    ensures forall i, j :: 0 <= i < j < |b| ==> b[i] < b[j]
  {
    var b := [0.1] + seq(numBins, k requires 0 <= k < numBins => Bound(numBins, k + 1));
    forall i, j | 0 <= i < j < |b|
      ensures b[i] < b[j]
    {
      BoundIncreasing(numBins, i, j);
    }
    if numBins > 0 then
      BoundIncreasing(numBins, 0, numBins);
      b
    else b
  }

  function Bound(numBins: nat, x: nat): real
    requires numBins > 0
  {
    0.1 + (x as real) * (0.5 - 0.1) / (numBins as real)
  }

  lemma BoundIncreasing(numBins: nat, i: nat, j: nat)
    requires numBins > 0 && i < j <= numBins
    ensures (if i == 0 then 0.1 else Bound(numBins, i)) < Bound(numBins, j)
    ensures j == numBins ==> Bound(numBins, j) == 0.5
  {
    var w := numBins as real;
    Reals.QuotientLess((i as real) * (0.5 - 0.1), (j as real) * (0.5 - 0.1), w);
    Reals.ProductQuotient(0.5 - 0.1, w);
    assert w * (0.5 - 0.1) == (0.5 - 0.1) * w;
  }

  /** The prior lies in interval `i` of the bounds. */
  predicate InBin(bounds: seq<real>, prior: real, i: nat)
    requires i + 1 < |bounds|
  {
    bounds[i] <= prior < bounds[i + 1]
  }

  /** `sum([i for i in range(0, n) if bounds[i] <= prior < bounds[i + 1]])`. */
  function MatchSum(bounds: seq<real>, prior: real, n: nat): nat
    requires n < |bounds|
  {
    if n == 0 then 0
    else MatchSum(bounds, prior, n - 1) + (if InBin(bounds, prior, n - 1) then n - 1 else 0)
  }

  ghost predicate Increasing(bounds: seq<real>) {
    forall i, j :: 0 <= i < j < |bounds| ==> bounds[i] < bounds[j]
  }

  /** Two different intervals never both hold the prior. */
  lemma OnlyOneBin(bounds: seq<real>, prior: real, i: nat, j: nat)
    requires Increasing(bounds) && i < j && j + 1 < |bounds|
    ensures !(InBin(bounds, prior, i) && InBin(bounds, prior, j))
  {
    if i + 1 < j {
      assert bounds[i + 1] < bounds[j];
    }
  }

  lemma {:induction false} MatchSumNone(bounds: seq<real>, prior: real, n: nat)
    requires n < |bounds|
    requires forall i :: 0 <= i < n ==> !InBin(bounds, prior, i)
    ensures MatchSum(bounds, prior, n) == 0
  {
    if n > 0 {
      MatchSumNone(bounds, prior, n - 1);
    }
  }

  /** With increasing bounds at most one interval matches, so the sum is its
      index. */
  lemma {:induction false} MatchSumIsIndex(bounds: seq<real>, prior: real, n: nat, j: nat)
    requires Increasing(bounds) && n < |bounds| && j < n
    requires InBin(bounds, prior, j)
    ensures MatchSum(bounds, prior, n) == j
  {
    if j == n - 1 {
      forall i | 0 <= i < n - 1
        ensures !InBin(bounds, prior, i)
      {
        OnlyOneBin(bounds, prior, i, j);
      }
      MatchSumNone(bounds, prior, n - 1);
    } else {
      MatchSumIsIndex(bounds, prior, n - 1, j);
      OnlyOneBin(bounds, prior, j, n - 1);
    }
  }

  /** A prior between the first and the last bound lies in some interval. */
  lemma {:induction false} SomeBin(bounds: seq<real>, prior: real, n: nat)
    requires n < |bounds| && bounds[0] <= prior < bounds[n]
    ensures exists j :: 0 <= j < n && InBin(bounds, prior, j)
  {
    if prior >= bounds[n - 1] {
      assert InBin(bounds, prior, n - 1);
    } else {
      SomeBin(bounds, prior, n - 1);
    }
  }

  /** Inside the bounds the sum is the index of the one matching interval. */
  lemma MatchSumInRange(bounds: seq<real>, prior: real, n: nat)
    requires Increasing(bounds) && n < |bounds| && bounds[0] <= prior < bounds[n]
    ensures MatchSum(bounds, prior, n) < n && InBin(bounds, prior, MatchSum(bounds, prior, n))
  {
    SomeBin(bounds, prior, n);
    var j :| 0 <= j < n && InBin(bounds, prior, j);
    MatchSumIsIndex(bounds, prior, n, j);
  }

  /** `find_bin`: `num_bins` for a prior of exactly 0.5; otherwise the
      interval of the bounds holding the prior, or 0 when none does. */
  function FindBin(numBins: nat, prior: real): (r: nat)
    ensures prior == 0.5 ==> r == numBins
    ensures prior != 0.5 ==> r < numBins || r == 0
    ensures prior != 0.5 && numBins > 0 && 0.1 <= prior < 0.5 ==>
              r < numBins && BinBounds(numBins)[r] <= prior < BinBounds(numBins)[r + 1]
    ensures prior != 0.5 && (numBins == 0 || prior < 0.1 || prior > 0.5) ==> r == 0
  {
    if prior == 0.5 then numBins
    else
      var bounds := BinBounds(numBins);
      if numBins > 0 && 0.1 <= prior < 0.5 then
        MatchSumInRange(bounds, prior, numBins);
        MatchSum(bounds, prior, numBins)
      else
        MatchSumNone(bounds, prior, numBins);
        MatchSum(bounds, prior, numBins)
  }

  /** `popularity[gene] > 0 and prior >= 0.1`. */
  predicate Eligible<M>(g: string, models: map<string, M>, popularity: map<string, int>, prior: M -> real)
    requires g in models && g in popularity
  {
    popularity[g] > 0 && prior(models[g]) >= 0.1
  }

  /** Every gene in `bins[b]` is eligible, falls in bin `b`, is a gene of the
      dataset, and carries its own Bayes error. */
  ghost predicate BinsSound<M>(bins: seq<seq<(string, real)>>, genes: seq<string>, models: map<string, M>,
                               popularity: map<string, int>, prior: M -> real, bayesError: M -> real, numBins: nat)
  {
    forall b, k :: 0 <= b < |bins| && 0 <= k < |bins[b]| ==>
      var g := bins[b][k].0;
      && g in genes && g in models && g in popularity
      && Eligible(g, models, popularity, prior)
      && FindBin(numBins, prior(models[g])) == b
      && bins[b][k].1 == bayesError(models[g])
  }

  /** Every eligible gene of `genes` sits in the bin of its prior. */
  ghost predicate Placed<M>(bins: seq<seq<(string, real)>>, genes: seq<string>, models: map<string, M>,
                            popularity: map<string, int>, prior: M -> real, numBins: nat)
  {
    forall g :: g in genes && g in models && g in popularity && Eligible(g, models, popularity, prior) ==>
      FindBin(numBins, prior(models[g])) < |bins| && g in Firsts(bins[FindBin(numBins, prior(models[g]))])
  }

  /** One step of the binning loop, `bins[bin][gene] = error` for a new
      eligible gene, keeps the bins sound, complete and duplicate-free. */
  lemma AddToBin<M>(bins: seq<seq<(string, real)>>, prefix: seq<string>, g: string, models: map<string, M>,
                    popularity: map<string, int>, prior: M -> real, bayesError: M -> real, numBins: nat)
    requires g !in prefix && g in models && g in popularity && Eligible(g, models, popularity, prior)
    requires FindBin(numBins, prior(models[g])) < |bins|
    requires forall b :: 0 <= b < |bins| ==> Distinct(Firsts(bins[b]))
    requires BinsSound(bins, prefix, models, popularity, prior, bayesError, numBins)
    requires Placed(bins, prefix, models, popularity, prior, numBins)
    ensures var b := FindBin(numBins, prior(models[g]));
            var bins' := bins[b := bins[b] + [(g, bayesError(models[g]))]];
            && (forall c :: 0 <= c < |bins'| ==> Distinct(Firsts(bins'[c])))
            && BinsSound(bins', prefix + [g], models, popularity, prior, bayesError, numBins)
            && Placed(bins', prefix + [g], models, popularity, prior, numBins)
  {
    var b := FindBin(numBins, prior(models[g]));
    var bins' := bins[b := bins[b] + [(g, bayesError(models[g]))]];
    assert g !in Firsts(bins[b]);
    assert Firsts(bins'[b]) == Firsts(bins[b]) + [g];
    AddKeepsSound(bins, prefix, g, models, popularity, prior, bayesError, numBins);
    AddKeepsPlaced(bins, prefix, g, models, popularity, prior, bayesError, numBins);
  }

  lemma AddKeepsSound<M>(bins: seq<seq<(string, real)>>, prefix: seq<string>, g: string, models: map<string, M>,
                         popularity: map<string, int>, prior: M -> real, bayesError: M -> real, numBins: nat)
    requires g in models && g in popularity && Eligible(g, models, popularity, prior)
    requires FindBin(numBins, prior(models[g])) < |bins|
    requires BinsSound(bins, prefix, models, popularity, prior, bayesError, numBins)
    ensures var b := FindBin(numBins, prior(models[g]));
            var bins' := bins[b := bins[b] + [(g, bayesError(models[g]))]];
            BinsSound(bins', prefix + [g], models, popularity, prior, bayesError, numBins)
  {
    var b := FindBin(numBins, prior(models[g]));
    var bins': seq<seq<(string, real)>> := bins[b := bins[b] + [(g, bayesError(models[g]))]];
    forall c: int, k: int | 0 <= c < |bins'| && 0 <= k < |bins'[c]|
      ensures var x := bins'[c][k].0;
              && x in prefix + [g] && x in models && x in popularity
              && Eligible(x, models, popularity, prior)
              && FindBin(numBins, prior(models[x])) == c
              && bins'[c][k].1 == bayesError(models[x])
    {
      if c != b || k < |bins[b]| {
        assert bins'[c][k] == bins[c][k];
      }
    }
  }

  lemma AddKeepsPlaced<M>(bins: seq<seq<(string, real)>>, prefix: seq<string>, g: string, models: map<string, M>,
                          popularity: map<string, int>, prior: M -> real, bayesError: M -> real, numBins: nat)
    requires g in models && FindBin(numBins, prior(models[g])) < |bins|
    requires Placed(bins, prefix, models, popularity, prior, numBins)
    ensures var b := FindBin(numBins, prior(models[g]));
            var bins' := bins[b := bins[b] + [(g, bayesError(models[g]))]];
            Placed(bins', prefix + [g], models, popularity, prior, numBins)
  {
    var b := FindBin(numBins, prior(models[g]));
    var bins' := bins[b := bins[b] + [(g, bayesError(models[g]))]];
    forall x | x in prefix + [g] && x in models && x in popularity && Eligible(x, models, popularity, prior)
      ensures FindBin(numBins, prior(models[x])) < |bins'| && x in Firsts(bins'[FindBin(numBins, prior(models[x]))])
    {
      var c := FindBin(numBins, prior(models[x]));
      if x != g {
        var k :| 0 <= k < |bins[c]| && bins[c][k].0 == x;
        assert bins'[c][k].0 == x;
      } else {
        assert bins'[b][|bins[b]|].0 == g;
      }
    }
  }

  /** The binning loop over `gene_models` in key order: `bins[bin][gene] =
      error` for every eligible gene.  A gene missing from the popularity
      table raises `KeyError`, a bin index past the end of `bins` raises
      `IndexError`, whichever the loop meets first. */
  function Bucket<M>(genes: seq<string>, models: map<string, M>, popularity: map<string, int>,
                     prior: M -> real, bayesError: M -> real, numBins: nat, binCount: nat): (r: Result<seq<seq<(string, real)>>>)
    requires Distinct(genes) && forall g :: g in genes ==> g in models
    ensures r.Ok? <==> forall g :: g in genes ==>
              g in popularity && (Eligible(g, models, popularity, prior) ==> FindBin(numBins, prior(models[g])) < binCount)
    ensures r.Err? ==> r.error == KeyError || r.error == IndexError
    ensures r.Err? && r.error == IndexError ==>
              (exists g :: g in genes && g in popularity &&
                 Eligible(g, models, popularity, prior) && FindBin(numBins, prior(models[g])) >= binCount)
    ensures r.Err? && r.error == KeyError ==> exists g :: g in genes && g !in popularity
    ensures r.Ok? ==> |r.value| == binCount
    ensures r.Ok? ==> forall b :: 0 <= b < |r.value| ==> Distinct(Firsts(r.value[b]))
    ensures r.Ok? ==> BinsSound(r.value, genes, models, popularity, prior, bayesError, numBins)
    ensures r.Ok? ==> Placed(r.value, genes, models, popularity, prior, numBins)
    decreases |genes|
  {
    if |genes| == 0 then Ok(seq(binCount, _ => []))
    else
      var n := |genes| - 1;
      var g := genes[n];
      assert genes == genes[..n] + [g];
      var bins :- Bucket(genes[..n], models, popularity, prior, bayesError, numBins, binCount);
      if g !in popularity then Err(KeyError)
      else if !Eligible(g, models, popularity, prior) then Ok(bins)
      else
        var b := FindBin(numBins, prior(models[g]));
        if b >= binCount then Err(IndexError)
        else
          AddToBin(bins, genes[..n], g, models, popularity, prior, bayesError, numBins);
          Ok(bins[b := bins[b] + [(g, bayesError(models[g]))]])
  }

  /** Positions of the `n` entries of smallest error, smallest first, equal
      errors in insertion order: `heapq.nsmallest(n, bin, key=bin.get)`,
      which returns `sorted(bin, key=bin.get)[:n]`. */
  function SmallestPositions(bin: seq<(string, real)>, n: nat): (top: seq<nat>)
    ensures |top| == if n < |bin| then n else |bin|
    ensures Distinct(top)
    ensures forall a :: 0 <= a < |top| ==> top[a] < |bin|
    ensures forall a, j :: 0 <= a < |top| && 0 <= j < |bin| && j !in top ==>
              bin[top[a]].1 < bin[j].1 || (bin[top[a]].1 == bin[j].1 && top[a] < j)
  {
    var keys := seq(|bin|, k requires 0 <= k < |bin| => (bin[k].1, 0.0));
    var order := SortedIndices(keys);
    var m := if n < |bin| then n else |bin|;
    var top := order[..m];
    forall a, j | 0 <= a < |top| && 0 <= j < |bin| && j !in top
      ensures bin[top[a]].1 < bin[j].1 || (bin[top[a]].1 == bin[j].1 && top[a] < j)
    {
      assert j in order;
      var p :| 0 <= p < |order| && order[p] == j;
      assert p >= m;
      assert Before(keys, order[a], order[p]);
      assert keys[top[a]] == (bin[top[a]].1, 0.0) && keys[j] == (bin[j].1, 0.0);
    }
    top
  }

  /** The genes `heapq.nsmallest` returns for one bin (a dict, so its genes
      are distinct): genes of the bin, and every gene kept has a smaller
      error than every gene left out, or an equal one and an earlier
      insertion. */
  function NSmallest(bin: seq<(string, real)>, n: nat): (kept: seq<string>)
    requires Distinct(Firsts(bin))
    ensures |kept| == if n < |bin| then n else |bin|
    ensures Distinct(kept)
    ensures forall x :: x in kept ==> x in Firsts(bin)
    ensures forall i, j :: 0 <= i < |bin| && 0 <= j < |bin| && bin[i].0 in kept && bin[j].0 !in kept ==>
              bin[i].1 < bin[j].1 || (bin[i].1 == bin[j].1 && i < j)
  {
    var top := SmallestPositions(bin, n);
    var kept := seq(|top|, a requires 0 <= a < |top| => bin[top[a]].0);
    KeptBeforeLeftOut(bin, n, top, kept);
    KeptDistinct(bin, top, kept);
    kept
  }

  lemma KeptBeforeLeftOut(bin: seq<(string, real)>, n: nat, top: seq<nat>, kept: seq<string>)
    requires Distinct(Firsts(bin))
    requires top == SmallestPositions(bin, n)
    requires |kept| == |top| && forall a :: 0 <= a < |top| ==> kept[a] == bin[top[a]].0
    ensures forall i, j :: 0 <= i < |bin| && 0 <= j < |bin| && bin[i].0 in kept && bin[j].0 !in kept ==>
              bin[i].1 < bin[j].1 || (bin[i].1 == bin[j].1 && i < j)
  {
    forall i, j | 0 <= i < |bin| && 0 <= j < |bin| && bin[i].0 in kept && bin[j].0 !in kept
      ensures bin[i].1 < bin[j].1 || (bin[i].1 == bin[j].1 && i < j)
    {
      var p := KeptPosition(bin, top, kept, i);
      LeftOutPosition(bin, top, kept, j);
    }
  }

  lemma KeptDistinct(bin: seq<(string, real)>, top: seq<nat>, kept: seq<string>)
    requires Distinct(Firsts(bin)) && Distinct(top)
    requires forall a :: 0 <= a < |top| ==> top[a] < |bin|
    requires |kept| == |top| && forall a :: 0 <= a < |top| ==> kept[a] == bin[top[a]].0
    ensures Distinct(kept)
    ensures forall x :: x in kept ==> x in Firsts(bin)
  {
    forall a, b | 0 <= a < b < |kept|
      ensures kept[a] != kept[b]
    {
      assert Firsts(bin)[top[a]] == kept[a] && Firsts(bin)[top[b]] == kept[b];
    }
    forall x | x in kept
      ensures x in Firsts(bin)
    {
      var a :| 0 <= a < |kept| && kept[a] == x;
      assert Firsts(bin)[top[a]] == x;
    }
  }

  /** A position whose gene was kept is a kept position. */
  lemma KeptPosition(bin: seq<(string, real)>, top: seq<nat>, kept: seq<string>, i: nat) returns (p: nat)
    requires Distinct(Firsts(bin))
    requires forall a :: 0 <= a < |top| ==> top[a] < |bin|
    requires |kept| == |top| && forall a :: 0 <= a < |top| ==> kept[a] == bin[top[a]].0
    requires i < |bin| && bin[i].0 in kept
    ensures p < |top| && top[p] == i
  {
    var a :| 0 <= a < |kept| && kept[a] == bin[i].0;
    assert Firsts(bin)[top[a]] == Firsts(bin)[i];
    p := a;
  }

  /** A position whose gene was not kept is not among the kept positions. */
  lemma LeftOutPosition(bin: seq<(string, real)>, top: seq<nat>, kept: seq<string>, j: nat)
    requires forall a :: 0 <= a < |top| ==> top[a] < |bin|
    requires |kept| == |top| && forall a :: 0 <= a < |top| ==> kept[a] == bin[top[a]].0
    requires j < |bin| && bin[j].0 !in kept
    ensures j !in top
  {
    forall p | 0 <= p < |top|
      ensures top[p] != j
    {
      assert kept[p] == bin[top[p]].0;
    }
  }

  /** What `dump_best_models` computes: the bins, the genes each keeps, and
      `best_models`, the kept genes mapped to their models. */
  datatype Selection<M> = Selection(bins: seq<seq<(string, real)>>, kept: seq<seq<string>>, best: map<string, M>)

  /** `best_models[best_gene] = gene_models[best_gene]` over the bins in
      order. */
  function Collect<M>(kept: seq<seq<string>>, models: map<string, M>): (best: map<string, M>)
    requires forall b, x :: 0 <= b < |kept| && x in kept[b] ==> x in models
    ensures forall g :: g in best <==> exists b :: 0 <= b < |kept| && g in kept[b]
    ensures forall g :: g in best ==> best[g] == models[g]
  {
    if |kept| == 0 then map[]
    else
      var n := |kept| - 1;
      var prefix := Collect(kept[..n], models);
      prefix + map x | x in kept[n] :: models[x]
  }

  /** `dump_best_models` with `binCount` bins; the program allocates
      `num_bins` of them. */
  function SelectWith<M>(genes: seq<string>, models: map<string, M>, popularity: map<string, int>,
                         prior: M -> real, bayesError: M -> real, numBins: nat, genesPerBin: nat, binCount: nat): (r: Result<Selection<M>>)
    requires Distinct(genes) && forall g :: g in genes ==> g in models
    ensures r.Err? ==> r.error == KeyError || r.error == IndexError
    ensures r.Err? && r.error == IndexError ==>
              (exists g :: g in genes && g in popularity &&
                 Eligible(g, models, popularity, prior) && FindBin(numBins, prior(models[g])) >= binCount)
    ensures r.Err? && r.error == KeyError ==> exists g :: g in genes && g !in popularity
    ensures r.Ok? <==> forall g :: g in genes ==>
              g in popularity && (Eligible(g, models, popularity, prior) ==> FindBin(numBins, prior(models[g])) < binCount)
    ensures r.Ok? ==> |r.value.bins| == |r.value.kept| == binCount
    ensures r.Ok? ==> BinsSound(r.value.bins, genes, models, popularity, prior, bayesError, numBins)
    ensures r.Ok? ==> Placed(r.value.bins, genes, models, popularity, prior, numBins)
    ensures r.Ok? ==> forall b :: 0 <= b < binCount ==> Distinct(Firsts(r.value.bins[b]))
    ensures r.Ok? ==> forall b :: 0 <= b < binCount ==> r.value.kept[b] == NSmallest(r.value.bins[b], genesPerBin)
    ensures r.Ok? ==> forall g :: g in r.value.best <==> exists b :: 0 <= b < binCount && g in r.value.kept[b]
    ensures r.Ok? ==> forall g :: g in r.value.best ==> g in models && r.value.best[g] == models[g]
  {
    var bins :- Bucket(genes, models, popularity, prior, bayesError, numBins, binCount);
    SoundNamesModelled(bins, genes, models, popularity, prior, bayesError, numBins);
    Ok(Choose(bins, models, genesPerBin))
  }

  lemma SoundNamesModelled<M>(bins: seq<seq<(string, real)>>, genes: seq<string>, models: map<string, M>,
                              popularity: map<string, int>, prior: M -> real, bayesError: M -> real, numBins: nat)
    requires BinsSound(bins, genes, models, popularity, prior, bayesError, numBins)
    ensures forall b, x :: 0 <= b < |bins| && x in Firsts(bins[b]) ==> x in models
  {
    forall b, x | 0 <= b < |bins| && x in Firsts(bins[b])
      ensures x in models
    {
      var k :| 0 <= k < |bins[b]| && Firsts(bins[b])[k] == x;
    }
  }

  /** The selection over filled bins: `heapq.nsmallest` of each bin, and
      the chosen genes' models. */
  function Choose<M>(bins: seq<seq<(string, real)>>, models: map<string, M>, genesPerBin: nat): (r: Selection<M>)
    requires forall b :: 0 <= b < |bins| ==> Distinct(Firsts(bins[b]))
    requires forall b, x :: 0 <= b < |bins| && x in Firsts(bins[b]) ==> x in models
    ensures r.bins == bins && |r.kept| == |bins|
    ensures forall b :: 0 <= b < |bins| ==> r.kept[b] == NSmallest(bins[b], genesPerBin)
    ensures forall g :: g in r.best <==> exists b :: 0 <= b < |bins| && g in r.kept[b]
    ensures forall g :: g in r.best ==> g in models && r.best[g] == models[g]
  {
    var kept := seq(|bins|, b requires 0 <= b < |bins| && Distinct(Firsts(bins[b])) => NSmallest(bins[b], genesPerBin));
    Selection(bins, kept, Collect(kept, models))
  }

  /** `dump_best_models` as written: `bins` has `num_bins` entries. */
  function SelectBestModels<M>(genes: seq<string>, models: map<string, M>, popularity: map<string, int>,
                               prior: M -> real, bayesError: M -> real, numBins: nat, genesPerBin: nat): (r: Result<Selection<M>>)
    requires Distinct(genes) && forall g :: g in genes ==> g in models
    ensures numBins > 0 ==> (r.Ok? <==> forall g :: g in genes ==>
              g in popularity && (Eligible(g, models, popularity, prior) ==> prior(models[g]) != 0.5))
  {
    SelectWith(genes, models, popularity, prior, bayesError, numBins, genesPerBin, numBins)
  }

  /** `dump_best_models` with the bin the 0.5 special case points at:
      `num_bins + 1` bins, so every eligible gene has a bin. */
  function SelectBestModelsCorrected<M>(genes: seq<string>, models: map<string, M>, popularity: map<string, int>,
                                        prior: M -> real, bayesError: M -> real, numBins: nat, genesPerBin: nat): (r: Result<Selection<M>>)
    requires Distinct(genes) && forall g :: g in genes ==> g in models
    ensures r.Ok? <==> forall g :: g in genes ==> g in popularity
    ensures r.Err? ==> r.error == KeyError
    ensures r.Ok? ==> |r.value.kept| == numBins + 1
  {
    SelectWith(genes, models, popularity, prior, bayesError, numBins, genesPerBin, numBins + 1)
  }

  /** A model's prior of exactly 0.5 sends `find_bin` to index `num_bins`,
      one past the last of the `num_bins` bins: one popular gene with prior
      0.5 makes the selection as written raise `IndexError`. */
  lemma HalfPriorOverflows()
    ensures SelectBestModels(["TP53"], map["TP53" := 0.5], map["TP53" := 3],
                             (m: real) => m, (m: real) => 0.25, 4, 10) == Err(IndexError)
  {
    var models := map["TP53" := 0.5];
    var popularity := map["TP53" := 3];
    var prior := (m: real) => m;
    assert Eligible("TP53", models, popularity, prior);
  }

  /** The same gene with `num_bins + 1` bins is kept from the last bin. */
  lemma HalfPriorKeptWhenCorrected()
    ensures var fixed := SelectBestModelsCorrected(["TP53"], map["TP53" := 0.5], map["TP53" := 3],
                                                   (m: real) => m, (m: real) => 0.25, 4, 10);
            fixed.Ok? && "TP53" in fixed.value.kept[4] && "TP53" in fixed.value.best
  {
    var models := map["TP53" := 0.5];
    var popularity := map["TP53" := 3];
    var prior := (m: real) => m;
    var bayesError := (m: real) => 0.25;
    assert Eligible("TP53", models, popularity, prior);
    CorrectedPlacesEveryEligibleGene(["TP53"], models, popularity, prior, bayesError, 4, 10, "TP53");
    var fixed := SelectBestModelsCorrected(["TP53"], models, popularity, prior, bayesError, 4, 10);
    var bin := fixed.value.bins[4];
    assert "TP53" in Firsts(bin);
    var kept := fixed.value.kept[4];
    assert |kept| == 1;
    assert kept[0] in Firsts(bin);
  }

  /** With the extra bin the only failure left is a gene missing from the
      popularity table; every popular gene with a prior of at least 0.1,
      0.5 included, lands in a bin. */
  lemma CorrectedPlacesEveryEligibleGene<M>(genes: seq<string>, models: map<string, M>, popularity: map<string, int>,
                                            prior: M -> real, bayesError: M -> real, numBins: nat, genesPerBin: nat, g: string)
    requires Distinct(genes) && forall x :: x in genes ==> x in models
    requires forall x :: x in genes ==> x in popularity
    requires g in genes && Eligible(g, models, popularity, prior)
    ensures var r := SelectBestModelsCorrected(genes, models, popularity, prior, bayesError, numBins, genesPerBin);
            r.Ok? && g in Firsts(r.value.bins[FindBin(numBins, prior(models[g]))])
            && (prior(models[g]) == 0.5 ==> g in Firsts(r.value.bins[numBins]))
  {
    var r := SelectWith(genes, models, popularity, prior, bayesError, numBins, genesPerBin, numBins + 1);
    assert r.Ok?;
  }
}
