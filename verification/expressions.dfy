/** Two per-gene views of the sample profiles: the expression lists
    `dump_gene_models` gathers to fit one model per gene, and the per-gene
    range `dump_bayes_scores` uses to map intensities into [0, 1]. */
module Expressions {
  import opened Outcome
  import opened Data

  /** Positions, in sample order, of the samples whose profile has gene `g`. */
  function Holders(samples: seq<Sample>, g: string): (idx: seq<nat>)
    ensures forall k :: 0 <= k < |idx| ==> idx[k] < |samples| && g in samples[idx[k]].intensity
    ensures forall k, l :: 0 <= k < l < |idx| ==> idx[k] < idx[l]
    ensures forall i :: 0 <= i < |samples| && g in samples[i].intensity ==> i in idx
    decreases |samples|
  {
    if |samples| == 0 then []
    else
      var n := |samples| - 1;
      var prefix := Holders(samples[..n], g);
      if g in samples[n].intensity then prefix + [n] else prefix
  }

  /** Gene `g`'s intensities, one per sample whose profile has `g`, in
      sample order. */
  function Column(samples: seq<Sample>, g: string): (col: seq<real>)
    ensures |col| == |Holders(samples, g)|
    ensures forall k :: 0 <= k < |col| ==> col[k] == samples[Holders(samples, g)[k]].intensity[g]
    decreases |samples|
  {
    if |samples| == 0 then []
    else
      var n := |samples| - 1;
      var prefix := Column(samples[..n], g);
      if g in samples[n].intensity then prefix + [samples[n].intensity[g]] else prefix
  }

  /** The gathering loop of `dump_gene_models`: one list per gene of the first
      sample, holding that gene's intensity from every sample that has it,
      in sample order.  An empty sample dict has no first sample. */
  method GatherExpressions(samples: seq<Sample>) returns (r: Result<map<string, seq<real>>>)
    ensures r.Ok? <==> |samples| > 0
    ensures r.Err? ==> r.error == IndexError
    ensures r.Ok? ==> r.value.Keys == samples[0].intensity.Keys
    ensures r.Ok? ==> forall g :: g in r.value ==> r.value[g] == Column(samples, g)
  {
    if |samples| == 0 {
      return Err(IndexError);
    }
    var genes := samples[0].intensity.Keys;
    var expressions: map<string, seq<real>> := map g | g in genes :: [];
    var i := 0;
    while i < |samples|
      invariant 0 <= i <= |samples|
      invariant expressions.Keys == genes
      invariant forall g :: g in expressions ==> expressions[g] == Column(samples[..i], g)
    {
      var profile := samples[i].intensity;
      assert samples[..i + 1][..i] == samples[..i];
      expressions := map g | g in expressions ::
        if g in profile then expressions[g] + [profile[g]] else expressions[g];
      i := i + 1;
    }
    assert samples[..i] == samples;
    return Ok(expressions);
  }

  /** Some sample before position `i` has gene `g`. */
  ghost predicate SeenBefore(samples: seq<Sample>, i: int, g: string) {
    exists j :: 0 <= j < i && j < |samples| && g in samples[j].intensity
  }

  /** `mx` and `mn` bound every intensity of their gene from above and from
      below, and every `mn` entry is at most 0. */
  ghost predicate Envelope(samples: seq<Sample>, mx: map<string, real>, mn: map<string, real>) {
    && (forall j, g :: 0 <= j < |samples| && g in samples[j].intensity ==>
          g in mx && g in mn && mn[g] <= samples[j].intensity[g] <= mx[g])
    && (forall g :: g in mn ==> mn[g] <= 0.0)
  }

  /** One sample's step of the `max_expression` update: a gene seen for the
      first time starts at its intensity, and a larger intensity replaces
      the maximum so far. */
  function RaiseMax(mx: map<string, real>, profile: map<string, real>): (r: map<string, real>)
    ensures r.Keys == mx.Keys + profile.Keys
    ensures forall g :: g in profile ==> profile[g] <= r[g]
    ensures forall g :: g in mx ==> mx[g] <= r[g]
    ensures forall g :: g in r ==> (g in profile && r[g] == profile[g]) || (g in mx && r[g] == mx[g])
  {
    map g | g in mx.Keys + profile.Keys ::
      if g in profile && (g !in mx || profile[g] > mx[g]) then profile[g] else mx[g]
  }

  /** One sample's step of the `min_negative_expression` update: a gene seen
      for the first time starts at 0, and a smaller intensity replaces the
      minimum so far. */
  function LowerMin(mn: map<string, real>, profile: map<string, real>): (r: map<string, real>)
    ensures r.Keys == mn.Keys + profile.Keys
    ensures forall g :: g in profile ==> r[g] <= profile[g]
    ensures forall g :: g in mn ==> r[g] <= mn[g]
    ensures forall g :: g in r && g !in mn ==> r[g] <= 0.0
    ensures forall g :: g in r ==> r[g] == 0.0 || (g in profile && r[g] == profile[g]) || (g in mn && r[g] == mn[g])
  {
    map g | g in mn.Keys + profile.Keys ::
      var base := if g in mn then mn[g] else 0.0;
      if g in profile && profile[g] < base then profile[g] else base
  }

  /** What the first `i` samples establish about `mx` and `mn`. */
  ghost predicate BoundsSoFar(samples: seq<Sample>, i: nat, mx: map<string, real>, mn: map<string, real>)
    requires i <= |samples|
  {
    && (forall g :: g in mx <==> SeenBefore(samples, i, g))
    && mn.Keys == mx.Keys
    && (forall j, g :: 0 <= j < i && g in samples[j].intensity ==>
          g in mx && g in mn && mn[g] <= samples[j].intensity[g] <= mx[g])
    && (forall g :: g in mn ==> mn[g] <= 0.0)
    && (forall g :: g in mx ==> exists j :: 0 <= j < i && g in samples[j].intensity && samples[j].intensity[g] == mx[g])
    && (forall g :: g in mn ==> mn[g] == 0.0 || exists j :: 0 <= j < i && g in samples[j].intensity && samples[j].intensity[g] == mn[g])
  }

  lemma BoundsStepKeys(samples: seq<Sample>, i: nat, mx: map<string, real>, mn: map<string, real>)
    requires i < |samples| && BoundsSoFar(samples, i, mx, mn)
    ensures forall g :: g in RaiseMax(mx, samples[i].intensity) <==> SeenBefore(samples, i + 1, g)
  {
    var profile := samples[i].intensity;
    forall g
      ensures g in RaiseMax(mx, profile) <==> SeenBefore(samples, i + 1, g)
    {
      if g in profile {
        assert 0 <= i < i + 1 && i < |samples| && g in samples[i].intensity;
      }
      if SeenBefore(samples, i + 1, g) && g !in profile {
        var j :| 0 <= j < i + 1 && j < |samples| && g in samples[j].intensity;
        assert j < i;
      }
    }
  }

  lemma BoundsStepWitness(samples: seq<Sample>, i: nat, mx: map<string, real>, mn: map<string, real>)
    requires i < |samples| && BoundsSoFar(samples, i, mx, mn)
    ensures var mx' := RaiseMax(mx, samples[i].intensity);
            forall g :: g in mx' ==> exists j :: 0 <= j < i + 1 && g in samples[j].intensity && samples[j].intensity[g] == mx'[g]
    ensures var mn' := LowerMin(mn, samples[i].intensity);
            forall g :: g in mn' ==> mn'[g] == 0.0 || exists j :: 0 <= j < i + 1 && g in samples[j].intensity && samples[j].intensity[g] == mn'[g]
  {
    var profile := samples[i].intensity;
    var mx', mn' := RaiseMax(mx, profile), LowerMin(mn, profile);
    forall g | g in mx'
      ensures exists j :: 0 <= j < i + 1 && g in samples[j].intensity && samples[j].intensity[g] == mx'[g]
    {
      if !(g in profile && mx'[g] == profile[g]) {
        var j :| 0 <= j < i && g in samples[j].intensity && samples[j].intensity[g] == mx[g];
      }
    }
    forall g | g in mn'
      ensures mn'[g] == 0.0 || exists j :: 0 <= j < i + 1 && g in samples[j].intensity && samples[j].intensity[g] == mn'[g]
    {
      if mn'[g] != 0.0 && !(g in profile && mn'[g] == profile[g]) {
        var j :| 0 <= j < i && g in samples[j].intensity && samples[j].intensity[g] == mn[g];
      }
    }
  }

  lemma BoundsStepEnvelope(samples: seq<Sample>, i: nat, mx: map<string, real>, mn: map<string, real>)
    requires i < |samples| && BoundsSoFar(samples, i, mx, mn)
    ensures var mx', mn' := RaiseMax(mx, samples[i].intensity), LowerMin(mn, samples[i].intensity);
            forall j, g :: 0 <= j < i + 1 && g in samples[j].intensity ==>
              g in mx' && g in mn' && mn'[g] <= samples[j].intensity[g] <= mx'[g]
    ensures forall g :: g in LowerMin(mn, samples[i].intensity) ==> LowerMin(mn, samples[i].intensity)[g] <= 0.0
  {
    var profile := samples[i].intensity;
    var mx', mn' := RaiseMax(mx, profile), LowerMin(mn, profile);
    forall j, g | 0 <= j < i + 1 && g in samples[j].intensity
      ensures g in mx' && g in mn' && mn'[g] <= samples[j].intensity[g] <= mx'[g]
    {
      if j < i {
        assert g in mx && g in mn && mn[g] <= samples[j].intensity[g] <= mx[g];
      }
    }
  }

  lemma BoundsStep(samples: seq<Sample>, i: nat, mx: map<string, real>, mn: map<string, real>)
    requires i < |samples| && BoundsSoFar(samples, i, mx, mn)
    ensures BoundsSoFar(samples, i + 1, RaiseMax(mx, samples[i].intensity), LowerMin(mn, samples[i].intensity))
  {
    BoundsStepKeys(samples, i, mx, mn);
    BoundsStepWitness(samples, i, mx, mn);
    BoundsStepEnvelope(samples, i, mx, mn);
  }

  /** The first loop of `dump_bayes_scores`: for every gene any sample has,
      `max_expression` is its largest intensity and `min_negative_expression`
      its smallest intensity or 0, whichever is smaller. */
  method ExpressionBounds(samples: seq<Sample>) returns (mx: map<string, real>, mn: map<string, real>)
    ensures forall g :: g in mx <==> SeenBefore(samples, |samples|, g)
    ensures mn.Keys == mx.Keys
    ensures Envelope(samples, mx, mn)
    ensures forall g :: g in mx ==> exists j :: 0 <= j < |samples| && g in samples[j].intensity && samples[j].intensity[g] == mx[g]
    ensures forall g :: g in mn ==> mn[g] == 0.0 || exists j :: 0 <= j < |samples| && g in samples[j].intensity && samples[j].intensity[g] == mn[g]
  {
    mx := map[];
    mn := map[];
    var i := 0;
    while i < |samples|
      invariant 0 <= i <= |samples|
      invariant BoundsSoFar(samples, i, mx, mn)
    {
      BoundsStep(samples, i, mx, mn);
      mx, mn := RaiseMax(mx, samples[i].intensity), LowerMin(mn, samples[i].intensity);
      i := i + 1;
    }
  }

  /** `(x - lo) / (hi - lo)`: a division by zero when the range is empty. */
  function Normalize(x: real, lo: real, hi: real): (r: Result<real>)
    ensures r.Err? <==> hi == lo
    ensures r.Err? ==> r.error == ZeroDivisionError
    ensures r.Ok? && lo <= x <= hi ==> 0.0 <= r.value <= 1.0
    ensures r.Ok? ==> lo + r.value * (hi - lo) == x
  {
    if hi - lo == 0.0 then Err(ZeroDivisionError)
    else
      var q := (x - lo) / (hi - lo);
      assert q * (hi - lo) == x - lo;
      assert lo <= x <= hi ==> 0.0 <= q <= 1.0 by {
        if lo <= x <= hi {
          RatioInUnitInterval(x - lo, hi - lo);
        }
      }
      Ok(q)
  }

  lemma RatioInUnitInterval(a: real, d: real)
    requires 0.0 <= a <= d && d != 0.0
    ensures 0.0 <= a / d <= 1.0
  {
    assert (a / d) * d == a;
  }

  /** `idx` holds exactly the positions of the genes the set lists. */
  ghost predicate MarksMembers(genes: seq<string>, geneSet: seq<string>, idx: seq<int>) {
    forall k {:trigger k in idx} :: 0 <= k < |genes| ==> (k in idx <==> genes[k] in geneSet)
  }

  /** `r` is the genes the set lists, picked in profile order. */
  ghost predicate MembersKept(genes: seq<string>, geneSet: seq<string>, r: seq<string>) {
    exists idx :: Picks(genes, idx, r) && MarksMembers(genes, geneSet, idx)
  }

  /** What the loop over a profile promises of the genes it hands on: only
      genes of both the profile and the set, all of them, picked in profile
      order, and each once when the profile lists each gene once. */
  ghost predicate MembersOf(genes: seq<string>, geneSet: seq<string>, r: seq<string>) {
    && (forall k :: 0 <= k < |r| ==> r[k] in genes && r[k] in geneSet)
    && (forall g :: g in genes && g in geneSet ==> g in r)
    && MembersKept(genes, geneSet, r)
    && (Distinct(genes) ==> Distinct(r))
  }

  /** The genes of `s`, in profile order, that belong to the gene set. */
  function Members(genes: seq<string>, geneSet: seq<string>): (r: seq<string>)
    ensures MembersOf(genes, geneSet, r)
  {
    if |genes| == 0 then
      assert Picks(genes, [], []) && MarksMembers(genes, geneSet, []);
      []
    else
      var rest := Members(genes[1..], geneSet);
      MembersOfStep(genes, geneSet, rest);
      if genes[0] in geneSet then [genes[0]] + rest else rest
  }

  lemma MembersOfStep(genes: seq<string>, geneSet: seq<string>, rest: seq<string>)
    requires |genes| > 0 && MembersOf(genes[1..], geneSet, rest)
    ensures MembersOf(genes, geneSet, if genes[0] in geneSet then [genes[0]] + rest else rest)
  {
    var r := if genes[0] in geneSet then [genes[0]] + rest else rest;
    MemberStep(genes, geneSet, rest);
    MembersWithin(genes, geneSet, rest);
    MembersComplete(genes, geneSet, rest);
    DistinctFront(genes, geneSet, rest);
    MembersOfIntro(genes, geneSet, r);
  }

  lemma MembersOfIntro(genes: seq<string>, geneSet: seq<string>, r: seq<string>)
    requires MembersKept(genes, geneSet, r)
    requires forall k :: 0 <= k < |r| ==> r[k] in genes && r[k] in geneSet
    requires forall g :: g in genes && g in geneSet ==> g in r
    requires Distinct(genes) ==> Distinct(r)
    ensures MembersOf(genes, geneSet, r)
  {
  }

  lemma MembersWithin(genes: seq<string>, geneSet: seq<string>, rest: seq<string>)
    requires |genes| > 0
    requires forall k :: 0 <= k < |rest| ==> rest[k] in genes[1..] && rest[k] in geneSet
    ensures var r := if genes[0] in geneSet then [genes[0]] + rest else rest;
            forall k :: 0 <= k < |r| ==> r[k] in genes && r[k] in geneSet
  {
    var r := if genes[0] in geneSet then [genes[0]] + rest else rest;
    forall k | 0 <= k < |r|
      ensures r[k] in genes && r[k] in geneSet
    {
      if genes[0] in geneSet && k == 0 {
        assert r[0] == genes[0];
      } else {
        var j := if genes[0] in geneSet then k - 1 else k;
        assert r[k] == rest[j];
        var i :| 0 <= i < |genes[1..]| && genes[1..][i] == rest[j];
        assert genes[i + 1] == rest[j];
      }
    }
  }

  lemma MembersComplete(genes: seq<string>, geneSet: seq<string>, rest: seq<string>)
    requires |genes| > 0
    requires forall g :: g in genes[1..] && g in geneSet ==> g in rest
    ensures var r := if genes[0] in geneSet then [genes[0]] + rest else rest;
            forall g :: g in genes && g in geneSet ==> g in r
  {
    var r := if genes[0] in geneSet then [genes[0]] + rest else rest;
    forall g | g in genes && g in geneSet
      ensures g in r
    {
      var i :| 0 <= i < |genes| && genes[i] == g;
      if i > 0 {
        assert genes[1..][i - 1] == g;
        assert g in rest;
        var j :| 0 <= j < |rest| && rest[j] == g;
        if genes[0] in geneSet {
          assert r[j + 1] == g;
        }
      } else {
        assert r[0] == g;
      }
    }
  }

  /** The first gene of a duplicate-free profile is none of the genes
      picked from the rest. */
  lemma DistinctFront(genes: seq<string>, geneSet: seq<string>, rest: seq<string>)
    requires |genes| > 0
    requires forall k :: 0 <= k < |rest| ==> rest[k] in genes[1..]
    requires Distinct(genes[1..]) ==> Distinct(rest)
    ensures Distinct(genes) ==> Distinct(if genes[0] in geneSet then [genes[0]] + rest else rest)
  {
    if Distinct(genes) {
      assert genes == [genes[0]] + genes[1..];
      assert genes[0] !in genes[1..];
      assert Distinct(genes[1..]);
      ConsElements(genes[0], rest);
    }
  }

  /** One step of the loop over the profile: the first gene goes in front
      of the rest's members iff the set lists it. */
  lemma MemberStep(genes: seq<string>, geneSet: seq<string>, rest: seq<string>)
    requires |genes| > 0 && MembersKept(genes[1..], geneSet, rest)
    ensures MembersKept(genes, geneSet, if genes[0] in geneSet then [genes[0]] + rest else rest)
  {
    var idx :| Picks(genes[1..], idx, rest) && MarksMembers(genes[1..], geneSet, idx);
    var idx' := PickCons(genes, idx, rest, genes[0] in geneSet);
    MarksStep(genes, geneSet, idx, idx');
    assert Picks(genes, idx', if genes[0] in geneSet then [genes[0]] + rest else rest) && MarksMembers(genes, geneSet, idx');
  }

  lemma MarksStep(genes: seq<string>, geneSet: seq<string>, idx: seq<int>, idx': seq<int>)
    requires |genes| > 0 && MarksMembers(genes[1..], geneSet, idx)
    requires 0 in idx' <==> genes[0] in geneSet
    requires forall k :: 1 <= k < |genes| ==> (k in idx' <==> k - 1 in idx)
    ensures MarksMembers(genes, geneSet, idx')
  {
    forall k | 1 <= k < |genes|
      ensures k in idx' <==> genes[k] in geneSet
    {
      assert genes[k] == genes[1..][k - 1];
    }
  }

  /** The gene has both bounds and a non-empty range between them. */
  predicate Scalable(g: string, mx: map<string, real>, mn: map<string, real>) {
    g in mx && g in mn && mx[g] != mn[g]
  }

  /** The error the division raises for a gene that is not scalable: the
      bound lookup's `KeyError` first, else `ZeroDivisionError`. */
  function ScaleError(g: string, mx: map<string, real>, mn: map<string, real>): Error {
    if g !in mx || g !in mn then KeyError else ZeroDivisionError
  }

  /** Normalise the listed genes of one profile, stopping at the first gene
      whose range is empty or missing. */
  function NormalizeGenes(genes: seq<string>, profile: map<string, real>, mx: map<string, real>, mn: map<string, real>): (r: Result<seq<real>>)
    requires forall k :: 0 <= k < |genes| ==> genes[k] in profile
    ensures r.Ok? <==> forall k :: 0 <= k < |genes| ==> Scalable(genes[k], mx, mn)
    ensures r.Ok? ==> |r.value| == |genes|
    ensures r.Ok? ==> forall k :: 0 <= k < |genes| ==>
                        (genes[k] in mx && genes[k] in mn &&
                         Normalize(profile[genes[k]], mn[genes[k]], mx[genes[k]]) == Ok(r.value[k]))
    ensures r.Err? ==> exists k :: 0 <= k < |genes| && !Scalable(genes[k], mx, mn) && r.error == ScaleError(genes[k], mx, mn) &&
                                   forall j :: 0 <= j < k ==> Scalable(genes[j], mx, mn)
  {
    if |genes| == 0 then Ok([])
    else
      var g := genes[0];
      if g !in mx || g !in mn then Err(KeyError)
      else
        var x :- Normalize(profile[g], mn[g], mx[g]);
        var rest :- NormalizeGenes(genes[1..], profile, mx, mn);
        assert forall k :: 1 <= k < |genes| ==> genes[k] == genes[1..][k - 1];
        Ok([x] + rest)
  }

  /** The expression list `dump_bayes_scores` hands to the scoring model for
      one sample and one gene set. */
  function SetExpressions(s: Sample, geneSet: seq<string>, mx: map<string, real>, mn: map<string, real>): Result<seq<real>>
    requires WellFormed(s)
  {
    NormalizeGenes(Members(s.genes, geneSet), s.intensity, mx, mn)
  }

  /** With the bounds of the first loop, every value handed to the scoring
      model lies in [0, 1]. */
  lemma SetExpressionsInUnitInterval(samples: seq<Sample>, mx: map<string, real>, mn: map<string, real>, i: nat, geneSet: seq<string>)
    requires i < |samples| && WellFormed(samples[i])
    requires Envelope(samples, mx, mn)
    ensures var r := SetExpressions(samples[i], geneSet, mx, mn);
            r.Ok? ==> forall k :: 0 <= k < |r.value| ==> 0.0 <= r.value[k] <= 1.0
  {
    var s := samples[i];
    var genes := Members(s.genes, geneSet);
    var r := SetExpressions(s, geneSet, mx, mn);
    if r.Ok? {
      forall k | 0 <= k < |r.value|
        ensures 0.0 <= r.value[k] <= 1.0
      {
        var g := genes[k];
        assert g in s.intensity;
        assert mn[g] <= s.intensity[g] <= mx[g];
      }
    }
  }

  /** With exact bounds, a gene's range is empty only when every sample has
      the same intensity for it and that intensity is at most 0: the only
      inputs on which the normalisation divides by zero. */
  lemma EmptyRange(samples: seq<Sample>, mx: map<string, real>, mn: map<string, real>, g: string)
    requires Envelope(samples, mx, mn)
    requires g in mx && g in mn && mx[g] == mn[g]
    requires exists j :: 0 <= j < |samples| && g in samples[j].intensity && samples[j].intensity[g] == mx[g]
    ensures mx[g] <= 0.0
    ensures forall j :: 0 <= j < |samples| && g in samples[j].intensity ==> samples[j].intensity[g] == mx[g]
  {
  }
}
