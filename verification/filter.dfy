/** `dump_filtered_gene_sets`: restrict every catalog gene set to the genes
    the dataset measures and keep the sets whose restricted size lies
    strictly between 5 and 100. */
module GeneSetFilter {
  import opened Outcome
  import opened Data

  /** `{gene for gene in genes if gene in valid}`: the set comprehension,
      listed in first-occurrence order. */
  function FilterGenes(genes: seq<string>, valid: set<string>): (r: seq<string>)
    ensures Distinct(r)
    ensures forall g :: g in r <==> g in genes && g in valid
    decreases |genes|
  {
    if |genes| == 0 then []
    else
      var prefix := FilterGenes(genes[..|genes| - 1], valid);
      var g := genes[|genes| - 1];
      assert genes == genes[..|genes| - 1] + [g];
      if g in valid && g !in prefix then prefix + [g] else prefix
  }

  /** The set with its genes restricted, keeping its name and URL. */
  function Restrict(s: GeneSet, valid: set<string>): GeneSet {
    GeneSet(s.name, s.url, FilterGenes(s.genes, valid))
  }

  /** The size window `len(new_genes) > 5 and len(new_genes) < 100`. */
  predicate Kept(s: GeneSet, valid: set<string>) {
    5 < |FilterGenes(s.genes, valid)| < 100
  }

  /** What the filtering loop over `sets` promises of its result `r`:
      every result set lies in the size window, holds only dataset genes,
      and is the restriction of a catalog set; a catalog set's restriction
      is in the result exactly when it lies in the window. */
  ghost predicate Filtered(sets: seq<GeneSet>, valid: set<string>, r: seq<GeneSet>) {
    && (forall k :: 0 <= k < |r| ==> 5 < |r[k].genes| < 100 && Distinct(r[k].genes))
    && (forall k, g :: 0 <= k < |r| && g in r[k].genes ==> g in valid)
    && (forall k :: 0 <= k < |r| ==> exists i :: 0 <= i < |sets| && r[k] == Restrict(sets[i], valid))
    && (forall i :: 0 <= i < |sets| ==> (Restrict(sets[i], valid) in r <==> Kept(sets[i], valid)))
    && |r| <= |sets|
  }

  /** The filtering loop over the catalog, in catalog order. */
  function FilterGeneSets(sets: seq<GeneSet>, valid: set<string>): (r: seq<GeneSet>)
    ensures Filtered(sets, valid, r)
    decreases |sets|
  {
    if |sets| == 0 then []
    else
      var rest := FilterGeneSets(sets[1..], valid);
      if Kept(sets[0], valid) then
        KeepFirst(sets, valid, rest);
        [Restrict(sets[0], valid)] + rest
      else
        DropFirst(sets, valid, rest);
        rest
  }

  /** A set in the window goes in front of the result for the rest. */
  lemma KeepFirst(sets: seq<GeneSet>, valid: set<string>, rest: seq<GeneSet>)
    requires |sets| > 0 && Kept(sets[0], valid) && Filtered(sets[1..], valid, rest)
    ensures Filtered(sets, valid, [Restrict(sets[0], valid)] + rest)
  {
    var r := [Restrict(sets[0], valid)] + rest;
    assert forall i :: 1 <= i < |sets| ==> sets[i] == sets[1..][i - 1];
    ConsElements(Restrict(sets[0], valid), rest);
    forall k | 0 <= k < |r|
      ensures exists i :: 0 <= i < |sets| && r[k] == Restrict(sets[i], valid)
    {
      if k > 0 {
        var i :| 0 <= i < |sets[1..]| && rest[k - 1] == Restrict(sets[1..][i], valid);
        assert r[k] == Restrict(sets[i + 1], valid);
      } else {
        assert r[0] == Restrict(sets[0], valid);
      }
    }
  }

  /** A set outside the window leaves the result for the rest as it is. */
  lemma DropFirst(sets: seq<GeneSet>, valid: set<string>, rest: seq<GeneSet>)
    requires |sets| > 0 && !Kept(sets[0], valid) && Filtered(sets[1..], valid, rest)
    ensures Filtered(sets, valid, rest)
  {
    assert forall i :: 1 <= i < |sets| ==> sets[i] == sets[1..][i - 1];
    forall k | 0 <= k < |rest|
      ensures exists i :: 0 <= i < |sets| && rest[k] == Restrict(sets[i], valid)
    {
      var i :| 0 <= i < |sets[1..]| && rest[k] == Restrict(sets[1..][i], valid);
      assert rest[k] == Restrict(sets[i + 1], valid);
    }
  }

  /** The body of `dump_filtered_gene_sets` after its loads: the vocabulary
      is the first sample's genes, so an empty sample dict fails. */
  function FilteredGeneSets(catalog: seq<GeneSet>, samples: seq<Sample>): (r: Result<seq<GeneSet>>)
    ensures r.Ok? <==> |samples| > 0
    ensures r.Ok? ==> forall k, g :: 0 <= k < |r.value| && g in r.value[k].genes ==> g in samples[0].intensity
    ensures r.Ok? ==> forall k :: 0 <= k < |r.value| ==> 5 < |r.value[k].genes| < 100
    ensures r.Ok? ==> Filtered(catalog, samples[0].intensity.Keys, r.value)
  {
    var valid :- FirstSampleGenes(samples);
    Ok(FilterGeneSets(catalog, valid))
  }

  /** The size the window tests is the size of the intersection of the
      set's genes with the vocabulary, so a set is kept iff that
      intersection has more than 5 and fewer than 100 genes. */
  lemma KeptIffIntersection(s: GeneSet, valid: set<string>)
    ensures Kept(s, valid) <==> 5 < |(set g | g in s.genes) * valid| < 100
  {
    var r := FilterGenes(s.genes, valid);
    DistinctCardinality(r);
    assert (set x | x in r) == (set g | g in s.genes) * valid;
  }

  /** A kept set keeps its name and URL, and its genes are genes it had. */
  lemma RestrictShape(s: GeneSet, valid: set<string>)
    ensures Restrict(s, valid).name == s.name && Restrict(s, valid).url == s.url
    ensures forall g :: g in Restrict(s, valid).genes ==> g in s.genes && g in valid
  {
  }
}
