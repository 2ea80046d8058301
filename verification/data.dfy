/** The records the pipeline passes between stages. */
module Data {
  import opened Outcome

  /** One patient: its sample number and its expression profile, a dict from
      gene name to intensity, kept as the dict's key order plus the map. */
  datatype Sample = Sample(num: int, genes: seq<string>, intensity: map<string, real>)

  /** The key order lists each key of the profile exactly once. */
  predicate WellFormed(s: Sample) {
    && Distinct(s.genes)
    && (forall g :: g in s.genes ==> g in s.intensity)
    && (forall g :: g in s.intensity ==> g in s.genes)
  }

  /** `gene_set`: a pathway name, its Broad Institute URL and its genes. */
  datatype GeneSet = GeneSet(name: string, url: string, genes: seq<string>)

  /** `samples[keys[0]].profiles.keys()`: the genes of the first sample, the
      dataset's gene vocabulary; an empty sample dict has no first key. */
  function FirstSampleGenes(samples: seq<Sample>): (r: Result<set<string>>)
    ensures r.Ok? <==> |samples| > 0
    ensures r.Ok? ==> forall g :: g in r.value <==> g in samples[0].intensity
    ensures r.Err? ==> r.error == IndexError
  {
    if |samples| == 0 then Err(IndexError) else Ok(samples[0].intensity.Keys)
  }
}
