/** The artifacts of the pipeline, what each one is derived from, and the
    self-healing rebuild a `load_*` call performs on a cold store: every
    `dump_*` first loads its own inputs (rebuilding those that are missing)
    and then writes its artifact. */
module Pipeline {
  import Memo

  /** One artifact file: the stage and the parameters its file name is built
      from, so equal parameters always name the same artifact. */
  datatype Artifact =
    | SampleProfiles(dataset: string)
    | GeneModels(dataset: string)
    | GenePopularity(dataset: string)
    | AllGeneSets
    | FilteredGeneSets(dataset: string)
    | ClinicalProfiles
    | BestModels(dataset: string, numBins: int, genesPerBin: int)
    | SimPhenotypes(dataset: string, n: int, masterGene: string)
    | SsgseaScores(dataset: string, tag: string)
    | BayesScores(dataset: string, mode: int, tag: string)
    | NullScores(dataset: string, tag: string)

  /** The artifacts `dump_*` loads before computing this one. */
  function Deps(a: Artifact): (ds: seq<Artifact>)
    ensures forall i :: 0 <= i < |ds| ==> Level(ds[i]) < Level(a)
  {
    match a
    case SampleProfiles(_) => []
    case GeneModels(d) => [SampleProfiles(d)]
    case GenePopularity(_) => []
    case AllGeneSets => []
    case FilteredGeneSets(d) => [AllGeneSets, SampleProfiles(d)]
    case ClinicalProfiles => []
    case BestModels(d, _, _) => [GeneModels(d), GenePopularity(d)]
    case SimPhenotypes(d, _, _) => [GeneModels(d), SampleProfiles(d)]
    case SsgseaScores(d, _) => [FilteredGeneSets(d), SampleProfiles(d)]
    case BayesScores(d, _, _) => [FilteredGeneSets(d), SampleProfiles(d)]
    case NullScores(d, _) => [FilteredGeneSets(d), SampleProfiles(d)]
  }

  /** Depth in the dependency graph: raw artifacts are at level 0. */
  function Level(a: Artifact): nat {
    match a
    case SampleProfiles(_) => 0
    case GenePopularity(_) => 0
    case AllGeneSets => 0
    case ClinicalProfiles => 0
    case GeneModels(_) => 1
    case FilteredGeneSets(_) => 1
    case _ => 2
  }

  /** `a` and every artifact it is transitively derived from. */
  function Upstream(a: Artifact): set<Artifact>
    decreases Level(a), 1
  {
    {a} + UpstreamAll(Deps(a), Level(a))
  }

  function UpstreamAll(ds: seq<Artifact>, level: nat): set<Artifact>
    requires forall i :: 0 <= i < |ds| ==> Level(ds[i]) < level
    decreases level, 0, |ds|
  {
    if |ds| == 0 then {} else Upstream(ds[0]) + UpstreamAll(ds[1..], level)
  }

  /** The store after `load_*` of `a`: unchanged when `a` is stored, and the
      result of the stage's dump otherwise.  `compute` is the stage's own
      computation, which reads its inputs from the store it is given. */
  function Materialize<V>(store: map<Artifact, V>, a: Artifact, compute: (Artifact, map<Artifact, V>) -> V): (r: map<Artifact, V>)
    ensures a in r
    ensures Memo.Extends(store, r)
    ensures a in store ==> r == store
    ensures a !in store ==> forall i :: 0 <= i < |Deps(a)| ==> Deps(a)[i] in r
    ensures forall k :: k in r ==> k in store || k in Upstream(a)
    decreases Level(a), 2, 0
  {
    if a in store then store else Dump(store, a, compute)
  }

  /** `dump_*` of `a`: load the inputs, then write the computed artifact. */
  function Dump<V>(store: map<Artifact, V>, a: Artifact, compute: (Artifact, map<Artifact, V>) -> V): (r: map<Artifact, V>)
    requires a !in store
    ensures a in r
    ensures Memo.Extends(store, r)
    ensures forall i :: 0 <= i < |Deps(a)| ==> Deps(a)[i] in r
    ensures forall k :: k in r ==> k in store || k in Upstream(a)
    decreases Level(a), 1, 0
  {
    var inputs := MaterializeAll(store, Deps(a), Level(a), compute);
    UpstreamNotSelf(Deps(a), Level(a), a);
    inputs[a := compute(a, inputs)]
  }

  /** Load each artifact of `ds` in turn. */
  function MaterializeAll<V>(store: map<Artifact, V>, ds: seq<Artifact>, level: nat, compute: (Artifact, map<Artifact, V>) -> V): (r: map<Artifact, V>)
    requires forall i :: 0 <= i < |ds| ==> Level(ds[i]) < level
    ensures Memo.Extends(store, r)
    ensures forall i :: 0 <= i < |ds| ==> ds[i] in r
    ensures forall k :: k in r ==> k in store || k in UpstreamAll(ds, level)
    decreases level, 0, |ds|
  {
    if |ds| == 0 then store
    else
      var first := Materialize(store, ds[0], compute);
      var rest := MaterializeAll(first, ds[1..], level, compute);
      assert forall i :: 1 <= i < |ds| ==> ds[i] == ds[1..][i - 1];
      rest
  }

  /** Everything upstream of `ds` sits below `level`, so an artifact at
      `level` is never among them. */
  lemma UpstreamNotSelf(ds: seq<Artifact>, level: nat, a: Artifact)
    requires forall i :: 0 <= i < |ds| ==> Level(ds[i]) < level
    requires Level(a) == level
    ensures a !in UpstreamAll(ds, level)
  {
    UpstreamBelow(ds, level);
  }

  lemma {:induction false} UpstreamBelow(ds: seq<Artifact>, level: nat)
    requires forall i :: 0 <= i < |ds| ==> Level(ds[i]) < level
    ensures forall k :: k in UpstreamAll(ds, level) ==> Level(k) < level
    decreases level, 0, |ds|
  {
    if |ds| > 0 {
      UpstreamOfBelow(ds[0]);
      UpstreamBelow(ds[1..], level);
    }
  }

  lemma {:induction false} UpstreamOfBelow(a: Artifact)
    ensures forall k :: k in Upstream(a) ==> Level(k) <= Level(a)
    decreases Level(a), 1
  {
    UpstreamBelow(Deps(a), Level(a));
  }

  /** A `load_*` call is the memo protocol with the stage's dump: on a cold
      store it runs one dump, which rebuilds the missing inputs, and returns
      the freshly written artifact. */
  lemma LoadRebuilds<V>(store: map<Artifact, V>, a: Artifact, compute: (Artifact, map<Artifact, V>) -> V)
    ensures var dump := (s: map<Artifact, V>) => Materialize(s, a, compute);
            var r := Memo.Load(store, a, dump);
            && r.store == Materialize(store, a, compute)
            && r.dumps == (if a in store then 0 else 1)
            && (a !in store ==> forall i :: 0 <= i < |Deps(a)| ==> Deps(a)[i] in r.store)
  {
  }
}
