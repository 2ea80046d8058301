/** The "compute if absent, else load" protocol every `load_*` function of
    the pipeline follows, over an abstract artifact store (a map from
    artifact key to artifact, standing for the pickle files on disk) and the
    in-process `lru_cache` in front of it (a second map, plain memoisation). */
module Memo {

  /** The outcome of one load: the artifact, the store afterwards, and how
      many times the stage's `dump_*` ran. */
  datatype Loaded<K, V> = Loaded(value: V, store: map<K, V>, dumps: nat)

  /** `after` keeps every entry of `before` unchanged. */
  ghost predicate Extends<K, V>(before: map<K, V>, after: map<K, V>) {
    forall k :: k in before ==> k in after && after[k] == before[k]
  }

  /** One `load_*` call: if the key is stored, return it; otherwise run
      `dump` (which writes the key, possibly after loading its own inputs)
      and call the loader again.  The termination measure is the proof that
      the recursion is at most one level deep: after `dump` the key is
      present and the second call takes the first branch. */
  function Load<K, V>(store: map<K, V>, key: K, dump: map<K, V> -> map<K, V>): (r: Loaded<K, V>)
    requires key !in store ==> key in dump(store)
    ensures key in r.store && r.value == r.store[key]
    ensures key in store ==> r.value == store[key] && r.store == store && r.dumps == 0
    ensures key !in store ==> r.store == dump(store) && r.dumps == 1
    decreases if key in store then 0 else 1
  {
    if key in store then Loaded(store[key], store, 0)
    else
      var again := Load(dump(store), key, dump);
      Loaded(again.value, again.store, again.dumps + 1)
  }

  /** Loading a key twice in a row: the second call finds it, returns the
      same artifact and runs no `dump`. */
  lemma LoadTwice<K, V>(store: map<K, V>, key: K, dump: map<K, V> -> map<K, V>)
    requires key !in store ==> key in dump(store)
    ensures var first := Load(store, key, dump);
            var second := Load(first.store, key, dump);
            second.value == first.value && second.store == first.store && second.dumps == 0
  {
  }

  /** The in-process cache of the decorated loaders together with the store. */
  datatype Session<K, V> = Session(cache: map<K, V>, store: map<K, V>)

  /** Every cached artifact is the one the store holds under the same key. */
  ghost predicate Coherent<K, V>(s: Session<K, V>) {
    forall k :: k in s.cache ==> k in s.store && s.store[k] == s.cache[k]
  }

  /** `@lru_cache` around `load_*`: a cached call returns the remembered
      artifact without touching the store; an uncached one runs the loader
      and remembers its result. */
  function CachedLoad<K, V>(s: Session<K, V>, key: K, dump: map<K, V> -> map<K, V>): (r: (V, Session<K, V>, nat))
    requires key !in s.cache && key !in s.store ==> key in dump(s.store)
    ensures key in s.cache ==> r == (s.cache[key], s, 0)
    ensures key !in s.cache ==> r.1.cache == s.cache[key := r.0] && key in r.1.store && r.1.store[key] == r.0
    ensures key !in s.cache && key in s.store ==> r == (s.store[key], Session(s.cache[key := s.store[key]], s.store), 0)
    ensures r.2 <= 1
  {
    if key in s.cache then (s.cache[key], s, 0)
    else
      var loaded := Load(s.store, key, dump);
      (loaded.value, Session(s.cache[key := loaded.value], loaded.store), loaded.dumps)
  }

  /** A cached load keeps the cache in step with the store, provided the
      stage's dump only adds artifacts (stages never rewrite an artifact
      they did not produce). */
  lemma CachedLoadCoherent<K, V>(s: Session<K, V>, key: K, dump: map<K, V> -> map<K, V>)
    requires key !in s.cache && key !in s.store ==> key in dump(s.store)
    requires Coherent(s) && Extends(s.store, dump(s.store))
    ensures Coherent(CachedLoad(s, key, dump).1)
  {
  }

  /** Cache coherence over two calls: the second call returns the same
      artifact, changes nothing and computes nothing. */
  lemma CachedLoadTwice<K, V>(s: Session<K, V>, key: K, dump: map<K, V> -> map<K, V>)
    requires key !in s.cache && key !in s.store ==> key in dump(s.store)
    ensures var first := CachedLoad(s, key, dump);
            var second := CachedLoad(first.1, key, dump);
            second.0 == first.0 && second.1 == first.1 && second.2 == 0
  {
  }
}
