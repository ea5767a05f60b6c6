/** Trimming a keyed map to a cap by dropping the keys with the smallest stamps. */
module Eviction {

  /** `kept` is as much of the map as fits the cap, and nothing kept is older than something dropped. */
  ghost predicate KeepsNewest(stamps: map<string, int>, kept: set<string>, maxKeys: nat) {
    && kept <= stamps.Keys
    && |kept| == (if |stamps| <= maxKeys then |stamps| else maxKeys)
    && (forall gone, stays :: gone in stamps && gone !in kept && stays in kept ==> stamps[gone] <= stamps[stays])
  }

  /** A key with the smallest stamp: the head of the entries sorted by stamp. */
  method Oldest(stamps: map<string, int>, keys: set<string>) returns (oldest: string)
    requires keys != {} && keys <= stamps.Keys
    ensures oldest in keys && forall k :: k in keys ==> stamps[oldest] <= stamps[k]
  {
    oldest :| oldest in keys;
    var rest := keys;
    while rest != {}
      invariant rest <= keys && oldest in keys
      invariant forall k :: k in keys && k !in rest ==> stamps[oldest] <= stamps[k]
      decreases rest
    {
      var k :| k in rest;
      rest := rest - {k};
      if stamps[k] < stamps[oldest] {
        oldest := k;
      }
    }
  }

  method DropOldest(stamps: map<string, int>, maxKeys: nat) returns (kept: set<string>)
    ensures KeepsNewest(stamps, kept, maxKeys)
  {
    kept := stamps.Keys;
    while |kept| > maxKeys
      invariant kept <= stamps.Keys
      invariant |kept| == |stamps| || |kept| >= maxKeys
      invariant |stamps| <= maxKeys ==> kept == stamps.Keys
      invariant forall gone, stays :: gone in stamps && gone !in kept && stays in kept ==> stamps[gone] <= stamps[stays]
    {
      var oldest := Oldest(stamps, kept);
      kept := kept - {oldest};
    }
  }
}
