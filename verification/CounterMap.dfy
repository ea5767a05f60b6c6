/**
 * The windowed counter map with an emit cooldown and a key cap. Entries are shared objects: the
 * one `Increment` returns is the one in the map, and marking it emitted shows in the map.
 */
module CounterMap {
  import opened Common
  import opened Eviction

  datatype Entry = Entry(count: nat, windowStart: int, lastSeenAt: int, lastEmittedAt: Option<int>)

  datatype Config = Config(windowMs: int, emitCooldownMs: int, maxKeys: nat, staleMs: int)

  function Lookup(entries: map<string, Entry>, key: string): Option<Entry> {
    if key in entries then Some(entries[key]) else None
  }

  /** The entry of a key after one more hit: a new window, or one more in the running one. */
  function Bump(entry: Option<Entry>, now: int, windowMs: int): Entry {
    if entry.None? || now - entry.value.windowStart >= windowMs then Entry(1, now, now, None)
    else entry.value.(count := entry.value.count + 1, lastSeenAt := now)
  }

  predicate MayEmit(entry: Entry, now: int, emitCooldownMs: int) {
    now - (if entry.lastEmittedAt.Some? then entry.lastEmittedAt.value else 0) >= emitCooldownMs
  }

  predicate IsStale(entry: Entry, now: int, staleMs: int) {
    now - entry.lastSeenAt > staleMs
  }

  function DropStale(entries: map<string, Entry>, now: int, staleMs: int): map<string, Entry> {
    map k | k in entries && !IsStale(entries[k], now, staleMs) :: entries[k]
  }

  function LastSeen(entries: map<string, Entry>): map<string, int> {
    map k | k in entries :: entries[k].lastSeenAt
  }

  /**
   * What a cleanup may leave: all fresh entries if they fit the cap, and otherwise as many as fit,
   * none of them seen earlier than one that was evicted. No value changes.
   */
  ghost predicate IsCleanup(before: map<string, Entry>, after: map<string, Entry>, now: int, config: Config) {
    var unstale := DropStale(before, now, config.staleMs);
    && (forall k :: k in after ==> k in unstale && after[k] == unstale[k])
    && KeepsNewest(LastSeen(unstale), after.Keys, config.maxKeys)
  }

  /**
   * So a key that is gone was last seen too long ago, or the map is full of keys seen no earlier; and
   * no key is left that was last seen too long ago.
   */
  lemma GoneKeysAreStaleOrOldest(before: map<string, Entry>, after: map<string, Entry>, now: int, config: Config,
      k: string)
    requires IsCleanup(before, after, now, config)
    ensures k in after ==> k in before && after[k] == before[k] && now - after[k].lastSeenAt <= config.staleMs
    ensures k in before && k !in after ==>
              || now - before[k].lastSeenAt > config.staleMs
              || (|after.Keys| == config.maxKeys
                  && forall j :: j in after ==> before[k].lastSeenAt <= after[j].lastSeenAt)
  {
    var unstale := DropStale(before, now, config.staleMs);
    if k in unstale && k !in after {
      var stamps := LastSeen(unstale);
      assert stamps.Keys == unstale.Keys;
      assert after.Keys < stamps.Keys;
      SmallerThanWhole(after.Keys, stamps.Keys);
      forall j | j in after ensures before[k].lastSeenAt <= after[j].lastSeenAt {
        assert stamps[k] <= stamps[j];
      }
    }
  }

  lemma {:induction false} SmallerThanWhole(part: set<string>, whole: set<string>)
    requires part < whole
    ensures |part| < |whole|
  {
    assert whole == part + (whole - part);
    assert |whole| == |part| + |whole - part|;
    var k :| k in whole - part;
  }

  lemma OneKeyMore(entries: map<string, Entry>, key: string, entry: Entry)
    ensures |entries[key := entry]| <= |entries.Keys| + 1
  {
    assert entries[key := entry].Keys == entries.Keys + {key};
  }

  class CounterEntry {
    var count: nat
    var windowStart: int
    var lastSeenAt: int
    var lastEmittedAt: Option<int>

    constructor (now: int)
      ensures Value() == Entry(0, now, now, None)
    {
      count, windowStart, lastSeenAt, lastEmittedAt := 0, now, now, None;
    }

    function Value(): Entry
      reads this
    {
      Entry(count, windowStart, lastSeenAt, lastEmittedAt)
    }
  }

  class CooldownCounterMap {
    const config: Config
    var counters: map<string, CounterEntry>

    /** No two keys share an entry. */
    ghost predicate Valid()
      reads this
    {
      forall j, k :: j in counters && k in counters && j != k ==> counters[j] != counters[k]
    }

    ghost function View(): map<string, Entry>
      reads this, counters.Values
    {
      map k | k in counters :: counters[k].Value()
    }

    constructor (config: Config)
      ensures Valid() && View() == map[] && this.config == config
    {
      this.config := config;
      counters := map[];
    }

    method DropStaleEntries(now: int)
      requires Valid()
      modifies this`counters
      ensures Valid() && counters.Keys <= old(counters).Keys && forall k :: k in counters ==>
          counters[k] == old(counters)[k]
      ensures View() == DropStale(old(View()), now, config.staleMs)
      ensures forall k :: k in counters <==>
                k in old(View()) && now - old(View())[k].lastSeenAt <= config.staleMs
    {
      var keys := counters.Keys;
      while keys != {}
        invariant keys <= old(counters).Keys
        invariant forall k :: k in counters <==>
                    k in old(counters) && (k in keys || !IsStale(old(counters)[k].Value(), now, config.staleMs))
        invariant forall k :: k in counters ==> counters[k] == old(counters)[k]
        decreases keys
      {
        var k :| k in keys;
        keys := keys - {k};
        if now - counters[k].lastSeenAt > config.staleMs {
          counters := counters - {k};
        }
      }
    }

    /** Evict the least recently seen keys above the cap. */
    method EvictAboveCap()
      requires Valid()
      modifies this`counters
      ensures Valid() && counters.Keys <= old(counters).Keys && forall k :: k in counters ==>
          counters[k] == old(counters)[k]
      ensures KeepsNewest(LastSeen(old(View())), counters.Keys, config.maxKeys)
      ensures |old(counters)| <= config.maxKeys ==> counters == old(counters)
    {
      if |counters| <= config.maxKeys {
        assert LastSeen(View()).Keys == counters.Keys;
        return;
      }
      var stamps := map k | k in counters :: counters[k].lastSeenAt;
      assert stamps == LastSeen(View());
      var kept := DropOldest(stamps, config.maxKeys);
      counters := map k | k in kept :: counters[k];
      assert counters.Keys == kept;
    }

    /** Drop stale keys, then evict the least recently seen ones above the cap. */
    method Cleanup(now: int)
      requires Valid()
      modifies this`counters
      ensures Valid() && counters.Keys <= old(counters).Keys && forall k :: k in counters ==>
          counters[k] == old(counters)[k]
      ensures IsCleanup(old(View()), View(), now, config)
    {
      DropStaleEntries(now);
      EvictAboveCap();
      assert View().Keys == counters.Keys;
    }

    /** Count one hit of `key`, in a new entry if it has none or its window is over. */
    method CountHit(key: string, now: int) returns (entry: CounterEntry)
      requires Valid()
      modifies this`counters, counters.Values
      ensures Valid() && key in counters && entry == counters[key]
      ensures View() == old(View())[key := Bump(Lookup(old(View()), key), now, config.windowMs)]
    {
      if key !in counters || now - counters[key].windowStart >= config.windowMs {
        var started := new CounterEntry(now);
        counters := counters[key := started];
      }
      entry := counters[key];
      entry.count := entry.count + 1;
      entry.lastSeenAt := now;
    }

    /**
     * Clean up, then count one hit. `cleaned` is what the cleanup left; the returned entry is the
     * one now in the map under `key`, and the map holds at most one key above the cap.
     */
    method Increment(key: string, now: int) returns (entry: CounterEntry, ghost cleaned: map<string, Entry>)
      requires Valid()
      modifies this`counters, counters.Values
      ensures Valid() && key in counters && entry == counters[key]
      ensures IsCleanup(old(View()), cleaned, now, config)
      ensures View() == cleaned[key := Bump(Lookup(cleaned, key), now, config.windowMs)]
      ensures |View()| <= config.maxKeys + 1
    {
      Cleanup(now);
      cleaned := View();
      entry := CountHit(key, now);
      OneKeyMore(cleaned, key, Bump(Lookup(cleaned, key), now, config.windowMs));
    }

    method CanEmit(entry: CounterEntry, now: int) returns (may: bool)
      ensures may == MayEmit(entry.Value(), now, config.emitCooldownMs)
      ensures entry.lastEmittedAt.Some? ==> (may <==> now >= entry.lastEmittedAt.value + config.emitCooldownMs)
      ensures entry.lastEmittedAt.None? ==> (may <==> now >= config.emitCooldownMs)
    {
      var lastEmitted := if entry.lastEmittedAt.Some? then entry.lastEmittedAt.value else 0;
      may := now - lastEmitted >= config.emitCooldownMs;
    }

    /** Marking the entry of `key` changes that key's entry in the map and no other. */
    method MarkEmitted(entry: CounterEntry, now: int, ghost key: string)
      requires Valid() && key in counters && counters[key] == entry
      modifies entry
      ensures Valid()
      ensures View() == old(View())[key := old(View())[key].(lastEmittedAt := Some(now))]
    {
      entry.lastEmittedAt := Some(now);
    }
  }

  // ----- Runs.

  /** One use of the map: count a hit and, if the caller wants to and may, emit. */
  datatype Hit = Hit(key: string, now: int, wantsEmit: bool)

  datatype Seen = Seen(count: nat, emitted: bool)

  /** A hit on a map that has just been cleaned, or is never cleaned. */
  function Serve(entries: map<string, Entry>, hit: Hit, config: Config): (map<string, Entry>, Seen) {
    var bumped := Bump(Lookup(entries, hit.key), hit.now, config.windowMs);
    var emits := hit.wantsEmit && MayEmit(bumped, hit.now, config.emitCooldownMs);
    (entries[hit.key := if emits then bumped.(lastEmittedAt := Some(hit.now)) else bumped], Seen(bumped.count, emits))
  }

  ghost predicate IsTimeline(hits: seq<Hit>, clock: int)
    decreases |hits|
  {
    hits != [] ==> clock <= hits[0].now && IsTimeline(hits[1..], hits[0].now)
  }

  /** With room for every fresh key, the cleaning map's answers. */
  function RunCleaning(entries: map<string, Entry>, hits: seq<Hit>, config: Config): seq<Seen>
    decreases |hits|
  {
    if hits == [] then []
    else
      var (next, seen) := Serve(DropStale(entries, hits[0].now, config.staleMs), hits[0], config);
      [seen] + RunCleaning(next, hits[1..], config)
  }

  /** The answers of a map that never forgets. */
  function RunUncleaned(entries: map<string, Entry>, hits: seq<Hit>, config: Config): seq<Seen>
    decreases |hits|
  {
    if hits == [] then []
    else
      var (next, seen) := Serve(entries, hits[0], config);
      [seen] + RunUncleaned(next, hits[1..], config)
  }

  ghost predicate WindowsStartBeforeSeen(entries: map<string, Entry>, clock: int) {
    forall k :: k in entries ==> entries[k].windowStart <= entries[k].lastSeenAt <= clock
  }

  ghost predicate OnlyLacksStale(cleaned: map<string, Entry>, all: map<string, Entry>, clock: int, staleMs: int) {
    && (forall k :: k in cleaned ==> k in all && cleaned[k] == all[k])
    && (forall k :: k in all && k !in cleaned ==> IsStale(all[k], clock, staleMs))
  }

  /** A stale entry's window is over, so dropping it and restarting it come to the same. */
  lemma StaleEntryRestartsAnyway(entry: Entry, now: int, config: Config)
    requires IsStale(entry, now, config.staleMs) && entry.windowStart <= entry.lastSeenAt &&
        config.staleMs >= config.windowMs
    ensures Bump(Some(entry), now, config.windowMs) == Bump(None, now, config.windowMs)
  {
  }

  /**
   * Stale-key cleanup is invisible when a key goes stale no sooner than its window ends: on every
   * run, counts and emit decisions are those of a map that never drops a key.
   */
  lemma {:induction false} StaleCleanupIsInvisible(entries: map<string, Entry>, all: map<string, Entry>,
      hits: seq<Hit>, config: Config, clock: int)
    requires config.staleMs >= config.windowMs && WindowsStartBeforeSeen(all, clock)
    requires OnlyLacksStale(entries, all, clock, config.staleMs) && IsTimeline(hits, clock)
    ensures RunCleaning(entries, hits, config) == RunUncleaned(all, hits, config)
    decreases |hits|
  {
    if hits != [] {
      var hit := hits[0];
      var cleaned := DropStale(entries, hit.now, config.staleMs);
      assert OnlyLacksStale(cleaned, all, hit.now, config.staleMs);
      if hit.key in all && hit.key !in cleaned {
        StaleEntryRestartsAnyway(all[hit.key], hit.now, config);
      }
      assert Bump(Lookup(cleaned, hit.key), hit.now, config.windowMs) == Bump(Lookup(all, hit.key), hit.now,
          config.windowMs);
      StaleCleanupIsInvisible(Serve(cleaned, hit, config).0, Serve(all, hit, config).0, hits[1..], config, hit.now);
    }
  }

  /** The map after a run of a map that never forgets, from empty. */
  function After(hits: seq<Hit>, config: Config): map<string, Entry> {
    if hits == [] then map[] else Serve(After(hits[..|hits| - 1], config), hits[|hits| - 1], config).0
  }

  /** How many of the hits are on `key` at or after `since`. */
  function HitsSince(hits: seq<Hit>, key: string, since: int): nat {
    if hits == [] then 0
    else
      HitsSince(hits[..|hits| - 1], key, since)
      + if hits[|hits| - 1].key == key && hits[|hits| - 1].now >= since then 1 else 0
  }

  /** How many of the hits on `key` at or after `since` emitted. */
  function EmissionsSince(hits: seq<Hit>, key: string, since: int, config: Config): nat {
    if hits == [] then 0
    else
      var last := hits[|hits| - 1];
      EmissionsSince(hits[..|hits| - 1], key, since, config)
      + if last.key == key && last.now >= since && Serve(After(hits[..|hits| - 1], config), last,
          config).1.emitted then 1 else 0
  }

  ghost predicate InOrder(hits: seq<Hit>) {
    forall i, j :: 0 <= i < j < |hits| ==> hits[i].now <= hits[j].now
  }

  /** Hits before an instant later than all of them do not count. */
  lemma {:induction false} NoHitsInFuture(hits: seq<Hit>, key: string, since: int, config: Config)
    requires forall i :: 0 <= i < |hits| && hits[i].key == key ==> hits[i].now < since
    ensures HitsSince(hits, key, since) == 0 && EmissionsSince(hits, key, since, config) == 0
  {
    if hits != [] {
      NoHitsInFuture(hits[..|hits| - 1], key, since, config);
    }
  }

  /** With `n` emissions since `from`, each a cooldown after the one before, the last is at `last`. */
  ghost predicate IsSpaced(n: nat, from: int, last: Option<int>, upTo: int, cooldown: int) {
    && (n == 0 <==> last.None?)
    && (n > 0 ==> from + (n - 1) * cooldown <= last.value <= upTo)
  }

  lemma NextEmissionIsSpaced(n: nat, from: int, last: Option<int>, upTo: int, cooldown: int, now: int)
    requires IsSpaced(n, from, last, upTo, cooldown) && from <= now && (n > 0 ==> now - last.value >= cooldown)
    ensures IsSpaced(n + 1, from, Some(now), now, cooldown)
  {
    assert (n - 1) * cooldown + cooldown == n * cooldown;
  }

  /** What a run says of a key's count. */
  ghost predicate CountTells(hits: seq<Hit>, key: string, entry: Entry, config: Config) {
    && hits != []
    && entry.windowStart <= entry.lastSeenAt < entry.windowStart + config.windowMs
    && entry.lastSeenAt <= hits[|hits| - 1].now
    && (forall i :: 0 <= i < |hits| && hits[i].key == key ==> hits[i].now <= entry.lastSeenAt)
    && entry.count == HitsSince(hits, key, entry.windowStart)
  }

  /** What a run says of a key's emissions. */
  ghost predicate EmissionsTell(hits: seq<Hit>, key: string, entry: Entry, config: Config) {
    IsSpaced(EmissionsSince(hits, key, entry.windowStart, config), entry.windowStart, entry.lastEmittedAt,
             entry.lastSeenAt, config.emitCooldownMs)
  }

  ghost predicate EntryTells(hits: seq<Hit>, key: string, entry: Entry, config: Config) {
    CountTells(hits, key, entry, config) && EmissionsTell(hits, key, entry, config)
  }

  lemma {:induction false} EntriesTell(hits: seq<Hit>, key: string, config: Config)
    requires InOrder(hits) && config.windowMs > 0 && config.emitCooldownMs >= 0
    ensures key in After(hits, config) <==> exists i :: 0 <= i < |hits| && hits[i].key == key
    ensures key in After(hits, config) ==> EntryTells(hits, key, After(hits, config)[key], config)
  {
    if hits != [] {
      var earlier, last := hits[..|hits| - 1], hits[|hits| - 1];
      EntriesTell(earlier, key, config);
      if last.key == key {
        LastHitTells(hits, key, config);
        assert hits[|hits| - 1].key == key;
      } else {
        assert key in After(hits, config) <==> key in After(earlier, config);
        if i :| 0 <= i < |hits| && hits[i].key == key {
          assert earlier[i].key == key;
        }
      }
    }
  }

  /** The last hit opens a window: it is later than every earlier one of its key. */
  ghost predicate OpensWindow(hits: seq<Hit>, key: string, config: Config) {
    && hits != [] && hits[|hits| - 1].key == key
    && (forall i :: 0 <= i < |hits| - 1 && hits[i].key == key ==> hits[i].now < hits[|hits| - 1].now)
    && var before := After(hits[..|hits| - 1], config);
       key !in before || hits[|hits| - 1].now - before[key].windowStart >= config.windowMs
  }

  lemma OpeningHitStarts(hits: seq<Hit>, key: string, config: Config)
    requires OpensWindow(hits, key, config)
    ensures var now := hits[|hits| - 1].now;
            && key in After(hits, config)
            && After(hits, config)[key].(lastEmittedAt := None) == Entry(1, now, now, None)
            && (After(hits, config)[key].lastEmittedAt.Some? <==>
                  Serve(After(hits[..|hits| - 1], config), hits[|hits| - 1], config).1.emitted)
            && (After(hits, config)[key].lastEmittedAt.Some? ==> After(hits, config)[key].lastEmittedAt == Some(now))
            && HitsSince(hits, key, now) == 1
            && EmissionsSince(hits, key, now, config) == if After(hits, config)[key].lastEmittedAt.Some? then 1 else 0
  {
    NoHitsInFuture(hits[..|hits| - 1], key, hits[|hits| - 1].now, config);
  }

  lemma OpeningHitTells(hits: seq<Hit>, key: string, config: Config)
    requires InOrder(hits) && config.windowMs > 0 && OpensWindow(hits, key, config)
    ensures key in After(hits, config) && EntryTells(hits, key, After(hits, config)[key], config)
  {
    OpeningHitStarts(hits, key, config);
  }

  lemma RepeatedHitCounts(hits: seq<Hit>, key: string, entry: Entry, config: Config)
    requires InOrder(hits) && hits != [] && hits[|hits| - 1].key == key
    requires CountTells(hits[..|hits| - 1], key, entry, config)
    requires hits[|hits| - 1].now - entry.windowStart < config.windowMs
    ensures CountTells(hits, key, entry.(count := entry.count + 1, lastSeenAt := hits[|hits| - 1].now), config)
  {
    assert hits[..|hits| - 1][|hits| - 2] == hits[|hits| - 2];
  }

  lemma RepeatedHitSpaces(hits: seq<Hit>, key: string, entry: Entry, config: Config)
    requires hits != [] && hits[|hits| - 1].key == key
    requires Lookup(After(hits[..|hits| - 1], config), key) == Some(entry)
    requires EmissionsTell(hits[..|hits| - 1], key, entry, config)
    requires entry.windowStart <= entry.lastSeenAt <= hits[|hits| - 1].now < entry.windowStart + config.windowMs
    ensures EmissionsTell(hits, key, After(hits, config)[key], config)
  {
    var earlier, last := hits[..|hits| - 1], hits[|hits| - 1];
    var emissions := EmissionsSince(earlier, key, entry.windowStart, config);
    if Serve(After(earlier, config), last, config).1.emitted {
      NextEmissionIsSpaced(emissions, entry.windowStart, entry.lastEmittedAt, entry.lastSeenAt,
          config.emitCooldownMs, last.now);
    }
  }

  lemma RepeatedHitTells(hits: seq<Hit>, key: string, config: Config)
    requires InOrder(hits) && hits != [] && hits[|hits| - 1].key == key
    requires var before := After(hits[..|hits| - 1], config);
             && key in before && EntryTells(hits[..|hits| - 1], key, before[key], config)
             && hits[|hits| - 1].now - before[key].windowStart < config.windowMs
    ensures key in After(hits, config) && EntryTells(hits, key, After(hits, config)[key], config)
  {
    var entry := After(hits[..|hits| - 1], config)[key];
    assert hits[..|hits| - 1][|hits| - 2] == hits[|hits| - 2];
    RepeatedHitCounts(hits, key, entry, config);
    RepeatedHitSpaces(hits, key, entry, config);
  }

  lemma LastHitTells(hits: seq<Hit>, key: string, config: Config)
    requires InOrder(hits) && config.windowMs > 0 && config.emitCooldownMs >= 0
    requires hits != [] && hits[|hits| - 1].key == key
    requires var before := After(hits[..|hits| - 1], config);
             if key in before then
               && EntryTells(hits[..|hits| - 1], key, before[key], config)
               else forall i :: 0 <= i < |hits| - 1 ==> hits[i].key != key
    ensures key in After(hits, config) && EntryTells(hits, key, After(hits, config)[key], config)
  {
    var earlier, last := hits[..|hits| - 1], hits[|hits| - 1];
    var before := After(earlier, config);
    if key in before && last.now - before[key].windowStart < config.windowMs {
      RepeatedHitTells(hits, key, config);
    } else {
      forall i | 0 <= i < |hits| - 1 && hits[i].key == key ensures hits[i].now < last.now {
        assert earlier[i] == hits[i];
      }
      OpeningHitTells(hits, key, config);
    }
  }

  /** In every run, a key's count is the number of its hits since its window began. */
  lemma CountIsHitsInWindow(hits: seq<Hit>, key: string, config: Config)
    requires InOrder(hits) && config.windowMs > 0 && config.emitCooldownMs >= 0
    requires key in After(hits, config)
    ensures var entry := After(hits, config)[key];
            entry.count == HitsSince(hits, key, entry.windowStart)
  {
    EntriesTell(hits, key, config);
  }

  /** In every run, the emissions of a key within one window number at most ceil(window / cooldown). */
  lemma EmissionsPerWindowAreBounded(hits: seq<Hit>, key: string, config: Config)
    requires InOrder(hits) && config.windowMs > 0 && config.emitCooldownMs >= 1
    requires key in After(hits, config)
    ensures EmissionsSince(hits, key, After(hits, config)[key].windowStart, config)
            <= (config.windowMs + config.emitCooldownMs - 1) / config.emitCooldownMs
  {
    EntriesTell(hits, key, config);
    var emissions := EmissionsSince(hits, key, After(hits, config)[key].windowStart, config);
    if emissions > 0 {
      CeilingBounds(emissions, config.windowMs, config.emitCooldownMs);
    }
  }

  lemma ProductAtLeast(x: int, step: int)
    requires x >= 1 && step >= 1
    ensures x * step >= step
  {
    assert x * step == (x - 1) * step + step;
  }

  lemma CeilingBounds(n: nat, total: int, step: int)
    requires step >= 1 && (n - 1) * step < total
    ensures n <= (total + step - 1) / step
  {
    var q := (total + step - 1) / step;
    assert (n - 1) * step == n * step - step;
    assert (n - q) * step == n * step - q * step;
    if n - q >= 1 {
      ProductAtLeast(n - q, step);
    }
  }

  /**
   * The hit that opens a new window forgets the last emission. So after an emission at `last` the
   * cooldown is kept at the next hit exactly when that hit falls in the same window, or late enough,
   * or earlier than a cooldown after the epoch.
   */
  lemma CooldownKeptExactlyWhen(entry: Entry, last: int, now: int, config: Config)
    requires entry.lastEmittedAt == Some(last)
    ensures var hit := Bump(Some(entry), now, config.windowMs);
            (MayEmit(hit, now, config.emitCooldownMs) ==> now - last >= config.emitCooldownMs) <==>
              || now - entry.windowStart < config.windowMs
              || now - last >= config.emitCooldownMs
              || now < config.emitCooldownMs
  {
  }

  /**
   * A run that shows it: a hit opens a window, one emits a millisecond before the window ends, and
   * the next emits as it ends. The cooldown may be anything up to the clock.
   */
  lemma WindowResetForgetsEmission(key: string, config: Config, start: int)
    requires config.windowMs >= 1 && config.staleMs >= config.windowMs &&
        2 <= config.emitCooldownMs < start + config.windowMs
    ensures var end := start + config.windowMs;
            var hits := [Hit(key, start, false), Hit(key, end - 1, true), Hit(key, end, true)];
            && IsTimeline(hits, start)
            && RunCleaning(map[], hits, config) == [Seen(1, false), Seen(2, true), Seen(1, true)]
            && end - (end - 1) < config.emitCooldownMs
  {
    var end := start + config.windowMs;
    var second, third := Hit(key, end - 1, true), Hit(key, end, true);
    var hits := [Hit(key, start, false), second, third];
    assert hits[1..] == [second, third] && [second, third][1..] == [third];
    assert IsTimeline([third], end - 1) && IsTimeline([second, third], start);
    var m1 := Serve(map[], hits[0], config).0;
    var m2 := Serve(m1, second, config).0;
    assert m1[key] == Entry(1, start, start, None);
    assert m2[key] == Entry(2, start, end - 1, Some(end - 1));
    StaleCleanupIsInvisible(map[], map[], hits, config, start);
    assert RunUncleaned(m2, [third], config) == [Seen(1, true)];
    assert RunUncleaned(m1, [second, third], config) == [Seen(2, true)] + RunUncleaned(m2, [third], config);
  }
}
