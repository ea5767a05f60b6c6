/** Per-key emit stamps: a key may be consumed again once the cooldown has passed. */
module EmitCooldown {
  import opened Common
  import opened Eviction

  /** The last emission of a key; a key without a stamp counts as last emitted at instant 0. */
  function LastEmitted(stamps: map<string, int>, key: string): int {
    if key in stamps then stamps[key] else 0
  }

  function TryConsume(stamps: map<string, int>, key: string, now: int, cooldownMs: int): (map<string, int>, bool) {
    if now - LastEmitted(stamps, key) < cooldownMs then (stamps, false) else (stamps[key := now], true)
  }

  function DropOlderThan(stamps: map<string, int>, now: int, maxAgeMs: int): map<string, int> {
    map k | k in stamps && now - stamps[k] <= maxAgeMs :: stamps[k]
  }

  class EmitStamps {
    var stamps: map<string, int>

    constructor ()
      ensures stamps == map[]
    {
      stamps := map[];
    }

    method TryConsumeEmitCooldown(key: string, now: int, cooldownMs: int) returns (emit: bool)
      modifies this
      ensures (stamps, emit) == TryConsume(old(stamps), key, now, cooldownMs)
      ensures emit <==> now >= cooldownMs + if key in old(stamps) then old(stamps)[key] else 0
      ensures stamps == if emit then old(stamps)[key := now] else old(stamps)
    {
      var last := if key in stamps then stamps[key] else 0;
      if now - last < cooldownMs {
        return false;
      }
      stamps := stamps[key := now];
      return true;
    }

    method CleanupEmitCooldownStamps(now: int, maxAgeMs: int)
      modifies this
      ensures stamps == DropOlderThan(old(stamps), now, maxAgeMs)
      ensures forall k :: k in stamps <==> k in old(stamps) && now <= old(stamps)[k] + maxAgeMs
      ensures forall k :: k in stamps ==> stamps[k] == old(stamps)[k]
    {
      var keys := stamps.Keys;
      while keys != {}
        invariant keys <= old(stamps).Keys
        invariant forall k :: k in stamps <==> k in old(stamps) && (k in keys || now - old(stamps)[k] <= maxAgeMs)
        invariant forall k :: k in stamps ==> stamps[k] == old(stamps)[k]
        decreases keys
      {
        var k :| k in keys;
        keys := keys - {k};
        if now - stamps[k] > maxAgeMs {
          stamps := stamps - {k};
        }
      }
    }

    method TrimEmitCooldownStamps(maxKeys: nat)
      modifies this
      ensures KeepsNewest(old(stamps), stamps.Keys, maxKeys) && forall k :: k in stamps ==> stamps[k] == old(stamps)[k]
      ensures |old(stamps)| <= maxKeys ==> stamps == old(stamps)
    {
      if |stamps| <= maxKeys {
        return;
      }
      var kept := DropOldest(stamps, maxKeys);
      stamps := map k | k in kept :: stamps[k];
      assert stamps.Keys == kept;
    }
  }

  // ----- Runs without trimming.

  datatype Event = Try(key: string, now: int) | Clean(now: int)

  ghost predicate IsTimeline(events: seq<Event>, clock: int)
    decreases |events|
  {
    events != [] ==> clock <= events[0].now && IsTimeline(events[1..], events[0].now)
  }

  /** Whether each event emitted. */
  function Run(stamps: map<string, int>, events: seq<Event>, cooldownMs: int, maxAgeMs: int): seq<bool>
    decreases |events|
  {
    if events == [] then []
    else
      match events[0]
      case Try(key, now) =>
        var (next, emit) := TryConsume(stamps, key, now, cooldownMs);
        [emit] + Run(next, events[1..], cooldownMs, maxAgeMs)
      case Clean(now) => [false] + Run(DropOlderThan(stamps, now, maxAgeMs), events[1..], cooldownMs, maxAgeMs)
  }

  /** The same events on stamps that are never dropped. */
  function RunUncleaned(stamps: map<string, int>, events: seq<Event>, cooldownMs: int): seq<bool>
    decreases |events|
  {
    if events == [] then []
    else
      match events[0]
      case Try(key, now) =>
        var (next, emit) := TryConsume(stamps, key, now, cooldownMs);
        [emit] + RunUncleaned(next, events[1..], cooldownMs)
      case Clean(_) => [false] + RunUncleaned(stamps, events[1..], cooldownMs)
  }

  ghost predicate OnlyLacksOld(cleaned: map<string, int>, all: map<string, int>, clock: int, maxAgeMs: int) {
    && (forall k :: k in cleaned ==> k in all && cleaned[k] == all[k])
    && (forall k :: k in all && k !in cleaned ==> clock - all[k] > maxAgeMs)
  }

  /** Dropping old stamps is invisible when a stamp that is old has its cooldown behind it. */
  lemma {:induction false} StampCleanupIsInvisible(cleaned: map<string, int>, all: map<string, int>, events: seq<Event>,
                                                   cooldownMs: int, maxAgeMs: int, clock: int)
    requires maxAgeMs + 1 >= cooldownMs && OnlyLacksOld(cleaned, all, clock, maxAgeMs)
    requires IsTimeline(events, clock) && clock >= 0 && forall k :: k in all ==> all[k] >= 0
    ensures Run(cleaned, events, cooldownMs, maxAgeMs) == RunUncleaned(all, events, cooldownMs)
    decreases |events|
  {
    if events != [] {
      match events[0]
      case Try(key, now) =>
        StampCleanupIsInvisible(TryConsume(cleaned, key, now, cooldownMs).0, TryConsume(all, key, now, cooldownMs).0,
                                events[1..], cooldownMs, maxAgeMs, now);
      case Clean(now) =>
        StampCleanupIsInvisible(DropOlderThan(cleaned, now, maxAgeMs), all, events[1..], cooldownMs, maxAgeMs, now);
    }
  }

  lemma {:induction false} RunLength(stamps: map<string, int>, events: seq<Event>, cooldownMs: int)
    ensures |RunUncleaned(stamps, events, cooldownMs)| == |events|
    decreases |events|
  {
    if events != [] {
      match events[0]
      case Try(key, now) => RunLength(TryConsume(stamps, key, now, cooldownMs).0, events[1..], cooldownMs);
      case Clean(_) => RunLength(stamps, events[1..], cooldownMs);
    }
  }

  /** After an emission of `key` stamped `last`, every later emission of it comes a cooldown later. */
  lemma {:induction false} EmissionsWaitAfterStamp(stamps: map<string, int>, events: seq<Event>, cooldownMs: int,
      key: string, last: int, clock: int)
    requires key in stamps && stamps[key] >= last && IsTimeline(events, clock) && cooldownMs >= 0
    ensures var emits := RunUncleaned(stamps, events, cooldownMs);
            && |emits| == |events|
            && forall i :: 0 <= i < |events| && events[i].Try? && events[i].key == key && emits[i] ==>
                events[i].now - last >= cooldownMs
    decreases |events|
  {
    RunLength(stamps, events, cooldownMs);
    if events != [] {
      var next := if events[0].Try? then TryConsume(stamps, events[0].key, events[0].now, cooldownMs).0 else stamps;
      EmissionsWaitAfterStamp(next, events[1..], cooldownMs, key, last, events[0].now);
      var emits, rest := RunUncleaned(stamps, events, cooldownMs), RunUncleaned(next, events[1..], cooldownMs);
      assert emits[1..] == rest;
      forall i | 0 <= i < |events| && events[i].Try? && events[i].key == key && emits[i]
        ensures events[i].now - last >= cooldownMs
      {
        if i > 0 {
          assert events[1..][i - 1] == events[i] && rest[i - 1] == emits[i];
        }
      }
    }
  }

  lemma {:induction false} UncleanedEmissionsAreSpaced(stamps: map<string, int>, events: seq<Event>, cooldownMs: int,
      clock: int, i: nat, j: nat, key: string)
    requires IsTimeline(events, clock) && cooldownMs >= 0 && i < j < |events|
    requires events[i].Try? && events[j].Try? && events[i].key == key == events[j].key
    ensures var emits := RunUncleaned(stamps, events, cooldownMs);
            |emits| == |events| && (emits[i] && emits[j] ==> events[j].now - events[i].now >= cooldownMs)
    decreases |events|
  {
    RunLength(stamps, events, cooldownMs);
    var next := if events[0].Try? then TryConsume(stamps, events[0].key, events[0].now, cooldownMs).0 else stamps;
    var emits, rest := RunUncleaned(stamps, events, cooldownMs), RunUncleaned(next, events[1..], cooldownMs);
    assert emits[1..] == rest;
    assert events[1..][j - 1] == events[j];
    RunLength(next, events[1..], cooldownMs);
    assert rest[j - 1] == emits[j];
    if i > 0 {
      assert events[1..][i - 1] == events[i] && rest[i - 1] == emits[i];
      UncleanedEmissionsAreSpaced(next, events[1..], cooldownMs, events[0].now, i - 1, j - 1, key);
    } else if emits[0] {
      EmissionsWaitAfterStamp(next, events[1..], cooldownMs, key, events[0].now, events[0].now);
    }
  }

  /** Any two emissions of one key are a cooldown apart. */
  ghost predicate IsSpaced(events: seq<Event>, emits: seq<bool>, cooldownMs: int) {
    && |emits| == |events|
    && (forall i, j ::
          0 <= i < j < |events| && events[i].Try? && events[j].Try? && events[i].key == events[j].key && emits[i] &&
              emits[j] ==>
            events[j].now - events[i].now >= cooldownMs)
  }

  /** In runs with cleanups but no trimming emissions are spaced, if no stamp is dropped before its cooldown is over. */
  lemma EmissionsAreSpaced(stamps: map<string, int>, events: seq<Event>, cooldownMs: int, maxAgeMs: int, clock: int)
    requires 0 <= cooldownMs <= maxAgeMs + 1
    requires IsTimeline(events, clock) && clock >= 0 && forall k :: k in stamps ==> stamps[k] >= 0
    ensures IsSpaced(events, Run(stamps, events, cooldownMs, maxAgeMs), cooldownMs)
  {
    StampCleanupIsInvisible(stamps, stamps, events, cooldownMs, maxAgeMs, clock);
    RunLength(stamps, events, cooldownMs);
    var emits := Run(stamps, events, cooldownMs, maxAgeMs);
    forall i, j | 0 <= i < j < |events| && events[i].Try? && events[j].Try? && events[i].key == events[j].key
                  && emits[i] && emits[j]
      ensures events[j].now - events[i].now >= cooldownMs
    {
      UncleanedEmissionsAreSpaced(stamps, events, cooldownMs, clock, i, j, events[i].key);
    }
  }

  /** Otherwise a cleanup between two tries, one millisecond after the age, lets both emit. */
  lemma EarlyCleanupForgetsEmission(key: string, cooldownMs: int, maxAgeMs: int, start: int)
    requires 0 <= maxAgeMs && maxAgeMs + 1 < cooldownMs <= start
    ensures var again := start + maxAgeMs + 1;
            var events := [Try(key, start), Clean(again), Try(key, again)];
            && IsTimeline(events, start)
            && Run(map[], events, cooldownMs, maxAgeMs) == [true, false, true]
            && again - start < cooldownMs
  {
    var again := start + maxAgeMs + 1;
    var events := [Try(key, start), Clean(again), Try(key, again)];
    var stamped: map<string, int> := map[][key := start];
    assert events[1..] == [Clean(again), Try(key, again)] && events[1..][1..] == [Try(key, again)];
    assert IsTimeline([Try(key, again)], again) && IsTimeline(events[1..], start);
    assert DropOlderThan(stamped, again, maxAgeMs) == map[];
    assert Run(map[], [Try(key, again)], cooldownMs, maxAgeMs) == [true];
    assert Run(stamped, events[1..], cooldownMs, maxAgeMs) == [false, true];
  }

  ghost predicate AlwaysSpaced(cooldownMs: int, maxAgeMs: int) {
    forall events, clock :: clock >= 0 && IsTimeline(events, clock) ==>
        IsSpaced(events, Run(map[], events, cooldownMs, maxAgeMs), cooldownMs)
  }

  /** So emissions are spaced in every run from empty exactly when no stamp is dropped before its cooldown is over. */
  lemma EmissionsAreSpacedExactlyWhen(cooldownMs: int, maxAgeMs: int)
    requires cooldownMs >= 0 && maxAgeMs >= 0
    ensures AlwaysSpaced(cooldownMs, maxAgeMs) <==> cooldownMs <= maxAgeMs + 1
  {
    if cooldownMs <= maxAgeMs + 1 {
      forall events, clock | clock >= 0 && IsTimeline(events, clock)
        ensures IsSpaced(events, Run(map[], events, cooldownMs, maxAgeMs), cooldownMs)
      {
        EmissionsAreSpaced(map[], events, cooldownMs, maxAgeMs, clock);
      }
    } else {
      EarlyCleanupForgetsEmission("", cooldownMs, maxAgeMs, cooldownMs);
      var again := cooldownMs + maxAgeMs + 1;
      var events := [Try("", cooldownMs), Clean(again), Try("", again)];
      CloseEmissionsAreNotSpaced(events, cooldownMs);
      assert IsTimeline(events, cooldownMs) && !IsSpaced(events, Run(map[], events, cooldownMs, maxAgeMs), cooldownMs);
    }
  }

  lemma CloseEmissionsAreNotSpaced(events: seq<Event>, cooldownMs: int)
    requires |events| == 3 && events[0].Try? && events[2].Try? && events[0].key == events[2].key
    requires events[2].now - events[0].now < cooldownMs
    ensures !IsSpaced(events, [true, false, true], cooldownMs)
  {
    var emits := [true, false, true];
    assert emits[0] && emits[2];
  }
}
