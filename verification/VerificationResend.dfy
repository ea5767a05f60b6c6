/** Verification email stamps per actor, cleaned and trimmed together with the emit stamps. */
module VerificationResend {
  import opened Common
  import opened Eviction
  import EmitCooldown

  const WINDOW_MS := 10 * 60 * 1000
  const MIN_INTERVAL_MS := 60 * 1000
  const MAX_KEYS := 5000

  datatype ResendStamp = ResendStamp(lastSentAt: int, lastSeenAt: int)

  predicate IsAmplified(stamps: map<string, ResendStamp>, key: string, now: int) {
    key in stamps && now - stamps[key].lastSentAt < MIN_INTERVAL_MS
  }

  function LastSeen(stamps: map<string, ResendStamp>): map<string, int> {
    map k | k in stamps :: stamps[k].lastSeenAt
  }

  function DropUnseen(stamps: map<string, ResendStamp>, now: int): map<string, ResendStamp> {
    map k | k in stamps && now - stamps[k].lastSeenAt <= 2 * WINDOW_MS :: stamps[k]
  }

  class ResendMaps {
    var lastSentByActor: map<string, ResendStamp>
    const resendEmitCooldown: EmitCooldown.EmitStamps

    constructor ()
      ensures lastSentByActor == map[] && fresh(resendEmitCooldown) && resendEmitCooldown.stamps == map[]
    {
      lastSentByActor := map[];
      resendEmitCooldown := new EmitCooldown.EmitStamps();
    }

    method DropUnseenActors(now: int)
      modifies this
      ensures lastSentByActor == DropUnseen(old(lastSentByActor), now)
      ensures forall k :: k in lastSentByActor <==>
                k in old(lastSentByActor) && now <= old(lastSentByActor)[k].lastSeenAt + 1_200_000
      ensures forall k :: k in lastSentByActor ==> lastSentByActor[k] == old(lastSentByActor)[k]
    {
      var keys := lastSentByActor.Keys;
      while keys != {}
        invariant keys <= old(lastSentByActor).Keys
        invariant forall k :: k in lastSentByActor <==>
                    k in old(lastSentByActor) && (k in keys ||
                        now - old(lastSentByActor)[k].lastSeenAt <= 2 * WINDOW_MS)
        invariant forall k :: k in lastSentByActor ==> lastSentByActor[k] == old(lastSentByActor)[k]
        decreases keys
      {
        var k :| k in keys;
        keys := keys - {k};
        if now - lastSentByActor[k].lastSeenAt > 2 * WINDOW_MS {
          lastSentByActor := lastSentByActor - {k};
        }
      }
    }

    /** Both maps: first drop what is old, then trim what is above the cap. */
    method CleanupVerificationResendMaps(now: int)
      modifies this, resendEmitCooldown
      ensures var unseen := DropUnseen(old(lastSentByActor), now);
              && KeepsNewest(LastSeen(unseen), lastSentByActor.Keys, MAX_KEYS)
              && (forall k :: k in lastSentByActor ==> lastSentByActor[k] == unseen[k])
              && (|unseen| <= MAX_KEYS ==> lastSentByActor == unseen)
      ensures var young := EmitCooldown.DropOlderThan(old(resendEmitCooldown.stamps), now, 2 * WINDOW_MS);
              && KeepsNewest(young, resendEmitCooldown.stamps.Keys, MAX_KEYS)
              && (|young| <= MAX_KEYS ==> resendEmitCooldown.stamps == young)
    {
      DropUnseenActors(now);
      resendEmitCooldown.CleanupEmitCooldownStamps(now, 2 * WINDOW_MS);
      assert LastSeen(lastSentByActor).Keys == lastSentByActor.Keys;
      if |lastSentByActor| > MAX_KEYS {
        var kept := DropOldest(LastSeen(lastSentByActor), MAX_KEYS);
        lastSentByActor := map k | k in kept :: lastSentByActor[k];
        assert lastSentByActor.Keys == kept;
      }
      resendEmitCooldown.TrimEmitCooldownStamps(MAX_KEYS);
    }

    method TouchVerificationEmailStamp(key: string, now: int) returns (touched: Option<ResendStamp>)
      modifies this
      ensures touched ==
              if key in old(lastSentByActor) then Some(old(lastSentByActor)[key].(lastSeenAt := now)) else None
      ensures lastSentByActor ==
              if touched.Some? then old(lastSentByActor)[key := touched.value] else old(lastSentByActor)
    {
      if key !in lastSentByActor {
        return None;
      }
      lastSentByActor := lastSentByActor[key := lastSentByActor[key].(lastSeenAt := now)];
      return Some(lastSentByActor[key]);
    }

    method RecordVerificationEmailSent(key: string, now: int)
      modifies this
      ensures lastSentByActor == old(lastSentByActor)[key := ResendStamp(now, now)]
    {
      lastSentByActor := lastSentByActor[key := ResendStamp(now, now)];
    }
  }

  // ----- One actor's sends below the cap, with the awaits between them.

  /** The part of the map that one actor's requests read and write. */
  function StampOf(stamps: map<string, ResendStamp>, key: string): Option<ResendStamp> {
    if key in stamps then Some(stamps[key]) else None
  }

  /**
   * What happens to one actor. Start: a request passes its check, or a send that makes no check
   * begins, and reads the clock. Record: the email is out and the stamp is set to that reading.
   * Touch: a request is refused, or a send fails. Clean: a request of any actor cleans up.
   */
  datatype Step = Touch | Clean | Start(id: nat, checked: bool) | Record(id: nat)

  /** The actor's stamp, and the clock readings of the sends under way. */
  datatype World = World(stamp: Option<ResendStamp>, sending: map<nat, int>)

  function Touched(stamp: Option<ResendStamp>, now: int): Option<ResendStamp> {
    if stamp.Some? then Some(stamp.value.(lastSeenAt := now)) else None
  }

  function Next(w: World, step: Step, now: int): World {
    match step
    case Touch => w.(stamp := Touched(w.stamp, now))
    case Clean => if w.stamp.Some? && now - w.stamp.value.lastSeenAt > 2 * WINDOW_MS then w.(stamp := None) else w
    case Start(id, _) => World(Touched(w.stamp, now), w.sending[id := now])
    case Record(id) =>
      if id in w.sending then World(Some(ResendStamp(w.sending[id], w.sending[id])), w.sending - {id}) else w
  }

  predicate PassesCheck(w: World, now: int) {
    w.stamp.None? || now - w.stamp.value.lastSentAt >= MIN_INTERVAL_MS
  }

  /** The steps do to the actor's stamp what the methods do to the map; another actor's record leaves it alone. */
  lemma StepsAreTheMethods(stamps: map<string, ResendStamp>, key: string, other: string, now: int, at: int)
    ensures var w := World(StampOf(stamps, key), map[0 := at]);
            && (IsAmplified(stamps, key, now) <==> !PassesCheck(w, now))
            && StampOf(DropUnseen(stamps, now), key) == Next(w, Clean, now).stamp
            && StampOf(stamps[key := ResendStamp(at, at)], key) == Next(w, Record(0), now).stamp
            && (key in stamps ==>
                  StampOf(stamps[key := stamps[key].(lastSeenAt := now)], key) == Next(w, Touch, now).stamp)
            && (key != other ==> StampOf(stamps[other := ResendStamp(at, at)], key) == StampOf(stamps, key))
  {
  }

  function After(steps: seq<Step>, times: seq<int>): World
    requires |steps| == |times|
  {
    if steps == [] then World(None, map[])
    else
      var n := |steps| - 1;
      Next(After(steps[..n], times[..n]), steps[n], times[n])
  }

  /** The sends under way after some steps, whatever the clock. */
  function Sending(steps: seq<Step>): set<nat> {
    if steps == [] then {}
    else
      var n := |steps| - 1;
      match steps[n]
      case Start(id, _) => Sending(steps[..n]) + {id}
      case Record(id) => Sending(steps[..n]) - {id}
      case _ => Sending(steps[..n])
  }

  /** Sends have ids of their own, and only a send under way is recorded. */
  ghost predicate IsSchedule(steps: seq<Step>) {
    steps == [] ||
    var n := |steps| - 1;
    && IsSchedule(steps[..n])
    && (steps[n].Start? ==> steps[n].id !in Sending(steps[..n]))
    && (steps[n].Record? ==> steps[n].id in Sending(steps[..n]))
  }

  /** The instants of a run: they do not step back, and every checked start passes its check. */
  ghost predicate IsTiming(steps: seq<Step>, times: seq<int>)
    requires |steps| == |times|
  {
    steps == [] ||
    var n := |steps| - 1;
    && IsTiming(steps[..n], times[..n])
    && (n > 0 ==> times[n - 1] <= times[n])
    && (steps[n].Start? && steps[n].checked ==> PassesCheck(After(steps[..n], times[..n]), times[n]))
  }

  /** Two sends begin at least the minimum interval apart. */
  ghost predicate IsSpaced(steps: seq<Step>, times: seq<int>)
    requires |steps| == |times|
  {
    forall i, j :: 0 <= i < j < |steps| && steps[i].Start? && steps[j].Start? ==> times[j] - times[i] >= MIN_INTERVAL_MS
  }

  ghost predicate HasStart(steps: seq<Step>) {
    exists i :: 0 <= i < |steps| && steps[i].Start?
  }

  /** No send begins while another is under way, and after the first one every send is checked. */
  ghost predicate IsExclusive(steps: seq<Step>) {
    steps == [] ||
    var n := |steps| - 1;
    && IsExclusive(steps[..n])
    && (steps[n].Start? && HasStart(steps[..n]) ==> Sending(steps[..n]) == {} && steps[n].checked)
  }

  // ----- Exclusive sends are spaced.

  /** The instant of the last send begun. */
  function LastStart(steps: seq<Step>, times: seq<int>): Option<int>
    requires |steps| == |times|
  {
    if steps == [] then None
    else
      var n := |steps| - 1;
      if steps[n].Start? then Some(times[n]) else LastStart(steps[..n], times[..n])
  }

  /** The stamp is that of a send begun at `s`, or has been forgotten long after it. */
  ghost predicate Remembers(stamp: Option<ResendStamp>, s: int, clock: int) {
    if stamp.Some? then stamp.value.lastSentAt == s <= stamp.value.lastSeenAt else clock - s > 2 * WINDOW_MS
  }

  /** One send is under way, begun at `s`. */
  ghost predicate IsOne(sending: map<nat, int>, s: int) {
    && sending.Keys != {}
    && (forall a, b :: a in sending && b in sending ==> a == b)
    && (forall a :: a in sending ==> sending[a] == s)
  }

  ghost predicate Tells(w: World, last: Option<int>, clock: int) {
    match last
    case None => w == World(None, map[])
    case Some(s) => s <= clock && (IsOne(w.sending, s) || (w.sending == map[] && Remembers(w.stamp, s, clock)))
  }

  lemma StepTells(w: World, step: Step, last: Option<int>, clock: int, now: int)
    requires Tells(w, last, clock) && clock <= now
    requires step.Start? ==> w.sending == map[]
    requires step.Record? ==> step.id in w.sending
    ensures Tells(Next(w, step, now), if step.Start? then Some(now) else last, now)
  {
    match step
    case Start(id, _) => assert id in Next(w, step, now).sending;
    case Record(id) => assert Next(w, step, now).sending == map[];
    case _ =>
  }

  lemma {:induction false} SendingIsWhatIsUnderWay(steps: seq<Step>, times: seq<int>)
    requires |steps| == |times|
    ensures After(steps, times).sending.Keys == Sending(steps)
  {
    if steps != [] {
      SendingIsWhatIsUnderWay(steps[..|steps| - 1], times[..|steps| - 1]);
    }
  }

  lemma {:induction false} ExclusiveRunTells(steps: seq<Step>, times: seq<int>, clock: int)
    requires |steps| == |times| && IsSchedule(steps) && IsExclusive(steps) && IsTiming(steps, times)
    requires steps != [] ==> times[|steps| - 1] <= clock
    ensures Tells(After(steps, times), LastStart(steps, times), clock)
    ensures LastStart(steps, times).Some? <==> HasStart(steps)
    ensures forall i :: 0 <= i < |steps| && steps[i].Start? ==> times[i] <= LastStart(steps, times).value
  {
    if steps != [] {
      var n := |steps| - 1;
      var before, earlier := steps[..n], times[..n];
      ExclusiveRunTells(before, earlier, times[n]);
      SendingIsWhatIsUnderWay(before, earlier);
      assert HasStart(steps) <==> HasStart(before) || steps[n].Start?;
      StepTells(After(before, earlier), steps[n], LastStart(before, earlier), times[n], times[n]);
      LaterTells(After(steps, times), LastStart(steps, times), times[n], clock);
    }
  }

  lemma LaterTells(w: World, last: Option<int>, clock: int, later: int)
    requires Tells(w, last, clock) && clock <= later
    ensures Tells(w, last, later)
  {
  }

  /** With nothing under way, a check that passes means that the last send began long enough ago. */
  lemma NextStartWaits(w: World, s: int, now: int)
    requires Tells(w, Some(s), now) && w.sending.Keys == {} && PassesCheck(w, now)
    ensures now - s >= MIN_INTERVAL_MS
  {
  }

  lemma {:induction false} ExclusiveSendsAreSpaced(steps: seq<Step>, times: seq<int>)
    requires |steps| == |times| && IsSchedule(steps) && IsExclusive(steps) && IsTiming(steps, times)
    ensures IsSpaced(steps, times)
  {
    if steps != [] {
      var n := |steps| - 1;
      ExclusiveSendsAreSpaced(steps[..n], times[..n]);
      ExclusiveRunTells(steps[..n], times[..n], times[n]);
      SendingIsWhatIsUnderWay(steps[..n], times[..n]);
      forall i | 0 <= i < n && steps[i].Start? && steps[n].Start? ensures times[n] - times[i] >= MIN_INTERVAL_MS {
        assert HasStart(steps[..n]) by {
          assert steps[..n][i].Start?;
        }
        NextStartWaits(After(steps[..n], times[..n]), LastStart(steps[..n], times[..n]).value, times[n]);
        assert times[..n][i] == times[i] <= LastStart(steps[..n], times[..n]).value;
      }
    }
  }

  // ----- Other schedules need not be.

  /** Everything in the world was read from the clock by `clock`. */
  ghost predicate IsReadBy(w: World, clock: int) {
    && (w.stamp.Some? ==> w.stamp.value.lastSentAt <= clock)
    && forall id :: id in w.sending ==> w.sending[id] <= clock
  }

  lemma {:induction false} TimesBoundWorld(steps: seq<Step>, times: seq<int>, clock: int)
    requires |steps| == |times| && IsTiming(steps, times) && (steps != [] ==> times[|steps| - 1] <= clock)
    ensures IsReadBy(After(steps, times), clock)
  {
    if steps != [] {
      var n := |steps| - 1;
      TimesBoundWorld(steps[..n], times[..n], times[n]);
    }
  }

  /** One more step, a minimum interval later: any check passes. */
  lemma ExtendTiming(steps: seq<Step>, times: seq<int>, now: int)
    requires steps != [] && |times| == |steps| - 1 && IsTiming(steps[..|steps| - 1], times)
    requires times == [] || now >= times[|times| - 1] + MIN_INTERVAL_MS
    ensures IsTiming(steps, times + [now])
  {
    var n := |steps| - 1;
    assert (times + [now])[..n] == times;
    TimesBoundWorld(steps[..n], times, if times == [] then now - MIN_INTERVAL_MS else times[n - 1]);
  }

  /** One interval from step to step up to `u`, and then no time at all. */
  function Pause(u: nat, n: nat): (times: seq<int>)
    ensures |times| == n && forall i :: 0 <= i < n ==> times[i] == (if i < u then i else u) * MIN_INTERVAL_MS
  {
    seq(n, i => (if i < u then i else u) * MIN_INTERVAL_MS)
  }

  lemma {:induction false} SlowIsTiming(steps: seq<Step>)
    ensures IsTiming(steps, Pause(|steps|, |steps|))
  {
    if steps != [] {
      var n := |steps| - 1;
      SlowIsTiming(steps[..n]);
      ExtendTiming(steps, Pause(n, n), n * MIN_INTERVAL_MS);
      assert Pause(n, n) + [n * MIN_INTERVAL_MS] == Pause(n + 1, n + 1);
    }
  }

  lemma {:induction false} NothingStarted(steps: seq<Step>)
    requires !HasStart(steps)
    ensures Sending(steps) == {}
  {
    if steps != [] {
      assert !steps[|steps| - 1].Start?;
      NothingStarted(steps[..|steps| - 1]);
    }
  }

  /** When the last send began after `u` slow steps, what its check saw. */
  ghost predicate SawOldStamp(steps: seq<Step>, times: seq<int>, u: nat)
    requires |steps| == |times| && u < |steps|
  {
    steps[u].Start? && steps[u].id in Sending(steps) ==>
      PassesCheck(After(steps, times), u * MIN_INTERVAL_MS)
  }

  lemma PauseAtStart(steps: seq<Step>)
    requires steps != [] && IsSchedule(steps) && IsExclusive(steps) && steps[|steps| - 1].Start?
    ensures var u := |steps| - 1;
            && IsTiming(steps, Pause(u, u + 1)) && SawOldStamp(steps, Pause(u, u + 1), u) &&
                Sending(steps) == {steps[u].id}
  {
    var u := |steps| - 1;
    SlowIsTiming(steps[..u]);
    ExtendTiming(steps, Pause(u, u), u * MIN_INTERVAL_MS);
    assert Pause(u, u) + [u * MIN_INTERVAL_MS] == Pause(u, u + 1);
    assert Pause(u, u + 1)[..u] == Pause(u, u);
    TimesBoundWorld(steps[..u], Pause(u, u), (u - 1) * MIN_INTERVAL_MS);
    if !HasStart(steps[..u]) {
      NothingStarted(steps[..u]);
    }
  }

  /** From the last start on the pausing clock is a timing; while that send is under way the check would pass again. */
  lemma {:induction false} PauseIsTiming(steps: seq<Step>, u: nat)
    requires u < |steps| && IsSchedule(steps) && IsExclusive(steps)
    requires steps[u].Start? && forall i :: u < i < |steps| ==> !steps[i].Start?
    ensures IsTiming(steps, Pause(u, |steps|)) && SawOldStamp(steps, Pause(u, |steps|), u) &&
        Sending(steps) <= {steps[u].id}
    decreases |steps|
  {
    var n := |steps| - 1;
    if n == u {
      PauseAtStart(steps);
    } else {
      PauseIsTiming(steps[..n], u);
      assert Pause(u, n + 1)[..n] == Pause(u, n);
      SendingIsWhatIsUnderWay(steps[..n], Pause(u, n));
    }
  }

  lemma {:induction false} LastStartIndex(steps: seq<Step>) returns (u: nat)
    requires HasStart(steps)
    ensures u < |steps| && steps[u].Start? && forall i :: u < i < |steps| ==> !steps[i].Start?
  {
    u := |steps| - 1;
    if !steps[u].Start? {
      u := LastStartIndex(steps[..u]);
    }
  }

  /** A send that begins while another is under way, or unchecked after another, can begin in the same instant. */
  lemma {:induction false} NotExclusiveIsNotSpaced(steps: seq<Step>) returns (times: seq<int>)
    requires IsSchedule(steps) && !IsExclusive(steps)
    ensures |times| == |steps| && IsTiming(steps, times) && !IsSpaced(steps, times)
    decreases |steps|
  {
    var n := |steps| - 1;
    var before := steps[..n];
    if !IsExclusive(before) {
      var early := NotExclusiveIsNotSpaced(before);
      var now := early[n - 1] + MIN_INTERVAL_MS;
      ExtendTiming(steps, early, now);
      times := early + [now];
      var i, j :| 0 <= i < j < n && before[i].Start? && before[j].Start? && early[j] - early[i] < MIN_INTERVAL_MS;
      assert times[i] == early[i] && times[j] == early[j] && steps[i].Start? && steps[j].Start?;
    } else {
      if !HasStart(before) {
        NothingStarted(before);
      }
      var u := LastStartIndex(before);
      PauseIsTiming(before, u);
      times := Pause(u, n + 1);
      assert times[..n] == Pause(u, n);
      assert times[u] == times[n] && steps[u].Start? && steps[n].Start?;
    }
  }

  ghost predicate IsAlwaysSpaced(steps: seq<Step>) {
    forall times :: |times| == |steps| && IsTiming(steps, times) ==> IsSpaced(steps, times)
  }

  /**
   * An actor's sends are the minimum interval apart, however the clock runs, exactly when no send
   * begins between another's check and its record, and every send but the first makes the check.
   */
  lemma SendsAreSpacedExactlyWhen(steps: seq<Step>)
    requires IsSchedule(steps)
    ensures IsAlwaysSpaced(steps) <==> IsExclusive(steps)
  {
    if IsExclusive(steps) {
      forall times | |times| == |steps| && IsTiming(steps, times) ensures IsSpaced(steps, times) {
        ExclusiveSendsAreSpaced(steps, times);
      }
    } else {
      var times := NotExclusiveIsNotSpaced(steps);
    }
  }

  /** Two sends and their records, all in one instant. */
  lemma InOneInstant(steps: seq<Step>, i: nat, now: int)
    requires |steps| == 4 && steps[0] == Start(0, true) && steps[3] == Record(1)
    requires (i == 1 && steps[1] == Start(1, true) && steps[2] == Record(0)) ||
        (i == 2 && steps[1] == Record(0) && steps[2] == Start(1, false))
    ensures IsSchedule(steps) && IsTiming(steps, [now, now, now, now]) && !IsSpaced(steps, [now, now, now, now])
  {
    var times := [now, now, now, now];
    assert steps[..3][..2] == steps[..2] && steps[..2][..1] == steps[..1] && steps[..1][..0] == [];
    assert times[..3][..2] == times[..2] && times[..2][..1] == times[..1] && times[..1][..0] == [];
    assert steps[..1] == [Start(0, true)] && times[..1] == [now];
    assert IsSchedule([]) && Sending([]) == {} && IsTiming([], []) && After([], []) == World(None, map[]);
    assert IsSchedule(steps[..1]) && Sending(steps[..1]) == {0};
    assert After(steps[..1], times[..1]) == World(None, map[0 := now]) && IsTiming(steps[..1], times[..1]);
    assert IsSchedule(steps[..2]) && IsTiming(steps[..2], times[..2]);
    assert Sending(steps[..2]) == if i == 1 then {0, 1} else {};
    assert Sending(steps[..3]) == {1};
    assert steps[i].Start? && times[i] - times[0] == 0;
  }

  /** Two overlapping requests, or a send without a check after a finished one, can begin in one instant. */
  lemma OverlappingResendsAreNotSpaced(now: int)
    ensures var overlap := [Start(0, true), Start(1, true), Record(0), Record(1)];
            IsSchedule(overlap) && IsTiming(overlap, [now, now, now, now]) && !IsSpaced(overlap, [now, now, now, now])
    ensures var unchecked := [Start(0, true), Record(0), Start(1, false), Record(1)];
            IsSchedule(unchecked) && IsTiming(unchecked, [now, now, now, now]) &&
                !IsSpaced(unchecked, [now, now, now, now])
  {
    InOneInstant([Start(0, true), Start(1, true), Record(0), Record(1)], 1, now);
    InOneInstant([Start(0, true), Record(0), Start(1, false), Record(1)], 2, now);
  }
}
