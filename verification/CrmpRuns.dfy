/**
 * Calls on the cash register store that overlap at their awaits. An open is split into allocate,
 * create-and-insert, and rewind; every other command reads a shift and later saves a new version.
 */
module CrmpRuns {
  import opened Common
  import opened CrmpStore

  /** An open under way; `refused` once its insert has failed and its rewind is still to come. */
  datatype Open = Open(key: RegisterKey, previous: int, number: int, refused: bool)

  /** An accepted save: what the client had read, what was stored, what it wrote. */
  datatype Save = Save(read: Shift, before: Shift, after: Shift)

  datatype World = World(
    shifts: map<string, Shift>,
    sequences: map<RegisterKey, int>,
    opens: map<nat, Open>,
    seen: map<nat, Shift>,
    saves: seq<Save>)

  datatype Step =
    | Allocate(open: nat, key: RegisterKey)
    | Create(open: nat, created: Outcome<Shift>)
    | Roll(open: nat)
    | Read(client: nat, id: string)
    | Write(client: nat, next: Shift, expected: int)

  /**
   * A created shift carries the register and number it was created for. A command copies the
   * identity of the shift it read and raises the version.
   */
  ghost predicate Possible(w: World, step: Step) {
    match step
    case Allocate(open, _) => open !in w.opens
    case Create(open, created) =>
      && open in w.opens && !w.opens[open].refused
      && (created.Done? ==> created.value.key == w.opens[open].key && created.value.shiftNumber == w.opens[open].number)
    case Roll(open) => open in w.opens && w.opens[open].refused
    case Read(_, id) => id in w.shifts
    case Write(client, next, _) =>
      client in w.seen && SameIdentity(next, w.seen[client]) && w.seen[client].version < next.version
  }

  /** Besides, a command expects no version above the one it has read. */
  ghost predicate Enabled(w: World, step: Step) {
    Possible(w, step) && (step.Write? ==> step.expected <= w.seen[step.client].version)
  }

  predicate SameIdentity(a: Shift, b: Shift) {
    a.financialShiftId == b.financialShiftId && SameNumber(a, b)
  }

  function GiveUp(w: World, open: nat): World
    requires open in w.opens
  {
    w.(opens := w.opens - {open}, sequences := Rewind(w.sequences, w.opens[open].key, w.opens[open].previous))
  }

  function Stored(w: World, open: nat, shift: Shift): World {
    w.(opens := w.opens - {open}, shifts := w.shifts[shift.financialShiftId := shift])
  }

  function Started(w: World, open: nat, key: RegisterKey): World {
    var previous := LastNumber(w.sequences, key);
    w.(opens := w.opens[open := Open(key, previous, previous + 1, false)],
        sequences := w.sequences[key := previous + 1])
  }

  function Written(w: World, client: nat, next: Shift, expected: int): World
    requires client in w.seen
  {
    if SaveError(w.shifts, next, Some(expected)).Some? then w
    else
      var id := next.financialShiftId;
      w.(shifts := w.shifts[id := next],
         saves := w.saves + (if id in w.shifts then [Save(w.seen[client], w.shifts[id], next)] else []))
  }

  /** A throwing `createShift` rewinds at once; a refused insert rewinds one step later. */
  ghost function Next(w: World, step: Step): World
    requires Possible(w, step)
  {
    match step
    case Allocate(open, key) => Started(w, open, key)
    case Create(open, created) =>
      if created.Failed? then GiveUp(w, open)
      else if InsertError(w.shifts, created.value).Some? then
        w.(opens := w.opens[open := w.opens[open].(refused := true)])
      else Stored(w, open, created.value)
    case Roll(open) => GiveUp(w, open)
    case Read(client, id) => w.(seen := w.seen[client := w.shifts[id]])
    case Write(client, next, expected) => Written(w, client, next, expected)
  }

  ghost predicate IsRun(worlds: seq<World>, steps: seq<Step>) {
    && |worlds| == |steps| + 1
    && forall i :: 0 <= i < |steps| ==> Enabled(worlds[i], steps[i]) && worlds[i + 1] == Next(worlds[i], steps[i])
  }

  // ----- What every interleaving keeps: numbers stay unique and no save is lost.

  ghost predicate Keyed(shifts: map<string, Shift>) {
    forall id :: id in shifts ==> shifts[id].financialShiftId == id
  }

  ghost predicate NumbersAreUnique(shifts: map<string, Shift>) {
    forall a, b :: a in shifts && b in shifts && SameNumber(shifts[a], shifts[b]) ==> a == b
  }

  /** A remembered read is of a stored shift: an earlier version, or that very row. */
  ghost predicate ReadsLag(w: World) {
    forall client :: client in w.seen ==> Lags(w.seen[client], w.shifts)
  }

  ghost predicate Lags(read: Shift, shifts: map<string, Shift>) {
    && read.financialShiftId in shifts
    && SameIdentity(shifts[read.financialShiftId], read)
    && (read == shifts[read.financialShiftId] || read.version < shifts[read.financialShiftId].version)
  }

  ghost predicate NothingLost(saves: seq<Save>) {
    forall i :: 0 <= i < |saves| ==>
          saves[i].read == saves[i].before && saves[i].before.version < saves[i].after.version
  }

  ghost predicate Safe(w: World) {
    Keyed(w.shifts) && NumbersAreUnique(w.shifts) && ReadsLag(w) && NothingLost(w.saves)
  }

  lemma StoringKeepsSafe(w: World, open: nat, shift: Shift)
    requires Safe(w) && InsertError(w.shifts, shift).None?
    ensures Safe(Stored(w, open, shift))
  {
    var after := Stored(w, open, shift);
    assert !NumberStored(w.shifts, shift.key, shift.shiftNumber);
    forall client | client in after.seen ensures Lags(after.seen[client], after.shifts) {
      assert Lags(w.seen[client], w.shifts);
    }
  }

  /** A save that is accepted was based on the row then stored, provided its client expects no unread version. */
  lemma AcceptedSaveIsBasedOnStored(w: World, client: nat, next: Shift, expected: int)
    requires Safe(w) && Enabled(w, Write(client, next, expected))
    ensures next.financialShiftId in w.shifts
    ensures SaveError(w.shifts, next, Some(expected)).None? ==>
              w.shifts[next.financialShiftId] == w.seen[client] && expected == w.seen[client].version
  {
    assert Lags(w.seen[client], w.shifts);
  }

  lemma WritingKeepsSafe(w: World, client: nat, next: Shift, expected: int)
    requires Safe(w) && Enabled(w, Write(client, next, expected))
    ensures Safe(Written(w, client, next, expected))
  {
    AcceptedSaveIsBasedOnStored(w, client, next, expected);
    var after := Written(w, client, next, expected);
    forall other | other in after.seen ensures Lags(after.seen[other], after.shifts) {
      assert Lags(w.seen[other], w.shifts);
    }
    forall a, b | a in after.shifts && b in after.shifts &&
        SameNumber(after.shifts[a], after.shifts[b]) ensures a == b {
      assert SameNumber(w.shifts[a], w.shifts[b]);
    }
  }

  lemma StepIsSafe(w: World, step: Step)
    requires Safe(w) && Enabled(w, step)
    ensures Safe(Next(w, step))
  {
    var after := Next(w, step);
    match step
    case Allocate(_, _) =>
      assert after.shifts == w.shifts && after.seen == w.seen;
    case Create(open, created) =>
      if created.Done? && InsertError(w.shifts, created.value).None? {
        StoringKeepsSafe(w, open, created.value);
      }
    case Roll(_) =>
      assert after.shifts == w.shifts && after.seen == w.seen;
    case Read(client, id) =>
      forall other | other in after.seen ensures Lags(after.seen[other], after.shifts) {
        if other != client {
          assert Lags(w.seen[other], w.shifts);
        }
      }
    case Write(client, next, expected) =>
      WritingKeepsSafe(w, client, next, expected);
  }

  /**
   * Under every interleaving of opens and saves, no two stored shifts share a register and a
   * number, and every accepted save replaced the very row its client had read.
   */
  lemma {:induction false} EveryInterleavingIsSafe(worlds: seq<World>, steps: seq<Step>)
    requires IsRun(worlds, steps) && Safe(worlds[0])
    ensures forall w :: w in worlds ==> NumbersAreUnique(w.shifts) && NothingLost(w.saves)
    ensures forall w :: w in worlds ==> Safe(w)
    decreases |steps|
  {
    if steps != [] {
      StepIsSafe(worlds[0], steps[0]);
      EveryInterleavingIsSafe(worlds[1..], steps[1..]);
      assert worlds == [worlds[0]] + worlds[1..];
    }
  }

  /** How far the accepted saves of a shift moved its version from the one their clients had read. */
  function Advance(saves: seq<Save>, id: string): int {
    if saves == [] then 0
    else
      var last := saves[|saves| - 1];
      Advance(saves[..|saves| - 1], id)
      + if last.after.financialShiftId == id then last.after.version - last.read.version else 0
  }

  function CountSaves(saves: seq<Save>, id: string): nat {
    if saves == [] then 0
    else CountSaves(saves[..|saves| - 1], id) + if saves[|saves| - 1].after.financialShiftId == id then 1 else 0
  }

  lemma AdvanceOfOneMore(saves: seq<Save>, save: Save, id: string)
    ensures Advance(saves + [save], id) ==
            Advance(saves, id) + if save.after.financialShiftId == id then save.after.version - save.read.version else 0
  {
    assert (saves + [save])[..|saves|] == saves;
  }

  lemma WriteAdvances(w: World, client: nat, next: Shift, expected: int, id: string)
    requires Safe(w) && Enabled(w, Write(client, next, expected)) && id in w.shifts
    ensures var after := Next(w, Write(client, next, expected));
            && id in after.shifts
            && after.shifts[id].version - Advance(after.saves, id) == w.shifts[id].version - Advance(w.saves, id)
  {
    AcceptedSaveIsBasedOnStored(w, client, next, expected);
    if SaveError(w.shifts, next, Some(expected)).None? {
      AdvanceOfOneMore(w.saves, Save(w.seen[client], w.shifts[next.financialShiftId], next), id);
    }
  }

  lemma StepAdvances(w: World, step: Step, id: string)
    requires Safe(w) && Enabled(w, step) && id in w.shifts
    ensures var after := Next(w, step);
            && id in after.shifts
            && after.shifts[id].version - Advance(after.saves, id) == w.shifts[id].version - Advance(w.saves, id)
  {
    match step
    case Write(client, next, expected) => WriteAdvances(w, client, next, expected, id);
    case Create(open, created) =>
    case _ =>
  }

  /** A shift's version is its version at the start plus what its accepted saves added. */
  lemma {:induction false} VersionCountsAcceptedSaves(worlds: seq<World>, steps: seq<Step>, id: string)
    requires IsRun(worlds, steps) && Safe(worlds[0]) && id in worlds[0].shifts && worlds[0].saves == []
    ensures var end := worlds[|steps|];
            && id in end.shifts
            && end.shifts[id].version == worlds[0].shifts[id].version + Advance(end.saves, id)
            && ((forall i :: 0 <= i < |end.saves| ==> end.saves[i].after.version == end.saves[i].read.version + 1) ==>
                end.shifts[id].version == worlds[0].shifts[id].version + CountSaves(end.saves, id))
  {
    AdvanceOverRun(worlds, steps, id);
    var saves := worlds[|steps|].saves;
    if forall i :: 0 <= i < |saves| ==> saves[i].after.version == saves[i].read.version + 1 {
      UnitAdvance(saves, id);
    }
  }

  lemma {:induction false} AdvanceOverRun(worlds: seq<World>, steps: seq<Step>, id: string)
    requires IsRun(worlds, steps) && Safe(worlds[0]) && id in worlds[0].shifts
    ensures var end := worlds[|steps|];
            && id in end.shifts
            && end.shifts[id].version - Advance(end.saves,
                id) == worlds[0].shifts[id].version - Advance(worlds[0].saves, id)
    decreases |steps|
  {
    if steps != [] {
      StepIsSafe(worlds[0], steps[0]);
      StepAdvances(worlds[0], steps[0], id);
      AdvanceOverRun(worlds[1..], steps[1..], id);
    }
  }

  lemma {:induction false} UnitAdvance(saves: seq<Save>, id: string)
    requires forall i :: 0 <= i < |saves| ==> saves[i].after.version == saves[i].read.version + 1
    ensures Advance(saves, id) == CountSaves(saves, id)
  {
    if saves != [] {
      UnitAdvance(saves[..|saves| - 1], id);
    }
  }

  /**
   * In a safe world an accepted save is based on the stored row exactly when the version its client
   * expects is one the client has read; a client that guesses ahead overwrites a row unseen.
   */
  lemma GuessingAheadLosesUpdates(w: World, client: nat, next: Shift, expected: int)
    requires Safe(w) && client in w.seen && next.financialShiftId == w.seen[client].financialShiftId
    requires SaveError(w.shifts, next, Some(expected)).None?
    ensures next.financialShiftId in w.shifts
    ensures w.shifts[next.financialShiftId] == w.seen[client] <==> expected <= w.seen[client].version
  {
    assert Lags(w.seen[client], w.shifts);
  }

  /** The two clients of the run below have read the shift, and one has saved its next version. */
  ghost function OneSaved(shift: Shift, mine: Shift): World {
    World(map[shift.financialShiftId := mine], map[], map[], map[0 := shift, 1 := shift], [Save(shift, shift, mine)])
  }

  lemma OneSavedIsReached(shift: Shift, mine: Shift) returns (worlds: seq<World>)
    requires SameIdentity(mine, shift) && mine.version == shift.version + 1
    ensures worlds != [] && worlds[0] == World(map[shift.financialShiftId := shift], map[], map[], map[], [])
    ensures IsRun(worlds, [Read(0, shift.financialShiftId), Read(1, shift.financialShiftId), Write(0, mine,
        shift.version)])
    ensures |worlds| == 4 && worlds[3] == OneSaved(shift, mine)
  {
    var id := shift.financialShiftId;
    var w0 := World(map[id := shift], map[], map[], map[], []);
    var w1 := Next(w0, Read(0, id));
    var w2 := Next(w1, Read(1, id));
    worlds := [w0, w1, w2, Next(w2, Write(0, mine, shift.version))];
  }

  /**
   * The second client then names the version it expects the first to have written, and replaces a
   * row it never read by one made from the row before.
   */
  lemma GuessingRunLosesUpdate(shift: Shift, mine: Shift, theirs: Shift)
    requires SameIdentity(mine, shift) && mine.version == shift.version + 1
    requires SameIdentity(theirs, shift) && theirs.version == shift.version + 1
    ensures var w, step := OneSaved(shift, mine), Write(1, theirs, shift.version + 1);
            && Possible(w, step) && !Enabled(w, step)
            && var saves := Next(w, step).saves;
               |saves| == 2 && saves[1] == Save(shift, mine, theirs) && !NothingLost(saves)
  {
    var w, step := OneSaved(shift, mine), Write(1, theirs, shift.version + 1);
    assert Next(w, step).saves == [Save(shift, shift, mine), Save(shift, mine, theirs)];
    assert Next(w, step).saves[1].read != Next(w, step).saves[1].before;
  }
}
