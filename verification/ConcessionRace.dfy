/**
 * Concurrent concession commands on one subscription, split between the read of the ledger and the
 * write. A write that appends a row does so under the unique (subscription, version) key, and is
 * rolled back whole when the key is taken; the other rows it updates are named by id only.
 */
module ConcessionRace {
  import opened Common
  import opened Calendar
  import opened Concessions

  datatype Kind = Insert(request: Request) | Reactivate(request: Request) | Cancel

  /** `Looked`: the ledger as it was read, and the instant read from the clock before that. */
  datatype Pc = Start | Looked(seen: seq<ConcessionRow>, stamp: int) | Finished

  datatype Caller = Caller(kind: Kind, pc: Pc)

  datatype State = State(table: seq<ConcessionRow>, callers: seq<Caller>, clock: int)

  datatype Step = Tick(now: int) | Look(c: nat, stamp: int) | Write(c: nat, id: nat)

  ghost predicate Enabled(s: State, step: Step) {
    match step
    case Tick(now) => s.clock <= now
    case Look(c, stamp) => c < |s.callers| && s.callers[c].pc.Start? && stamp <= s.clock
    case Write(c, id) => c < |s.callers| && s.callers[c].pc.Looked? && Fresh(s.table, id)
  }

  predicate VersionTaken(table: seq<ConcessionRow>, version: int) {
    exists i :: 0 <= i < |table| && table[i].version == version
  }

  /** What a transaction that read `seen` at `stamp` would append, and the row it would supersede. */
  function Planned(kind: Kind, seen: seq<ConcessionRow>, stamp: int, subscriptionId: int, id: nat)
    : (Option<ConcessionRow>, Option<nat>)
  {
    var k := CurrentIndex(seen, stamp);
    match kind
    case Insert(request) =>
      if (k >= 0 && request.source == AdminGrant) || (k < 0 && request.source == AdminRevise) then (None, None)
      else (Some(NewRow(seen, subscriptionId, request, stamp, id)), if k >= 0 then Some(seen[k].id) else None)
    case Reactivate(request) =>
      if k >= 0 then (None, None) else (Some(NewRow(seen, subscriptionId, request, stamp, id)), None)
    case Cancel => (None, None)
  }

  function AfterWrite(table: seq<ConcessionRow>, kind: Kind, seen: seq<ConcessionRow>, stamp: int,
      subscriptionId: int, id: nat)
    : seq<ConcessionRow>
  {
    if kind == Cancel then
      var k := CurrentIndex(seen, stamp);
      if k >= 0 then CancelById(table, seen[k].id, stamp) else table
    else
      var (row, superseded) := Planned(kind, seen, stamp, subscriptionId, id);
      if row.None? || VersionTaken(table, row.value.version) then table
      else (if superseded.Some? then SupersedeById(table, superseded.value, id) else table) + [row.value]
  }

  function MoveTo(s: State, c: nat, pc: Pc): State
    requires c < |s.callers|
  {
    s.(callers := s.callers[c := s.callers[c].(pc := pc)])
  }

  ghost function Next(s: State, step: Step, subscriptionId: int): State
    requires Enabled(s, step)
  {
    match step
    case Tick(now) => s.(clock := now)
    case Look(c, stamp) => MoveTo(s, c, Looked(s.table, stamp))
    case Write(c, id) =>
      var caller := s.callers[c];
      MoveTo(s, c, Finished).(table := AfterWrite(s.table, caller.kind, caller.pc.seen, caller.pc.stamp,
          subscriptionId, id))
  }

  ghost predicate IsRun(states: seq<State>, steps: seq<Step>, subscriptionId: int) {
    && |states| == |steps| + 1
    && forall i :: 0 <= i < |steps| ==>
          Enabled(states[i], steps[i]) && states[i + 1] == Next(states[i], steps[i], subscriptionId)
  }

  /** A remembered ledger: a beginning of the table, with the same terms and no row active since that was not then. */
  ghost predicate IsPast(seen: seq<ConcessionRow>, table: seq<ConcessionRow>) {
    && |seen| <= |table|
    && forall i :: 0 <= i < |seen| ==> Immutable(seen[i]) == Immutable(table[i]) && (table[i].status == Active ==>
        seen[i].status == Active)
  }

  ghost predicate CallerFits(caller: Caller, table: seq<ConcessionRow>, clock: int) {
    && (!caller.kind.Cancel? ==> caller.kind.request.duration >= 1)
    && (caller.pc.Looked? ==> IsPast(caller.pc.seen, table) && caller.pc.stamp <= clock)
  }

  ghost predicate Safe(s: State, subscriptionId: int) {
    && Chain(s.table, subscriptionId) && StartedBy(s.table, s.clock)
    && forall c :: 0 <= c < |s.callers| ==> CallerFits(s.callers[c], s.table, s.clock)
  }

  lemma PastIsTransitive(a: seq<ConcessionRow>, b: seq<ConcessionRow>, c: seq<ConcessionRow>)
    requires IsPast(a, b) && IsPast(b, c)
    ensures IsPast(a, c)
  {
  }

  lemma SmallVersionsAreTaken(table: seq<ConcessionRow>, subscriptionId: int, version: int)
    requires Chain(table, subscriptionId) && 1 <= version <= |table|
    ensures VersionTaken(table, version)
  {
    assert table[version - 1].version == version;
  }

  /** A free version number means that no row has been appended since the read. */
  lemma FreeVersionMeansSameRows(seen: seq<ConcessionRow>, table: seq<ConcessionRow>, subscriptionId: int)
    requires Chain(table, subscriptionId) && IsPast(seen, table) && !VersionTaken(table, LatestVersion(seen) + 1)
    ensures |seen| == |table| && LatestVersion(seen) == LatestVersion(table) == |table|
  {
    assert LatestVersion(seen) == |seen|;
    if |seen| < |table| {
      SmallVersionsAreTaken(table, subscriptionId, |seen| + 1);
    }
  }

  lemma SupersedeIsPast(table: seq<ConcessionRow>, subscriptionId: int, target: nat, id: nat)
    requires Chain(table, subscriptionId) && Fresh(table, id)
    ensures var kept := SupersedeById(table, target, id);
            Chain(kept, subscriptionId) && Fresh(kept, id) && LatestVersion(kept) == LatestVersion(table) &&
                IsPast(table, kept)
  {
    var kept := SupersedeById(table, target, id);
    forall i, j | 0 <= i < j < |kept| ensures kept[i].id != kept[j].id {
      assert kept[i].id == table[i].id && kept[j].id == table[j].id;
    }
  }

  lemma AppendIsPast(table: seq<ConcessionRow>, row: ConcessionRow)
    ensures IsPast(table, table + [row])
  {
  }

  /** The append half, on a table whose named row has been superseded or that names none. */
  lemma AppendWrites(table: seq<ConcessionRow>, kept: seq<ConcessionRow>, seen: seq<ConcessionRow>, subscriptionId: int,
      request: Request, stamp: int, id: nat)
    requires Chain(kept, subscriptionId) && Fresh(kept, id) && request.duration >= 1 && |seen| == |kept|
    requires LatestVersion(kept) == LatestVersion(seen) && IsPast(seen, kept) && IsPast(table, kept)
    requires kept != [] ==> !IsCurrent(kept[|kept| - 1], stamp)
    ensures var later := kept + [NewRow(seen, subscriptionId, request, stamp, id)];
            Chain(later, subscriptionId) && IsPast(table, later)
  {
    AppendKeepsChain(kept, subscriptionId, request, stamp, id);
    AppendIsPast(kept, NewRow(seen, subscriptionId, request, stamp, id));
    PastIsTransitive(table, kept, kept + [NewRow(seen, subscriptionId, request, stamp, id)]);
  }

  lemma InsertWritesChain(table: seq<ConcessionRow>, kind: Kind, seen: seq<ConcessionRow>, stamp: int,
      subscriptionId: int, id: nat)
    requires Chain(table, subscriptionId) && Fresh(table, id) && IsPast(seen, table)
    requires !kind.Cancel? && kind.request.duration >= 1
    ensures var later := AfterWrite(table, kind, seen, stamp, subscriptionId, id);
            Chain(later, subscriptionId) && IsPast(table, later)
  {
    var (row, superseded) := Planned(kind, seen, stamp, subscriptionId, id);
    if row.Some? && !VersionTaken(table, row.value.version) {
      FreeVersionMeansSameRows(seen, table, subscriptionId);
      if superseded.Some? {
        SupersedeIsPast(table, subscriptionId, superseded.value, id);
        var kept := SupersedeById(table, superseded.value, id);
        PastIsTransitive(seen, table, kept);
        TopIsNotCurrent(seen, kept, stamp, superseded);
        AppendWrites(table, kept, seen, subscriptionId, kind.request, stamp, id);
      } else {
        TopIsNotCurrent(seen, table, stamp, superseded);
        AppendWrites(table, table, seen, subscriptionId, kind.request, stamp, id);
      }
    }
  }

  /** The newest row is not current at the stamp: it was not when it was read, or it has just been superseded. */
  lemma TopIsNotCurrent(seen: seq<ConcessionRow>, kept: seq<ConcessionRow>, stamp: int, superseded: Option<nat>)
    requires IsPast(seen, kept) && |seen| == |kept|
    requires superseded.None? ==> CurrentIndex(seen, stamp) < 0
    requires superseded.Some? ==>
          CurrentIndex(seen, stamp) >= 0 && superseded.value == seen[CurrentIndex(seen, stamp)].id
    requires superseded.Some? ==> forall i :: 0 <= i < |kept| && kept[i].id == superseded.value ==>
        kept[i].status == Superseded
    ensures kept != [] ==> !IsCurrent(kept[|kept| - 1], stamp)
  {
  }

  lemma CancelWritesChain(table: seq<ConcessionRow>, seen: seq<ConcessionRow>, stamp: int, subscriptionId: int, id: nat)
    requires Chain(table, subscriptionId)
    ensures var later := AfterWrite(table, Cancel, seen, stamp, subscriptionId, id);
            Chain(later, subscriptionId) && IsPast(table, later) && |later| == |table|
  {
    var k := CurrentIndex(seen, stamp);
    if k >= 0 {
      CancelKeepsChain(table, subscriptionId, seen[k].id, stamp);
    }
  }

  lemma StartsStayBelowClock(table: seq<ConcessionRow>, kind: Kind, seen: seq<ConcessionRow>, stamp: int,
      subscriptionId: int,
      id: nat, clock: int)
    requires StartedBy(table, clock) && stamp <= clock
    ensures StartedBy(AfterWrite(table, kind, seen, stamp, subscriptionId, id), clock)
  {
  }

  lemma CallersSurvive(s: State, later: seq<ConcessionRow>)
    requires IsPast(s.table, later) && forall c :: 0 <= c < |s.callers| ==> CallerFits(s.callers[c], s.table, s.clock)
    ensures forall c :: 0 <= c < |s.callers| ==> CallerFits(s.callers[c], later, s.clock)
  {
    forall c | 0 <= c < |s.callers| ensures CallerFits(s.callers[c], later, s.clock) {
      if s.callers[c].pc.Looked? {
        PastIsTransitive(s.callers[c].pc.seen, s.table, later);
      }
    }
  }

  lemma StepIsSafe(s: State, step: Step, subscriptionId: int)
    requires Safe(s, subscriptionId) && Enabled(s, step)
    ensures Safe(Next(s, step, subscriptionId), subscriptionId) && IsPast(s.table, Next(s, step, subscriptionId).table)
  {
    match step
    case Tick(_) =>
    case Look(c, stamp) =>
    case Write(c, id) =>
      var caller := s.callers[c];
      assert CallerFits(caller, s.table, s.clock);
      var later := AfterWrite(s.table, caller.kind, caller.pc.seen, caller.pc.stamp, subscriptionId, id);
      if caller.kind.Cancel? {
        CancelWritesChain(s.table, caller.pc.seen, caller.pc.stamp, subscriptionId, id);
      } else {
        InsertWritesChain(s.table, caller.kind, caller.pc.seen, caller.pc.stamp, subscriptionId, id);
      }
      StartsStayBelowClock(s.table, caller.kind, caller.pc.seen, caller.pc.stamp, subscriptionId, id, s.clock);
      CallersSurvive(s, later);
  }

  /**
   * Under every interleaving of reads and writes, however stale: versions stay exactly 1..n, stored
   * rows keep their terms and stay, no row becomes active again, and for a reader that is not behind
   * the clock only the newest row can be current.
   */
  lemma {:induction false} EveryInterleavingKeepsOneCurrent(states: seq<State>, steps: seq<Step>,
      subscriptionId: int, now: int)
    requires IsRun(states, steps, subscriptionId) && Safe(states[0], subscriptionId) && states[|steps|].clock <= now
    ensures var end := states[|steps|];
            && Safe(end, subscriptionId) && IsPast(states[0].table, end.table)
            && (forall i :: 0 <= i < |end.table| - 1 ==> !IsCurrent(end.table[i], now))
            && (CurrentRow(end.table, now).Some? <==> end.table != [] && IsCurrent(end.table[|end.table| - 1], now))
    decreases |steps|
  {
    SafeToEnd(states, steps, subscriptionId);
    OnlyNewestCanBeCurrent(states[|steps|].table, subscriptionId, now);
  }

  lemma {:induction false} SafeToEnd(states: seq<State>, steps: seq<Step>, subscriptionId: int)
    requires IsRun(states, steps, subscriptionId) && Safe(states[0], subscriptionId)
    ensures Safe(states[|steps|], subscriptionId) && IsPast(states[0].table, states[|steps|].table)
    decreases |steps|
  {
    if steps != [] {
      StepIsSafe(states[0], steps[0], subscriptionId);
      SafeToEnd(states[1..], steps[1..], subscriptionId);
      PastIsTransitive(states[0].table, states[1].table, states[|steps|].table);
    }
  }

  /** A call that nothing overlaps is the ledger function of its command. */
  lemma LoneCallIsCommand(s: State, c: nat, stamp: int, id: nat, subscriptionId: int)
    requires Chain(s.table, subscriptionId) && Fresh(s.table, id) && Enabled(s, Look(c, stamp))
    ensures var looked := Next(s, Look(c, stamp), subscriptionId);
            && Enabled(looked, Write(c, id))
            && Next(looked, Write(c, id), subscriptionId).table ==
               match s.callers[c].kind
               case Insert(request) => InsertVersion(s.table, subscriptionId, request, stamp, id).history
               case Reactivate(request) => InsertReactivation(s.table, subscriptionId, request, stamp, id).history
               case Cancel =>
                 match CurrentRow(s.table, stamp)
                 case None => s.table
                 case Some(current) => CancelById(s.table, current.id, stamp)
  {
    var k := CurrentIndex(s.table, stamp);
    assert !VersionTaken(s.table, LatestVersion(s.table) + 1);
    if k >= 0 {
      SupersedeTouchesOneRow(s.table, k, id);
    }
  }

  // ----- Whether a status that has left active is final.

  /** The stored row a write names, if it names one and is carried out. */
  function Named(s: State, c: nat, subscriptionId: int, id: nat): Option<nat>
    requires c < |s.callers| && s.callers[c].pc.Looked?
  {
    var caller := s.callers[c];
    var (row, superseded) := Planned(caller.kind, caller.pc.seen, caller.pc.stamp, subscriptionId, id);
    if caller.kind.Cancel? then
      var k := CurrentIndex(caller.pc.seen, caller.pc.stamp);
      if k >= 0 then Some(caller.pc.seen[k].id) else None
    else if row.Some? && !VersionTaken(s.table, row.value.version) then superseded
    else None
  }

  /** The named row as the write leaves it. */
  function Rewritten(row: ConcessionRow, kind: Kind, stamp: int, id: nat): ConcessionRow {
    if kind.Cancel? then CancelRow(row, stamp) else row.(status := Superseded, supersededBy := Some(id))
  }

  lemma WriteTouchesNamedRow(s: State, c: nat, id: nat, subscriptionId: int, i: nat)
    requires Enabled(s, Write(c, id)) && i < |s.table|
    ensures var later := Next(s, Write(c, id), subscriptionId).table;
            && |s.table| <= |later|
            && later[i] == if Named(s, c, subscriptionId, id) == Some(s.table[i].id)
                           then Rewritten(s.table[i], s.callers[c].kind, s.callers[c].pc.stamp, id) else s.table[i]
  {
  }

  /**
   * A write leaves every status that has left active final exactly when the row it names is still
   * active, or is one the write leaves as it is.
   */
  lemma WriteKeepsFinalityExactlyWhen(s: State, c: nat, id: nat, subscriptionId: int)
    requires Enabled(s, Write(c, id))
    ensures Extends(s.table, Next(s, Write(c, id), subscriptionId).table) <==>
              forall i :: 0 <= i < |s.table| && Named(s, c, subscriptionId, id) == Some(s.table[i].id) ==>
                || s.table[i].status == Active
                || s.table[i] == Rewritten(s.table[i], s.callers[c].kind, s.callers[c].pc.stamp, id)
  {
    var later := Next(s, Write(c, id), subscriptionId).table;
    forall i | 0 <= i < |s.table|
      ensures |s.table| <= |later|
      ensures later[i] == if Named(s, c, subscriptionId, id) == Some(s.table[i].id)
                          then Rewritten(s.table[i], s.callers[c].kind, s.callers[c].pc.stamp, id) else s.table[i]
    {
      WriteTouchesNamedRow(s, c, id, subscriptionId, i);
    }
    if s.table == [] {
      assert Extends(s.table, later);
    }
  }

  /** A revision and a cancellation that both read the row a grant left, before either writes. */
  ghost function BothLooked(row: ConcessionRow, revise: Request): State {
    State([row], [Caller(Insert(revise), Looked([row], 0)), Caller(Cancel, Looked([row], 0))], 0)
  }

  lemma BothLookedIsReached(subscriptionId: int, grant: Request, revise: Request) returns (row: ConcessionRow,
      states: seq<State>)
    requires grant.duration >= 1 && revise.duration >= 1 && grant.source == AdminGrant
    ensures row == NewRow([], subscriptionId, grant, 0, 0) && row.endsAt > 0
    ensures [row] == InsertVersion([], subscriptionId, grant, 0, 0).history
    ensures |states| == 3 && IsRun(states, [Look(0, 0), Look(1, 0)], subscriptionId) && Safe(states[0], subscriptionId)
    ensures states[0].table == [row] && states[2] == BothLooked(row, revise)
  {
    EndIsAfterStart(0, grant.unit, grant.duration);
    row := NewRow([], subscriptionId, grant, 0, 0);
    var s0 := State([row], [Caller(Insert(revise), Start), Caller(Cancel, Start)], 0);
    var s1 := Next(s0, Look(0, 0), subscriptionId);
    states := [s0, s1, Next(s1, Look(1, 0), subscriptionId)];
  }

  /** If the cancellation writes last, a superseded row becomes a cancelled one. */
  lemma CancelRacingReviseOverwrites(subscriptionId: int, grant: Request, revise: Request)
    requires grant.duration >= 1 && revise.duration >= 1 && grant.source == AdminGrant && revise.source == AdminRevise
    ensures var row := NewRow([], subscriptionId, grant, 0, 0);
            var s := BothLooked(row, revise);
            && Enabled(s, Write(0, 1))
            && var revised := Next(s, Write(0, 1), subscriptionId);
               && Enabled(revised, Write(1, 2))
               && var raced := Next(revised, Write(1, 2), subscriptionId);
                  && |revised.table| == |raced.table| == 2
                  && revised.table[0].status == Superseded && raced.table[0].status == Cancelled
  {
    EndIsAfterStart(0, grant.unit, grant.duration);
    var row := NewRow([], subscriptionId, grant, 0, 0);
    assert CurrentIndex([row], 0) == 0;
  }

  /** If the revision writes last, a cancelled row becomes a superseded one under a running successor. */
  lemma ReviseRacingCancelOverwrites(subscriptionId: int, grant: Request, revise: Request)
    requires grant.duration >= 1 && revise.duration >= 1 && grant.source == AdminGrant && revise.source == AdminRevise
    ensures var row := NewRow([], subscriptionId, grant, 0, 0);
            var s := BothLooked(row, revise);
            && Enabled(s, Write(1, 1))
            && var cancelled := Next(s, Write(1, 1), subscriptionId);
               && Enabled(cancelled, Write(0, 2))
               && var raced := Next(cancelled, Write(0, 2), subscriptionId);
                  && |cancelled.table| == 1 && |raced.table| == 2
                  && cancelled.table[0].status == Cancelled && raced.table[0].status == Superseded
                  && IsCurrent(raced.table[1], 0)
  {
    EndIsAfterStart(0, grant.unit, grant.duration);
    EndIsAfterStart(0, revise.unit, revise.duration);
    var row := NewRow([], subscriptionId, grant, 0, 0);
    assert CurrentIndex([row], 0) == 0;
  }
}
