/**
 * Concurrent snapshot inserts on one subscription, split where the code awaits the database:
 * read the current row, insert under the unique (subscription, version) key, re-read after a
 * duplicate-key refusal.
 */
module ChargedTermsRace {
  import opened Common
  import opened ChargedTerms

  datatype Pc =
    | Start
    | Inserting(seen: Option<SnapshotRow>, readAt: int)
    | Refused
    | Done(result: Result<SnapshotRow>)

  datatype Caller = Caller(offer: Offer, source: Source, actorId: Option<int>, pc: Pc)

  datatype State = State(table: seq<SnapshotRow>, callers: seq<Caller>, clock: int)

  /**
   * Tick: time passes. Read, Retry: a read by caller `c`; a read that fails reports no row.
   * Insert: the insert by `c`, stamped between its read and now. Lose: the insert fails for
   * another reason. Other: a transaction of another admin command appends a row in one step.
   */
  datatype Step =
    | Tick(now: int)
    | Read(c: nat, fails: bool)
    | Insert(c: nat, stamp: int, id: nat)
    | Lose(c: nat)
    | Retry(c: nat, fails: bool)
    | Other(terms: Offer, id: nat, writer: Source)

  predicate Enabled(s: State, step: Step) {
    match step
    case Tick(now) => s.clock <= now
    case Read(c, _) => c < |s.callers| && s.callers[c].pc.Start?
    case Insert(c, stamp, _) =>
      c < |s.callers| && s.callers[c].pc.Inserting? && s.callers[c].pc.readAt <= stamp <= s.clock
    case Lose(c) => c < |s.callers| && s.callers[c].pc.Inserting?
    case Retry(c, _) => c < |s.callers| && s.callers[c].pc.Refused?
    case Other(_, _, _) => true
  }

  predicate VersionTaken(table: seq<SnapshotRow>, version: int) {
    exists i :: 0 <= i < |table| && table[i].version == version
  }

  function MoveTo(s: State, c: nat, pc: Pc): State
    requires c < |s.callers|
  {
    s.(callers := s.callers[c := s.callers[c].(pc := pc)])
  }

  function AfterRead(caller: Caller, current: Option<SnapshotRow>, now: int): Pc {
    if !IsComplete(caller.offer) then Done(Err(SnapshotIncomplete))
    else if current.Some? && (SnapshotMatchesOffer(current.value, caller.offer) || caller.source == WebhookBind) then
      Done(Ok(current.value))
    else Inserting(current, now)
  }

  function AfterRetry(caller: Caller, raced: Option<SnapshotRow>): Pc {
    if raced.Some? && SnapshotMatchesOffer(raced.value, caller.offer) then Done(Ok(raced.value))
    else Done(Err(SnapshotConflict))
  }

  /** The outcome of a step; `subscriptionId` owns the table. */
  function Next(s: State, step: Step, subscriptionId: int): State
    requires Enabled(s, step)
  {
    match step
    case Tick(now) => s.(clock := now)
    case Read(c, fails) =>
      MoveTo(s, c, AfterRead(s.callers[c], if fails then None else CurrentSnapshot(s.table), s.clock))
    case Insert(c, stamp, id) =>
      var caller := s.callers[c];
      var row := NewSnapshot(caller.pc.seen, subscriptionId, TrimmedOffer(caller.offer), stamp, id, caller.source,
          caller.actorId);
      if VersionTaken(s.table, row.version) then MoveTo(s, c, Refused)
      else MoveTo(s, c, Done(Ok(row))).(table := s.table + [row])
    case Lose(c) => MoveTo(s, c, Done(Err(PersistFailed)))
    case Retry(c, fails) =>
      MoveTo(s, c, AfterRetry(s.callers[c], if fails then None else CurrentSnapshot(s.table)))
    case Other(terms, id, writer) =>
      s.(table := s.table + [NewSnapshot(CurrentSnapshot(s.table), subscriptionId, terms, s.clock, id, writer, None)])
  }

  ghost predicate IsRun(states: seq<State>, steps: seq<Step>, subscriptionId: int) {
    && |states| == |steps| + 1
    && forall i :: 0 <= i < |steps| ==>
          Enabled(states[i], steps[i]) && states[i + 1] == Next(states[i], steps[i], subscriptionId)
  }

  /** What a finished call may have returned: its own terms, or for a webhook whatever was current. */
  ghost predicate Answers(caller: Caller, row: SnapshotRow) {
    || SnapshotMatchesOffer(row, caller.offer)
    || SnapshotMatchesOffer(row, TrimmedOffer(caller.offer))
    || caller.source == WebhookBind
  }

  ghost predicate CallerFits(caller: Caller, table: seq<SnapshotRow>, clock: int) {
    match caller.pc
    case Inserting(seen, readAt) =>
      readAt <= clock && (seen.Some? ==> seen.value in table && seen.value.effectiveFrom <= readAt)
    case Done(Ok(row)) => row in table && Answers(caller, row)
    case _ => true
  }

  ghost predicate Safe(s: State, subscriptionId: int) {
    && Chain(s.table, subscriptionId) && EffectiveBy(s.table, s.clock)
    && forall c :: 0 <= c < |s.callers| ==> CallerFits(s.callers[c], s.table, s.clock)
  }

  /** An insert that finds its version free was made by a caller whose view is still current. */
  lemma FreeVersionMeansFreshRead(s: State, c: nat, subscriptionId: int)
    requires Safe(s, subscriptionId) && c < |s.callers| && s.callers[c].pc.Inserting?
    ensures NextVersion(s.callers[c].pc.seen) == |s.table| + 1 ||
        VersionTaken(s.table, NextVersion(s.callers[c].pc.seen))
    ensures NextVersion(s.callers[c].pc.seen) == |s.table| + 1 ==>
              && !VersionTaken(s.table, |s.table| + 1)
              && s.callers[c].pc.seen == CurrentSnapshot(s.table)
  {
    assert CallerFits(s.callers[c], s.table, s.clock);
    CurrentIsLastInserted(s.table, subscriptionId);
    var seen := s.callers[c].pc.seen;
    if NextVersion(seen) <= |s.table| {
      assert s.table[NextVersion(seen) - 1].version == NextVersion(seen);
    }
  }

  lemma GrowthKeepsCallers(s: State, row: SnapshotRow)
    requires forall c :: 0 <= c < |s.callers| ==> CallerFits(s.callers[c], s.table, s.clock)
    ensures forall c :: 0 <= c < |s.callers| ==> CallerFits(s.callers[c], s.table + [row], s.clock)
  {
  }

  function RowOf(caller: Caller, stamp: int, id: nat, subscriptionId: int): SnapshotRow
    requires caller.pc.Inserting?
  {
    NewSnapshot(caller.pc.seen, subscriptionId, TrimmedOffer(caller.offer), stamp, id, caller.source, caller.actorId)
  }

  /** An insert that finds its version free appends to the chain. */
  lemma InsertAppends(s: State, c: nat, stamp: int, id: nat, subscriptionId: int)
    requires Safe(s, subscriptionId) && Enabled(s, Insert(c, stamp, id))
    requires !VersionTaken(s.table, NextVersion(s.callers[c].pc.seen))
    ensures s.callers[c].pc.seen == CurrentSnapshot(s.table)
    ensures var later := s.table + [RowOf(s.callers[c], stamp, id, subscriptionId)];
            Chain(later, subscriptionId) && EffectiveBy(later, s.clock)
  {
    var caller := s.callers[c];
    FreeVersionMeansFreshRead(s, c, subscriptionId);
    CurrentIsLastInserted(s.table, subscriptionId);
    assert CallerFits(caller, s.table, s.clock);
    AppendKeepsChain(s.table, subscriptionId, TrimmedOffer(caller.offer), stamp, id, caller.source, caller.actorId);
  }

  lemma AppendIsSafe(s: State, c: nat, row: SnapshotRow, subscriptionId: int)
    requires Safe(s, subscriptionId) && c < |s.callers| && Answers(s.callers[c], row)
    requires Chain(s.table + [row], subscriptionId) && EffectiveBy(s.table + [row], s.clock)
    ensures Safe(MoveTo(s, c, Done(Ok(row))).(table := s.table + [row]), subscriptionId)
  {
    GrowthKeepsCallers(s, row);
    assert row in s.table + [row];
  }

  lemma InsertIsSafe(s: State, c: nat, stamp: int, id: nat, subscriptionId: int)
    requires Safe(s, subscriptionId) && Enabled(s, Insert(c, stamp, id))
    ensures Safe(Next(s, Insert(c, stamp, id), subscriptionId), subscriptionId)
    ensures s.table <= Next(s, Insert(c, stamp, id), subscriptionId).table
  {
    var row := RowOf(s.callers[c], stamp, id, subscriptionId);
    if !VersionTaken(s.table, row.version) {
      InsertAppends(s, c, stamp, id, subscriptionId);
      AppendIsSafe(s, c, row, subscriptionId);
    }
  }

  lemma StepIsSafe(s: State, step: Step, subscriptionId: int)
    requires Safe(s, subscriptionId) && Enabled(s, step)
    ensures Safe(Next(s, step, subscriptionId), subscriptionId)
    ensures s.table <= Next(s, step, subscriptionId).table
  {
    match step
    case Insert(c, stamp, id) => InsertIsSafe(s, c, stamp, id, subscriptionId);
    case Other(terms, id, writer) =>
      AppendKeepsChain(s.table, subscriptionId, terms, s.clock, id, writer, None);
      GrowthKeepsCallers(s, NewSnapshot(CurrentSnapshot(s.table), subscriptionId, terms, s.clock, id, writer, None));
    case _ =>
  }

  /**
   * Under every interleaving with any other writers and any failing reads or inserts: no version
   * is duplicated, nothing stored is ever changed, and a call that returns a row returns a stored
   * row with its own terms (or, for a webhook, one that was current) - otherwise it throws.
   */
  lemma {:induction false} EveryInterleavingIsSafe(states: seq<State>, steps: seq<Step>, subscriptionId: int)
    requires IsRun(states, steps, subscriptionId)
    requires Chain(states[0].table, subscriptionId) && EffectiveBy(states[0].table, states[0].clock)
    requires forall c :: 0 <= c < |states[0].callers| ==> states[0].callers[c].pc.Start?
    ensures forall i :: 0 <= i < |states| ==> Safe(states[i], subscriptionId) && states[0].table <= states[i].table
    decreases |steps|
  {
    if steps != [] {
      var n := |steps| - 1;
      assert IsRun(states[..n + 1], steps[..n], subscriptionId);
      EveryInterleavingIsSafe(states[..n + 1], steps[..n], subscriptionId);
      assert states[..n + 1][n] == states[n];
      StepIsSafe(states[n], steps[n], subscriptionId);
    }
  }

  /** A call that nothing overlaps is the ledger's insertion, stamped when it inserts. */
  lemma LoneCallIsInsertSnapshot(s: State, c: nat, stamp: int, id: nat, subscriptionId: int)
    requires Chain(s.table, subscriptionId) && Enabled(s, Read(c, false)) && stamp == s.clock
    ensures var caller := s.callers[c];
            var read := Next(s, Read(c, false), subscriptionId);
            var end := if read.callers[c].pc.Inserting? then Next(read, Insert(c, stamp, id), subscriptionId) else read;
            var done := InsertSnapshot(s.table, subscriptionId, caller.offer, caller.source, stamp, id, caller.actorId);
            end.table == done.history && end.callers[c].pc == Done(done.result)
  {
    CurrentIsLastInserted(s.table, subscriptionId);
    assert !VersionTaken(s.table, NextVersion(CurrentSnapshot(s.table)));
  }

  // ----- Racing inserts of one offer.

  /** No other writer and no lost statement: only the callers' own reads and inserts, and time. */
  predicate IsOwnStep(step: Step) {
    match step
    case Read(_, fails) => !fails
    case Retry(_, fails) => !fails
    case Lose(_) => false
    case Other(_, _, _) => false
    case _ => true
  }

  /** The table is the initial one or the initial one and a single row with the racing terms. */
  ghost predicate AtMostOneAdded(table: seq<SnapshotRow>, initial: seq<SnapshotRow>, offer: Offer) {
    || table == initial
    || (|table| == |initial| + 1 && initial <= table && SnapshotMatchesOffer(table[|initial|], offer))
  }

  ghost predicate CallerConverges(caller: Caller, table: seq<SnapshotRow>, initial: seq<SnapshotRow>, offer: Offer) {
    && caller.offer == offer
    && match caller.pc
       case Start => true
       case Inserting(seen, _) =>
         NextVersion(seen) == |initial| + 1 &&
         (initial != [] ==> !SnapshotMatchesOffer(initial[|initial| - 1], offer))
       case Refused => |table| == |initial| + 1
       case Done(result) =>
         || (table != [] && result == Ok(table[|table| - 1]) && SnapshotMatchesOffer(table[|table| - 1], offer))
         || (caller.source == WebhookBind && initial != [] && result == Ok(initial[|initial| - 1]))
  }

  ghost predicate Converges(s: State, initial: seq<SnapshotRow>, offer: Offer) {
    && AtMostOneAdded(s.table, initial, offer)
    && (initial != [] && SnapshotMatchesOffer(initial[|initial| - 1], offer) ==> s.table == initial)
    && forall c :: 0 <= c < |s.callers| ==> CallerConverges(s.callers[c], s.table, initial, offer)
  }

  lemma ReadConverges(s: State, c: nat, initial: seq<SnapshotRow>, offer: Offer, subscriptionId: int)
    requires Safe(s, subscriptionId) && c < |s.callers| && s.callers[c].pc.Start?
    requires Converges(s, initial, offer) && IsComplete(offer)
    ensures Converges(Next(s, Read(c, false), subscriptionId), initial, offer)
  {
    assert CallerConverges(s.callers[c], s.table, initial, offer);
    CurrentIsLastInserted(s.table, subscriptionId);
    assert s.table != [] ==> s.table[|s.table| - 1].version == |s.table|;
    assert CallerConverges(Next(s, Read(c, false), subscriptionId).callers[c], s.table, initial, offer);
  }

  lemma RetryConverges(s: State, c: nat, initial: seq<SnapshotRow>, offer: Offer, subscriptionId: int)
    requires Safe(s, subscriptionId) && c < |s.callers| && s.callers[c].pc.Refused?
    requires Converges(s, initial, offer)
    ensures Converges(Next(s, Retry(c, false), subscriptionId), initial, offer)
  {
    assert CallerConverges(s.callers[c], s.table, initial, offer);
    CurrentIsLastInserted(s.table, subscriptionId);
    assert CallerConverges(Next(s, Retry(c, false), subscriptionId).callers[c], s.table, initial, offer);
  }

  lemma StepConverges(s: State, step: Step, initial: seq<SnapshotRow>, offer: Offer, subscriptionId: int)
    requires Safe(s, subscriptionId) && Enabled(s, step) && IsOwnStep(step)
    requires Chain(initial, subscriptionId) && Converges(s, initial, offer)
    requires IsComplete(offer) && IsTrimmed(offer)
    ensures Converges(Next(s, step, subscriptionId), initial, offer)
  {
    match step
    case Tick(_) =>
    case Read(c, _) => ReadConverges(s, c, initial, offer, subscriptionId);
    case Retry(c, _) => RetryConverges(s, c, initial, offer, subscriptionId);
    case Insert(c, stamp, id) => InsertConverges(s, c, stamp, id, initial, offer, subscriptionId);
  }

  /** One row with the racing terms on top of the initial table leaves every caller converging. */
  lemma GrowthConverges(s: State, c: nat, row: SnapshotRow, initial: seq<SnapshotRow>, offer: Offer)
    requires Converges(s, initial, offer) && c < |s.callers| && s.callers[c].pc.Inserting?
    requires s.table == initial && SnapshotMatchesOffer(row, offer)
    ensures Converges(MoveTo(s, c, Done(Ok(row))).(table := s.table + [row]), initial, offer)
  {
    var next := MoveTo(s, c, Done(Ok(row))).(table := s.table + [row]);
    assert CallerConverges(s.callers[c], s.table, initial, offer);
    forall d | 0 <= d < |next.callers| ensures CallerConverges(next.callers[d], next.table, initial, offer) {
      assert CallerConverges(s.callers[d], s.table, initial, offer);
    }
  }

  lemma InsertConverges(s: State, c: nat, stamp: int, id: nat, initial: seq<SnapshotRow>, offer: Offer,
      subscriptionId: int)
    requires Safe(s, subscriptionId) && Enabled(s, Insert(c, stamp, id))
    requires Chain(initial, subscriptionId) && Converges(s, initial, offer)
    requires IsComplete(offer) && IsTrimmed(offer)
    ensures Converges(Next(s, Insert(c, stamp, id), subscriptionId), initial, offer)
  {
    assert CallerConverges(s.callers[c], s.table, initial, offer);
    FreeVersionMeansFreshRead(s, c, subscriptionId);
    var row := RowOf(s.callers[c], stamp, id, subscriptionId);
    if VersionTaken(s.table, row.version) {
      TakenMeansAdded(s, c, initial, offer, subscriptionId);
    } else {
      GrowthConverges(s, c, row, initial, offer);
    }
  }

  lemma TakenMeansAdded(s: State, c: nat, initial: seq<SnapshotRow>, offer: Offer, subscriptionId: int)
    requires Safe(s, subscriptionId) && c < |s.callers| && s.callers[c].pc.Inserting?
    requires Converges(s, initial, offer) && VersionTaken(s.table, NextVersion(s.callers[c].pc.seen))
    ensures |s.table| == |initial| + 1
  {
    assert CallerConverges(s.callers[c], s.table, initial, offer);
  }

  /**
   * Racing inserts of one trimmed offer with no other writer and no failing read converge: at every
   * point of every interleaving at most one row has been added, and every call that has finished
   * has returned the row that is current, or for a webhook the row that was current at the start.
   * None throws.
   */
  lemma {:induction false} RacingInsertsConverge(states: seq<State>, steps: seq<Step>, offer: Offer,
      subscriptionId: int)
    requires IsRun(states, steps, subscriptionId)
    requires forall i :: 0 <= i < |steps| ==> IsOwnStep(steps[i])
    requires Chain(states[0].table, subscriptionId) && EffectiveBy(states[0].table, states[0].clock)
    requires IsComplete(offer) && IsTrimmed(offer)
    requires forall c :: 0 <= c < |states[0].callers| ==>
               var caller := states[0].callers[c];
               caller.pc.Start? && caller.offer == offer
    ensures forall i :: 0 <= i < |states| ==> Converges(states[i], states[0].table, offer)
    decreases |steps|
  {
    if steps != [] {
      var n := |steps| - 1;
      assert IsRun(states[..n + 1], steps[..n], subscriptionId);
      RacingInsertsConverge(states[..n + 1], steps[..n], offer, subscriptionId);
      EveryInterleavingIsSafe(states, steps, subscriptionId);
      assert states[..n + 1][n] == states[n];
      StepConverges(states[n], steps[n], states[0].table, offer, subscriptionId);
    }
  }

  // ----- An offer with blanks around it.

  /** A refused call whose offer has blanks throws even when the row that beat it carries the same terms, trimmed. */
  lemma PaddedLoserThrows(s: State, c: nat, subscriptionId: int)
    requires c < |s.callers| && s.callers[c].pc.Refused? && !IsTrimmed(s.callers[c].offer)
    requires s.table != [] && CurrentSnapshot(s.table).value.terms == TrimmedOffer(s.callers[c].offer)
    ensures Next(s, Retry(c, false), subscriptionId).callers[c].pc == Done(Err(SnapshotConflict))
  {
  }

  function Padded(offer: Offer, pc: Pc): Caller {
    Caller(offer, AdminCreate, None, pc)
  }

  /** Two calls on an empty table that have both read it. */
  function BothRead(offer: Offer): State {
    State([], [Padded(offer, Inserting(None, 0)), Padded(offer, Inserting(None, 0))], 0)
  }

  lemma BothReadIsReached(offer: Offer, subscriptionId: int) returns (states: seq<State>)
    requires IsComplete(offer)
    ensures |states| == 3 && IsRun(states, [Read(0, false), Read(1, false)], subscriptionId)
    ensures states[0] == State([], [Padded(offer, Start), Padded(offer, Start)], 0) && states[2] == BothRead(offer)
  {
    var s0 := State([], [Padded(offer, Start), Padded(offer, Start)], 0);
    var s1 := Next(s0, Read(0, false), subscriptionId);
    states := [s0, s1, Next(s1, Read(1, false), subscriptionId)];
  }

  /** With one such offer, the first then stores its row, and the second throws. */
  lemma PaddedOffersDoNotConverge(offer: Offer, subscriptionId: int)
    requires IsComplete(offer) && !IsTrimmed(offer)
    ensures var s3 := Next(BothRead(offer), Insert(0, 0, 0), subscriptionId);
            && Enabled(s3, Insert(1, 0, 1))
            && var s4 := Next(s3, Insert(1, 0, 1), subscriptionId);
               && Enabled(s4, Retry(1, false))
               && var s5 := Next(s4, Retry(1, false), subscriptionId);
                  && |s5.table| == 1 && |s5.callers| == 2
                  && s5.callers[0].pc == Done(Ok(s5.table[0])) && s5.callers[1].pc == Done(Err(SnapshotConflict))
  {
    var row := RowOf(BothRead(offer).callers[0], 0, 0, subscriptionId);
    FirstInsertStores(BothRead(offer), row, subscriptionId);
    var s3 := Next(BothRead(offer), Insert(0, 0, 0), subscriptionId);
    SecondInsertIsRefused(s3, row, subscriptionId);
    var s4 := Next(s3, Insert(1, 0, 1), subscriptionId);
    PaddedLoserThrows(s4, 1, subscriptionId);
  }

  lemma FirstInsertStores(s: State, row: SnapshotRow, subscriptionId: int)
    requires s.table == [] && |s.callers| == 2 && s.clock == 0 && s.callers[0].pc == Inserting(None, 0)
    requires row == RowOf(s.callers[0], 0, 0, subscriptionId)
    ensures Next(s, Insert(0, 0, 0), subscriptionId) == MoveTo(s, 0, Done(Ok(row))).(table := [row])
  {
  }

  lemma SecondInsertIsRefused(s: State, row: SnapshotRow, subscriptionId: int)
    requires s.table == [row] && row.version == 1 && |s.callers| == 2 && s.clock == 0 &&
        s.callers[1].pc == Inserting(None, 0)
    ensures Next(s, Insert(1, 0, 1), subscriptionId) == MoveTo(s, 1, Refused)
  {
    assert s.table[0].version == 1;
  }
}
