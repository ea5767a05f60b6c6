/** What the commercial commands promise over whole runs under a clock that never steps back. */
module AccountRuns {
  import opened Common
  import opened Calendar
  import opened Entitlement
  import opened Accounts
  import C = Concessions
  import T = ChargedTerms

  /** Every command on one account, with the instant it runs at; `later` is a second clock read. */
  datatype Command =
    | GrantCmd(grant: ReviseInput)
    | ReviseCmd(revise: ReviseInput)
    | CancelCmd(reason: string)
    | ReactivateCmd(reactivate: ReactivateInput, later: int)
    | UpdateCmd(update: UpdateInput)
    | SnapshotCmd(offer: T.Offer, source: T.Source)

  function Apply(a: Account, s: int, c: Command, now: int, id: nat): Account {
    match c
    case GrantCmd(input) => AdminGrant(a, s, input, now, id).account
    case ReviseCmd(input) => AdminRevise(a, s, input, now, id).account
    case CancelCmd(reason) => AdminCancel(a, reason, now).account
    case ReactivateCmd(input, later) => Reactivate(a, input, now, later, id).account
    case UpdateCmd(input) => Update(a, input, now, id).account
    case SnapshotCmd(offer, source) => InsertSnapshot(a, s, offer, source, now, id, None).account
  }

  /** A command, the instant it runs at, and the id it would give to the row it appends. */
  datatype Timed = Timed(command: Command, now: int, id: nat)

  /** The clock when a command has finished. */
  function Finish(t: Timed): int {
    if t.command.ReactivateCmd? then t.command.later else t.now
  }

  /** The clock does not step back before or inside the command; offers come from the catalog. */
  ghost predicate IsTimely(t: Timed, clock: int) {
    clock <= t.now <= Finish(t) && (t.command.SnapshotCmd? ==> T.IsTrimmed(t.command.offer))
  }

  ghost predicate IsTimeline(commands: seq<Timed>, clock: int)
    decreases |commands|
  {
    commands != [] ==> IsTimely(commands[0], clock) && IsTimeline(commands[1..], Finish(commands[0]))
  }

  function Run(a: Account, s: int, commands: seq<Timed>): Account
    decreases |commands|
  {
    if commands == [] then a
    else Run(Apply(a, s, commands[0].command, commands[0].now, commands[0].id), s, commands[1..])
  }

  /** Every command has an id that no concession of the account has when it runs. */
  ghost predicate IsIssued(a: Account, s: int, commands: seq<Timed>)
    decreases |commands|
  {
    commands != [] ==>
      var t := commands[0];
      C.Fresh(a.concessions, t.id) && IsIssued(Apply(a, s, t.command, t.now, t.id), s, commands[1..])
  }

  function ClockAfter(commands: seq<Timed>, clock: int): int
    decreases |commands|
  {
    if commands == [] then clock else ClockAfter(commands[1..], Finish(commands[0]))
  }

  // ----- Both ledgers, over every run of every command.

  ghost predicate Sound(a: Account, s: int, clock: int) {
    && (a.row.Some? ==> a.row.value.id == s)
    && C.Chain(a.concessions, s) && C.WellFormed(a.concessions) && C.StartedBy(a.concessions, clock)
    && T.Chain(a.terms, s) && T.EffectiveBy(a.terms, clock) && T.NeighboursDiffer(a.terms)
  }

  /** A sound account, and an id for the next row. */
  ghost predicate Ready(a: Account, s: int, id: nat, clock: int) {
    Sound(a, s, clock) && C.Fresh(a.concessions, id)
  }

  /** What an account may become: ledgers only grow, and what they hold stays. */
  ghost predicate Grows(a: Account, later: Account) {
    C.Extends(a.concessions, later.concessions) && a.terms <= later.terms
  }

  /** The invariant starts with the account: without ledger rows it holds of every row and at every instant. */
  lemma NewAccountIsSound(row: SubscriptionRow, binding: Option<Binding>, clock: int)
    ensures Sound(Account(Some(row), binding, [], []), row.id, clock)
  {
  }

  lemma LaterClockStaysSound(a: Account, s: int, clock: int, clock': int)
    requires Sound(a, s, clock) && clock <= clock'
    ensures Sound(a, s, clock')
  {
  }

  lemma GrowsIsReflexive(a: Account)
    ensures Grows(a, a)
  {
  }

  lemma InsertIsSound(a: Account, s: int, request: C.Request, now: int, id: nat, clock: int,
      row: Option<SubscriptionRow>)
    requires Ready(a, s, id, clock) && clock <= now && request.duration >= 1
    requires row.Some? ==> row.value.id == s
    ensures var later := a.(concessions := C.InsertVersion(a.concessions, s, request, now, id).history, row := row);
            Sound(later, s, now) && Grows(a, later)
  {
    C.InsertKeepsChain(a.concessions, s, request, now, id);
    C.InsertKeepsTerms(a.concessions, s, request, now, id, now);
    C.InsertKeepsHistory(a.concessions, s, request, now, id);
  }

  lemma GrantIsSound(a: Account, s: int, input: GrantInput, align: bool, now: int, id: nat, clock: int)
    requires Ready(a, s, id, clock) && clock <= now
    ensures var later := Grant(a, s, input, align, now, id).account; Sound(later, s, now) && Grows(a, later)
  {
    LaterClockStaysSound(a, s, clock, now);
    var checked := C.ValidateTerms(input.unit, input.duration, input.reason);
    if checked.Ok? {
      var later := Grant(a, s, input, align, now, id).account;
      InsertIsSound(a, s, RequestOf(input, checked.value, C.AdminGrant), now, id, clock, later.row);
    }
  }

  lemma ReviseIsSound(a: Account, s: int, input: ReviseInput, now: int, id: nat, clock: int)
    requires Ready(a, s, id, clock) && clock <= now
    ensures var later := Revise(a, s, input, now, id).account; Sound(later, s, now) && Grows(a, later)
  {
    LaterClockStaysSound(a, s, clock, now);
    var checked := C.ValidateTerms(input.unit, input.duration, input.reason);
    var current := C.CurrentRow(a.concessions, now);
    if checked.Ok? && current.Some? {
      var later := Revise(a, s, input, now, id).account;
      var request := C.Request(current.value.request.planId, current.value.request.billingCycleCode,
                               checked.value.unit, checked.value.duration, checked.value.reason, C.AdminRevise,
                                   input.actorId);
      InsertIsSound(a, s, request, now, id, clock, later.row);
    }
  }

  lemma CancelIsSound(a: Account, s: int, reason: string, expirePeriod: bool, now: int, id: nat, clock: int)
    requires Ready(a, s, id, clock) && clock <= now
    ensures var later := Cancel(a, reason, expirePeriod, now).account; Ready(later, s, id, now) && Grows(a, later)
  {
    LaterClockStaysSound(a, s, clock, now);
    var k := C.CurrentIndex(a.concessions, now);
    if k >= 0 {
      C.CancelCurrentKeepsHistory(a.concessions, s, now);
      C.CancelKeepsChain(a.concessions, s, a.concessions[k].id, now);
      C.CancelKeepsTerms(a.concessions, a.concessions[k].id, now, id, now);
      C.CancelTouchesOneRow(a.concessions, k, now);
    }
  }

  lemma FreeReactivationIsSound(a: Account, s: int, input: GrantInput, update: UpdateData, startsAt: int, id: nat,
      clock: int)
    requires Ready(a, s, id, clock) && clock <= startsAt
    ensures var later := FreeReactivation(a, s, input, update, startsAt, id).account;
            Sound(later, s, startsAt) && Grows(a, later)
  {
    LaterClockStaysSound(a, s, clock, startsAt);
    var checked := C.ValidateTerms(input.unit, input.duration, input.reason);
    if checked.Ok? {
      var request := RequestOf(input, checked.value, C.AdminReactivate);
      C.ReactivationKeepsChain(a.concessions, s, request, startsAt, id);
      C.ReactivationKeepsTerms(a.concessions, s, request, startsAt, id, startsAt);
      C.ReactivationKeepsHistory(a.concessions, s, request, startsAt, id);
    }
  }

  lemma PaidReactivationIsSound(a: Account, s: int, offer: T.Offer, update: UpdateData, now: int, id: nat,
      clock: int, actorId: Option<int>)
    requires Ready(a, s, id, clock) && clock <= now
    ensures var later := PaidReactivation(a, s, offer, update, now, id, actorId).account;
            Sound(later, s, now) && Grows(a, later)
  {
    LaterClockStaysSound(a, s, clock, now);
    T.ReactivationKeepsLedger(a.terms, s, offer, now, id, actorId);
  }

  lemma ReactivateFreeIsSound(a: Account, s: int, existing: SubscriptionRow, input: ReactivateInput,
      livePlan: string, reason: string, now: int, later: int, id: nat, clock: int)
    requires Ready(a, s, id, clock) && clock <= now <= later && existing.id == s
    ensures var next := ReactivateFree(a, existing, input, livePlan, reason, now, later, id).account;
            Sound(next, s, later) && Grows(a, next)
  {
    LaterClockStaysSound(a, s, clock, later);
    GrowsIsReflexive(a);
    if input.freePeriod.Some? {
      var period := input.freePeriod.value;
      var grant := GrantInput(livePlan, CycleCode(input.billingCycle), UnitName(period.unit), period.duration,
          reason, input.actorId);
      FreeReactivationIsSound(a, s, grant, Activate(livePlan, input.billingCycle, now, None), later, id, clock);
    }
  }

  lemma ReactivatePaidBranches(a: Account, existing: SubscriptionRow, input: ReactivateInput, now: int, later: int,
      id: nat)
    ensures var next := ReactivatePaid(a, existing, input, now, later, id).account;
            var offer := ResolveChargedTerms(input.listing, input.billingCycle);
            || next == a
            || (offer.Ok? &&
                var update := Activate(offer.value.planId, input.billingCycle, now, input.periodEnd);
                next == PaidReactivation(a, existing.id, offer.value, update, later, id, input.actorId).account)
  {
  }

  lemma ReactivatePaidIsSound(a: Account, s: int, existing: SubscriptionRow, input: ReactivateInput, now: int,
      later: int, id: nat, clock: int)
    requires Ready(a, s, id, clock) && clock <= now <= later && existing.id == s
    ensures var next := ReactivatePaid(a, existing, input, now, later, id).account;
            Sound(next, s, later) && Grows(a, next)
  {
    ReactivatePaidBranches(a, existing, input, now, later, id);
    var offer := ResolveChargedTerms(input.listing, input.billingCycle);
    if ReactivatePaid(a, existing, input, now, later, id).account == a {
      LaterClockStaysSound(a, s, clock, later);
      GrowsIsReflexive(a);
    } else {
      PaidReactivationIsSound(a, s, offer.value, Activate(offer.value.planId, input.billingCycle, now, input.periodEnd),
                              later, id, clock, input.actorId);
    }
  }

  lemma ReactivateIsSound(a: Account, s: int, input: ReactivateInput, now: int, later: int, id: nat, clock: int)
    requires Ready(a, s, id, clock) && clock <= now <= later
    ensures var next := Reactivate(a, input, now, later, id).account; Sound(next, s, later) && Grows(a, next)
  {
    var reason := C.NormalizeReason(input.reason);
    if a.row.Some? && reason.Ok? && input.livePlan.Some? {
      if input.mode == Free {
        ReactivateFreeIsSound(a, s, a.row.value, input, input.livePlan.value, reason.value, now, later, id, clock);
      } else {
        ReactivatePaidIsSound(a, s, a.row.value, input, now, later, id, clock);
      }
    } else {
      LaterClockStaysSound(a, s, clock, later);
      GrowsIsReflexive(a);
    }
  }

  lemma IdentityChangeIsSound(a: Account, s: int, offer: T.Offer, update: UpdateData, now: int, id: nat,
      actorId: Option<int>)
    requires Ready(a, s, id, now)
    ensures var later := IdentityChange(a, s, offer, update, now, id, actorId).account;
            Sound(later, s, now) && Grows(a, later)
  {
    LaterClockStaysSound(a, s, now, now);
    T.IdentityChangeKeepsLedger(a.terms, s, offer, now, id, actorId);
  }

  lemma RowWriteIsSound(a: Account, s: int, update: UpdateData, binding: Option<Binding>, id: nat, now: int)
    requires Ready(a, s, id, now)
    ensures var later := a.(row := WriteIfPresent(a.row, update), binding := binding);
            Sound(later, s, now) && Grows(a, later)
  {
  }

  /** The three branches that write, and no other change: plain, under a concession, identity change. */
  lemma CommitUpdateBranches(a: Account, existing: SubscriptionRow, u: UpdateData, listing: Option<Listing>,
                             actorId: Option<int>, now: int, id: nat)
    ensures var done := CommitUpdate(a, existing, u, listing, actorId, now, id);
            var offer := ResolveChargedTerms(listing, Else(u.billingCycle, existing.billingCycle));
            || done.account == a
            || done.account == a.(row := WriteIfPresent(a.row, u), binding := a.binding)
            || done.account == a.(row := WriteIfPresent(a.row, u),
                                  binding := SetBindingPlan(a.binding, Else(u.planId, existing.planId)))
            || (offer.Ok? && done.account == IdentityChange(a, existing.id, offer.value, u, now, id, actorId).account)
  {
  }

  lemma CommitUpdateIsSound(a: Account, existing: SubscriptionRow, s: int, u: UpdateData, listing: Option<Listing>,
                            actorId: Option<int>, now: int, id: nat)
    requires Ready(a, s, id, now) && existing.id == s
    ensures var later := CommitUpdate(a, existing, u, listing, actorId, now, id).account;
            Sound(later, s, now) && Grows(a, later)
  {
    CommitUpdateBranches(a, existing, u, listing, actorId, now, id);
    var later := CommitUpdate(a, existing, u, listing, actorId, now, id).account;
    var offer := ResolveChargedTerms(listing, Else(u.billingCycle, existing.billingCycle));
    if later == a {
      LaterClockStaysSound(a, s, now, now);
      GrowsIsReflexive(a);
    } else if offer.Ok? && later == IdentityChange(a, s, offer.value, u, now, id, actorId).account {
      IdentityChangeIsSound(a, s, offer.value, u, now, id, actorId);
    } else {
      RowWriteIsSound(a, s, u, later.binding, id, now);
    }
  }

  lemma UpdateIsSound(a: Account, s: int, input: UpdateInput, now: int, id: nat, clock: int)
    requires Ready(a, s, id, clock) && clock <= now
    ensures var later := Update(a, input, now, id).account; Sound(later, s, now) && Grows(a, later)
  {
    LaterClockStaysSound(a, s, clock, now);
    LaterClockStaysSound(a, s, clock, now);
    if a.row.Some? && BuildUpdateData(input).Ok? {
      var resolved := ResolvePlan(BuildUpdateData(input).value, input.livePlan);
      var cancelled := CancelOnCanceled(a, input.status, now);
      CancelIsSound(a, s, "subscription_canceled", false, now, id, clock);
      if resolved.Ok? {
        CommitUpdateIsSound(cancelled, a.row.value, s, resolved.value, input.listing, input.actorId, now, id);
        C.ExtendsIsTransitive(a.concessions, cancelled.concessions,
          CommitUpdate(cancelled, a.row.value, resolved.value, input.listing, input.actorId, now,
              id).account.concessions);
      }
    }
  }

  lemma AdminGrantIsSound(a: Account, s: int, input: ReviseInput, now: int, id: nat, clock: int)
    requires Ready(a, s, id, clock) && clock <= now
    ensures var later := AdminGrant(a, s, input, now, id).account; Sound(later, s, now) && Grows(a, later)
  {
    LaterClockStaysSound(a, s, clock, now);
    if ModifiableGate(a.row).Ok? {
      var existing := a.row.value;
      var grant := GrantInput(existing.planId, CycleCode(existing.billingCycle), input.unit, input.duration,
                              input.reason, input.actorId);
      GrantIsSound(a, s, grant, true, now, id, clock);
    }
  }

  lemma AdminReviseIsSound(a: Account, s: int, input: ReviseInput, now: int, id: nat, clock: int)
    requires Ready(a, s, id, clock) && clock <= now
    ensures var later := AdminRevise(a, s, input, now, id).account; Sound(later, s, now) && Grows(a, later)
  {
    LaterClockStaysSound(a, s, clock, now);
    ReviseIsSound(a, s, input, now, id, clock);
  }

  lemma AdminCancelIsSound(a: Account, s: int, reason: string, now: int, id: nat, clock: int)
    requires Ready(a, s, id, clock) && clock <= now
    ensures var later := AdminCancel(a, reason, now).account; Sound(later, s, now) && Grows(a, later)
  {
    LaterClockStaysSound(a, s, clock, now);
    CancelIsSound(a, s, reason, T.CurrentSnapshot(a.terms).None?, now, id, clock);
  }

  lemma SnapshotIsSound(a: Account, s: int, offer: T.Offer, source: T.Source, now: int, id: nat, clock: int)
    requires Ready(a, s, id, clock) && clock <= now && T.IsTrimmed(offer)
    ensures var later := InsertSnapshot(a, s, offer, source, now, id, None).account;
            Sound(later, s, now) && Grows(a, later)
  {
    LaterClockStaysSound(a, s, clock, now);
    T.InsertSnapshotKeepsLedger(a.terms, s, offer, source, now, id, None);
  }

  lemma CommandIsSound(a: Account, s: int, t: Timed, clock: int)
    requires Ready(a, s, t.id, clock) && IsTimely(t, clock)
    ensures var later := Apply(a, s, t.command, t.now, t.id); Sound(later, s, Finish(t)) && Grows(a, later)
  {
    match t.command
    case GrantCmd(input) => AdminGrantIsSound(a, s, input, t.now, t.id, clock);
    case ReviseCmd(input) => AdminReviseIsSound(a, s, input, t.now, t.id, clock);
    case CancelCmd(reason) => AdminCancelIsSound(a, s, reason, t.now, t.id, clock);
    case ReactivateCmd(input, later) => ReactivateIsSound(a, s, input, t.now, later, t.id, clock);
    case UpdateCmd(input) => UpdateIsSound(a, s, input, t.now, t.id, clock);
    case SnapshotCmd(offer, source) => SnapshotIsSound(a, s, offer, source, t.now, t.id, clock);
  }

  /**
   * Over every run of every command: both ledgers are chains with versions 1..n, stored rows keep
   * their terms and a concession's status changes at most once, a superseded concession names its
   * successor, the current snapshot is the one inserted last, neighbouring snapshots differ unless
   * the later is a reactivation, and only the newest concession can be current.
   */
  lemma {:induction false} EveryRunIsSound(a: Account, s: int, commands: seq<Timed>, clock: int, now: int)
    requires Sound(a, s, clock) && IsTimeline(commands, clock) && IsIssued(a, s, commands)
    requires ClockAfter(commands, clock) <= now
    ensures var later := Run(a, s, commands);
            && Sound(later, s, ClockAfter(commands, clock))
            && Grows(a, later)
            && T.CurrentSnapshot(later.terms) ==
               (if later.terms == [] then None else Some(later.terms[|later.terms| - 1]))
            && (forall i :: 0 <= i < |later.concessions| - 1 ==> !C.IsCurrent(later.concessions[i], now))
    decreases |commands|
  {
    if commands == [] {
      T.CurrentIsLastInserted(a.terms, s);
      C.OnlyNewestCanBeCurrent(a.concessions, s, now);
    } else {
      var t := commands[0];
      CommandIsSound(a, s, t, clock);
      var next := Apply(a, s, t.command, t.now, t.id);
      EveryRunIsSound(next, s, commands[1..], Finish(t), now);
      C.ExtendsIsTransitive(a.concessions, next.concessions, Run(a, s, commands).concessions);
    }
  }
}
