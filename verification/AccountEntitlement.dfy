/** How the commercial commands move an account's entitlement. */
module AccountEntitlement {
  import opened Common
  import opened Calendar
  import opened Entitlement
  import opened Accounts
  import opened AccountRuns
  import C = Concessions
  import T = ChargedTerms

  // ----- Updates and cancellations never bring an account back.

  lemma SameColumnsSameEntitlement(a: SubscriptionRow, b: SubscriptionRow, t: int)
    requires a.status == b.status && a.currentPeriodEnd == b.currentPeriodEnd && a.trialEndsAt == b.trialEndsAt
    ensures EntitledNow(a, t) == EntitledNow(b, t)
  {
  }

  /** The guard judged the row that is written: whichever branch writes, both agree at every instant. */
  lemma GuardJudgesWrittenRow(a: Account, input: UpdateInput, now: int, id: nat, t: int)
    requires a.row.Some? && BuildUpdateData(input).Ok?
    ensures var later := Update(a, input, now, id).account;
            && later.row.Some?
            && (later.row == a.row ||
                (&& !ImplicitlyReactivates(a.row.value, Projected(a.row.value, BuildUpdateData(input).value), now)
                 && EntitledNow(later.row.value, t) == EntitledNow(Projected(a.row.value,
                     BuildUpdateData(input).value), t)))
  {
    var raw := BuildUpdateData(input).value;
    var cancelled := CancelOnCanceled(a, input.status, now);
    assert cancelled.row == a.row;
    if ResolvePlan(raw, input.livePlan).Ok? {
      var u := ResolvePlan(raw, input.livePlan).value;
      CommitUpdateBranches(cancelled, a.row.value, u, input.listing, input.actorId, now, id);
      SameColumnsSameEntitlement(Write(a.row.value, u), Projected(a.row.value, raw), t);
    }
  }

  ghost predicate IsDead(a: Account, now: int) {
    a.row.Some? && !EntitledNow(a.row.value, now)
  }

  predicate IsUpdateOrCancel(c: Command) {
    c.UpdateCmd? || c.CancelCmd?
  }

  lemma DeadStaysDead(a: Account, now: int, later: int)
    requires IsDead(a, now) && now <= later
    ensures IsDead(a, later)
  {
    if EntitledNow(a.row.value, later) {
      EntitlementOnlyLapses(a.row.value, now, later);
    }
  }

  lemma UpdateOrCancelKeepsDead(a: Account, s: int, t: Timed, clock: int)
    requires IsDead(a, clock) && IsUpdateOrCancel(t.command) && clock <= t.now
    ensures IsDead(Apply(a, s, t.command, t.now, t.id), t.now)
  {
    DeadStaysDead(a, clock, t.now);
    match t.command
    case UpdateCmd(input) =>
      if BuildUpdateData(input).Ok? {
        GuardJudgesWrittenRow(a, input, t.now, t.id, t.now);
      }
    case CancelCmd(reason) =>
  }

  /**
   * Over every run of admin updates and concession cancellations, however long after and whatever
   * they ask for, an account row that is not entitled never becomes entitled.
   */
  lemma {:induction false} UpdatesNeverRevive(a: Account, s: int, commands: seq<Timed>, clock: int, now: int)
    requires IsDead(a, clock) && IsTimeline(commands, clock) && ClockAfter(commands, clock) <= now
    requires forall i :: 0 <= i < |commands| ==> IsUpdateOrCancel(commands[i].command)
    ensures IsDead(Run(a, s, commands), now)
    decreases |commands|
  {
    if commands == [] {
      DeadStaysDead(a, clock, now);
    } else {
      var t := commands[0];
      UpdateOrCancelKeepsDead(a, s, t, clock);
      UpdatesNeverRevive(Apply(a, s, t.command, t.now, t.id), s, commands[1..], Finish(t), now);
    }
  }

  // ----- What an update reports, and what it drops.

  /**
   * The audited fields are compared as text: a plan or status asked for that the row does not have,
   * or an end asked for whose ISO text is not the stored text.
   */
  predicate ChangesAuditedText(row: SubscriptionRow, u: UpdateData) {
    || (u.planId.Some? && u.planId.value != row.planId)
    || (u.status.Some? && u.status.value != row.status)
    || (u.currentPeriodEnd.Some? && row.currentPeriodEnd != At(u.currentPeriodEnd.value, Iso))
  }

  /** The update data after the catalog has resolved the plan, for an update that got that far. */
  function Resolved(input: UpdateInput): (u: UpdateData)
    ensures u.billingCycle == input.billingCycle
  {
    var u := if BuildUpdateData(input).Ok? then BuildUpdateData(input).value
             else UpdateData(None, input.billingCycle, None, None, None, None);
    if input.livePlan.Some? && u.planId.Some? then u.(planId := input.livePlan) else u
  }

  /** Whichever branch is taken, the row is written whole, and exactly when an audited text changes. */
  lemma CommitWritesExactlyAuditedChanges(a: Account, existing: SubscriptionRow, u: UpdateData,
      listing: Option<Listing>,
                                          actorId: Option<int>, now: int, id: nat)
    requires a.row == Some(existing)
    ensures var done := CommitUpdate(a, existing, u, listing, actorId, now, id);
            done.result.Ok? ==>
              && (done.result.value <==> ChangesAuditedText(existing, u))
              && done.account.row == Some(if done.result.value then Write(existing, u) else existing)
  {
  }

  /** An update writes, and says so, exactly when an audited text changes; otherwise the row stays. */
  lemma UpdateReportsAuditedChange(a: Account, input: UpdateInput, now: int, id: nat)
    requires a.row.Some?
    ensures var done := Update(a, input, now, id);
            && (done.result.Ok? ==>
                  && (done.result.value <==> ChangesAuditedText(a.row.value, Resolved(input)))
                  && done.account.row == Some(if done.result.value then Write(a.row.value,
                      Resolved(input)) else a.row.value))
            && (done.result.Err? ==> done.account.row == a.row)
  {
    var built := BuildUpdateData(input);
    if built.Ok? && ResolvePlan(built.value, input.livePlan).Ok? {
      var u := ResolvePlan(built.value, input.livePlan).value;
      assert u == Resolved(input);
      var cancelled := CancelOnCanceled(a, input.status, now);
      assert cancelled.row == a.row;
      CommitWritesExactlyAuditedChanges(cancelled, a.row.value, u, input.listing, input.actorId, now, id);
      CommitUpdateBranches(cancelled, a.row.value, u, input.listing, input.actorId, now, id);
    }
  }

  /** A requested cycle ends up in the row exactly when it was there already or an audited text changes too. */
  lemma CycleIsStoredExactlyWhen(a: Account, input: UpdateInput, now: int, id: nat)
    requires a.row.Some? && input.billingCycle.Some?
    ensures var done := Update(a, input, now, id);
            done.result.Ok? ==>
              && done.account.row.Some?
              && (done.account.row.value.billingCycle == input.billingCycle.value <==>
                    a.row.value.billingCycle == input.billingCycle.value ||
                        ChangesAuditedText(a.row.value, Resolved(input)))
  {
    UpdateReportsAuditedChange(a, input, now, id);
  }

  /** All that is asked for of the audited fields is the end the row has, spelled the other way. */
  predicate OnlyRespells(row: SubscriptionRow, u: UpdateData) {
    && u.currentPeriodEnd.Some? && row.currentPeriodEnd == Stamped(u.currentPeriodEnd.value)
    && (u.planId.None? || u.planId.value == row.planId) && (u.status.None? || u.status.value == row.status)
  }

  /**
   * On a row as the database reads it back, the reported change is a change of the stored plan,
   * status or end exactly when the update does not merely respell the end. It never misses one.
   */
  lemma ReportIsTrueExactlyWhen(a: Account, input: UpdateInput, now: int, id: nat)
    requires a.row.Some? && (a.row.value.currentPeriodEnd.At? ==> a.row.value.currentPeriodEnd.spelling == Column)
    ensures var done := Update(a, input, now, id);
            done.result.Ok? ==>
              && done.account.row.Some?
              && (AuditOf(done.account.row.value) != AuditOf(a.row.value) ==> done.result.value)
              && ((done.result.value <==> AuditOf(done.account.row.value) != AuditOf(a.row.value)) <==>
                    !OnlyRespells(a.row.value, Resolved(input)))
  {
    UpdateReportsAuditedChange(a, input, now, id);
  }

  /** So sending the stored end along with a new cycle stores the cycle, and reports a change of nothing audited. */
  lemma RespelledEndCarriesCycle(a: Account, cycle: BillingCycle, end: int, listing: Option<Listing>, trialEnd: int,
                                 actorId: Option<int>, now: int, id: nat)
    requires a.row.Some? && a.row.value.currentPeriodEnd == Stamped(end)
    requires ResolveChargedTerms(listing, cycle).Ok?
    ensures var input := UpdateInput(None, None, listing, Some(cycle), None, Given(end), trialEnd, actorId);
            var done := Update(a, input, now, id);
            && done.result == Ok(true)
            && done.account.row.Some? && done.account.row.value.billingCycle == cycle
            && AuditOf(done.account.row.value) == AuditOf(a.row.value)
  {
    var input := UpdateInput(None, None, listing, Some(cycle), None, Given(end), trialEnd, actorId);
    EntitledMeansLiveAndUnexpired(a.row.value, now);
    UpdateReportsAuditedChange(a, input, now, id);
    assert Projected(a.row.value, BuildUpdateData(input).value) == a.row.value;
  }

  /**
   * The billing cycle is not part of the audited change, so an update that asks for nothing but
   * another billing cycle is accepted and written nowhere.
   */
  lemma CycleOnlyUpdateIsDropped(a: Account, cycle: BillingCycle, listing: Option<Listing>, trialEnd: int,
                                 actorId: Option<int>, now: int, id: nat)
    requires a.row.Some?
    ensures var input := UpdateInput(None, None, listing, Some(cycle), None, NotGiven, trialEnd, actorId);
            var done := Update(a, input, now, id);
            && done.account == a
            && (done.result == Ok(false) || ResolveChargedTerms(listing, cycle).Err?)
  {
    EntitledMeansLiveAndUnexpired(a.row.value, now);
  }

  // ----- Reactivation.

  /**
   * Reactivation succeeds only with an entitled account, reports a change exactly when the account
   * was not entitled before, and then adds one row to one ledger: a snapshot when paid, a
   * concession when free. Without a change, or on an error, nothing is written.
   */
  lemma ReactivationEntitles(a: Account, s: int, input: ReactivateInput, now: int, later: int, id: nat)
    requires now <= later
    ensures var done := Reactivate(a, input, now, later, id);
            && (done.result.Err? ==> done.account == a)
            && (done.result.Ok? ==>
                  var change := done.result.value;
                  && a.row.Some? && done.account.row.Some?
                  && EntitledNow(done.account.row.value, now)
                  && (change.changed <==> !EntitledNow(a.row.value, now))
                  && (!change.changed ==> done.account == a)
                  && (change.changed && input.mode == Paid ==>
                        && done.account.concessions == a.concessions
                        && |done.account.terms| == |a.terms| + 1 && a.terms <= done.account.terms
                        && change.snapshotId == Some(done.account.terms[|a.terms|].id) && change.concessionId.None?
                        && input.periodEnd.Some? && (EntitledNow(done.account.row.value, later) <==>
                            later < input.periodEnd.value))
                  && (change.changed && input.mode == Free ==>
                        && done.account.terms == a.terms
                        && |done.account.concessions| == |a.concessions| + 1 &&
                            a.concessions <= done.account.concessions
                        && change.concessionId == Some(done.account.concessions[|a.concessions|].id) &&
                            change.snapshotId.None?
                        && EntitledNow(done.account.row.value, later)))
  {
    var checked := C.NormalizeReason(input.reason);
    if a.row.Some? && checked.Ok? && input.livePlan.Some? {
      if input.mode == Free {
        FreeReactivationEntitles(a, a.row.value, input, input.livePlan.value, checked.value, now, later, id);
      } else {
        PaidReactivationEntitles(a, a.row.value, input, now, later, id);
      }
    }
  }

  lemma FreeReactivationEntitles(a: Account, existing: SubscriptionRow, input: ReactivateInput, livePlan: string,
                                 reason: string, now: int, later: int, id: nat)
    requires now <= later && a.row == Some(existing)
    ensures var done := ReactivateFree(a, existing, input, livePlan, reason, now, later, id);
            && (done.result.Err? ==> done.account == a)
            && (done.result.Ok? && !done.result.value.changed ==> done.account == a && EntitledNow(existing, now))
            && (done.result.Ok? && done.result.value.changed ==>
                  && !EntitledNow(existing, now)
                  && done.account.row.Some?
                  && EntitledNow(done.account.row.value, now) && EntitledNow(done.account.row.value, later)
                  && done.account.terms == a.terms
                  && |done.account.concessions| == |a.concessions| + 1 && a.concessions <= done.account.concessions
                  && done.result.value ==
                       Reactivation(true, None, Some(done.account.concessions[|a.concessions|].id)))
  {
    if input.freePeriod.Some? && !EntitledNow(existing, now) {
      var period := input.freePeriod.value;
      var checked := C.ValidateTerms(UnitName(period.unit), period.duration, reason);
      if checked.Ok? {
        EndIsAfterStart(later, checked.value.unit, checked.value.duration);
      }
    }
  }

  lemma PaidReactivationEntitles(a: Account, existing: SubscriptionRow, input: ReactivateInput, now: int, later: int,
      id: nat)
    requires now <= later && a.row == Some(existing)
    ensures var done := ReactivatePaid(a, existing, input, now, later, id);
            && (done.result.Err? ==> done.account == a)
            && (done.result.Ok? && !done.result.value.changed ==> done.account == a && EntitledNow(existing, now))
            && (done.result.Ok? && done.result.value.changed ==>
                  && !EntitledNow(existing, now)
                  && done.account.row.Some? && EntitledNow(done.account.row.value, now)
                  && input.periodEnd.Some? && (EntitledNow(done.account.row.value, later) <==>
                      later < input.periodEnd.value)
                  && done.account.concessions == a.concessions
                  && |done.account.terms| == |a.terms| + 1 && a.terms <= done.account.terms
                  && done.result.value == Reactivation(true, Some(done.account.terms[|a.terms|].id), None))
  {
  }

  // ----- A running concession entitles.

  predicate IsConcessionCommand(c: Command) {
    c.GrantCmd? || c.ReviseCmd? || c.CancelCmd? || (c.ReactivateCmd? && c.reactivate.mode == Free)
  }

  /** The period covers the newest concession for as long as that concession has not been ended. */
  ghost predicate Covers(a: Account) {
    && a.row.Some? && !a.row.value.currentPeriodEnd.Unreadable?
    && (a.concessions != [] && a.concessions[|a.concessions| - 1].status == C.Active ==>
          && a.row.value.status == Active
          && a.row.value.currentPeriodEnd.At?
          && a.row.value.currentPeriodEnd.ms >= a.concessions[|a.concessions| - 1].endsAt)
  }

  lemma AlignCovers(row: Option<SubscriptionRow>, endsAt: int)
    requires row.Some? && !row.value.currentPeriodEnd.Unreadable? && endsAt > 0
    ensures var aligned := AlignPeriodEnd(row, endsAt);
            && aligned.Some? && aligned.value.status == row.value.status
            && aligned.value.currentPeriodEnd.At? && aligned.value.currentPeriodEnd.ms >= endsAt
  {
  }

  lemma GrantCovers(a: Account, s: int, input: ReviseInput, now: int, id: nat, clock: int)
    requires Ready(a, s, id, clock) && Covers(a) && 0 <= clock <= now
    ensures Covers(AdminGrant(a, s, input, now, id).account)
  {
    var checked := C.ValidateTerms(input.unit, input.duration, input.reason);
    if checked.Ok? {
      EndIsAfterStart(now, checked.value.unit, checked.value.duration);
      AlignCovers(a.row, ComputeConcessionEndsAt(now, checked.value.unit, checked.value.duration));
    }
  }

  lemma ReviseCovers(a: Account, s: int, input: ReviseInput, now: int, id: nat, clock: int)
    requires Ready(a, s, id, clock) && Covers(a) && 0 <= clock <= now
    ensures Covers(AdminRevise(a, s, input, now, id).account)
  {
    var checked := C.ValidateTerms(input.unit, input.duration, input.reason);
    if checked.Ok? {
      EndIsAfterStart(now, checked.value.unit, checked.value.duration);
      AlignCovers(a.row, ComputeConcessionEndsAt(now, checked.value.unit, checked.value.duration));
    }
  }

  lemma CancelCovers(a: Account, s: int, reason: string, now: int, id: nat, clock: int)
    requires Ready(a, s, id, clock) && Covers(a) && clock <= now
    ensures Covers(AdminCancel(a, reason, now).account)
  {
    var k := C.CurrentIndex(a.concessions, now);
    if k >= 0 {
      C.OnlyNewestCanBeCurrent(a.concessions, s, now);
      C.CancelTouchesOneRow(a.concessions, k, now);
    }
  }

  lemma FreeReactivationCovers(a: Account, input: ReactivateInput, now: int, later: int, id: nat)
    requires Covers(a) && input.mode == Free && now <= later
    ensures Covers(Reactivate(a, input, now, later, id).account)
  {
  }

  lemma ConcessionCommandCovers(a: Account, s: int, t: Timed, clock: int)
    requires Ready(a, s, t.id, clock) && Covers(a) && 0 <= clock && IsTimely(t, clock) && IsConcessionCommand(t.command)
    ensures Covers(Apply(a, s, t.command, t.now, t.id))
  {
    match t.command
    case GrantCmd(input) => GrantCovers(a, s, input, t.now, t.id, clock);
    case ReviseCmd(input) => ReviseCovers(a, s, input, t.now, t.id, clock);
    case CancelCmd(reason) => CancelCovers(a, s, reason, t.now, t.id, clock);
    case ReactivateCmd(input, later) => FreeReactivationCovers(a, input, t.now, later, t.id);
  }

  /**
   * In every run of grants, revisions, cancellations and free reactivations, a subscription with a
   * current concession has a period at least as long and is therefore entitled. The parser that
   * aligns periods and the one that judges them are taken to agree, as they do on a server in UTC.
   */
  lemma {:induction false} CurrentConcessionEntitles(a: Account, s: int, commands: seq<Timed>, clock: int, now: int)
    requires Sound(a, s, clock) && Covers(a) && 0 <= clock
    requires IsTimeline(commands, clock) && IsIssued(a, s, commands) && ClockAfter(commands, clock) <= now
    requires forall i :: 0 <= i < |commands| ==> IsConcessionCommand(commands[i].command)
    ensures var later := Run(a, s, commands);
            && Covers(later)
            && (C.CurrentRow(later.concessions, now).Some? ==>
                  && later.row.value.currentPeriodEnd.At?
                  && later.row.value.currentPeriodEnd.ms >= C.CurrentRow(later.concessions, now).value.endsAt
                  && EntitledNow(later.row.value, now))
    decreases |commands|
  {
    if commands == [] {
      C.OnlyNewestCanBeCurrent(a.concessions, s, now);
    } else {
      var t := commands[0];
      ConcessionCommandCovers(a, s, t, clock);
      CommandIsSound(a, s, t, clock);
      CurrentConcessionEntitles(Apply(a, s, t.command, t.now, t.id), s, commands[1..], Finish(t), now);
    }
  }

  lemma AlignedRowIsEntitledExactlyWhen(row: SubscriptionRow, endsAt: int, now: int)
    requires row.status == Active && 0 <= now < endsAt
    ensures var aligned := AlignPeriodEnd(Some(row), endsAt);
            aligned.Some? && (EntitledNow(aligned.value, now) <==> !row.currentPeriodEnd.Unreadable?)
  {
  }

  /** Without a current concession a valid grant inserts its row and aligns the period to it. */
  lemma GrantInsertsAndAligns(a: Account, s: int, input: ReviseInput, now: int, id: nat)
    requires a.row.Some? && a.row.value.status == Active
    requires C.CurrentRow(a.concessions, now).None? && C.ValidateTerms(input.unit, input.duration, input.reason).Ok?
    ensures var done := AdminGrant(a, s, input, now, id);
            && done.result.Ok? && now < done.result.value.endsAt
            && done.account.row == AlignPeriodEnd(a.row, done.result.value.endsAt)
            && C.CurrentRow(done.account.concessions, now) == Some(done.result.value)
  {
    var checked := C.ValidateTerms(input.unit, input.duration, input.reason).value;
    EndIsAfterStart(now, checked.unit, checked.duration);
    var existing := a.row.value;
    var grant := GrantInput(existing.planId, CycleCode(existing.billingCycle), input.unit, input.duration,
        input.reason, input.actorId);
    C.InsertedRowIsCurrent(a.concessions, s, RequestOf(grant, checked, C.AdminGrant), now, id);
  }

  /**
   * A grant that inserts a row entitles exactly when the stored period end is absent or readable:
   * over an unreadable one the concession runs but entitles nobody.
   */
  lemma GrantEntitlesExactlyWhenPeriodReadable(a: Account, s: int, input: ReviseInput, now: int, id: nat)
    requires a.row.Some? && a.row.value.status == Active && now >= 0
    requires C.CurrentRow(a.concessions, now).None? && C.ValidateTerms(input.unit, input.duration, input.reason).Ok?
    ensures var done := AdminGrant(a, s, input, now, id);
            && done.result.Ok? && done.account.row.Some?
            && C.CurrentRow(done.account.concessions, now) == Some(done.result.value)
            && (EntitledNow(done.account.row.value, now) <==> !a.row.value.currentPeriodEnd.Unreadable?)
  {
    GrantInsertsAndAligns(a, s, input, now, id);
    AlignedRowIsEntitledExactlyWhen(a.row.value, AdminGrant(a, s, input, now, id).result.value.endsAt, now);
  }

  /**
   * Cancelling the current concession ends entitlement at that instant when there are no charged
   * terms, and leaves the row alone when there are.
   */
  lemma CancellingEndsUnpaidEntitlement(a: Account, s: int, reason: string, now: int, id: nat, later: int)
    requires Ready(a, s, id, now) && Covers(a) && now <= later
    requires C.CurrentRow(a.concessions, now).Some? && C.NormalizeReason(reason).Ok?
    ensures EntitledNow(a.row.value, now)
    ensures var done := AdminCancel(a, reason, now);
            && done.result.Ok? && done.account.row.Some?
            && C.CurrentRow(done.account.concessions, now).None?
            && (a.terms == [] ==> !EntitledNow(done.account.row.value, later))
            && (a.terms != [] ==> done.account.row == a.row)
  {
    C.OnlyNewestCanBeCurrent(a.concessions, s, now);
    C.CancelCurrentKeepsHistory(a.concessions, s, now);
  }

  /** A successful grant leaves its row the newest, running with the asked terms, on an active subscription. */
  lemma GrantedRowIsNewest(a: Account, s: int, input: ReviseInput, now: int, id: nat)
    requires Ready(a, s, id, now) && AdminGrant(a, s, input, now, id).result.Ok?
    ensures var granted := AdminGrant(a, s, input, now, id);
            var h := granted.account.concessions;
            && ModifiableGate(granted.account.row).Ok?
            && h != [] && h[|h| - 1] == granted.result.value
            && granted.result.value.status == C.Active
            && C.ValidateTerms(input.unit, input.duration, input.reason).Ok?
            && C.MatchesGrant(granted.result.value, C.ValidateTerms(input.unit, input.duration,
                input.reason).value.unit, input.duration)
  {
    C.OnlyNewestCanBeCurrent(a.concessions, s, now);
  }

  /** While a grant runs, repeating it with the same unit and duration returns its row and changes nothing. */
  lemma RepeatedGrantChangesNothing(a: Account, s: int, input: ReviseInput, again: ReviseInput, now: int, later: int,
                                    id: nat, id': nat)
    requires Ready(a, s, id, now) && AdminGrant(a, s, input, now, id).result.Ok?
    requires again.unit == input.unit && again.duration == input.duration
    requires C.ValidateTerms(again.unit, again.duration, again.reason).Ok?
    requires later < AdminGrant(a, s, input, now, id).result.value.endsAt
    ensures var granted := AdminGrant(a, s, input, now, id);
            AdminGrant(granted.account, s, again, later, id') == granted
  {
    GrantedRowIsNewest(a, s, input, now, id);
    var granted := AdminGrant(a, s, input, now, id);
    var h := granted.account.concessions;
    assert C.IsCurrent(h[|h| - 1], later);
    assert C.CurrentRow(h, later) == Some(granted.result.value);
  }
}
