/**
 * What each commercial command leaves in an account, column by column, and exactly when it is
 * carried out. The statements name the stored columns, not the functions that compute them.
 */
module AccountContents {
  import opened Common
  import opened Calendar
  import opened Entitlement
  import opened Accounts
  import opened AccountRuns
  import opened AccountEntitlement
  import C = Concessions
  import T = ChargedTerms

  // ----- The words of a request.

  predicate HasReason(reason: string) {
    1 <= |Trim(reason)| <= 512
  }

  predicate AreAcceptable(unit: string, duration: int, reason: string) {
    && ((unit == "day" && 1 <= duration <= 366) || (unit == "month" && 1 <= duration <= 24))
    && HasReason(reason)
  }

  /** What a stored concession says of the words that asked for it. */
  function Asked(planId: string, cycleCode: string, input: ReviseInput, source: C.Source): C.Request {
    C.Request(planId, cycleCode, if input.unit == "day" then Day else Month, input.duration, Trim(input.reason),
              source, input.actorId)
  }

  /** The offer that a listing makes for a cycle. */
  function ListedOffer(listing: Listing, cycle: BillingCycle): T.Offer {
    T.Offer(listing.planId, Trim(listing.amount), Trim(listing.currency), listing.billingCycleId, CycleCode(cycle))
  }

  // ----- How columns move.

  /** The later of the two; an absent end counts as the epoch and an unreadable one stays. */
  ghost predicate IsLaterEnd(before: StoredInstant, endsAt: int, after: StoredInstant) {
    match before
    case Unreadable => after == before
    case Missing => after == if endsAt > 0 then At(endsAt, Column) else before
    case At(ms, _) => after == if endsAt > ms then At(endsAt, Column) else before
  }

  /** Nothing of the row has moved but its period end, to the later of the two. */
  ghost predicate OnlyExtends(before: Option<SubscriptionRow>, endsAt: int, after: Option<SubscriptionRow>) {
    && before.Some? && after.Some?
    && after.value == before.value.(currentPeriodEnd := after.value.currentPeriodEnd)
    && IsLaterEnd(before.value.currentPeriodEnd, endsAt, after.value.currentPeriodEnd)
  }

  /** A binding keeps its terms and moves to the offer's plan; an absent one is made from the offer. */
  ghost predicate IsBoundTo(before: Option<Binding>, offer: T.Offer, after: Option<Binding>) {
    after == Some(match before
                  case None => Binding(offer.planId, Some(offer.chargedAmount), Some(offer.chargedCurrency),
                                       Some(offer.billingCycleId), Some(offer.billingCycleCode))
                  case Some(binding) => binding.(planId := offer.planId))
  }

  /** A binding moves to a plan; an absent one stays absent. */
  ghost predicate IsMovedTo(before: Option<Binding>, planId: string, after: Option<Binding>) {
    after == match before case None => None case Some(binding) => Some(binding.(planId := planId))
  }

  lemma AlignIsLaterEnd(row: Option<SubscriptionRow>, endsAt: int)
    requires row.Some?
    ensures OnlyExtends(row, endsAt, AlignPeriodEnd(row, endsAt))
  {
  }

  /** Concession commands want an active subscription, and leave any other alone. */
  lemma InactiveIsRefused(a: Account, s: int, input: ReviseInput, reason: string, now: int, id: nat)
    requires a.row.None? || a.row.value.status != Active
    ensures var error := if a.row.None? then NotFound
                         else if a.row.value.status == Trial then TrialConflict else InvalidStatus;
            && AdminGrant(a, s, input, now, id) == Outcome(a, Err(error))
            && AdminRevise(a, s, input, now, id) == Outcome(a, Err(error))
            && AdminCancel(a, reason, now) == Outcome(a, Err(error))
  {
  }

  // ----- Grants, revisions, cancellations.

  /**
   * A grant on an active subscription: unacceptable terms are refused; over a running concession it
   * answers with that one if unit and duration are its own, and is refused otherwise; else it stores
   * what was asked, on the row's own plan and cycle, and extends the period to cover it.
   */
  lemma GrantStores(a: Account, s: int, input: ReviseInput, now: int, id: nat)
    requires Sound(a, s, now) && a.row.Some? && a.row.value.status == Active
    ensures var done := AdminGrant(a, s, input, now, id);
            var current := C.CurrentRow(a.concessions, now);
            var asked := Asked(a.row.value.planId, CycleCode(a.row.value.billingCycle), input, C.AdminGrant);
            if !AreAcceptable(input.unit, input.duration, input.reason) then
              var checked := C.ValidateTerms(input.unit, input.duration, input.reason);
              checked.Err? && done == Outcome(a, Err(checked.error))
            else if current.Some? then
              && done.account == a
              && done.result == if current.value.request.unit == asked.unit &&
                                   current.value.request.duration == asked.duration
                                then Ok(current.value) else Err(Overlap)
            else
              && done.result.Ok? && done.account.concessions == a.concessions + [done.result.value]
              && C.IsNextRow(done.result.value, a.concessions, s, asked, now, id)
              && OnlyExtends(a.row, done.result.value.endsAt, done.account.row)
              && done.account.binding == a.binding && done.account.terms == a.terms
  {
    C.TermsAreValidExactlyWhen(input.unit, input.duration, input.reason);
    var checked := C.ValidateTerms(input.unit, input.duration, input.reason);
    if checked.Ok? && C.CurrentRow(a.concessions, now).None? {
      var request := Asked(a.row.value.planId, CycleCode(a.row.value.billingCycle), input, C.AdminGrant);
      C.InsertStoresNextRow(a.concessions, s, request, now, id);
      AlignIsLaterEnd(a.row, C.InsertVersion(a.concessions, s, request, now, id).result.value.endsAt);
    }
  }

  /**
   * A revision on an active subscription: unacceptable terms, or nothing running, are refused; terms
   * that run already change nothing; else what was asked is stored on the plan and cycle of the
   * running concession, supersedes it, is current, and extends the period.
   */
  lemma ReviseStores(a: Account, s: int, input: ReviseInput, now: int, id: nat)
    requires Sound(a, s, now) && a.row.Some? && a.row.value.status == Active
    ensures var done := AdminRevise(a, s, input, now, id);
            var current := C.CurrentRow(a.concessions, now);
            if !AreAcceptable(input.unit, input.duration, input.reason) then
              var checked := C.ValidateTerms(input.unit, input.duration, input.reason);
              checked.Err? && done == Outcome(a, Err(checked.error))
            else if current.None? then
              done == Outcome(a, Err(NotCurrent))
            else
              var running := current.value;
              var asked := Asked(running.request.planId, running.request.billingCycleCode, input, C.AdminRevise);
              if running.request.unit == asked.unit && running.request.duration == asked.duration then
                done == Outcome(a, Ok(running))
              else
                var n, later := |a.concessions|, done.account.concessions;
                && done.result.Ok? && |later| == n + 1 && later[n] == done.result.value
                && C.IsNextRow(later[n], a.concessions, s, asked, now, id)
                && C.CurrentRow(later, now) == Some(later[n])
                && n >= 1 && a.concessions[n - 1] == running
                && later[..n] ==
                   a.concessions[n - 1 := running.(status := C.Superseded, supersededBy := Some(later[n].id))]
                && OnlyExtends(a.row, later[n].endsAt, done.account.row)
                && done.account.binding == a.binding && done.account.terms == a.terms
  {
    C.TermsAreValidExactlyWhen(input.unit, input.duration, input.reason);
    C.OnlyNewestCanBeCurrent(a.concessions, s, now);
    var checked := C.ValidateTerms(input.unit, input.duration, input.reason);
    var current := C.CurrentRow(a.concessions, now);
    if checked.Ok? && current.Some? {
      var running := current.value;
      EndIsAfterStart(now, checked.value.unit, checked.value.duration);
      var asked := Asked(running.request.planId, running.request.billingCycleCode, input, C.AdminRevise);
      RevisionStores(a.concessions, s, asked, now, id);
      AlignIsLaterEnd(a.row, ComputeConcessionEndsAt(now, checked.value.unit, checked.value.duration));
    }
  }

  lemma RevisionStores(h: seq<C.ConcessionRow>, s: int, asked: C.Request, now: int, id: nat)
    requires C.Chain(h, s) && C.StartedBy(h, now) && C.CurrentRow(h, now).Some?
    requires asked.source == C.AdminRevise && asked.duration >= 1
    ensures var done, n := C.InsertVersion(h, s, asked, now, id), |h|;
            && done.result.Ok? && |done.history| == n + 1 && done.history[n] == done.result.value
            && C.IsNextRow(done.result.value, h, s, asked, now, id)
            && C.CurrentRow(done.history, now) == Some(done.result.value)
            && n >= 1 && C.CurrentRow(h, now) == Some(h[n - 1])
            && done.history[..n] == h[n - 1 := h[n - 1].(status := C.Superseded, supersededBy := Some(id))]
  {
    C.OnlyNewestCanBeCurrent(h, s, now);
    C.InsertStoresNextRow(h, s, asked, now, id);
    C.InsertedRowIsCurrent(h, s, asked, now, id);
  }

  /**
   * A cancellation on an active subscription: without a reason it is refused; with nothing running
   * it answers with the newest row and changes nothing; else the running row is cancelled now, the
   * answer carries the reason and the stored row keeps its own, and the period ends now exactly when
   * there are no charged terms.
   */
  lemma CancelStores(a: Account, s: int, reason: string, now: int)
    requires Sound(a, s, now) && a.row.Some? && a.row.value.status == Active
    ensures var done, n := AdminCancel(a, reason, now), |a.concessions|;
            var current := C.CurrentRow(a.concessions, now);
            if !HasReason(reason) then
              done == Outcome(a, Err(InvalidReason))
            else if current.None? then
              done == Outcome(a, Ok(if n == 0 then None else Some(a.concessions[n - 1])))
            else
              && n >= 1 && current == Some(a.concessions[n - 1])
              && done.account.row == (if a.terms == [] then Some(a.row.value.(currentPeriodEnd := At(now, Column)))
                                      else a.row)
              && done.account.binding == a.binding && done.account.terms == a.terms
              && var cancelled := current.value.(status := C.Cancelled, cancelledAt := Some(now));
                 && done.account.concessions == a.concessions[n - 1 := cancelled]
                 && done.result == Ok(Some(cancelled.(request := cancelled.request.(reason := Trim(reason)))))
  {
    C.OnlyNewestCanBeCurrent(a.concessions, s, now);
    if C.CurrentRow(a.concessions, now).Some? {
      C.CancelTouchesOneRow(a.concessions, |a.concessions| - 1, now);
    }
  }

  // ----- Reactivations.

  /** A free period that the calendar accepts. */
  predicate IsAcceptablePeriod(period: Option<FreePeriod>) {
    period.Some? && 1 <= period.value.duration <= (if period.value.unit == Day then 366 else 24)
  }

  /**
   * A free reactivation goes ahead exactly for an unentitled row with nothing running, and stores the
   * asked free period from the transaction's clock on, the row active on the asked plan and cycle
   * until that period ends, and an existing binding on the plan. On an entitled row it answers with
   * the running concession exactly when everything asked for is there already.
   */
  lemma FreeReactivationStores(a: Account, s: int, input: ReactivateInput, now: int, later: int, id: nat)
    requires Sound(a, s, later) && a.row.Some? && input.mode == Free
    ensures var done := Reactivate(a, input, now, later, id);
            var asks := HasReason(input.reason) && input.livePlan.Some?;
            var entitled := EntitledNow(a.row.value, now);
            && (done.result.Ok? && done.result.value.changed <==>
                  asks && IsAcceptablePeriod(input.freePeriod) && !entitled && C.CurrentRow(a.concessions, later).None?)
            && (done.result.Ok? && !done.result.value.changed <==>
                  asks && input.freePeriod.Some? && entitled && RunsAlready(a, input, now))
            && (done.result.Ok? && !done.result.value.changed ==>
                  done.result.value ==
                  Reactivation(false, None, Some(C.CurrentRow(a.concessions, now).value.id)))
            && (done.result.Ok? && done.result.value.changed ==> IsFreelyReactivated(a, done.account, s, input, now,
                later, id))
  {
    if C.NormalizeReason(input.reason).Ok? && input.livePlan.Some? && input.freePeriod.Some? {
      if EntitledNow(a.row.value, now) {
      } else {
        FreePeriodStores(a, s, input, now, later, id);
      }
    }
  }

  /** What a free reactivation asks for is what runs. */
  ghost predicate RunsAlready(a: Account, input: ReactivateInput, now: int)
    requires a.row.Some? && input.livePlan.Some? && input.freePeriod.Some?
  {
    var current := C.CurrentRow(a.concessions, now);
    && current.Some? && current.value.request.unit == input.freePeriod.value.unit
    && current.value.request.duration == input.freePeriod.value.duration
    && a.row.value.planId == input.livePlan.value && a.row.value.billingCycle == input.billingCycle
  }

  ghost predicate IsFreelyReactivated(a: Account, done: Account, s: int, input: ReactivateInput, now: int,
      later: int, id: nat)
    requires a.row.Some? && input.livePlan.Some? && input.freePeriod.Some?
  {
    var plan, period := input.livePlan.value, input.freePeriod.value;
    var asked := C.Request(plan, CycleCode(input.billingCycle), period.unit, period.duration, Trim(input.reason),
                           C.AdminReactivate, input.actorId);
    && IsMovedTo(a.binding, plan, done.binding) && done.terms == a.terms
    && |done.concessions| == |a.concessions| + 1 && done.concessions[..|a.concessions|] == a.concessions
    && var row := done.concessions[|a.concessions|];
       && C.IsNextRow(row, a.concessions, s, asked, later, id)
       && done.row == Some(a.row.value.(planId := plan, billingCycle := input.billingCycle, status := Active,
                                        currentPeriodStart := now, currentPeriodEnd := At(row.endsAt, Column)))
  }

  lemma FreePeriodStores(a: Account, s: int, input: ReactivateInput, now: int, later: int, id: nat)
    requires Sound(a, s, later) && a.row.Some? && input.mode == Free && !EntitledNow(a.row.value, now)
    requires HasReason(input.reason) && input.livePlan.Some? && input.freePeriod.Some?
    ensures var done := ReactivateFree(a, a.row.value, input, input.livePlan.value, Trim(input.reason), now, later, id);
            && (done.result.Ok? <==> IsAcceptablePeriod(input.freePeriod) && C.CurrentRow(a.concessions, later).None?)
            && (done.result.Ok? ==>
                  done.result.value.changed && IsFreelyReactivated(a, done.account, s, input, now, later, id))
  {
    var period := input.freePeriod.value;
    TrimIsIdempotent(input.reason);
    C.TermsAreValidExactlyWhen(UnitName(period.unit), period.duration, Trim(input.reason));
    if IsAcceptablePeriod(input.freePeriod) {
      var request := C.Request(input.livePlan.value, CycleCode(input.billingCycle), period.unit, period.duration,
                               Trim(input.reason), C.AdminReactivate, input.actorId);
      EndIsAfterStart(later, period.unit, period.duration);
      C.ReactivationStoresNextRow(a.concessions, s, request, later, id);
    }
  }

  /**
   * A paid reactivation goes ahead exactly for an unentitled row, a sellable listing and an end still
   * ahead, and stores the listing's terms for the asked cycle as one more snapshot, the row active on
   * the plan and cycle until that end, and the binding on the plan. On an entitled row it answers
   * with the newest snapshot exactly when everything asked for is there already.
   */
  lemma PaidReactivationStores(a: Account, s: int, input: ReactivateInput, now: int, later: int, id: nat)
    requires Sound(a, s, later) && a.row.Some? && input.mode == Paid
    ensures var done := Reactivate(a, input, now, later, id);
            var asks := HasReason(input.reason) && input.livePlan.Some? && IsSellable(input.listing);
            var entitled := EntitledNow(a.row.value, now);
            && (done.result.Ok? && done.result.value.changed <==>
                  asks && !entitled && input.periodEnd.Some? && now < input.periodEnd.value)
            && (done.result.Ok? && !done.result.value.changed <==> asks && entitled && IsChargedAlready(a, input))
            && (done.result.Ok? && !done.result.value.changed ==>
                  done.result.value == Reactivation(false, Some(a.terms[|a.terms| - 1].id), None))
            && (done.result.Ok? && done.result.value.changed ==> IsReactivatedForPay(a, done.account, s, input, now,
                later, id))
  {
    if C.NormalizeReason(input.reason).Ok? && input.livePlan.Some? {
      if EntitledNow(a.row.value, now) {
        EntitledRowIsAnswered(a, s, input, now, later, id);
      } else {
        LapsedRowIsReactivated(a, s, input, now, later, id);
      }
    }
  }

  /** What a paid reactivation asks for is what the newest snapshot and the row say. */
  ghost predicate IsChargedAlready(a: Account, input: ReactivateInput)
    requires a.row.Some? && input.listing.Some?
  {
    && a.terms != []
    && T.Says(a.terms[|a.terms| - 1].terms, ListedOffer(input.listing.value, input.billingCycle))
    && a.row.value.planId == input.listing.value.planId && a.row.value.billingCycle == input.billingCycle
  }

  ghost predicate IsReactivatedForPay(a: Account, done: Account, s: int, input: ReactivateInput, now: int,
      later: int, id: nat)
    requires a.row.Some? && input.listing.Some? && input.periodEnd.Some?
  {
    var offer := ListedOffer(input.listing.value, input.billingCycle);
    && |done.terms| == |a.terms| + 1 && done.terms[..|a.terms|] == a.terms
    && T.IsNextSnapshot(done.terms[|a.terms|], a.terms, s, offer, later, id, T.AdminReactivate, input.actorId)
    && done.row == Some(a.row.value.(planId := offer.planId, billingCycle := input.billingCycle, status := Active,
                                     currentPeriodStart := now, currentPeriodEnd := At(input.periodEnd.value, Column)))
    && IsBoundTo(a.binding, offer, done.binding) && done.concessions == a.concessions
  }

  /** A paid reactivation of an entitled row writes nothing. */
  lemma EntitledRowIsAnswered(a: Account, s: int, input: ReactivateInput, now: int, later: int, id: nat)
    requires T.Chain(a.terms, s) && a.row.Some? && EntitledNow(a.row.value, now)
    ensures var done := ReactivatePaid(a, a.row.value, input, now, later, id);
            if IsSellable(input.listing) && IsChargedAlready(a, input) then
              done.result == Ok(Reactivation(false, Some(a.terms[|a.terms| - 1].id), None))
            else done.result.Err?
  {
    T.CurrentIsLastInserted(a.terms, s);
    if IsSellable(input.listing) {
      assert ResolveChargedTerms(input.listing, input.billingCycle).value ==
             ListedOffer(input.listing.value, input.billingCycle);
    }
  }

  /** The transaction of a paid reactivation, for an offer from the catalog. */
  lemma PaidTransactionStores(a: Account, s: int, input: ReactivateInput, now: int, later: int, id: nat)
    requires a.row.Some? && T.Chain(a.terms, s) && T.EffectiveBy(a.terms, later)
    requires IsSellable(input.listing) && input.periodEnd.Some?
    ensures var offer := ListedOffer(input.listing.value, input.billingCycle);
            var update := Activate(offer.planId, input.billingCycle, now, input.periodEnd);
            var done := PaidReactivation(a, s, offer, update, later, id, input.actorId);
            && done.result.Ok? && |done.account.terms| == |a.terms| + 1
            && done.result.value == done.account.terms[|a.terms|]
            && IsReactivatedForPay(a, done.account, s, input, now, later, id)
  {
    var offer := ListedOffer(input.listing.value, input.billingCycle);
    assert offer == ResolveChargedTerms(input.listing, input.billingCycle).value;
    T.ReactivationKeepsLedger(a.terms, s, offer, later, id, input.actorId);
  }

  lemma LapsedRowIsReactivated(a: Account, s: int, input: ReactivateInput, now: int, later: int, id: nat)
    requires Sound(a, s, later) && a.row.Some? && !EntitledNow(a.row.value, now)
    ensures var done := ReactivatePaid(a, a.row.value, input, now, later, id);
            if IsSellable(input.listing) && input.periodEnd.Some? && now < input.periodEnd.value then
              && done.result.Ok? && done.result.value.changed
              && IsReactivatedForPay(a, done.account, s, input, now, later, id)
            else done.result.Err?
  {
    if IsSellable(input.listing) && input.periodEnd.Some? {
      PaidTransactionStores(a, s, input, now, later, id);
      assert ResolveChargedTerms(input.listing, input.billingCycle).value ==
             ListedOffer(input.listing.value, input.billingCycle);
    }
  }

  // ----- Updates.

  /** The period end an update asks for; a trial without a date gets the default one. */
  function AskedEnd(input: UpdateInput): Option<int> {
    if input.endDate.Given? then Some(input.endDate.ms)
    else if input.status == Some(Trial) then Some(input.defaultTrialEnd)
    else None
  }

  /** What an update asks for, with the plan the catalog knows. */
  function AskedData(input: UpdateInput): UpdateData {
    UpdateData(if input.planId.Some? then input.livePlan else None, input.billingCycle, input.status, None,
               AskedEnd(input), if input.status == Some(Trial) then AskedEnd(input) else None)
  }

  /** The catalog and the calendar know what is asked for. */
  predicate IsUnderstood(input: UpdateInput) {
    !input.endDate.Malformed? && (input.planId.Some? ==> input.livePlan.Some?)
  }

  /** The row with the asked period columns and status, as the guard judges it. */
  function Proposed(row: SubscriptionRow, input: UpdateInput): SubscriptionRow {
    var end := if AskedEnd(input).Some? then At(AskedEnd(input).value, Column) else row.currentPeriodEnd;
    row.(status := if input.status.Some? then input.status.value else row.status,
         currentPeriodEnd := end,
         trialEndsAt := if input.status == Some(Trial) then end else row.trialEndsAt)
  }

  /** A dead row asked back to life, or a lapsed one asked to be entitled. */
  ghost predicate Revives(row: SubscriptionRow, input: UpdateInput, now: int) {
    || (!IsLive(row) && IsLive(Proposed(row, input)))
    || (!EntitledNow(row, now) && EntitledNow(Proposed(row, input), now))
  }

  /** The answers before anything is written, and the commit that follows them. */
  lemma UpdateCommits(a: Account, input: UpdateInput, now: int, id: nat)
    requires a.row.Some?
    ensures var row := a.row.value;
            Update(a, input, now, id) ==
            if input.endDate.Malformed? then Outcome(a, Err(InvalidEndDate))
            else if Revives(row, input, now) then Outcome(a, Err(UseReactivate))
            else if !IsUnderstood(input) then Outcome(a, Err(FinancialIncomplete))
            else CommitUpdate(CancelOnCanceled(a, input.status, now), row, AskedData(input), input.listing,
                              input.actorId, now, id)
  {
    if !input.endDate.Malformed? {
      assert Projected(a.row.value, BuildUpdateData(input).value) == Proposed(a.row.value, input);
    }
  }

  lemma CancelOnCanceledKeepsRest(a: Account, status: Option<Status>, now: int)
    ensures CancelOnCanceled(a, status, now).(concessions := a.concessions) == a
  {
  }

  /** An update that writes stores what was asked and keeps every other column. */
  lemma UpdateStoresWhatIsAsked(a: Account, input: UpdateInput, now: int, id: nat)
    requires a.row.Some? && Update(a, input, now, id).result == Ok(true)
    ensures IsUnderstood(input)
    ensures var was := a.row.value;
            var end := if input.endDate.Given? then At(input.endDate.ms, Column)
                       else if input.status == Some(Trial) then At(input.defaultTrialEnd, Column)
                       else was.currentPeriodEnd;
            Update(a, input, now, id).account.row ==
            Some(SubscriptionRow(was.id, was.userId, was.restaurantId,
                   if input.planId.Some? then input.livePlan.value else was.planId,
                   if input.status.Some? then input.status.value else was.status,
                   if input.billingCycle.Some? then input.billingCycle.value else was.billingCycle,
                   was.currentPeriodStart, end, if input.status == Some(Trial) then end else was.trialEndsAt))
  {
    UpdateCommits(a, input, now, id);
    CancelOnCanceledKeepsRest(a, input.status, now);
    CommitWritesExactlyAuditedChanges(CancelOnCanceled(a, input.status, now), a.row.value, AskedData(input),
      input.listing, input.actorId, now, id);
  }

  /** What a plan or cycle change leaves when no concession is current. */
  ghost predicate IsRecharged(terms: seq<T.SnapshotRow>, binding: Option<Binding>, done: Account, s: int,
      input: UpdateInput, now: int, id: nat)
    requires done.row.Some?
  {
    && IsSellable(input.listing)
    && var offer := ListedOffer(input.listing.value, done.row.value.billingCycle);
       && done.terms != [] && T.Says(done.terms[|done.terms| - 1].terms, offer)
       && T.CurrentSnapshot(done.terms) == Some(done.terms[|done.terms| - 1])
       && (if terms != [] && T.Says(terms[|terms| - 1].terms, offer) then done.terms == terms
           else
             && |done.terms| == |terms| + 1 && done.terms[..|terms|] == terms
             && T.IsNextSnapshot(done.terms[|terms|], terms, s, offer, now, id, T.AdminUpdate, input.actorId))
       && IsBoundTo(binding, offer, done.binding)
  }

  /** What an update leaves of the charged terms and the binding, by what became of plan and cycle. */
  ghost predicate KeepsTermsWithPlan(was: SubscriptionRow, terms: seq<T.SnapshotRow>, binding: Option<Binding>,
      done: Account, s: int, input: UpdateInput, now: int, id: nat)
  {
    && done.row.Some?
    && var row := done.row.value;
       if row.planId == was.planId && row.billingCycle == was.billingCycle then
         done.terms == terms && done.binding == binding
       else if C.CurrentRow(done.concessions, now).Some? then
         done.terms == terms && IsMovedTo(binding, row.planId, done.binding)
       else IsRecharged(terms, binding, done, s, input, now, id)
  }

  /**
   * An update that writes keeps price and plan together. If plan or cycle changed and no concession
   * is current once the update's own cancellation is done, the newest snapshot says the listing's
   * offer for the new cycle, appended only if the newest one did not say it, and the binding is on
   * its plan, or made from it. Under a current concession the charged terms stay and an existing
   * binding follows the row's plan. If neither changed, both stay.
   */
  lemma UpdateKeepsTermsWithPlan(a: Account, s: int, input: UpdateInput, now: int, id: nat)
    requires Sound(a, s, now) && a.row.Some? && Update(a, input, now, id).result == Ok(true)
    ensures KeepsTermsWithPlan(a.row.value, a.terms, a.binding, Update(a, input, now, id).account, s, input, now, id)
  {
    UpdateCommits(a, input, now, id);
    var cancelled := CancelOnCanceled(a, input.status, now);
    CancelOnCanceledKeepsRest(a, input.status, now);
    CommitKeepsTermsWithPlan(cancelled, s, AskedData(input), input, now, id);
  }

  lemma IdentityChangeRecharges(a: Account, s: int, u: UpdateData, input: UpdateInput, now: int, id: nat)
    requires a.row.Some? && T.Chain(a.terms, s) && T.EffectiveBy(a.terms, now) && IsSellable(input.listing)
    ensures var offer := ListedOffer(input.listing.value, Write(a.row.value, u).billingCycle);
            var done := IdentityChange(a, s, offer, u, now, id, input.actorId).account;
            done.row == Some(Write(a.row.value, u)) && IsRecharged(a.terms, a.binding, done, s, input, now, id)
  {
    var offer := ListedOffer(input.listing.value, Write(a.row.value, u).billingCycle);
    T.CurrentIsLastInserted(a.terms, s);
    T.IdentityChangeKeepsLedger(a.terms, s, offer, now, id, input.actorId);
  }

  /** Which of the three writes an update comes to. */
  lemma CommitWrites(a: Account, u: UpdateData, input: UpdateInput, now: int, id: nat)
    requires a.row.Some? && CommitUpdate(a, a.row.value, u, input.listing, input.actorId, now, id).result == Ok(true)
    ensures var was, row := a.row.value, Write(a.row.value, u);
            var done := CommitUpdate(a, was, u, input.listing, input.actorId, now, id).account;
            if row.planId == was.planId && row.billingCycle == was.billingCycle then done == a.(row := Some(row))
            else if C.CurrentRow(a.concessions, now).Some? then
              done.(binding := a.binding) == a.(row := Some(row)) && IsMovedTo(a.binding, row.planId, done.binding)
            else
              && IsSellable(input.listing)
              && done == IdentityChange(a, was.id, ListedOffer(input.listing.value, row.billingCycle), u, now, id,
                           input.actorId).account
  {
    var cycle := Else(u.billingCycle, a.row.value.billingCycle);
    if IsSellable(input.listing) {
      assert ResolveChargedTerms(input.listing, cycle).value == ListedOffer(input.listing.value, cycle);
    }
  }

  lemma CommitKeepsTermsWithPlan(a: Account, s: int, u: UpdateData, input: UpdateInput, now: int, id: nat)
    requires a.row.Some? && a.row.value.id == s && T.Chain(a.terms, s) && T.EffectiveBy(a.terms, now)
    requires CommitUpdate(a, a.row.value, u, input.listing, input.actorId, now, id).result == Ok(true)
    ensures KeepsTermsWithPlan(a.row.value, a.terms, a.binding,
              CommitUpdate(a, a.row.value, u, input.listing, input.actorId, now, id).account, s, input, now, id)
  {
    CommitWrites(a, u, input, now, id);
    if IsSellable(input.listing) {
      IdentityChangeRecharges(a, s, u, input, now, id);
    }
  }

  /** The update cancels the subscription, and a concession runs that it cancels first. */
  ghost predicate CancelsOnTheWay(a: Account, input: UpdateInput, now: int) {
    input.status == Some(Canceled) && IsUnderstood(input) && C.CurrentRow(a.concessions, now).Some?
  }

  lemma CommitKeepsConcessions(a: Account, existing: SubscriptionRow, u: UpdateData, listing: Option<Listing>,
      actorId: Option<int>, now: int, id: nat)
    ensures var done := CommitUpdate(a, existing, u, listing, actorId, now, id);
            && done.account.concessions == a.concessions
            && (done.result != Ok(true) ==> done.account == a)
  {
  }

  /** A row that is to be cancelled is not revived by it. */
  lemma CancellingRevivesNothing(row: SubscriptionRow, input: UpdateInput, now: int)
    requires input.status == Some(Canceled)
    ensures !Revives(row, input, now)
  {
    EntitledMeansLiveAndUnexpired(Proposed(row, input), now);
  }

  lemma RunningRowIsCancelled(a: Account, s: int, now: int)
    requires Sound(a, s, now)
    ensures var done, n := CancelOnCanceled(a, Some(Canceled), now), |a.concessions|;
            if C.CurrentRow(a.concessions, now).None? then done == a
            else
              && n >= 1 && a.concessions[n - 1].status == C.Active
              && done.concessions ==
                 a.concessions[n - 1 := a.concessions[n - 1].(status := C.Cancelled, cancelledAt := Some(now))]
              && C.CurrentRow(done.concessions, now).None?
  {
    C.OnlyNewestCanBeCurrent(a.concessions, s, now);
    if C.CurrentRow(a.concessions, now).Some? {
      C.CancelTouchesOneRow(a.concessions, |a.concessions| - 1, now);
      C.CancelCurrentKeepsHistory(a.concessions, s, now);
    }
  }

  /** An update touches the concessions exactly to cancel the running one of a subscription it is to cancel. */
  lemma UpdateCancelsExactlyWhen(a: Account, s: int, input: UpdateInput, now: int, id: nat)
    requires Sound(a, s, now) && a.row.Some?
    ensures var done, n := Update(a, input, now, id).account, |a.concessions|;
            if CancelsOnTheWay(a, input, now) then
              && n >= 1 && a.concessions[n - 1].status == C.Active
              && done.concessions ==
                 a.concessions[n - 1 := a.concessions[n - 1].(status := C.Cancelled, cancelledAt := Some(now))]
              && C.CurrentRow(done.concessions, now).None?
            else done.concessions == a.concessions
  {
    UpdateCommits(a, input, now, id);
    var cancelled := CancelOnCanceled(a, input.status, now);
    CommitKeepsConcessions(cancelled, a.row.value, AskedData(input), input.listing, input.actorId, now, id);
    RunningRowIsCancelled(a, s, now);
    if input.status == Some(Canceled) {
      CancellingRevivesNothing(a.row.value, input, now);
    }
  }

  /**
   * An update that fails, or reports no change, is not undone: it has left the account as it was
   * exactly when there was no running concession to cancel on the way.
   */
  lemma UnwrittenUpdateLeavesAccountExactlyWhen(a: Account, s: int, input: UpdateInput, now: int, id: nat)
    requires Sound(a, s, now) && a.row.Some? && Update(a, input, now, id).result != Ok(true)
    ensures var done := Update(a, input, now, id).account;
            && done.(concessions := a.concessions) == a
            && (done == a <==> !CancelsOnTheWay(a, input, now))
  {
    UpdateCancelsExactlyWhen(a, s, input, now, id);
    UpdateCommits(a, input, now, id);
    var cancelled := CancelOnCanceled(a, input.status, now);
    CommitKeepsConcessions(cancelled, a.row.value, AskedData(input), input.listing, input.actorId, now, id);
    CancelOnCanceledKeepsRest(a, input.status, now);
  }

  /** Whether an update changes plan or cycle. */
  predicate ChangesIdentity(row: SubscriptionRow, input: UpdateInput) {
    || (input.planId.Some? && input.livePlan.Some? && input.livePlan.value != row.planId)
    || (input.billingCycle.Some? && input.billingCycle.value != row.billingCycle)
  }

  /**
   * What an update answers. It is refused for a malformed end, for asking a dead or lapsed row back to
   * life, for a plan the catalog does not know, and for a change of plan or cycle that nothing sells
   * while no concession is current; every other update is accepted.
   */
  lemma UpdateIsRefusedExactlyWhen(a: Account, input: UpdateInput, now: int, id: nat)
    requires a.row.Some?
    ensures var done, row := Update(a, input, now, id), a.row.value;
            if input.endDate.Malformed? then done.result == Err(InvalidEndDate)
            else if Revives(row, input, now) then done.result == Err(UseReactivate)
            else if !IsUnderstood(input) then done.result == Err(FinancialIncomplete)
            else if ChangesIdentity(row, input) && C.CurrentRow(done.account.concessions, now).None? &&
                    !IsSellable(input.listing) then
              done.result == Err(FinancialIncomplete)
            else done.result.Ok?
  {
    UpdateCommits(a, input, now, id);
    var cancelled := CancelOnCanceled(a, input.status, now);
    CommitKeepsConcessions(cancelled, a.row.value, AskedData(input), input.listing, input.actorId, now, id);
    if IsUnderstood(input) {
      CommitIsRefusedExactlyWhen(cancelled, a.row.value, input, now, id);
    }
  }

  lemma CommitIsRefusedExactlyWhen(a: Account, existing: SubscriptionRow, input: UpdateInput, now: int, id: nat)
    requires IsUnderstood(input)
    ensures var done := CommitUpdate(a, existing, AskedData(input), input.listing, input.actorId, now, id);
            if ChangesIdentity(existing, input) && C.CurrentRow(a.concessions, now).None? && !IsSellable(input.listing)
            then done.result == Err(FinancialIncomplete) else done.result.Ok?
  {
  }
}
