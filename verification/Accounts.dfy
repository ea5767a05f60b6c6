/**
 * What each commercial command does to one subscription's account: its row, its binding, its
 * concession ledger and its charged-terms ledger. The table-level methods are proved against
 * these functions; what the commands promise over whole runs is proved about them.
 */
module Accounts {
  import opened Common
  import opened Calendar
  import opened Entitlement
  import C = Concessions
  import T = ChargedTerms

  datatype Binding = Binding(
    planId: string,
    chargedAmount: Option<string>,
    chargedCurrency: Option<string>,
    billingCycleId: Option<string>,
    billingCycleCode: Option<string>)

  datatype Account = Account(
    row: Option<SubscriptionRow>,
    binding: Option<Binding>,
    concessions: seq<C.ConcessionRow>,
    terms: seq<T.SnapshotRow>)

  datatype Outcome<+R> = Outcome(account: Account, result: Result<R>)

  /** A partial update of a subscription row; absent fields are left as they are. */
  datatype UpdateData = UpdateData(
    planId: Option<string>,
    billingCycle: Option<BillingCycle>,
    status: Option<Status>,
    currentPeriodStart: Option<int>,
    currentPeriodEnd: Option<int>,
    trialEndsAt: Option<int>)

  function Else<X>(given: Option<X>, otherwise: X): X {
    if given.Some? then given.value else otherwise
  }

  function ElseStored(given: Option<int>, otherwise: StoredInstant): StoredInstant {
    if given.Some? then Stamped(given.value) else otherwise
  }

  /** UPDATE user_subscriptions SET ... */
  function Write(row: SubscriptionRow, u: UpdateData): SubscriptionRow {
    row.(planId := Else(u.planId, row.planId),
         billingCycle := Else(u.billingCycle, row.billingCycle),
         status := Else(u.status, row.status),
         currentPeriodStart := Else(u.currentPeriodStart, row.currentPeriodStart),
         currentPeriodEnd := ElseStored(u.currentPeriodEnd, row.currentPeriodEnd),
         trialEndsAt := ElseStored(u.trialEndsAt, row.trialEndsAt))
  }

  function WriteIfPresent(row: Option<SubscriptionRow>, u: UpdateData): Option<SubscriptionRow> {
    if row.Some? then Some(Write(row.value, u)) else None
  }

  function CycleCode(cycle: BillingCycle): string {
    if cycle == Monthly then "monthly" else "yearly"
  }

  // ----- Concession commands.

  /** Extend the period to `endsAt` if that is later; an unreadable stored end is left alone. */
  function AlignPeriodEnd(row: Option<SubscriptionRow>, endsAt: int): Option<SubscriptionRow> {
    if row.None? || row.value.currentPeriodEnd.Unreadable? then row
    else
      var currentEnd := if row.value.currentPeriodEnd.At? then row.value.currentPeriodEnd.ms else 0;
      if endsAt > currentEnd then Some(row.value.(currentPeriodEnd := Stamped(endsAt))) else row
  }

  datatype GrantInput = GrantInput(
    planId: string,
    billingCycleCode: string,
    unit: string,
    duration: int,
    reason: string,
    actorId: Option<int>)

  function RequestOf(input: GrantInput, terms: C.Terms, source: C.Source): C.Request {
    C.Request(input.planId, input.billingCycleCode, terms.unit, terms.duration, terms.reason, source, input.actorId)
  }

  function Grant(a: Account, subscriptionId: int, input: GrantInput, align: bool, now: int,
      id: nat): Outcome<C.ConcessionRow> {
    match C.ValidateTerms(input.unit, input.duration, input.reason)
    case Err(e) => Outcome(a, Err(e))
    case Ok(terms) =>
      match C.CurrentRow(a.concessions, now)
      case Some(current) =>
        Outcome(a, if C.MatchesGrant(current, terms.unit, terms.duration) then Ok(current) else Err(Overlap))
      case None =>
        var done := C.InsertVersion(a.concessions, subscriptionId, RequestOf(input, terms, C.AdminGrant), now, id);
        match done.result
        case Err(e) => Outcome(a, Err(e))
        case Ok(row) =>
          Outcome(a.(concessions := done.history, row := if align then AlignPeriodEnd(a.row, row.endsAt) else a.row),
              Ok(row))
  }

  datatype ReviseInput = ReviseInput(unit: string, duration: int, reason: string, actorId: Option<int>)

  function Revise(a: Account, subscriptionId: int, input: ReviseInput, now: int, id: nat): Outcome<C.ConcessionRow> {
    match C.ValidateTerms(input.unit, input.duration, input.reason)
    case Err(e) => Outcome(a, Err(e))
    case Ok(terms) =>
      match C.CurrentRow(a.concessions, now)
      case None => Outcome(a, Err(NotCurrent))
      case Some(current) =>
        if C.MatchesGrant(current, terms.unit, terms.duration) then Outcome(a, Ok(current))
        else if ComputeConcessionEndsAt(now, terms.unit, terms.duration) <= now then Outcome(a, Err(ShortenInPast))
        else
          var request := C.Request(current.request.planId, current.request.billingCycleCode,
                                   terms.unit, terms.duration, terms.reason, C.AdminRevise, input.actorId);
          var done := C.InsertVersion(a.concessions, subscriptionId, request, now, id);
          match done.result
          case Err(e) => Outcome(a, Err(e))
          case Ok(row) =>
            Outcome(a.(concessions := done.history, row := AlignPeriodEnd(a.row, row.endsAt)), Ok(row))
  }

  /** The row reported to the caller carries the cancellation's reason; the stored row keeps its own. */
  function ReportCancelled(current: C.ConcessionRow, reason: string, now: int): C.ConcessionRow {
    C.CancelRow(current, now).(request := current.request.(reason := reason))
  }

  function Cancel(a: Account, reason: string, expirePeriod: bool, now: int): Outcome<Option<C.ConcessionRow>> {
    match C.NormalizeReason(reason)
    case Err(e) => Outcome(a, Err(e))
    case Ok(trimmed) =>
      match C.CurrentRow(a.concessions, now)
      case None => Outcome(a, Ok(if a.concessions == [] then None else Some(a.concessions[|a.concessions| - 1])))
      case Some(current) =>
        var row := if expirePeriod && a.row.Some? then Some(a.row.value.(currentPeriodEnd := Stamped(now))) else a.row;
        Outcome(a.(concessions := C.CancelById(a.concessions, current.id, now), row := row),
                Ok(Some(ReportCancelled(current, trimmed, now))))
  }

  function SetBindingPlan(binding: Option<Binding>, planId: string): Option<Binding> {
    if binding.Some? then Some(binding.value.(planId := planId)) else None
  }

  /** A new concession from now and the same row activated, in one transaction. */
  function FreeReactivation(a: Account, subscriptionId: int, input: GrantInput, update: UpdateData,
                            startsAt: int, id: nat): Outcome<C.ConcessionRow> {
    match C.ValidateTerms(input.unit, input.duration, input.reason)
    case Err(e) => Outcome(a, Err(e))
    case Ok(terms) =>
      if ComputeConcessionEndsAt(startsAt, terms.unit, terms.duration) <= startsAt then Outcome(a, Err(InvalidDuration))
      else
        var done := C.InsertReactivation(a.concessions, subscriptionId, RequestOf(input, terms, C.AdminReactivate),
            startsAt, id);
        match done.result
        case Err(e) => Outcome(a, Err(e))
        case Ok(concession) =>
          Outcome(a.(concessions := done.history,
                     row := WriteIfPresent(a.row, update.(currentPeriodEnd := Some(concession.endsAt))),
                     binding := SetBindingPlan(a.binding, input.planId)),
                  Ok(concession))
  }

  // ----- Charged-terms commands.

  function BindingOf(offer: T.Offer): Binding {
    Binding(offer.planId, Some(offer.chargedAmount), Some(offer.chargedCurrency),
            Some(offer.billingCycleId), Some(offer.billingCycleCode))
  }

  function BindPlan(binding: Option<Binding>, offer: T.Offer): Option<Binding> {
    if binding.Some? then SetBindingPlan(binding, offer.planId) else Some(BindingOf(offer))
  }

  function InsertSnapshot(a: Account, subscriptionId: int, offer: T.Offer, source: T.Source,
                          now: int, id: nat, actorId: Option<int>): Outcome<T.SnapshotRow> {
    var done := T.InsertSnapshot(a.terms, subscriptionId, offer, source, now, id, actorId);
    Outcome(a.(terms := done.history), done.result)
  }

  /** Snapshot first, then the subscription's identity, then the binding's plan, in one transaction. */
  function IdentityChange(a: Account, subscriptionId: int, offer: T.Offer, update: UpdateData,
                          now: int, id: nat, actorId: Option<int>): Outcome<T.SnapshotRow> {
    var (history, row) := T.InsertIdentityChange(a.terms, subscriptionId, offer, now, id, actorId);
    Outcome(a.(terms := history, row := WriteIfPresent(a.row, update), binding := BindPlan(a.binding, offer)), Ok(row))
  }

  function PaidReactivation(a: Account, subscriptionId: int, offer: T.Offer, update: UpdateData,
                            now: int, id: nat, actorId: Option<int>): Outcome<T.SnapshotRow> {
    var done := T.InsertReactivation(a.terms, subscriptionId, offer, now, id, actorId);
    match done.result
    case Err(e) => Outcome(a, Err(e))
    case Ok(row) =>
      Outcome(a.(terms := done.history, row := WriteIfPresent(a.row, update), binding := BindPlan(a.binding, offer)),
          Ok(row))
  }

  // ----- The catalog, as the admin commands see it.

  /** A plan's listing for one billing cycle; whether the amount parses above zero is the catalog's answer. */
  datatype Listing = Listing(
    planId: string,
    isHidden: bool,
    amount: string,
    amountIsPositive: bool,
    currency: string,
    billingCycleId: string)

  /** A listing that can be sold: a visible plan with a positive amount in some currency. */
  ghost predicate IsSellable(listing: Option<Listing>) {
    && listing.Some? && listing.value.planId != "" && !listing.value.isHidden
    && Trim(listing.value.amount) != "" && listing.value.amountIsPositive && Trim(listing.value.currency) != ""
  }

  /** The offer of a sellable listing: its own plan, its amount and currency without blanks, the asked cycle. */
  function ResolveChargedTerms(listing: Option<Listing>, cycle: BillingCycle): (r: Result<T.Offer>)
    ensures r.Ok? ==> T.IsComplete(r.value) && T.IsTrimmed(r.value)
    ensures r.Ok? <==> IsSellable(listing)
    ensures r.Err? ==> r.error == FinancialIncomplete
    ensures r.Ok? ==>
              && r.value.planId == listing.value.planId
              && r.value.chargedAmount == Trim(listing.value.amount)
              && r.value.chargedCurrency == Trim(listing.value.currency)
              && r.value.billingCycleId == listing.value.billingCycleId
              && r.value.billingCycleCode == (match cycle case Monthly => "monthly" case Yearly => "yearly")
  {
    if listing.None? || listing.value.planId == "" || listing.value.isHidden then Err(FinancialIncomplete)
    else if Trim(listing.value.amount) == "" || !listing.value.amountIsPositive then Err(FinancialIncomplete)
    else if Trim(listing.value.currency) == "" then Err(FinancialIncomplete)
    else
      TrimIsIdempotent(listing.value.amount);
      TrimIsIdempotent(listing.value.currency);
      Ok(T.Offer(listing.value.planId, Trim(listing.value.amount), Trim(listing.value.currency),
                 listing.value.billingCycleId, CycleCode(cycle)))
  }

  // ----- Admin commands on an existing account.

  /** Concession commands are for active subscriptions only. */
  function ModifiableGate(row: Option<SubscriptionRow>): Result<SubscriptionRow> {
    match row
    case None => Err(NotFound)
    case Some(existing) =>
      match existing.status
      case Canceled => Err(InvalidStatus)
      case Expired => Err(InvalidStatus)
      case Trial => Err(TrialConflict)
      case Active => Ok(existing)
  }

  function AdminGrant(a: Account, subscriptionId: int, input: ReviseInput, now: int,
      id: nat): Outcome<C.ConcessionRow> {
    match ModifiableGate(a.row)
    case Err(e) => Outcome(a, Err(e))
    case Ok(existing) =>
      Grant(a, subscriptionId,
            GrantInput(existing.planId, CycleCode(existing.billingCycle), input.unit, input.duration, input.reason,
                input.actorId),
            true, now, id)
  }

  function AdminRevise(a: Account, subscriptionId: int, input: ReviseInput, now: int,
      id: nat): Outcome<C.ConcessionRow> {
    match ModifiableGate(a.row)
    case Err(e) => Outcome(a, Err(e))
    case Ok(_) => Revise(a, subscriptionId, input, now, id)
  }

  /** Cancelling expires the period exactly when there are no charged terms. */
  function AdminCancel(a: Account, reason: string, now: int): Outcome<Option<C.ConcessionRow>> {
    match ModifiableGate(a.row)
    case Err(e) => Outcome(a, Err(e))
    case Ok(_) => Cancel(a, reason, T.CurrentSnapshot(a.terms).None?, now)
  }

  datatype FreePeriod = FreePeriod(unit: Unit, duration: int)

  datatype Mode = Paid | Free

  /** `livePlan` and `periodEnd` are None when the catalog or the end date throws. */
  datatype ReactivateInput = ReactivateInput(
    mode: Mode,
    livePlan: Option<string>,
    listing: Option<Listing>,
    billingCycle: BillingCycle,
    reason: string,
    freePeriod: Option<FreePeriod>,
    periodEnd: Option<int>,
    actorId: Option<int>)

  datatype Reactivation = Reactivation(changed: bool, snapshotId: Option<nat>, concessionId: Option<nat>)

  function UnitName(unit: Unit): string {
    if unit == Day then "day" else "month"
  }

  function Activate(planId: string, cycle: BillingCycle, now: int, periodEnd: Option<int>): UpdateData {
    UpdateData(Some(planId), Some(cycle), Some(Active), Some(now), periodEnd, None)
  }

  function ReactivateFree(a: Account, existing: SubscriptionRow, input: ReactivateInput, livePlan: string,
      reason: string,
                          now: int, later: int, id: nat): Outcome<Reactivation> {
    match input.freePeriod
    case None => Outcome(a, Err(FreePeriodRequired))
    case Some(period) =>
      if EntitledNow(existing, now) then
        var current := C.CurrentRow(a.concessions, now);
        if && current.Some? && C.MatchesGrant(current.value, period.unit, period.duration)
           && existing.planId == livePlan && existing.billingCycle == input.billingCycle
        then Outcome(a, Ok(Reactivation(false, None, Some(current.value.id))))
        else Outcome(a, Err(AlreadyEntitled))
      else
        var grant := GrantInput(livePlan, CycleCode(input.billingCycle), UnitName(period.unit), period.duration,
            reason, input.actorId);
        var done := FreeReactivation(a, existing.id, grant, Activate(livePlan, input.billingCycle, now, None), later,
            id);
        match done.result
        case Err(e) => Outcome(a, Err(e))
        case Ok(row) => Outcome(done.account, Ok(Reactivation(true, None, Some(row.id))))
  }

  function ReactivatePaid(a: Account, existing: SubscriptionRow, input: ReactivateInput,
                          now: int, later: int, id: nat): Outcome<Reactivation> {
    match ResolveChargedTerms(input.listing, input.billingCycle)
    case Err(e) => Outcome(a, Err(e))
    case Ok(offer) =>
      if EntitledNow(existing, now) then
        var current := T.CurrentSnapshot(a.terms);
        if && current.Some? && T.SnapshotMatchesOffer(current.value, offer)
           && existing.planId == offer.planId && existing.billingCycle == input.billingCycle
        then Outcome(a, Ok(Reactivation(false, Some(current.value.id), None)))
        else Outcome(a, Err(AlreadyEntitled))
      else
        match input.periodEnd
        case None => Outcome(a, Err(InvalidEndDate))
        case Some(end) =>
          if end <= now then Outcome(a, Err(PeriodNotFuture))
          else
            var update := Activate(offer.planId, input.billingCycle, now, Some(end));
            var done := PaidReactivation(a, existing.id, offer, update, later, id, input.actorId);
            match done.result
            case Err(_) => Outcome(a, Err(FinancialIncomplete))
            case Ok(row) => Outcome(done.account, Ok(Reactivation(true, Some(row.id), None)))
  }

  /** `now` is the clock at the guard; the transaction reads the clock again at `later`. */
  function Reactivate(a: Account, input: ReactivateInput, now: int, later: int, id: nat): Outcome<Reactivation> {
    match C.NormalizeReason(input.reason)
    case Err(e) => Outcome(a, Err(e))
    case Ok(reason) =>
      if a.row.None? then Outcome(a, Err(NotFound))
      else if input.livePlan.None? then Outcome(a, Err(FinancialIncomplete))
      else if input.mode == Free then ReactivateFree(a, a.row.value, input, input.livePlan.value, reason, now, later,
          id)
      else ReactivatePaid(a, a.row.value, input, now, later, id)
  }

  datatype EndDate = NotGiven | Malformed | Given(ms: int)

  /** `livePlan` is what the catalog resolves a requested plan to, None if it throws. */
  datatype UpdateInput = UpdateInput(
    planId: Option<string>,
    livePlan: Option<string>,
    listing: Option<Listing>,
    billingCycle: Option<BillingCycle>,
    status: Option<Status>,
    endDate: EndDate,
    defaultTrialEnd: int,
    actorId: Option<int>)

  function BuildUpdateData(input: UpdateInput): Result<UpdateData> {
    if input.endDate.Malformed? then Err(InvalidEndDate)
    else
      var given := if input.endDate.Given? then Some(input.endDate.ms) else None;
      if input.status == Some(Trial) then
        var trialEnd := if given.Some? then given else Some(input.defaultTrialEnd);
        Ok(UpdateData(input.planId, input.billingCycle, input.status, None, trialEnd, trialEnd))
      else Ok(UpdateData(input.planId, input.billingCycle, input.status, None, given, None))
  }

  /** The row the guard judges: status and period columns as the update would leave them. */
  function Projected(row: SubscriptionRow, u: UpdateData): SubscriptionRow {
    row.(status := Else(u.status, row.status),
         trialEndsAt := ElseStored(u.trialEndsAt, row.trialEndsAt),
         currentPeriodEnd := ElseStored(u.currentPeriodEnd, row.currentPeriodEnd))
  }

  /** Whether an update would bring a dead or lapsed row back. */
  predicate ImplicitlyReactivates(existing: SubscriptionRow, projected: SubscriptionRow, now: int) {
    || ((existing.status == Canceled || existing.status == Expired) && (projected.status == Active ||
        projected.status == Trial))
    || (!EntitledNow(existing, now) && EntitledNow(projected, now))
  }

  datatype AuditSnapshot = AuditSnapshot(plan: string, status: Status, startDate: int, expiration: StoredInstant)

  function AuditOf(row: SubscriptionRow): AuditSnapshot {
    AuditSnapshot(row.planId, row.status, row.currentPeriodStart, row.currentPeriodEnd)
  }

  /** The audited fields as the update data spells them; a new end is still ISO text. */
  function ProjectAudit(row: SubscriptionRow, u: UpdateData): AuditSnapshot {
    AuditSnapshot(Else(u.planId, row.planId), Else(u.status, row.status), row.currentPeriodStart,
                  if u.currentPeriodEnd.Some? then At(u.currentPeriodEnd.value, Iso) else row.currentPeriodEnd)
  }

  /** Concession cancellation is best effort when the update itself cancels the subscription. */
  function CancelOnCanceled(a: Account, status: Option<Status>, now: int): Account {
    if status == Some(Canceled) then Cancel(a, "subscription_canceled", false, now).account else a
  }

  function ResolvePlan(u: UpdateData, livePlan: Option<string>): Result<UpdateData> {
    if u.planId.None? then Ok(u)
    else if livePlan.None? then Err(FinancialIncomplete)
    else Ok(u.(planId := livePlan))
  }

  /** The write half, after the guard and plan resolution; the result says whether a row was written. */
  function CommitUpdate(a: Account, existing: SubscriptionRow, u: UpdateData, listing: Option<Listing>,
                        actorId: Option<int>, now: int, id: nat): Outcome<bool> {
    var planChanged := u.planId.Some? && u.planId.value != existing.planId;
    var cycleChanged := u.billingCycle.Some? && u.billingCycle.value != existing.billingCycle;
    var same := AuditOf(existing) == ProjectAudit(existing, u);
    if planChanged || cycleChanged then
      if C.CurrentRow(a.concessions, now).Some? then
        if same then Outcome(a, Ok(false))
        else Outcome(a.(row := WriteIfPresent(a.row, u), binding := SetBindingPlan(a.binding, Else(u.planId,
            existing.planId))), Ok(true))
      else
        match ResolveChargedTerms(listing, Else(u.billingCycle, existing.billingCycle))
        case Err(e) => Outcome(a, Err(e))
        case Ok(offer) =>
          if same then Outcome(a, Ok(false))
          else Outcome(IdentityChange(a, existing.id, offer, u, now, id, actorId).account, Ok(true))
    else if same then Outcome(a, Ok(false))
    else Outcome(a.(row := WriteIfPresent(a.row, u)), Ok(true))
  }

  function Update(a: Account, input: UpdateInput, now: int, id: nat): Outcome<bool> {
    match a.row
    case None => Outcome(a, Err(NotFound))
    case Some(existing) =>
      match BuildUpdateData(input)
      case Err(e) => Outcome(a, Err(e))
      case Ok(raw) =>
        if ImplicitlyReactivates(existing, Projected(existing, raw), now) then Outcome(a, Err(UseReactivate))
        else
          match ResolvePlan(raw, input.livePlan)
          case Err(e) => Outcome(a, Err(e))
          case Ok(u) =>
            CommitUpdate(CancelOnCanceled(a, input.status, now), existing, u, input.listing, input.actorId, now, id)
  }
}
