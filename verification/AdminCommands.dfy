/**
 * The admin commands over the tables. Each first picks the owner's account row from the rows the
 * database returns for the owner, in whatever order, then works on that row's account alone.
 */
module AdminCommands {
  import opened Common
  import opened Calendar
  import opened Entitlement
  import opened Resolver
  import opened Accounts
  import opened CommercialStore
  import C = Concessions
  import T = ChargedTerms

  /** `rows` are stored rows, and what is stored for them is well-formed and not from the future. */
  ghost predicate AreStored(db: Tables, rows: seq<SubscriptionRow>, clock: int)
    reads db
  {
    forall i :: 0 <= i < |rows| ==>
      && rows[i].id in db.subscriptions && db.subscriptions[rows[i].id] == rows[i]
      && db.ValidBy(rows[i].id, clock)
  }

  method GrantOnRow(db: Tables, existing: SubscriptionRow, input: ReviseInput,
      now: int) returns (r: Result<C.ConcessionRow>)
    requires db.ValidBy(existing.id, now) && db.AccountAt(existing.id).row == Some(existing)
    modifies db
    ensures db.ValidBy(existing.id, now) && old(db.nextId) <= db.nextId
    ensures var done := AdminGrant(old(db.AccountAt(existing.id)), existing.id, input, now, old(db.nextId));
            db.AccountAt(existing.id) == done.account && r == done.result &&
                db.Others(existing.id) == old(db.Others(existing.id))
  {
    var gate := ModifiableGate(Some(existing));
    if gate.Err? {
      return Err(gate.error);
    }
    var grant := GrantInput(existing.planId, CycleCode(existing.billingCycle), input.unit, input.duration,
        input.reason, input.actorId);
    r := db.GrantCommercialConcession(existing.id, grant, true, now);
  }

  method ReviseOnRow(db: Tables, existing: SubscriptionRow, input: ReviseInput,
      now: int) returns (r: Result<C.ConcessionRow>)
    requires db.ValidBy(existing.id, now) && db.AccountAt(existing.id).row == Some(existing)
    modifies db
    ensures db.ValidBy(existing.id, now) && old(db.nextId) <= db.nextId
    ensures var done := AdminRevise(old(db.AccountAt(existing.id)), existing.id, input, now, old(db.nextId));
            db.AccountAt(existing.id) == done.account && r == done.result &&
                db.Others(existing.id) == old(db.Others(existing.id))
  {
    var gate := ModifiableGate(Some(existing));
    if gate.Err? {
      return Err(gate.error);
    }
    r := db.ReviseCommercialConcession(existing.id, input, now);
  }

  method ApplyAdminConcessionGrant(db: Tables, rows: seq<SubscriptionRow>, input: ReviseInput, now: int)
    returns (r: Result<C.ConcessionRow>)
    requires AreStored(db, rows, now)
    modifies db
    ensures match PickUserLevel(rows, now)
            case None => r == Err(NotFound) && unchanged(db)
            case Some(row) =>
              var done := AdminGrant(old(db.AccountAt(row.id)), row.id, input, now, old(db.nextId));
              && db.AccountAt(row.id) == done.account && r == done.result
              && db.ValidBy(row.id, now) && old(db.nextId) <= db.nextId && db.Others(row.id) == old(db.Others(row.id))
  {
    var existing := PickUserLevel(rows, now);
    if existing.None? {
      return Err(NotFound);
    }
    r := GrantOnRow(db, existing.value, input, now);
  }

  method ApplyAdminConcessionRevise(db: Tables, rows: seq<SubscriptionRow>, input: ReviseInput, now: int)
    returns (r: Result<C.ConcessionRow>)
    requires AreStored(db, rows, now)
    modifies db
    ensures match PickUserLevel(rows, now)
            case None => r == Err(NotFound) && unchanged(db)
            case Some(row) =>
              var done := AdminRevise(old(db.AccountAt(row.id)), row.id, input, now, old(db.nextId));
              && db.AccountAt(row.id) == done.account && r == done.result
              && db.ValidBy(row.id, now) && old(db.nextId) <= db.nextId && db.Others(row.id) == old(db.Others(row.id))
  {
    var existing := PickUserLevel(rows, now);
    if existing.None? {
      return Err(NotFound);
    }
    r := ReviseOnRow(db, existing.value, input, now);
  }

  method CancelOnRow(db: Tables, existing: SubscriptionRow, reason: string,
      now: int) returns (r: Result<Option<C.ConcessionRow>>)
    requires db.ValidBy(existing.id, now) && db.AccountAt(existing.id).row == Some(existing)
    modifies db
    ensures db.ValidBy(existing.id, now) && old(db.nextId) <= db.nextId
    ensures var done := AdminCancel(old(db.AccountAt(existing.id)), reason, now);
            db.AccountAt(existing.id) == done.account && r == done.result &&
                db.Others(existing.id) == old(db.Others(existing.id))
  {
    var gate := ModifiableGate(Some(existing));
    if gate.Err? {
      return Err(gate.error);
    }
    var snapshot := T.CurrentSnapshot(db.Terms(existing.id));
    r := db.CancelCommercialConcession(existing.id, reason, snapshot.None?, now);
  }

  method ApplyAdminConcessionCancel(db: Tables, rows: seq<SubscriptionRow>, reason: string, now: int)
    returns (r: Result<Option<C.ConcessionRow>>)
    requires AreStored(db, rows, now)
    modifies db
    ensures match PickUserLevel(rows, now)
            case None => r == Err(NotFound) && unchanged(db)
            case Some(row) =>
              var done := AdminCancel(old(db.AccountAt(row.id)), reason, now);
              && db.AccountAt(row.id) == done.account && r == done.result
              && db.ValidBy(row.id, now) && old(db.nextId) <= db.nextId && db.Others(row.id) == old(db.Others(row.id))
  {
    var existing := PickUserLevel(rows, now);
    if existing.None? {
      return Err(NotFound);
    }
    r := CancelOnRow(db, existing.value, reason, now);
  }

  method ReactivateFreePeriod(db: Tables, existing: SubscriptionRow, input: ReactivateInput, livePlan: string,
                              reason: string, now: int, later: int)
    returns (r: Result<Reactivation>)
    requires db.ValidBy(existing.id, later)
    modifies db
    ensures db.ValidBy(existing.id, later) && old(db.nextId) <= db.nextId
    ensures var done := ReactivateFree(old(db.AccountAt(existing.id)), existing, input, livePlan, reason, now, later,
        old(db.nextId));
            db.AccountAt(existing.id) == done.account && r == done.result &&
                db.Others(existing.id) == old(db.Others(existing.id))
  {
    if input.freePeriod.None? {
      return Err(FreePeriodRequired);
    }
    var period := input.freePeriod.value;
    var current := C.LoadCurrentCommercialConcession(db.History(existing.id), now);
    if EntitledNow(existing, now) {
      if && current.Some? && C.MatchesGrant(current.value, period.unit, period.duration)
         && existing.planId == livePlan && existing.billingCycle == input.billingCycle
      {
        return Ok(Reactivation(false, None, Some(current.value.id)));
      }
      return Err(AlreadyEntitled);
    }
    var grant := GrantInput(livePlan, CycleCode(input.billingCycle), UnitName(period.unit), period.duration, reason,
        input.actorId);
    var concession := db.ApplyAdminFreeReactivation(existing.id, grant, Activate(livePlan, input.billingCycle, now,
        None), later);
    return if concession.Ok? then Ok(Reactivation(true, None, Some(concession.value.id))) else Err(concession.error);
  }

  method ReactivatePaidPeriod(db: Tables, existing: SubscriptionRow, input: ReactivateInput, now: int, later: int)
    returns (r: Result<Reactivation>)
    requires db.ValidBy(existing.id, later)
    modifies db
    ensures db.ValidBy(existing.id, later) && old(db.nextId) <= db.nextId
    ensures var done := ReactivatePaid(old(db.AccountAt(existing.id)), existing, input, now, later, old(db.nextId));
            db.AccountAt(existing.id) == done.account && r == done.result &&
                db.Others(existing.id) == old(db.Others(existing.id))
  {
    var offer := ResolveChargedTerms(input.listing, input.billingCycle);
    if offer.Err? {
      return Err(offer.error);
    }
    var current := T.CurrentSnapshot(db.Terms(existing.id));
    if EntitledNow(existing, now) {
      if && current.Some? && T.SnapshotMatchesOffer(current.value, offer.value)
         && existing.planId == offer.value.planId && existing.billingCycle == input.billingCycle
      {
        return Ok(Reactivation(false, Some(current.value.id), None));
      }
      return Err(AlreadyEntitled);
    }
    if input.periodEnd.None? {
      return Err(InvalidEndDate);
    }
    if input.periodEnd.value <= now {
      return Err(PeriodNotFuture);
    }
    var update := Activate(offer.value.planId, input.billingCycle, now, input.periodEnd);
    var snapshot := db.ApplyAdminPaidReactivation(existing.id, offer.value, update, later, input.actorId);
    return if snapshot.Ok? then Ok(Reactivation(true, Some(snapshot.value.id), None)) else Err(FinancialIncomplete);
  }

  method ApplyAdminUserSubscriptionReactivate(db: Tables, rows: seq<SubscriptionRow>, input: ReactivateInput,
      now: int, later: int)
    returns (r: Result<Reactivation>)
    requires AreStored(db, rows, later)
    modifies db
    ensures match PickUserLevel(rows, now)
            case None => r.Err? && unchanged(db)
            case Some(row) =>
              var done := Reactivate(old(db.AccountAt(row.id)), input, now, later, old(db.nextId));
              && db.AccountAt(row.id) == done.account && r == done.result
              && db.ValidBy(row.id, later) && old(db.nextId) <= db.nextId && db.Others(row.id) == old(db.Others(row.id))
  {
    var reason := C.NormalizeReason(input.reason);
    if reason.Err? {
      return Err(reason.error);
    }
    var existing := PickUserLevel(rows, now);
    if existing.None? {
      return Err(NotFound);
    }
    if input.livePlan.None? {
      return Err(FinancialIncomplete);
    }
    if input.mode == Free {
      r := ReactivateFreePeriod(db, existing.value, input, input.livePlan.value, reason.value, now, later);
    } else {
      r := ReactivatePaidPeriod(db, existing.value, input, now, later);
    }
  }

  /** The update record, filled in field by field. */
  method BuildAdminSubscriptionUpdateData(input: UpdateInput) returns (r: Result<UpdateData>)
    ensures r == BuildUpdateData(input)
    ensures r.Ok? && input.status == Some(Trial) ==>
          r.value.trialEndsAt.Some? && r.value.currentPeriodEnd == r.value.trialEndsAt
    ensures r.Ok? && input.status != Some(Trial) ==> r.value.trialEndsAt.None?
  {
    var data := UpdateData(None, None, None, None, None, None);
    if input.planId.Some? {
      data := data.(planId := input.planId);
    }
    if input.billingCycle.Some? {
      data := data.(billingCycle := input.billingCycle);
    }
    if input.status.Some? {
      data := data.(status := input.status);
    }
    match input.endDate {
      case Malformed => return Err(InvalidEndDate);
      case Given(ms) => data := data.(currentPeriodEnd := Some(ms));
      case NotGiven =>
    }
    if input.status == Some(Trial) {
      var trialEnd := if input.endDate.Given? then input.endDate.ms else input.defaultTrialEnd;
      data := data.(trialEndsAt := Some(trialEnd));
      if !input.endDate.Given? {
        data := data.(currentPeriodEnd := Some(trialEnd));
      }
    }
    return Ok(data);
  }

  method CommitUserSubscriptionUpdate(db: Tables, existing: SubscriptionRow, data: UpdateData, input: UpdateInput,
      now: int)
    returns (r: Result<bool>)
    requires db.ValidBy(existing.id, now)
    modifies db
    ensures db.ValidBy(existing.id, now) && old(db.nextId) <= db.nextId
    ensures var done := CommitUpdate(old(db.AccountAt(existing.id)), existing, data, input.listing, input.actorId,
        now, old(db.nextId));
            db.AccountAt(existing.id) == done.account && r == done.result &&
                db.Others(existing.id) == old(db.Others(existing.id))
  {
    var planChanged := data.planId.Some? && data.planId.value != existing.planId;
    var cycleChanged := data.billingCycle.Some? && data.billingCycle.value != existing.billingCycle;
    var same := AuditOf(existing) == ProjectAudit(existing, data);
    if planChanged || cycleChanged {
      var current := C.LoadCurrentCommercialConcession(db.History(existing.id), now);
      if current.Some? {
        if same {
          return Ok(false);
        }
        db.UpdateSubscriptionById(existing.id, data);
        db.UpdateEnrollmentPlanIdOnly(existing.id, Else(data.planId, existing.planId));
        return Ok(true);
      }
      var offer := ResolveChargedTerms(input.listing, Else(data.billingCycle, existing.billingCycle));
      if offer.Err? {
        return Err(offer.error);
      }
      if same {
        return Ok(false);
      }
      var _ := db.ApplyAdminCommercialIdentityChange(existing.id, offer.value, data, now, input.actorId);
      return Ok(true);
    }
    if same {
      return Ok(false);
    }
    db.UpdateSubscriptionById(existing.id, data);
    return Ok(true);
  }

  method UpdateOnRow(db: Tables, existing: SubscriptionRow, input: UpdateInput, now: int) returns (r: Result<bool>)
    requires db.ValidBy(existing.id, now)
    requires db.AccountAt(existing.id).row == Some(existing)
    modifies db
    ensures db.ValidBy(existing.id, now) && old(db.nextId) <= db.nextId
    ensures var done := Update(old(db.AccountAt(existing.id)), input, now, old(db.nextId));
            db.AccountAt(existing.id) == done.account && r == done.result &&
                db.Others(existing.id) == old(db.Others(existing.id))
  {
    var built := BuildAdminSubscriptionUpdateData(input);
    if built.Err? {
      return Err(built.error);
    }
    if ImplicitlyReactivates(existing, Projected(existing, built.value), now) {
      return Err(UseReactivate);
    }
    var resolved := ResolvePlan(built.value, input.livePlan);
    if resolved.Err? {
      return Err(resolved.error);
    }
    if input.status == Some(Canceled) {
      var _ := db.CancelCommercialConcession(existing.id, "subscription_canceled", false, now);
    }
    r := CommitUserSubscriptionUpdate(db, existing, resolved.value, input, now);
  }

  method ApplyAdminUserSubscriptionUpdate(db: Tables, rows: seq<SubscriptionRow>, input: UpdateInput, now: int)
    returns (r: Result<bool>)
    requires AreStored(db, rows, now)
    modifies db
    ensures match PickUserLevel(rows, now)
            case None => r == Err(NotFound) && unchanged(db)
            case Some(row) =>
              var done := Update(old(db.AccountAt(row.id)), input, now, old(db.nextId));
              && db.AccountAt(row.id) == done.account && r == done.result
              && db.ValidBy(row.id, now) && old(db.nextId) <= db.nextId && db.Others(row.id) == old(db.Others(row.id))
  {
    var existing := PickUserLevel(rows, now);
    if existing.None? {
      return Err(NotFound);
    }
    r := UpdateOnRow(db, existing.value, input, now);
  }
}
