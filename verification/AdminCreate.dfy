/**
 * Admin create: a saga of separate statements with compensating deletes. Any statement may throw,
 * before or after it has taken effect, the compensating deletes included.
 */
module AdminCreate {
  import opened Common
  import opened Calendar
  import opened Entitlement
  import opened Accounts
  import opened AccountContents
  import opened CommercialStore
  import C = Concessions
  import T = ChargedTerms

  datatype TermsFaults = TermsFaults(
    bindingReadFails: bool,
    bindingInsert: Fault,
    racedReadFails: bool,
    verifyReadFails: bool,
    snapshot: SnapshotFaults,
    bindingDelete: Fault)

  const NO_TERMS_FAULTS := TermsFaults(false, Fine, false, false, NO_SNAPSHOT_FAULTS, Fine)

  datatype CreateFaults = CreateFaults(rowInsert: Fault, grant: GrantFaults, terms: TermsFaults, rowDelete: Fault)

  const NO_CREATE_FAULTS := CreateFaults(Fine, NO_GRANT_FAULTS, NO_TERMS_FAULTS, Fine)

  /** The binding as it is read: the current snapshot's terms over the binding row's own. */
  function ReadBinding(a: Account): Option<Binding> {
    if a.binding.None? then None
    else
      match T.CurrentSnapshot(a.terms)
      case None => a.binding
      case Some(row) =>
        Some(Binding(a.binding.value.planId, Some(row.terms.chargedAmount), Some(row.terms.chargedCurrency),
                     Some(row.terms.billingCycleId), Some(row.terms.billingCycleCode)))
  }

  predicate BindingMatches(binding: Binding, offer: T.Offer) {
    && binding.planId == offer.planId
    && binding.chargedAmount == Some(offer.chargedAmount)
    && binding.chargedCurrency == Some(offer.chargedCurrency)
    && binding.billingCycleCode == Some(offer.billingCycleCode)
  }

  /** The binding as read says the offer, the catalog's id of the cycle apart. */
  ghost predicate ReadsAs(binding: Binding, offer: T.Offer) {
    binding == Binding(offer.planId, Some(offer.chargedAmount), Some(offer.chargedCurrency), binding.billingCycleId,
                       Some(offer.billingCycleCode))
  }

  /** Financially complete for an offer: the binding as read and the current snapshot both say it. */
  ghost predicate IsComplete(a: Account, offer: T.Offer) {
    && ReadBinding(a).Some? && ReadsAs(ReadBinding(a).value, offer)
    && T.CurrentSnapshot(a.terms).Some? && T.Says(T.CurrentSnapshot(a.terms).value.terms, offer)
  }

  method ReadSubscriptionBinding(db: Tables, s: int, fails: bool) returns (binding: Option<Binding>)
    ensures binding == if fails then None else ReadBinding(db.AccountAt(s))
    ensures !fails && s in db.bindings ==>
              && binding.Some? && binding.value.planId == db.bindings[s].planId
              && (db.Terms(s) == [] ==> binding.value == db.bindings[s])
              && (forall i :: 0 <= i < |db.Terms(s)| && T.CurrentSnapshot(db.Terms(s)) == Some(db.Terms(s)[i]) ==>
                    var terms := db.Terms(s)[i].terms;
                    binding.value.(planId := terms.planId) ==
                    Binding(terms.planId, Some(terms.chargedAmount), Some(terms.chargedCurrency),
                            Some(terms.billingCycleId), Some(terms.billingCycleCode)))
  {
    if fails || s !in db.bindings {
      return None;
    }
    var row := db.bindings[s];
    var snapshot := T.CurrentSnapshot(db.Terms(s));
    if snapshot.None? {
      return Some(row);
    }
    var terms := snapshot.value.terms;
    return Some(Binding(row.planId, Some(terms.chargedAmount), Some(terms.chargedCurrency),
                        Some(terms.billingCycleId), Some(terms.billingCycleCode)));
  }

  /** Whether a text column holds a non-empty value. */
  predicate IsFilled(column: Option<string>) {
    column.Some? && column.value != ""
  }

  /** A binding that is there already may only be completed if it reads as the offer. */
  method CompleteExistingBinding(db: Tables, s: int, binding: Binding, offer: T.Offer, now: int,
                                 actorId: Option<int>, faults: SnapshotFaults)
    returns (r: Result<()>)
    requires db.ValidBy(s, now)
    requires T.IsTrimmed(offer) && ReadBinding(db.AccountAt(s)) == Some(binding)
    modifies db
    ensures db.ValidBy(s, now) && old(db.nextId) <= db.nextId
    ensures db.Others(s) == old(db.Others(s)) && db.AccountAt(s).row == old(db.AccountAt(s)).row
    ensures r.Ok? ==> IsComplete(db.AccountAt(s), offer)
    ensures !ReadsAs(binding, offer) ==> r == Err(HistoricalTermsImmutable) && unchanged(db)
    ensures ReadsAs(binding, offer) && T.HasAllTerms(offer) && faults == NO_SNAPSHOT_FAULTS ==> r.Ok?
  {
    if !BindingMatches(binding, offer) {
      return Err(HistoricalTermsImmutable);
    }
    var snapshot := db.InsertImmutableChargedTermsSnapshot(s, offer, T.AdminCreate, now, actorId, faults);
    return if snapshot.Ok? then Ok(()) else Err(snapshot.error);
  }

  /** Whatever throws, success means the binding and the current snapshot carry the offer. */
  method PersistAdminCreateChargedTerms(db: Tables, s: int, offer: T.Offer, now: int,
                                        actorId: Option<int>, faults: TermsFaults)
    returns (r: Result<()>)
    requires db.ValidBy(s, now) && T.IsTrimmed(offer)
    modifies db
    ensures db.ValidBy(s, now) && old(db.nextId) <= db.nextId
    ensures db.Others(s) == old(db.Others(s)) && db.AccountAt(s).row == old(db.AccountAt(s)).row
    ensures r.Ok? ==> IsComplete(db.AccountAt(s), offer)
    ensures && faults == NO_TERMS_FAULTS && old(db.AccountAt(s)).binding.None? && old(db.Terms(s)) == []
            && T.HasAllTerms(offer) && offer.billingCycleCode in ["monthly", "yearly"] ==>
              r.Ok? && IsNewlyCharged(db.AccountAt(s), s, offer, now, old(db.nextId), actorId)
  {
    if Trim(offer.chargedAmount) == "" || Trim(offer.chargedCurrency) == ""
       || !(offer.billingCycleCode == "monthly" || offer.billingCycleCode == "yearly")
    {
      return Err(ChargedTermsIncomplete);
    }
    var existing := ReadSubscriptionBinding(db, s, faults.bindingReadFails);
    if existing.Some? {
      r := CompleteExistingBinding(db, s, existing.value, offer, now, actorId, faults.snapshot);
      return;
    }
    if faults.bindingInsert == ThrowsBefore {
      return Err(BindingPersistFailed);
    }
    if s in db.bindings {
      // the unique key refuses a second binding
      var raced := ReadSubscriptionBinding(db, s, faults.racedReadFails);
      if raced.None? {
        return Err(HistoricalTermsImmutable);
      }
      r := CompleteExistingBinding(db, s, raced.value, offer, now, actorId, faults.snapshot);
      return;
    }
    db.PutBinding(s, BindingOf(offer));
    if faults.bindingInsert == ThrowsAfter {
      return Err(BindingPersistFailed);
    }
    r := VerifyAndSnapshot(db, s, offer, now, actorId, faults);
  }

  /** The stored binding and the only snapshot are the offer's. */
  ghost predicate IsNewlyCharged(a: Account, s: int, offer: T.Offer, now: int, id: nat, actorId: Option<int>) {
    && a.binding == Some(Binding(offer.planId, Some(offer.chargedAmount), Some(offer.chargedCurrency),
                                 Some(offer.billingCycleId), Some(offer.billingCycleCode)))
    && |a.terms| == 1 && T.IsNextSnapshot(a.terms[0], [], s, offer, now, id, T.AdminCreate, actorId)
  }

  /** The compensation: take the new binding away and report that it was incomplete, if that works. */
  method TakeBindingBack(db: Tables, s: int, fault: Fault) returns (error: Error)
    modifies db`bindings
    ensures db.Others(s) == old(db.Others(s))
    ensures db.AccountAt(s) ==
            if fault == ThrowsBefore then old(db.AccountAt(s)) else old(db.AccountAt(s)).(binding := None)
  {
    if fault != ThrowsBefore {
      db.DeleteBinding(s);
    }
    error := if fault == Fine then ChargedTermsIncomplete else PersistFailed;
  }

  /** Read the new binding back, then snapshot; either failure takes the binding away again. */
  method VerifyAndSnapshot(db: Tables, s: int, offer: T.Offer, now: int, actorId: Option<int>, faults: TermsFaults)
    returns (r: Result<()>)
    requires db.ValidBy(s, now) && T.IsTrimmed(offer)
    requires db.AccountAt(s).binding == Some(BindingOf(offer))
    modifies db
    ensures db.ValidBy(s, now) && old(db.nextId) <= db.nextId
    ensures db.Others(s) == old(db.Others(s)) && db.AccountAt(s).row == old(db.AccountAt(s)).row
    ensures r.Ok? ==> IsComplete(db.AccountAt(s), offer)
    ensures r.Err? && !faults.verifyReadFails ==>
              (db.AccountAt(s).binding.Some? <==> faults.bindingDelete == ThrowsBefore)
    ensures faults == NO_TERMS_FAULTS && T.HasAllTerms(offer) && old(db.Terms(s)) == [] ==>
              r.Ok? && IsNewlyCharged(db.AccountAt(s), s, offer, now, old(db.nextId), actorId)
  {
    var written := ReadSubscriptionBinding(db, s, faults.verifyReadFails);
    if written.None? {
      return Err(ChargedTermsIncomplete);
    }
    if !IsFilled(written.value.chargedAmount) || !IsFilled(written.value.chargedCurrency)
       || written.value.billingCycleCode != Some(offer.billingCycleCode) || written.value.planId != offer.planId
    {
      var error := TakeBindingBack(db, s, faults.bindingDelete);
      return Err(error);
    }
    r := SnapshotNewBinding(db, s, offer, now, actorId, faults);
  }

  method SnapshotNewBinding(db: Tables, s: int, offer: T.Offer, now: int, actorId: Option<int>, faults: TermsFaults)
    returns (r: Result<()>)
    requires db.ValidBy(s, now) && T.IsTrimmed(offer)
    requires db.AccountAt(s).binding == Some(BindingOf(offer))
    modifies db
    ensures db.ValidBy(s, now) && old(db.nextId) <= db.nextId
    ensures db.Others(s) == old(db.Others(s)) && db.AccountAt(s).row == old(db.AccountAt(s)).row
    ensures r.Ok? ==> IsComplete(db.AccountAt(s), offer)
    ensures r.Err? ==> (db.AccountAt(s).binding.Some? <==> faults.bindingDelete == ThrowsBefore)
    ensures faults.snapshot == NO_SNAPSHOT_FAULTS && T.HasAllTerms(offer) && old(db.Terms(s)) == [] ==>
              r.Ok? && IsNewlyCharged(db.AccountAt(s), s, offer, now, old(db.nextId), actorId)
  {
    T.InsertSnapshotStores(db.Terms(s), s, offer, T.AdminCreate, now, db.nextId, actorId);
    var snapshot := db.InsertImmutableChargedTermsSnapshot(s, offer, T.AdminCreate, now, actorId, faults.snapshot);
    if snapshot.Err? {
      var error := TakeBindingBack(db, s, faults.bindingDelete);
      return Err(error);
    }
    return Ok(());
  }

  datatype Created = Created(id: int) | Refused(error: Error) | RowInsertThrew

  datatype FreeTerms = FreeTerms(unit: Unit, duration: int, reason: string)

  /**
   * `existing` is the account row the owner already has, if any; `defaultEnd` is the period end
   * the calendar gives when no end date is asked for.
   */
  datatype CreateInput = CreateInput(
    userId: int,
    existing: Option<SubscriptionRow>,
    livePlan: Option<string>,
    listing: Option<Listing>,
    billingCycle: BillingCycle,
    status: Option<Status>,
    endDate: EndDate,
    defaultEnd: int,
    freePeriod: Option<FreeTerms>,
    actorId: Option<int>)

  /** The refusals that come before any write. */
  function CheckCreate(input: CreateInput): Result<T.Offer> {
    if input.existing.Some? then Err(AlreadySubscribed)
    else if input.freePeriod.Some? && input.status.Some? && input.status.value != Active then Err(TrialConflict)
    else if input.freePeriod.Some? && !input.endDate.NotGiven? then Err(ConflictingPeriodEnd)
    else if input.livePlan.None? then Err(FinancialIncomplete)
    else
      var offer := ResolveChargedTerms(input.listing, input.billingCycle);
      if offer.Ok? && input.freePeriod.None? && input.endDate.Malformed? then Err(InvalidEndDate) else offer
  }

  function NewStatus(input: CreateInput): Status {
    if input.freePeriod.Some? then Active else Else(input.status, Active)
  }

  function NewSubscription(input: CreateInput, s: int, livePlan: string, now: int): SubscriptionRow {
    var end := if input.freePeriod.Some? then ComputeConcessionEndsAt(now, input.freePeriod.value.unit,
        input.freePeriod.value.duration)
               else if input.endDate.Given? then input.endDate.ms
               else input.defaultEnd;
    SubscriptionRow(s, input.userId, 0, livePlan, NewStatus(input), input.billingCycle, now, Stamped(end),
                    if NewStatus(input) == Trial then Stamped(end) else Missing)
  }

  /** The period end asked for, or the one the calendar gives. */
  function AskedPeriodEnd(input: CreateInput): int {
    if input.endDate.Given? then input.endDate.ms else input.defaultEnd
  }

  /** The columns every new row starts with. */
  ghost predicate IsStarted(row: SubscriptionRow, s: int, input: CreateInput, now: int) {
    && row.id == s && row.userId == input.userId && row.restaurantId == 0
    && input.livePlan == Some(row.planId) && row.billingCycle == input.billingCycle
    && row.status == (if input.freePeriod.Some? || input.status.None? then Active else input.status.value)
    && row.currentPeriodStart == now
  }

  /** A paid row runs to the asked end, a trial's trial as well; it is entitled exactly while it is live until then. */
  ghost predicate RunsAsAsked(row: SubscriptionRow, input: CreateInput) {
    var end := AskedPeriodEnd(input);
    && row.currentPeriodEnd == At(end, Column)
    && row.trialEndsAt == (if row.status == Trial then At(end, Column) else Missing)
    && forall t :: EntitledNow(row, t) <==> (row.status == Active || row.status == Trial) && t < end
  }

  /** What is wrong with a request before anything is written, in the order it is looked for. */
  ghost predicate IsRefusedFor(input: CreateInput, error: Error) {
    if input.existing.Some? then error == AlreadySubscribed
    else if input.freePeriod.Some? && input.status.Some? && input.status.value != Active then error == TrialConflict
    else if input.freePeriod.Some? && !input.endDate.NotGiven? then error == ConflictingPeriodEnd
    else if input.livePlan.None? || !IsSellable(input.listing) then error == FinancialIncomplete
    else input.freePeriod.None? && input.endDate.Malformed? && error == InvalidEndDate
  }

  /** The free period of a new row is one the concession calendar takes, with a reason. */
  ghost predicate IsGrantable(input: CreateInput) {
    input.freePeriod.Some? ==>
      var free := input.freePeriod.value;
      1 <= free.duration <= (if free.unit == Day then 366 else 24) && HasReason(free.reason)
  }

  /** The first concession of a free row: the asked period on the row's own plan and cycle. */
  ghost predicate IsFirstConcession(row: C.ConcessionRow, s: int, input: CreateInput, plan: string, now: int, id: nat)
    requires input.freePeriod.Some?
  {
    var free := input.freePeriod.value;
    C.IsNextRow(row, [], s,
      C.Request(plan, CycleCode(input.billingCycle), free.unit, free.duration, Trim(free.reason), C.AdminGrant,
        input.actorId), now, id)
  }

  lemma RequestIsRefusedExactlyWhen(input: CreateInput, error: Error)
    ensures CheckCreate(input) == Err(error) <==> IsRefusedFor(input, error)
    ensures CheckCreate(input).Ok? ==>
              && input.livePlan.Some? && IsSellable(input.listing)
              && CheckCreate(input).value == ListedOffer(input.listing.value, input.billingCycle)
  {
  }

  lemma NewRowIsAsAsked(input: CreateInput, s: int, now: int)
    requires CheckCreate(input).Ok? && input.livePlan.Some?
    ensures var row := NewSubscription(input, s, input.livePlan.value, now);
            && IsStarted(row, s, input, now)
            && (input.freePeriod.None? ==> RunsAsAsked(row, input))
            && (input.freePeriod.Some? ==>
                  && row.trialEndsAt == Missing
                  && row.currentPeriodEnd ==
                     At(ComputeConcessionEndsAt(now, input.freePeriod.value.unit, input.freePeriod.value.duration),
                        Column))
  {
  }

  /**
   * Fail-closed creation of the subscription `s`, an id the table has not used. A request is refused
   * before anything is written, or the row starts as asked; whichever statement throws, on success it
   * is complete for the listed offer and runs to the asked end (paid), or has the asked concession
   * (free), and on an error it has been removed unless the compensating delete itself had no effect -
   * except that a row insert that throws after taking effect leaves the bare row, because it is not
   * inside the compensated part. When nothing throws it succeeds. No other subscription is touched.
   */
  method ApplyAdminUserSubscriptionCreate(db: Tables, s: int, input: CreateInput, now: int, later: int,
      faults: CreateFaults)
    returns (r: Created)
    requires s !in db.subscriptions && db.ValidBy(s, later)
    requires now <= later
    modifies db
    ensures db.ValidBy(s, later) && old(db.nextId) <= db.nextId && db.Others(s) == old(db.Others(s))
    ensures forall error :: IsRefusedFor(input, error) ==> r == Refused(error) && unchanged(db)
    ensures r.Created? ==> s in db.subscriptions && r.id == s && IsStarted(db.subscriptions[s], s, input, now)
    ensures r.Created? && input.freePeriod.None? ==>
              && IsSellable(input.listing)
              && IsComplete(db.AccountAt(s), ListedOffer(input.listing.value, input.billingCycle))
              && RunsAsAsked(db.subscriptions[s], input)
    ensures r.Created? && input.freePeriod.Some? ==> C.CurrentRow(db.History(s), later).Some?
    ensures r.Created? && input.freePeriod.Some? && old(db.History(s)) == [] ==>
              && |db.History(s)| == 1
              && IsFirstConcession(db.History(s)[0], s, input, db.subscriptions[s].planId, later, old(db.nextId))
              && EntitledNow(db.subscriptions[s], later) ==
                 (faults.grant.alignSkips ==> later < ComputeConcessionEndsAt(now, input.freePeriod.value.unit,
                     input.freePeriod.value.duration))
    ensures r.Refused? ==> (s in db.subscriptions <==>
              (forall error :: !IsRefusedFor(input, error)) && faults.rowDelete == ThrowsBefore)
    ensures r.RowInsertThrew? ==>
              && (s in db.subscriptions <==> faults.rowInsert == ThrowsAfter)
              && db.AccountAt(s).(row := None) == old(db.AccountAt(s))
    ensures && faults == NO_CREATE_FAULTS && old(db.AccountAt(s)) == Account(None, None, [], [])
            && (forall error :: !IsRefusedFor(input, error)) && IsGrantable(input) ==>
              && r == Created(s)
              && (input.freePeriod.None? ==>
                    IsNewlyCharged(db.AccountAt(s), s, ListedOffer(input.listing.value, input.billingCycle), later,
                      old(db.nextId), input.actorId))
  {
    var offer := CheckCreate(input);
    RequestIsRefusedExactlyWhen(input, if offer.Err? then offer.error else NotFound);
    if offer.Err? {
      return Refused(offer.error);
    }
    if faults.rowInsert == ThrowsBefore {
      return RowInsertThrew;
    }
    NewRowIsAsAsked(input, s, now);
    var row := NewSubscription(input, s, input.livePlan.value, now);
    db.PutSubscription(s, row);
    if faults.rowInsert == ThrowsAfter {
      return RowInsertThrew;
    }
    if input.freePeriod.Some? {
      r := CreateFree(db, s, row, input.freePeriod.value, input, later, faults.grant, faults.rowDelete);
    } else {
      r := CreatePaid(db, s, offer.value, input, later, faults.terms, faults.rowDelete);
    }
  }

  method CreateFree(db: Tables, s: int, row: SubscriptionRow, free: FreeTerms, input: CreateInput, now: int,
      faults: GrantFaults, rowDelete: Fault)
    returns (r: Created)
    requires db.ValidBy(s, now) && db.AccountAt(s).row == Some(row) && row.status == Active && row.currentPeriodEnd.At?
    requires input.freePeriod == Some(free)
    modifies db
    ensures db.ValidBy(s, now) && old(db.nextId) <= db.nextId && db.Others(s) == old(db.Others(s))
    ensures !r.RowInsertThrew? && (r.Refused? ==> (s in db.subscriptions <==> rowDelete == ThrowsBefore))
    ensures r.Created? ==> r.id == s && s in db.subscriptions && C.CurrentRow(db.History(s), now).Some?
    ensures r.Created? ==> KeepsButEnd(Some(row), Some(db.subscriptions[s]))
    ensures r.Created? && old(db.History(s)) == [] ==>
              && |db.History(s)| == 1
              && IsFirstConcession(db.History(s)[0], s, input, row.planId, now, old(db.nextId))
              && EntitledNow(db.subscriptions[s], now) == (faults.alignSkips ==> now < row.currentPeriodEnd.ms)
    ensures faults == NO_GRANT_FAULTS && old(db.History(s)) == [] && IsGrantable(input) ==> r.Created?
  {
    var grant := GrantInput(row.planId, CycleCode(input.billingCycle), UnitName(free.unit), free.duration,
        free.reason, input.actorId);
    C.TermsAreValidExactlyWhen(grant.unit, grant.duration, grant.reason);
    var concession := db.GrantUnderFaults(s, grant, true, now, faults);
    if concession.Err? {
      if rowDelete != ThrowsBefore {
        db.DeleteUserSubscriptionById(s);
      }
      return Refused(concession.error);
    }
    return Created(s);
  }

  method CreatePaid(db: Tables, s: int, offer: T.Offer, input: CreateInput, now: int, faults: TermsFaults,
      rowDelete: Fault)
    returns (r: Created)
    requires db.ValidBy(s, now) && s in db.subscriptions && T.IsTrimmed(offer)
    modifies db
    ensures db.ValidBy(s, now) && old(db.nextId) <= db.nextId && db.Others(s) == old(db.Others(s))
    ensures !r.RowInsertThrew? && (r.Refused? ==> (s in db.subscriptions <==> rowDelete == ThrowsBefore))
    ensures r.Created? ==> r.id == s && s in db.subscriptions && IsComplete(db.AccountAt(s), offer)
    ensures r.Created? ==> db.subscriptions[s] == old(db.subscriptions[s])
    ensures && faults == NO_TERMS_FAULTS && old(db.AccountAt(s)).binding.None? && old(db.Terms(s)) == []
            && T.HasAllTerms(offer) && offer.billingCycleCode in ["monthly", "yearly"] ==>
              r.Created? && IsNewlyCharged(db.AccountAt(s), s, offer, now, old(db.nextId), input.actorId)
  {
    var done := PersistAdminCreateChargedTerms(db, s, offer, now, input.actorId, faults);
    if done.Err? {
      if rowDelete != ThrowsBefore {
        db.DeleteUserSubscriptionById(s);
      }
      return Refused(FinancialIncomplete);
    }
    assert db.AccountAt(s).row.Some?;
    return Created(s);
  }
}
