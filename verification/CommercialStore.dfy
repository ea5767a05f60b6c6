/**
 * The commercial tables and the commands that change them step by step. Every command is proved
 * to do to its own subscription's account exactly what the account-level function says, and
 * nothing to any other subscription.
 */
module CommercialStore {
  import opened Common
  import opened Calendar
  import opened Entitlement
  import opened Accounts
  import C = Concessions
  import T = ChargedTerms

  /** How a write statement ends: normally, or by throwing before or after it has taken effect. */
  datatype Fault = Fine | ThrowsBefore | ThrowsAfter

  /** A failing current-concession read reports no row; without a database handle the alignment is silently skipped. */
  datatype GrantFaults = GrantFaults(readFails: bool, insert: Fault, align: Fault, alignSkips: bool)

  const NO_GRANT_FAULTS := GrantFaults(false, Fine, Fine, false)

  /** Failing snapshot reads, before the insert and after a duplicate-key refusal, report no row. */
  datatype SnapshotFaults = SnapshotFaults(readFails: bool, insert: Fault, retryFails: bool)

  const NO_SNAPSHOT_FAULTS := SnapshotFaults(false, Fine, false)

  /** A row keeps every column but its period end. */
  ghost predicate KeepsButEnd(before: Option<SubscriptionRow>, after: Option<SubscriptionRow>) {
    if before.None? then after.None?
    else after.Some? && after.value == before.value.(currentPeriodEnd := after.value.currentPeriodEnd)
  }

  class Tables {
    var subscriptions: map<int, SubscriptionRow>
    var bindings: map<int, Binding>
    var concessions: map<int, seq<C.ConcessionRow>>
    var terms: map<int, seq<T.SnapshotRow>>
    var nextId: nat  // the next commercial id; ids are never reused

    function History(s: int): seq<C.ConcessionRow>
      reads this
    {
      if s in concessions then concessions[s] else []
    }

    function Terms(s: int): seq<T.SnapshotRow>
      reads this
    {
      if s in terms then terms[s] else []
    }

    ghost function AccountAt(s: int): Account
      reads this
    {
      Account(if s in subscriptions then Some(subscriptions[s]) else None,
              if s in bindings then Some(bindings[s]) else None,
              History(s), Terms(s))
    }

    /** What the tables hold for `s` is well-formed. */
    ghost predicate ValidAt(s: int)
      reads this
    {
      && (s in subscriptions ==> subscriptions[s].id == s)
      && C.Chain(History(s), s) && C.Fresh(History(s), nextId)
      && T.Chain(Terms(s), s)
    }

    /** It is well-formed, and no snapshot is from after `clock`. */
    ghost predicate ValidBy(s: int, clock: int)
      reads this
    {
      ValidAt(s) && T.EffectiveBy(Terms(s), clock)
    }

    /** What the tables hold for every subscription but `s`. */
    ghost function Others(s: int): (map<int, SubscriptionRow>, map<int, Binding>, map<int, seq<C.ConcessionRow>>,
        map<int, seq<T.SnapshotRow>>)
      reads this
    {
      (subscriptions - {s}, bindings - {s}, concessions - {s}, terms - {s})
    }

    constructor ()
      ensures forall s :: ValidAt(s) && AccountAt(s) == Account(None, None, [], [])
    {
      subscriptions := map[];
      bindings := map[];
      concessions := map[];
      terms := map[];
      nextId := 0;
    }

    method NewCommercialId() returns (id: nat)
      modifies this`nextId
      ensures id == old(nextId) && nextId == id + 1
    {
      id := nextId;
      nextId := nextId + 1;
    }

    // ----- The statements that write a table.

    method CommitHistory(s: int, h: seq<C.ConcessionRow>)
      modifies this`concessions
      ensures Others(s) == old(Others(s)) && AccountAt(s) == old(AccountAt(s)).(concessions := h)
    {
      concessions := concessions[s := h];
      assert concessions - {s} == old(concessions) - {s};
    }

    method AppendSnapshot(s: int, row: T.SnapshotRow)
      modifies this`terms
      ensures Others(s) == old(Others(s)) && AccountAt(s) == old(AccountAt(s)).(terms := old(Terms(s)) + [row])
    {
      terms := terms[s := Terms(s) + [row]];
      assert terms - {s} == old(terms) - {s};
    }

    method PutSubscription(s: int, row: SubscriptionRow)
      modifies this`subscriptions
      ensures Others(s) == old(Others(s)) && AccountAt(s) == old(AccountAt(s)).(row := Some(row))
    {
      subscriptions := subscriptions[s := row];
      assert subscriptions - {s} == old(subscriptions) - {s};
    }

    method DeleteUserSubscriptionById(s: int)
      modifies this`subscriptions
      ensures Others(s) == old(Others(s)) && AccountAt(s) == old(AccountAt(s)).(row := None)
    {
      subscriptions := subscriptions - {s};
      assert subscriptions - {s} == old(subscriptions) - {s};
    }

    method PutBinding(s: int, binding: Binding)
      modifies this`bindings
      ensures Others(s) == old(Others(s)) && AccountAt(s) == old(AccountAt(s)).(binding := Some(binding))
    {
      bindings := bindings[s := binding];
      assert bindings - {s} == old(bindings) - {s};
    }

    method DeleteBinding(s: int)
      modifies this`bindings
      ensures Others(s) == old(Others(s)) && AccountAt(s) == old(AccountAt(s)).(binding := None)
    {
      bindings := bindings - {s};
      assert bindings - {s} == old(bindings) - {s};
    }

    // ----- Concessions.

    /** The insert transaction: find the running row, refuse or supersede it, append the new version. */
    method InsertVersionTransaction(s: int, request: C.Request, startsAt: int) returns (r: Result<C.ConcessionRow>)
      requires ValidAt(s) && request.duration >= 1
      modifies this`concessions, this`nextId
      ensures ValidAt(s) && old(nextId) <= nextId && Others(s) == old(Others(s))
      ensures var done := C.InsertVersion(old(History(s)), s, request, startsAt, old(nextId));
              r == done.result && AccountAt(s) == old(AccountAt(s)).(concessions := done.history)
    {
      var existing := History(s);
      ghost var expected := C.InsertVersion(existing, s, request, startsAt, nextId);
      C.InsertKeepsChain(existing, s, request, startsAt, nextId);
      C.InsertKeepsIds(existing, s, request, startsAt, nextId);
      var current := C.LoadCurrentCommercialConcession(existing, startsAt);
      if current.Some? && request.source == C.AdminGrant {
        return if C.MatchesGrant(current.value, request.unit,
            request.duration) then Ok(current.value) else Err(Overlap);
      }
      if current.None? && request.source == C.AdminRevise {
        return Err(NotCurrent);
      }
      var id := NewCommercialId();
      var inserted := C.NewRow(existing, s, request, startsAt, id);
      var updated := existing;
      if current.Some? {
        C.SupersedeTouchesOneRow(existing, C.CurrentIndex(existing, startsAt), id);
        updated := C.SupersedeById(existing, current.value.id, id);
      }
      assert expected.history == updated + [inserted];
      CommitHistory(s, updated + [inserted]);
      return Ok(inserted);
    }

    method InsertConcessionVersion(s: int, input: GrantInput, source: C.Source, startsAt: int)
      returns (r: Result<C.ConcessionRow>)
      requires ValidAt(s)
      modifies this`concessions, this`nextId
      ensures ValidAt(s) && old(nextId) <= nextId && Others(s) == old(Others(s))
      ensures var checked := C.ValidateTerms(input.unit, input.duration, input.reason);
              if checked.Err? then r == Err(checked.error) && AccountAt(s) == old(AccountAt(s))
              else
                var done := C.InsertVersion(old(History(s)), s, RequestOf(input, checked.value, source), startsAt,
                    old(nextId));
                r == done.result && AccountAt(s) == old(AccountAt(s)).(concessions := done.history)
    {
      var checked := C.ValidateTerms(input.unit, input.duration, input.reason);
      if checked.Err? {
        return Err(checked.error);
      }
      EndIsAfterStart(startsAt, checked.value.unit, checked.value.duration);
      if ComputeConcessionEndsAt(startsAt, checked.value.unit, checked.value.duration) <= startsAt {
        return Err(InvalidDuration);
      }
      r := InsertVersionTransaction(s, RequestOf(input, checked.value, source), startsAt);
    }

    method AlignSubscriptionPeriodEnd(s: int, endsAt: int)
      requires ValidAt(s)
      modifies this`subscriptions
      ensures ValidAt(s)
      ensures Others(s) == old(Others(s))
      ensures AccountAt(s) == old(AccountAt(s)).(row := AlignPeriodEnd(old(AccountAt(s)).row, endsAt))
    {
      if s in subscriptions {
        var stored := subscriptions[s].currentPeriodEnd;
        if stored.Unreadable? {
          return;
        }
        var currentEnd := if stored.At? then stored.ms else 0;
        if endsAt > currentEnd {
          PutSubscription(s, subscriptions[s].(currentPeriodEnd := Stamped(endsAt)));
        }
      }
    }

    /** The writing half of a grant: insert, then align the period, either of which may throw. */
    method InsertGrant(s: int, input: GrantInput, terms: C.Terms, align: bool, now: int, faults: GrantFaults)
      returns (r: Result<C.ConcessionRow>)
      requires ValidAt(s) && C.ValidateTerms(input.unit, input.duration, input.reason) == Ok(terms)
      modifies this
      ensures ValidAt(s) && old(nextId) <= nextId && Others(s) == old(Others(s))
      ensures AccountAt(s).binding == old(AccountAt(s)).binding && Terms(s) == old(Terms(s))
      ensures KeepsButEnd(old(AccountAt(s)).row, AccountAt(s).row)
      ensures var done := C.InsertVersion(old(History(s)), s, RequestOf(input, terms, C.AdminGrant), now, old(nextId));
              r.Ok? || (faults.insert == Fine && faults.align == Fine) ==>
                && r == done.result
                && History(s) == done.history
                && AccountAt(s).row == if r.Ok? && align &&
                    !faults.alignSkips then AlignPeriodEnd(old(AccountAt(s)).row,
                    r.value.endsAt) else old(AccountAt(s)).row
    {
      if faults.insert == ThrowsBefore {
        return Err(PersistFailed);
      }
      r := InsertConcessionVersion(s, input, C.AdminGrant, now);
      if r.Ok? && faults.insert == ThrowsAfter {
        return Err(PersistFailed);
      }
      if r.Ok? && align && !faults.alignSkips {
        if faults.align == ThrowsBefore {
          return Err(PersistFailed);
        }
        AlignSubscriptionPeriodEnd(s, r.value.endsAt);
        if faults.align == ThrowsAfter {
          return Err(PersistFailed);
        }
      }
    }

    /** Whatever throws, a grant that returns a row returns the one that is current. */
    method GrantUnderFaults(s: int, input: GrantInput, align: bool, now: int, faults: GrantFaults)
      returns (r: Result<C.ConcessionRow>)
      requires ValidAt(s)
      modifies this
      ensures ValidAt(s) && old(nextId) <= nextId && Others(s) == old(Others(s))
      ensures AccountAt(s).binding == old(AccountAt(s)).binding && Terms(s) == old(Terms(s))
      ensures KeepsButEnd(old(AccountAt(s)).row, AccountAt(s).row)
      ensures faults == NO_GRANT_FAULTS ==>
                var done := Grant(old(AccountAt(s)), s, input, align, now, old(nextId));
                AccountAt(s) == done.account && r == done.result
      ensures r.Ok? ==> C.CurrentRow(History(s), now) == Some(r.value)
      ensures r.Ok? && align && old(History(s)) == [] ==>
                AccountAt(s).row ==
                if faults.alignSkips then old(AccountAt(s)).row else AlignPeriodEnd(old(AccountAt(s)).row,
                    r.value.endsAt)
      ensures r.Ok? && old(History(s)) == [] ==>
                && History(s) == [r.value]
                && C.ValidateTerms(input.unit, input.duration, input.reason).Ok?
                && C.IsNextRow(r.value, [], s,
                     RequestOf(input, C.ValidateTerms(input.unit, input.duration, input.reason).value, C.AdminGrant),
                     now, old(nextId))
    {
      var checked := C.ValidateTerms(input.unit, input.duration, input.reason);
      if checked.Err? {
        return Err(checked.error);
      }
      var current := C.LoadCurrentCommercialConcession(History(s), now);
      if !faults.readFails && current.Some? {
        return if C.MatchesGrant(current.value, checked.value.unit,
            checked.value.duration) then Ok(current.value) else Err(Overlap);
      }
      C.InsertedRowIsCurrent(History(s), s, RequestOf(input, checked.value, C.AdminGrant), now, nextId);
      r := InsertGrant(s, input, checked.value, align, now, faults);
    }

    method GrantCommercialConcession(s: int, input: GrantInput, align: bool,
        now: int) returns (r: Result<C.ConcessionRow>)
      requires ValidAt(s)
      modifies this
      ensures ValidAt(s) && old(nextId) <= nextId && Others(s) == old(Others(s))
      ensures var done := Grant(old(AccountAt(s)), s, input, align, now, old(nextId));
              AccountAt(s) == done.account && r == done.result
    {
      r := GrantUnderFaults(s, input, align, now, NO_GRANT_FAULTS);
    }

    /** The writing half of a revision: insert the new version, then align the period. */
    method InsertRevision(s: int, current: C.ConcessionRow, input: ReviseInput,
        now: int) returns (r: Result<C.ConcessionRow>)
      requires ValidAt(s) && C.ValidateTerms(input.unit, input.duration, input.reason).Ok?
      modifies this
      ensures ValidAt(s) && old(nextId) <= nextId && Others(s) == old(Others(s))
      ensures var terms := GrantInput(current.request.planId, current.request.billingCycleCode, input.unit,
          input.duration, input.reason, input.actorId);
              var checked := C.ValidateTerms(input.unit, input.duration, input.reason);
              var done := C.InsertVersion(old(History(s)), s, RequestOf(terms, checked.value, C.AdminRevise), now,
                  old(nextId));
              && r == done.result
              && AccountAt(s) == old(AccountAt(s)).(
                   concessions := done.history,
                   row := if r.Ok? then AlignPeriodEnd(old(AccountAt(s)).row,
                       r.value.endsAt) else old(AccountAt(s)).row)
    {
      var terms := GrantInput(current.request.planId, current.request.billingCycleCode, input.unit, input.duration,
          input.reason, input.actorId);
      r := InsertConcessionVersion(s, terms, C.AdminRevise, now);
      if r.Ok? {
        AlignSubscriptionPeriodEnd(s, r.value.endsAt);
      }
    }

    method ReviseCommercialConcession(s: int, input: ReviseInput, now: int) returns (r: Result<C.ConcessionRow>)
      requires ValidAt(s)
      modifies this
      ensures ValidAt(s) && old(nextId) <= nextId
      ensures Others(s) == old(Others(s))
      ensures var done := Revise(old(AccountAt(s)), s, input, now, old(nextId));
              AccountAt(s) == done.account && r == done.result
    {
      var checked := C.ValidateTerms(input.unit, input.duration, input.reason);
      if checked.Err? {
        return Err(checked.error);
      }
      var current := C.LoadCurrentCommercialConcession(History(s), now);
      if current.None? {
        return Err(NotCurrent);
      }
      if C.MatchesGrant(current.value, checked.value.unit, checked.value.duration) {
        return Ok(current.value);
      }
      if ComputeConcessionEndsAt(now, checked.value.unit, checked.value.duration) <= now {
        return Err(ShortenInPast);
      }
      r := InsertRevision(s, current.value, input, now);
    }

    method CancelCommercialConcession(s: int, reason: string, expirePeriodIfUnpaid: bool, now: int)
      returns (r: Result<Option<C.ConcessionRow>>)
      requires ValidAt(s)
      modifies this`concessions, this`subscriptions
      ensures ValidAt(s)
      ensures Others(s) == old(Others(s))
      ensures var done := Cancel(old(AccountAt(s)), reason, expirePeriodIfUnpaid, now);
              AccountAt(s) == done.account && r == done.result
    {
      var trimmed := C.NormalizeReason(reason);
      if trimmed.Err? {
        return Err(trimmed.error);
      }
      var history := History(s);
      var current := C.LoadCurrentCommercialConcession(history, now);
      if current.None? {
        return Ok(if history == [] then None else Some(history[|history| - 1]));
      }
      CancelRowById(s, current.value.id, now);
      if expirePeriodIfUnpaid {
        ExpirePeriod(s, now);
      }
      return Ok(Some(ReportCancelled(current.value, trimmed.value, now)));
    }

    method CancelRowById(s: int, id: nat, now: int)
      requires ValidAt(s)
      modifies this`concessions
      ensures ValidAt(s) && Others(s) == old(Others(s))
      ensures AccountAt(s) == old(AccountAt(s)).(concessions := C.CancelById(old(History(s)), id, now))
    {
      C.CancelKeepsChain(History(s), s, id, now);
      CommitHistory(s, C.CancelById(History(s), id, now));
    }

    method ExpirePeriod(s: int, now: int)
      requires ValidAt(s)
      modifies this`subscriptions
      ensures ValidAt(s) && Others(s) == old(Others(s))
      ensures AccountAt(s) == old(AccountAt(s)).(
                row := if old(AccountAt(s)).row.None? then None
                       else Some(old(AccountAt(s)).row.value.(currentPeriodEnd := Stamped(now))))
    {
      if s in subscriptions {
        PutSubscription(s, subscriptions[s].(currentPeriodEnd := Stamped(now)));
      }
    }

    method UpdateSubscriptionById(s: int, update: UpdateData)
      requires ValidAt(s)
      modifies this`subscriptions
      ensures ValidAt(s)
      ensures Others(s) == old(Others(s))
      ensures AccountAt(s) == old(AccountAt(s)).(row := WriteIfPresent(old(AccountAt(s)).row, update))
    {
      if s in subscriptions {
        PutSubscription(s, Write(subscriptions[s], update));
      }
    }

    method UpdateEnrollmentPlanIdOnly(s: int, planId: string)
      requires ValidAt(s)
      modifies this`bindings
      ensures ValidAt(s)
      ensures Others(s) == old(Others(s))
      ensures AccountAt(s) == old(AccountAt(s)).(binding := SetBindingPlan(old(AccountAt(s)).binding, planId))
    {
      if s in bindings {
        PutBinding(s, bindings[s].(planId := planId));
      }
    }

    /** The ledger half of the reactivation transaction: refuse to overlap, append the new version. */
    method AppendReactivation(s: int, request: C.Request, startsAt: int) returns (r: Result<C.ConcessionRow>)
      requires ValidAt(s) && request.duration >= 1
      modifies this`concessions, this`nextId
      ensures ValidAt(s) && old(nextId) <= nextId && Others(s) == old(Others(s))
      ensures var done := C.InsertReactivation(old(History(s)), s, request, startsAt, old(nextId));
              r == done.result && AccountAt(s) == old(AccountAt(s)).(concessions := done.history)
    {
      var existing := History(s);
      C.ReactivationKeepsChain(existing, s, request, startsAt, nextId);
      C.InsertKeepsIds(existing, s, request, startsAt, nextId);
      var current := C.LoadCurrentCommercialConcession(existing, startsAt);
      if current.Some? {
        return Err(Overlap);
      }
      var id := NewCommercialId();
      var inserted := C.NewRow(existing, s, request, startsAt, id);
      CommitHistory(s, existing + [inserted]);
      return Ok(inserted);
    }

    method ApplyAdminFreeReactivation(s: int, input: GrantInput, update: UpdateData, startsAt: int)
      returns (r: Result<C.ConcessionRow>)
      requires ValidAt(s)
      modifies this
      ensures ValidAt(s) && old(nextId) <= nextId
      ensures Others(s) == old(Others(s))
      ensures var done := FreeReactivation(old(AccountAt(s)), s, input, update, startsAt, old(nextId));
              AccountAt(s) == done.account && r == done.result
    {
      var checked := C.ValidateTerms(input.unit, input.duration, input.reason);
      if checked.Err? {
        return Err(checked.error);
      }
      if ComputeConcessionEndsAt(startsAt, checked.value.unit, checked.value.duration) <= startsAt {
        return Err(InvalidDuration);
      }
      r := AppendReactivation(s, RequestOf(input, checked.value, C.AdminReactivate), startsAt);
      if r.Ok? {
        UpdateSubscriptionById(s, update.(currentPeriodEnd := Some(r.value.endsAt)));
        UpdateEnrollmentPlanIdOnly(s, input.planId);
      }
    }

    // ----- Charged terms.

    /** The unique (subscription, version) key of the snapshot table. */
    predicate VersionTaken(s: int, version: int)
      reads this
    {
      exists i :: 0 <= i < |Terms(s)| && Terms(s)[i].version == version
    }

    /** One more snapshot, whatever the current one says. */
    method AppendNextSnapshot(s: int, terms: T.Offer, source: T.Source, now: int,
        actorId: Option<int>) returns (row: T.SnapshotRow)
      requires ValidAt(s) && T.EffectiveBy(Terms(s), now)
      modifies this`terms, this`nextId
      ensures ValidBy(s, now) && old(nextId) <= nextId && Others(s) == old(Others(s))
      ensures row == T.NewSnapshot(T.CurrentSnapshot(old(Terms(s))), s, terms, now, old(nextId), source, actorId)
      ensures AccountAt(s) == old(AccountAt(s)).(terms := old(Terms(s)) + [row])
    {
      var id := NewCommercialId();
      row := T.NewSnapshot(T.CurrentSnapshot(Terms(s)), s, terms, now, id, source, actorId);
      T.AppendKeepsChain(Terms(s), s, terms, now, id, source, actorId);
      AppendSnapshot(s, row);
    }

    /** A version that is free is the one after the newest row. */
    lemma FreeVersionIsNext(s: int, current: Option<T.SnapshotRow>)
      requires ValidAt(s) && !VersionTaken(s, T.NextVersion(current))
      requires current.None? || current == T.CurrentSnapshot(Terms(s))
      ensures current == T.CurrentSnapshot(Terms(s))
    {
      assert Terms(s) != [] ==> Terms(s)[0].version == 1;
    }

    /** The insert under the unique version key, with the re-read that follows a duplicate-key refusal. */
    method InsertSnapshotRow(s: int, current: Option<T.SnapshotRow>, offer: T.Offer, source: T.Source, now: int,
                             actorId: Option<int>, faults: SnapshotFaults)
      returns (r: Result<T.SnapshotRow>)
      requires ValidAt(s) && T.EffectiveBy(Terms(s), now)
      requires current.None? || current == T.CurrentSnapshot(Terms(s))
      modifies this`terms, this`nextId
      ensures ValidAt(s) && old(nextId) <= nextId && Others(s) == old(Others(s))
      ensures T.EffectiveBy(Terms(s), now)
      ensures AccountAt(s) == old(AccountAt(s)).(terms := Terms(s))
      ensures var row := T.NewSnapshot(current, s, T.TrimmedOffer(offer), now, old(nextId), source, actorId);
              && (Terms(s) == old(Terms(s)) || (current == T.CurrentSnapshot(old(Terms(s))) &&
                  Terms(s) == old(Terms(s)) + [row]))
              && (faults == NO_SNAPSHOT_FAULTS && current == T.CurrentSnapshot(old(Terms(s))) ==>
                    Terms(s) == old(Terms(s)) + [row] && r == Ok(row))
      ensures r.Ok? ==>
                && T.CurrentSnapshot(Terms(s)) == Some(r.value)
                && (T.SnapshotMatchesOffer(r.value, offer) || r.value.terms == T.TrimmedOffer(offer))
    {
      var stored := Terms(s);
      T.CurrentIsLastInserted(stored, s);
      if faults.insert == ThrowsBefore {
        return Err(PersistFailed);
      }
      if VersionTaken(s, T.NextVersion(current)) {
        var raced := if faults.retryFails then None else T.CurrentSnapshot(stored);
        return if raced.Some? && T.SnapshotMatchesOffer(raced.value,
            offer) then Ok(raced.value) else Err(SnapshotConflict);
      }
      FreeVersionIsNext(s, current);
      var row := AppendNextSnapshot(s, T.TrimmedOffer(offer), source, now, actorId);
      T.CurrentIsLastInserted(Terms(s), s);
      return if faults.insert == ThrowsAfter then Err(PersistFailed) else Ok(row);
    }

    /** Whatever throws, a row that is returned is the current one and answers the offer. */
    method InsertImmutableChargedTermsSnapshot(s: int, offer: T.Offer, source: T.Source, now: int,
                                               actorId: Option<int>, faults: SnapshotFaults)
      returns (r: Result<T.SnapshotRow>)
      requires ValidAt(s) && T.EffectiveBy(Terms(s), now)
      modifies this`terms, this`nextId
      ensures ValidAt(s) && old(nextId) <= nextId && Others(s) == old(Others(s))
      ensures T.EffectiveBy(Terms(s), now) && old(Terms(s)) <= Terms(s)
      ensures AccountAt(s) == old(AccountAt(s)).(terms := Terms(s))
      ensures faults == NO_SNAPSHOT_FAULTS ==>
                var done := InsertSnapshot(old(AccountAt(s)), s, offer, source, now, old(nextId), actorId);
                AccountAt(s) == done.account && r == done.result
      ensures r.Ok? && T.IsTrimmed(offer) && source != T.WebhookBind ==>
                T.CurrentSnapshot(Terms(s)) == Some(r.value) && T.SnapshotMatchesOffer(r.value, offer)
    {
      if !T.IsComplete(offer) {
        return Err(SnapshotIncomplete);
      }
      var current := if faults.readFails then None else T.CurrentSnapshot(Terms(s));
      if current.Some? && (T.SnapshotMatchesOffer(current.value, offer) || source == T.WebhookBind) {
        return Ok(current.value);
      }
      r := InsertSnapshotRow(s, current, offer, source, now, actorId, faults);
    }

    /** Touch the binding's plan, or create the binding from the offer. */
    method BindPlanOrInsert(s: int, offer: T.Offer)
      requires ValidAt(s)
      modifies this`bindings
      ensures ValidAt(s)
      ensures Others(s) == old(Others(s))
      ensures AccountAt(s) == old(AccountAt(s)).(binding := BindPlan(old(AccountAt(s)).binding, offer))
    {
      if s in bindings {
        PutBinding(s, bindings[s].(planId := offer.planId));
      } else {
        PutBinding(s, BindingOf(offer));
      }
    }

    method ApplyAdminCommercialIdentityChange(s: int, offer: T.Offer, update: UpdateData, now: int,
        actorId: Option<int>)
      returns (snapshot: T.SnapshotRow)
      requires ValidAt(s) && T.EffectiveBy(Terms(s), now)
      modifies this
      ensures ValidBy(s, now) && old(nextId) <= nextId
      ensures Others(s) == old(Others(s))
      ensures var done := IdentityChange(old(AccountAt(s)), s, offer, update, now, old(nextId), actorId);
              AccountAt(s) == done.account && Ok(snapshot) == done.result
    {
      var stored := Terms(s);
      var existing := T.CurrentSnapshot(stored);
      if existing.Some? && T.SnapshotMatchesOffer(existing.value, offer) {
        snapshot := existing.value;
      } else {
        snapshot := AppendNextSnapshot(s, offer, T.AdminUpdate, now, actorId);
      }
      UpdateSubscriptionById(s, update);
      BindPlanOrInsert(s, offer);
    }

    /** The ledger half of a paid reactivation: refuse an incomplete offer, append its terms. */
    method AppendPaidTerms(s: int, offer: T.Offer, now: int, actorId: Option<int>) returns (r: Result<T.SnapshotRow>)
      requires ValidAt(s) && T.EffectiveBy(Terms(s), now)
      modifies this`terms, this`nextId
      ensures ValidBy(s, now) && old(nextId) <= nextId && Others(s) == old(Others(s))
      ensures var done := T.InsertReactivation(old(Terms(s)), s, offer, now, old(nextId), actorId);
              r == done.result && AccountAt(s) == old(AccountAt(s)).(terms := done.history)
    {
      if !T.IsComplete(offer) {
        return Err(SnapshotIncomplete);
      }
      var inserted := AppendNextSnapshot(s, T.TrimmedOffer(offer), T.AdminReactivate, now, actorId);
      return Ok(inserted);
    }

    method ApplyAdminPaidReactivation(s: int, offer: T.Offer, update: UpdateData, now: int, actorId: Option<int>)
      returns (r: Result<T.SnapshotRow>)
      requires ValidAt(s) && T.EffectiveBy(Terms(s), now)
      modifies this
      ensures ValidBy(s, now) && old(nextId) <= nextId
      ensures Others(s) == old(Others(s))
      ensures var done := PaidReactivation(old(AccountAt(s)), s, offer, update, now, old(nextId), actorId);
              AccountAt(s) == done.account && r == done.result
    {
      r := AppendPaidTerms(s, offer, now, actorId);
      if r.Ok? {
        UpdateSubscriptionById(s, update);
        BindPlanOrInsert(s, offer);
      }
    }
  }
}
