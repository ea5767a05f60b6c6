/**
 * The charged-terms ledger of one subscription: insert-only snapshots of an accepted offer, kept
 * in insertion order. The current snapshot is the one with the latest effectiveFrom, then version.
 */
module ChargedTerms {
  import opened Common
  import opened FirstRows

  datatype Source = AdminCreate | AdminUpdate | AdminReactivate | WebhookBind

  datatype Offer = Offer(
    planId: string,
    chargedAmount: string,
    chargedCurrency: string,
    billingCycleId: string,
    billingCycleCode: string)

  datatype SnapshotRow = SnapshotRow(
    id: nat,
    subscriptionId: int,
    terms: Offer,
    effectiveFrom: int,
    version: int,
    source: Source,
    actorId: Option<int>)

  predicate SameTerms(a: Offer, b: Offer) {
    && a.planId == b.planId
    && a.chargedAmount == b.chargedAmount
    && a.chargedCurrency == b.chargedCurrency
    && a.billingCycleCode == b.billingCycleCode
  }

  predicate SnapshotMatchesOffer(row: SnapshotRow, offer: Offer) {
    SameTerms(row.terms, offer)
  }

  function TrimmedOffer(offer: Offer): Offer {
    offer.(chargedAmount := Trim(offer.chargedAmount), chargedCurrency := Trim(offer.chargedCurrency))
  }

  predicate IsComplete(offer: Offer) {
    && Trim(offer.chargedAmount) != "" && Trim(offer.chargedCurrency) != ""
    && offer.billingCycleCode != "" && offer.planId != ""
  }

  predicate IsTrimmed(offer: Offer) {
    TrimmedOffer(offer) == offer
  }

  /** The order of the ORDER BY: later effectiveFrom first, then larger version. */
  predicate IsNewer(a: SnapshotRow, b: SnapshotRow) {
    a.effectiveFrom > b.effectiveFrom || (a.effectiveFrom == b.effectiveFrom && a.version >= b.version)
  }

  /** ORDER BY effectiveFrom DESC, version DESC LIMIT 1. */
  function CurrentSnapshot(h: seq<SnapshotRow>): (r: Option<SnapshotRow>)
    ensures r.None? <==> h == []
    ensures r.Some? ==> r.value in h && forall i :: 0 <= i < |h| ==> IsNewer(r.value, h[i])
  {
    if h == [] then None
    else
      match CurrentSnapshot(h[1..])
      case None => Some(h[0])
      case Some(best) => if IsNewer(best, h[0]) then Some(best) else Some(h[0])
  }

  function NextVersion(current: Option<SnapshotRow>): int {
    if current.Some? then current.value.version + 1 else 1
  }

  function NewSnapshot(current: Option<SnapshotRow>, subscriptionId: int, terms: Offer, now: int, id: nat,
                       source: Source, actorId: Option<int>): SnapshotRow {
    SnapshotRow(id, subscriptionId, terms, now, NextVersion(current), source, actorId)
  }

  datatype Insertion = Insertion(history: seq<SnapshotRow>, result: Result<SnapshotRow>)

  /** Idempotent insert: a matching current row, or any current row for a webhook, is returned as it is. */
  function InsertSnapshot(h: seq<SnapshotRow>, subscriptionId: int, offer: Offer, source: Source,
                          now: int, id: nat, actorId: Option<int>): Insertion {
    var current := CurrentSnapshot(h);
    if !IsComplete(offer) then Insertion(h, Err(SnapshotIncomplete))
    else if current.Some? && (SnapshotMatchesOffer(current.value, offer) || source == WebhookBind) then
      Insertion(h, Ok(current.value))
    else
      var row := NewSnapshot(current, subscriptionId, TrimmedOffer(offer), now, id, source, actorId);
      Insertion(h + [row], Ok(row))
  }

  /** The snapshot half of an admin plan or cycle change: reuse a matching current row, else append. */
  function InsertIdentityChange(h: seq<SnapshotRow>, subscriptionId: int, offer: Offer,
                                now: int, id: nat, actorId: Option<int>): (seq<SnapshotRow>, SnapshotRow) {
    var current := CurrentSnapshot(h);
    if current.Some? && SnapshotMatchesOffer(current.value, offer) then (h, current.value)
    else
      var row := NewSnapshot(current, subscriptionId, offer, now, id, AdminUpdate, actorId);
      (h + [row], row)
  }

  /** The snapshot half of a paid reactivation: always a new row, even for unchanged terms. */
  function InsertReactivation(h: seq<SnapshotRow>, subscriptionId: int, offer: Offer,
                              now: int, id: nat, actorId: Option<int>): Insertion {
    if !IsComplete(offer) then Insertion(h, Err(SnapshotIncomplete))
    else
      var row := NewSnapshot(CurrentSnapshot(h), subscriptionId, TrimmedOffer(offer), now, id, AdminReactivate,
          actorId);
      Insertion(h + [row], Ok(row))
  }

  // ----- What is true of every reachable ledger.

  /** Versions are exactly 1..n and effectiveFrom is ordered the same way. */
  ghost predicate Chain(h: seq<SnapshotRow>, subscriptionId: int) {
    && (forall i :: 0 <= i < |h| ==> h[i].version == i + 1 && h[i].subscriptionId == subscriptionId)
    && (forall i, j :: 0 <= i < j < |h| ==> h[i].effectiveFrom <= h[j].effectiveFrom)
  }

  ghost predicate EffectiveBy(h: seq<SnapshotRow>, clock: int) {
    forall i :: 0 <= i < |h| ==> h[i].effectiveFrom <= clock
  }

  /** Neighbouring snapshots differ in terms unless the later one is a reactivation. */
  ghost predicate NeighboursDiffer(h: seq<SnapshotRow>) {
    forall i :: 0 <= i < |h| - 1 ==> h[i + 1].source == AdminReactivate || !SameTerms(h[i].terms, h[i + 1].terms)
  }

  /** "Latest effectiveFrom, then version" is the row inserted last. */
  lemma CurrentIsLastInserted(h: seq<SnapshotRow>, subscriptionId: int)
    requires Chain(h, subscriptionId)
    ensures CurrentSnapshot(h) == if h == [] then None else Some(h[|h| - 1])
  {
    if h != [] {
      var current := CurrentSnapshot(h).value;
      var k :| 0 <= k < |h| && h[k] == current;
      assert IsNewer(current, h[|h| - 1]);
    }
  }

  /** An append stamped no earlier than the stored rows keeps the ledger a chain. */
  lemma AppendKeepsChain(h: seq<SnapshotRow>, subscriptionId: int, terms: Offer, now: int, id: nat,
                         source: Source, actorId: Option<int>)
    requires Chain(h, subscriptionId) && EffectiveBy(h, now)
    ensures var later := h + [NewSnapshot(CurrentSnapshot(h), subscriptionId, terms, now, id, source, actorId)];
            Chain(later, subscriptionId) && EffectiveBy(later, now) && h <= later
  {
    CurrentIsLastInserted(h, subscriptionId);
  }

  lemma AppendKeepsDiffering(h: seq<SnapshotRow>, row: SnapshotRow)
    requires NeighboursDiffer(h)
    requires h != [] ==> row.source == AdminReactivate || !SameTerms(h[|h| - 1].terms, row.terms)
    ensures NeighboursDiffer(h + [row])
  {
  }

  /** Inserting keeps the ledger, and a webhook never adds a second snapshot. */
  lemma InsertSnapshotKeepsLedger(h: seq<SnapshotRow>, subscriptionId: int, offer: Offer, source: Source,
                                  now: int, id: nat, actorId: Option<int>)
    requires Chain(h, subscriptionId) && EffectiveBy(h, now)
    ensures var later := InsertSnapshot(h, subscriptionId, offer, source, now, id, actorId).history;
            && Chain(later, subscriptionId) && EffectiveBy(later, now) && h <= later
            && (source == WebhookBind && h != [] ==> later == h)
            && (IsTrimmed(offer) && NeighboursDiffer(h) ==> NeighboursDiffer(later))
  {
    CurrentIsLastInserted(h, subscriptionId);
    AppendKeepsChain(h, subscriptionId, TrimmedOffer(offer), now, id, source, actorId);
    var row := NewSnapshot(CurrentSnapshot(h), subscriptionId, TrimmedOffer(offer), now, id, source, actorId);
    if IsTrimmed(offer) && NeighboursDiffer(h) && InsertSnapshot(h, subscriptionId, offer, source, now, id,
        actorId).history != h {
      AppendKeepsDiffering(h, row);
    }
  }

  /** A row that is returned is the current one afterwards, and carries the offered terms. */
  lemma InsertSnapshotAnswersOffer(h: seq<SnapshotRow>, subscriptionId: int, offer: Offer, source: Source,
                                   now: int, id: nat, actorId: Option<int>)
    requires Chain(h, subscriptionId) && EffectiveBy(h, now)
    ensures var done := InsertSnapshot(h, subscriptionId, offer, source, now, id, actorId);
            done.result.Ok? ==>
              && CurrentSnapshot(done.history) == Some(done.result.value)
              && (IsTrimmed(offer) && source != WebhookBind ==> SnapshotMatchesOffer(done.result.value, offer))
  {
    AppendKeepsChain(h, subscriptionId, TrimmedOffer(offer), now, id, source, actorId);
    var row := NewSnapshot(CurrentSnapshot(h), subscriptionId, TrimmedOffer(offer), now, id, source, actorId);
    CurrentIsLastInserted(h + [row], subscriptionId);
  }

  // ----- What an insertion answers and stores.

  /** The same plan, amount, currency and cycle; the catalog's id of the cycle is not compared. */
  ghost predicate Says(terms: Offer, offer: Offer) {
    terms.(billingCycleId := offer.billingCycleId) == offer
  }

  /** The row an insertion appends when it appends one. */
  ghost predicate IsNextSnapshot(row: SnapshotRow, h: seq<SnapshotRow>, subscriptionId: int, terms: Offer, now: int,
      id: nat, source: Source, actorId: Option<int>)
  {
    && row.id == id && row.subscriptionId == subscriptionId && row.terms == terms && row.effectiveFrom == now
    && row.version == |h| + 1 && row.source == source && row.actorId == actorId
  }

  /** Nothing is missing from the offer. */
  ghost predicate HasAllTerms(offer: Offer) {
    && offer.planId != "" && offer.billingCycleCode != ""
    && Trim(offer.chargedAmount) != "" && Trim(offer.chargedCurrency) != ""
  }

  /**
   * An incomplete offer is refused; the row inserted last is returned if it says the offer, or to any
   * webhook; else the offer is appended, with the blanks around amount and currency removed.
   */
  lemma InsertSnapshotStores(h: seq<SnapshotRow>, subscriptionId: int, offer: Offer, source: Source,
                             now: int, id: nat, actorId: Option<int>)
    requires Chain(h, subscriptionId)
    ensures var done := InsertSnapshot(h, subscriptionId, offer, source, now, id, actorId);
            if !HasAllTerms(offer) then done == Insertion(h, Err(SnapshotIncomplete))
            else if h != [] && (Says(h[|h| - 1].terms, offer) || source == WebhookBind) then
              done == Insertion(h, Ok(h[|h| - 1]))
            else
              && done.result.Ok? && done.history == h + [done.result.value]
              && IsNextSnapshot(done.result.value, h, subscriptionId,
                   Offer(offer.planId, Trim(offer.chargedAmount), Trim(offer.chargedCurrency), offer.billingCycleId,
                         offer.billingCycleCode), now, id, source, actorId)
  {
    CurrentIsLastInserted(h, subscriptionId);
  }

  /** A plan or cycle change appends the offer exactly when the current row does not say it; then it is current. */
  lemma IdentityChangeKeepsLedger(h: seq<SnapshotRow>, subscriptionId: int, offer: Offer,
                                  now: int, id: nat, actorId: Option<int>)
    requires Chain(h, subscriptionId) && EffectiveBy(h, now)
    ensures var (later, row) := InsertIdentityChange(h, subscriptionId, offer, now, id, actorId);
            && Chain(later, subscriptionId) && EffectiveBy(later, now) && h <= later
            && (NeighboursDiffer(h) ==> NeighboursDiffer(later))
            && CurrentSnapshot(later) == Some(row) && Says(row.terms, offer)
            && (if h != [] && Says(h[|h| - 1].terms, offer) then later == h && row == h[|h| - 1]
                else
                  later == h + [row] && IsNextSnapshot(row, h, subscriptionId, offer, now, id, AdminUpdate, actorId))
  {
    CurrentIsLastInserted(h, subscriptionId);
    AppendKeepsChain(h, subscriptionId, offer, now, id, AdminUpdate, actorId);
    CurrentIsLastInserted(
      h + [NewSnapshot(CurrentSnapshot(h), subscriptionId, offer, now, id, AdminUpdate, actorId)], subscriptionId);
  }

  /** A complete offer is appended as a reactivation, trimmed, whatever the current row says; then it is current. */
  lemma ReactivationKeepsLedger(h: seq<SnapshotRow>, subscriptionId: int, offer: Offer,
                                now: int, id: nat, actorId: Option<int>)
    requires Chain(h, subscriptionId) && EffectiveBy(h, now)
    ensures var done := InsertReactivation(h, subscriptionId, offer, now, id, actorId);
            && Chain(done.history, subscriptionId) && EffectiveBy(done.history, now) && h <= done.history
            && (NeighboursDiffer(h) ==> NeighboursDiffer(done.history))
            && (!HasAllTerms(offer) ==> done == Insertion(h, Err(SnapshotIncomplete)))
            && (HasAllTerms(offer) ==>
                  && done.result.Ok? && done.history == h + [done.result.value]
                  && CurrentSnapshot(done.history) == Some(done.result.value)
                  && IsNextSnapshot(done.result.value, h, subscriptionId,
                       Offer(offer.planId, Trim(offer.chargedAmount), Trim(offer.chargedCurrency),
                             offer.billingCycleId, offer.billingCycleCode), now, id, AdminReactivate, actorId)
                  && (IsTrimmed(offer) ==> Says(done.result.value.terms, offer)))
  {
    CurrentIsLastInserted(h, subscriptionId);
    AppendKeepsChain(h, subscriptionId, TrimmedOffer(offer), now, id, AdminReactivate, actorId);
    CurrentIsLastInserted(
      h + [NewSnapshot(CurrentSnapshot(h), subscriptionId, TrimmedOffer(offer), now, id, AdminReactivate, actorId)],
          subscriptionId);
  }

  /** An offer that would be stored under the terms the current row already carries. */
  predicate IsPaddedRepeat(h: seq<SnapshotRow>, offer: Offer) {
    && h != [] && IsComplete(offer) && !SnapshotMatchesOffer(CurrentSnapshot(h).value, offer)
    && SameTerms(CurrentSnapshot(h).value.terms, TrimmedOffer(offer))
  }

  /**
   * The trimmed form is what is stored but the untrimmed form is what is compared. So an admin
   * insert keeps neighbours different exactly when it does not repeat the current terms with blanks
   * around the amount or the currency; such a repeat appends equal terms every time.
   */
  lemma NeighboursDifferExactlyWhen(h: seq<SnapshotRow>, subscriptionId: int, offer: Offer, source: Source, now: int,
      id: nat)
    requires Chain(h, subscriptionId) && EffectiveBy(h, now) && NeighboursDiffer(h)
    requires source != WebhookBind && source != AdminReactivate
    ensures var later := InsertSnapshot(h, subscriptionId, offer, source, now, id, None).history;
            && (NeighboursDiffer(later) <==> !IsPaddedRepeat(h, offer))
            && (IsPaddedRepeat(h, offer) ==> !IsTrimmed(offer) && |later| == |h| + 1 && IsPaddedRepeat(later, offer))
  {
    CurrentIsLastInserted(h, subscriptionId);
    var later := InsertSnapshot(h, subscriptionId, offer, source, now, id, None).history;
    if later != h {
      AppendKeepsChain(h, subscriptionId, TrimmedOffer(offer), now, id, source, None);
      CurrentIsLastInserted(later, subscriptionId);
      var row := NewSnapshot(CurrentSnapshot(h), subscriptionId, TrimmedOffer(offer), now, id, source, None);
      assert later == h + [row];
      if IsPaddedRepeat(h, offer) {
        assert SameTerms(later[|h| - 1].terms, later[|h| - 1 + 1].terms);
      } else {
        AppendKeepsDiffering(h, row);
      }
    }
  }

  /** Such an offer exists: one blank in front of the amount is enough. */
  lemma PaddedOfferIsNeverRecognised(subscriptionId: int, now: int)
    ensures var plain := Offer("basic", "9.90", "RUB", "1", "monthly");
            var padded := plain.(chargedAmount := " 9.90");
            var h := [SnapshotRow(0, subscriptionId, plain, now, 1, AdminCreate, None)];
            Chain(h, subscriptionId) && NeighboursDiffer(h) && IsPaddedRepeat(h, padded)
  {
    assert TrimStart(" 9.90") == TrimStart("9.90") == "9.90";
    assert TrimEnd("9.90") == "9.90";
    assert TrimStart("RUB") == "RUB" && TrimEnd("RUB") == "RUB";
  }

  // ----- The batch reader.

  /** What the database may answer to the batch query: every row of the asked subscriptions, newest first. */
  ghost predicate IsBatchAnswer(rows: seq<SnapshotRow>, ledger: map<int, seq<SnapshotRow>>, ids: set<int>) {
    && (forall i, j :: 0 <= i < j < |rows| ==> IsNewer(rows[i], rows[j]))
    && (forall i :: 0 <= i < |rows| ==>
          rows[i].subscriptionId in ids && rows[i].subscriptionId in ledger &&
              rows[i] in ledger[rows[i].subscriptionId])
    && (forall s, i :: s in ids && s in ledger && 0 <= i < |ledger[s]| ==> ledger[s][i] in rows)
  }

  ghost predicate AllChains(ledger: map<int, seq<SnapshotRow>>) {
    forall s :: s in ledger ==> Chain(ledger[s], s)
  }

  lemma FirstUnseenIsCurrent(rows: seq<SnapshotRow>, ledger: map<int, seq<SnapshotRow>>, ids: set<int>, i: int)
    requires AllChains(ledger) && IsBatchAnswer(rows, ledger, ids) && 0 <= i < |rows|
    requires forall j :: 0 <= j < i ==> rows[j].subscriptionId != rows[i].subscriptionId
    ensures CurrentSnapshot(ledger[rows[i].subscriptionId]) == Some(rows[i])
  {
    var s := rows[i].subscriptionId;
    var h := ledger[s];
    assert Chain(h, s);
    var current := CurrentSnapshot(h).value;
    var k :| 0 <= k < |h| && h[k] == rows[i];
    var c :| 0 <= c < |h| && h[c] == current;
    assert h[c] in rows;
    var j :| 0 <= j < |rows| && rows[j] == current;
    assert j == i || IsNewer(rows[i], rows[j]);
    assert IsNewer(current, h[k]);
  }

  predicate IsCurrentOf(row: SnapshotRow, ledger: map<int, seq<SnapshotRow>>, ids: set<int>) {
    && row.subscriptionId in ids && row.subscriptionId in ledger
    && CurrentSnapshot(ledger[row.subscriptionId]) == Some(row)
  }

  function OwnerOf(row: SnapshotRow): int { row.subscriptionId }

  lemma FirstOfIsCurrent(rows: seq<SnapshotRow>, ledger: map<int, seq<SnapshotRow>>, ids: set<int>, row: SnapshotRow)
    requires AllChains(ledger) && IsBatchAnswer(rows, ledger, ids)
    ensures FirstOf(rows, OwnerOf, row.subscriptionId) == Some(row) <==> IsCurrentOf(row, ledger, ids)
  {
    var s := row.subscriptionId;
    if IsCurrentOf(row, ledger, ids) {
      assert Chain(ledger[s], s) && ledger[s][0] in rows;
      assert OwnerOf(ledger[s][0]) == s;
    }
    var i := FirstOfIsEarliest(rows, OwnerOf, s);
    if i < |rows| {
      assert OwnerOf(rows[i]) == s;
      FirstUnseenIsCurrent(rows, ledger, ids, i);
    }
  }

  /** One pass with a `seen` set keeps the first row met of each subscription. */
  method KeepFirstRows(rows: seq<SnapshotRow>) returns (current: seq<SnapshotRow>)
    ensures forall i, j :: 0 <= i < j < |current| ==> current[i].subscriptionId != current[j].subscriptionId
    ensures forall row :: row in current <==> FirstOf(rows, OwnerOf, row.subscriptionId) == Some(row)
  {
    current := [];
    var seen: set<int> := {};
    for i := 0 to |rows|
      invariant forall s :: s in seen <==> FirstOf(rows[..i], OwnerOf, s).Some?
      invariant forall row :: row in current <==> FirstOf(rows[..i], OwnerOf, row.subscriptionId) == Some(row)
      invariant forall j :: 0 <= j < |current| ==> current[j] in current && current[j].subscriptionId in seen
      invariant forall j, k :: 0 <= j < k < |current| ==> current[j].subscriptionId != current[k].subscriptionId
    {
      assert rows[..i + 1][..i] == rows[..i];
      if OwnerOf(rows[i]) !in seen {
        seen := seen + {rows[i].subscriptionId};
        current := current + [rows[i]];
      }
    }
    assert rows[..|rows|] == rows;
  }

  /** The batch reader returns, for each subscription, the single reader's row once. */
  method LoadCurrentChargedTermsForSubscriptions(
      ghost ledger: map<int, seq<SnapshotRow>>, ids: set<int>, rows: seq<SnapshotRow>)
    returns (current: seq<SnapshotRow>)
    requires AllChains(ledger) && IsBatchAnswer(rows, ledger, ids)
    ensures forall i, j :: 0 <= i < j < |current| ==> current[i].subscriptionId != current[j].subscriptionId
    ensures forall row :: row in current <==> IsCurrentOf(row, ledger, ids)
  {
    current := KeepFirstRows(rows);
    forall row: SnapshotRow ensures row in current <==> IsCurrentOf(row, ledger, ids) {
      FirstOfIsCurrent(rows, ledger, ids, row);
    }
  }
}
