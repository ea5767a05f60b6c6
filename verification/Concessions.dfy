/**
 * The concession ledger of one subscription: an insert-only sequence of versions, kept in
 * insertion order. "Current" means status active and not yet ended; nothing in the ledger ever
 * writes the status expired, so rows that have lapsed stay active.
 */
module Concessions {
  import opened Common
  import opened FirstRows
  import opened Calendar

  datatype ConcessionStatus = Active | Superseded | Expired | Cancelled

  datatype Source = AdminGrant | AdminRevise | AdminCancel | AdminReactivate

  datatype ConcessionRow = ConcessionRow(
    id: nat,
    subscriptionId: int,
    request: Request,
    startsAt: int,
    endsAt: int,
    status: ConcessionStatus,
    version: int,
    supersededBy: Option<nat>,
    cancelledAt: Option<int>)

  /** What an operation asks a new version to say; a stored row keeps it for good. */
  datatype Request = Request(
    planId: string,
    billingCycleCode: string,
    unit: Unit,
    duration: int,
    reason: string,
    source: Source,
    actorId: Option<int>)

  const MAX_REASON := 512

  function NormalizeReason(reason: string): Result<string> {
    var trimmed := Trim(reason);
    if trimmed == "" || |trimmed| > MAX_REASON then Err(InvalidReason) else Ok(trimmed)
  }

  function ParseUnit(unit: string): Result<Unit> {
    if unit == "day" then Ok(Day) else if unit == "month" then Ok(Month) else Err(InvalidUnit)
  }

  datatype Terms = Terms(unit: Unit, duration: int, reason: string)

  /** The checks every command makes, in the order it makes them. */
  function ValidateTerms(unit: string, duration: int, reason: string): (r: Result<Terms>)
    ensures r.Ok? ==> r.value.duration == duration >= 1
  {
    match ParseUnit(unit)
    case Err(e) => Err(e)
    case Ok(u) =>
      match ValidateConcessionDuration(u, duration)
      case Err(e) => Err(e)
      case Ok(_) =>
        match NormalizeReason(reason)
        case Err(e) => Err(e)
        case Ok(trimmed) => Ok(Terms(u, duration, trimmed))
  }

  predicate IsCurrent(row: ConcessionRow, now: int) {
    row.status == Active && now < row.endsAt
  }

  /** The newest current row's position, or -1. */
  function CurrentIndex(h: seq<ConcessionRow>, now: int): (k: int)
    ensures -1 <= k < |h|
    ensures k >= 0 ==> IsCurrent(h[k], now)
    ensures forall j :: k < j < |h| ==> !IsCurrent(h[j], now)
  {
    if h == [] then -1
    else if IsCurrent(h[|h| - 1], now) then |h| - 1
    else CurrentIndex(h[..|h| - 1], now)
  }

  function CurrentRow(h: seq<ConcessionRow>, now: int): Option<ConcessionRow> {
    var k := CurrentIndex(h, now);
    if k >= 0 then Some(h[k]) else None
  }

  predicate MatchesGrant(row: ConcessionRow, unit: Unit, duration: int) {
    row.request.unit == unit && row.request.duration == duration
  }

  function LatestVersion(h: seq<ConcessionRow>): int {
    if h == [] then 0 else h[|h| - 1].version
  }

  function NewRow(h: seq<ConcessionRow>, subscriptionId: int, request: Request, startsAt: int, id: nat): ConcessionRow {
    ConcessionRow(id, subscriptionId, request, startsAt,
                  ComputeConcessionEndsAt(startsAt, request.unit, request.duration),
                  Active, LatestVersion(h) + 1, None, None)
  }

  datatype Insertion = Insertion(history: seq<ConcessionRow>, result: Result<ConcessionRow>)

  /** The insert transaction: refuse, return the running row, or append a version over the running one. */
  function InsertVersion(h: seq<ConcessionRow>, subscriptionId: int, request: Request, startsAt: int,
      id: nat): Insertion {
    var k := CurrentIndex(h, startsAt);
    if k >= 0 && request.source == AdminGrant then
      Insertion(h, if MatchesGrant(h[k], request.unit, request.duration) then Ok(h[k]) else Err(Overlap))
    else if k < 0 && request.source == AdminRevise then Insertion(h, Err(NotCurrent))
    else
      var row := NewRow(h, subscriptionId, request, startsAt, id);
      var kept := if k >= 0 then h[k := h[k].(status := Superseded, supersededBy := Some(id))] else h;
      Insertion(kept + [row], Ok(row))
  }

  /** The reactivation transaction's ledger half: it refuses to overlap and never supersedes. */
  function InsertReactivation(h: seq<ConcessionRow>, subscriptionId: int, request: Request, startsAt: int,
      id: nat): Insertion {
    if CurrentIndex(h, startsAt) >= 0 then Insertion(h, Err(Overlap))
    else
      var row := NewRow(h, subscriptionId, request, startsAt, id);
      Insertion(h + [row], Ok(row))
  }

  function CancelRow(row: ConcessionRow, at: int): ConcessionRow {
    row.(status := Cancelled, cancelledAt := Some(at))
  }

  /** UPDATE ... SET status = cancelled WHERE id = `id`. */
  function CancelById(h: seq<ConcessionRow>, id: nat, at: int): (r: seq<ConcessionRow>)
    ensures |r| == |h|
    ensures forall i :: 0 <= i < |h| ==> r[i] == if h[i].id == id then CancelRow(h[i], at) else h[i]
  {
    seq(|h|, i requires 0 <= i < |h| => if h[i].id == id then CancelRow(h[i], at) else h[i])
  }

  /** UPDATE ... SET status = superseded, supersededBy = `successor` WHERE id = `id`. */
  function SupersedeById(h: seq<ConcessionRow>, id: nat, successor: nat): (r: seq<ConcessionRow>)
    ensures |r| == |h|
    ensures forall i :: 0 <= i < |h| ==>
              r[i] == if h[i].id == id then h[i].(status := Superseded, supersededBy := Some(successor)) else h[i]
  {
    seq(|h|, i requires 0 <= i < |h| => if h[i].id == id then h[i].(status := Superseded,
        supersededBy := Some(successor)) else h[i])
  }

  // ----- What is true of every reachable ledger.

  ghost predicate DistinctIds(h: seq<ConcessionRow>) {
    forall i, j :: 0 <= i < j < |h| ==> h[i].id != h[j].id
  }

  ghost predicate Fresh(h: seq<ConcessionRow>, id: nat) {
    forall i :: 0 <= i < |h| ==> h[i].id < id
  }

  /**
   * Versions are exactly 1..n, every row ends after it starts, and a row under another one is
   * either no longer active or ended before the row above it started. No clock is mentioned.
   */
  ghost predicate Chain(h: seq<ConcessionRow>, subscriptionId: int) {
    && DistinctIds(h)
    && (forall i :: 0 <= i < |h| ==>
          && h[i].version == i + 1
          && h[i].subscriptionId == subscriptionId
          && h[i].startsAt < h[i].endsAt)
    && (forall i :: 0 <= i < |h| - 1 ==> h[i].status != Active || h[i].endsAt <= h[i + 1].startsAt)
  }

  ghost predicate StartedBy(h: seq<ConcessionRow>, clock: int) {
    forall i :: 0 <= i < |h| ==> h[i].startsAt <= clock
  }

  /**
   * What holds besides when commands run one at a time under a clock that never steps back: rows
   * start in version order, and a superseded row names the next version, which started before
   * the superseded row's end.
   */
  ghost predicate WellFormed(h: seq<ConcessionRow>) {
    forall i :: 0 <= i < |h| ==> RowFits(h, i)
  }

  ghost predicate RowFits(h: seq<ConcessionRow>, i: nat)
    requires i < |h|
  {
    && h[i].status != Expired
    && (h[i].status == Superseded <==> h[i].supersededBy.Some?)
    && (h[i].status == Cancelled <==> h[i].cancelledAt.Some?)
    && (i + 1 < |h| ==> h[i].startsAt <= h[i + 1].startsAt)
    && (h[i].status == Superseded ==>
          i + 1 < |h| && h[i].supersededBy == Some(h[i + 1].id) && h[i + 1].startsAt < h[i].endsAt)
  }

  /** The part of a row that nothing may change once it is stored. */
  function Immutable(row: ConcessionRow): (nat, int, Request, int, int, int) {
    (row.id, row.subscriptionId, row.request, row.startsAt, row.endsAt, row.version)
  }

  /** History only grows, stored rows keep their terms, and a status that has left active is final. */
  ghost predicate Extends(h: seq<ConcessionRow>, later: seq<ConcessionRow>) {
    && |h| <= |later|
    && (forall i :: 0 <= i < |h| ==>
          && Immutable(later[i]) == Immutable(h[i])
          && (h[i].status != Active ==> later[i] == h[i]))
  }

  lemma ExtendsIsTransitive(a: seq<ConcessionRow>, b: seq<ConcessionRow>, c: seq<ConcessionRow>)
    requires Extends(a, b) && Extends(b, c)
    ensures Extends(a, c)
  {
  }

  /** In a chain, from the moment its rows have all started, only the newest row can be current. */
  lemma OnlyNewestCanBeCurrent(h: seq<ConcessionRow>, subscriptionId: int, now: int)
    requires Chain(h, subscriptionId) && StartedBy(h, now)
    ensures forall i :: 0 <= i < |h| - 1 ==> !IsCurrent(h[i], now)
    ensures CurrentIndex(h, now) == if h != [] && IsCurrent(h[|h| - 1], now) then |h| - 1 else -1
  {
    forall i | 0 <= i < |h| - 1 ensures !IsCurrent(h[i], now) {
      assert h[i + 1].startsAt <= now;
    }
  }

  /** An append that leaves nothing current at its start underneath keeps the chain. */
  lemma AppendKeepsChain(kept: seq<ConcessionRow>, subscriptionId: int, request: Request, startsAt: int, id: nat)
    requires Chain(kept, subscriptionId) && Fresh(kept, id) && request.duration >= 1
    requires kept != [] ==> !IsCurrent(kept[|kept| - 1], startsAt)
    ensures Chain(kept + [NewRow(kept, subscriptionId, request, startsAt, id)], subscriptionId)
  {
    EndIsAfterStart(startsAt, request.unit, request.duration);
  }

  lemma SupersedeKeepsChain(h: seq<ConcessionRow>, subscriptionId: int, k: nat, id: nat)
    requires Chain(h, subscriptionId) && Fresh(h, id) && k < |h|
    ensures var kept := h[k := h[k].(status := Superseded, supersededBy := Some(id))];
            Chain(kept, subscriptionId) && Fresh(kept, id) && LatestVersion(kept) == LatestVersion(h)
  {
  }

  /** One insertion, whatever instant it was stamped with, keeps the chain. */
  lemma InsertKeepsChain(h: seq<ConcessionRow>, subscriptionId: int, request: Request, startsAt: int, id: nat)
    requires Chain(h, subscriptionId) && Fresh(h, id) && request.duration >= 1
    ensures Chain(InsertVersion(h, subscriptionId, request, startsAt, id).history, subscriptionId)
  {
    var k := CurrentIndex(h, startsAt);
    if k >= 0 {
      SupersedeKeepsChain(h, subscriptionId, k, id);
      AppendKeepsChain(h[k := h[k].(status := Superseded, supersededBy := Some(id))], subscriptionId, request,
          startsAt, id);
    } else {
      AppendKeepsChain(h, subscriptionId, request, startsAt, id);
    }
  }

  lemma ReactivationKeepsChain(h: seq<ConcessionRow>, subscriptionId: int, request: Request, startsAt: int, id: nat)
    requires Chain(h, subscriptionId) && Fresh(h, id) && request.duration >= 1
    ensures Chain(InsertReactivation(h, subscriptionId, request, startsAt, id).history, subscriptionId)
  {
    if CurrentIndex(h, startsAt) < 0 {
      AppendKeepsChain(h, subscriptionId, request, startsAt, id);
    }
  }

  /** Stamped at or after every stored start, it also keeps the history well-formed. */
  lemma InsertKeepsHistory(h: seq<ConcessionRow>, subscriptionId: int, request: Request, startsAt: int, id: nat)
    requires Chain(h, subscriptionId) && WellFormed(h) && StartedBy(h, startsAt)
    ensures var later := InsertVersion(h, subscriptionId, request, startsAt, id).history;
            WellFormed(later) && Extends(h, later) && StartedBy(later, startsAt)
  {
    OnlyNewestCanBeCurrent(h, subscriptionId, startsAt);
    var later := InsertVersion(h, subscriptionId, request, startsAt, id).history;
    if |later| > |h| {
      forall i: nat | i < |later| ensures RowFits(later, i) {
        if i < |h| {
          assert RowFits(h, i);
        }
      }
    }
  }

  lemma ReactivationKeepsHistory(h: seq<ConcessionRow>, subscriptionId: int, request: Request, startsAt: int, id: nat)
    requires WellFormed(h) && StartedBy(h, startsAt)
    ensures var later := InsertReactivation(h, subscriptionId, request, startsAt, id).history;
            WellFormed(later) && Extends(h, later) && StartedBy(later, startsAt)
  {
    var later := InsertReactivation(h, subscriptionId, request, startsAt, id).history;
    forall i: nat | i < |later| ensures RowFits(later, i) {
      if i < |h| {
        assert RowFits(h, i);
      }
    }
  }

  /** A row an insertion returns is current at the instant it was stamped with. */
  lemma InsertedRowIsCurrent(h: seq<ConcessionRow>, subscriptionId: int, request: Request, startsAt: int, id: nat)
    requires request.duration >= 1
    ensures var done := InsertVersion(h, subscriptionId, request, startsAt, id);
            done.result.Ok? ==> CurrentRow(done.history, startsAt) == Some(done.result.value)
  {
    EndIsAfterStart(startsAt, request.unit, request.duration);
  }

  lemma CancelKeepsChain(h: seq<ConcessionRow>, subscriptionId: int, id: nat, at: int)
    requires Chain(h, subscriptionId)
    ensures Chain(CancelById(h, id, at), subscriptionId)
  {
    var r := CancelById(h, id, at);
    forall i, j | 0 <= i < j < |r| ensures r[i].id != r[j].id {
      assert r[i].id == h[i].id && r[j].id == h[j].id;
    }
  }

  lemma CancelTouchesOneRow(h: seq<ConcessionRow>, k: int, at: int)
    requires DistinctIds(h) && 0 <= k < |h|
    ensures CancelById(h, h[k].id, at) == h[k := CancelRow(h[k], at)]
  {
    forall i | 0 <= i < |h| && i != k ensures h[i].id != h[k].id {
    }
  }

  /** Cancelling the current row keeps the history and leaves nothing current. */
  lemma CancelCurrentKeepsHistory(h: seq<ConcessionRow>, subscriptionId: int, at: int)
    requires Chain(h, subscriptionId) && WellFormed(h) && StartedBy(h, at) && CurrentIndex(h, at) >= 0
    ensures var later := CancelById(h, h[CurrentIndex(h, at)].id, at);
            && WellFormed(later) && Extends(h, later) && StartedBy(later, at) && CurrentRow(later, at).None?
  {
    var k := CurrentIndex(h, at);
    CancelTouchesOneRow(h, k, at);
    OnlyNewestCanBeCurrent(h, subscriptionId, at);
    var later := h[k := CancelRow(h[k], at)];
    forall i: nat | i < |later| ensures RowFits(later, i) {
      assert RowFits(h, i);
    }
    CancelKeepsChain(h, subscriptionId, h[k].id, at);
    OnlyNewestCanBeCurrent(later, subscriptionId, at);
  }

  lemma SupersedeTouchesOneRow(h: seq<ConcessionRow>, k: int, successor: nat)
    requires DistinctIds(h) && 0 <= k < |h|
    ensures SupersedeById(h, h[k].id, successor) == h[k := h[k].(status := Superseded, supersededBy := Some(successor))]
  {
    forall i | 0 <= i < |h| && i != k ensures h[i].id != h[k].id {
    }
  }

  lemma InsertKeepsTerms(h: seq<ConcessionRow>, subscriptionId: int, request: Request, startsAt: int, id: nat,
      clock: int)
    requires Fresh(h, id) && StartedBy(h, clock) && startsAt <= clock
    ensures var later := InsertVersion(h, subscriptionId, request, startsAt, id).history;
            Fresh(later, id + 1) && StartedBy(later, clock) && KeepsTerms(h, later)
  {
  }

  lemma InsertKeepsIds(h: seq<ConcessionRow>, subscriptionId: int, request: Request, startsAt: int, id: nat)
    requires Fresh(h, id)
    ensures Fresh(InsertVersion(h, subscriptionId, request, startsAt, id).history, id + 1)
    ensures Fresh(InsertReactivation(h, subscriptionId, request, startsAt, id).history, id + 1)
  {
  }

  lemma ReactivationKeepsTerms(h: seq<ConcessionRow>, subscriptionId: int, request: Request, startsAt: int, id: nat,
      clock: int)
    requires Fresh(h, id) && StartedBy(h, clock) && startsAt <= clock
    ensures var later := InsertReactivation(h, subscriptionId, request, startsAt, id).history;
            Fresh(later, id + 1) && StartedBy(later, clock) && KeepsTerms(h, later)
  {
  }

  lemma CancelKeepsTerms(h: seq<ConcessionRow>, target: nat, at: int, id: nat, clock: int)
    requires Fresh(h, id) && StartedBy(h, clock)
    ensures var later := CancelById(h, target, at);
            Fresh(later, id + 1) && StartedBy(later, clock) && KeepsTerms(h, later)
  {
    var later := CancelById(h, target, at);
    forall i | 0 <= i < |h| ensures Immutable(later[i]) == Immutable(h[i]) && later[i].id == h[i].id &&
        later[i].startsAt == h[i].startsAt {
    }
  }

  ghost predicate KeepsTerms(h: seq<ConcessionRow>, later: seq<ConcessionRow>) {
    && |h| <= |later|
    && forall i :: 0 <= i < |h| ==> Immutable(later[i]) == Immutable(h[i])
  }

  /**
   * "Current" asks only for the end. So two rows of a chain that are still active are both current to
   * a reader whose clock is before both ends, and that is before the row after the first had started.
   */
  lemma StaleReaderSeesTwo(h: seq<ConcessionRow>, subscriptionId: int, i: nat, j: nat, now: int)
    requires Chain(h, subscriptionId) && i < j < |h| && h[i].status == Active && h[j].status == Active
    ensures IsCurrent(h[i], now) && IsCurrent(h[j], now) <==> now < h[i].endsAt && now < h[j].endsAt
    ensures IsCurrent(h[i], now) && IsCurrent(h[j], now) ==> now < h[i + 1].startsAt
  {
  }

  /** Two grants, the second once the first has lapsed, leave such a pair: lapsed rows stay active. */
  lemma LapsedGrantStaysActive(subscriptionId: int, grant: Request, start: int) returns (h: seq<ConcessionRow>,
      reader: int)
    requires grant.duration >= 1 && grant.source == AdminGrant
    ensures var first := InsertVersion([], subscriptionId, grant, start, 0).history;
            first != [] && h == InsertVersion(first, subscriptionId, grant, first[0].endsAt, 1).history
    ensures |h| == 2 && start <= reader < h[1].startsAt && IsCurrent(h[0], reader) && IsCurrent(h[1], reader)
  {
    EndIsAfterStart(start, grant.unit, grant.duration);
    var first := InsertVersion([], subscriptionId, grant, start, 0).history;
    assert first == [NewRow([], subscriptionId, grant, start, 0)];
    EndIsAfterStart(first[0].endsAt, grant.unit, grant.duration);
    h := InsertVersion(first, subscriptionId, grant, first[0].endsAt, 1).history;
    reader := start;
  }

  // ----- What an insertion answers and stores.

  /** Terms are accepted exactly within the bounds, trimmed; the first bound that fails names the error. */
  lemma TermsAreValidExactlyWhen(unit: string, duration: int, reason: string)
    ensures var known, fits := unit == "day" || unit == "month", duration <= if unit == "day" then 366 else 24;
            ValidateTerms(unit, duration, reason) ==
            if !known then Err(InvalidUnit)
            else if duration == 0 then Err(ZeroDuration)
            else if duration < 0 then Err(NegativeDuration)
            else if !fits then Err(InvalidDuration)
            else if |Trim(reason)| == 0 || |Trim(reason)| > 512 then Err(InvalidReason)
            else Ok(Terms(if unit == "day" then Day else Month, duration, Trim(reason)))
  {
  }

  /** The row an insertion stores when it stores one: what was asked, running to the calendar's end. */
  ghost predicate IsNextRow(row: ConcessionRow, h: seq<ConcessionRow>, subscriptionId: int, request: Request,
      startsAt: int, id: nat)
  {
    && row.id == id && row.subscriptionId == subscriptionId && row.request == request
    && row.startsAt == startsAt && row.endsAt == ComputeConcessionEndsAt(startsAt, request.unit, request.duration)
    && row.status == Active && row.supersededBy.None? && row.cancelledAt.None?
    && row.version == |h| + 1
  }

  /** The older rows stay; the one that was current, if any, is superseded by the new one. */
  ghost predicate IsBehind(kept: seq<ConcessionRow>, h: seq<ConcessionRow>, startsAt: int, id: nat) {
    && |kept| == |h|
    && forall i :: 0 <= i < |h| ==>
          kept[i] == if i == |h| - 1 && h[i].status == Active && startsAt < h[i].endsAt
                     then h[i].(status := Superseded, supersededBy := Some(id)) else h[i]
  }

  /** An insertion that is not refused stores the next row over the older ones and returns it. */
  lemma InsertStoresNextRow(h: seq<ConcessionRow>, subscriptionId: int, request: Request, startsAt: int, id: nat)
    requires Chain(h, subscriptionId) && StartedBy(h, startsAt)
    requires request.source == AdminGrant ==> CurrentRow(h, startsAt).None?
    requires request.source == AdminRevise ==> CurrentRow(h, startsAt).Some?
    ensures var done := InsertVersion(h, subscriptionId, request, startsAt, id);
            && done.result.Ok? && |done.history| == |h| + 1 && done.history[|h|] == done.result.value
            && IsNextRow(done.result.value, h, subscriptionId, request, startsAt, id)
            && IsBehind(done.history[..|h|], h, startsAt, id)
  {
    OnlyNewestCanBeCurrent(h, subscriptionId, startsAt);
  }

  /** A grant over a running row returns it if unit and duration are its own, and is refused otherwise. */
  lemma GrantOverRunningRow(h: seq<ConcessionRow>, subscriptionId: int, request: Request, startsAt: int, id: nat)
    requires request.source == AdminGrant && CurrentRow(h, startsAt).Some?
    ensures var current := CurrentRow(h, startsAt).value;
            InsertVersion(h, subscriptionId, request, startsAt, id) ==
            Insertion(h, if current.request.unit == request.unit && current.request.duration == request.duration
                         then Ok(current) else Err(Overlap))
  {
  }

  /** A reactivation is refused over a running row, and otherwise stores the next row over unchanged ones. */
  lemma ReactivationStoresNextRow(h: seq<ConcessionRow>, subscriptionId: int, request: Request, startsAt: int, id: nat)
    requires Chain(h, subscriptionId)
    ensures var done := InsertReactivation(h, subscriptionId, request, startsAt, id);
            if CurrentRow(h, startsAt).Some? then done == Insertion(h, Err(Overlap))
            else
              && done.result.Ok? && done.history == h + [done.result.value]
              && IsNextRow(done.result.value, h, subscriptionId, request, startsAt, id)
  {
  }

  // ----- The readers.

  /** What "current" means: the newest row that is active and not yet over. */
  lemma CurrentRowIsNewestRunning(h: seq<ConcessionRow>, now: int) returns (k: nat)
    ensures CurrentRow(h, now).None? ==> k == |h|
    ensures CurrentRow(h, now).Some? ==>
              k < |h| && CurrentRow(h, now) == Some(h[k]) && h[k].status == Active && now < h[k].endsAt
    ensures forall j :: (if k == |h| then 0 else k + 1) <= j < |h| ==> h[j].status != Active || h[j].endsAt <= now
  {
    var found := CurrentIndex(h, now);
    k := if found < 0 then |h| else found;
    forall j | (if k == |h| then 0 else k + 1) <= j < |h| ensures !IsCurrent(h[j], now) {
    }
  }

  /** Newest first: the order ORDER BY version DESC gives the rows of a chain. */
  function NewestFirst(h: seq<ConcessionRow>): (r: seq<ConcessionRow>)
    ensures |r| == |h|
    ensures forall i :: 0 <= i < |h| ==> r[i] == h[|h| - 1 - i]
  {
    seq(|h|, i requires 0 <= i < |h| => h[|h| - 1 - i])
  }

  lemma NewestFirstIsVersionOrder(h: seq<ConcessionRow>, subscriptionId: int)
    requires Chain(h, subscriptionId)
    ensures forall i, j :: 0 <= i < j < |h| ==> NewestFirst(h)[i].version > NewestFirst(h)[j].version
  {
  }

  /** The single reader: scan from the newest version down for a current row. */
  method LoadCurrentCommercialConcession(h: seq<ConcessionRow>, now: int) returns (found: Option<ConcessionRow>)
    ensures found == CurrentRow(h, now)
  {
    var rows := NewestFirst(h);
    for i := 0 to |rows|
      invariant forall j :: |h| - i <= j < |h| ==> !IsCurrent(h[j], now)
    {
      if IsCurrent(rows[i], now) {
        return Some(rows[i]);
      }
    }
    return None;
  }

  /** What the database may answer to the batch query: every row of the asked subscriptions, by version descending. */
  ghost predicate IsBatchAnswer(rows: seq<ConcessionRow>, ledger: map<int, seq<ConcessionRow>>, ids: set<int>) {
    && (forall i, j :: 0 <= i < j < |rows| ==> rows[i].version >= rows[j].version)
    && (forall i :: 0 <= i < |rows| ==>
          rows[i].subscriptionId in ids && rows[i].subscriptionId in ledger &&
              rows[i] in ledger[rows[i].subscriptionId])
    && (forall s, i :: s in ids && s in ledger && 0 <= i < |ledger[s]| ==> ledger[s][i] in rows)
  }

  ghost predicate AllChains(ledger: map<int, seq<ConcessionRow>>) {
    forall s :: s in ledger ==> Chain(ledger[s], s)
  }

  /** Of the rows still to come, the first with an unseen subscription is that subscription's newest. */
  lemma FirstUnseenIsNewest(rows: seq<ConcessionRow>, ledger: map<int, seq<ConcessionRow>>, ids: set<int>, i: int)
    requires AllChains(ledger) && IsBatchAnswer(rows, ledger, ids) && 0 <= i < |rows|
    requires forall j :: 0 <= j < i ==> rows[j].subscriptionId != rows[i].subscriptionId
    ensures var h := ledger[rows[i].subscriptionId]; rows[i] == h[|h| - 1]
  {
    var s := rows[i].subscriptionId;
    var h := ledger[s];
    assert Chain(h, s);
    var k :| 0 <= k < |h| && h[k] == rows[i];
    assert h[|h| - 1] in rows;
    var j :| 0 <= j < |rows| && rows[j] == h[|h| - 1];
    assert h[|h| - 1].version == |h| && h[k].version == k + 1;
  }

  function OwnerOf(row: ConcessionRow): int { row.subscriptionId }

  predicate NewestIsCurrent(ledger: map<int, seq<ConcessionRow>>, s: int, now: int) {
    s in ledger && ledger[s] != [] && IsCurrent(ledger[s][|ledger[s]| - 1], now)
  }

  lemma FirstOfIsNewest(rows: seq<ConcessionRow>, ledger: map<int, seq<ConcessionRow>>, ids: set<int>, s: int)
    requires AllChains(ledger) && IsBatchAnswer(rows, ledger, ids)
    ensures FirstOf(rows, OwnerOf, s) ==
            if s in ids && s in ledger && ledger[s] != [] then Some(ledger[s][|ledger[s]| - 1]) else None
  {
    if s in ids && s in ledger && ledger[s] != [] {
      assert Chain(ledger[s], s) && ledger[s][0] in rows;
      assert OwnerOf(ledger[s][0]) == s;
    }
    var i := FirstOfIsEarliest(rows, OwnerOf, s);
    if i < |rows| {
      assert OwnerOf(rows[i]) == s;
      FirstUnseenIsNewest(rows, ledger, ids, i);
    }
  }

  /** One pass that looks only at the first row met of each subscription. */
  method CurrentAmongFirstRows(rows: seq<ConcessionRow>, now: int) returns (suppressed: set<int>)
    ensures forall s :: s in suppressed <==>
              FirstOf(rows, OwnerOf, s).Some? && IsCurrent(FirstOf(rows, OwnerOf, s).value, now)
  {
    suppressed := {};
    var seen: set<int> := {};
    for i := 0 to |rows|
      invariant forall s :: s in seen <==> FirstOf(rows[..i], OwnerOf, s).Some?
      invariant forall s :: s in suppressed <==> s in seen && IsCurrent(FirstOf(rows[..i], OwnerOf, s).value, now)
    {
      var row := rows[i];
      assert rows[..i + 1][..i] == rows[..i];
      if OwnerOf(row) !in seen {
        seen := seen + {row.subscriptionId};
        if IsCurrent(row, now) {
          suppressed := suppressed + {row.subscriptionId};
        }
      }
    }
    assert rows[..|rows|] == rows;
  }

  /** The batch reader. */
  method LoadSubscriptionIdsWithCurrentConcession(
      ghost ledger: map<int, seq<ConcessionRow>>, ids: set<int>, rows: seq<ConcessionRow>, now: int)
    returns (suppressed: set<int>)
    requires AllChains(ledger) && IsBatchAnswer(rows, ledger, ids)
    ensures forall s :: s in suppressed <==> s in ids && NewestIsCurrent(ledger, s, now)
  {
    suppressed := CurrentAmongFirstRows(rows, now);
    forall s ensures s in suppressed <==> s in ids && NewestIsCurrent(ledger, s, now) {
      FirstOfIsNewest(rows, ledger, ids, s);
    }
  }

  /**
   * The batch form refines the single form: asked at or after every stored start, its set holds
   * exactly the subscriptions for which the all-versions scan finds a row.
   */
  lemma BatchAgreesWithSingle(ledger: map<int, seq<ConcessionRow>>, ids: set<int>, suppressed: set<int>, now: int)
    requires AllChains(ledger)
    requires forall s :: s in ledger ==> StartedBy(ledger[s], now)
    requires forall s :: s in suppressed <==> s in ids && NewestIsCurrent(ledger, s, now)
    ensures forall s :: s in suppressed <==> s in ids && s in ledger && CurrentRow(ledger[s], now).Some?
  {
    forall s | s in ledger ensures CurrentRow(ledger[s], now).Some? <==>
                                   ledger[s] != [] && IsCurrent(ledger[s][|ledger[s]| - 1], now)
    {
      OnlyNewestCanBeCurrent(ledger[s], s, now);
    }
  }
}
