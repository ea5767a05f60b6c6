/** The canonical order over competing subscription rows, and what is picked by it. */
module Resolver {
  import opened Common
  import opened Entitlement

  /** 0: live and entitled now; 1: live but lapsed; 2: canceled or expired. */
  function CanonicalRank(row: SubscriptionRow, now: int): int {
    if IsLive(row) then (if EntitledNow(row, now) then 0 else 1) else 2
  }

  /** Negative when `a` comes first; the sign is all that sorting looks at. */
  function CompareCanonical(a: SubscriptionRow, b: SubscriptionRow, now: int): int {
    var rankDiff := CanonicalRank(a, now) - CanonicalRank(b, now);
    if rankDiff != 0 then rankDiff
    else
      match (PeriodEnd(a), PeriodEnd(b))
      case (Some(endA), Some(endB)) => if endB - endA != 0 then endB - endA else b.id - a.id
      case (Some(_), None) => -1
      case (None, Some(_)) => 1
      case (None, None) => b.id - a.id
  }

  function InsertInOrder(row: SubscriptionRow, sorted: seq<SubscriptionRow>, now: int): (r: seq<SubscriptionRow>)
    ensures multiset(r) == multiset(sorted) + multiset{row}
  {
    if sorted == [] then [row]
    else if CompareCanonical(row, sorted[0], now) <= 0 then
      assert [sorted[0]] + sorted[1..] == sorted;
      [row] + sorted
    else
      assert [sorted[0]] + sorted[1..] == sorted;
      [sorted[0]] + InsertInOrder(row, sorted[1..], now)
  }

  /** A stable sort by the comparator; any other stable sort gives the same sequence. */
  function SortCanonical(rows: seq<SubscriptionRow>, now: int): (r: seq<SubscriptionRow>)
    ensures multiset(r) == multiset(rows)
  {
    if rows == [] then []
    else
      assert [rows[0]] + rows[1..] == rows;
      InsertInOrder(rows[0], SortCanonical(rows[1..], now), now)
  }

  function PickCanonical(rows: seq<SubscriptionRow>, now: int): (r: Option<SubscriptionRow>)
    ensures r.None? <==> rows == []
    ensures r.Some? ==> r.value in rows
  {
    var sorted := SortCanonical(rows, now);
    assert |multiset(sorted)| == |multiset(rows)|;
    if rows == [] then None
    else
      assert sorted[0] in multiset(rows);
      Some(sorted[0])
  }

  // ----- A description of the order that does not mention the clock.

  /** Live rows before dead ones, later ends before earlier ones, missing ends last, then larger ids. */
  ghost predicate Precedes(a: SubscriptionRow, b: SubscriptionRow) {
    if IsLive(a) != IsLive(b) then IsLive(a)
    else
      match (PeriodEnd(a), PeriodEnd(b))
      case (Some(endA), Some(endB)) => endA > endB || (endA == endB && a.id > b.id)
      case (Some(_), None) => true
      case (None, Some(_)) => false
      case (None, None) => a.id > b.id
  }

  /** The comparator never depends on the clock: at every instant its sign is the timeless order. */
  lemma ComparatorIsTimeless(a: SubscriptionRow, b: SubscriptionRow, now: int)
    ensures CompareCanonical(a, b, now) < 0 <==> Precedes(a, b)
    ensures CompareCanonical(a, b, now) > 0 <==> Precedes(b, a)
    ensures CompareCanonical(a, b, now) == 0 ==> a.id == b.id
  {
    EntitledMeansLiveAndUnexpired(a, now);
    EntitledMeansLiveAndUnexpired(b, now);
  }

  /** On rows with distinct ids the comparator is a strict total order, at whatever instants it is asked. */
  lemma ComparatorIsStrictTotalOrder(a: SubscriptionRow, b: SubscriptionRow, c: SubscriptionRow, t1: int, t2: int,
      t3: int)
    ensures CompareCanonical(a, a, t1) == 0
    ensures a.id != b.id ==> (CompareCanonical(a, b, t1) < 0) != (CompareCanonical(b, a, t2) < 0)
    ensures CompareCanonical(a, b, t1) < 0 && CompareCanonical(b, c, t2) < 0 ==> CompareCanonical(a, c, t3) < 0
  {
    ComparatorIsTimeless(a, b, t1);
    ComparatorIsTimeless(b, a, t2);
    ComparatorIsTimeless(b, c, t2);
    ComparatorIsTimeless(a, c, t3);
  }

  ghost predicate DistinctIds(rows: seq<SubscriptionRow>) {
    forall i, j :: 0 <= i < j < |rows| ==> rows[i].id != rows[j].id
  }

  ghost predicate NothingPrecedes(row: SubscriptionRow, rows: seq<SubscriptionRow>) {
    forall i :: 0 <= i < |rows| ==> !Precedes(rows[i], row)
  }

  lemma {:induction false} InsertKeepsLeastFirst(row: SubscriptionRow, sorted: seq<SubscriptionRow>, now: int)
    requires sorted != [] ==> NothingPrecedes(sorted[0], sorted)
    ensures var r := InsertInOrder(row, sorted, now); NothingPrecedes(r[0], r)
  {
    var r := InsertInOrder(row, sorted, now);
    if sorted != [] {
      ComparatorIsTimeless(row, sorted[0], now);
      forall i | 0 <= i < |r| ensures !Precedes(r[i], r[0]) {
        assert r[i] in multiset(r);
        assert r[i] == row || r[i] in sorted;
      }
    }
  }

  /** The picked row is one that no row precedes. */
  lemma {:induction false} PickIsFirst(rows: seq<SubscriptionRow>, now: int)
    requires rows != []
    ensures NothingPrecedes(PickCanonical(rows, now).value, rows)
  {
    SortedStartsLeast(rows, now);
    var sorted := SortCanonical(rows, now);
    forall i | 0 <= i < |rows| ensures !Precedes(rows[i], sorted[0]) {
      assert rows[i] in multiset(sorted);
    }
  }

  lemma {:induction false} SortedStartsLeast(rows: seq<SubscriptionRow>, now: int)
    requires rows != []
    ensures SortCanonical(rows, now) != []
    ensures NothingPrecedes(SortCanonical(rows, now)[0], SortCanonical(rows, now))
  {
    if |rows| > 1 {
      SortedStartsLeast(rows[1..], now);
    }
    InsertKeepsLeastFirst(rows[0], SortCanonical(rows[1..], now), now);
    var r := InsertInOrder(rows[0], SortCanonical(rows[1..], now), now);
    assert rows[0] in multiset(r);
  }

  /** A row that nothing precedes is the row that is picked, whenever the question is asked. */
  lemma FirstIsPicked(rows: seq<SubscriptionRow>, row: SubscriptionRow, now: int)
    requires DistinctIds(rows) && row in rows && NothingPrecedes(row, rows)
    ensures PickCanonical(rows, now) == Some(row)
  {
    PickIsFirst(rows, now);
    var picked := PickCanonical(rows, now).value;
    assert !Precedes(picked, row) && !Precedes(row, picked);
    ComparatorIsTimeless(picked, row, now);
  }

  /** The same row is picked at all times and from every permutation of the rows. */
  lemma PickIgnoresTimeAndOrder(rows: seq<SubscriptionRow>, permuted: seq<SubscriptionRow>, now: int, later: int)
    requires DistinctIds(rows) && multiset(rows) == multiset(permuted)
    ensures PickCanonical(rows, now) == PickCanonical(permuted, later)
  {
    assert |rows| == |multiset(permuted)| == |permuted|;
    if rows != [] {
      var picked := PickCanonical(permuted, later).value;
      assert picked in multiset(rows);
      PickIsFirst(permuted, later);
      forall i | 0 <= i < |rows| ensures !Precedes(rows[i], picked) {
        assert rows[i] in multiset(permuted);
      }
      FirstIsPicked(rows, picked, now);
    }
  }

  /** Some row of an account entitles it exactly when its canonical row does. */
  lemma AnyEntitledIffCanonicalEntitled(rows: seq<SubscriptionRow>, now: int)
    ensures UserHasEntitlement(rows, now) <==>
            PickCanonical(rows, now).Some? && EntitledNow(PickCanonical(rows, now).value, now)
  {
    if rows != [] {
      var picked := PickCanonical(rows, now).value;
      PickIsFirst(rows, now);
      EntitledMeansLiveAndUnexpired(picked, now);
      forall i | 0 <= i < |rows| && EntitledNow(rows[i], now) ensures EntitledNow(picked, now) {
        EntitledMeansLiveAndUnexpired(rows[i], now);
      }
    }
  }

  // ----- Choosing the row a payment activates.

  datatype ActivationOptions = ActivationOptions(
    subscriptionId: Option<int>,
    restaurantId: Option<int>,
    planId: Option<string>)

  function FindById(rows: seq<SubscriptionRow>, id: int): (r: Option<SubscriptionRow>)
    ensures r.Some? ==> r.value in rows && r.value.id == id
    ensures r.None? ==> forall i :: 0 <= i < |rows| ==> rows[i].id != id
  {
    if rows == [] then None
    else if rows[0].id == id then Some(rows[0])
    else FindById(rows[1..], id)
  }

  function Filter(rows: seq<SubscriptionRow>, keep: SubscriptionRow -> bool): (r: seq<SubscriptionRow>)
    ensures forall row :: row in r <==> row in rows && keep(row)
    ensures r == [] <==> forall i :: 0 <= i < |rows| ==> !keep(rows[i])
  {
    if rows == [] then []
    else (if keep(rows[0]) then [rows[0]] else []) + Filter(rows[1..], keep)
  }

  function InRestaurant(restaurantId: int): SubscriptionRow -> bool {
    (row: SubscriptionRow) => row.restaurantId == restaurantId
  }

  function OnPlan(planId: string): SubscriptionRow -> bool {
    (row: SubscriptionRow) => row.planId == planId
  }

  /** Account rows are the ones with restaurant id 0. */
  function PickUserLevel(rows: seq<SubscriptionRow>, now: int): Option<SubscriptionRow> {
    PickCanonical(Filter(rows, InRestaurant(0)), now)
  }

  /** The rows a query returns for an owner, in whatever order. */
  method GetSubscriptionsByUser(table: map<int, SubscriptionRow>, userId: int) returns (rows: seq<SubscriptionRow>)
    requires forall s :: s in table ==> table[s].id == s
    ensures forall row :: row in rows <==> row.id in table && table[row.id] == row && row.userId == userId
  {
    rows := [];
    var rest := set s | s in table :: table[s];
    while rest != {}
      invariant forall row :: row in rest ==> row.id in table && table[row.id] == row
      invariant forall row :: row in rows <==>
            row.id in table && table[row.id] == row && row !in rest && row.userId == userId
      decreases rest
    {
      var next :| next in rest;
      rest := rest - {next};
      if next.userId == userId {
        rows := rows + [next];
      }
    }
  }

  function ResolveUnscoped(rows: seq<SubscriptionRow>, planId: Option<string>, now: int): Option<SubscriptionRow> {
    match planId
    case Some(wanted) => PickCanonical(Filter(rows, OnPlan(wanted)), now)
    case None =>
      match PickUserLevel(rows, now)
      case Some(row) => Some(row)
      case None => PickCanonical(rows, now)
  }

  function ResolveScoped(rows: seq<SubscriptionRow>, options: ActivationOptions, now: int): Option<SubscriptionRow> {
    if options.restaurantId.Some? && Filter(rows, InRestaurant(options.restaurantId.value)) != [] then
      PickCanonical(Filter(rows, InRestaurant(options.restaurantId.value)), now)
    else ResolveUnscoped(rows, options.planId, now)
  }

  /** Explicit id first, then the restaurant's rows, then the plan's, then the account's, then any. */
  function ResolveForActivation(rows: seq<SubscriptionRow>, options: ActivationOptions,
      now: int): Option<SubscriptionRow> {
    if rows == [] then None
    else if options.subscriptionId.Some? && FindById(rows, options.subscriptionId.value).Some? then
      FindById(rows, options.subscriptionId.value)
    else ResolveScoped(rows, options, now)
  }

  /** The table after the row with the id of `updated` is rewritten. */
  function Rewrite(rows: seq<SubscriptionRow>, updated: SubscriptionRow): (r: seq<SubscriptionRow>)
    ensures |r| == |rows|
    ensures forall i :: 0 <= i < |rows| ==> r[i] == if rows[i].id == updated.id then updated else rows[i]
  {
    seq(|rows|, i requires 0 <= i < |rows| => if rows[i].id == updated.id then updated else rows[i])
  }

  /** `row` is the first, in the timeless order, of the rows `keep` accepts. */
  ghost predicate IsBest(rows: seq<SubscriptionRow>, keep: SubscriptionRow -> bool, row: SubscriptionRow) {
    row in rows && keep(row) && forall i :: 0 <= i < |rows| && keep(rows[i]) ==> !Precedes(rows[i], row)
  }

  lemma {:induction false} FilterKeepsIdsDistinct(rows: seq<SubscriptionRow>, keep: SubscriptionRow -> bool)
    requires DistinctIds(rows)
    ensures DistinctIds(Filter(rows, keep))
  {
    if rows != [] {
      FilterKeepsIdsDistinct(rows[1..], keep);
      var rest := Filter(rows[1..], keep);
      forall j | 0 <= j < |rest| ensures rest[j].id != rows[0].id {
        assert rest[j] in rows[1..];
      }
    }
  }

  lemma PickedIsBest(rows: seq<SubscriptionRow>, keep: SubscriptionRow -> bool, row: SubscriptionRow, now: int)
    requires DistinctIds(rows)
    ensures PickCanonical(Filter(rows, keep), now) == Some(row) <==> IsBest(rows, keep, row)
  {
    var kept := Filter(rows, keep);
    FilterKeepsIdsDistinct(rows, keep);
    if PickCanonical(kept, now) == Some(row) {
      PickIsFirst(kept, now);
      forall i | 0 <= i < |rows| && keep(rows[i]) ensures !Precedes(rows[i], row) {
        assert rows[i] in kept;
      }
    }
    if IsBest(rows, keep, row) {
      forall i | 0 <= i < |kept| ensures !Precedes(kept[i], row) {
        assert kept[i] in rows;
      }
      FirstIsPicked(kept, row, now);
    }
  }

  /** A rewrite that keeps a live row live and does not shorten its end among its peers. */
  ghost predicate Strengthens(before: SubscriptionRow, after: SubscriptionRow) {
    && after.id == before.id
    && after.restaurantId == before.restaurantId
    && (IsLive(before) ==> IsLive(after))
    && (IsLive(before) == IsLive(after) && PeriodEnd(before).Some? ==>
          PeriodEnd(after).Some? && PeriodEnd(after).value >= PeriodEnd(before).value)
  }

  lemma BestSurvivesRewrite(rows: seq<SubscriptionRow>, keep: SubscriptionRow -> bool,
                            before: SubscriptionRow, after: SubscriptionRow)
    requires DistinctIds(rows) && IsBest(rows, keep, before)
    requires Strengthens(before, after) && keep(after)
    ensures IsBest(Rewrite(rows, after), keep, after)
  {
    var k :| 0 <= k < |rows| && rows[k] == before;
    var rewritten := Rewrite(rows, after);
    assert rewritten[k] == after;
    forall i | 0 <= i < |rewritten| && keep(rewritten[i]) ensures !Precedes(rewritten[i], after) {
      if rows[i].id != after.id {
        assert rewritten[i] == rows[i] && !Precedes(rows[i], before);
      }
    }
  }

  lemma EmptyFilterStaysEmpty(rows: seq<SubscriptionRow>, keep: SubscriptionRow -> bool,
                              before: SubscriptionRow, after: SubscriptionRow)
    requires DistinctIds(rows) && before in rows && before.id == after.id && keep(before) == keep(after)
    ensures Filter(Rewrite(rows, after), keep) == [] <==> Filter(rows, keep) == []
  {
    var k :| 0 <= k < |rows| && rows[k] == before;
    var rewritten := Rewrite(rows, after);
    forall i | 0 <= i < |rows| ensures keep(rewritten[i]) == keep(rows[i]) {
      assert i == k || rows[i].id != rows[k].id;
    }
  }

  lemma FilteredRedelivery(rows: seq<SubscriptionRow>, keep: SubscriptionRow -> bool,
                           before: SubscriptionRow, after: SubscriptionRow, now: int, later: int)
    requires DistinctIds(rows) && PickCanonical(Filter(rows, keep), now) == Some(before)
    requires Strengthens(before, after) && keep(after)
    ensures before in rows && keep(before)
    ensures PickCanonical(Filter(Rewrite(rows, after), keep), later) == Some(after)
  {
    PickedIsBest(rows, keep, before, now);
    BestSurvivesRewrite(rows, keep, before, after);
    PickedIsBest(Rewrite(rows, after), keep, after, later);
  }

  lemma UnfilteredRedelivery(rows: seq<SubscriptionRow>, before: SubscriptionRow, after: SubscriptionRow, now: int,
      later: int)
    requires DistinctIds(rows) && PickCanonical(rows, now) == Some(before) && Strengthens(before, after)
    ensures before in rows && PickCanonical(Rewrite(rows, after), later) == Some(after)
  {
    PickIsFirst(rows, now);
    BestSurvivesRewrite(rows, (row: SubscriptionRow) => true, before, after);
    FirstIsPicked(Rewrite(rows, after), after, later);
  }

  lemma UnscopedRedelivery(rows: seq<SubscriptionRow>, planId: Option<string>,
                           before: SubscriptionRow, after: SubscriptionRow, now: int, later: int)
    requires DistinctIds(rows) && ResolveUnscoped(rows, planId, now) == Some(before)
    requires Strengthens(before, after)
    requires planId.Some? && before.planId == planId.value ==> after.planId == before.planId
    ensures before in rows
    ensures ResolveUnscoped(Rewrite(rows, after), planId, later) == Some(after)
  {
    if planId.Some? {
      FilteredRedelivery(rows, OnPlan(planId.value), before, after, now, later);
    } else if PickUserLevel(rows, now).Some? {
      FilteredRedelivery(rows, InRestaurant(0), before, after, now, later);
    } else {
      UnfilteredRedelivery(rows, before, after, now, later);
      EmptyFilterStaysEmpty(rows, InRestaurant(0), before, after);
    }
  }

  /**
   * Stability of redelivery: once the chosen row has been activated without being weakened and
   * without leaving the plan filter, the same request chooses that row again, at any later time.
   */
  lemma RedeliveryPicksSameRow(rows: seq<SubscriptionRow>, options: ActivationOptions,
                               before: SubscriptionRow, after: SubscriptionRow, now: int, later: int)
    requires DistinctIds(rows)
    requires ResolveForActivation(rows, options, now) == Some(before)
    requires Strengthens(before, after)
    requires options.planId.Some? && before.planId == options.planId.value ==> after.planId == before.planId
    ensures before in rows
    ensures ResolveForActivation(Rewrite(rows, after), options, later) == Some(after)
  {
    if options.subscriptionId.Some? && FindById(rows, options.subscriptionId.value).Some? {
      RedeliveryById(rows, before, after, options.subscriptionId.value);
    } else {
      ScopedRedelivery(rows, options, before, after, now, later);
      if options.subscriptionId.Some? {
        var none := FindById(Rewrite(rows, after), options.subscriptionId.value);
      }
    }
  }

  lemma RedeliveryById(rows: seq<SubscriptionRow>, before: SubscriptionRow, after: SubscriptionRow, id: int)
    requires DistinctIds(rows) && FindById(rows, id) == Some(before) && after.id == before.id
    ensures before in rows && FindById(Rewrite(rows, after), id) == Some(after)
  {
    var k :| 0 <= k < |rows| && rows[k] == before;
    var rewritten := Rewrite(rows, after);
    assert rewritten[k] == after;
    var found := FindById(rewritten, id);
    var j :| 0 <= j < |rewritten| && rewritten[j] == found.value;
  }

  lemma ScopedRedelivery(rows: seq<SubscriptionRow>, options: ActivationOptions,
                         before: SubscriptionRow, after: SubscriptionRow, now: int, later: int)
    requires DistinctIds(rows) && ResolveScoped(rows, options, now) == Some(before)
    requires Strengthens(before, after)
    requires options.planId.Some? && before.planId == options.planId.value ==> after.planId == before.planId
    ensures before in rows
    ensures ResolveScoped(Rewrite(rows, after), options, later) == Some(after)
  {
    if options.restaurantId.Some? && Filter(rows, InRestaurant(options.restaurantId.value)) != [] {
      var keep := InRestaurant(options.restaurantId.value);
      PickedIsBest(rows, keep, before, now);
      FilteredRedelivery(rows, keep, before, after, now, later);
    } else {
      UnscopedRedelivery(rows, options.planId, before, after, now, later);
      if options.restaurantId.Some? {
        EmptyFilterStaysEmpty(rows, InRestaurant(options.restaurantId.value), before, after);
      }
    }
  }

  function Redeliver(rows: seq<SubscriptionRow>, deliveries: seq<SubscriptionRow>): seq<SubscriptionRow>
    decreases |deliveries|
  {
    if deliveries == [] then rows else Redeliver(Rewrite(rows, deliveries[0]), deliveries[1..])
  }

  /** Consecutive versions of one row, none weaker than the one before and all on one plan. */
  ghost predicate NeverWeakened(first: SubscriptionRow, deliveries: seq<SubscriptionRow>)
    decreases |deliveries|
  {
    deliveries != [] ==>
      && Strengthens(first, deliveries[0])
      && deliveries[0].planId == first.planId
      && NeverWeakened(deliveries[0], deliveries[1..])
  }

  lemma PickIsSteady(rows: seq<SubscriptionRow>, options: ActivationOptions, first: SubscriptionRow, now: int,
      later: int)
    requires DistinctIds(rows) && ResolveForActivation(rows, options, now) == Some(first)
    ensures first in rows && ResolveForActivation(rows, options, later) == Some(first)
  {
    RedeliveryPicksSameRow(rows, options, first, first, now, later);
    RewriteWithItself(rows, first);
  }

  lemma RewriteWithItself(rows: seq<SubscriptionRow>, row: SubscriptionRow)
    requires DistinctIds(rows) && row in rows
    ensures Rewrite(rows, row) == rows
  {
    var k :| 0 <= k < |rows| && rows[k] == row;
  }

  /** Any number of redeliveries land on the row first chosen and leave every other row alone. */
  lemma {:induction false} EveryRedeliveryPicksSameRow(
      rows: seq<SubscriptionRow>, options: ActivationOptions, first: SubscriptionRow,
      deliveries: seq<SubscriptionRow>, now: int, later: int)
    requires DistinctIds(rows)
    requires ResolveForActivation(rows, options, now) == Some(first)
    requires NeverWeakened(first, deliveries)
    ensures var chosen := ResolveForActivation(Redeliver(rows, deliveries), options, later);
            && chosen == Some(if deliveries == [] then first else deliveries[|deliveries| - 1])
            && chosen.value.id == first.id
            && |Redeliver(rows, deliveries)| == |rows|
            && forall i :: 0 <= i < |rows| && rows[i].id != first.id ==> Redeliver(rows, deliveries)[i] == rows[i]
    decreases |deliveries|
  {
    if deliveries == [] {
      PickIsSteady(rows, options, first, now, later);
    } else {
      RedeliveryPicksSameRow(rows, options, first, deliveries[0], now, later);
      EveryRedeliveryPicksSameRow(Rewrite(rows, deliveries[0]), options, deliveries[0], deliveries[1..], later, later);
    }
  }

  /** Whether some row of the restaurant asked for exists. */
  ghost predicate HasScope(rows: seq<SubscriptionRow>, options: ActivationOptions) {
    options.restaurantId.Some? && exists i :: 0 <= i < |rows| && rows[i].restaurantId == options.restaurantId.value
  }

  /** The rows an activation chooses among: the restaurant's, else the plan's, else the account's, else all. */
  ghost predicate Competes(rows: seq<SubscriptionRow>, options: ActivationOptions, row: SubscriptionRow) {
    if HasScope(rows, options) then row.restaurantId == options.restaurantId.value
    else if options.planId.Some? then row.planId == options.planId.value
    else row.restaurantId == 0 || forall i :: 0 <= i < |rows| ==> rows[i].restaurantId != 0
  }

  lemma PickedOfAllIsFirst(rows: seq<SubscriptionRow>, row: SubscriptionRow, now: int)
    requires DistinctIds(rows)
    ensures PickCanonical(rows, now) == Some(row) <==> row in rows && NothingPrecedes(row, rows)
  {
    if rows != [] {
      PickIsFirst(rows, now);
    }
    if row in rows && NothingPrecedes(row, rows) {
      FirstIsPicked(rows, row, now);
    }
  }

  lemma UnscopedStaysExactlyWhen(rows: seq<SubscriptionRow>, options: ActivationOptions, row: SubscriptionRow, now: int)
    requires DistinctIds(rows) && !HasScope(rows, options)
    ensures ResolveUnscoped(rows, options.planId, now) == Some(row) <==>
              && row in rows && Competes(rows, options, row)
              && forall i :: 0 <= i < |rows| && Competes(rows, options, rows[i]) ==> !Precedes(rows[i], row)
  {
    match options.planId
    case Some(wanted) => PickedIsBest(rows, OnPlan(wanted), row, now);
    case None =>
      PickedIsBest(rows, InRestaurant(0), row, now);
      if Filter(rows, InRestaurant(0)) == [] {
        PickedOfAllIsFirst(rows, row, now);
      }
  }

  /** Some row has the id the options name. */
  ghost predicate NamesStored(rows: seq<SubscriptionRow>, options: ActivationOptions) {
    options.subscriptionId.Some? && exists i :: 0 <= i < |rows| && rows[i].id == options.subscriptionId.value
  }

  /** A stored id that is named is the answer, whatever else is asked for. */
  lemma NamedRowIsChosen(rows: seq<SubscriptionRow>, options: ActivationOptions, row: SubscriptionRow, now: int)
    requires DistinctIds(rows) && NamesStored(rows, options)
    ensures ResolveForActivation(rows, options, now) == Some(row) <==>
            row in rows && row.id == options.subscriptionId.value
  {
    var found := FindById(rows, options.subscriptionId.value);
    var j :| 0 <= j < |rows| && rows[j] == found.value;
    if row in rows && row.id == options.subscriptionId.value {
      var k :| 0 <= k < |rows| && rows[k] == row;
    }
  }

  /**
   * The next delivery goes to the row whose id is named, if it is stored. Otherwise, whatever the
   * options, it stays on a row exactly when no row that competes with it precedes it: a delivery that
   * weakens its row hands the next one to the rival that now precedes it.
   */
  lemma DeliveryStaysExactlyWhenNoRivalPrecedes(rows: seq<SubscriptionRow>, options: ActivationOptions,
      row: SubscriptionRow, now: int)
    requires DistinctIds(rows)
    ensures ResolveForActivation(rows, options, now) == Some(row) <==>
              && row in rows
              && if NamesStored(rows, options) then row.id == options.subscriptionId.value
                 else
                   && Competes(rows, options, row)
                   && forall i :: 0 <= i < |rows| && Competes(rows, options, rows[i]) ==> !Precedes(rows[i], row)
  {
    if NamesStored(rows, options) {
      NamedRowIsChosen(rows, options, row, now);
    } else if HasScope(rows, options) {
      PickedIsBest(rows, InRestaurant(options.restaurantId.value), row, now);
    } else {
      UnscopedStaysExactlyWhen(rows, options, row, now);
    }
  }

  // ----- The columns the order reads.

  /** The column that a status ranks by: the trial end of a trial, the period end of any other row. */
  ghost predicate RanksBy(row: SubscriptionRow, column: StoredInstant) {
    if row.status == Trial then column == row.trialEndsAt else column == row.currentPeriodEnd
  }

  /**
   * Among rows that are alike in being live or not, dead ones included, the later readable end comes
   * first, a readable one before none, and the larger id decides the rest.
   */
  lemma LaterEndComesFirst(a: SubscriptionRow, b: SubscriptionRow, x: StoredInstant, y: StoredInstant, now: int)
    requires IsLive(a) == IsLive(b) && RanksBy(a, x) && RanksBy(b, y)
    ensures CompareCanonical(a, b, now) < 0 <==>
            if x.At? && y.At? && x.ms != y.ms then x.ms > y.ms
            else if x.At? != y.At? then x.At?
            else a.id > b.id
  {
    ComparatorIsTimeless(a, b, now);
  }
}
