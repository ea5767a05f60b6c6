/** Reading the audit log: one page below a cursor, following the cursor, and grouped counts. */
module AuditPager {
  import opened Common

  datatype Category = Access | User | Subscription | Commercial | Security
  datatype Severity = Info | Warn | Failure

  datatype Event = Event(
    id: int,
    eventType: string,
    category: Category,
    severity: Severity,
    occurredAt: int,
    actorId: Option<int>,
    targetType: Option<string>,
    targetId: Option<int>,
    correlationId: Option<string>)

  datatype Filter = Filter(
    eventType: Option<string>,
    category: Option<Category>,
    severity: Option<Severity>,
    actorId: Option<int>,
    targetType: Option<string>,
    targetId: Option<int>,
    correlationId: Option<string>,
    since: Option<int>,
    until: Option<int>)

  datatype Condition =
    | EventTypeIs(text: string)
    | CategoryIs(category: Category)
    | SeverityIs(severity: Severity)
    | ActorIs(number: int)
    | TargetTypeIs(text: string)
    | TargetIs(number: int)
    | CorrelationIs(text: string)
    | OccurredFrom(instant: int)
    | OccurredUntil(instant: int)
    | IdBelow(id: int)

  predicate Holds(condition: Condition, e: Event) {
    match condition
    case EventTypeIs(text) => e.eventType == text
    case CategoryIs(category) => e.category == category
    case SeverityIs(severity) => e.severity == severity
    case ActorIs(number) => e.actorId == Some(number)
    case TargetTypeIs(text) => e.targetType == Some(text)
    case TargetIs(number) => e.targetId == Some(number)
    case CorrelationIs(text) => e.correlationId == Some(text)
    case OccurredFrom(instant) => instant <= e.occurredAt
    case OccurredUntil(instant) => e.occurredAt <= instant
    case IdBelow(id) => e.id < id
  }

  predicate AllHold(conditions: seq<Condition>, e: Event) {
    forall c :: c in conditions ==> Holds(c, e)
  }

  /** A text that is absent or empty does not filter; an absent number does not, but zero does. */
  predicate TextMatches(wanted: Option<string>, actual: Option<string>) {
    wanted.None? || wanted.value == "" || wanted == actual
  }

  predicate MatchesKind(filter: Filter, e: Event) {
    && TextMatches(filter.eventType, Some(e.eventType))
    && (filter.category.None? || filter.category.value == e.category)
    && (filter.severity.None? || filter.severity.value == e.severity)
  }

  predicate MatchesParties(filter: Filter, e: Event) {
    && (filter.actorId.None? || filter.actorId == e.actorId)
    && TextMatches(filter.targetType, e.targetType)
    && (filter.targetId.None? || filter.targetId == e.targetId)
    && TextMatches(filter.correlationId, e.correlationId)
  }

  predicate MatchesTime(filter: Filter, e: Event) {
    && (filter.since.None? || filter.since.value <= e.occurredAt)
    && (filter.until.None? || e.occurredAt <= filter.until.value)
  }

  function Matcher(filter: Filter): Event -> bool {
    e => MatchesKind(filter, e) && MatchesParties(filter, e) && MatchesTime(filter, e)
  }

  predicate Below(e: Event, cursor: Option<int>) {
    cursor.None? || e.id < cursor.value
  }

  lemma PushHolds(conditions: seq<Condition>, condition: Condition)
    ensures forall e :: AllHold(conditions + [condition], e) <==> AllHold(conditions, e) && Holds(condition, e)
  {
    forall e ensures AllHold(conditions + [condition], e) <==> AllHold(conditions, e) && Holds(condition, e) {
      assert forall c :: c in conditions + [condition] <==> c in conditions || c == condition;
    }
  }

  method PushKind(filter: Filter, pushed: seq<Condition>) returns (conditions: seq<Condition>)
    ensures forall e :: AllHold(conditions, e) <==> AllHold(pushed, e) && MatchesKind(filter, e)
  {
    conditions := pushed;
    if filter.eventType.Some? && filter.eventType.value != "" {
      PushHolds(conditions, EventTypeIs(filter.eventType.value));
      conditions := conditions + [EventTypeIs(filter.eventType.value)];
    }
    if filter.category.Some? {
      PushHolds(conditions, CategoryIs(filter.category.value));
      conditions := conditions + [CategoryIs(filter.category.value)];
    }
    if filter.severity.Some? {
      PushHolds(conditions, SeverityIs(filter.severity.value));
      conditions := conditions + [SeverityIs(filter.severity.value)];
    }
  }

  method PushParties(filter: Filter, pushed: seq<Condition>) returns (conditions: seq<Condition>)
    ensures forall e :: AllHold(conditions, e) <==> AllHold(pushed, e) && MatchesParties(filter, e)
  {
    conditions := pushed;
    if filter.actorId.Some? {
      PushHolds(conditions, ActorIs(filter.actorId.value));
      conditions := conditions + [ActorIs(filter.actorId.value)];
    }
    if filter.targetType.Some? && filter.targetType.value != "" {
      PushHolds(conditions, TargetTypeIs(filter.targetType.value));
      conditions := conditions + [TargetTypeIs(filter.targetType.value)];
    }
    if filter.targetId.Some? {
      PushHolds(conditions, TargetIs(filter.targetId.value));
      conditions := conditions + [TargetIs(filter.targetId.value)];
    }
    if filter.correlationId.Some? && filter.correlationId.value != "" {
      PushHolds(conditions, CorrelationIs(filter.correlationId.value));
      conditions := conditions + [CorrelationIs(filter.correlationId.value)];
    }
  }

  method PushTime(filter: Filter, pushed: seq<Condition>) returns (conditions: seq<Condition>)
    ensures forall e :: AllHold(conditions, e) <==> AllHold(pushed, e) && MatchesTime(filter, e)
  {
    conditions := pushed;
    if filter.since.Some? {
      PushHolds(conditions, OccurredFrom(filter.since.value));
      conditions := conditions + [OccurredFrom(filter.since.value)];
    }
    if filter.until.Some? {
      PushHolds(conditions, OccurredUntil(filter.until.value));
      conditions := conditions + [OccurredUntil(filter.until.value)];
    }
  }

  /** Each condition is pushed only when its filter field is set. */
  method BuildListConditions(filter: Filter) returns (conditions: seq<Condition>)
    ensures forall e :: AllHold(conditions, e) <==> Matcher(filter)(e)
  {
    conditions := PushKind(filter, []);
    conditions := PushParties(filter, conditions);
    conditions := PushTime(filter, conditions);
  }

  // ----- The table and one page.

  /** Rows are appended under growing ids. */
  ghost predicate Ascending(table: seq<Event>) {
    forall i, j :: 0 <= i < j < |table| ==> table[i].id < table[j].id
  }

  /** The database's answer: the first `n` rows, by id descending, on which all conditions hold. */
  function SelectNewest(table: seq<Event>, conditions: seq<Condition>, n: nat): seq<Event> {
    if table == [] || n == 0 then []
    else
      var last, older := table[|table| - 1], table[..|table| - 1];
      if AllHold(conditions, last) then [last] + SelectNewest(older, conditions, n - 1)
      else SelectNewest(older, conditions, n)
  }

  /** All matching rows below a cursor, newest first: what one query without a limit returns. */
  function AllBelow(table: seq<Event>, keep: Event -> bool, cursor: Option<int>): seq<Event> {
    if table == [] then []
    else
      var last, older := table[|table| - 1], table[..|table| - 1];
      (if keep(last) && Below(last, cursor) then [last] else []) + AllBelow(older, keep, cursor)
  }

  datatype Page = Page(items: seq<Event>, nextCursor: Option<int>)

  /** A page is full and points below its last row if more rows follow, and else holds them all. */
  ghost predicate IsPage(page: Page, table: seq<Event>, keep: Event -> bool, cursor: Option<int>, limit: nat) {
    var all := AllBelow(table, keep, cursor);
    if limit == 0 then page == Page([], None)
    else if |all| <= limit then page == Page(all, None)
    else page == Page(all[..limit], Some(all[limit - 1].id))
  }

  function Prefix(rows: seq<Event>, n: nat): seq<Event> {
    if |rows| <= n then rows else rows[..n]
  }

  lemma PrefixOfCons(first: Event, rest: seq<Event>, n: nat)
    requires n >= 1
    ensures Prefix([first] + rest, n) == [first] + Prefix(rest, n - 1)
  {
  }

  lemma {:induction false} SelectIsPrefixOfAll(table: seq<Event>, conditions: seq<Condition>, keep: Event -> bool,
      cursor: Option<int>, n: nat)
    requires forall e :: AllHold(conditions, e) <==> keep(e) && Below(e, cursor)
    ensures SelectNewest(table, conditions, n) == Prefix(AllBelow(table, keep, cursor), n)
  {
    if table != [] && n != 0 {
      var last, older := table[|table| - 1], table[..|table| - 1];
      if AllHold(conditions, last) {
        SelectIsPrefixOfAll(older, conditions, keep, cursor, n - 1);
        PrefixOfCons(last, AllBelow(older, keep, cursor), n);
      } else {
        SelectIsPrefixOfAll(older, conditions, keep, cursor, n);
        assert AllBelow(table, keep, cursor) == AllBelow(older, keep, cursor);
      }
    }
  }

  /** The page made of an answer that asked for one row more than the limit. */
  function PageOf(rows: seq<Event>, limit: nat): Page {
    var items := Prefix(rows, limit);
    Page(items, if |rows| > limit && items != [] then Some(items[|items| - 1].id) else None)
  }

  lemma PageOfAnswerIsPage(table: seq<Event>, keep: Event -> bool, cursor: Option<int>, limit: nat, rows: seq<Event>)
    requires rows == Prefix(AllBelow(table, keep, cursor), limit + 1)
    ensures IsPage(PageOf(rows, limit), table, keep, cursor, limit)
  {
    assert Prefix(rows, limit) == Prefix(AllBelow(table, keep, cursor), limit);
  }

  /** One row more than the limit is asked for, to see whether another page follows. */
  method ListAuditEvents(table: seq<Event>, filter: Filter, limit: nat, cursor: Option<int>) returns (page: Page)
    ensures IsPage(page, table, Matcher(filter), cursor, limit)
  {
    var conditions := BuildListConditions(filter);
    if cursor.Some? {
      PushHolds(conditions, IdBelow(cursor.value));
      conditions := conditions + [IdBelow(cursor.value)];
    }
    var rows := SelectNewest(table, conditions, limit + 1);
    SelectIsPrefixOfAll(table, conditions, Matcher(filter), cursor, limit + 1);
    PageOfAnswerIsPage(table, Matcher(filter), cursor, limit, rows);
    var hasMore := |rows| > limit;
    var items := if hasMore then rows[..limit] else rows;
    var nextCursor := if hasMore && |items| > 0 then Some(items[|items| - 1].id) else None;
    page := Page(items, nextCursor);
  }

  // ----- Following the cursor.

  /** One request of a walk: the table then, the rows its filter keeps, its limit, and its page. */
  datatype Visit = Visit(table: seq<Event>, keep: Event -> bool, limit: nat, page: Page)

  /** Each request carries the cursor of the page before; the table may have grown in between. */
  ghost predicate IsWalk(walk: seq<Visit>, cursor: Option<int>)
    decreases |walk|
  {
    walk != [] ==>
      var visit := walk[0];
      && visit.limit >= 1 && Ascending(visit.table)
      && IsPage(visit.page, visit.table, visit.keep, cursor, visit.limit)
      && (|walk| > 1 ==> visit.page.nextCursor.Some? && visit.table <= walk[1].table)
      && IsWalk(walk[1..], visit.page.nextCursor)
  }

  ghost function Delivered(walk: seq<Visit>): seq<Event>
    decreases |walk|
  {
    if walk == [] then [] else walk[0].page.items + Delivered(walk[1..])
  }

  ghost function EndCursor(walk: seq<Visit>): Option<int>
    requires walk != []
  {
    walk[|walk| - 1].page.nextCursor
  }

  ghost predicate Descends(rows: seq<Event>) {
    forall i, j :: 0 <= i < j < |rows| ==> rows[i].id > rows[j].id
  }

  lemma {:induction false} AllBelowSelects(table: seq<Event>, keep: Event -> bool, cursor: Option<int>)
    requires Ascending(table)
    ensures var all := AllBelow(table, keep, cursor);
            && |all| <= |table| && Descends(all)
            && (forall e :: e in all <==> e in table && keep(e) && Below(e, cursor))
  {
    if table != [] {
      var last, older := table[|table| - 1], table[..|table| - 1];
      AllBelowSelects(older, keep, cursor);
      assert table == older + [last];
      assert forall e :: e in AllBelow(older, keep, cursor) ==> e.id < last.id;
    }
  }

  /** Of some rows, those below an id. */
  function BelowIn(rows: seq<Event>, id: int): seq<Event> {
    if rows == [] then []
    else (if rows[0].id < id then [rows[0]] else []) + BelowIn(rows[1..], id)
  }

  /** A lower cursor keeps the rows below it. */
  lemma {:induction false} LowerCursor(table: seq<Event>, keep: Event -> bool, cursor: Option<int>, id: int)
    requires cursor.Some? ==> id <= cursor.value
    ensures BelowIn(AllBelow(table, keep, cursor), id) == AllBelow(table, keep, Some(id))
  {
    if table != [] {
      var last, older := table[|table| - 1], table[..|table| - 1];
      var below := AllBelow(older, keep, cursor);
      LowerCursor(older, keep, cursor, id);
      if keep(last) && Below(last, cursor) {
        assert ([last] + below)[1..] == below;
      } else {
        assert AllBelow(table, keep, cursor) == below;
      }
    }
  }

  lemma {:induction false} AllAreBelow(rows: seq<Event>, id: int)
    requires forall i :: 0 <= i < |rows| ==> rows[i].id < id
    ensures BelowIn(rows, id) == rows
  {
    if rows != [] {
      AllAreBelow(rows[1..], id);
    }
  }

  /** In a descending list the rows below one of its rows are those behind it. */
  lemma {:induction false} BelowRowIsBehind(rows: seq<Event>, n: nat)
    requires Descends(rows) && 1 <= n <= |rows|
    ensures BelowIn(rows, rows[n - 1].id) == rows[n..]
  {
    var rest := rows[1..];
    if n == 1 {
      AllAreBelow(rest, rows[0].id);
    } else {
      BelowRowIsBehind(rest, n - 1);
      assert rest[n - 2] == rows[n - 1] && rest[n - 1..] == rows[n..];
    }
  }

  /** Cutting the list behind one of its rows leaves the rows below that row. */
  lemma CutBehindRow(table: seq<Event>, keep: Event -> bool, cursor: Option<int>, n: nat, all: seq<Event>)
    requires Ascending(table) && all == AllBelow(table, keep, cursor) && 1 <= n <= |all|
    ensures all[n - 1] in table && Below(all[n - 1], cursor) && all[n..] == AllBelow(table, keep, Some(all[n - 1].id))
  {
    AllBelowSelects(table, keep, cursor);
    assert all[n - 1] in all;
    BelowRowIsBehind(all, n);
    LowerCursor(table, keep, cursor, all[n - 1].id);
  }

  /** Rows appended under ids at or above the cursor change nothing below it. */
  lemma {:induction false} AppendsAreInvisible(table: seq<Event>, grown: seq<Event>, keep: Event -> bool, cursor: int)
    requires table <= grown && forall i :: |table| <= i < |grown| ==> grown[i].id >= cursor
    ensures AllBelow(grown, keep, Some(cursor)) == AllBelow(table, keep, Some(cursor))
    decreases |grown|
  {
    if |table| == |grown| {
      assert table == grown;
    } else {
      AppendsAreInvisible(table, grown[..|grown| - 1], keep, cursor);
    }
  }

  ghost function StillBelow(table: seq<Event>, keep: Event -> bool, end: Option<int>): seq<Event> {
    if end.None? then [] else AllBelow(table, keep, end)
  }

  /** A page and what it leaves for the following ones; a page with a next cursor is full. */
  lemma PageSplitsQuery(visit: Visit, cursor: Option<int>)
    requires Ascending(visit.table) && visit.limit >= 1
    requires IsPage(visit.page, visit.table, visit.keep, cursor, visit.limit)
    ensures AllBelow(visit.table, visit.keep, cursor) ==
            visit.page.items + StillBelow(visit.table, visit.keep, visit.page.nextCursor)
    ensures visit.page.nextCursor.Some? ==>
              && |visit.page.items| == visit.limit
              && visit.page.items[visit.limit - 1] in visit.table
              && visit.page.items[visit.limit - 1].id == visit.page.nextCursor.value
              && Below(visit.page.items[visit.limit - 1], cursor)
  {
    var all := AllBelow(visit.table, visit.keep, cursor);
    if |all| > visit.limit {
      CutBehindRow(visit.table, visit.keep, cursor, visit.limit, all);
      Rejoin(all, visit.limit);
      assert visit.page.items == all[..visit.limit] && visit.page.items[visit.limit - 1] == all[visit.limit - 1];
    } else {
      Rejoin(all, |all|);
      assert visit.page.items == all;
    }
  }

  lemma Rejoin(rows: seq<Event>, n: nat)
    requires n <= |rows|
    ensures rows == rows[..n] + rows[n..] && (n == |rows| ==> rows == rows + [])
  {
  }

  /** A walk's cursors only move down. */
  lemma {:induction false} EndIsBelow(walk: seq<Visit>, cursor: int)
    requires walk != [] && IsWalk(walk, Some(cursor))
    ensures EndCursor(walk).Some? ==> EndCursor(walk).value < cursor
    decreases |walk|
  {
    PageSplitsQuery(walk[0], Some(cursor));
    if |walk| > 1 {
      EndIsBelow(walk[1..], walk[0].page.nextCursor.value);
    }
  }

  /** What a table holds below any row's id, it holds after growing. */
  lemma GrowthIsInvisibleBelow(table: seq<Event>, grown: seq<Event>, keep: Event -> bool, row: Event, cursor: int)
    requires table <= grown && Ascending(grown) && row in table && cursor <= row.id
    ensures AllBelow(grown, keep, Some(cursor)) == AllBelow(table, keep, Some(cursor))
  {
    AppendsAreInvisible(table, grown, keep, cursor);
  }

  /** Below the first cursor, the rest of a walk meets the rows of the first table. */
  lemma RestOnFirstTable(walk: seq<Visit>, keep: Event -> bool, cursor: Option<int>)
    requires |walk| > 1 && IsWalk(walk, cursor)
    ensures var next := walk[0].page.nextCursor;
            && AllBelow(walk[1].table, keep, next) == AllBelow(walk[0].table, keep, next)
            && StillBelow(walk[1].table, keep, EndCursor(walk)) == StillBelow(walk[0].table, keep, EndCursor(walk))
  {
    var visit, rest := walk[0], walk[1..];
    PageSplitsQuery(visit, cursor);
    var last := visit.page.items[visit.limit - 1];
    EndIsBelow(rest, last.id);
    GrowthIsInvisibleBelow(visit.table, rest[0].table, keep, last, last.id);
    if EndCursor(rest).Some? {
      GrowthIsInvisibleBelow(visit.table, rest[0].table, keep, last, EndCursor(rest).value);
    }
  }

  ghost predicate SameFilter(walk: seq<Visit>, keep: Event -> bool) {
    forall i :: 0 <= i < |walk| ==> walk[i].keep == keep
  }

  lemma FirstPageThenRest(walk: seq<Visit>, keep: Event -> bool, cursor: Option<int>)
    requires |walk| > 1 && IsWalk(walk, cursor) && SameFilter(walk, keep)
    ensures IsWalk(walk[1..], walk[0].page.nextCursor) && SameFilter(walk[1..], keep)
    ensures EndCursor(walk[1..]) == EndCursor(walk)
    ensures AllBelow(walk[0].table, keep, cursor) == walk[0].page.items + AllBelow(walk[1].table, keep,
        walk[0].page.nextCursor)
  {
    PageSplitsQuery(walk[0], cursor);
    RestOnFirstTable(walk, keep, cursor);
  }

  /**
   * With one filter, the pages met so far followed by the rows still below the cursor are what a
   * single query without a limit returns on the first table, whatever was appended meanwhile.
   */
  lemma {:induction false} PagesPartitionTheQuery(walk: seq<Visit>, keep: Event -> bool, cursor: Option<int>)
    requires walk != [] && IsWalk(walk, cursor) && SameFilter(walk, keep)
    ensures AllBelow(walk[0].table, keep, cursor) == Delivered(walk) + StillBelow(walk[0].table, keep, EndCursor(walk))
    decreases |walk|
  {
    if |walk| == 1 {
      PageSplitsQuery(walk[0], cursor);
      assert Delivered(walk) == walk[0].page.items + Delivered(walk[1..]);
    } else {
      FirstPageThenRest(walk, keep, cursor);
      PagesPartitionTheQuery(walk[1..], keep, walk[0].page.nextCursor);
      RestOnFirstTable(walk, keep, cursor);
      Regroup(walk[0].page.items, Delivered(walk[1..]), StillBelow(walk[0].table, keep, EndCursor(walk)));
    }
  }

  lemma Regroup(a: seq<Event>, b: seq<Event>, c: seq<Event>)
    ensures a + (b + c) == (a + b) + c
  {
  }

  lemma ItemsDescend(visit: Visit, cursor: Option<int>)
    requires Ascending(visit.table) && visit.limit >= 1
    requires IsPage(visit.page, visit.table, visit.keep, cursor, visit.limit)
    ensures Descends(visit.page.items)
    ensures forall e :: e in visit.page.items ==>
              Below(e, cursor) && (visit.page.nextCursor.Some? ==> e.id >= visit.page.nextCursor.value)
  {
    var all := AllBelow(visit.table, visit.keep, cursor);
    AllBelowSelects(visit.table, visit.keep, cursor);
    forall i | 0 <= i < |visit.page.items| ensures visit.page.items[i] in all {
      assert visit.page.items[i] == all[i];
    }
  }

  lemma JoinDescends(items: seq<Event>, later: seq<Event>, next: Option<int>)
    requires Descends(items) && Descends(later)
    requires forall e :: e in items && next.Some? ==> e.id >= next.value
    requires if next.None? then later == [] else forall e :: e in later ==> e.id < next.value
    ensures Descends(items + later)
  {
    var joined := items + later;
    forall i, j | 0 <= i < j < |joined| ensures joined[i].id > joined[j].id {
      if i < |items| <= j {
        assert items[i] in items && later[j - |items|] in later;
      }
    }
  }

  lemma {:induction false} DeliveredDescends(walk: seq<Visit>, cursor: Option<int>)
    requires IsWalk(walk, cursor)
    ensures Descends(Delivered(walk)) && forall e :: e in Delivered(walk) ==> Below(e, cursor)
    decreases |walk|
  {
    if walk != [] {
      DeliveredDescends(walk[1..], walk[0].page.nextCursor);
      ItemsDescend(walk[0], cursor);
      PageSplitsQuery(walk[0], cursor);
      JoinDescends(walk[0].page.items, Delivered(walk[1..]), walk[0].page.nextCursor);
    }
  }

  /**
   * Paging to the end under one filter returns what one query without a limit returns on the table
   * the first page saw: every matching event once, newest first, in full pages but for the last.
   */
  lemma PagingIsOneQuery(walk: seq<Visit>, keep: Event -> bool)
    requires walk != [] && IsWalk(walk, None) && SameFilter(walk, keep) && EndCursor(walk).None?
    ensures Delivered(walk) == AllBelow(walk[0].table, keep, None)
    ensures Descends(Delivered(walk)) && forall e :: e in Delivered(walk) <==> e in walk[0].table && keep(e)
    ensures forall i :: 0 <= i < |walk| - 1 ==> |walk[i].page.items| == walk[i].limit
  {
    PagesPartitionTheQuery(walk, keep, None);
    AllBelowSelects(walk[0].table, keep, None);
    PagesAreFull(walk, None);
  }

  /** A walk has at most one page more than the first table has rows: it ends. */
  lemma PagingEnds(walk: seq<Visit>, keep: Event -> bool, cursor: Option<int>)
    requires walk != [] && IsWalk(walk, cursor) && SameFilter(walk, keep)
    ensures |walk| <= |walk[0].table| + 1
  {
    PagesPartitionTheQuery(walk, keep, cursor);
    AllBelowSelects(walk[0].table, keep, cursor);
    PagesAreFull(walk, cursor);
  }

  lemma {:induction false} PagesAreFull(walk: seq<Visit>, cursor: Option<int>)
    requires IsWalk(walk, cursor)
    ensures forall i :: 0 <= i < |walk| && walk[i].page.nextCursor.Some? ==> |walk[i].page.items| == walk[i].limit
    ensures forall i :: 0 <= i < |walk| - 1 ==> walk[i].page.nextCursor.Some?
    ensures |Delivered(walk)| >= |walk| - 1
    decreases |walk|
  {
    if walk != [] {
      PageSplitsQuery(walk[0], cursor);
      PagesAreFull(walk[1..], walk[0].page.nextCursor);
      forall i | 0 < i < |walk| ensures walk[i] == walk[1..][i - 1] {
      }
    }
  }

  // ----- A filter that moves between pages.

  /** The page of a finished walk whose cursor range holds an id. */
  ghost function Covering(walk: seq<Visit>, id: int): (i: nat)
    requires walk != [] && (forall i :: 0 <= i < |walk| - 1 ==> walk[i].page.nextCursor.Some?) && EndCursor(walk).None?
    ensures i < |walk|
    decreases |walk|
  {
    if walk[0].page.nextCursor.None? || walk[0].page.nextCursor.value <= id then 0
    else 1 + Covering(walk[1..], id)
  }

  /** The first page settles the events at or above its next cursor; the rest settles those below. */
  lemma FirstPageSettles(walk: seq<Visit>, cursor: Option<int>, e: Event)
    requires walk != [] && IsWalk(walk, cursor) && e in walk[0].table && Below(e, cursor)
    ensures var next := walk[0].page.nextCursor;
            e in Delivered(walk) <==>
              if next.Some? && e.id < next.value then e in Delivered(walk[1..])
              else walk[0].keep(e) || (next.None? && e in Delivered(walk[1..]))
  {
    var visit, rest := walk[0], walk[1..];
    PageSplitsQuery(visit, cursor);
    AllBelowSelects(visit.table, visit.keep, cursor);
    DeliveredDescends(rest, visit.page.nextCursor);
    if visit.page.nextCursor.Some? {
      AllBelowSelects(visit.table, visit.keep, visit.page.nextCursor);
      ItemsDescend(visit, cursor);
    }
  }

  /**
   * When each page may filter differently, an event of the first table is still returned at most
   * once, and exactly when the filter of the page that covers its id keeps it.
   */
  lemma {:induction false} DeliveredExactlyWhenCoveringPageKeeps(walk: seq<Visit>, cursor: Option<int>, e: Event)
    requires walk != [] && IsWalk(walk, cursor) && EndCursor(walk).None?
    requires e in walk[0].table && Below(e, cursor)
    ensures Descends(Delivered(walk))
    ensures forall i :: 0 <= i < |walk| - 1 ==> walk[i].page.nextCursor.Some?
    ensures e in Delivered(walk) <==> walk[Covering(walk, e.id)].keep(e)
    decreases |walk|
  {
    DeliveredDescends(walk, cursor);
    PagesAreFull(walk, cursor);
    FirstPageSettles(walk, cursor, e);
    var next := walk[0].page.nextCursor;
    if next.Some? && e.id < next.value {
      DeliveredExactlyWhenCoveringPageKeeps(walk[1..], next, e);
    }
  }

  const MS_PER_DAY := 24 * 60 * 60 * 1000
  const AUDIT_MAX_RANGE_DAYS := 90
  const AUDIT_STATS_DEFAULT_RANGE_DAYS := 7

  /** The date range of a request: absent bounds are filled from the clock. */
  function ResolveAuditDateRange(since: Option<int>, until: Option<int>, defaultRangeDays: Option<int>, now: int)
    : (range: Option<(int, int)>)
    ensures range.Some? ==> range.value.0 <= range.value.1 <= range.value.0 + AUDIT_MAX_RANGE_DAYS * MS_PER_DAY
    ensures since.Some? && until.Some? ==>
              (range.Some? <==> since.value <= until.value <= since.value + AUDIT_MAX_RANGE_DAYS * MS_PER_DAY)
    ensures range.Some? && since.Some? ==> range.value.0 == since.value
    ensures range.Some? ==> range.value.1 == if until.Some? then until.value else now
    ensures range.Some? && since.None? ==>
              range.value.1 - range.value.0 == 86_400_000 * if defaultRangeDays.Some? then defaultRangeDays.value else 7
    ensures since.None? && (defaultRangeDays.Some? ==> 0 <= defaultRangeDays.value <= 90) ==> range.Some?
  {
    var days := if defaultRangeDays.Some? then defaultRangeDays.value else AUDIT_STATS_DEFAULT_RANGE_DAYS;
    var end := if until.Some? then until.value else now;
    var start := if since.Some? then since.value else end - days * MS_PER_DAY;
    if start > end || end - start > AUDIT_MAX_RANGE_DAYS * MS_PER_DAY then None else Some((start, end))
  }

  const NO_FILTER := Filter(None, None, None, None, None, None, None, None, None)

  /** The filter of a request that names no dates: the ninety days before the request. */
  function DefaultFilter(now: int): Filter {
    var range := ResolveAuditDateRange(None, None, Some(AUDIT_MAX_RANGE_DAYS), now).value;
    NO_FILTER.(since := Some(range.0), until := Some(range.1))
  }

  /**
   * A request that names no dates gets a new range for every page. An event that the first page's
   * range holds can leave it before the page that covers it is asked for, and is then never returned.
   */
  lemma DefaultRangeSkipsEvent() returns (walk: seq<Visit>, asked: seq<int>, e: Event)
    ensures IsWalk(walk, None) && |walk| == |asked| == 2 && asked[0] < asked[1] && EndCursor(walk).None?
    ensures walk[0].table == walk[1].table && e in walk[0].table
    ensures forall i :: 0 <= i < 2 ==> walk[i].keep == Matcher(DefaultFilter(asked[i]))
    ensures walk[0].keep(e) && e !in Delivered(walk)
  {
    var start := AUDIT_MAX_RANGE_DAYS * MS_PER_DAY;
    e := Event(1, "a", Access, Info, 0, None, None, None, None);
    var newer := e.(id := 2, occurredAt := start);
    var table := [e, newer];
    asked := [start, start + 1];
    var first := Matcher(DefaultFilter(start));
    var second := Matcher(DefaultFilter(start + 1));
    walk := [Visit(table, first, 1, Page([newer], Some(2))), Visit(table, second, 1, Page([], None))];
    assert table[..1] == [e];
    assert first(e) && first(newer) && !second(e);
    assert AllBelow([e], first, None) == [e];
    assert AllBelow(table, first, None) == [newer, e];
    assert AllBelow([e], second, Some(2)) == [];
    assert AllBelow(table, second, Some(2)) == [];
    assert walk[1..] == [walk[1]] && walk[1..][1..] == [];
    assert Delivered(walk[1..]) == [];
    assert Delivered(walk) == [newer];
  }

  const AUDIT_LIST_DEFAULT_LIMIT := 50
  const AUDIT_LIST_MAX_LIMIT := 200

  /** A limit as it arrives: absent, infinite or not a number, or a number that may have a fraction. */
  datatype Limit = Absent | NotFinite | Finite(value: real)

  /** At least one row and at most two hundred, so every page with a next cursor makes progress. */
  function ClampAuditListLimit(limit: Limit): (clamped: nat)
    ensures 1 <= clamped <= AUDIT_LIST_MAX_LIMIT
    ensures !limit.Finite? ==> clamped == 50
    ensures limit.Finite? ==>
              if limit.value >= 201.0 then clamped == AUDIT_LIST_MAX_LIMIT
              else if limit.value < 1.0 then clamped == 1
              else clamped as real <= limit.value < clamped as real + 1.0
  {
    if !limit.Finite? then AUDIT_LIST_DEFAULT_LIMIT
    else
      var rounded := limit.value.Floor;
      if rounded < 1 then 1 else if rounded < AUDIT_LIST_MAX_LIMIT then rounded else AUDIT_LIST_MAX_LIMIT
  }

  // ----- Grouped counts.

  ghost function CountKey<K>(events: seq<Event>, key: Event -> K, k: K): nat {
    if events == [] then 0 else (if key(events[0]) == k then 1 else 0) + CountKey(events[1..], key, k)
  }

  /** The database's answer to a count grouped by `key`: one row for each value that occurs. */
  ghost predicate IsGrouping<K(!new)>(rows: seq<(K, nat)>, events: seq<Event>, key: Event -> K) {
    && (forall i, j :: 0 <= i < j < |rows| ==> rows[i].0 != rows[j].0)
    && (forall i :: 0 <= i < |rows| ==> rows[i].1 == CountKey(events, key, rows[i].0) > 0)
    && (forall e :: e in events ==> exists i :: 0 <= i < |rows| && rows[i].0 == key(e))
  }

  /** A text-keyed record filled from the grouped rows. */
  method FillCounts<K(!new)>(ghost events: seq<Event>, ghost key: Event -> K,
      rows: seq<(K, nat)>) returns (counts: map<K, nat>)
    requires IsGrouping(rows, events, key)
    ensures forall k :: (if k in counts then counts[k] else 0) == CountKey(events, key, k)
  {
    counts := map[];
    for i := 0 to |rows|
      invariant forall k :: k in counts <==> exists j :: 0 <= j < i && rows[j].0 == k
      invariant forall j :: 0 <= j < i ==> counts[rows[j].0] == rows[j].1
    {
      counts := counts[rows[i].0 := rows[i].1];
    }
    forall k | k !in counts ensures CountKey(events, key, k) == 0 {
      NoneToCount(events, key, k);
    }
  }

  lemma {:induction false} NoneToCount<K(!new)>(events: seq<Event>, key: Event -> K, k: K)
    requires forall e :: e in events ==> key(e) != k
    ensures CountKey(events, key, k) == 0
  {
    if events != [] {
      NoneToCount(events[1..], key, k);
    }
  }

  function CategoryOf(e: Event): Category { e.category }

  function SeverityOf(e: Event): Severity { e.severity }

  function InRange(events: seq<Event>, since: int, until: int): seq<Event> {
    if events == [] then []
    else (if since <= events[0].occurredAt <= until then [events[0]] else []) + InRange(events[1..], since, until)
  }

  /** The range holds each event with its times as often as the table, and no other. */
  lemma {:induction false} InRangeKeepsExactly(events: seq<Event>, since: int, until: int, e: Event)
    ensures multiset(InRange(events, since, until))[e] ==
            if since <= e.occurredAt && e.occurredAt <= until then multiset(events)[e] else 0
  {
    if events != [] {
      InRangeKeepsExactly(events[1..], since, until, e);
      assert events == [events[0]] + events[1..];
    }
  }

  function Count<K>(counts: map<K, nat>, k: K): nat {
    if k in counts then counts[k] else 0
  }

  datatype Stats = Stats(total: nat, today: nat, byCategory: map<Category, nat>, bySeverity: map<Severity, nat>)

  /** The table as the four queries find it, one after another. */
  datatype Tables = Tables(total: seq<Event>, today: seq<Event>, categories: seq<Event>, severities: seq<Event>)

  /** Rows are only appended between the queries. */
  ghost predicate Grows(tables: Tables) {
    tables.total <= tables.today <= tables.categories <= tables.severities
  }

  /** The events of the range that were appended between two queries. */
  function AppendedBetween(earlier: seq<Event>, later: seq<Event>, since: int, until: int): seq<Event>
    requires earlier <= later
  {
    InRange(later[|earlier|..], since, until)
  }

  lemma {:induction false} InRangeConcat(a: seq<Event>, b: seq<Event>, since: int, until: int)
    ensures InRange(a + b, since, until) == InRange(a, since, until) + InRange(b, since, until)
  {
    if a == [] {
      assert a + b == b;
    } else {
      assert (a + b)[1..] == a[1..] + b;
      InRangeConcat(a[1..], b, since, until);
    }
  }

  lemma AppendedAreTheDifference(earlier: seq<Event>, later: seq<Event>, since: int, until: int)
    requires earlier <= later
    ensures |InRange(later, since, until)| == |InRange(earlier, since, until)| + |AppendedBetween(earlier, later,
        since, until)|
  {
    assert later == earlier + later[|earlier|..];
    InRangeConcat(earlier, later[|earlier|..], since, until);
  }

  function SumOfCategories(counts: map<Category, nat>): nat {
    Count(counts, Access) + Count(counts, User) + Count(counts, Subscription) + Count(counts,
        Commercial) + Count(counts, Security)
  }

  function SumOfSeverities(counts: map<Severity, nat>): nat {
    Count(counts, Info) + Count(counts, Warn) + Count(counts, Failure)
  }

  /**
   * Four queries, each on the table as it then is. Each group holds its count, and each grouping
   * exceeds the total by the events of the range appended since the total was counted; so it adds
   * up to the total exactly when there is none. `today` counts from its own start, without an end.
   */
  method GetAuditEventStats(tables: Tables, since: int, until: int, todayStart: int,
      categoryRows: seq<(Category, nat)>, severityRows: seq<(Severity, nat)>)
    returns (stats: Stats)
    requires Grows(tables)
    requires IsGrouping(categoryRows, InRange(tables.categories, since, until), CategoryOf)
    requires IsGrouping(severityRows, InRange(tables.severities, since, until), SeverityOf)
    ensures stats.total == |InRange(tables.total, since, until)|
    ensures stats.today == CountKey(tables.today, (e: Event) => e.occurredAt >= todayStart, true)
    ensures forall c :: Count(stats.byCategory, c) == CountKey(InRange(tables.categories, since, until), CategoryOf, c)
    ensures forall s :: Count(stats.bySeverity, s) == CountKey(InRange(tables.severities, since, until), SeverityOf, s)
    ensures SumOfCategories(stats.byCategory) == stats.total + |AppendedBetween(tables.total, tables.categories,
        since, until)|
    ensures SumOfSeverities(stats.bySeverity) == stats.total + |AppendedBetween(tables.total, tables.severities,
        since, until)|
    ensures SumOfCategories(stats.byCategory) == stats.total <==>
        AppendedBetween(tables.total, tables.categories, since, until) == []
    ensures SumOfSeverities(stats.bySeverity) == stats.total <==>
        AppendedBetween(tables.total, tables.severities, since, until) == []
  {
    var byCategory := FillCounts(InRange(tables.categories, since, until), CategoryOf, categoryRows);
    var bySeverity := FillCounts(InRange(tables.severities, since, until), SeverityOf, severityRows);
    stats := Stats(|InRange(tables.total, since, until)|, CountSince(tables.today, todayStart), byCategory, bySeverity);
    CountSinceIsCount(tables.today, todayStart);
    GroupsPartition(InRange(tables.categories, since, until));
    GroupsPartition(InRange(tables.severities, since, until));
    AppendedAreTheDifference(tables.total, tables.categories, since, until);
    AppendedAreTheDifference(tables.total, tables.severities, since, until);
  }

  function CountSince(events: seq<Event>, start: int): nat {
    if events == [] then 0 else (if start <= events[0].occurredAt then 1 else 0) + CountSince(events[1..], start)
  }

  lemma {:induction false} CountSinceIsCount(events: seq<Event>, start: int)
    ensures CountSince(events, start) == CountKey(events, (e: Event) => e.occurredAt >= start, true)
  {
    if events != [] {
      CountSinceIsCount(events[1..], start);
    }
  }

  lemma {:induction false} GroupsPartition(events: seq<Event>)
    ensures CountKey(events, CategoryOf, Access) + CountKey(events, CategoryOf, User) + CountKey(events, CategoryOf,
        Subscription)
            + CountKey(events, CategoryOf, Commercial) + CountKey(events, CategoryOf, Security) == |events|
    ensures CountKey(events, SeverityOf, Info) + CountKey(events, SeverityOf, Warn) + CountKey(events, SeverityOf,
        Failure) == |events|
  {
    if events != [] {
      GroupsPartition(events[1..]);
      var byCategory, bySeverity := CategoryOf, SeverityOf;
      assert byCategory(events[0]) == events[0].category && bySeverity(events[0]) == events[0].severity;
    }
  }
}
