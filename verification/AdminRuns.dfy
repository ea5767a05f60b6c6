/**
 * Whole runs of commands on the tables. Requests of any owners arrive one after another and share
 * one source of ids; every subscription then has the history that the account functions describe.
 */
module AdminRuns {
  import opened Common
  import opened Entitlement
  import opened Resolver
  import opened Accounts
  import opened AccountRuns
  import opened CommercialStore
  import opened AdminCommands
  import C = Concessions
  import T = ChargedTerms

  /** An admin command names an owner; a snapshot of a payment names its subscription. */
  datatype Request = Request(address: int, command: Command, now: int)

  /** What a request came to: the subscription it was carried out on, if any, and the command as it ran. */
  datatype Step = Step(target: Option<int>, timed: Timed)

  /** Every account is sound, and the next id is new to it. */
  ghost predicate AllReady(db: Tables, clock: int)
    reads db
  {
    forall s :: Ready(db.AccountAt(s), s, db.nextId, clock)
  }

  ghost predicate IsSchedule(requests: seq<Request>, clock: int)
    decreases |requests|
  {
    requests != [] ==>
      var t := Timed(requests[0].command, requests[0].now, 0);
      IsTimely(t, clock) && IsSchedule(requests[1..], Finish(t))
  }

  function ClockAfterRequests(requests: seq<Request>, clock: int): int
    decreases |requests|
  {
    if requests == [] then clock
    else ClockAfterRequests(requests[1..], Finish(Timed(requests[0].command, requests[0].now, 0)))
  }

  /** The steps carried out on one subscription, in order. */
  function TraceOf(steps: seq<Step>, s: int): seq<Timed>
    decreases |steps|
  {
    if steps == [] then []
    else (if steps[0].target == Some(s) then [steps[0].timed] else []) + TraceOf(steps[1..], s)
  }

  lemma RowsAreKeyed(db: Tables, clock: int)
    requires AllReady(db, clock)
    ensures forall s :: s in db.subscriptions ==> db.subscriptions[s].id == s
  {
    forall s | s in db.subscriptions ensures db.subscriptions[s].id == s {
      assert Ready(db.AccountAt(s), s, db.nextId, clock);
    }
  }

  lemma OwnedRowsAreStored(db: Tables, rows: seq<SubscriptionRow>, clock: int, finish: int)
    requires AllReady(db, clock) && clock <= finish
    requires forall row :: row in rows ==> row.id in db.subscriptions && db.subscriptions[row.id] == row
    ensures AreStored(db, rows, finish)
  {
    forall i | 0 <= i < |rows|
      ensures rows[i].id in db.subscriptions && db.subscriptions[rows[i].id] == rows[i] &&
          db.ValidBy(rows[i].id, finish)
    {
      assert rows[i] in rows;
      assert Ready(db.AccountAt(rows[i].id), rows[i].id, db.nextId, clock);
    }
  }

  /** One admin command: fetch the owner's rows and carry the command out on the one that is picked. */
  method ExecuteAdmin(db: Tables, userId: int, c: Command, now: int, ghost clock: int) returns (target: Option<int>)
    requires AllReady(db, clock) && IsTimely(Timed(c, now, db.nextId), clock) && !c.SnapshotCmd?
    modifies db
    ensures target.None? ==> unchanged(db)
    ensures target.Some? ==>
              var s := target.value;
              && db.AccountAt(s) == Apply(old(db.AccountAt(s)), s, c, now, old(db.nextId))
              && db.ValidAt(s) && old(db.nextId) <= db.nextId && db.Others(s) == old(db.Others(s))
  {
    RowsAreKeyed(db, clock);
    var rows := GetSubscriptionsByUser(db.subscriptions, userId);
    OwnedRowsAreStored(db, rows, clock, if c.ReactivateCmd? then c.later else now);
    var picked := PickUserLevel(rows, now);
    if picked.None? {
      return None;
    }
    target := Some(picked.value.id);
    match c {
      case GrantCmd(input) => var _ := ApplyAdminConcessionGrant(db, rows, input, now);
      case ReviseCmd(input) => var _ := ApplyAdminConcessionRevise(db, rows, input, now);
      case CancelCmd(reason) => var _ := ApplyAdminConcessionCancel(db, rows, reason, now);
      case ReactivateCmd(input, later) => var _ := ApplyAdminUserSubscriptionReactivate(db, rows, input, now, later);
      case UpdateCmd(input) => var _ := ApplyAdminUserSubscriptionUpdate(db, rows, input, now);
    }
  }

  /** The other accounts are what they were. */
  lemma SameMapsElsewhere<V>(m: map<int, V>, later: map<int, V>, target: int, s: int)
    requires m - {target} == later - {target} && s != target
    ensures s in m <==> s in later
    ensures s in m ==> m[s] == later[s]
  {
    assert s in m <==> s in m - {target};
    assert s in later <==> s in later - {target};
    if s in m {
      assert (m - {target})[s] == m[s] && (later - {target})[s] == later[s];
    }
  }

  /** One request, and the step it comes to. */
  method Execute(db: Tables, r: Request, ghost clock: int) returns (ghost step: Step)
    requires AllReady(db, clock) && IsTimely(Timed(r.command, r.now, 0), clock)
    modifies db
    ensures step.timed == Timed(r.command, r.now, old(db.nextId)) && old(db.nextId) <= db.nextId
    ensures step.target.None? ==> unchanged(db)
    ensures step.target.Some? ==>
              var s := step.target.value;
              && db.AccountAt(s) == Apply(old(db.AccountAt(s)), s, r.command, r.now, old(db.nextId))
              && db.ValidAt(s) && db.Others(s) == old(db.Others(s))
  {
    ghost var id := db.nextId;
    var target: Option<int>;
    if r.command.SnapshotCmd? {
      assert Ready(db.AccountAt(r.address), r.address, db.nextId, clock);
      target := Some(r.address);
      var _ := db.InsertImmutableChargedTermsSnapshot(
        r.address, r.command.offer, r.command.source, r.now, None, NO_SNAPSHOT_FAULTS);
    } else {
      target := ExecuteAdmin(db, r.address, r.command, r.now, clock);
    }
    step := Step(target, Timed(r.command, r.now, id));
  }

  /** The account of one subscription after a step: moved by the command if it was the target, and else the same. */
  function AfterStep(a: Account, s: int, step: Step): Account {
    if step.target == Some(s) then Apply(a, s, step.timed.command, step.timed.now, step.timed.id) else a
  }

  lemma StepKeepsReady(a: Account, s: int, step: Step, clock: int, nextId: nat)
    requires Ready(a, s, step.timed.id, clock) && IsTimely(step.timed, clock) && step.timed.id <= nextId
    requires step.target == Some(s) ==> C.Fresh(AfterStep(a, s, step).concessions, nextId)
    ensures Ready(AfterStep(a, s, step), s, nextId, Finish(step.timed)) && Grows(a, AfterStep(a, s, step))
  {
    if step.target == Some(s) {
      CommandIsSound(a, s, step.timed, clock);
    } else {
      LaterClockStaysSound(a, s, clock, Finish(step.timed));
      GrowsIsReflexive(a);
    }
  }

  /** After a request every account is as the step leaves it, and ready for the next. */
  method ExecuteReady(db: Tables, r: Request, ghost clock: int) returns (ghost step: Step)
    requires AllReady(db, clock) && IsTimely(Timed(r.command, r.now, 0), clock)
    modifies db
    ensures step.timed.command == r.command && step.timed.now == r.now && AllReady(db, Finish(step.timed))
    ensures forall s :: Ready(old(db.AccountAt(s)), s, step.timed.id, clock)
    ensures forall s :: db.AccountAt(s) == AfterStep(old(db.AccountAt(s)), s, step)
  {
    step := Execute(db, r, clock);
    forall s
      ensures Ready(old(db.AccountAt(s)), s, step.timed.id, clock)
      ensures db.AccountAt(s) == AfterStep(old(db.AccountAt(s)), s, step)
      ensures Ready(db.AccountAt(s), s, db.nextId, Finish(step.timed))
    {
      assert old(Ready(db.AccountAt(s), s, db.nextId, clock));
      if step.target.Some? && step.target != Some(s) {
        SameMapsElsewhere(old(db.subscriptions), db.subscriptions, step.target.value, s);
        SameMapsElsewhere(old(db.bindings), db.bindings, step.target.value, s);
        SameMapsElsewhere(old(db.concessions), db.concessions, step.target.value, s);
        SameMapsElsewhere(old(db.terms), db.terms, step.target.value, s);
      }
      StepKeepsReady(old(db.AccountAt(s)), s, step, clock, db.nextId);
    }
  }

  /**
   * Over every sequence of requests of any owners, with refusals and one shared source of ids:
   * every subscription's account is what `Run` makes of the commands carried out on it, those
   * commands came in time and with unused ids, and its ledgers are sound and have only grown.
   */
  method ExecuteAll(db: Tables, requests: seq<Request>, ghost clock: int) returns (ghost steps: seq<Step>)
    requires AllReady(db, clock) && IsSchedule(requests, clock)
    modifies db
    ensures |steps| == |requests|
    ensures forall i :: 0 <= i < |steps| ==>
          steps[i].timed.command == requests[i].command && steps[i].timed.now == requests[i].now
    ensures AllReady(db, ClockAfterRequests(requests, clock))
    ensures forall s :: IsIssued(old(db.AccountAt(s)), s, TraceOf(steps, s)) && IsTimeline(TraceOf(steps, s), clock)
    ensures forall s :: db.AccountAt(s) == Run(old(db.AccountAt(s)), s, TraceOf(steps, s))
    ensures forall s :: Grows(old(db.AccountAt(s)), db.AccountAt(s))
    decreases |requests|
  {
    if requests == [] {
      return [];
    }
    ghost var step := ExecuteReady(db, requests[0], clock);
    ghost var rest := ExecuteAll(db, requests[1..], Finish(step.timed));
    steps := [step] + rest;
    assert steps[1..] == rest;
    forall s
      ensures IsIssued(old(db.AccountAt(s)), s, TraceOf(steps, s)) && IsTimeline(TraceOf(steps, s), clock)
      ensures Run(old(db.AccountAt(s)), s, TraceOf(steps, s)) == Run(AfterStep(old(db.AccountAt(s)), s, step), s,
          TraceOf(rest, s))
      ensures Grows(old(db.AccountAt(s)), db.AccountAt(s))
    {
      PrependStep(old(db.AccountAt(s)), s, step, rest, clock);
    }
  }

  lemma PrependStep(a: Account, s: int, step: Step, rest: seq<Step>, clock: int)
    requires Ready(a, s, step.timed.id, clock) && IsTimely(step.timed, clock)
    requires var next := AfterStep(a, s, step);
             && IsIssued(next, s, TraceOf(rest, s)) && IsTimeline(TraceOf(rest, s), Finish(step.timed))
             && Grows(next, Run(next, s, TraceOf(rest, s)))
    ensures var trace := TraceOf([step] + rest, s);
            && IsIssued(a, s, trace) && IsTimeline(trace, clock)
            && Run(a, s, trace) == Run(AfterStep(a, s, step), s, TraceOf(rest, s))
            && Grows(a, Run(a, s, trace))
  {
    assert ([step] + rest)[1..] == rest;
    if step.target == Some(s) {
      assert TraceOf([step] + rest, s) == [step.timed] + TraceOf(rest, s);
      PrependToRun(a, s, step.timed, TraceOf(rest, s), clock);
    } else {
      assert TraceOf([step] + rest, s) == TraceOf(rest, s);
      EarlierClockStaysTimely(TraceOf(rest, s), clock, Finish(step.timed));
    }
  }

  lemma PrependToRun(a: Account, s: int, t: Timed, rest: seq<Timed>, clock: int)
    requires Ready(a, s, t.id, clock) && IsTimely(t, clock)
    requires var next := Apply(a, s, t.command, t.now, t.id);
             IsIssued(next, s, rest) && IsTimeline(rest, Finish(t)) && Grows(next, Run(next, s, rest))
    ensures IsIssued(a, s, [t] + rest) && IsTimeline([t] + rest, clock)
    ensures Run(a, s, [t] + rest) == Run(Apply(a, s, t.command, t.now, t.id), s, rest)
    ensures Grows(a, Run(a, s, [t] + rest))
  {
    var next := Apply(a, s, t.command, t.now, t.id);
    CommandIsSound(a, s, t, clock);
    assert ([t] + rest)[1..] == rest;
    C.ExtendsIsTransitive(a.concessions, next.concessions, Run(next, s, rest).concessions);
  }

  lemma EarlierClockStaysTimely(commands: seq<Timed>, clock: int, later: int)
    requires IsTimeline(commands, later) && clock <= later
    ensures IsTimeline(commands, clock)
  {
  }
}
