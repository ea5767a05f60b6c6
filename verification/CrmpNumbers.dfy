/**
 * Which shift numbers a register has used. While rewinds are clean, the numbers up to its sequence
 * are exactly the stored ones and the ones still under way; one unclean rewind can wedge it.
 */
module CrmpNumbers {
  import opened Common
  import opened CrmpStore
  import opened CrmpRuns

  ghost predicate UnderWay(w: World, key: RegisterKey, number: int) {
    exists open :: open in w.opens && w.opens[open].key == key && w.opens[open].number == number
  }

  ghost predicate OpenFits(w: World, open: nat)
    requires open in w.opens
  {
    var o := w.opens[open];
    && o.number == o.previous + 1
    && 1 <= o.number <= LastNumber(w.sequences, o.key)
    && !NumberStored(w.shifts, o.key, o.number)
  }

  ghost predicate OpensDiffer(opens: map<nat, Open>) {
    forall a, b :: a in opens && b in opens && opens[a].key == opens[b].key && opens[a].number == opens[b].number ==>
        a == b
  }

  ghost predicate Covered(w: World) {
    forall key, n :: 1 <= n <= LastNumber(w.sequences, key) ==> NumberStored(w.shifts, key, n) || UnderWay(w, key, n)
  }

  /** Every number up to the sequence is stored or under way, and no number is used twice. */
  ghost predicate Accounted(w: World) {
    && Safe(w) && Covered(w) && OpensDiffer(w.opens)
    && (forall key :: key in w.sequences ==> w.sequences[key] >= 1)
    && (forall id :: id in w.shifts ==> 1 <= w.shifts[id].shiftNumber <= LastNumber(w.sequences, w.shifts[id].key))
    && (forall open :: open in w.opens ==> OpenFits(w, open))
  }

  /** Coverage carries over when what was under way still is, or is stored, and what was stored still is. */
  lemma StaysCovered(w: World, after: World)
    requires Covered(w)
    requires forall key, n :: 1 <= n <= LastNumber(after.sequences, key) && n > LastNumber(w.sequences, key) ==>
        UnderWay(after, key, n)
    requires forall id :: id in w.shifts ==> NumberStored(after.shifts, w.shifts[id].key, w.shifts[id].shiftNumber)
    requires forall open :: open in w.opens ==>
               var o := w.opens[open];
               UnderWay(after, o.key, o.number) || NumberStored(after.shifts, o.key,
                   o.number) || o.number > LastNumber(after.sequences, o.key)
    ensures Covered(after)
  {
    forall key, n | 1 <= n <= LastNumber(after.sequences, key) ensures NumberStored(after.shifts, key, n) ||
        UnderWay(after, key, n) {
      if n <= LastNumber(w.sequences, key) {
        assert NumberStored(w.shifts, key, n) || UnderWay(w, key, n);
      }
    }
  }

  /** The open a step rewinds, if it rewinds one. */
  function Rewound(step: Step): Option<nat> {
    match step
    case Create(open, created) => if created.Failed? then Some(open) else None
    case Roll(open) => Some(open)
    case _ => None
  }

  /** No number has been allocated on the register since the rewound one. */
  predicate IsClean(w: World, open: nat) {
    open in w.opens && LastNumber(w.sequences, w.opens[open].key) == w.opens[open].number
  }

  predicate RewindsCleanly(w: World, step: Step) {
    Rewound(step).Some? ==> IsClean(w, Rewound(step).value)
  }

  lemma AllocateKeepsCover(w: World, open: nat, key: RegisterKey)
    requires Accounted(w) && open !in w.opens
    ensures Covered(Started(w, open, key))
  {
    var after := Started(w, open, key);
    assert after.opens[open].key == key;
    forall other | other in w.opens ensures UnderWay(after, w.opens[other].key, w.opens[other].number) {
      assert after.opens[other] == w.opens[other];
    }
    StaysCovered(w, after);
  }

  lemma AllocateKeepsFits(w: World, open: nat, key: RegisterKey, other: nat)
    requires Accounted(w) && open !in w.opens && other in Started(w, open, key).opens
    ensures OpenFits(Started(w, open, key), other)
  {
    assert !NumberStored(w.shifts, key, LastNumber(w.sequences, key) + 1);
    if other != open {
      assert OpenFits(w, other);
    }
  }

  lemma AllocateKeepsDiffer(w: World, open: nat, key: RegisterKey)
    requires open !in w.opens && OpensDiffer(w.opens) && forall other :: other in w.opens ==> OpenFits(w, other)
    ensures OpensDiffer(Started(w, open, key).opens)
  {
  }

  lemma AllocateKeepsAccount(w: World, open: nat, key: RegisterKey)
    requires Accounted(w) && open !in w.opens
    ensures Accounted(Started(w, open, key))
  {
    var after := Started(w, open, key);
    AllocateKeepsCover(w, open, key);
    AllocateKeepsDiffer(w, open, key);
    assert Safe(after);
    forall other | other in after.opens ensures OpenFits(after, other) {
      AllocateKeepsFits(w, open, key, other);
    }
  }

  lemma RefusalKeepsAccount(w: World, open: nat, created: Outcome<Shift>)
    requires Accounted(w) && Enabled(w, Create(open, created))
    requires created.Done? && InsertError(w.shifts, created.value).Some?
    ensures Accounted(Next(w, Create(open, created)))
  {
    StepIsSafe(w, Create(open, created));
    var after := Next(w, Create(open, created));
    forall other | other in after.opens ensures OpenFits(after, other) {
      assert OpenFits(w, other);
    }
    forall k, n | 1 <= n <= LastNumber(after.sequences, k) ensures NumberStored(after.shifts, k, n) ||
        UnderWay(after, k, n) {
      if UnderWay(w, k, n) {
        var other :| other in w.opens && w.opens[other].key == k && w.opens[other].number == n;
        assert after.opens[other].key == k && after.opens[other].number == n;
      }
    }
  }

  lemma StoringKeepsCover(w: World, open: nat, shift: Shift)
    requires Accounted(w) && open in w.opens && InsertError(w.shifts, shift).None?
    requires shift.key == w.opens[open].key && shift.shiftNumber == w.opens[open].number
    ensures Covered(Stored(w, open, shift))
  {
    var after := Stored(w, open, shift);
    assert after.shifts[shift.financialShiftId] == shift;
    forall id | id in w.shifts ensures NumberStored(after.shifts, w.shifts[id].key, w.shifts[id].shiftNumber) {
      assert after.shifts[id] == w.shifts[id];
    }
    forall other | other in w.opens && other != open ensures UnderWay(after, w.opens[other].key,
        w.opens[other].number) {
      assert after.opens[other] == w.opens[other];
    }
    StaysCovered(w, after);
  }

  lemma StoringKeepsAccount(w: World, open: nat, created: Outcome<Shift>)
    requires Accounted(w) && Enabled(w, Create(open, created))
    requires created.Done? && InsertError(w.shifts, created.value).None?
    ensures Accounted(Next(w, Create(open, created)))
  {
    StepIsSafe(w, Create(open, created));
    StoringKeepsCover(w, open, created.value);
    assert OpenFits(w, open);
    var after := Next(w, Create(open, created));
    forall other | other in after.opens ensures OpenFits(after, other) {
      assert OpenFits(w, other);
    }
  }

  lemma CleanRewindKeepsAccount(w: World, open: nat)
    requires Accounted(w) && IsClean(w, open)
    ensures Accounted(GiveUp(w, open))
  {
    var after := GiveUp(w, open);
    var gone := w.opens[open];
    assert OpenFits(w, open);
    assert Safe(after);
    forall id | id in after.shifts ensures 1 <= after.shifts[id].shiftNumber <= LastNumber(after.sequences,
        after.shifts[id].key) {
      assert after.shifts[id].key == gone.key ==> after.shifts[id].shiftNumber != gone.number;
    }
    forall other | other in after.opens ensures OpenFits(after, other) {
      assert OpenFits(w, other);
    }
    forall k, n | 1 <= n <= LastNumber(after.sequences, k) ensures NumberStored(after.shifts, k, n) ||
        UnderWay(after, k, n) {
      if UnderWay(w, k, n) {
        var other :| other in w.opens && w.opens[other].key == k && w.opens[other].number == n;
        assert after.opens[other] == w.opens[other];
      }
    }
  }

  /** An unclean rewind leaves a number above the sequence, stored or under way. */
  lemma UncleanRewindLosesAccount(w: World, open: nat)
    requires Accounted(w) && open in w.opens && !IsClean(w, open)
    ensures !Accounted(GiveUp(w, open))
  {
    var after := GiveUp(w, open);
    var gone := w.opens[open];
    assert OpenFits(w, open);
    var top := LastNumber(w.sequences, gone.key);
    if NumberStored(w.shifts, gone.key, top) {
      var id :| id in w.shifts && w.shifts[id].key == gone.key && w.shifts[id].shiftNumber == top;
      assert after.shifts[id].shiftNumber > LastNumber(after.sequences, gone.key);
    } else {
      var other :| other in w.opens && w.opens[other].key == gone.key && w.opens[other].number == top;
      assert other in after.opens && !OpenFits(after, other);
    }
  }

  lemma WritingKeepsNumbers(w: World, client: nat, next: Shift, expected: int)
    requires Safe(w) && Enabled(w, Write(client, next, expected))
    ensures var after := Next(w, Write(client, next, expected));
            && after.opens == w.opens && after.sequences == w.sequences
            && (forall id :: id in after.shifts ==> id in w.shifts && SameIdentity(after.shifts[id], w.shifts[id]))
            && (forall id :: id in w.shifts ==> NumberStored(after.shifts, w.shifts[id].key, w.shifts[id].shiftNumber))
  {
    var after := Next(w, Write(client, next, expected));
    AcceptedSaveIsBasedOnStored(w, client, next, expected);
    forall id | id in w.shifts ensures NumberStored(after.shifts, w.shifts[id].key, w.shifts[id].shiftNumber) {
      assert SameIdentity(after.shifts[id], w.shifts[id]);
    }
  }

  lemma WritingKeepsAccount(w: World, client: nat, next: Shift, expected: int)
    requires Accounted(w) && Enabled(w, Write(client, next, expected))
    ensures Accounted(Next(w, Write(client, next, expected)))
  {
    var after := Next(w, Write(client, next, expected));
    StepIsSafe(w, Write(client, next, expected));
    WritingKeepsNumbers(w, client, next, expected);
    forall open | open in w.opens ensures UnderWay(after, w.opens[open].key, w.opens[open].number) {
      assert after.opens[open] == w.opens[open];
    }
    StaysCovered(w, after);
    forall open | open in w.opens ensures OpenFits(after, open) {
      SameShiftsKeepFit(w, after, open);
    }
  }

  lemma SameShiftsKeepFit(w: World, after: World, open: nat)
    requires after.opens == w.opens && after.sequences == w.sequences && open in w.opens && OpenFits(w, open)
    requires forall id :: id in after.shifts ==> id in w.shifts && SameIdentity(after.shifts[id], w.shifts[id])
    ensures OpenFits(after, open)
  {
  }

  /** A step keeps the numbers accounted for exactly when it is no rewind or a clean one. */
  lemma StepKeepsAccountExactlyWhen(w: World, step: Step)
    requires Accounted(w) && Enabled(w, step)
    ensures Accounted(Next(w, step)) <==> RewindsCleanly(w, step)
  {
    match step
    case Allocate(open, key) => AllocateKeepsAccount(w, open, key);
    case Create(open, created) =>
      if created.Failed? {
        if IsClean(w, open) { CleanRewindKeepsAccount(w, open); } else { UncleanRewindLosesAccount(w, open); }
      } else if InsertError(w.shifts, created.value).Some? {
        RefusalKeepsAccount(w, open, created);
      } else {
        StoringKeepsAccount(w, open, created);
      }
    case Roll(open) =>
      if IsClean(w, open) { CleanRewindKeepsAccount(w, open); } else { UncleanRewindLosesAccount(w, open); }
    case Read(client, id) =>
      ReadingKeepsAccount(w, client, id);
    case Write(client, next, expected) => WritingKeepsAccount(w, client, next, expected);
  }

  lemma ReadingKeepsAccount(w: World, client: nat, id: string)
    requires Accounted(w) && id in w.shifts
    ensures Accounted(Next(w, Read(client, id)))
  {
    var after := Next(w, Read(client, id));
    StepIsSafe(w, Read(client, id));
    forall open | open in after.opens ensures OpenFits(after, open) {
      assert OpenFits(w, open);
    }
    forall k, n | 1 <= n <= LastNumber(after.sequences, k) ensures NumberStored(after.shifts, k, n) ||
        UnderWay(after, k, n) {
      assert NumberStored(w.shifts, k, n) || UnderWay(w, k, n);
    }
  }

  /** With clean rewinds only, every open whose shift is created under a new id is stored. */
  lemma {:induction false} CleanRunsNeverConflict(worlds: seq<World>, steps: seq<Step>)
    requires IsRun(worlds, steps) && Accounted(worlds[0])
    requires forall i :: 0 <= i < |steps| ==> RewindsCleanly(worlds[i], steps[i])
    ensures Accounted(worlds[|steps|])
    ensures forall i :: 0 <= i < |steps| && steps[i].Create? && steps[i].created.Done? ==>
              InsertError(worlds[i].shifts, steps[i].created.value) != Some(NumberConflict)
    decreases |steps|
  {
    if steps != [] {
      StepKeepsAccountExactlyWhen(worlds[0], steps[0]);
      if steps[0].Create? {
        assert OpenFits(worlds[0], steps[0].open);
      }
      CleanRunsNeverConflict(worlds[1..], steps[1..]);
      forall i | 0 <= i < |steps| && steps[i].Create? && steps[i].created.Done?
        ensures InsertError(worlds[i].shifts, steps[i].created.value) != Some(NumberConflict)
      {
        if i > 0 {
          assert steps[1..][i - 1] == steps[i] && worlds[1..][i - 1] == worlds[i];
        }
      }
    }
  }
}
