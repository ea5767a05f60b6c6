/** Opens one at a time number a register 1, 2, 3, ...; after an unclean rewind a register can be stuck. */
module CrmpOpens {
  import opened Common
  import opened CrmpStore
  import opened CrmpRuns
  import opened CrmpNumbers

  datatype Call = Call(key: RegisterKey, create: int -> Outcome<Shift>)

  datatype Store = Store(shifts: map<string, Shift>, sequences: map<RegisterKey, int>)

  /** A created shift carries the register and number it was created for. */
  ghost predicate Creates(call: Call) {
    forall n :: call.create(n).Done? ==> call.create(n).value.key == call.key && call.create(n).value.shiftNumber == n
  }

  ghost function Answer(store: Store, call: Call): Outcome<Shift> {
    OpenAlone(store.shifts, store.sequences, call.key, call.create).0
  }

  ghost function After(store: Store, call: Call): Store {
    var (_, shifts, sequences) := OpenAlone(store.shifts, store.sequences, call.key, call.create);
    Store(shifts, sequences)
  }

  ghost predicate IsSequence(stores: seq<Store>, calls: seq<Call>) {
    && |stores| == |calls| + 1
    && forall i :: 0 <= i < |calls| ==> Creates(calls[i]) && stores[i + 1] == After(stores[i], calls[i])
  }

  function Idle(store: Store): World {
    World(store.shifts, store.sequences, map[], map[], [])
  }

  /** Nothing is under way and every number is accounted for. */
  ghost predicate Dense(store: Store) {
    Accounted(Idle(store))
  }

  lemma EmptyStoreIsDense()
    ensures Dense(Store(map[], map[]))
  {
  }

  lemma DenseMeansExactlyUpToSequence(store: Store)
    requires Dense(store)
    ensures NumbersAreUnique(store.shifts)
    ensures forall key, n :: NumberStored(store.shifts, key, n) <==> 1 <= n <= LastNumber(store.sequences, key)
  {
    forall key, n | 1 <= n <= LastNumber(store.sequences, key) ensures NumberStored(store.shifts, key, n) {
      assert !UnderWay(Idle(store), key, n);
    }
  }

  /** A lone open is the allocate, create and rewind steps with nothing between them. */
  lemma LoneOpenIsItsSteps(store: Store, call: Call)
    requires Creates(call)
    ensures var w := Started(Idle(store), 0, call.key);
            var create := Create(0, call.create(LastNumber(store.sequences, call.key) + 1));
            && Enabled(w, create)
            && var v := Next(w, create);
               var end := if 0 in v.opens then GiveUp(v, 0) else v;
               end == Idle(After(store, call))
  {
    var w := Started(Idle(store), 0, call.key);
    var last := LastNumber(store.sequences, call.key);
    var v := Next(w, Create(0, call.create(last + 1)));
    var end := if 0 in v.opens then GiveUp(v, 0) else v;
    assert end.opens == map[];
    assert Rewind(store.sequences[call.key := last + 1], call.key, last) == Rewind(store.sequences, call.key, last);
  }

  /** A lone open on a dense store takes the next number, or fails and restores the store exactly. */
  lemma LoneOpenKeepsDense(store: Store, call: Call)
    requires Dense(store) && Creates(call)
    ensures Dense(After(store, call))
    ensures var number := LastNumber(store.sequences, call.key) + 1;
            var created := call.create(number);
            && (Answer(store, call).Failed? <==> created.Failed? || created.value.financialShiftId in store.shifts)
            && (Answer(store, call).Failed? ==> After(store, call) == store)
            && (Answer(store, call).Done? ==>
                  && Answer(store, call) == created && created.value.shiftNumber == number
                  && After(store, call) ==
                     Store(store.shifts[created.value.financialShiftId := created.value],
                         store.sequences[call.key := number]))
  {
    DenseMeansExactlyUpToSequence(store);
    var w := Started(Idle(store), 0, call.key);
    var create := Create(0, call.create(LastNumber(store.sequences, call.key) + 1));
    LoneOpenIsItsSteps(store, call);
    AllocateKeepsAccount(Idle(store), 0, call.key);
    StepKeepsAccountExactlyWhen(w, create);
    var v := Next(w, create);
    if 0 in v.opens {
      CleanRewindKeepsAccount(v, 0);
    }
    assert Rewind(store.sequences, call.key, LastNumber(store.sequences, call.key)) == store.sequences;
  }

  ghost function Opened(stores: seq<Store>, calls: seq<Call>, key: RegisterKey): nat
    requires |stores| == |calls| + 1
    decreases |calls|
  {
    if calls == [] then 0
    else (if calls[0].key == key && Answer(stores[0], calls[0]).Done? then 1 else 0) + Opened(stores[1..],
        calls[1..], key)
  }

  /**
   * When opens run one at a time, the numbers stored on a register are exactly those up to its
   * sequence, each once, and the sequence moves by one for every open that succeeds.
   */
  lemma {:induction false} LoneOpensNumberDensely(stores: seq<Store>, calls: seq<Call>, key: RegisterKey)
    requires IsSequence(stores, calls) && Dense(stores[0])
    ensures var end := stores[|calls|];
            && Dense(end) && NumbersAreUnique(end.shifts)
            && (forall n :: NumberStored(end.shifts, key, n) <==> 1 <= n <= LastNumber(end.sequences, key))
            && LastNumber(end.sequences, key) == LastNumber(stores[0].sequences, key) + Opened(stores, calls, key)
    decreases |calls|
  {
    if calls == [] {
      DenseMeansExactlyUpToSequence(stores[0]);
    } else {
      LoneOpenKeepsDense(stores[0], calls[0]);
      LoneOpensNumberDensely(stores[1..], calls[1..], key);
    }
  }

  // ----- A register that is stuck.

  /** The number the sequence hands out next is taken. */
  ghost predicate Wedged(store: Store, key: RegisterKey) {
    NumberStored(store.shifts, key, LastNumber(store.sequences, key) + 1)
  }

  /** On any store, a lone open of a creatable shift with a new id succeeds exactly when the register is not stuck. */
  lemma LoneOpenSucceedsExactlyWhen(store: Store, call: Call)
    requires Creates(call)
    ensures var created := call.create(LastNumber(store.sequences, call.key) + 1);
            Answer(store, call).Done? <==>
              created.Done? && created.value.financialShiftId !in store.shifts && !Wedged(store, call.key)
  {
  }

  /** A stuck register stays stuck: no later lone open on it succeeds, whatever happens on the others. */
  lemma {:induction false} WedgedStaysWedged(stores: seq<Store>, calls: seq<Call>, key: RegisterKey)
    requires IsSequence(stores, calls) && Wedged(stores[0], key)
    ensures Wedged(stores[|calls|], key) && Opened(stores, calls, key) == 0
    decreases |calls|
  {
    if calls != [] {
      var store := stores[0];
      LoneOpenSucceedsExactlyWhen(store, calls[0]);
      var id :| id in store.shifts && store.shifts[id].key == key &&
          store.shifts[id].shiftNumber == LastNumber(store.sequences, key) + 1;
      assert stores[1].shifts[id] == store.shifts[id] &&
          LastNumber(stores[1].sequences, key) == LastNumber(store.sequences, key);
      WedgedStaysWedged(stores[1..], calls[1..], key);
    }
  }

  /** Two opens overlap; the later one is stored and the earlier one's create throws, rewinding under it. */
  lemma OverlapRewindsUnderStored(key: RegisterKey) returns (worlds: seq<World>, steps: seq<Step>)
    ensures IsRun(worlds, steps) && worlds[0] == Idle(Store(map[], map[]))
    ensures |steps| == 4 && worlds[4] == Idle(Store(map["b" := Shift("b", key, 2, 1, "")], map[]))
    ensures forall i :: 0 <= i < 4 && Rewound(steps[i]).Some? ==> !IsClean(worlds[i], Rewound(steps[i]).value)
  {
    var second := Shift("b", key, 2, 1, "");
    steps := [Allocate(0, key), Allocate(1, key), Create(1, Done(second)), Create(0, Failed(Rejected))];
    var w0 := Idle(Store(map[], map[]));
    var w1 := Next(w0, steps[0]);
    var w2 := Next(w1, steps[1]);
    assert InsertError(w2.shifts, second).None?;
    var w3 := Next(w2, steps[2]);
    var w4 := Next(w3, steps[3]);
    assert w4.sequences == map[] && w4.opens == map[];
    worlds := [w0, w1, w2, w3, w4];
  }

  /**
   * Three opens of an unused register suffice to wedge it: two overlap and the earlier one fails
   * after the later one is stored; the third then takes number one.
   */
  lemma OverlappingFailureWedgesRegister(key: RegisterKey) returns (worlds: seq<World>, steps: seq<Step>)
    ensures IsRun(worlds, steps) && worlds[0] == Idle(Store(map[], map[]))
    ensures var end := worlds[|steps|];
            end.opens == map[] && Wedged(Store(end.shifts, end.sequences), key)
  {
    var overlap, taken := OverlapRewindsUnderStored(key);
    var first := Shift("c", key, 1, 1, "");
    var w4 := overlap[4];
    var w5 := Next(w4, Allocate(2, key));
    assert InsertError(w5.shifts, first).None?;
    var w6 := Next(w5, Create(2, Done(first)));
    worlds := overlap + [w5, w6];
    steps := taken + [Allocate(2, key), Create(2, Done(first))];
    assert w6.shifts["b"].shiftNumber == 2 && w6.opens == map[];
  }
}
