/**
 * The in-memory cash register store: registers, financial shifts, and one shift-number sequence
 * per register. The text key "restaurant:register" starts with a number, so it stands for the pair.
 */
module CrmpStore {
  import opened Common

  datatype RegisterKey = RegisterKey(restaurantId: int, registerId: string)

  /** `body` stands for the fields the store only copies. */
  datatype Register = Register(key: RegisterKey, version: int, body: string)

  datatype Shift = Shift(financialShiftId: string, key: RegisterKey, shiftNumber: int, version: int, body: string)

  datatype CrmpError = AlreadyExists | RegisterNotFound | NumberConflict | VersionConflict | Rejected

  datatype Outcome<+T> = Done(value: T) | Failed(error: CrmpError)

  // ----- The rows that one repository call may meet, as functions of the maps.

  predicate SameNumber(a: Shift, b: Shift) {
    a.key == b.key && a.shiftNumber == b.shiftNumber
  }

  ghost predicate NumberStored(shifts: map<string, Shift>, key: RegisterKey, number: int) {
    exists id :: id in shifts && shifts[id].key == key && shifts[id].shiftNumber == number
  }

  ghost function InsertError(shifts: map<string, Shift>, shift: Shift): Option<CrmpError> {
    if shift.financialShiftId in shifts then Some(AlreadyExists)
    else if NumberStored(shifts, shift.key, shift.shiftNumber) then Some(NumberConflict)
    else None
  }

  function SaveError(shifts: map<string, Shift>, shift: Shift, expected: Option<int>): Option<CrmpError> {
    if shift.financialShiftId in shifts && expected.Some? &&
        shifts[shift.financialShiftId].version != expected.value then
      Some(VersionConflict)
    else None
  }

  function UpdateError(registers: map<RegisterKey, Register>, register: Register,
      expected: Option<int>): Option<CrmpError> {
    if register.key !in registers then Some(RegisterNotFound)
    else if expected.Some? && registers[register.key].version != expected.value then Some(VersionConflict)
    else None
  }

  function LastNumber(sequences: map<RegisterKey, int>, key: RegisterKey): int {
    if key in sequences then sequences[key] else 0
  }

  function Rewind(sequences: map<RegisterKey, int>, key: RegisterKey, previous: int): map<RegisterKey, int> {
    if previous == 0 then sequences - {key} else sequences[key := previous]
  }

  /** An open that no other call overlaps: its answer, and the shifts and sequences it leaves. */
  ghost function OpenAlone(shifts: map<string, Shift>, sequences: map<RegisterKey, int>, key: RegisterKey,
      create: int -> Outcome<Shift>)
    : (Outcome<Shift>, map<string, Shift>, map<RegisterKey, int>)
  {
    var previous := LastNumber(sequences, key);
    var created := create(previous + 1);
    var rewound := Rewind(sequences, key, previous);
    if created.Failed? then (created, shifts, rewound)
    else
      var error := InsertError(shifts, created.value);
      if error.Some? then (Failed(error.value), shifts, rewound)
      else (created, shifts[created.value.financialShiftId := created.value], sequences[key := previous + 1])
  }

  datatype Close = Close(shift: Shift, shiftVersion: int, register: Option<Register>, registerVersion: Option<int>)

  function RegisterError(registers: map<RegisterKey, Register>, close: Close): Option<CrmpError> {
    if close.register.None? then None else UpdateError(registers, close.register.value, close.registerVersion)
  }

  function Corridor(shifts: map<string, Shift>, registers: map<RegisterKey, Register>, close: Close)
    : (Option<CrmpError>, map<string, Shift>, map<RegisterKey, Register>)
  {
    var shiftError := SaveError(shifts, close.shift, Some(close.shiftVersion));
    if shiftError.Some? then (shiftError, shifts, registers)
    else
      var saved := shifts[close.shift.financialShiftId := close.shift];
      var registerError := RegisterError(registers, close);
      if registerError.Some? || close.register.None? then (registerError, saved, registers)
      else (None, saved, registers[close.register.value.key := close.register.value])
  }

  class InMemoryCrmpStore {
    var registers: map<RegisterKey, Register>
    var shifts: map<string, Shift>
    var shiftSequences: map<RegisterKey, int>

    constructor ()
      ensures registers == map[] && shifts == map[] && shiftSequences == map[]
    {
      registers, shifts, shiftSequences := map[], map[], map[];
    }

    method InsertRegister(register: Register) returns (error: Option<CrmpError>)
      modifies this`registers
      ensures error == if register.key in old(registers) then Some(AlreadyExists) else None
      ensures registers == if error.Some? then old(registers) else old(registers)[register.key := register]
    {
      if register.key in registers {
        return Some(AlreadyExists);
      }
      registers := registers[register.key := register];
      return None;
    }

    method UpdateRegister(register: Register, expectedVersion: Option<int>) returns (error: Option<CrmpError>)
      modifies this`registers
      ensures error == UpdateError(old(registers), register, expectedVersion)
      ensures error == Some(RegisterNotFound) <==> register.key !in old(registers)
      ensures error == Some(VersionConflict) <==>
                register.key in old(registers) && expectedVersion.Some?
                && old(registers)[register.key].version != expectedVersion.value
      ensures error.Some? ==> error.value in {RegisterNotFound, VersionConflict}
      ensures registers == if error.Some? then old(registers) else old(registers)[register.key := register]
    {
      if register.key !in registers {
        return Some(RegisterNotFound);
      }
      if expectedVersion.Some? && registers[register.key].version != expectedVersion.value {
        return Some(VersionConflict);
      }
      registers := registers[register.key := register];
      return None;
    }

    /** Refuse a stored id, then scan all rows for the number. */
    method InsertShift(shift: Shift) returns (error: Option<CrmpError>)
      modifies this`shifts
      ensures error == InsertError(old(shifts), shift)
      ensures error == Some(AlreadyExists) <==> shift.financialShiftId in old(shifts)
      ensures error == Some(NumberConflict) <==>
                && shift.financialShiftId !in old(shifts)
                && exists id :: id in old(shifts) && old(shifts)[id].key == shift.key &&
                     old(shifts)[id].shiftNumber == shift.shiftNumber
      ensures error.Some? ==> error.value in {AlreadyExists, NumberConflict}
      ensures shifts == if error.Some? then old(shifts) else old(shifts)[shift.financialShiftId := shift]
    {
      if shift.financialShiftId in shifts {
        return Some(AlreadyExists);
      }
      var rest := shifts.Keys;
      while rest != {}
        invariant rest <= shifts.Keys
        invariant forall id :: id in shifts && id !in rest ==> !SameNumber(shifts[id], shift)
        decreases rest
      {
        var id :| id in rest;
        rest := rest - {id};
        if SameNumber(shifts[id], shift) {
          return Some(NumberConflict);
        }
      }
      shifts := shifts[shift.financialShiftId := shift];
      return None;
    }

    /** Stores the row: over the stored one if its version is the expected one, or anew. */
    method SaveShift(shift: Shift, expectedVersion: Option<int>) returns (error: Option<CrmpError>)
      modifies this`shifts
      ensures error == SaveError(old(shifts), shift, expectedVersion)
      ensures error == (if shift.financialShiftId in old(shifts) && expectedVersion.Some?
                           && old(shifts)[shift.financialShiftId].version != expectedVersion.value
                        then Some(VersionConflict) else None)
      ensures shifts == if error.Some? then old(shifts) else old(shifts)[shift.financialShiftId := shift]
    {
      if shift.financialShiftId in shifts && expectedVersion.Some? {
        if shifts[shift.financialShiftId].version != expectedVersion.value {
          return Some(VersionConflict);
        }
      }
      shifts := shifts[shift.financialShiftId := shift];
      return None;
    }

    method AllocateNextShiftNumber(key: RegisterKey) returns (next: int)
      modifies this`shiftSequences
      ensures next == LastNumber(old(shiftSequences), key) + 1
      ensures shiftSequences == old(shiftSequences)[key := next]
    {
      next := (if key in shiftSequences then shiftSequences[key] else 0) + 1;
      shiftSequences := shiftSequences[key := next];
    }

    /** An open with no other call between its awaits. */
    method CommitOpenShift(key: RegisterKey, createShift: int -> Outcome<Shift>) returns (opening: Outcome<Shift>)
      modifies this`shifts, this`shiftSequences
      ensures (opening, shifts, shiftSequences) == OpenAlone(old(shifts), old(shiftSequences), key, createShift)
    {
      var previous := if key in shiftSequences then shiftSequences[key] else 0;
      var shiftNumber := AllocateNextShiftNumber(key);
      opening := createShift(shiftNumber);
      if opening.Done? {
        var error := InsertShift(opening.value);
        if error.Some? {
          opening := Failed(error.value);
        }
      }
      if opening.Failed? {
        assert Rewind(shiftSequences, key, previous) == Rewind(old(shiftSequences), key, previous);
        if previous == 0 {
          shiftSequences := shiftSequences - {key};
        } else {
          shiftSequences := shiftSequences[key := previous];
        }
      }
    }

    /** Two calls in a row: save the shift, then update the register if one is given. */
    method CommitCloseCorridor(close: Close) returns (error: Option<CrmpError>)
      modifies this`shifts, this`registers
      ensures (error, shifts, registers) == Corridor(old(shifts), old(registers), close)
    {
      error := SaveShift(close.shift, Some(close.shiftVersion));
      if error.Some? {
        return;
      }
      if close.register.Some? {
        error := UpdateRegister(close.register.value, close.registerVersion);
      }
    }
  }

  /**
   * The corridor is meant to be one unit. It is one exactly when a refused register comes with a
   * refused shift, or with a save that writes what is stored already. A shift at another version is
   * what it reports first, then the register; without an error both are stored.
   */
  lemma CorridorIsOneUnitExactlyWhen(shifts: map<string, Shift>, registers: map<RegisterKey, Register>, close: Close)
    ensures var (error, shiftsAfter, registersAfter) := Corridor(shifts, registers, close);
            var stored := close.shift.financialShiftId;
            && (error.None? ==>
                  && shiftsAfter == shifts[stored := close.shift]
                  && registersAfter == (if close.register.None? then registers
                                        else registers[close.register.value.key := close.register.value]))
            && (if stored in shifts && shifts[stored].version != close.shiftVersion then error == Some(VersionConflict)
                else if close.register.None? then error.None?
                else if close.register.value.key !in registers then error == Some(RegisterNotFound)
                else error == (if close.registerVersion.Some? &&
                                  registers[close.register.value.key].version != close.registerVersion.value
                               then Some(VersionConflict) else None))
            && ((error.Some? ==> shiftsAfter == shifts && registersAfter == registers) <==>
                || RegisterError(registers, close).None?
                || (stored in shifts && (shifts[stored].version != close.shiftVersion ||
                    shifts[stored] == close.shift)))
  {
    var stored := close.shift.financialShiftId;
    if stored in shifts {
      assert shifts[stored := shifts[stored]] == shifts;
    }
    assert shifts[stored := close.shift][stored] == close.shift;
  }
}
