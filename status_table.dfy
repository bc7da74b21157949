/**
 * `STATUS_DICT`: the status characters the pump can answer with, in the table's own order,
 * each with its message (spelled as the table spells it), whether the pump is busy or idle,
 * and whether the pump is fit to take the next command.
 */
module StatusTable {
  import opened Base

  datatype Activity = Idle | Busy

  datatype StatusEntry = StatusEntry(key: string, code: char, message: string, activity: Activity, healthy: bool)

  const Table: seq<StatusEntry> := [
    StatusEntry("STATUS_IDLE_ERROR_FREE", '`', "Error Free", Idle, true),
    StatusEntry("STATUS_BUSY_ERROR_FREE", '@', "Error Free", Busy, true),
    StatusEntry("STATUS_IDLE_INIT_FAILURE", 'a', "Init Failure", Idle, false),
    StatusEntry("STATUS_BUSY_INIT_FAILURE", 'A', "Busy Init Failure", Busy, false),
    StatusEntry("STATUS_IDLE_INVALID_COMMAND", 'b', "Invalid Command", Idle, false),
    StatusEntry("STATUS_BUSY_INVALID_COMMAND", 'B', "Invalid Command", Busy, false),
    StatusEntry("STATUS_IDLE_INVALID_OPERAND", 'c', "Invalid Operand", Idle, false),
    StatusEntry("STATUS_BUSY_INVALID_OPERAND", 'C', "Invlaid Operand", Busy, false),
    StatusEntry("STATUS_IDLE_EEPROM_FAILURE", 'f', "EEPROM Failure", Idle, false),
    StatusEntry("STATUS_BUSY_EEPROM_FAILURE", 'F', "EEPROM Failure", Busy, false),
    StatusEntry("STATUS_IDLE_NOT_INITIALIZED", 'g', "Pump not Initalized", Idle, false),
    StatusEntry("STATUS_BUSY_NOT_INITIALIZED", 'G', "Pump not Initialized", Busy, false),
    StatusEntry("STATUS_IDLE_PLUNGER_OVERLOAD", 'i', "Plunger Overload", Idle, false),
    StatusEntry("STATUS_BUSY_PLUNGER_OVERLOAD", 'I', "Plunger Overload", Busy, false),
    StatusEntry("STATUS_IDLE_VALVE_OVERLOAD", 'j', "Valve Overload", Idle, false),
    StatusEntry("STATUS_BUSY_VALVE_OVERLOAD", 'J', "Valve Overload", Busy, false),
    StatusEntry("STATUS_IDLE_PLUNGER_STUCK", 'k', "Pluger Stuck", Idle, false),
    StatusEntry("STATUS_BUSY_PLUNGER_STUCK", 'K', "Plunger Stuck", Busy, false)
  ]

  /** The message `parse` leaves when no entry matches. */
  const NotRecognized: string := "ERROR STATUS CODE NOT RECOGNIZED"

  /** The status character `wait4idle` looks for: byte 96, idle and error free. */
  const IdleErrorFree: char := '`'

  /** The codes the table knows, idle ones first in each pair. */
  const KnownCodes: string := "`@aAbBcCfFgGiIjJkK"

  /** The first entry at or after `from` whose code is `code`. */
  function Find(code: char, from: nat): (r: Option<nat>)
    requires from <= |Table|
    ensures r.Some? ==> from <= r.value < |Table| && Table[r.value].code == code
    ensures r.Some? ==> forall j :: from <= j < r.value ==> Table[j].code != code
    ensures r.None? ==> forall j :: from <= j < |Table| ==> Table[j].code != code
    decreases |Table| - from
  {
    if from == |Table| then None
    else if Table[from].code == code then Some(from)
    else Find(code, from + 1)
  }

  /** The entry `parse` settles on for a status character, or None when no entry has that code. */
  function Lookup(code: char): (r: Option<StatusEntry>)
    ensures r.Some? ==> r.value in Table && r.value.code == code
    ensures r.None? ==> forall j :: 0 <= j < |Table| ==> Table[j].code != code
  {
    match Find(code, 0)
    case None => None
    case Some(i) => Some(Table[i])
  }

  /** No two entries share a code, so the table is a function of the status character. */
  lemma CodesDistinct(i: nat, j: nat)
    requires i < j < |Table|
    ensures Table[i].code != Table[j].code
  {
  }

  /** The table covers exactly the 18 characters of KnownCodes. */
  lemma {:induction false} RecognizedCodes(code: char)
    ensures Lookup(code).Some? <==> code in KnownCodes
  {
    if code in KnownCodes {
      var k :| 0 <= k < |KnownCodes| && KnownCodes[k] == code;
      assert Table[k].code == KnownCodes[k];
    } else {
      forall j | 0 <= j < |Table| ensures Table[j].code != code {
        assert Table[j].code == KnownCodes[j];
      }
    }
  }

  /** Only the two error-free codes are healthy; every other code, known or not, is not. */
  lemma {:induction false} HealthyIffErrorFree(code: char)
    ensures (Lookup(code).Some? && Lookup(code).value.healthy) <==> (code == '`' || code == '@')
  {
    if Lookup(code).Some? {
      HealthyAt(Find(code, 0).value);
    }
    assert Table[0].code == '`' && Table[1].code == '@';
  }

  /** Only the first two rows are healthy. */
  lemma HealthyAt(i: nat)
    requires i < |Table|
    ensures Table[i].healthy <==> i < 2
  {
  }

  /** The entry at `j` is the one Lookup finds for its code. */
  lemma LookupAt(j: nat)
    requires j < |Table|
    ensures Lookup(Table[j].code) == Some(Table[j])
  {
    var i := Find(Table[j].code, 0).value;
    if i != j {
      if i < j { CodesDistinct(i, j); } else { CodesDistinct(j, i); }
    }
  }
}
