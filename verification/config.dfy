/** Constants and basic vocabulary of the weekly scheduler: the week, the
    shift kinds, and the staffing limits. */
module Config {

  /** A worker may be placed on at most this many days per week. */
  const MaxDaysPerEmployee: int := 5
  /** A (day, shift) cell is adequately staffed with at least this many workers. */
  const MinEmployeesPerShift: int := 2
  /** A (day, shift) cell never holds more than this many workers. */
  const MaxPerShift: int := 2
  /** The week has seven days, processed Monday first. */
  const NumDays: int := 7

  /** A day of the week, by its position in the week: 0 is Monday, 6 is Sunday. */
  type Day = d: int | 0 <= d < NumDays

  datatype Shift = Morning | Afternoon | Evening

  /** The fixed enumeration order of the shift kinds. */
  const Shifts: seq<Shift> := [Morning, Afternoon, Evening]

  /** The position of a shift kind in `Shifts`. */
  function Ord(sh: Shift): (r: nat)
    ensures r < |Shifts| && Shifts[r] == sh
  {
    match sh
    case Morning => 0
    case Afternoon => 1
    case Evening => 2
  }

  /** `Shifts` lists every shift kind once, each at its `Ord` position. */
  lemma ShiftsEnumerateAll()
    ensures forall k :: 0 <= k < |Shifts| ==> Ord(Shifts[k]) == k
    ensures forall sh: Shift :: sh in Shifts
  {
    forall sh: Shift ensures sh in Shifts {
      assert Shifts[Ord(sh)] == sh;
    }
  }

  type Name = string
}
