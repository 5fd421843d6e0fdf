/** The invariant tying the board to the workers' counters: the board is
    within capacity, nobody is double-booked, and each worker's counters
    describe exactly where that worker's name stands on the board. */
module Consistency {
  import opened Config
  import opened Employees
  import opened Schedule

  /** Workers are keyed by name, so no two share one. */
  predicate UniqueNames(staff: seq<Employee>)
  {
    forall i, j :: 0 <= i < j < |staff| ==> staff[i].name != staff[j].name
  }

  predicate OnRoster(staff: seq<Employee>, name: Name)
  {
    exists i :: 0 <= i < |staff| && staff[i].name == name
  }

  /** Each worker's counters agree with the days the board shows them on. */
  ghost predicate CountersMatchBoard(b: Board, staff: seq<Employee>)
  {
    forall i :: 0 <= i < |staff| ==>
      Counted(staff[i]) && staff[i].daysWorked == DaysOn(b, staff[i].name)
  }

  /** Only workers of the roster appear on the board. */
  ghost predicate BoardNamesOnRoster(b: Board, staff: seq<Employee>)
  {
    forall d: Day, sh: Shift, name: Name :: name in Cell(b, d, sh) ==> OnRoster(staff, name)
  }

  ghost predicate Consistent(b: Board, staff: seq<Employee>)
  {
    && UniqueNames(staff)
    && WithinCapacity(b)
    && NoDoubleBooking(b)
    && CountersMatchBoard(b, staff)
    && BoardNamesOnRoster(b, staff)
  }

  /** A placement guarded by `CanWorkDay` and `HasCapacity`, paired with the
      worker's `Assign`, keeps the board and the counters consistent. */
  lemma PlaceKeepsConsistent(b: Board, staff: seq<Employee>, i: nat, day: Day, sh: Shift)
    requires i < |staff|
    ensures Consistent(b, staff) && CanWorkDay(staff[i], day) && HasCapacity(b, day, sh) ==>
      Consistent(Add(b, day, sh, staff[i].name), staff[i := Assign(staff[i], day)])
  {
    if Consistent(b, staff) && CanWorkDay(staff[i], day) && HasCapacity(b, day, sh) {
      AddKeepsWithinCapacity(b, day, sh, staff[i].name);
      PlaceKeepsSingleBooking(b, staff, i, day, sh);
      PlaceKeepsCounters(b, staff, i, day, sh);
      PlaceKeepsRoster(b, staff, i, day, sh);
    }
  }

  lemma PlaceKeepsSingleBooking(b: Board, staff: seq<Employee>, i: nat, day: Day, sh: Shift)
    requires i < |staff| && NoDoubleBooking(b) && CountersMatchBoard(b, staff)
    requires CanWorkDay(staff[i], day)
    ensures NoDoubleBooking(Add(b, day, sh, staff[i].name))
  {
    var name := staff[i].name;
    var b' := Add(b, day, sh, name);
    AddOnDay(b, day, sh, name);
    assert day !in DaysOn(b, name);
    OnDayIffCounted(b, day, name);
    forall d: Day, m: Name ensures DayCount(b', d, m) <= 1 {
      assert DayCount(b, d, m) <= 1;
    }
  }

  lemma PlaceKeepsCounters(b: Board, staff: seq<Employee>, i: nat, day: Day, sh: Shift)
    requires i < |staff| && UniqueNames(staff) && CountersMatchBoard(b, staff)
    requires CanWorkDay(staff[i], day)
    ensures CountersMatchBoard(Add(b, day, sh, staff[i].name), staff[i := Assign(staff[i], day)])
  {
    var name := staff[i].name;
    var b' := Add(b, day, sh, name);
    var staff' := staff[i := Assign(staff[i], day)];
    forall j | 0 <= j < |staff'|
      ensures Counted(staff'[j]) && staff'[j].daysWorked == DaysOn(b', staff'[j].name)
    {
      DaysOnAfterAdd(b, day, sh, name, staff[j].name);
      if j == i {
        AssignKeepsCount(staff[i], day);
      } else {
        assert staff[j].name != name;
      }
    }
  }

  lemma PlaceKeepsRoster(b: Board, staff: seq<Employee>, i: nat, day: Day, sh: Shift)
    requires i < |staff| && BoardNamesOnRoster(b, staff)
    ensures BoardNamesOnRoster(Add(b, day, sh, staff[i].name), staff[i := Assign(staff[i], day)])
  {
    var name := staff[i].name;
    var b' := Add(b, day, sh, name);
    var staff' := staff[i := Assign(staff[i], day)];
    forall d: Day, t: Shift, m: Name | m in Cell(b', d, t) ensures OnRoster(staff', m) {
      if m == name {
        assert staff'[i].name == m;
      } else {
        if d == day && t == sh {
          assert Cell(b', d, t) == Cell(b, d, t) + [name];
        }
        assert m in Cell(b, d, t);
        assert OnRoster(staff, m);
        var j :| 0 <= j < |staff| && staff[j].name == m;
        assert staff'[j].name == m;
      }
    }
  }

  /** Each worker's day count equals the number of their placements on the board. */
  lemma DaysAssignedArePlacements(b: Board, staff: seq<Employee>, i: nat)
    requires Consistent(b, staff) && i < |staff|
    ensures staff[i].daysAssigned == Placements(b, staff[i].name, NumDays)
  {
    WeekPlacementsAreDays(b, staff[i].name);
  }

  lemma AllDaysAssignedArePlacements(b: Board, staff: seq<Employee>)
    requires Consistent(b, staff)
    ensures forall i :: 0 <= i < |staff| ==> staff[i].daysAssigned == Placements(b, staff[i].name, NumDays)
  {
    forall i | 0 <= i < |staff| ensures staff[i].daysAssigned == Placements(b, staff[i].name, NumDays) {
      DaysAssignedArePlacements(b, staff, i);
    }
  }

  /** The invariant, clause by clause, in the terms of the scheduler's safety promises. */
  lemma ConsistentSpelledOut(b: Board, staff: seq<Employee>)
    requires Consistent(b, staff)
    ensures forall d: Day, sh :: Size(b, d, sh) <= MaxPerShift
    ensures NoDoubleBooking(b)
    ensures forall i :: 0 <= i < |staff| ==>
      staff[i].daysAssigned == |staff[i].daysWorked| <= MaxDaysPerEmployee
    ensures forall i, d: Day :: 0 <= i < |staff| ==> (d in staff[i].daysWorked <==> OnDay(b, d, staff[i].name))
    ensures forall i :: 0 <= i < |staff| ==> staff[i].daysAssigned == Placements(b, staff[i].name, NumDays)
  {
    AllDaysAssignedArePlacements(b, staff);
  }

  /** A cleared board with reset counters is consistent. */
  lemma ClearedAndResetIsConsistent(b: Board, staff: seq<Employee>)
    requires UniqueNames(staff)
    requires forall i :: 0 <= i < |staff| ==> staff[i].daysAssigned == 0 && staff[i].daysWorked == {}
    ensures Consistent(Clear(b), staff)
  {
    var c := Clear(b);
    forall i | 0 <= i < |staff| ensures DaysOn(c, staff[i].name) == {} { }
  }
}
