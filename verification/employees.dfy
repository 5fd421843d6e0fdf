/** A worker: a name, a preferred shift for some days of the week, and the
    two weekly workload counters the scheduler maintains. */
module Employees {
  import opened Config

  /** `daysAssigned` counts placements; `daysWorked` is the set of days placed. */
  datatype Employee = Employee(
    name: Name,
    preferred: map<Day, Shift>,
    daysAssigned: int,
    daysWorked: set<Day>)

  /** The counter invariant: one placement per worked day, within the weekly cap. */
  predicate Counted(e: Employee)
  {
    e.daysAssigned == |e.daysWorked| && e.daysAssigned <= MaxDaysPerEmployee
  }

  /** Start of a generation cycle: every day becomes workable again. */
  function ResetWorkCounters(e: Employee): (r: Employee)
    ensures r.name == e.name && r.preferred == e.preferred
    ensures Counted(r) && r.daysAssigned == 0
    ensures forall d: Day :: CanWorkDay(r, d)
  {
    e.(daysAssigned := 0, daysWorked := {})
  }

  /** Not yet placed on `day`, and still under the weekly cap. */
  predicate CanWorkDay(e: Employee, day: Day)
  {
    day !in e.daysWorked && e.daysAssigned < MaxDaysPerEmployee
  }

  /** Record a placement on `day`; performs no check of its own. */
  function Assign(e: Employee, day: Day): (r: Employee)
    ensures r.name == e.name && r.preferred == e.preferred
    ensures day in r.daysWorked && !CanWorkDay(r, day)
    ensures r.daysAssigned == e.daysAssigned + 1
    ensures forall d: Day :: d != day ==> (d in r.daysWorked <==> d in e.daysWorked)
  {
    e.(daysAssigned := e.daysAssigned + 1, daysWorked := e.daysWorked + {day})
  }

  /** A guarded placement keeps the counter invariant and uses up one day. */
  lemma AssignKeepsCount(e: Employee, day: Day)
    requires Counted(e) && CanWorkDay(e, day)
    ensures Counted(Assign(e, day))
    ensures Assign(e, day).daysAssigned == e.daysAssigned + 1
    ensures Assign(e, day).daysWorked == e.daysWorked + {day}
  {
  }

  /** The guard matters: a second placement on the same day breaks the invariant. */
  lemma UnguardedAssignBreaksCount(e: Employee, day: Day)
    requires Counted(e) && day in e.daysWorked
    ensures !CanWorkDay(e, day) && !Counted(Assign(e, day))
  {
    assert Assign(e, day).daysWorked == e.daysWorked;
  }

  /** The days of the week, listed. */
  const Week: set<Day> := {0, 1, 2, 3, 4, 5, 6}

  /** Some day is still workable for a counted worker exactly when they are
      under the weekly cap: the set of worked days never fills the week first. */
  lemma CanWorkSomeDayIffUnderCap(e: Employee) returns (d: Day)
    requires Counted(e)
    ensures (exists x: Day :: CanWorkDay(e, x)) <==> e.daysAssigned < MaxDaysPerEmployee
    ensures e.daysAssigned < MaxDaysPerEmployee ==> CanWorkDay(e, d)
  {
    d := 0;
    if e.daysAssigned < MaxDaysPerEmployee {
      if Week <= e.daysWorked {
        assert |Week| == NumDays;
        SubsetSize(Week, e.daysWorked);
        assert false;
      }
      var x :| x in Week && x !in e.daysWorked;
      d := x;
      assert CanWorkDay(e, d);
    }
  }

  lemma SubsetSize(a: set<Day>, b: set<Day>)
    requires a <= b
    ensures |a| <= |b|
  {
    assert b == a + (b - a);
  }
}
