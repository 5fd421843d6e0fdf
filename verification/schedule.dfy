/** The week's assignment board: seven days, each with one list of names per
    shift kind, and the queries the scheduler makes of it. */
module Schedule {
  import opened Config

  /** The three name lists of one day. */
  datatype Row = Row(morning: seq<Name>, afternoon: seq<Name>, evening: seq<Name>)
  {
    function Get(sh: Shift): seq<Name>
    {
      match sh
      case Morning => morning
      case Afternoon => afternoon
      case Evening => evening
    }

    function With(sh: Shift, names: seq<Name>): (r: Row)
      ensures r.Get(sh) == names
      ensures forall t :: t != sh ==> r.Get(t) == Get(t)
    {
      match sh
      case Morning => this.(morning := names)
      case Afternoon => this.(afternoon := names)
      case Evening => this.(evening := names)
    }
  }

  const EmptyRow: Row := Row([], [], [])

  /** The grid always has exactly one row per day. */
  type Board = b: seq<Row> | |b| == NumDays witness seq(NumDays, _ => EmptyRow)

  /** The names placed in `sh` on `day`, in placement order. */
  function Cell(b: Board, day: Day, sh: Shift): seq<Name>
  {
    b[day].Get(sh)
  }

  /** Empty every cell; the day/shift structure stays. */
  function Clear(b: Board): (r: Board)
    ensures forall d: Day, sh :: Cell(r, d, sh) == []
    ensures WithinCapacity(r) && NoDoubleBooking(r)
  {
    seq(NumDays, _ => EmptyRow)
  }

  /** The number of names placed in a cell. */
  function Size(b: Board, day: Day, sh: Shift): nat
  {
    |Cell(b, day, sh)|
  }

  /** A cell has room for one more name. */
  predicate HasCapacity(b: Board, day: Day, sh: Shift)
  {
    Size(b, day, sh) < MaxPerShift
  }

  /** Append a name to one cell, leaving every other cell as it was. */
  function Add(b: Board, day: Day, sh: Shift, name: Name): (r: Board)
    ensures Cell(r, day, sh) == Cell(b, day, sh) + [name]
    ensures forall d: Day, t: Shift :: (d != day || t != sh) ==> Cell(r, d, t) == Cell(b, d, t)
  {
    b[day := b[day].With(sh, b[day].Get(sh) + [name])]
  }

  /** The capacity invariant of the board. */
  predicate WithinCapacity(b: Board)
  {
    forall d: Day, sh :: Size(b, d, sh) <= MaxPerShift
  }

  /** Adding only where `HasCapacity` holds keeps every cell within capacity. */
  lemma AddKeepsWithinCapacity(b: Board, day: Day, sh: Shift, name: Name)
    requires WithinCapacity(b) && HasCapacity(b, day, sh)
    ensures WithinCapacity(Add(b, day, sh, name))
    ensures Size(Add(b, day, sh, name), day, sh) == Size(b, day, sh) + 1
  {
    var r := Add(b, day, sh, name);
    forall d: Day, t: Shift
      ensures Size(r, d, t) <= MaxPerShift
    {
      if d != day || t != sh {
        assert Cell(r, d, t) == Cell(b, d, t);
        assert Size(b, d, t) <= MaxPerShift;
      } else {
        assert Cell(r, d, t) == Cell(b, day, sh) + [name];
        assert Size(b, day, sh) < MaxPerShift;
      }
    }
  }

  /** A cell's size counts the adds made to it, and only those. */
  lemma SizeAfterAdd(b: Board, day: Day, sh: Shift, name: Name)
    ensures forall d: Day, t: Shift ::
      Size(Add(b, day, sh, name), d, t) == Size(b, d, t) + (if d == day && t == sh then 1 else 0)
  {
  }

  /** On a board within capacity, `HasCapacity` holds exactly when one more
      name still fits: it is the weakest guard that keeps capacity. */
  lemma HasCapacityExactlyWhenAddFits(b: Board, day: Day, sh: Shift, name: Name)
    requires WithinCapacity(b)
    ensures HasCapacity(b, day, sh) <==> WithinCapacity(Add(b, day, sh, name))
  {
    if HasCapacity(b, day, sh) {
      AddKeepsWithinCapacity(b, day, sh, name);
    } else {
      assert Size(Add(b, day, sh, name), day, sh) == Size(b, day, sh) + 1;
    }
  }

  /** `name` is placed in some shift of `day`. */
  predicate OnDay(b: Board, day: Day, name: Name)
  {
    name in Cell(b, day, Morning) || name in Cell(b, day, Afternoon) || name in Cell(b, day, Evening)
  }

  /** How many times `name` is placed on `day`, over all three shifts. */
  function DayCount(b: Board, day: Day, name: Name): nat
  {
    multiset(Cell(b, day, Morning))[name]
      + multiset(Cell(b, day, Afternoon))[name]
      + multiset(Cell(b, day, Evening))[name]
  }

  /** No name is placed twice on one day, in one shift or across shifts. */
  ghost predicate NoDoubleBooking(b: Board)
  {
    forall d: Day, name: Name :: DayCount(b, d, name) <= 1
  }

  /** The days on which `name` is placed. */
  function DaysOn(b: Board, name: Name): set<Day>
  {
    set d: Day | 0 <= d < NumDays && OnDay(b, d, name)
  }

  lemma OnDayIffCounted(b: Board, day: Day, name: Name)
    ensures OnDay(b, day, name) <==> DayCount(b, day, name) > 0
  {
  }

  /** After `Add`, a name is on a day exactly when it was before or it is the added one. */
  lemma AddOnDay(b: Board, day: Day, sh: Shift, name: Name)
    ensures forall d: Day, m: Name ::
      OnDay(Add(b, day, sh, name), d, m) <==> OnDay(b, d, m) || (d == day && m == name)
    ensures forall d: Day, m: Name ::
      DayCount(Add(b, day, sh, name), d, m) == DayCount(b, d, m) + (if d == day && m == name then 1 else 0)
  {
    var r := Add(b, day, sh, name);
    forall d: Day, m: Name
      ensures OnDay(r, d, m) <==> OnDay(b, d, m) || (d == day && m == name)
      ensures DayCount(r, d, m) == DayCount(b, d, m) + (if d == day && m == name then 1 else 0)
    {
      assert multiset(Cell(b, day, sh) + [name]) == multiset(Cell(b, day, sh)) + multiset{name};
      if d == day {
        forall t: Shift | t != sh ensures Cell(r, d, t) == Cell(b, d, t) { }
      } else {
        assert r[d] == b[d];
      }
    }
  }

  /** After `Add`, the added name gains `day`; every other name keeps its days. */
  lemma DaysOnAfterAdd(b: Board, day: Day, sh: Shift, name: Name, m: Name)
    ensures DaysOn(Add(b, day, sh, name), m) == DaysOn(b, m) + (if m == name then {day} else {})
  {
    AddOnDay(b, day, sh, name);
  }

  /** The total number of placements of `name` over the days `0 <= d < upTo`. */
  function Placements(b: Board, name: Name, upTo: nat): nat
    requires upTo <= NumDays
  {
    if upTo == 0 then 0 else Placements(b, name, upTo - 1) + DayCount(b, upTo - 1, name)
  }

  /** Without double booking, a name's placements over the week are as many as
      the days it is placed on. */
  lemma {:induction false} PlacementsAreDays(b: Board, name: Name, upTo: nat)
    requires upTo <= NumDays && NoDoubleBooking(b)
    ensures Placements(b, name, upTo) == |DaysBefore(b, name, upTo)|
  {
    if upTo == 0 {
      assert DaysBefore(b, name, 0) == {};
    } else {
      var k: Day := upTo - 1;
      PlacementsAreDays(b, name, k);
      OnDayIffCounted(b, k, name);
      assert DayCount(b, k, name) <= 1;
      DaysBeforeStep(b, name, k);
    }
  }

  /** The days before `upTo` on which `name` is placed. */
  ghost function DaysBefore(b: Board, name: Name, upTo: nat): set<Day>
  {
    set d: Day | 0 <= d < upTo && OnDay(b, d, name)
  }

  lemma DaysBeforeStep(b: Board, name: Name, k: Day)
    ensures OnDay(b, k, name) ==> DaysBefore(b, name, k + 1) == DaysBefore(b, name, k) + {k}
    ensures !OnDay(b, k, name) ==> DaysBefore(b, name, k + 1) == DaysBefore(b, name, k)
    ensures k !in DaysBefore(b, name, k)
  {
  }

  lemma WeekPlacementsAreDays(b: Board, name: Name)
    requires NoDoubleBooking(b)
    ensures Placements(b, name, NumDays) == |DaysOn(b, name)|
  {
    PlacementsAreDays(b, name, NumDays);
    assert DaysBefore(b, name, NumDays) == DaysOn(b, name);
  }
}
