/** Concrete rosters worked through the model for every stream of draws. */
module Scenarios {
  import opened Config
  import opened Randomness
  import opened Employees
  import opened Schedule
  import opened Consistency
  import opened Scheduler

  const Monday: Day := 0

  /** The empty board. */
  const Empty: Board := seq(NumDays, _ => EmptyRow)

  /** A reordering of two distinct values is one of the two orders. */
  lemma TwoOrders(order: seq<nat>, a: nat, b: nat)
    requires a != b && multiset(order) == multiset{a, b}
    ensures order == [a, b] || order == [b, a]
  {
    assert |order| == |multiset(order)| == 2;
    assert order[0] in multiset(order) && order[1] in multiset(order);
    assert order == [order[0], order[1]];
  }

  /** A sorted sequence with members exactly `a < b` is `[a, b]`. */
  lemma SortedPair(r: seq<nat>, a: nat, b: nat)
    requires a < b
    requires forall j: nat :: j in r <==> j == a || j == b
    requires forall x, y :: 0 <= x < y < |r| ==> r[x] < r[y]
    ensures r == [a, b]
  {
    assert a in r && b in r;
    var i :| 0 <= i < |r| && r[i] == a;
    var j :| 0 <= j < |r| && r[j] == b;
    forall x | 0 <= x < |r| ensures r[x] == a || r[x] == b {
      assert r[x] in r;
    }
    assert r[0] == a && i == 0 by {
      assert r[0] <= r[i];
    }
    assert r[|r| - 1] == b && j == |r| - 1 by {
      assert r[j] <= r[|r| - 1];
    }
    assert |r| == 2 by {
      assert r[0] <= r[1] <= r[|r| - 1];
    }
  }

  /** A newly entered worker with the given preferences: no day worked yet. */
  function NewEmployee(name: Name, preferred: map<Day, Shift>): (e: Employee)
    ensures e.name == name && e.preferred == preferred
    ensures forall d: Day :: CanWorkDay(e, d)
  {
    Employee(name, preferred, 0, {})
  }

  /** Two workers who both prefer Morning on Monday and state nothing else. */
  function TwoMorningWorkers(): seq<Employee>
  {
    [NewEmployee("Ann", map[Monday := Morning]), NewEmployee("Bob", map[Monday := Morning])]
  }

  /** The preference pass over two fresh workers who both want Monday Morning
      fills that cell with the two of them, in the drawn order. */
  lemma BothGetPreferredMorning(s: State, a: nat, b: nat)
    requires Indexed(s) && a < |s.staff| && b < |s.staff| && a != b
    requires Size(s.board, Monday, Morning) == 0
    requires s.staff[a].daysAssigned == 0 && s.staff[a].daysWorked == {}
    requires s.staff[b].daysAssigned == 0 && s.staff[b].daysWorked == {}
    requires Monday in s.staff[a].preferred && s.staff[a].preferred[Monday] == Morning
    requires Monday in s.staff[b].preferred && s.staff[b].preferred[Monday] == Morning
    ensures multiset(Cell(PreferencePass(s, Monday, [a, b]).board, Monday, Morning))
         == multiset{s.staff[a].name, s.staff[b].name}
  {
    var s1 := AttemptAssign(s, a, Monday, Morning);
    assert s1 == Place(s, a, Monday, Morning);
    assert s1.staff[b] == s.staff[b];
    var s2 := AttemptAssign(s1, b, Monday, Morning);
    assert HasCapacity(s1.board, Monday, Morning);
    assert s2 == Place(s1, b, Monday, Morning);
    assert [a, b][1..] == [b];
    assert PreferencePass(s1, Monday, [b]) == PreferencePass(s2, Monday, []);
  }

  /** The two workers are the only Monday candidates, and they start fresh. */
  lemma TwoMorningWorkersStart(rng: Draws)
    ensures Candidates(TwoMorningWorkers(), Monday) == [0, 1]
    ensures Consistent(Empty, TwoMorningWorkers())
  {
    var staff := TwoMorningWorkers();
    SortedPair(Candidates(staff, Monday), 0, 1);
    ClearedAndResetIsConsistent(Empty, staff);
    assert Clear(Empty) == Empty;
  }

  /** A cell the preference pass fills to capacity is final for the day. */
  lemma FullAfterPreferenceStage(s: State, day: Day, sh: Shift)
    requires Indexed(s) && Consistent(s.board, s.staff)
    requires Size(PreferenceStage(s, day).board, day, sh) == MaxPerShift
    ensures Cell(ScheduleDay(s, day).board, day, sh) == Cell(PreferenceStage(s, day).board, day, sh)
  {
    var r := ScheduleDay(s, day);
    CellWithinCapacity(r.board, r.staff, day, sh);
    FullPrefix(Cell(PreferenceStage(s, day).board, day, sh), Cell(r.board, day, sh));
  }

  lemma CellWithinCapacity(b: Board, staff: seq<Employee>, day: Day, sh: Shift)
    requires Consistent(b, staff)
    ensures |Cell(b, day, sh)| <= MaxPerShift
  {
    assert Size(b, day, sh) <= MaxPerShift;
  }

  lemma FullPrefix(p: seq<Name>, c: seq<Name>)
    requires p <= c && |p| == MaxPerShift && |c| <= MaxPerShift
    ensures c == p
  {
  }

  /** With the first two workers as the only candidates, the preference
      stage visits them in one of the two orders. */
  lemma PairOrder(s0: State) returns (order: seq<nat>)
    requires Indexed(s0) && |s0.staff| == 2 && Candidates(s0.staff, Monday) == [0, 1]
    ensures order == [0, 1] || order == [1, 0]
    ensures forall k :: k in order ==> k < |s0.staff| && Monday in s0.staff[k].preferred
    ensures PreferenceStage(s0, Monday) == PreferencePass(s0.(rng := PreferenceStage(s0, Monday).rng), Monday, order)
  {
    order := PreferenceStageOrder(s0, Monday);
    TwoOrders(order, 0, 1);
  }

  /** Two fresh workers who both want Monday Morning, on a Monday whose
      Morning is empty: in either order, the preference pass puts exactly
      the two of them there. */
  lemma FreshPairEitherOrder(s: State, order: seq<nat>)
    requires Indexed(s) && |s.staff| == 2 && (order == [0, 1] || order == [1, 0])
    requires Size(s.board, Monday, Morning) == 0
    requires forall i :: 0 <= i < 2 ==>
      s.staff[i].daysAssigned == 0 && s.staff[i].daysWorked == {}
      && Monday in s.staff[i].preferred && s.staff[i].preferred[Monday] == Morning
    ensures multiset(Cell(PreferencePass(s, Monday, order).board, Monday, Morning))
         == multiset{s.staff[0].name, s.staff[1].name}
  {
    if order == [0, 1] {
      BothGetPreferredMorning(s, 0, 1);
    } else {
      BothGetPreferredMorning(s, 1, 0);
    }
  }

  /** The same with the shuffle of the preference stage: whatever the
      draws, the two of them fill Monday Morning. */
  lemma FreshPairPreferenceStage(s0: State)
    requires Indexed(s0) && |s0.staff| == 2 && Candidates(s0.staff, Monday) == [0, 1]
    requires Size(s0.board, Monday, Morning) == 0
    requires forall i :: 0 <= i < 2 ==>
      s0.staff[i].daysAssigned == 0 && s0.staff[i].daysWorked == {}
      && Monday in s0.staff[i].preferred && s0.staff[i].preferred[Monday] == Morning
    ensures multiset(Cell(PreferenceStage(s0, Monday).board, Monday, Morning))
         == multiset{s0.staff[0].name, s0.staff[1].name}
  {
    var order := PairOrder(s0);
    FreshPairEitherOrder(s0.(rng := PreferenceStage(s0, Monday).rng), order);
  }

  /** Two workers, both preferring Monday Morning, on an empty board: whatever
      the draws, Monday Morning ends up holding exactly the two of them. */
  lemma TwoMorningWorkersFillMondayMorning(rng: Draws)
    ensures var s := ScheduleDay(State(Empty, TwoMorningWorkers(), [], rng), Monday);
            multiset(Cell(s.board, Monday, Morning)) == multiset{"Ann", "Bob"}
  {
    var s0 := State(Empty, TwoMorningWorkers(), [], rng);
    TwoMorningWorkersStart(rng);
    FreshPairPreferenceStage(s0);
    FullAfterPreferenceStage(s0, Monday, Morning);
  }

  /** A strictly increasing sequence whose only member is `a` is `[a]`. */
  lemma SortedSingleton(r: seq<nat>, a: nat)
    requires forall j: nat :: j in r <==> j == a
    requires forall x, y :: 0 <= x < y < |r| ==> r[x] < r[y]
    ensures r == [a]
  {
    assert a in r;
    forall x | 0 <= x < |r| ensures r[x] == a {
      assert r[x] in r;
    }
    assert |r| == 1 by {
      assert r[0] <= r[|r| - 1];
    }
  }

  /** A lone worker who can work `day`, on a day with every cell empty: the
      backfill of Morning picks them (whatever the draws) and then nobody is
      left, so Morning holds them alone. */
  lemma LoneWorkerMorningBackfill(s: State, day: Day)
    requires |s.staff| == 1 && CanWorkDay(s.staff[0], day)
    requires forall sh :: Size(s.board, day, sh) == 0
    ensures Cell(BackfillShift(s, day, Morning).board, day, Morning) == [s.staff[0].name]
    ensures NoneEligible(BackfillShift(s, day, Morning).board, BackfillShift(s, day, Morning).staff, day)
  {
    var name := s.staff[0].name;
    assert Size(s.board, day, Morning) == 0 && Size(s.board, day, Afternoon) == 0
        && Size(s.board, day, Evening) == 0;
    assert !OnDay(s.board, day, name);
    var eligible := Eligible(s.board, s.staff, day);
    SortedSingleton(eligible, 0);
    var (j, rng') := NextInt(s.rng, 1);
    assert j == 0;
    var s' := Place(s.(rng := rng'), 0, day, Morning);
    assert BackfillShift(s, day, Morning) == BackfillShift(s', day, Morning);
    assert OnDay(s'.board, day, name);
    assert NoneEligible(s'.board, s'.staff, day);
  }

  /** The backfill of a whole day for that lone worker: Morning holds them,
      Afternoon and Evening stay empty although neither reached minimum
      staffing. */
  lemma LoneWorkerBackfilledIntoMorning(s: State, day: Day)
    requires |s.staff| == 1 && CanWorkDay(s.staff[0], day)
    requires forall sh :: Size(s.board, day, sh) == 0
    ensures var r := EnsureMinimumStaffing(s, day, 0);
      && Cell(r.board, day, Morning) == [s.staff[0].name]
      && Size(r.board, day, Afternoon) == 0 && Size(r.board, day, Evening) == 0
  {
    LoneWorkerMorningBackfill(s, day);
    ShiftsEnumerateAll();
    var s1 := BackfillShift(s, day, Morning);
    assert EnsureMinimumStaffing(s, day, 0) == EnsureMinimumStaffing(s1, day, 1);
    assert EnsureMinimumStaffing(s1, day, 1) == s1;
    assert Size(s.board, day, Afternoon) == 0 && Size(s.board, day, Evening) == 0;
  }

  /** A worker whose preferred Evening is full goes to Morning when Morning
      has room: it is the first alternative in enumeration order. */
  lemma FullEveningFallsBackToMorning(s: State, i: nat, day: Day)
    requires i < |s.staff| && CanWorkDay(s.staff[i], day)
    requires Size(s.board, day, Evening) == MaxPerShift && Size(s.board, day, Morning) < MaxPerShift
    ensures Cell(AttemptAssign(s, i, day, Evening).board, day, Morning)
         == Cell(s.board, day, Morning) + [s.staff[i].name]
  {
    assert HasCapacity(s.board, day, Morning);
    var sh :| PreferenceChoice(s.board, day, Evening, sh) && AttemptAssign(s, i, day, Evening) == Place(s, i, day, sh);
    assert PreferenceChoice(s.board, day, Evening, sh);
    assert Ord(Morning) == 0 && Ord(Afternoon) == 1;
    assert sh == Morning;
  }
}
