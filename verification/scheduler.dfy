/** The weekly generation: for each day in calendar order, a preference
    pass, a retry of the carried-over workers, and a minimum-staffing
    backfill.  Every random choice is taken from the state's stream of draws. */
module Scheduler {
  import opened Config
  import opened Randomness
  import opened Indices
  import opened Employees
  import opened Schedule
  import opened Consistency

  /** The engine's state: the board, the roster in insertion order, the
      carryover list (positions in the roster), and the remaining draws. */
  datatype State = State(board: Board, staff: seq<Employee>, carryover: seq<nat>, rng: Draws)

  /** Every carried-over entry names a worker of the roster. */
  predicate Indexed(s: State)
  {
    forall k :: k in s.carryover ==> k < |s.staff|
  }

  /** Processing `day` changes a worker only by placing them on `day`. */
  ghost predicate Grew(e: Employee, e': Employee, day: Day)
  {
    && e'.name == e.name && e'.preferred == e.preferred
    && e.daysAssigned <= e'.daysAssigned
    && e.daysWorked <= e'.daysWorked <= e.daysWorked + {day}
  }

  /** Processing `day` leaves every other day's row alone, only appends to
      that day's cells, and only places workers on that day. */
  ghost predicate Extends(s: State, r: State, day: Day)
  {
    && |r.staff| == |s.staff|
    && (forall i :: 0 <= i < |s.staff| ==> Grew(s.staff[i], r.staff[i], day))
    && (forall d: Day :: d != day ==> r.board[d] == s.board[d])
    && (forall sh: Shift :: Cell(s.board, day, sh) <= Cell(r.board, day, sh))
  }

  lemma ExtendsTrans(s: State, m: State, r: State, day: Day)
    requires Extends(s, m, day) && Extends(m, r, day)
    ensures Extends(s, r, day)
  {
  }

  /** Put worker `i` in `sh` on `day` and record the day in their counters,
      as every placement of the Java scheduler does. */
  function Place(s: State, i: nat, day: Day, sh: Shift): (r: State)
    requires i < |s.staff|
    ensures Extends(s, r, day) && r.carryover == s.carryover && r.rng == s.rng
    ensures Cell(r.board, day, sh) == Cell(s.board, day, sh) + [s.staff[i].name]
    ensures forall t :: t != sh ==> Cell(r.board, day, t) == Cell(s.board, day, t)
    ensures day in r.staff[i].daysWorked
    ensures forall j :: 0 <= j < |s.staff| && j != i ==> r.staff[j] == s.staff[j]
    ensures Consistent(s.board, s.staff) && CanWorkDay(s.staff[i], day) && HasCapacity(s.board, day, sh)
      ==> Consistent(r.board, r.staff)
  {
    PlaceKeepsConsistent(s.board, s.staff, i, day, sh);
    State(Add(s.board, day, sh, s.staff[i].name), s.staff[i := Assign(s.staff[i], day)], s.carryover, s.rng)
  }

  /** Defer worker `i` to later days, but only when a later day exists and
      the worker is still under the weekly cap. */
  function PushToNextDayIfPossible(s: State, i: nat, day: Day): (r: State)
    requires i < |s.staff|
    ensures r.board == s.board && r.staff == s.staff && r.rng == s.rng
    ensures r.carryover == s.carryover || r.carryover == s.carryover + [i]
    ensures r.carryover == s.carryover + [i] <==>
      day < NumDays - 1 && s.staff[i].daysAssigned < MaxDaysPerEmployee
  {
    if day < NumDays - 1 && s.staff[i].daysAssigned < MaxDaysPerEmployee then
      s.(carryover := s.carryover + [i])
    else
      s
  }

  ghost predicate SomeCapacity(b: Board, day: Day)
  {
    exists sh :: HasCapacity(b, day, sh)
  }

  /** The shift the preference pass picks: the preferred one when it has
      room, otherwise the first other shift, in enumeration order, with room. */
  ghost predicate PreferenceChoice(b: Board, day: Day, preferred: Shift, sh: Shift)
  {
    && HasCapacity(b, day, sh)
    && (|| sh == preferred
        || (&& !HasCapacity(b, day, preferred)
            && forall t :: Ord(t) < Ord(sh) && t != preferred ==> !HasCapacity(b, day, t)))
  }

  ghost predicate OpenAlternativeFrom(b: Board, day: Day, preferred: Shift, k: nat)
  {
    exists t :: k <= Ord(t) && t != preferred && HasCapacity(b, day, t)
  }

  ghost predicate FirstAlternativeFrom(b: Board, day: Day, preferred: Shift, k: nat, sh: Shift)
  {
    && k <= Ord(sh) && sh != preferred && HasCapacity(b, day, sh)
    && forall t :: k <= Ord(t) < Ord(sh) && t != preferred ==> !HasCapacity(b, day, t)
  }

  /** The alternative-shift loop: the shifts from position `k` on, skipping
      the preferred one; falls back to the carryover push. */
  function TryAlternatives(s: State, i: nat, day: Day, preferred: Shift, k: nat): (r: State)
    requires i < |s.staff| && k <= |Shifts|
    ensures CanWorkDay(s.staff[i], day) && OpenAlternativeFrom(s.board, day, preferred, k) ==>
      exists sh :: FirstAlternativeFrom(s.board, day, preferred, k, sh) && r == Place(s, i, day, sh)
    ensures !(CanWorkDay(s.staff[i], day) && OpenAlternativeFrom(s.board, day, preferred, k)) ==>
      r == PushToNextDayIfPossible(s, i, day)
    decreases |Shifts| - k
  {
    ShiftsEnumerateAll();
    if k == |Shifts| then
      PushToNextDayIfPossible(s, i, day)
    else if Shifts[k] == preferred then
      TryAlternatives(s, i, day, preferred, k + 1)
    else if HasCapacity(s.board, day, Shifts[k]) && CanWorkDay(s.staff[i], day) then
      Place(s, i, day, Shifts[k])
    else
      TryAlternatives(s, i, day, preferred, k + 1)
  }

  /** One worker of the preference pass. */
  function AttemptAssign(s: State, i: nat, day: Day, preferred: Shift): (r: State)
    requires i < |s.staff|
    ensures CanWorkDay(s.staff[i], day) && SomeCapacity(s.board, day) ==>
      exists sh :: PreferenceChoice(s.board, day, preferred, sh) && r == Place(s, i, day, sh)
    ensures !(CanWorkDay(s.staff[i], day) && SomeCapacity(s.board, day)) ==>
      r == PushToNextDayIfPossible(s, i, day)
    ensures Extends(s, r, day) && r.rng == s.rng
    ensures Indexed(s) ==> Indexed(r)
    ensures Consistent(s.board, s.staff) ==> Consistent(r.board, r.staff)
  {
    if !CanWorkDay(s.staff[i], day) then
      PushToNextDayIfPossible(s, i, day)
    else if HasCapacity(s.board, day, preferred) then
      Place(s, i, day, preferred)
    else
      TryAlternatives(s, i, day, preferred, 0)
  }

  /** The workers who stated a preference for `day`, in roster order. */
  function Candidates(staff: seq<Employee>, day: Day): (r: seq<nat>)
    ensures forall j: nat :: j in r <==> j < |staff| && day in staff[j].preferred
    ensures forall a, b :: 0 <= a < b < |r| ==> r[a] < r[b]
  {
    IndicesWhere(|staff|, (j: nat) => j < |staff| && day in staff[j].preferred, 0)
  }

  /** The preference pass over the candidates in the (shuffled) `order`. */
  function PreferencePass(s: State, day: Day, order: seq<nat>): (r: State)
    requires Indexed(s)
    requires forall k :: k in order ==> k < |s.staff| && day in s.staff[k].preferred
    ensures Indexed(r) && Extends(s, r, day) && r.rng == s.rng
    ensures Consistent(s.board, s.staff) ==> Consistent(r.board, r.staff)
    decreases |order|
  {
    if |order| == 0 then s
    else
      var i := order[0];
      assert i in order;
      var s' := AttemptAssign(s, i, day, s.staff[i].preferred[day]);
      assert forall k :: k in order[1..] ==> k in order;
      var r := PreferencePass(s', day, order[1..]);
      ExtendsTrans(s, s', r, day);
      r
  }

  /** Place worker `k` in the first shift of `order`, from position `from`
      on, that has room. */
  function FirstOpenShift(s: State, k: nat, day: Day, order: seq<Shift>, from: nat): (r: (bool, State))
    requires k < |s.staff| && from <= |order|
    ensures r.0 <==> exists j :: from <= j < |order| && HasCapacity(s.board, day, order[j])
    ensures r.0 ==> exists j :: from <= j < |order| && HasCapacity(s.board, day, order[j])
                       && (forall m :: from <= m < j ==> !HasCapacity(s.board, day, order[m]))
                       && r.1 == Place(s, k, day, order[j])
    ensures !r.0 ==> r.1 == s
    ensures Extends(s, r.1, day) && r.1.carryover == s.carryover && r.1.rng == s.rng
    ensures Consistent(s.board, s.staff) && CanWorkDay(s.staff[k], day) ==> Consistent(r.1.board, r.1.staff)
    decreases |order| - from
  {
    if from == |order| then (false, s)
    else if HasCapacity(s.board, day, order[from]) then (true, Place(s, k, day, order[from]))
    else FirstOpenShift(s, k, day, order, from + 1)
  }

  /** A reordering of the shift kinds still lists every shift kind. */
  lemma ReorderedShiftsCoverAll(order: seq<Shift>)
    requires multiset(order) == multiset(Shifts)
    ensures forall sh :: sh in order
  {
    ShiftsEnumerateAll();
    forall sh ensures sh in order {
      assert sh in Shifts;
      assert sh in multiset(Shifts);
      assert sh in multiset(order);
    }
  }

  /** Some shift has room exactly when some shift of a reordering has room. */
  lemma ReorderedShiftsOpen(b: Board, day: Day, order: seq<Shift>)
    requires multiset(order) == multiset(Shifts)
    ensures SomeCapacity(b, day) <==> exists j :: 0 <= j < |order| && HasCapacity(b, day, order[j])
  {
    if SomeCapacity(b, day) {
      var sh :| HasCapacity(b, day, sh);
      ReorderedShiftsCoverAll(order);
      var j :| 0 <= j < |order| && order[j] == sh;
    }
  }

  /** A carried-over worker takes any shift with room, the shift kinds tried
      in a freshly shuffled order. */
  function TryAnyShiftToday(s: State, k: nat, day: Day): (r: (bool, State))
    requires k < |s.staff|
    ensures r.0 <==> CanWorkDay(s.staff[k], day) && SomeCapacity(s.board, day)
    ensures r.0 ==> exists sh :: HasCapacity(s.board, day, sh) && r.1 == Place(s.(rng := r.1.rng), k, day, sh)
    ensures !r.0 ==> r.1 == s.(rng := r.1.rng)
    ensures Extends(s, r.1, day) && r.1.carryover == s.carryover
    ensures Consistent(s.board, s.staff) ==> Consistent(r.1.board, r.1.staff)
  {
    if !CanWorkDay(s.staff[k], day) then (false, s)
    else
      var (order, rng') := Shuffle(Shifts, s.rng);
      ReorderedShiftsOpen(s.board, day, order);
      FirstOpenShift(s.(rng := rng'), k, day, order, 0)
  }

  /** The carried-over workers placed today: not working `day` before, working it after. */
  ghost function NewlyWorking(s: State, r: State, day: Day): set<nat>
    requires |r.staff| == |s.staff|
  {
    set k | 0 <= k < |s.staff| && day !in s.staff[k].daysWorked && day in r.staff[k].daysWorked
  }

  lemma NewlyWorkingStep(s: State, s': State, r: State, k: nat, day: Day)
    requires k < |s.staff| && |s'.staff| == |s.staff| && |r.staff| == |s.staff|
    requires day !in s.staff[k].daysWorked && day in s'.staff[k].daysWorked
    requires forall j :: 0 <= j < |s.staff| && j != k ==> s'.staff[j] == s.staff[j]
    requires Extends(s', r, day)
    ensures multiset(NewlyWorking(s, r, day)) == multiset(NewlyWorking(s', r, day)) + multiset{k}
  {
    var a := NewlyWorking(s, r, day);
    var b := NewlyWorking(s', r, day);
    assert Grew(s'.staff[k], r.staff[k], day);
    assert k !in b;
    assert a == b + {k};
    assert multiset(b + {k}) == multiset(b) + multiset{k};
  }

  lemma KeptStep(rc: seq<nat>, n: multiset<nat>, sc: seq<nat>, todo: seq<nat>)
    requires |todo| > 0
    requires multiset(rc) + n == multiset(sc + [todo[0]]) + multiset(todo[1..])
    ensures multiset(rc) + n == multiset(sc) + multiset(todo)
  {
    var x := todo[0];
    assert todo == [x] + todo[1..];
    calc {
      multiset(sc + [x]) + multiset(todo[1..]);
      multiset(sc) + multiset{x} + multiset(todo[1..]);
      multiset(sc) + (multiset{x} + multiset(todo[1..]));
      multiset(sc) + multiset(todo);
    }
  }

  lemma PlacedStep(rc: seq<nat>, n: multiset<nat>, n': multiset<nat>, sc: seq<nat>, todo: seq<nat>)
    requires |todo| > 0 && n == n' + multiset{todo[0]}
    requires multiset(rc) + n' == multiset(sc) + multiset(todo[1..])
    ensures multiset(rc) + n == multiset(sc) + multiset(todo)
  {
    var x := todo[0];
    assert todo == [x] + todo[1..];
    calc {
      multiset(rc) + n;
      multiset(rc) + n' + multiset{x};
      multiset(sc) + multiset(todo[1..]) + multiset{x};
      multiset(sc) + (multiset{x} + multiset(todo[1..]));
      multiset(sc) + multiset(todo);
    }
  }

  /** One entry of the retry loop: a worker who cannot work `day` is
      skipped; otherwise `TryAnyShiftToday` decides.  The result tells
      whether the worker was placed. */
  function RetryOne(s: State, k: nat, day: Day): (r: (bool, State))
    requires k < |s.staff|
    ensures |r.1.staff| == |s.staff| && r.1.carryover == s.carryover
  {
    if !CanWorkDay(s.staff[k], day) then (false, s)
    else TryAnyShiftToday(s, k, day)
  }

  /** A retried worker is placed exactly when they can still work `day` and
      some shift has room; only that worker changes, and only on `day`. */
  lemma RetryOneSound(s: State, k: nat, day: Day)
    requires k < |s.staff|
    ensures var r := RetryOne(s, k, day);
      && Extends(s, r.1, day)
      && (Consistent(s.board, s.staff) ==> Consistent(r.1.board, r.1.staff))
      && (r.0 <==> CanWorkDay(s.staff[k], day) && SomeCapacity(s.board, day))
      && (r.0 ==> day !in s.staff[k].daysWorked && day in r.1.staff[k].daysWorked)
      && (r.0 ==> forall j :: 0 <= j < |s.staff| && j != k ==> r.1.staff[j] == s.staff[j])
      && (!r.0 ==> r.1.staff == s.staff && r.1.board == s.board)
  {
  }

  /** The retry loop's step when the worker at the head of `todo` is placed. */
  lemma RetryPlacedCase(s: State, r: State, day: Day, todo: seq<nat>)
    requires |todo| > 0 && todo[0] < |s.staff| && RetryOne(s, todo[0], day).0
    requires Extends(RetryOne(s, todo[0], day).1, r, day)
    requires multiset(r.carryover) + multiset(NewlyWorking(RetryOne(s, todo[0], day).1, r, day))
          == multiset(s.carryover) + multiset(todo[1..])
    ensures Extends(s, r, day)
    ensures multiset(r.carryover) + multiset(NewlyWorking(s, r, day))
         == multiset(s.carryover) + multiset(todo)
  {
    var s' := RetryOne(s, todo[0], day).1;
    RetryOneSound(s, todo[0], day);
    NewlyWorkingStep(s, s', r, todo[0], day);
    PlacedStep(r.carryover, multiset(NewlyWorking(s, r, day)), multiset(NewlyWorking(s', r, day)),
               s.carryover, todo);
    ExtendsTrans(s, s', r, day);
  }

  /** The retry loop's step when the worker at the head of `todo` is kept
      (the draws the failed attempt used stay consumed). */
  lemma RetryKeptCase(s: State, r: State, day: Day, todo: seq<nat>)
    requires |todo| > 0 && todo[0] < |s.staff| && !RetryOne(s, todo[0], day).0
    requires Extends(RetryOne(s, todo[0], day).1.(carryover := s.carryover + [todo[0]]), r, day)
    requires multiset(r.carryover)
          + multiset(NewlyWorking(RetryOne(s, todo[0], day).1.(carryover := s.carryover + [todo[0]]), r, day))
          == multiset(s.carryover + [todo[0]]) + multiset(todo[1..])
    ensures Extends(s, r, day)
    ensures multiset(r.carryover) + multiset(NewlyWorking(s, r, day))
         == multiset(s.carryover) + multiset(todo)
  {
    var s'' := RetryOne(s, todo[0], day).1.(carryover := s.carryover + [todo[0]]);
    RetryOneSound(s, todo[0], day);
    assert s''.staff == s.staff && s''.board == s.board;
    assert NewlyWorking(s'', r, day) == NewlyWorking(s, r, day);
    KeptStep(r.carryover, multiset(NewlyWorking(s, r, day)), s.carryover, todo);
  }

  /** One entry of the retry loop, with its bookkeeping: a worker who is
      not placed goes back on the carryover list; one who is placed leaves it. */
  function RetryHead(s: State, k: nat, day: Day): (r: State)
    requires Indexed(s) && k < |s.staff|
    ensures Indexed(r) && |r.staff| == |s.staff|
    ensures CanWorkDay(s.staff[k], day) && SomeCapacity(s.board, day) ==>
      r.carryover == s.carryover && day in r.staff[k].daysWorked
    ensures !(CanWorkDay(s.staff[k], day) && SomeCapacity(s.board, day)) ==>
      r.carryover == s.carryover + [k] && r.board == s.board && r.staff == s.staff
  {
    RetryOneSound(s, k, day);
    var (placed, s') := RetryOne(s, k, day);
    if placed then s' else s'.(carryover := s.carryover + [k])
  }

  /** The retry loop over the shuffled carryover; workers not placed are
      collected, in order, into the new carryover list. */
  function RetryEach(s: State, day: Day, todo: seq<nat>): (r: State)
    requires Indexed(s) && forall k :: k in todo ==> k < |s.staff|
    ensures Indexed(r) && |r.staff| == |s.staff|
    decreases |todo|
  {
    if |todo| == 0 then s
    else
      assert todo[0] in todo;
      assert forall j :: j in todo[1..] ==> j in todo;
      RetryEach(RetryHead(s, todo[0], day), day, todo[1..])
  }

  /** The retry loop keeps the entries already listed, in front, and lists
      again only entries it was given, never more of them than it was given. */
  lemma {:induction false} RetryEachKeeps(s: State, day: Day, todo: seq<nat>)
    requires Indexed(s) && forall k :: k in todo ==> k < |s.staff|
    ensures var r := RetryEach(s, day, todo);
      && s.carryover <= r.carryover && |r.carryover| <= |s.carryover| + |todo|
      && (forall k :: k in r.carryover ==> k in s.carryover || k in todo)
    decreases |todo|
  {
    if |todo| > 0 {
      var k := todo[0];
      assert k in todo;
      assert forall j :: j in todo[1..] ==> j in todo;
      var h := RetryHead(s, k, day);
      assert RetryEach(s, day, todo) == RetryEach(h, day, todo[1..]);
      RetryEachKeeps(h, day, todo[1..]);
    }
  }

  /** The retry loop only places workers on `day`, keeps the board
      consistent, and accounts for every entry: each one ends up either
      still carried over or among the workers newly placed on `day`. */
  lemma {:induction false} RetryEachSound(s: State, day: Day, todo: seq<nat>)
    requires Indexed(s) && forall k :: k in todo ==> k < |s.staff|
    ensures Extends(s, RetryEach(s, day, todo), day)
    ensures Consistent(s.board, s.staff) ==> Consistent(RetryEach(s, day, todo).board, RetryEach(s, day, todo).staff)
    ensures multiset(RetryEach(s, day, todo).carryover) + multiset(NewlyWorking(s, RetryEach(s, day, todo), day))
         == multiset(s.carryover) + multiset(todo)
    decreases |todo|
  {
    if |todo| == 0 {
      assert NewlyWorking(s, s, day) == {};
    } else {
      var k := todo[0];
      assert k in todo;
      assert forall j :: j in todo[1..] ==> j in todo;
      var h := RetryHead(s, k, day);
      var r := RetryEach(h, day, todo[1..]);
      assert RetryEach(s, day, todo) == r;
      RetryEachSound(h, day, todo[1..]);
      if RetryOne(s, k, day).0 {
        assert h == RetryOne(s, k, day).1;
        RetryPlacedCase(s, r, day, todo);
      } else {
        assert h == RetryOne(s, k, day).1.(carryover := s.carryover + [k]);
        RetryKeptCase(s, r, day, todo);
      }
    }
  }

  /** The retry pass over a shuffled carryover `order`, started from `s'`
      (the state with the list emptied and the shuffle's draws consumed),
      keeps the guarantees of the pass as seen from `s`. */
  lemma RetryCarryoverStep(s: State, s': State, day: Day, order: seq<nat>)
    requires Indexed(s') && s'.carryover == [] && s'.board == s.board && s'.staff == s.staff
    requires multiset(order) == multiset(s.carryover)
    requires forall k :: k in order ==> k < |s'.staff|
    ensures var r := RetryEach(s', day, order);
      && Extends(s, r, day)
      && (Consistent(s.board, s.staff) ==> Consistent(r.board, r.staff))
      && multiset(r.carryover) + multiset(NewlyWorking(s, r, day)) == multiset(s.carryover)
  {
    var r := RetryEach(s', day, order);
    RetryEachSound(s', day, order);
    assert NewlyWorking(s', r, day) == NewlyWorking(s, r, day);
  }

  /** The carryover retry pass: runs only when the carryover is non-empty.
      Each carried entry is removed exactly when its worker is placed. */
  function RetryCarryover(s: State, day: Day): (r: State)
    requires Indexed(s)
    ensures Indexed(r) && Extends(s, r, day)
    ensures Consistent(s.board, s.staff) ==> Consistent(r.board, r.staff)
    ensures multiset(r.carryover) + multiset(NewlyWorking(s, r, day)) == multiset(s.carryover)
    ensures |s.carryover| == 0 ==> r == s
  {
    if |s.carryover| == 0 then
      assert NewlyWorking(s, s, day) == {};
      s
    else
      var (order, rng') := Shuffle(s.carryover, s.rng);
      ShuffleKeepsMembers(s.carryover, s.rng);
      var s' := s.(carryover := [], rng := rng');
      RetryCarryoverStep(s, s', day, order);
      RetryEach(s', day, order)
  }

  /** Nobody is left who can work `day` and is not already placed on it. */
  ghost predicate NoneEligible(b: Board, staff: seq<Employee>, day: Day)
  {
    forall i :: 0 <= i < |staff| ==> !CanWorkDay(staff[i], day) || OnDay(b, day, staff[i].name)
  }

  /** The backfill's candidates, in roster order. */
  function Eligible(b: Board, staff: seq<Employee>, day: Day): (r: seq<nat>)
    ensures forall j: nat :: j in r <==> j < |staff| && CanWorkDay(staff[j], day) && !OnDay(b, day, staff[j].name)
    ensures forall a, c :: 0 <= a < c < |r| ==> r[a] < r[c]
    ensures |r| == 0 <==> NoneEligible(b, staff, day)
  {
    var r := IndicesWhere(|staff|, (j: nat) => j < |staff| && CanWorkDay(staff[j], day) && !OnDay(b, day, staff[j].name), 0);
    assert |r| > 0 ==> r[0] in r;
    r
  }

  /** Shift `sh` of `day` reached minimum staffing, or nobody was left to add. */
  ghost predicate StaffedOrExhausted(b: Board, staff: seq<Employee>, day: Day, sh: Shift)
  {
    Size(b, day, sh) >= MinEmployeesPerShift || NoneEligible(b, staff, day)
  }

  /** With minimum staffing equal to capacity, an understaffed cell has room:
      the backfill's capacity check never fails. */
  lemma BackfillCapacityCheckNeverFails(b: Board, day: Day, sh: Shift)
    requires Size(b, day, sh) < MinEmployeesPerShift
    ensures HasCapacity(b, day, sh)
  {
  }

  /** The backfill loop of one shift: add randomly picked eligible workers
      until the shift is staffed or nobody eligible is left. */
  function BackfillShift(s: State, day: Day, sh: Shift): (r: State)
    ensures Extends(s, r, day) && r.carryover == s.carryover
    ensures forall t :: t != sh ==> Cell(r.board, day, t) == Cell(s.board, day, t)
    ensures Consistent(s.board, s.staff) ==> Consistent(r.board, r.staff)
    ensures StaffedOrExhausted(r.board, r.staff, day, sh)
    ensures NoneEligible(s.board, s.staff, day) ==> r == s
    decreases MinEmployeesPerShift - Size(s.board, day, sh)
  {
    if Size(s.board, day, sh) >= MinEmployeesPerShift then s
    else
      var eligible := Eligible(s.board, s.staff, day);
      if |eligible| == 0 then s
      else
        var (j, rng') := NextInt(s.rng, |eligible|);
        var pick := eligible[j];
        assert pick in eligible;
        if HasCapacity(s.board, day, sh) then
          var s' := Place(s.(rng := rng'), pick, day, sh);
          var r := BackfillShift(s', day, sh);
          ExtendsTrans(s, s', r, day);
          r
        else
          assert false; s
  }

  /** The backfill over the shift kinds from position `k` on, in enumeration order. */
  function EnsureMinimumStaffing(s: State, day: Day, k: nat): (r: State)
    requires k <= |Shifts|
    ensures Extends(s, r, day) && r.carryover == s.carryover
    ensures Consistent(s.board, s.staff) ==> Consistent(r.board, r.staff)
    ensures forall sh :: k <= Ord(sh) ==> StaffedOrExhausted(r.board, r.staff, day, sh)
    ensures NoneEligible(s.board, s.staff, day) ==> r == s
    decreases |Shifts| - k
  {
    if k == |Shifts| then s
    else
      var s' := BackfillShift(s, day, Shifts[k]);
      var r := EnsureMinimumStaffing(s', day, k + 1);
      ExtendsTrans(s, s', r, day);
      ShiftsEnumerateAll();
      assert Cell(s'.board, day, Shifts[k]) <= Cell(r.board, day, Shifts[k]);
      r
  }

  /** The first stage of a day: shuffle the day's candidates, then run the
      preference pass over them in that order. */
  function PreferenceStage(s: State, day: Day): (r: State)
    requires Indexed(s)
    ensures Indexed(r) && Extends(s, r, day)
    ensures Consistent(s.board, s.staff) ==> Consistent(r.board, r.staff)
    ensures exists order: seq<nat> ::
      && multiset(order) == multiset(Candidates(s.staff, day))
      && (forall k :: k in order ==> k < |s.staff| && day in s.staff[k].preferred)
      && r == PreferencePass(s.(rng := r.rng), day, order)
  {
    var candidates := Candidates(s.staff, day);
    var (order, rng') := Shuffle(candidates, s.rng);
    ShuffleKeepsMembers(candidates, s.rng);
    PreferencePass(s.(rng := rng'), day, order)
  }

  /** The order the preference stage visits the candidates in: some
      reordering of them, fixed by the draws. */
  lemma PreferenceStageOrder(s: State, day: Day) returns (order: seq<nat>)
    requires Indexed(s)
    ensures multiset(order) == multiset(Candidates(s.staff, day))
    ensures forall k :: k in order ==> k < |s.staff| && day in s.staff[k].preferred
    ensures PreferenceStage(s, day) == PreferencePass(s.(rng := PreferenceStage(s, day).rng), day, order)
  {
    order := Shuffle(Candidates(s.staff, day), s.rng).0;
    ShuffleKeepsMembers(Candidates(s.staff, day), s.rng);
  }

  /** One day of the week: preference pass over the shuffled candidates,
      carryover retry, then the minimum-staffing backfill.  The later
      passes only add to what the preference pass placed. */
  function ScheduleDay(s: State, day: Day): (r: State)
    requires Indexed(s)
    ensures Indexed(r) && Extends(s, r, day)
    ensures Consistent(s.board, s.staff) ==> Consistent(r.board, r.staff)
    ensures forall sh :: StaffedOrExhausted(r.board, r.staff, day, sh)
    ensures forall sh :: Cell(PreferenceStage(s, day).board, day, sh) <= Cell(r.board, day, sh)
  {
    var s1 := PreferenceStage(s, day);
    var s2 := RetryCarryover(s1, day);
    var r := EnsureMinimumStaffing(s2, day, 0);
    ExtendsTrans(s, s1, s2, day);
    ExtendsTrans(s, s2, r, day);
    ExtendsTrans(s1, s2, r, day);
    r
  }

  /** Work on a later day does not undo an earlier day's outcome: its cells
      stay as they were and nobody becomes eligible for it again. */
  lemma ExtendsKeepsStaffed(s: State, r: State, day: Day, d: Day, sh: Shift)
    requires Extends(s, r, day) && d != day
    requires StaffedOrExhausted(s.board, s.staff, d, sh)
    ensures StaffedOrExhausted(r.board, r.staff, d, sh)
  {
    assert Cell(r.board, d, sh) == Cell(s.board, d, sh);
    if NoneEligible(s.board, s.staff, d) {
      forall i | 0 <= i < |r.staff|
        ensures !CanWorkDay(r.staff[i], d) || OnDay(r.board, d, r.staff[i].name)
      {
        assert Grew(s.staff[i], r.staff[i], day);
        assert r.board[d] == s.board[d];
      }
    }
  }

  /** Every shift of every day before `n` is staffed or had nobody left to add. */
  ghost predicate StaffedBefore(b: Board, staff: seq<Employee>, n: int)
  {
    forall d: Day, sh :: d < n ==> StaffedOrExhausted(b, staff, d, sh)
  }

  lemma StaffedBeforeNext(s: State, r: State, day: Day)
    requires Extends(s, r, day)
    requires forall sh :: StaffedOrExhausted(r.board, r.staff, day, sh)
    ensures StaffedBefore(s.board, s.staff, day) ==> StaffedBefore(r.board, r.staff, day + 1)
  {
    if StaffedBefore(s.board, s.staff, day) {
      forall d: Day, sh | d < day + 1 ensures StaffedOrExhausted(r.board, r.staff, d, sh) {
        if d != day {
          ExtendsKeepsStaffed(s, r, day, d, sh);
        }
      }
    }
  }

  /** Every day from `from` on, in calendar order. */
  function GenerateFrom(s: State, from: nat): (r: State)
    requires from <= NumDays && Indexed(s)
    ensures |r.staff| == |s.staff|
    ensures forall i :: 0 <= i < |s.staff| ==>
      r.staff[i].name == s.staff[i].name && r.staff[i].preferred == s.staff[i].preferred
    ensures Consistent(s.board, s.staff) ==> Consistent(r.board, r.staff)
    ensures StaffedBefore(s.board, s.staff, from) ==> StaffedBefore(r.board, r.staff, NumDays)
    decreases NumDays - from
  {
    if from == NumDays then s
    else
      var s' := ScheduleDay(s, from);
      StaffedBeforeNext(s, s', from);
      var r := GenerateFrom(s', from + 1);
      assert forall i :: 0 <= i < |s.staff| ==> Grew(s.staff[i], s'.staff[i], from);
      r
  }

  /** The engine's single operation, on the board and roster it is given;
      the carryover starts empty. */
  function GenerateWeeklySchedule(board: Board, staff: seq<Employee>, rng: Draws): (r: (Board, seq<Employee>))
    ensures |r.1| == |staff|
    ensures forall i :: 0 <= i < |staff| ==>
      r.1[i].name == staff[i].name && r.1[i].preferred == staff[i].preferred
    ensures Consistent(board, staff) ==> Consistent(r.0, r.1)
    ensures forall d: Day, sh :: StaffedOrExhausted(r.0, r.1, d, sh)
  {
    var s := GenerateFrom(State(board, staff, [], rng), 0);
    assert StaffedBefore(s.board, s.staff, NumDays);
    (s.board, s.staff)
  }

  /** Reset every worker's counters. */
  function ResetAll(staff: seq<Employee>): (r: seq<Employee>)
    ensures |r| == |staff|
    ensures forall i :: 0 <= i < |staff| ==>
      r[i].name == staff[i].name && r[i].preferred == staff[i].preferred
      && r[i].daysAssigned == 0 && r[i].daysWorked == {}
  {
    seq(|staff|, i requires 0 <= i < |staff| => ResetWorkCounters(staff[i]))
  }

  /** A generation cycle as the caller runs it: clear the board, reset the
      counters, generate.  The result is within capacity, double-booking
      free, consistent with every worker's counters, and every shift of
      every day is staffed or had nobody left to add. */
  function RunGeneration(board: Board, staff: seq<Employee>, rng: Draws): (r: (Board, seq<Employee>))
    requires UniqueNames(staff)
    ensures |r.1| == |staff|
    ensures forall i :: 0 <= i < |staff| ==>
      r.1[i].name == staff[i].name && r.1[i].preferred == staff[i].preferred
    ensures forall d: Day, sh :: Size(r.0, d, sh) <= MaxPerShift
    ensures NoDoubleBooking(r.0)
    ensures forall i :: 0 <= i < |r.1| ==>
      r.1[i].daysAssigned == |r.1[i].daysWorked| <= MaxDaysPerEmployee
    ensures forall i, d: Day :: 0 <= i < |r.1| ==> (d in r.1[i].daysWorked <==> OnDay(r.0, d, r.1[i].name))
    ensures forall i :: 0 <= i < |r.1| ==> r.1[i].daysAssigned == Placements(r.0, r.1[i].name, NumDays)
    ensures forall d: Day, sh :: StaffedOrExhausted(r.0, r.1, d, sh)
  {
    var staff0 := ResetAll(staff);
    ClearedAndResetIsConsistent(board, staff0);
    var r := GenerateWeeklySchedule(Clear(board), staff0, rng);
    ConsistentSpelledOut(r.0, r.1);
    r
  }
}
