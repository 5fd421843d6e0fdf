# Weekly shift scheduler, modelled in Dafny

This project models the assignment engine of a console shift scheduler
(`src/Main.java`). A roster of workers, each with an optional preferred
shift (Morning, Afternoon, Evening) per day of the week, is placed on a 7-day x
3-shift board. Each cell holds at most 2 names, each worker works at most 5
days, and every shift should reach a minimum of 2 workers. Each day, Monday
to Sunday, runs three passes:

1. a **preference pass** over the day's candidates in shuffled order: a
   worker who can work the day takes the preferred shift, else the first
   other shift with room; a worker who cannot work the day, or finds no
   room, is pushed onto a carry-over list, but only when a later day
   exists and the worker is under the 5-day cap (`src/Main.java:315-316`,
   `:335`, `:339`);
2. a **carry-over retry**: the list is shuffled, and every listed worker who
   can still work today takes any shift with room, tried in a shuffled
   order; placed workers leave the list;
3. a **minimum-staffing backfill**: for each shift in turn, random workers
   who can work today and are not yet on today's board are added until the
   shift has 2 names or nobody is left.

Modules, following the program's classes:

- `Config` (`config.dfy`): the constants, the days `0..6` and the
  three-constructor `Shift`.
- `Employees` (`employees.dfy`): the `Employee` record, with
  `resetWorkCounters`, `canWorkDay` and `assign`.
- `Schedule` (`schedule.dfy`): the board, with `clear`, `hasCapacity`,
  `add` and `size`.
- `Consistency` (`consistency.dfy`): the board/roster invariant
  (`Consistent`) and the lemma that a guarded placement preserves it.
- `Scheduler` (`scheduler.dfy`): the three passes and the weekly loop.
- `Randomness` (`randomness.dfy`): the shuffle and `nextInt`.
- `Indices` (`indices.dfy`): the stream filters.
- `Scenarios` (`scenarios.dfy`): worked examples on concrete rosters.

Randomness is an input. Every `Collections.shuffle` and `Random.nextInt`
takes its choices from a caller-supplied stream of draws (`Draws`,
a `seq<nat>`).

- `NextInt` returns the head of the stream modulo the bound.
- `Shuffle` repeatedly takes out the element at the drawn position.
- `ShuffleReachesEveryOrder` proves that every reordering comes from some
  stream.
- `ShuffleConsumesExactly` and `NextIntExact` prove that the stream
  producing a given shuffle outcome or draw is used up exactly, with whatever
  follows it left for the next random choice. A run's choices, each one
  a reordering or an in-range index, are therefore all produced by the
  concatenation of their streams. So a property proved "for every stream"
  holds whatever the Java scheduler's shuffles and draws come out as.

The engine keeps its state in an immutable `State`:

- the board;
- the roster, in insertion order (the `LinkedHashMap`'s order);
- the carry-over list, as positions in the roster;
- the remaining draws.

The main safety results:

- **`Consistent`** is preserved by every pass. It covers capacity, no double
  booking, counters matching the board, and the board naming only roster
  workers.
- **`RunGeneration`** (clear, reset, generate) states the weekly guarantees
  outright.

A lone worker who prefers only Monday Morning is placed not only on Monday.
On each later day they pass `canWorkDay` and are not on that day's board, so
the backfill (`src/Main.java:360-376`) puts them into Morning, until their
5-day cap. `Scenarios.LoneWorkerBackfilledIntoMorning` shows the backfill
placing such a worker on any workable day with an empty board.

## Model

| member | source | states |
|---|---|---|
| Employees.ResetWorkCounters | src/Main.java:221-228 | after a reset the counters are zero and consistent, and every day of the week is workable again |
| Employees.Assign | src/Main.java:230-233 | recording a day marks it worked (so it can no longer be worked) and leaves every other day's status unchanged |
| Employees.AssignKeepsCount | src/Main.java:226-233 | when `canWorkDay` guards `assign`, the invariant (`daysAssigned` equals the size of `daysWorked` and is at most 5) survives, with exactly one more day counted |
| Employees.UnguardedAssignBreaksCount | src/Main.java:226-233 | without the guard the invariant fails: for every counted worker, an `assign` of an already worked day counts a day that the set does not |
| Employees.CanWorkSomeDayIffUnderCap | src/Main.java:226-228 | for a counted worker, `canWorkDay` holds on some day of the week exactly when the worker is under the 5-day cap, and a workable day is produced |
| Schedule.Clear | src/Main.java:252-254 | clearing empties every cell of all 7 days, keeping the grid, so the cleared board is within capacity and has no double booking |
| Schedule.Add | src/Main.java:258-260 | `add` appends the name to the chosen cell and leaves every other cell unchanged |
| Schedule.HasCapacityExactlyWhenAddFits | src/Main.java:255-257 | on a board within capacity, `hasCapacity` holds exactly when one more `add` to the cell keeps the board within capacity |
| Schedule.SizeAfterAdd | src/Main.java:258-263 | `size` counts the adds made to a cell: one `add` raises that cell's size by one and no other cell's |
| Schedule.AddKeepsWithinCapacity | src/Main.java:255-260 | an `add` guarded by `hasCapacity` keeps every cell at most 2 names long |
| Schedule.AddOnDay | src/Main.java:258-260 | after an `add`, a name is on a day iff it was before or it is the added name on that day; the per-day count grows by one for exactly that pair |
| Schedule.DaysOnAfterAdd | src/Main.java:258-260 | an `add` gives the added name the day and changes no other name's set of days |
| Schedule.WeekPlacementsAreDays | src/Main.java:243 | without double booking, a name's placements over the week number exactly its days on the board |
| Consistency.PlaceKeepsSingleBooking | src/Main.java:320-330 | a placement guarded by `canWorkDay` cannot double-book: the worker was on no cell of that day |
| Consistency.PlaceKeepsCounters | src/Main.java:321-322 | pairing `add` with `assign` keeps each worker's `daysWorked` equal to their days on the board, within the cap |
| Consistency.PlaceKeepsConsistent | src/Main.java:374-376 | every guarded placement (worker can work the day, cell has room) preserves capacity, single booking, counter/board agreement and roster membership |
| Consistency.DaysAssignedArePlacements | src/Main.java:321-322 | on a consistent board a worker's `daysAssigned` equals the total number of their placements |
| Consistency.ConsistentSpelledOut | src/Main.java:252-263 | a consistent board has each cell within 2, no double booking, counters equal to the placements and `daysWorked` equal to the days on the board |
| Consistency.ClearedAndResetIsConsistent | src/Main.java:37-38 | a cleared board with freshly reset counters and unique names is consistent |
| Scheduler.Place | src/Main.java:320-323 | a placement appends the worker to one cell, touches no other cell and no other worker, marks the day worked, and preserves consistency when guarded |
| Scheduler.PushToNextDayIfPossible | src/Main.java:338-342 | a worker is appended to the carry-over list iff the day is not Sunday and they are under the 5-day cap; otherwise nothing changes |
| Scheduler.TryAlternatives | src/Main.java:326-335 | the alternative loop places the worker in the first non-preferred shift, in Morning-Afternoon-Evening order, that has room; if there is none, it falls back to the push |
| Scheduler.AttemptAssign | src/Main.java:313-336 | a worker who can work the day and finds any room goes to the preferred shift if it has room, else to the first other shift with room; otherwise they are pushed; consistency is preserved |
| Scheduler.Candidates | src/Main.java:283-285 | the day's candidates are exactly the roster positions with a preference for that day, in roster order |
| Scheduler.PreferencePass | src/Main.java:289-292 | the preference pass only places workers on the given day, touches no other day, and preserves consistency |
| Scheduler.PreferenceStage | src/Main.java:283-292 | the first stage of a day runs the preference pass over some reordering of exactly the day's candidates |
| Scheduler.PreferenceStageOrder | src/Main.java:287 | the order the preference pass visits is a reordering of the candidates, fixed by the draws |
| Scheduler.FirstOpenShift | src/Main.java:348-355 | the loop over the shuffled shift kinds places the worker in the first listed shift with room, and reports success iff one exists |
| Scheduler.ReorderedShiftsOpen | src/Main.java:346-347 | a shuffled list of the shift kinds has a shift with room iff the day has one |
| Scheduler.TryAnyShiftToday | src/Main.java:344-356 | a carried-over worker is placed, in some shift with room, iff they can work the day and the day has room; otherwise the board and roster are unchanged |
| Scheduler.RetryHead | src/Main.java:298-303 | one entry of the retry loop leaves the list exactly when its worker can work the day and some shift has room (the worker is then on the day); otherwise it stays listed and the board and roster are unchanged |
| Scheduler.RetryEachKeeps | src/Main.java:297-304 | the retry loop keeps the entries already listed, in front, and lists again only entries it was given, never more of them than it was given |
| Scheduler.RetryOneSound | src/Main.java:298-303 | one retry step places the worker iff they can work the day and some shift has room; only that worker changes |
| Scheduler.RetryEachSound | src/Main.java:296-304 | over the retry loop, the entries left on the list plus the workers newly placed on the day make up exactly the entries the loop started with |
| Scheduler.RetryCarryover | src/Main.java:294-305 | an entry leaves the carry-over list exactly when its worker is placed that day; an empty list leaves the state unchanged; consistency is preserved |
| Scheduler.Eligible | src/Main.java:362-369 | the backfill's eligible workers are exactly those who can work the day and are not on any of its cells, in roster order; the list is empty iff nobody is eligible |
| Scheduler.BackfillCapacityCheckNeverFails | src/Main.java:374-379 | because the minimum equals the capacity, an understaffed cell always has room, so the `else break` branch is dead |
| Scheduler.BackfillShift | src/Main.java:360-380 | the backfill loop of one shift terminates with the shift at 2 names or nobody eligible, changes no other shift, and preserves consistency |
| Scheduler.EnsureMinimumStaffing | src/Main.java:358-382 | after the backfill every shift of the day is staffed to the minimum or nobody eligible remains |
| Scheduler.ScheduleDay | src/Main.java:280-308 | a day's three passes touch only that day, preserve consistency, and end with every shift staffed or nobody eligible; the later passes only add to the preference pass's cells |
| Scheduler.GenerateFrom | src/Main.java:280-309 | processing the remaining days keeps each worker's identity and preferences, preserves consistency, and keeps earlier days' staffing outcomes |
| Scheduler.GenerateWeeklySchedule | src/Main.java:276-311 | the weekly loop preserves consistency and leaves every shift of every day staffed to the minimum or with nobody eligible |
| Scheduler.ResetAll | src/Main.java:38 | resetting the roster keeps every worker's name and preferences and zeroes every counter |
| Scheduler.RunGeneration | src/Main.java:37-39 | a generation cycle yields cells of at most 2, no double booking, counters equal to placements and to the days on the board, and every shift staffed or nobody left to add |
| Randomness.NextInt | src/Main.java:373 | a drawn index is within the bound and consumes one draw |
| Randomness.Shuffle | src/Main.java:287 | a shuffle returns a reordering of its input (the same multiset) |
| Randomness.ShuffleKeepsMembers | src/Main.java:296 | a shuffle keeps exactly the members of its input |
| Randomness.ShuffleReachesEveryOrder | src/Main.java:347 | every reordering of the input is the shuffle of some stream of draws |
| Randomness.ShuffleConsumesExactly | src/Main.java:287 | the stream that makes a shuffle yield a given reordering is used up exactly, and what follows it is left untouched for the next choice |
| Randomness.NextIntExact | src/Main.java:373 | an in-range draw is returned as it is and uses up exactly one element of the stream |
| Indices.IndicesWhere | src/Main.java:362-369 | the filter keeps exactly the positions that satisfy the predicate, in increasing order |
| Scenarios.TwoMorningWorkersFillMondayMorning | src/Main.java:283-292 | two fresh workers who both prefer Monday Morning end up together in Monday Morning, whatever the draws |
| Scenarios.FullEveningFallsBackToMorning | src/Main.java:326-333 | a worker whose preferred Evening is full goes to Morning when Morning has room |
| Scenarios.LoneWorkerBackfilledIntoMorning | src/Main.java:358-381 | a lone workable worker on a day with empty cells is backfilled into Morning, and Afternoon and Evening stay empty |

## Left out

- The console menu, `Scanner` input, `inputEmployees` and `parseShift`: I/O and input parsing, outside the engine (`src/Main.java:17-123`).
- The `scheduleGenerated` flag and the "no employees" guard of the menu: console state. `RunGeneration` runs the generation on any roster.
- `printScheduleTable`, `padRight` and `repeat`: output formatting only.
- `java.util.Random` itself is not modelled. Its outputs are the caller-supplied `Draws`. An exhausted stream yields index 0.
- The `preferred != null` test (`src/Main.java:320`) always holds. The candidates are filtered by `containsKey` and no null value is ever stored. `preferred` is therefore a plain `Shift`.
- Java `int` overflow of `daysAssigned` is not modelled. The counter never exceeds 5.
- Employee objects are shared by reference between the roster and the carry-over list. The model stores positions in the roster instead.
- Randomness.NextInt: for a non-empty stream it returns the draw modulo the bound. It is not uniform, and it makes no claim about the distribution of `Random.nextInt`.
