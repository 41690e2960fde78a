# Timetable generator — a verified Dafny model

This project models the timetable generator of the Teacher_Scheduler
backend: the code that turns per-class subject requirements into weekly
timetable entries (class, slot, subject, faculty, room) so that no class,
faculty or room is booked twice in the same slot. It also models the
duration-to-`HH:MM:SS` conversion used when timetable data is serialised.

The model, file by file:

- `catalog.dfy` (module `Catalog`): the records the generator reads and
  writes (class, subject with its capable faculties, room, time slot,
  requirement row, task, entry), the year-group rule for slots, and the
  weekday index used to sort slots.
- `ordering.dfy` (module `Ordering`): Python's stable `list.sort(key=…)` as a
  stable insertion sort, proved sorted, a permutation, and stable. It is used
  to sort slots by (weekday index, period) and to put lab tasks first.
- `shuffle.dfy` (module `Shuffle`): `random.shuffle` with the generator made
  an explicit object. Each shuffle draws one number from an arbitrary stream
  and uses it as the index of a permutation. Every permutation is reachable,
  so the model covers every order the library could produce.
- `preparation.dfy` (module `Preparation`): grouping the requirement rows by
  class, in first-appearance order as a Python dict keeps them; finding a
  class record; splitting rooms into a lab pool and a lecture pool; and
  expanding requirements into one task per weekly period. It proves that the
  number of tasks is the sum of `hours` over the rows whose class exists.
- `solver.dfy` (module `Solver`): the backtracking search. A `Scheduler` object
  holds the three busy sets, the result list and the two room pools.
  `Solve` is the recursive call; `TrySlots`, `TryFaculties` and `TryRooms`
  are its three nested loops (slot, faculty, room), and `TryPlace` is the
  body of the room loop: assign, recurse, backtrack. `Book` and `Unbook` are
  the assign and backtrack steps.
- `generate.dfy` (module `Generate`): the reading step and one whole
  generation run. It states the end-to-end contract: demand count, labs
  first, one correct placement per task, no double booking.
- `time_format.dfy` (module `TimeFormat`): the `timedelta` branch of
  `time_converter`, with the field bounds, the recombination, the output
  shape and a parse-back round trip.
- `wrappers.dfy` (module `Wrappers`): the `Option` type.

Decisions worth knowing when reading the model:

- The three busy dicts only ever map a key to `True`, and a lookup only tests
  truthiness. They are modelled as sets of `(id, slot)` keys. `pop` is set
  difference.
- The room loop re-reads the pool field at every step. In the source the
  recursion shuffles the same list object in place (`random.shuffle(
  possible_locations)` aliases `context['lab_rooms']` or
  `context['lecture_rooms']`), and the Python list iterator continues by
  index over the reordered list. The model keeps that aliasing. The proofs
  show that it never breaks correctness, because the pools only ever hold the
  same rooms in another order. The search may, however, visit one room twice
  and skip another for the same slot and faculty. Skipping loses no
  timetable: the first free room of the pool is always tried before any
  recursion reorders the pool, and any two rooms of one kind that are free
  in a slot can be exchanged in any completion. So a failed search means
  that no timetable exists.
- Rooms are matched by id. The exchange argument needs rooms that share an
  id to be of one kind. `location_id` is the primary key of the rooms table
  (backend/models.py:82), so this always holds for the room list the
  generator reads. The completeness contracts state it as a hypothesis
  (`RoomKindsAgree`).
- The search recursion is split into five mutually recursive methods: the
  call itself, one per nested loop and the placement step. The order of the
  checks, the `continue`s and the early return on success are those of the
  source.
- `sort(key=is_lab, reverse=True)` is a stable sort. It is modelled as the
  stable ascending sort on the key 0 for a lab task and 1 for any other task.
- A requirement's `hours` is an unconstrained integer column. `range(hours)`
  yields nothing when `hours` is not positive, so such a row contributes no
  task.
- The year group of a slot is a free string (backend/scheduler.py:83-85):
  `'1'` restricts a slot to year 1, `'2-3+'` restricts it to year 2 and
  above, and any other value (not only `'ALL'`) leaves it open.
- A failed run does not preserve an older timetable: the generator deletes
  all stored entries before it searches (backend/scheduler.py:124-125).
- A requirement row's lab flag is its subject's `is_lab`, read through the
  row's relationship (backend/scheduler.py:41). `GenerateTimetable` takes
  rows that agree with the subject records they name, which is how the
  source builds them.

## Model

| member | source | states |
|---|---|---|
| `Catalog.DayIndex` | backend/scheduler.py:25-27 | a listed weekday maps to its position in Monday..Saturday, any other day string to 99 |
| `Catalog.DayIndexOrder` | backend/scheduler.py:25-27 | every listed day sorts before every unlisted one, and listed days sort in weekday order |
| `Catalog.YearApplies` | backend/scheduler.py:83-85 | whether a slot's year group admits a class year; its cases are stated by `YearAppliesCases` |
| `Catalog.YearAppliesCases` | backend/scheduler.py:83-85 | a `'1'` slot is open exactly to year 1, a `'2-3+'` slot exactly to years ≥ 2, every other group to all years |
| `Ordering.SortBySorted` | backend/scheduler.py:27 | the stable sort's output is ordered by the key |
| `Ordering.SortByStable` | backend/scheduler.py:27 | elements with equal keys keep their input order |
| `Ordering.SortBy` | backend/scheduler.py:27 | the sort's output is a permutation of its input |
| `Ordering.SlotKey` | backend/scheduler.py:27 | the slot sort key: the weekday index, then the period |
| `Ordering.SortSlots` | backend/scheduler.py:25-28 | the slot order is a permutation of the slots, sorted by (weekday index, period) |
| `Ordering.SortSlotsSpec` | backend/scheduler.py:25-28 | sorted slots are the same slots, non-decreasing by (weekday index, period), ties in input order |
| `Ordering.LabKey` | backend/scheduler.py:154 | the labs-first key: 0 for a lab task, 1 for any other, so the ascending stable sort equals the reversed sort on `is_lab` |
| `Ordering.LabsFirst` | backend/scheduler.py:154 | the labs-first order is a permutation of the tasks, sorted by the lab key |
| `Ordering.LabsFirstSpec` | backend/scheduler.py:152-154 | labs-first ordering is the lab tasks in input order followed by the other tasks in input order; every lab precedes every non-lab; a permutation |
| `Shuffle.Shuffled` | backend/scheduler.py:76-77 | a shuffle is a permutation of its input |
| `Shuffle.ShuffledMembers` | backend/scheduler.py:76-77 | a shuffle holds exactly the elements it was given |
| `Shuffle.ShuffledReachesAll` | backend/scheduler.py:76-77 | every rearrangement of the input is the shuffle for some drawn number |
| `Shuffle.Random.Shuffle` | backend/scheduler.py:152 | a shuffle consumes one draw and returns the permutation that draw selects |
| `Preparation.ClassOrder` | backend/scheduler.py:34-36 | the grouping keys are exactly the class ids of the rows, without repeats |
| `Preparation.GroupByClass` | backend/scheduler.py:32-42 | keys in first-appearance order, each class mapped to its requirements in row order |
| `Preparation.RowsOfMember` | backend/scheduler.py:40-42 | every grouped requirement comes from a row of that class |
| `Preparation.RowsOfComplete` | backend/scheduler.py:32-42 | every row of a class is among that class's grouped requirements |
| `Preparation.Grouped` | backend/scheduler.py:32-42 | a class id is a key exactly when some row has it, and a requirement is in a class's list exactly when some row of that class carries it |
| `Preparation.RowsOfExactly` | backend/scheduler.py:32-42 | the requirements grouped under a class are exactly those of the rows of that class |
| `Preparation.FindClass` | backend/scheduler.py:140 | returns the first class with the id, or nothing exactly when no class has it |
| `Preparation.LabRooms` | backend/scheduler.py:134 | the lab pool holds exactly the lab rooms |
| `Preparation.LectureRooms` | backend/scheduler.py:133 | the lecture pool holds exactly the non-lab rooms |
| `Preparation.PoolsPartition` | backend/scheduler.py:133-134 | the two pools together are the room list, each room once per listing |
| `Preparation.Periods` | backend/scheduler.py:144 | the number of periods `range(hours)` yields: `hours` when positive, otherwise none |
| `Preparation.Copies` | backend/scheduler.py:144-150 | a requirement yields `hours` identical tasks, none when `hours` ≤ 0 |
| `Preparation.ExpandClass` | backend/scheduler.py:143-150 | every task of a class comes from one of its requirements |
| `Preparation.Expansion` | backend/scheduler.py:138-150 | every task belongs to a listed class that exists, carries its year, and matches a requirement's subject and lab flag |
| `Preparation.ExpandDemand` | backend/scheduler.py:137-150 | the expansion loops build exactly the class-by-class, requirement-by-requirement task list |
| `Preparation.DemandCount` | backend/scheduler.py:32-42 | summing per grouped class gives the sum over the rows whose class exists |
| `Preparation.TaskCount` | backend/scheduler.py:137-150 | the task count is the sum of `hours` over the rows whose class exists |
| `Solver.AppendKeys` | backend/scheduler.py:98-102 | placing an entry adds exactly its class, faculty and room keys to the busy sets |
| `Solver.AppendFree` | backend/scheduler.py:88-100 | an entry whose three keys are free keeps the results free of double booking |
| `Solver.FreeTripleReordered` | backend/scheduler.py:76-77 | shuffling the faculty list and the room pool cannot remove a free (slot, faculty, room) triple |
| `Solver.Faculties` | backend/scheduler.py:71-72 | the candidate faculties: the subject's faculty ids, or none when the subject is unknown |
| `Solver.HeadKeysFree` | backend/scheduler.py:88-95 | in any completion, the head task's class, faculty and room keys are not already booked |
| `Solver.ClassBusyExcludes` | backend/scheduler.py:88 | a slot where the class is already busy admits no completion for the head task, with any faculty |
| `Solver.FacultyBusyExcludes` | backend/scheduler.py:91 | a faculty already busy in the slot admits no completion through that slot and faculty |
| `Solver.RoomsBusyExclude` | backend/scheduler.py:93-95 | when every room of the head task's kind is busy in the slot, no completion goes through that slot and faculty |
| `Solver.SwapKeepsDistinct` | backend/scheduler.py:93-102 | exchanging two rooms within one slot keeps a timetable free of double booking |
| `Solver.SwapHead` | backend/scheduler.py:93-108 | in a completion, the head task's room can be replaced by any free room of its kind in the same slot, and the rest is still a completion |
| `Solver.SwapExcludes` | backend/scheduler.py:93-114 | if placing the head in one free room of its kind cannot be completed, no completion goes through that slot and faculty at all |
| `Solver.SlotsExhausted` | backend/scheduler.py:79-88 | excluding every slot open to the class's year, for every faculty of a list, excludes that list as the head's faculty |
| `Solver.FacultiesExhausted` | backend/scheduler.py:71-76 | excluding every capable faculty excludes every completion |
| `Solver.SolvedPlacements` | backend/scheduler.py:102-108 | the head placement plus the recursive placements place the whole task list in order |
| `Solver.Scheduler.constructor` | backend/scheduler.py:156-165 | the search starts with both pools from the room list, empty schedules and no results |
| `Solver.Scheduler.Pool` | backend/scheduler.py:74 | the pool the head task draws from: the lab rooms for a lab task, the lecture rooms otherwise |
| `Solver.Scheduler.ShufflePool` | backend/scheduler.py:77 | the pool of the task's kind is shuffled in place, the other left alone, the pools stay valid |
| `Solver.Scheduler.Book` | backend/scheduler.py:97-105 | marks the three keys busy and appends the entry |
| `Solver.Scheduler.Unbook` | backend/scheduler.py:110-114 | removes the three keys and the last result |
| `Solver.Scheduler.Solve` | backend/scheduler.py:50-116 | empty list: success with nothing changed; success: one correct placement per task in order; failure: schedules and results exactly restored; always no double booking; no subject, no faculty or empty pool: failure; a single task with a free (slot, capable faculty, room of its kind) triple: success; failure with rooms of one kind per id: no completion of the task list exists |
| `Solver.Scheduler.TrySlots` | backend/scheduler.py:79-88 | tries the slots in order, skipping those closed to the class's year or where the class is busy; success extends the results correctly, failure restores them; a single task with a free triple in some slot: success; failure: no completion gives the head task a faculty of the list |
| `Solver.Scheduler.TryFaculties` | backend/scheduler.py:90-91 | tries the capable faculties for one open slot; success extends the results correctly, failure restores them; a single task with a free faculty and a free room in the slot: success; failure: no completion places the head task in this slot with a faculty of the list |
| `Solver.Scheduler.TryRooms` | backend/scheduler.py:93-95 | success extends the results with correct placements, failure restores them, and the pool is re-read at each index; a single task with a free room in the slot: success; failure: no completion places the head task in this slot with this faculty |
| `Solver.Scheduler.TryPlace` | backend/scheduler.py:97-114 | a free (slot, faculty, room) placement followed by the rest of the list: success extends the results correctly, failure restores them; a single task always succeeds; failure: the placement cannot be completed |
| `Generate.FetchSchedulingData` | backend/scheduler.py:12-44 | the slots come back sorted and the rows grouped by class |
| `Generate.ExpansionOrigin` | backend/scheduler.py:138-150 | every expanded task comes from a requirement row of an existing class, with that class's year |
| `Generate.AssignmentsNeeded` | backend/scheduler.py:136-154 | the task list is exactly the expansion of the rows of existing classes, reordered, labs first; its length is the demand and each task comes from a row |
| `Generate.GroupingIsGrouped` | backend/scheduler.py:32-42 | a grouping in first-appearance order holding each class's rows is the grouping map of the rows |
| `Generate.RoomsOfSubjectKind` | backend/scheduler.py:71-74 | placed tasks whose rows agree with their subjects sit in rooms of their subject's kind |
| `Generate.PlaceableIsFree` | backend/scheduler.py:156-165 | a task with a slot open to its year, a capable faculty and a room of its kind has a free triple in the fresh search context |
| `Generate.GenerateTimetable` | backend/scheduler.py:119-168 | tasks are exactly the periods the rows of existing classes ask for (as a multiset), number the demand, come from rows, labs first; on success one entry per task, each a correct placement in a room of its subject's kind, no double booking; a single task with an open slot, a capable faculty and a room of its kind: success; `Infeasible` with rooms of one kind per id: no timetable placing every task exists |
| `TimeFormat.TruncatedSeconds` | backend/database.py:38 | the whole seconds are the floor of the exact duration: the fraction is dropped |
| `TimeFormat.Split` | backend/database.py:39-41 | minutes and seconds lie in 0..59 and hours·3600 + minutes·60 + seconds is the input |
| `TimeFormat.SplitUnique` | backend/database.py:39-41 | those bounds and that sum determine the three fields |
| `TimeFormat.Decimal` | backend/database.py:42 | an integer's decimal form is all digits, one digit exactly below 10, with no leading zero |
| `TimeFormat.DecimalValue` | backend/database.py:42 | reading an integer's decimal digits back gives the integer |
| `TimeFormat.Pad2` | backend/database.py:42 | the `02` field is digits worth the number, at least two long, exactly two below 100, with no leading zero from 10 on |
| `TimeFormat.Render` | backend/database.py:38-42 | the output is at least eight characters with colons third and sixth from the end |
| `TimeFormat.RenderShape` | backend/database.py:42 | output is hours, `:`, two minute digits, `:`, two second digits; eight characters exactly when hours < 100 |
| `TimeFormat.RoundTrip` | backend/database.py:38-42 | parsing the output back gives the truncated number of seconds |

## Left out

- Database reads, the ORM and the `None` return when a read fails
  (backend/scheduler.py:46-48): the records arrive as parameters of
  `FetchSchedulingData` and `GenerateTimetable`.
- Deleting old entries, the bulk insert, the commit and the rollback
  (backend/scheduler.py:124-125, 171-185, 198): persistence I/O.
- The Flask route, the printed messages and the JSON response
  (backend/scheduler.py:118-122, 186-200).
- The dict comprehension that builds the subject lookup
  (backend/scheduler.py:20): the lookup arrives as a map.
- The Mersenne Twister behind `random.shuffle`: replaced by an arbitrary
  stream of numbers, each selecting one permutation.
- The `datetime.time` and fallback branches of `time_converter`
  (backend/database.py:43-45): library formatting calls.
- Negative durations and the floating-point rounding of `total_seconds()`:
  a duration is modelled as whole days, seconds and microseconds, all
  non-negative.
- The connection helpers and table creation in backend/database.py.
- Solver.Scheduler.Solve: the source recurses once per placed task
  (backend/scheduler.py:107), so under Python's default recursion limit a
  run of about a thousand tasks raises `RecursionError`, which the handler
  turns into an error response (backend/scheduler.py:197-200). The model
  recurses without a depth bound, so `GenerateTimetable` can report a
  timetable where the program reports an error.
- Solver.Scheduler.Solve: failure is proved to mean that no completion
  exists only when rooms that share an id are of one kind. The primary key
  of the rooms table guarantees this (backend/models.py:82). A room list
  that breaks it cannot come from the database.
- Generate.GenerateTimetable: `Infeasible` is proved to mean that no
  timetable exists only under the same condition on room ids, for the same
  reason.
