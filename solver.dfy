/** `solve_timetable_backtracking` in backend/scheduler.py: a recursive
    search that places the head task on a (slot, faculty, room) triple, marks
    the class, the faculty and the room busy in that slot, recurses on the
    remaining tasks, and undoes the placement when the recursion fails. */
module Solver {
  import opened Catalog
  import opened Preparation
  import opened Shuffle

  /** The read-only part of the search context: the slots in search order,
      the subjects by id, and every room. */
  datatype Context = Context(timeslots: seq<TimeSlot>, subjects: map<int, Subject>, locations: seq<Location>)

  // What a correct placement is

  predicate SlotFits(ctx: Context, slotId: int, year: int) {
    exists s :: s in ctx.timeslots && s.slotId == slotId && YearApplies(s.yearGroup, year)
  }

  predicate Capable(ctx: Context, subjectId: int, facultyId: int) {
    subjectId in ctx.subjects && facultyId in ctx.subjects[subjectId].faculties
  }

  predicate RoomFits(ctx: Context, locationId: int, isLab: bool) {
    exists l :: l in ctx.locations && l.locationId == locationId && l.isLab == isLab
  }

  /** `e` places task `t`: same class and subject, a slot open to the class's
      year, a faculty able to teach the subject, a room of the task's kind. */
  predicate Placement(ctx: Context, t: Task, e: Entry) {
    && e.classId == t.classId && e.subjectId == t.subjectId
    && SlotFits(ctx, e.slotId, t.year)
    && Capable(ctx, t.subjectId, e.facultyId)
    && RoomFits(ctx, e.locationId, t.isLab)
  }

  // Double booking

  type BusyKey = (int, int)

  function ClassKey(e: Entry): BusyKey { (e.classId, e.slotId) }
  function FacultyKey(e: Entry): BusyKey { (e.facultyId, e.slotId) }
  function LocationKey(e: Entry): BusyKey { (e.locationId, e.slotId) }

  function ClassKeys(rs: seq<Entry>): set<BusyKey> { set e | e in rs :: ClassKey(e) }
  function FacultyKeys(rs: seq<Entry>): set<BusyKey> { set e | e in rs :: FacultyKey(e) }
  function LocationKeys(rs: seq<Entry>): set<BusyKey> { set e | e in rs :: LocationKey(e) }

  /** No two entries share a class and slot, a faculty and slot, or a room
      and slot: the three unique keys of the `TimetableEntries` table. */
  predicate NoDoubleBooking(rs: seq<Entry>) {
    forall i, j :: 0 <= i < j < |rs| ==>
      ClassKey(rs[i]) != ClassKey(rs[j]) && FacultyKey(rs[i]) != FacultyKey(rs[j])
      && LocationKey(rs[i]) != LocationKey(rs[j])
  }

  /** Appending an entry adds its three keys to the three key sets. */
  lemma AppendKeys(rs: seq<Entry>, e: Entry)
    ensures ClassKeys(rs + [e]) == ClassKeys(rs) + {ClassKey(e)}
    ensures FacultyKeys(rs + [e]) == FacultyKeys(rs) + {FacultyKey(e)}
    ensures LocationKeys(rs + [e]) == LocationKeys(rs) + {LocationKey(e)}
  {
    assert forall x :: x in rs + [e] <==> x in rs || x == e;
  }

  /** An entry whose three keys are all free can be appended without double
      booking anything. */
  lemma AppendFree(rs: seq<Entry>, e: Entry)
    requires NoDoubleBooking(rs)
    requires ClassKey(e) !in ClassKeys(rs) && FacultyKey(e) !in FacultyKeys(rs)
    requires LocationKey(e) !in LocationKeys(rs)
    ensures NoDoubleBooking(rs + [e])
  {
    var rs' := rs + [e];
    forall i, j | 0 <= i < j < |rs'|
      ensures ClassKey(rs'[i]) != ClassKey(rs'[j]) && FacultyKey(rs'[i]) != FacultyKey(rs'[j])
      ensures LocationKey(rs'[i]) != LocationKey(rs'[j])
    {
      if j == |rs| {
        assert rs'[i] in rs;
      }
    }
  }

  /** `after` is `before` followed by one correct placement per task, in
      task order. */
  ghost predicate Extends(ctx: Context, before: seq<Entry>, after: seq<Entry>, tasks: seq<Task>) {
    && |after| == |before| + |tasks| && after[..|before|] == before
    && forall i :: 0 <= i < |tasks| ==> Placement(ctx, tasks[i], after[|before| + i])
  }

  /** Each pool holds exactly the rooms of the context of its own kind. */
  ghost predicate PoolsOk(ctx: Context, labRooms: seq<Location>, lectureRooms: seq<Location>) {
    && (forall l :: l in labRooms <==> l in ctx.locations && l.isLab)
    && (forall l :: l in lectureRooms <==> l in ctx.locations && !l.isLab)
  }

  /** Each busy set is exactly the set of keys of the placed entries, and the
      placed entries never double book. */
  ghost predicate Booking(results: seq<Entry>, classBusy: set<BusyKey>, facultyBusy: set<BusyKey>, locationBusy: set<BusyKey>) {
    && classBusy == ClassKeys(results)
    && facultyBusy == FacultyKeys(results)
    && locationBusy == LocationKeys(results)
    && NoDoubleBooking(results)
  }

  /** `[f.faculty_id for f in subject_obj.faculties] if subject_obj else []`. */
  function Faculties(subjects: map<int, Subject>, subjectId: int): seq<int> {
    if subjectId in subjects then subjects[subjectId].faculties else []
  }

  // A free (slot, faculty, room) triple for a task

  /** Some room of `pool` is free in slot `slotId`. */
  ghost predicate FreeRoom(pool: seq<Location>, slotId: int, locationBusy: set<BusyKey>) {
    exists l :: l in pool && (l.locationId, slotId) !in locationBusy
  }

  /** Some faculty of `fs` is free in slot `slotId`. */
  ghost predicate FreeFaculty(fs: seq<int>, slotId: int, facultyBusy: set<BusyKey>) {
    exists f :: f in fs && (f, slotId) !in facultyBusy
  }

  /** Slot `s` is open to `t`'s year, `t`'s class is free in it, and so are a
      faculty of `fs` and a room of `pool`. */
  ghost predicate FreeAt(t: Task, s: TimeSlot, fs: seq<int>, pool: seq<Location>,
                         classBusy: set<BusyKey>, facultyBusy: set<BusyKey>, locationBusy: set<BusyKey>) {
    && YearApplies(s.yearGroup, t.year) && (t.classId, s.slotId) !in classBusy
    && FreeFaculty(fs, s.slotId, facultyBusy) && FreeRoom(pool, s.slotId, locationBusy)
  }

  /** Some slot of the context is free for `t` with a faculty of `fs` and a
      room of `pool`. */
  ghost predicate FreeTriple(ctx: Context, t: Task, fs: seq<int>, pool: seq<Location>,
                             classBusy: set<BusyKey>, facultyBusy: set<BusyKey>, locationBusy: set<BusyKey>) {
    exists s :: s in ctx.timeslots && FreeAt(t, s, fs, pool, classBusy, facultyBusy, locationBusy)
  }

  /** No slot of `slots` is free for `t` with a faculty of `fs` and a room of
      `pool`. */
  ghost predicate NoFreeSlot(t: Task, slots: seq<TimeSlot>, fs: seq<int>, pool: seq<Location>,
                             classBusy: set<BusyKey>, facultyBusy: set<BusyKey>, locationBusy: set<BusyKey>) {
    forall s :: s in slots ==> !FreeAt(t, s, fs, pool, classBusy, facultyBusy, locationBusy)
  }

  lemma NoFreeSlotStep(t: Task, slots: seq<TimeSlot>, si: nat, fs: seq<int>, pool: seq<Location>,
                       classBusy: set<BusyKey>, facultyBusy: set<BusyKey>, locationBusy: set<BusyKey>)
    requires si < |slots|
    ensures (NoFreeSlot(t, slots[..si], fs, pool, classBusy, facultyBusy, locationBusy)
             && !FreeAt(t, slots[si], fs, pool, classBusy, facultyBusy, locationBusy))
        ==> NoFreeSlot(t, slots[..si + 1], fs, pool, classBusy, facultyBusy, locationBusy)
  {
    assert slots[..si + 1] == slots[..si] + [slots[si]];
  }

  /** Every room of `rooms` is busy in slot `slotId`. */
  ghost predicate AllBusy(rooms: seq<Location>, slotId: int, locationBusy: set<BusyKey>) {
    forall l :: l in rooms ==> (l.locationId, slotId) in locationBusy
  }

  /** A free triple stays free when the faculties and the rooms are
      reordered. */
  lemma FreeTripleReordered(ctx: Context, t: Task, fs: seq<int>, fs': seq<int>, pool: seq<Location>, pool': seq<Location>,
                            classBusy: set<BusyKey>, facultyBusy: set<BusyKey>, locationBusy: set<BusyKey>)
    requires forall f :: f in fs <==> f in fs'
    requires forall l :: l in pool <==> l in pool'
    ensures FreeTriple(ctx, t, fs, pool, classBusy, facultyBusy, locationBusy)
        ==> FreeTriple(ctx, t, fs', pool', classBusy, facultyBusy, locationBusy)
  {
    if !FreeTriple(ctx, t, fs, pool, classBusy, facultyBusy, locationBusy) {
      return;
    }
    var s :| s in ctx.timeslots && FreeAt(t, s, fs, pool, classBusy, facultyBusy, locationBusy);
    var f :| f in fs && (f, s.slotId) !in facultyBusy;
    var l :| l in pool && (l.locationId, s.slotId) !in locationBusy;
    assert FreeFaculty(fs', s.slotId, facultyBusy) && FreeRoom(pool', s.slotId, locationBusy);
    assert FreeAt(t, s, fs', pool', classBusy, facultyBusy, locationBusy);
  }

  // Completeness: a failed search means no timetable exists

  /** `after` is `before` followed by one correct placement per task, and
      nothing in it is double booked. */
  ghost predicate Completion(ctx: Context, before: seq<Entry>, after: seq<Entry>, tasks: seq<Task>) {
    Extends(ctx, before, after, tasks) && NoDoubleBooking(after)
  }

  /** The tasks can all be placed after the entries of `before`. */
  ghost predicate Completable(ctx: Context, before: seq<Entry>, tasks: seq<Task>) {
    exists after: seq<Entry> :: Completion(ctx, before, after, tasks)
  }

  /** No completion places the head task in slot `slotId` with faculty `f`. */
  ghost predicate NoCompletionVia(ctx: Context, before: seq<Entry>, tasks: seq<Task>, slotId: int, f: int) {
    forall after: seq<Entry> :: Completion(ctx, before, after, tasks) && |before| < |after| ==>
      !(after[|before|].slotId == slotId && after[|before|].facultyId == f)
  }

  /** No completion places the head task in slot `slotId` with a faculty of
      `fs`. */
  ghost predicate FacultiesExcludedAt(ctx: Context, before: seq<Entry>, tasks: seq<Task>, slotId: int, fs: seq<int>) {
    forall f :: f in fs ==> NoCompletionVia(ctx, before, tasks, slotId, f)
  }

  /** No completion gives the head task a faculty of `fs`. */
  ghost predicate FacultiesExcluded(ctx: Context, before: seq<Entry>, tasks: seq<Task>, fs: seq<int>) {
    forall after: seq<Entry> :: Completion(ctx, before, after, tasks) && |before| < |after| ==>
      after[|before|].facultyId !in fs
  }

  /** No completion places the head task, of year `year`, in a slot of
      `slots` open to that year with a faculty of `fs`. */
  ghost predicate SlotsExcluded(ctx: Context, before: seq<Entry>, tasks: seq<Task>, slots: seq<TimeSlot>, year: int, fs: seq<int>) {
    forall s :: s in slots && YearApplies(s.yearGroup, year) ==> FacultiesExcludedAt(ctx, before, tasks, s.slotId, fs)
  }

  lemma SlotsExcludedStep(ctx: Context, before: seq<Entry>, tasks: seq<Task>, si: nat, year: int, fs: seq<int>)
    requires si < |ctx.timeslots|
    ensures (SlotsExcluded(ctx, before, tasks, ctx.timeslots[..si], year, fs)
             && (YearApplies(ctx.timeslots[si].yearGroup, year) ==> FacultiesExcludedAt(ctx, before, tasks, ctx.timeslots[si].slotId, fs)))
        ==> SlotsExcluded(ctx, before, tasks, ctx.timeslots[..si + 1], year, fs)
  {
    assert ctx.timeslots[..si + 1] == ctx.timeslots[..si] + [ctx.timeslots[si]];
  }

  lemma FacultiesExcludedStep(ctx: Context, before: seq<Entry>, tasks: seq<Task>, slotId: int, fs: seq<int>, fi: nat)
    requires fi < |fs|
    ensures (FacultiesExcludedAt(ctx, before, tasks, slotId, fs[..fi]) && NoCompletionVia(ctx, before, tasks, slotId, fs[fi]))
        ==> FacultiesExcludedAt(ctx, before, tasks, slotId, fs[..fi + 1])
  {
    assert fs[..fi + 1] == fs[..fi] + [fs[fi]];
  }

  /** Rooms that share an id are of the same kind: `location_id` is the
      primary key of the rooms table (backend/models.py:82). */
  ghost predicate RoomKindsAgree(ctx: Context) {
    forall l, l' :: l in ctx.locations && l' in ctx.locations && l.locationId == l'.locationId ==> l.isLab == l'.isLab
  }

  /** The head of a completion books no key that `before` already holds. */
  lemma HeadKeysFree(ctx: Context, before: seq<Entry>, after: seq<Entry>, tasks: seq<Task>)
    requires Completion(ctx, before, after, tasks) && tasks != []
    ensures ClassKey(after[|before|]) !in ClassKeys(before)
    ensures FacultyKey(after[|before|]) !in FacultyKeys(before)
    ensures LocationKey(after[|before|]) !in LocationKeys(before)
  {
    forall x | x in before
      ensures ClassKey(x) != ClassKey(after[|before|]) && FacultyKey(x) != FacultyKey(after[|before|])
      ensures LocationKey(x) != LocationKey(after[|before|])
    {
      var i :| 0 <= i < |before| && before[i] == x;
      assert after[i] == after[..|before|][i];
    }
  }

  /** A slot where the head task's class is busy admits no completion. */
  lemma ClassBusyExcludes(ctx: Context, before: seq<Entry>, tasks: seq<Task>, slotId: int, fs: seq<int>)
    requires tasks != [] && (tasks[0].classId, slotId) in ClassKeys(before)
    ensures FacultiesExcludedAt(ctx, before, tasks, slotId, fs)
  {
    forall f, after: seq<Entry> | f in fs && Completion(ctx, before, after, tasks) && |before| < |after|
      ensures !(after[|before|].slotId == slotId && after[|before|].facultyId == f)
    {
      HeadKeysFree(ctx, before, after, tasks);
    }
  }

  /** A faculty busy in the slot admits no completion through it. */
  lemma FacultyBusyExcludes(ctx: Context, before: seq<Entry>, tasks: seq<Task>, slotId: int, f: int)
    requires tasks != [] && (f, slotId) in FacultyKeys(before)
    ensures NoCompletionVia(ctx, before, tasks, slotId, f)
  {
    forall after: seq<Entry> | Completion(ctx, before, after, tasks) && |before| < |after|
      ensures !(after[|before|].slotId == slotId && after[|before|].facultyId == f)
    {
      HeadKeysFree(ctx, before, after, tasks);
    }
  }

  /** When every room of the head task's kind is busy in the slot, no
      completion goes through it. */
  lemma RoomsBusyExclude(ctx: Context, before: seq<Entry>, tasks: seq<Task>, slotId: int, f: int, pool: seq<Location>)
    requires tasks != []
    requires forall l :: l in ctx.locations && l.isLab == tasks[0].isLab ==> l in pool
    requires AllBusy(pool, slotId, LocationKeys(before))
    ensures NoCompletionVia(ctx, before, tasks, slotId, f)
  {
    forall after: seq<Entry> | Completion(ctx, before, after, tasks) && |before| < |after|
      ensures !(after[|before|].slotId == slotId && after[|before|].facultyId == f)
    {
      HeadKeysFree(ctx, before, after, tasks);
      assert Placement(ctx, tasks[0], after[|before| + 0]);
    }
  }

  /** `x` with rooms `a` and `b` exchanged in slot `slotId`. */
  function SwapRoom(x: Entry, slotId: int, a: int, b: int): Entry {
    if x.slotId == slotId && x.locationId == a then x.(locationId := b)
    else if x.slotId == slotId && x.locationId == b then x.(locationId := a)
    else x
  }

  function SwapRooms(xs: seq<Entry>, slotId: int, a: int, b: int): (ys: seq<Entry>)
    ensures |ys| == |xs| && forall i :: 0 <= i < |xs| ==> ys[i] == SwapRoom(xs[i], slotId, a, b)
  {
    if xs == [] then [] else [SwapRoom(xs[0], slotId, a, b)] + SwapRooms(xs[1..], slotId, a, b)
  }

  /** The exchange keeps class and faculty keys and maps distinct room keys
      to distinct room keys. */
  lemma SwapRoomKeys(x: Entry, y: Entry, slotId: int, a: int, b: int)
    ensures ClassKey(SwapRoom(x, slotId, a, b)) == ClassKey(x)
    ensures FacultyKey(SwapRoom(x, slotId, a, b)) == FacultyKey(x)
    ensures LocationKey(x) != LocationKey(y) ==> LocationKey(SwapRoom(x, slotId, a, b)) != LocationKey(SwapRoom(y, slotId, a, b))
  {
  }

  /** Exchanging two rooms in one slot keeps a timetable free of double
      booking. */
  lemma SwapKeepsDistinct(xs: seq<Entry>, slotId: int, a: int, b: int)
    requires NoDoubleBooking(xs)
    ensures NoDoubleBooking(SwapRooms(xs, slotId, a, b))
  {
    var ys := SwapRooms(xs, slotId, a, b);
    forall i, j | 0 <= i < j < |ys|
      ensures ClassKey(ys[i]) != ClassKey(ys[j]) && FacultyKey(ys[i]) != FacultyKey(ys[j])
      ensures LocationKey(ys[i]) != LocationKey(ys[j])
    {
      SwapRoomKeys(xs[i], xs[j], slotId, a, b);
      SwapRoomKeys(xs[j], xs[i], slotId, a, b);
    }
  }

  /** An entry not in room `a` of the slot stays a correct placement when
      room `b`, of the same kind as `a`, is exchanged for `a`. */
  lemma SwapPlacement(ctx: Context, t: Task, x: Entry, slotId: int, a: int, r: Location)
    requires RoomKindsAgree(ctx) && Placement(ctx, t, x) && LocationKey(x) != (a, slotId)
    requires r in ctx.locations && RoomFits(ctx, a, r.isLab)
    ensures Placement(ctx, t, SwapRoom(x, slotId, a, r.locationId))
  {
    if x.slotId == slotId && x.locationId == r.locationId {
      var l :| l in ctx.locations && l.locationId == r.locationId && l.isLab == t.isLab;
      assert l.isLab == r.isLab;
    }
  }

  /** The entries before the head use neither exchanged room in the slot,
      so the exchange leaves them alone. */
  lemma SwapKeepsPrefix(before: seq<Entry>, after: seq<Entry>, slotId: int, a: int, b: int)
    requires |before| < |after| && after[..|before|] == before && NoDoubleBooking(after)
    requires LocationKey(after[|before|]) == (a, slotId) && (b, slotId) !in LocationKeys(before)
    ensures SwapRooms(after, slotId, a, b)[..|before|] == before
  {
    var n := |before|;
    var after' := SwapRooms(after, slotId, a, b);
    forall i | 0 <= i < n
      ensures after'[i] == before[i]
    {
      assert after[i] == after[..n][i];
      assert LocationKey(after[i]) != LocationKey(after[n]);
      assert LocationKey(before[i]) in LocationKeys(before);
    }
  }

  /** The tasks after the head stay correctly placed once the head's room
      `a` is exchanged with room `r` of the head's kind. */
  lemma SwapKeepsTail(ctx: Context, before: seq<Entry>, after: seq<Entry>, tasks: seq<Task>, slotId: int, r: Location)
    requires RoomKindsAgree(ctx) && tasks != [] && Completion(ctx, before, after, tasks)
    requires r in ctx.locations && r.isLab == tasks[0].isLab && after[|before|].slotId == slotId
    ensures forall i :: 0 <= i < |tasks| - 1 ==>
      Placement(ctx, tasks[1..][i], SwapRooms(after, slotId, after[|before|].locationId, r.locationId)[|before| + 1 + i])
  {
    var n := |before|;
    var a := after[n].locationId;
    assert Placement(ctx, tasks[0], after[n + 0]);
    forall i | 0 <= i < |tasks| - 1
      ensures Placement(ctx, tasks[1..][i], SwapRooms(after, slotId, a, r.locationId)[n + 1 + i])
    {
      assert Placement(ctx, tasks[i + 1], after[n + (i + 1)]);
      assert LocationKey(after[n]) != LocationKey(after[n + 1 + i]);
      SwapPlacement(ctx, tasks[i + 1], after[n + 1 + i], slotId, a, r);
    }
  }

  /** The room-exchange argument: in a completion whose head is in slot
      `slotId`, the head's room can be replaced by any other room of its
      kind free in that slot (the task that used that room, if any, takes
      the head's old room), and what follows the head is still a
      completion. */
  lemma SwapHead(ctx: Context, before: seq<Entry>, after: seq<Entry>, tasks: seq<Task>, slotId: int, r: Location)
    requires RoomKindsAgree(ctx) && tasks != [] && Completion(ctx, before, after, tasks)
    requires r in ctx.locations && r.isLab == tasks[0].isLab && (r.locationId, slotId) !in LocationKeys(before)
    ensures after[|before|].slotId == slotId ==>
      Completable(ctx, before + [Entry(tasks[0].classId, slotId, tasks[0].subjectId, after[|before|].facultyId, r.locationId)],
                  tasks[1..])
  {
    var n := |before|;
    var e := after[n];
    if e.slotId != slotId {
      return;
    }
    var a, b := e.locationId, r.locationId;
    var e' := Entry(tasks[0].classId, slotId, tasks[0].subjectId, e.facultyId, b);
    var after' := SwapRooms(after, slotId, a, b);
    SwapKeepsDistinct(after, slotId, a, b);
    SwapKeepsPrefix(before, after, slotId, a, b);
    SwapKeepsTail(ctx, before, after, tasks, slotId, r);
    assert Placement(ctx, tasks[0], after[n + 0]);
    assert after'[..n + 1] == after'[..n] + [after'[n]];
    assert Completion(ctx, before + [e'], after', tasks[1..]);
  }

  /** A room free in the slot whose placement cannot be completed rules out
      every completion through that slot and faculty. */
  lemma SwapExcludes(ctx: Context, before: seq<Entry>, tasks: seq<Task>, slotId: int, f: int, r: Location)
    requires tasks != []
    requires r in ctx.locations && r.isLab == tasks[0].isLab && (r.locationId, slotId) !in LocationKeys(before)
    ensures (RoomKindsAgree(ctx)
             && !Completable(ctx, before + [Entry(tasks[0].classId, slotId, tasks[0].subjectId, f, r.locationId)], tasks[1..]))
        ==> NoCompletionVia(ctx, before, tasks, slotId, f)
  {
    if !RoomKindsAgree(ctx)
       || Completable(ctx, before + [Entry(tasks[0].classId, slotId, tasks[0].subjectId, f, r.locationId)], tasks[1..]) {
      return;
    }
    forall after: seq<Entry> | Completion(ctx, before, after, tasks) && |before| < |after|
      ensures !(after[|before|].slotId == slotId && after[|before|].facultyId == f)
    {
      SwapHead(ctx, before, after, tasks, slotId, r);
    }
  }

  /** Excluding every open slot with a faculty of `fs` excludes `fs` as the
      head's faculty. */
  lemma SlotsExhausted(ctx: Context, before: seq<Entry>, tasks: seq<Task>, fs: seq<int>)
    requires tasks != []
    ensures SlotsExcluded(ctx, before, tasks, ctx.timeslots, tasks[0].year, fs) ==> FacultiesExcluded(ctx, before, tasks, fs)
  {
    if SlotsExcluded(ctx, before, tasks, ctx.timeslots, tasks[0].year, fs) {
      forall after: seq<Entry> | Completion(ctx, before, after, tasks) && |before| < |after|
        ensures after[|before|].facultyId !in fs
      {
        var e := after[|before|];
        assert Placement(ctx, tasks[0], after[|before| + 0]);
        var s :| s in ctx.timeslots && s.slotId == e.slotId && YearApplies(s.yearGroup, tasks[0].year);
        assert e.facultyId in fs ==> FacultiesExcludedAt(ctx, before, tasks, s.slotId, fs);
      }
    }
  }

  /** Excluding every capable faculty excludes every completion. */
  lemma FacultiesExhausted(ctx: Context, before: seq<Entry>, tasks: seq<Task>, fs: seq<int>)
    requires tasks != []
    requires forall f :: f in Faculties(ctx.subjects, tasks[0].subjectId) ==> f in fs
    ensures FacultiesExcluded(ctx, before, tasks, fs) ==> !Completable(ctx, before, tasks)
  {
    if Completable(ctx, before, tasks) {
      var after: seq<Entry> :| Completion(ctx, before, after, tasks);
      assert Placement(ctx, tasks[0], after[|before| + 0]);
      assert after[|before|].facultyId in fs;
    }
  }

  /** The search state: the context of one `generate_timetable` run. */
  class Scheduler {
    const ctx: Context
    /** The generator behind `random.shuffle`. */
    const rng: Random
    /** `context['lab_rooms']` and `context['lecture_rooms']`: shuffled in
        place by the search, so their order changes while a caller iterates
        over them. */
    var labRooms: seq<Location>
    var lectureRooms: seq<Location>
    /** The keys of `class_schedule`, `faculty_schedule` and
        `location_schedule`; the dicts only ever map a key to `True`. */
    var classBusy: set<BusyKey>
    var facultyBusy: set<BusyKey>
    var locationBusy: set<BusyKey>
    /** `context['results']`. */
    var results: seq<Entry>

    /** The pools hold rooms of their kind, each busy set is exactly the set
        of keys of the placed entries, and the placed entries never double
        book. */
    ghost predicate Valid()
      reads this
    {
      PoolsOk(ctx, labRooms, lectureRooms) && Booking(results, classBusy, facultyBusy, locationBusy)
    }

    /** `context['lab_rooms'] if is_lab else context['lecture_rooms']`. */
    function Pool(isLab: bool): seq<Location>
      reads this
    {
      if isLab then labRooms else lectureRooms
    }

    /** The context `generate_timetable` builds: both pools from the room
        list, empty schedules, no results. */
    constructor (ctx: Context, rng: Random)
      ensures this.ctx == ctx && this.rng == rng
      ensures labRooms == LabRooms(ctx.locations) && lectureRooms == LectureRooms(ctx.locations)
      ensures classBusy == {} && facultyBusy == {} && locationBusy == {} && results == []
      ensures Valid()
    {
      this.ctx := ctx;
      this.rng := rng;
      labRooms := LabRooms(ctx.locations);
      lectureRooms := LectureRooms(ctx.locations);
      classBusy, facultyBusy, locationBusy := {}, {}, {};
      results := [];
    }

    /** `random.shuffle(possible_locations)`: shuffles the pool of the given
        kind in place. */
    method ShufflePool(isLab: bool)
      requires PoolsOk(ctx, labRooms, lectureRooms)
      modifies this`labRooms, this`lectureRooms, rng
      ensures PoolsOk(ctx, labRooms, lectureRooms) && PoolsPermuted()
      ensures Pool(isLab) == Shuffled(old(Pool(isLab)), rng.stream(old(rng.draws)))
      ensures |Pool(isLab)| == |old(Pool(isLab))|
      ensures Pool(!isLab) == old(Pool(!isLab))
      ensures rng.draws == old(rng.draws) + 1
    {
      if isLab {
        labRooms := rng.Shuffle(labRooms);
        ShuffledMembers(old(labRooms), rng.stream(old(rng.draws)));
      } else {
        lectureRooms := rng.Shuffle(lectureRooms);
        ShuffledMembers(old(lectureRooms), rng.stream(old(rng.draws)));
      }
    }

    /** The three assignments and the append of the `# Assign` step. */
    method Book(e: Entry)
      modifies this`classBusy, this`facultyBusy, this`locationBusy, this`results
      ensures classBusy == old(classBusy) + {ClassKey(e)}
      ensures facultyBusy == old(facultyBusy) + {FacultyKey(e)}
      ensures locationBusy == old(locationBusy) + {LocationKey(e)}
      ensures results == old(results) + [e]
    {
      classBusy := classBusy + {ClassKey(e)};
      facultyBusy := facultyBusy + {FacultyKey(e)};
      locationBusy := locationBusy + {LocationKey(e)};
      results := results + [e];
    }

    /** The three `pop`s and the `results.pop()` of the `# Backtrack` step. */
    method Unbook(classId: int, slotId: int, facultyId: int, locationId: int)
      requires results != []
      modifies this`classBusy, this`facultyBusy, this`locationBusy, this`results
      ensures classBusy == old(classBusy) - {(classId, slotId)}
      ensures facultyBusy == old(facultyBusy) - {(facultyId, slotId)}
      ensures locationBusy == old(locationBusy) - {(locationId, slotId)}
      ensures results == old(results)[..|old(results)| - 1]
    {
      classBusy := classBusy - {(classId, slotId)};
      facultyBusy := facultyBusy - {(facultyId, slotId)};
      locationBusy := locationBusy - {(locationId, slotId)};
      results := results[..|results| - 1];
    }

    /** The head task has nothing to try: its subject is unknown or has no
        faculty, or the pool of its kind is empty. */
    predicate NoCandidates(t: Task, pool: seq<Location>) {
      t.subjectId !in ctx.subjects || ctx.subjects[t.subjectId].faculties == [] || pool == []
    }

    /** The pools hold the same rooms as before, possibly in another order. */
    twostate predicate PoolsPermuted()
      reads this
    {
      multiset(labRooms) == multiset(old(labRooms)) && multiset(lectureRooms) == multiset(old(lectureRooms))
    }

    /** The schedules and the results are exactly as they were. */
    twostate predicate Restored()
      reads this
    {
      && results == old(results) && classBusy == old(classBusy)
      && facultyBusy == old(facultyBusy) && locationBusy == old(locationBusy)
    }

    /** Places every task of `tasks`, in order, or reports failure.  On
        success the results grow by one correct placement per task, in task
        order; on failure the schedules and the results are exactly as on
        entry.  Either way no entry double books and the pools are only
        reordered. */
    method Solve(tasks: seq<Task>) returns (ok: bool)
      requires Valid()
      modifies this, rng
      decreases |tasks|, 4
      ensures Valid() && PoolsPermuted()
      ensures tasks == [] ==> ok && Restored() && labRooms == old(labRooms) && lectureRooms == old(lectureRooms)
      ensures ok ==> Extends(ctx, old(results), results, tasks)
      ensures !ok ==> Restored()
      ensures tasks != [] && NoCandidates(tasks[0], old(Pool(tasks[0].isLab))) ==> !ok
      ensures (|tasks| == 1 && FreeTriple(ctx, tasks[0], Faculties(ctx.subjects, tasks[0].subjectId), old(Pool(tasks[0].isLab)),
                                          old(classBusy), old(facultyBusy), old(locationBusy))) ==> ok
      ensures (!ok && RoomKindsAgree(ctx)) ==> !Completable(ctx, old(results), tasks)
    {
      if tasks == [] {
        return true;
      }
      var t := tasks[0];
      var capable := Faculties(ctx.subjects, t.subjectId);
      var facultyIds := rng.Shuffle(capable);
      ShuffledMembers(capable, rng.stream(old(rng.draws)));
      ghost var pool, code := Pool(t.isLab), rng.stream(rng.draws);
      ShufflePool(t.isLab);
      ShuffledMembers(pool, code);
      FreeTripleReordered(ctx, t, capable, facultyIds, pool, Pool(t.isLab), classBusy, facultyBusy, locationBusy);
      FacultiesExhausted(ctx, results, tasks, facultyIds);
      ok := TrySlots(tasks, facultyIds);
    }

    /** The loop over the slots in search order, skipping those closed to the
        head task's year and those where its class is already busy. */
    method TrySlots(tasks: seq<Task>, facultyIds: seq<int>) returns (ok: bool)
      requires Valid() && tasks != []
      requires forall f :: f in facultyIds ==> Capable(ctx, tasks[0].subjectId, f)
      modifies this, rng
      decreases |tasks|, 3
      ensures Valid() && PoolsPermuted()
      ensures ok ==> Extends(ctx, old(results), results, tasks) && facultyIds != [] && Pool(tasks[0].isLab) != []
      ensures !ok ==> Restored()
      ensures |tasks| == 1 ==> Pool(tasks[0].isLab) == old(Pool(tasks[0].isLab))
      ensures (|tasks| == 1 && FreeTriple(ctx, tasks[0], facultyIds, old(Pool(tasks[0].isLab)),
                                          old(classBusy), old(facultyBusy), old(locationBusy))) ==> ok
      ensures (!ok && RoomKindsAgree(ctx)) ==> FacultiesExcluded(ctx, old(results), tasks, facultyIds)
    {
      var t := tasks[0];
      for si := 0 to |ctx.timeslots|
        invariant Valid() && PoolsPermuted() && Restored()
        invariant |tasks| == 1 ==> Pool(tasks[0].isLab) == old(Pool(tasks[0].isLab))
        invariant |tasks| == 1 ==>
          NoFreeSlot(t, ctx.timeslots[..si], facultyIds, Pool(t.isLab), classBusy, facultyBusy, locationBusy)
        invariant RoomKindsAgree(ctx) ==> SlotsExcluded(ctx, results, tasks, ctx.timeslots[..si], t.year, facultyIds)
      {
        var slot := ctx.timeslots[si];
        if !YearApplies(slot.yearGroup, t.year) {
          SlotsExcludedStep(ctx, results, tasks, si, t.year, facultyIds);
        NoFreeSlotStep(t, ctx.timeslots, si, facultyIds, Pool(t.isLab), classBusy, facultyBusy, locationBusy);
          continue;
        }
        if (t.classId, slot.slotId) in classBusy {
          ClassBusyExcludes(ctx, results, tasks, slot.slotId, facultyIds);
          SlotsExcludedStep(ctx, results, tasks, si, t.year, facultyIds);
        NoFreeSlotStep(t, ctx.timeslots, si, facultyIds, Pool(t.isLab), classBusy, facultyBusy, locationBusy);
          continue;
        }
        ok := TryFaculties(tasks, slot, facultyIds);
        if ok {
          return;
        }
        SlotsExcludedStep(ctx, results, tasks, si, t.year, facultyIds);
        NoFreeSlotStep(t, ctx.timeslots, si, facultyIds, Pool(t.isLab), classBusy, facultyBusy, locationBusy);
      }
      assert ctx.timeslots[..|ctx.timeslots|] == ctx.timeslots;
      SlotsExhausted(ctx, results, tasks, facultyIds);
      return false;
    }

    /** The loop over the shuffled faculties of the head task, for one slot
        that is open to the task's class. */
    method TryFaculties(tasks: seq<Task>, slot: TimeSlot, facultyIds: seq<int>) returns (ok: bool)
      requires Valid() && tasks != []
      requires slot in ctx.timeslots && YearApplies(slot.yearGroup, tasks[0].year)
      requires (tasks[0].classId, slot.slotId) !in classBusy
      requires forall f :: f in facultyIds ==> Capable(ctx, tasks[0].subjectId, f)
      modifies this, rng
      decreases |tasks|, 2
      ensures Valid() && PoolsPermuted()
      ensures ok ==> Extends(ctx, old(results), results, tasks) && facultyIds != [] && Pool(tasks[0].isLab) != []
      ensures !ok ==> Restored()
      ensures |tasks| == 1 ==> Pool(tasks[0].isLab) == old(Pool(tasks[0].isLab))
      ensures (|tasks| == 1 && FreeFaculty(facultyIds, slot.slotId, old(facultyBusy))
               && FreeRoom(old(Pool(tasks[0].isLab)), slot.slotId, old(locationBusy))) ==> ok
      ensures (!ok && RoomKindsAgree(ctx)) ==> FacultiesExcludedAt(ctx, old(results), tasks, slot.slotId, facultyIds)
    {
      for fi := 0 to |facultyIds|
        invariant Valid() && PoolsPermuted() && Restored()
        invariant |tasks| == 1 ==> Pool(tasks[0].isLab) == old(Pool(tasks[0].isLab))
        invariant |tasks| == 1 && FreeRoom(Pool(tasks[0].isLab), slot.slotId, locationBusy) ==>
          forall j :: 0 <= j < fi ==> (facultyIds[j], slot.slotId) in facultyBusy
        invariant RoomKindsAgree(ctx) ==> FacultiesExcludedAt(ctx, results, tasks, slot.slotId, facultyIds[..fi])
      {
        var fac := facultyIds[fi];
        if (fac, slot.slotId) in facultyBusy {
          FacultyBusyExcludes(ctx, results, tasks, slot.slotId, fac);
          FacultiesExcludedStep(ctx, results, tasks, slot.slotId, facultyIds, fi);
          continue;
        }
        ok := TryRooms(tasks, slot, fac);
        if ok {
          return;
        }
        FacultiesExcludedStep(ctx, results, tasks, slot.slotId, facultyIds, fi);
      }
      assert facultyIds[..|facultyIds|] == facultyIds;
      return false;
    }

    /** The loop over the pool of the head task's kind, for one slot and one
        faculty that are both free.  The pool is read afresh at every step,
        as the recursion may shuffle it in place. */
    method TryRooms(tasks: seq<Task>, slot: TimeSlot, fac: int) returns (ok: bool)
      requires Valid() && tasks != []
      requires slot in ctx.timeslots && YearApplies(slot.yearGroup, tasks[0].year)
      requires (tasks[0].classId, slot.slotId) !in classBusy
      requires Capable(ctx, tasks[0].subjectId, fac) && (fac, slot.slotId) !in facultyBusy
      modifies this, rng
      decreases |tasks|, 1
      ensures Valid() && PoolsPermuted()
      ensures ok ==> Extends(ctx, old(results), results, tasks) && Pool(tasks[0].isLab) != []
      ensures !ok ==> Restored()
      ensures |tasks| == 1 ==> Pool(tasks[0].isLab) == old(Pool(tasks[0].isLab))
      ensures |tasks| == 1 && FreeRoom(old(Pool(tasks[0].isLab)), slot.slotId, old(locationBusy)) ==> ok
      ensures (!ok && RoomKindsAgree(ctx)) ==> NoCompletionVia(ctx, old(results), tasks, slot.slotId, fac)
    {
      var t := tasks[0];
      ghost var n := |Pool(t.isLab)|;
      // Whether a free room was tried and its placement could not be completed.
      ghost var tried := false;
      var li := 0;
      while li < |Pool(t.isLab)|
        invariant 0 <= li <= n == |Pool(t.isLab)|
        invariant Valid() && PoolsPermuted() && Restored()
        invariant |tasks| == 1 ==> !tried
        invariant !tried ==> Pool(t.isLab) == old(Pool(t.isLab)) && AllBusy(Pool(t.isLab)[..li], slot.slotId, locationBusy)
        invariant tried && RoomKindsAgree(ctx) ==> NoCompletionVia(ctx, results, tasks, slot.slotId, fac)
        decreases n - li
      {
        var loc := Pool(t.isLab)[li];
        if (loc.locationId, slot.slotId) !in locationBusy {
          SwapExcludes(ctx, results, tasks, slot.slotId, fac, loc);
          ok := TryPlace(tasks, slot, fac, loc);
          if ok {
            return;
          }
          tried := true;
        }
        if !tried {
          assert Pool(t.isLab)[..li + 1] == Pool(t.isLab)[..li] + [loc];
        }
        li := li + 1;
      }
      if !tried {
        assert Pool(t.isLab)[..li] == Pool(t.isLab);
        RoomsBusyExclude(ctx, results, tasks, slot.slotId, fac, Pool(t.isLab));
      }
      return false;
    }

    /** The `# Assign` step for one free (slot, faculty, room) triple, the
        recursion on the remaining tasks, and the `# Backtrack` step when
        the recursion fails. */
    method TryPlace(tasks: seq<Task>, slot: TimeSlot, fac: int, loc: Location) returns (ok: bool)
      requires Valid() && tasks != []
      requires slot in ctx.timeslots && YearApplies(slot.yearGroup, tasks[0].year)
      requires (tasks[0].classId, slot.slotId) !in classBusy
      requires Capable(ctx, tasks[0].subjectId, fac) && (fac, slot.slotId) !in facultyBusy
      requires loc in ctx.locations && loc.isLab == tasks[0].isLab && (loc.locationId, slot.slotId) !in locationBusy
      modifies this, rng
      decreases |tasks|, 0
      ensures Valid() && PoolsPermuted()
      ensures ok ==> Extends(ctx, old(results), results, tasks)
      ensures !ok ==> Restored()
      ensures |tasks| == 1 ==> ok && labRooms == old(labRooms) && lectureRooms == old(lectureRooms)
      ensures (!ok && RoomKindsAgree(ctx))
        ==> !Completable(ctx, old(results) + [Entry(tasks[0].classId, slot.slotId, tasks[0].subjectId, fac, loc.locationId)], tasks[1..])
    {
      var t := tasks[0];
      var e := Entry(t.classId, slot.slotId, t.subjectId, fac, loc.locationId);
      AppendKeys(results, e);
      AppendFree(results, e);
      Book(e);
      ok := Solve(tasks[1..]);
      if ok {
        SolvedPlacements(ctx, tasks, e, old(results), results);
      } else {
        Unbook(t.classId, slot.slotId, fac, loc.locationId);
      }
    }

  }

  /** The success path of the search: the head placement followed by the
      recursive call's placements place the whole task list. */
  lemma SolvedPlacements(ctx: Context, tasks: seq<Task>, e: Entry, before: seq<Entry>, after: seq<Entry>)
    requires tasks != [] && Placement(ctx, tasks[0], e)
    requires Extends(ctx, before + [e], after, tasks[1..])
    ensures Extends(ctx, before, after, tasks)
  {
    assert after[..|before|] == after[..|before| + 1][..|before|];
    forall i | 0 <= i < |tasks| ensures Placement(ctx, tasks[i], after[|before| + i]) {
      if i == 0 {
        assert after[|before|] == after[..|before| + 1][|before|];
      } else {
        assert tasks[i] == tasks[1..][i - 1];
      }
    }
  }
}
