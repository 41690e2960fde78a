/** `generate_timetable` in backend/scheduler.py, without the web request
    and the database: read the records, build the task list, order it labs
    first and run the search on a fresh context. */
module Generate {
  import opened Wrappers
  import opened Catalog
  import opened Ordering
  import opened Preparation
  import opened Shuffle
  import opened Solver

  /** What `fetch_scheduling_data_orm` hands to the generator. */
  datatype SchedulingData = SchedulingData(
    classes: seq<ClassGroup>,
    subjects: map<int, Subject>,
    locations: seq<Location>,
    timeslots: seq<TimeSlot>,
    requirements: Grouping)

  /** `fetch_scheduling_data_orm` on records already read from the store:
      the slots sorted by weekday and period, the requirement rows grouped by
      class. */
  method FetchSchedulingData(classes: seq<ClassGroup>, subjects: map<int, Subject>, locations: seq<Location>,
                             slots: seq<TimeSlot>, rows: seq<RequirementRow>)
    returns (data: SchedulingData)
    ensures data.classes == classes && data.subjects == subjects && data.locations == locations
    ensures data.timeslots == SortSlots(slots)
    ensures WellFormed(data.requirements) && data.requirements.order == ClassOrder(rows)
    ensures forall c :: c in data.requirements.groups ==> data.requirements.groups[c] == RowsOf(rows, c)
  {
    var grouping := GroupByClass(rows);
    data := SchedulingData(classes, subjects, locations, SortSlots(slots), grouping);
  }

  /** The result of a run: the entries to store, or no timetable. */
  datatype Outcome = Generated(entries: seq<Entry>) | Infeasible

  /** One generation run.  `stream` stands for the numbers the `random`
      module hands out.  A row's lab flag is read through its subject
      (`req.subject.is_lab`), so a row agrees with the subject record it
      names.  The tasks are exactly the periods the rows of existing classes
      ask for, in some order with the lab tasks first; on success there is
      one entry per task, each a correct placement of its task in a room of
      its subject's kind, and no class, faculty or room is booked twice in a
      slot.  On failure no such timetable exists at all, as long as rooms
      sharing an id are of one kind. */
  method GenerateTimetable(classes: seq<ClassGroup>, subjects: map<int, Subject>, locations: seq<Location>,
                           slots: seq<TimeSlot>, rows: seq<RequirementRow>, stream: nat -> nat)
    returns (tasks: seq<Task>, outcome: Outcome)
    requires forall r :: r in rows && r.subjectId in subjects ==> subjects[r.subjectId].isLab == r.isLab
    ensures multiset(tasks) == multiset(Expansion(ClassOrder(rows), Grouped(rows), classes))
    ensures |tasks| == Demand(rows, classes)
    ensures forall t :: t in tasks ==> FromRow(rows, classes, t)
    ensures forall i, j :: 0 <= i < j < |tasks| && tasks[j].isLab ==> tasks[i].isLab
    ensures outcome.Generated? ==> |outcome.entries| == |tasks| && NoDoubleBooking(outcome.entries)
    ensures outcome.Generated? ==> forall i :: 0 <= i < |tasks| ==>
      Placement(Context(SortSlots(slots), subjects, locations), tasks[i], outcome.entries[i])
    ensures outcome.Generated? ==> forall i :: 0 <= i < |tasks| ==>
      var e := outcome.entries[i];
      e.subjectId in subjects && RoomFits(Context(SortSlots(slots), subjects, locations), e.locationId, subjects[e.subjectId].isLab)
    ensures tasks == [] ==> outcome == Generated([])
    ensures (|tasks| == 1 && Placeable(slots, subjects, locations, tasks[0])) ==> outcome.Generated?
    ensures (outcome == Infeasible && RoomKindsAgree(Context(SortSlots(slots), subjects, locations)))
        ==> !Completable(Context(SortSlots(slots), subjects, locations), [], tasks)
  {
    var data := FetchSchedulingData(classes, subjects, locations, slots, rows);
    var rng := new Random(stream);
    tasks := AssignmentsNeeded(rows, data.requirements, data.classes, rng);

    var ctx := Context(data.timeslots, data.subjects, data.locations);
    assert ctx == Context(SortSlots(slots), subjects, locations);
    var scheduler := new Scheduler(ctx, rng);
    if |tasks| == 1 {
      PlaceableIsFree(slots, subjects, locations, tasks[0]);
    }
    var ok := scheduler.Solve(tasks);
    if ok {
      ExtendsEmpty(ctx, scheduler.results, tasks);
      RoomsOfSubjectKind(ctx, rows, classes, tasks, scheduler.results);
      outcome := Generated(scheduler.results);
    } else {
      outcome := Infeasible;
    }
  }

  /** On an empty timetable, `t` has a slot open to its year, a faculty
      able to teach its subject and a room of its kind. */
  ghost predicate Placeable(slots: seq<TimeSlot>, subjects: map<int, Subject>, locations: seq<Location>, t: Task) {
    && (exists s :: s in slots && YearApplies(s.yearGroup, t.year))
    && Faculties(subjects, t.subjectId) != []
    && (exists l :: l in locations && l.isLab == t.isLab)
  }

  /** A placeable task has a free triple in a fresh context: the slots are
      sorted and the rooms split into pools, but nothing is lost. */
  lemma PlaceableIsFree(slots: seq<TimeSlot>, subjects: map<int, Subject>, locations: seq<Location>, t: Task)
    ensures Placeable(slots, subjects, locations, t) ==>
      FreeTriple(Context(SortSlots(slots), subjects, locations), t, Faculties(subjects, t.subjectId),
                 if t.isLab then LabRooms(locations) else LectureRooms(locations), {}, {}, {})
  {
    if !Placeable(slots, subjects, locations, t) {
      return;
    }
    var ctx := Context(SortSlots(slots), subjects, locations);
    var pool := if t.isLab then LabRooms(locations) else LectureRooms(locations);
    var fs := Faculties(subjects, t.subjectId);
    var s :| s in slots && YearApplies(s.yearGroup, t.year);
    var l :| l in locations && l.isLab == t.isLab;
    assert s in SortSlots(slots) by {
      assert s in multiset(SortSlots(slots));
    }
    var f := fs[0];
    assert f in fs;
    assert FreeFaculty(fs, s.slotId, {});
    assert l in pool;
    assert FreeRoom(pool, s.slotId, {});
    assert FreeAt(t, s, fs, pool, {}, {}, {});
  }

  /** The task list of `generate_timetable`: every requirement of every known
      class expanded into its periods, shuffled, then stably sorted labs
      first.  The result is exactly the expansion of the rows, reordered. */
  method AssignmentsNeeded(rows: seq<RequirementRow>, g: Grouping, classes: seq<ClassGroup>, rng: Random)
    returns (tasks: seq<Task>)
    requires WellFormed(g) && g.order == ClassOrder(rows)
    requires forall c :: c in g.groups ==> g.groups[c] == RowsOf(rows, c)
    modifies rng
    ensures multiset(tasks) == multiset(Expansion(ClassOrder(rows), Grouped(rows), classes))
    ensures |tasks| == Demand(rows, classes)
    ensures forall t :: t in tasks ==> FromRow(rows, classes, t)
    ensures forall i, j :: 0 <= i < j < |tasks| && tasks[j].isLab ==> tasks[i].isLab
  {
    var expanded := ExpandDemand(g, classes);
    TaskCount(rows, g, classes);
    GroupingIsGrouped(rows, g);
    ExpansionOrigin(rows, g, classes, expanded);

    var shuffled := rng.Shuffle(expanded);
    tasks := LabsFirst(shuffled);
    LabsFirstSpec(shuffled);
    assert forall t :: t in tasks ==> t in expanded by {
      assert forall t :: t in tasks ==> t in multiset(expanded);
    }
  }

  lemma ExtendsEmpty(ctx: Context, after: seq<Entry>, tasks: seq<Task>)
    requires Extends(ctx, [], after, tasks)
    ensures |after| == |tasks| && forall i :: 0 <= i < |tasks| ==> Placement(ctx, tasks[i], after[i])
  {
    assert forall i :: 0 <= i < |tasks| ==> after[i] == after[0 + i];
  }

  /** A well-formed grouping built from `rows` is `Grouped(rows)`. */
  lemma GroupingIsGrouped(rows: seq<RequirementRow>, g: Grouping)
    requires WellFormed(g) && g.order == ClassOrder(rows)
    requires forall c :: c in g.groups ==> g.groups[c] == RowsOf(rows, c)
    ensures g.groups == Grouped(rows)
  {
    var m := Grouped(rows);
    assert forall c :: c in g.groups.Keys <==> c in m.Keys by {
      forall c ensures c in g.groups.Keys <==> c in m.Keys {
        assert c in g.groups <==> c in g.order;
        assert c in m <==> c in ClassOrder(rows);
      }
    }
    forall c | c in g.groups
      ensures g.groups[c] == m[c]
    {
    }
  }

  /** Placed tasks that come from rows agreeing with their subjects sit in
      rooms of their subject's kind. */
  lemma RoomsOfSubjectKind(ctx: Context, rows: seq<RequirementRow>, classes: seq<ClassGroup>, tasks: seq<Task>, entries: seq<Entry>)
    requires forall r :: r in rows && r.subjectId in ctx.subjects ==> ctx.subjects[r.subjectId].isLab == r.isLab
    requires forall t :: t in tasks ==> FromRow(rows, classes, t)
    requires |entries| == |tasks| && forall i :: 0 <= i < |tasks| ==> Placement(ctx, tasks[i], entries[i])
    ensures forall i :: 0 <= i < |tasks| ==>
      entries[i].subjectId in ctx.subjects && RoomFits(ctx, entries[i].locationId, ctx.subjects[entries[i].subjectId].isLab)
  {
    forall i | 0 <= i < |tasks|
      ensures entries[i].subjectId in ctx.subjects && RoomFits(ctx, entries[i].locationId, ctx.subjects[entries[i].subjectId].isLab)
    {
      assert tasks[i] in tasks;
      var r :| r in rows && r.classId == tasks[i].classId && r.subjectId == tasks[i].subjectId && r.isLab == tasks[i].isLab
        && FindClass(classes, r.classId) == Some(ClassGroup(tasks[i].classId, tasks[i].year));
    }
  }

  /** `t` is one period of a requirement row whose class exists, with that
      class's year. */
  ghost predicate FromRow(rows: seq<RequirementRow>, classes: seq<ClassGroup>, t: Task) {
    exists r :: r in rows && r.classId == t.classId && r.subjectId == t.subjectId && r.isLab == t.isLab
      && FindClass(classes, r.classId) == Some(ClassGroup(t.classId, t.year))
  }

  /** Every expanded task comes from a requirement row of a known class. */
  lemma ExpansionOrigin(rows: seq<RequirementRow>, g: Grouping, classes: seq<ClassGroup>, tasks: seq<Task>)
    requires WellFormed(g)
    requires forall c :: c in g.groups ==> g.groups[c] == RowsOf(rows, c)
    requires tasks == Expansion(g.order, g.groups, classes)
    ensures forall t :: t in tasks ==> FromRow(rows, classes, t)
  {
    forall t | t in tasks
      ensures FromRow(rows, classes, t)
    {
      var q :| q in g.groups[t.classId] && q.subjectId == t.subjectId && q.isLab == t.isLab;
      RowsOfMember(rows, t.classId, q);
    }
  }
}
