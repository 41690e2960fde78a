/** What `fetch_scheduling_data_orm` and `generate_timetable` in
    backend/scheduler.py do before the search: group the requirement rows by
    class, split the rooms into a lab pool and a lecture pool, and expand
    every requirement into one task per weekly period. */
module Preparation {
  import opened Wrappers
  import opened Catalog

  // Grouping the requirement rows by class

  function AsRequirement(r: RequirementRow): Requirement {
    Requirement(r.subjectId, r.hours, r.isLab)
  }

  /** The distinct class ids of `rows`, in order of first appearance: the
      key order of the grouping dict. */
  function ClassOrder(rows: seq<RequirementRow>): (order: seq<int>)
    ensures forall c :: c in order <==> exists i :: 0 <= i < |rows| && rows[i].classId == c
    ensures forall i, j :: 0 <= i < j < |order| ==> order[i] != order[j]
  {
    if rows == [] then []
    else
      var prefix, c := rows[..|rows| - 1], rows[|rows| - 1].classId;
      var order := ClassOrder(prefix);
      assert forall i :: 0 <= i < |prefix| ==> prefix[i] == rows[i];
      if c in order then order else order + [c]
  }

  /** The requirements of class `c`, in the order of `rows`. */
  function RowsOf(rows: seq<RequirementRow>, c: int): (reqs: seq<Requirement>)
    ensures |reqs| <= |rows|
  {
    if rows == [] then []
    else
      var last := rows[|rows| - 1];
      RowsOf(rows[..|rows| - 1], c) + (if last.classId == c then [AsRequirement(last)] else [])
  }

  lemma {:induction false} RowsOfAbsent(rows: seq<RequirementRow>, c: int)
    requires c !in ClassOrder(rows)
    ensures RowsOf(rows, c) == []
  {
    if rows != [] {
      RowsOfAbsent(rows[..|rows| - 1], c);
    }
  }

  /** Every grouped requirement comes from a row of that class. */
  lemma {:induction false} RowsOfMember(rows: seq<RequirementRow>, c: int, q: Requirement)
    requires q in RowsOf(rows, c)
    ensures exists r :: r in rows && r.classId == c && AsRequirement(r) == q
  {
    var prefix, last := rows[..|rows| - 1], rows[|rows| - 1];
    if q in RowsOf(prefix, c) {
      RowsOfMember(prefix, c, q);
      var r :| r in prefix && r.classId == c && AsRequirement(r) == q;
      assert r in rows;
    } else {
      assert last in rows;
    }
  }

  /** Every row of a class is among that class's grouped requirements. */
  lemma {:induction false} RowsOfComplete(rows: seq<RequirementRow>, c: int, r: RequirementRow)
    requires r in rows && r.classId == c
    ensures AsRequirement(r) in RowsOf(rows, c)
  {
    var prefix, last := rows[..|rows| - 1], rows[|rows| - 1];
    if r != last {
      assert rows == prefix + [last];
      assert r in prefix;
      RowsOfComplete(prefix, c, r);
    }
  }

  /** A class id appears in the grouping order exactly when some row has it. */
  lemma ClassOrderRows(rows: seq<RequirementRow>)
    ensures forall c :: c in ClassOrder(rows) <==> exists r :: r in rows && r.classId == c
  {
    forall c ensures c in ClassOrder(rows) <==> exists r :: r in rows && r.classId == c {
      if c in ClassOrder(rows) {
        var i :| 0 <= i < |rows| && rows[i].classId == c;
        assert rows[i] in rows;
      }
    }
  }

  /** The requirements grouped under `c` are exactly those of the rows of
      `c`. */
  lemma RowsOfExactly(rows: seq<RequirementRow>)
    ensures forall c, q :: q in RowsOf(rows, c) <==> exists r :: r in rows && r.classId == c && AsRequirement(r) == q
  {
    forall c, q ensures q in RowsOf(rows, c) <==> exists r :: r in rows && r.classId == c && AsRequirement(r) == q {
      if q in RowsOf(rows, c) {
        RowsOfMember(rows, c, q);
      } else if r :| r in rows && r.classId == c && AsRequirement(r) == q {
        RowsOfComplete(rows, c, r);
      }
    }
  }

  /** The grouping dict as a map: its keys are the class ids of the rows, and
      each holds the requirements of exactly the rows of its class. */
  function Grouped(rows: seq<RequirementRow>): (groups: map<int, seq<Requirement>>)
    ensures forall c :: c in groups <==> exists r :: r in rows && r.classId == c
    ensures forall c, q :: c in groups ==>
      (q in groups[c] <==> exists r :: r in rows && r.classId == c && AsRequirement(r) == q)
  {
    ClassOrderRows(rows);
    RowsOfExactly(rows);
    map c | c in ClassOrder(rows) :: RowsOf(rows, c)
  }

  /** The grouping dict: its keys in insertion order and its contents. */
  datatype Grouping = Grouping(order: seq<int>, groups: map<int, seq<Requirement>>)

  ghost predicate WellFormed(g: Grouping) {
    forall c :: c in g.groups <==> c in g.order
  }

  /** Builds the dict `class_id -> [(subject_id, hours, is_lab), ...]` by
      appending each row to its class's list, creating the list on the
      class's first row. */
  method GroupByClass(rows: seq<RequirementRow>) returns (g: Grouping)
    ensures WellFormed(g)
    ensures g.order == ClassOrder(rows)
    ensures forall c :: c in g.groups ==> g.groups[c] == RowsOf(rows, c)
  {
    var order: seq<int> := [];
    var groups: map<int, seq<Requirement>> := map[];
    for i := 0 to |rows|
      invariant order == ClassOrder(rows[..i])
      invariant forall c :: c in groups <==> c in order
      invariant forall c :: c in groups ==> groups[c] == RowsOf(rows[..i], c)
    {
      var r := rows[i];
      assert rows[..i + 1][..i] == rows[..i];
      if r.classId !in groups {
        RowsOfAbsent(rows[..i], r.classId);
        groups := groups[r.classId := []];
        order := order + [r.classId];
      }
      groups := groups[r.classId := groups[r.classId] + [AsRequirement(r)]];
    }
    assert rows[..|rows|] == rows;
    g := Grouping(order, groups);
  }

  // Looking up a class

  /** `next((c for c in classes if c.class_id == id), None)`: the first class
      with that id, or `None`. */
  function FindClass(classes: seq<ClassGroup>, id: int): (r: Option<ClassGroup>)
    ensures r.Some? ==> r.value.classId == id && exists i :: (0 <= i < |classes| && classes[i] == r.value
      && forall j :: 0 <= j < i ==> classes[j].classId != id)
    ensures r.None? <==> forall i :: 0 <= i < |classes| ==> classes[i].classId != id
  {
    if classes == [] then None
    else if classes[0].classId == id then Some(classes[0])
    else
      var r := FindClass(classes[1..], id);
      assert forall i :: 0 < i < |classes| ==> classes[i] == classes[1..][i - 1];
      if r.Some? then
        var i :| 0 <= i < |classes[1..]| && classes[1..][i] == r.value
          && forall j :: 0 <= j < i ==> classes[1..][j].classId != id;
        assert classes[i + 1] == r.value;
        r
      else r
  }

  // The two room pools

  /** `[loc for loc in locations if loc.is_lab]`. */
  function LabRooms(locations: seq<Location>): (pool: seq<Location>)
    ensures forall l :: l in pool <==> l in locations && l.isLab
  {
    if locations == [] then []
    else (if locations[0].isLab then [locations[0]] else []) + LabRooms(locations[1..])
  }

  /** `[loc for loc in locations if not loc.is_lab]`. */
  function LectureRooms(locations: seq<Location>): (pool: seq<Location>)
    ensures forall l :: l in pool <==> l in locations && !l.isLab
  {
    if locations == [] then []
    else (if locations[0].isLab then [] else [locations[0]]) + LectureRooms(locations[1..])
  }

  /** Every room lands in exactly one pool, as often as it is listed. */
  lemma {:induction false} PoolsPartition(locations: seq<Location>)
    ensures multiset(LabRooms(locations)) + multiset(LectureRooms(locations)) == multiset(locations)
  {
    if locations != [] {
      PoolsPartition(locations[1..]);
      assert locations == [locations[0]] + locations[1..];
    }
  }

  // Expanding the requirements into tasks

  /** The weekly periods a requirement asks for: `range(hours)` is empty when
      `hours` is not positive. */
  function Periods(hours: int): nat {
    if hours > 0 then hours else 0
  }

  /** `Periods(hours)` copies of `t`. */
  function Copies(t: Task, hours: int): (ts: seq<Task>)
    ensures |ts| == Periods(hours)
    ensures forall i :: 0 <= i < |ts| ==> ts[i] == t
    decreases Periods(hours)
  {
    if hours <= 0 then [] else Copies(t, hours - 1) + [t]
  }

  function ClassTask(cls: ClassGroup, req: Requirement): Task {
    Task(cls.classId, req.subjectId, req.isLab, cls.year)
  }

  /** The tasks of one class, requirement by requirement. */
  function ExpandClass(cls: ClassGroup, reqs: seq<Requirement>): (ts: seq<Task>)
    ensures forall t :: t in ts ==> exists q :: q in reqs && t == ClassTask(cls, q)
  {
    if reqs == [] then []
    else ExpandClass(cls, reqs[..|reqs| - 1]) + Copies(ClassTask(cls, reqs[|reqs| - 1]), reqs[|reqs| - 1].hours)
  }

  /** All tasks, class by class in `order`; a class missing from `classes`
      contributes nothing. */
  function Expansion(order: seq<int>, groups: map<int, seq<Requirement>>, classes: seq<ClassGroup>): (ts: seq<Task>)
    requires forall c :: c in order ==> c in groups
    ensures forall t :: t in ts ==> (t.classId in order && FindClass(classes, t.classId) == Some(ClassGroup(t.classId, t.year))
      && exists q :: q in groups[t.classId] && q.subjectId == t.subjectId && q.isLab == t.isLab)
  {
    if order == [] then []
    else
      var c := order[|order| - 1];
      var prefix := Expansion(order[..|order| - 1], groups, classes);
      match FindClass(classes, c)
      case None => prefix
      case Some(cls) => prefix + ExpandClass(cls, groups[c])
  }

  lemma ExpandClassStep(cls: ClassGroup, reqs: seq<Requirement>, j: nat)
    requires j < |reqs|
    ensures ExpandClass(cls, reqs[..j + 1]) == ExpandClass(cls, reqs[..j]) + Copies(ClassTask(cls, reqs[j]), reqs[j].hours)
  {
    assert reqs[..j + 1][..j] == reqs[..j];
  }

  /** The loops of `generate_timetable` that fill `assignments_needed`: for
      each class of the grouping with a known class record, for each of its
      requirements, `hours` identical tasks. */
  method ExpandDemand(g: Grouping, classes: seq<ClassGroup>) returns (tasks: seq<Task>)
    requires WellFormed(g)
    ensures tasks == Expansion(g.order, g.groups, classes)
  {
    tasks := [];
    for i := 0 to |g.order|
      invariant tasks == Expansion(g.order[..i], g.groups, classes)
    {
      var c := g.order[i];
      assert g.order[..i + 1][..i] == g.order[..i];
      var found := FindClass(classes, c);
      if found.None? {
        continue;
      }
      var cls := found.value;
      var reqs := g.groups[c];
      ghost var before := tasks;
      for j := 0 to |reqs|
        invariant tasks == before + ExpandClass(cls, reqs[..j])
      {
        ExpandClassStep(cls, reqs, j);
        ghost var upTo := tasks;
        var k := 0;
        while k < reqs[j].hours
          invariant 0 <= k <= Periods(reqs[j].hours)
          invariant tasks == upTo + Copies(ClassTask(cls, reqs[j]), k)
        {
          tasks := tasks + [ClassTask(cls, reqs[j])];
          k := k + 1;
        }
      }
      assert reqs[..|reqs|] == reqs;
    }
    assert g.order[..|g.order|] == g.order;
  }

  // Counting the tasks

  /** The periods a row contributes: none when its class is unknown. */
  function Weight(r: RequirementRow, classes: seq<ClassGroup>): nat {
    if FindClass(classes, r.classId).Some? then Periods(r.hours) else 0
  }

  /** The sum of `hours` over the rows whose class exists. */
  function Demand(rows: seq<RequirementRow>, classes: seq<ClassGroup>): nat {
    if rows == [] then 0
    else Demand(rows[..|rows| - 1], classes) + Weight(rows[|rows| - 1], classes)
  }

  function Hours(reqs: seq<Requirement>): nat {
    if reqs == [] then 0 else Hours(reqs[..|reqs| - 1]) + Periods(reqs[|reqs| - 1].hours)
  }

  /** The periods of the classes in `order`, counted from `rows`. */
  function ClassTotal(order: seq<int>, rows: seq<RequirementRow>, classes: seq<ClassGroup>): nat {
    if order == [] then 0
    else
      var c := order[|order| - 1];
      ClassTotal(order[..|order| - 1], rows, classes)
        + (if FindClass(classes, c).Some? then Hours(RowsOf(rows, c)) else 0)
  }

  lemma {:induction false} ExpandClassLength(cls: ClassGroup, reqs: seq<Requirement>)
    ensures |ExpandClass(cls, reqs)| == Hours(reqs)
  {
    if reqs != [] {
      ExpandClassLength(cls, reqs[..|reqs| - 1]);
    }
  }

  lemma {:induction false} ExpansionLength(order: seq<int>, groups: map<int, seq<Requirement>>,
                                           rows: seq<RequirementRow>, classes: seq<ClassGroup>)
    requires forall c :: c in order ==> c in groups && groups[c] == RowsOf(rows, c)
    ensures |Expansion(order, groups, classes)| == ClassTotal(order, rows, classes)
  {
    if order != [] {
      var c := order[|order| - 1];
      ExpansionLength(order[..|order| - 1], groups, rows, classes);
      var found := FindClass(classes, c);
      if found.Some? {
        ExpandClassLength(found.value, groups[c]);
      }
    }
  }

  /** Adding a row of class `c0` leaves the total of classes other than
      `c0` alone. */
  lemma {:induction false} ClassTotalOthers(order: seq<int>, rows: seq<RequirementRow>, r: RequirementRow, classes: seq<ClassGroup>)
    requires r.classId !in order
    ensures ClassTotal(order, rows + [r], classes) == ClassTotal(order, rows, classes)
  {
    if order != [] {
      var c := order[|order| - 1];
      assert (rows + [r])[..|rows|] == rows;
      assert RowsOf(rows + [r], c) == RowsOf(rows, c);
      ClassTotalOthers(order[..|order| - 1], rows, r, classes);
    }
  }

  /** Adding a row of class `c0` adds its weight once when `c0` occurs once
      in `order`. */
  lemma {:induction false} ClassTotalBump(order: seq<int>, rows: seq<RequirementRow>, r: RequirementRow, classes: seq<ClassGroup>)
    requires r.classId in order
    requires forall i, j :: 0 <= i < j < |order| ==> order[i] != order[j]
    ensures ClassTotal(order, rows + [r], classes) == ClassTotal(order, rows, classes) + Weight(r, classes)
  {
    var c := order[|order| - 1];
    var prefix := order[..|order| - 1];
    assert (rows + [r])[..|rows|] == rows;
    assert RowsOf(rows + [r], c) == RowsOf(rows, c) + (if r.classId == c then [AsRequirement(r)] else []);
    if r.classId == c {
      assert r.classId !in prefix;
      ClassTotalOthers(prefix, rows, r, classes);
      assert (RowsOf(rows, c) + [AsRequirement(r)])[..|RowsOf(rows, c)|] == RowsOf(rows, c);
    } else {
      assert order == prefix + [c];
      assert r.classId in prefix;
      ClassTotalBump(prefix, rows, r, classes);
      assert RowsOf(rows + [r], c) == RowsOf(rows, c);
      assert ClassTotal(order, rows + [r], classes) == ClassTotal(prefix, rows + [r], classes)
        + (if FindClass(classes, c).Some? then Hours(RowsOf(rows, c)) else 0);
    }
  }

  /** Grouping and expanding neither loses nor invents demand: the tasks
      number the sum of `hours` over the rows whose class exists. */
  lemma {:induction false} DemandCount(rows: seq<RequirementRow>, classes: seq<ClassGroup>)
    ensures ClassTotal(ClassOrder(rows), rows, classes) == Demand(rows, classes)
  {
    if rows != [] {
      var prefix, r := rows[..|rows| - 1], rows[|rows| - 1];
      assert rows == prefix + [r];
      DemandCount(prefix, classes);
      var order := ClassOrder(prefix);
      if r.classId in order {
        ClassTotalBump(order, prefix, r, classes);
      } else {
        ClassTotalOthers(order, prefix, r, classes);
        RowsOfAbsent(prefix, r.classId);
        assert RowsOf(rows, r.classId) == [AsRequirement(r)];
        assert Hours([AsRequirement(r)]) == Periods(r.hours);
      }
    }
  }

  /** The number of tasks `ExpandDemand` produces from `GroupByClass`'s
      output. */
  lemma TaskCount(rows: seq<RequirementRow>, g: Grouping, classes: seq<ClassGroup>)
    requires WellFormed(g) && g.order == ClassOrder(rows)
    requires forall c :: c in g.groups ==> g.groups[c] == RowsOf(rows, c)
    ensures |Expansion(g.order, g.groups, classes)| == Demand(rows, classes)
  {
    ExpansionLength(g.order, g.groups, rows, classes);
    DemandCount(rows, classes);
  }
}
