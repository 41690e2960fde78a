/** Python's stable `list.sort(key=...)`, and the two sorts the generator
    performs with it: time slots by weekday and period, tasks labs first. */
module Ordering {
  import opened Catalog

  /** A sort key: compared component by component, as Python compares
      tuples. */
  type Key = (int, int)

  predicate KeyLe(a: Key, b: Key) {
    a.0 < b.0 || (a.0 == b.0 && a.1 <= b.1)
  }

  predicate SortedBy<T>(xs: seq<T>, key: T -> Key) {
    forall i, j :: 0 <= i < j < |xs| ==> KeyLe(key(xs[i]), key(xs[j]))
  }

  /** The elements of `xs` whose key is `k`, in their order in `xs`. */
  function WithKey<T>(xs: seq<T>, key: T -> Key, k: Key): seq<T> {
    if xs == [] then []
    else (if key(xs[0]) == k then [xs[0]] else []) + WithKey(xs[1..], key, k)
  }

  /** Puts `x` in front of the first element whose key is not smaller. */
  function Insert<T>(x: T, ys: seq<T>, key: T -> Key): (r: seq<T>)
    ensures multiset(r) == multiset(ys) + multiset{x}
  {
    if ys == [] || KeyLe(key(x), key(ys[0])) then [x] + ys
    else
      assert ys == [ys[0]] + ys[1..];
      [ys[0]] + Insert(x, ys[1..], key)
  }

  /** A stable sort: insertion from the back, so that of two elements with
      equal keys the earlier one ends up first. */
  function SortBy<T>(xs: seq<T>, key: T -> Key): (r: seq<T>)
    ensures multiset(r) == multiset(xs)
  {
    if xs == [] then []
    else
      assert xs == [xs[0]] + xs[1..];
      Insert(xs[0], SortBy(xs[1..], key), key)
  }

  lemma {:induction false} InsertSorted<T>(x: T, ys: seq<T>, key: T -> Key)
    requires SortedBy(ys, key)
    ensures SortedBy(Insert(x, ys, key), key)
  {
    if ys != [] && !KeyLe(key(x), key(ys[0])) {
      InsertSorted(x, ys[1..], key);
      var r := Insert(x, ys, key);
      var t := Insert(x, ys[1..], key);
      assert r == [ys[0]] + t;
      assert forall j :: 0 <= j < |t| ==> KeyLe(key(ys[0]), key(t[j])) by {
        forall j | 0 <= j < |t| ensures KeyLe(key(ys[0]), key(t[j])) {
          assert t[j] in multiset(t);
          assert t[j] == x || t[j] in multiset(ys[1..]);
          if t[j] != x {
            assert t[j] in ys[1..];
          }
        }
      }
    }
  }

  lemma {:induction false} InsertWithKey<T>(x: T, ys: seq<T>, key: T -> Key, k: Key)
    ensures WithKey(Insert(x, ys, key), key, k)
         == (if key(x) == k then [x] else []) + WithKey(ys, key, k)
  {
    if ys != [] && !KeyLe(key(x), key(ys[0])) {
      InsertWithKey(x, ys[1..], key, k);
      assert key(ys[0]) != key(x);
      var r := Insert(x, ys, key);
      assert r[0] == ys[0] && r[1..] == Insert(x, ys[1..], key);
      if key(ys[0]) == k {
        assert key(x) != k;
      }
    } else {
      var r := Insert(x, ys, key);
      assert r[0] == x && r[1..] == ys;
    }
  }

  /** The result is sorted by `key`. */
  lemma {:induction false} SortBySorted<T>(xs: seq<T>, key: T -> Key)
    ensures SortedBy(SortBy(xs, key), key)
  {
    if xs != [] {
      SortBySorted(xs[1..], key);
      InsertSorted(xs[0], SortBy(xs[1..], key), key);
    }
  }

  /** The sort is stable: the elements sharing any one key keep their
      relative order. */
  lemma {:induction false} SortByStable<T>(xs: seq<T>, key: T -> Key, k: Key)
    ensures WithKey(SortBy(xs, key), key, k) == WithKey(xs, key, k)
  {
    if xs != [] {
      SortByStable(xs[1..], key, k);
      InsertWithKey(xs[0], SortBy(xs[1..], key), key, k);
    }
  }

  // Time slots: `all_slots.sort(key=lambda x: (days.index(...) or 99, x.period_number))`

  function SlotKey(s: TimeSlot): Key {
    (DayIndex(s.day), s.period)
  }

  function SortSlots(slots: seq<TimeSlot>): (r: seq<TimeSlot>)
    ensures multiset(r) == multiset(slots) && SortedBy(r, SlotKey)
  {
    SortBySorted(slots, SlotKey);
    SortBy(slots, SlotKey)
  }

  /** The sorted slots are the same slots, non-decreasing by weekday index
      and then by period, with ties in their original order. */
  lemma SortSlotsSpec(slots: seq<TimeSlot>)
    ensures multiset(SortSlots(slots)) == multiset(slots)
    ensures forall i, j :: 0 <= i < j < |SortSlots(slots)| ==>
      var a, b := SortSlots(slots)[i], SortSlots(slots)[j];
      DayIndex(a.day) < DayIndex(b.day) || (DayIndex(a.day) == DayIndex(b.day) && a.period <= b.period)
    ensures forall k :: WithKey(SortSlots(slots), SlotKey, k) == WithKey(slots, SlotKey, k)
  {
    SortBySorted(slots, SlotKey);
    forall k ensures WithKey(SortSlots(slots), SlotKey, k) == WithKey(slots, SlotKey, k) {
      SortByStable(slots, SlotKey, k);
    }
  }

  // Tasks: `assignments_needed.sort(key=lambda x: x['is_lab'], reverse=True)`.
  // A reversed stable sort on a boolean key is the ascending stable sort on
  // (0 for a lab, 1 otherwise).

  function LabKey(t: Task): Key {
    (if t.isLab then 0 else 1, 0)
  }

  function LabsFirst(tasks: seq<Task>): (r: seq<Task>)
    ensures multiset(r) == multiset(tasks) && SortedBy(r, LabKey)
  {
    SortBySorted(tasks, LabKey);
    SortBy(tasks, LabKey)
  }

  function Labs(tasks: seq<Task>): (r: seq<Task>)
    ensures forall t :: t in r <==> t in tasks && t.isLab
  {
    if tasks == [] then []
    else (if tasks[0].isLab then [tasks[0]] else []) + Labs(tasks[1..])
  }

  function Lectures(tasks: seq<Task>): (r: seq<Task>)
    ensures forall t :: t in r <==> t in tasks && !t.isLab
  {
    if tasks == [] then []
    else (if tasks[0].isLab then [] else [tasks[0]]) + Lectures(tasks[1..])
  }

  lemma {:induction false} WithLabKey(tasks: seq<Task>)
    ensures WithKey(tasks, LabKey, (0, 0)) == Labs(tasks)
    ensures WithKey(tasks, LabKey, (1, 0)) == Lectures(tasks)
  {
    if tasks != [] {
      WithLabKey(tasks[1..]);
    }
  }

  /** A sequence sorted by the lab key is its labs followed by its
      lectures. */
  lemma {:induction false} SortedLabsSplit(tasks: seq<Task>)
    requires SortedBy(tasks, LabKey)
    ensures tasks == Labs(tasks) + Lectures(tasks)
  {
    if tasks != [] {
      SortedLabsSplit(tasks[1..]);
      if !tasks[0].isLab {
        assert forall j :: 0 <= j < |tasks[1..]| ==> !tasks[1..][j].isLab by {
          forall j | 0 <= j < |tasks[1..]| ensures !tasks[1..][j].isLab {
            assert KeyLe(LabKey(tasks[0]), LabKey(tasks[j + 1]));
          }
        }
        LabsOfLectures(tasks[1..]);
      }
    }
  }

  lemma {:induction false} LabsOfLectures(tasks: seq<Task>)
    requires forall j :: 0 <= j < |tasks| ==> !tasks[j].isLab
    ensures Labs(tasks) == []
  {
    if tasks != [] {
      LabsOfLectures(tasks[1..]);
    }
  }

  /** Labs first: the ordered tasks are the lab tasks in their original
      order followed by the other tasks in their original order, so every
      lab task precedes every non-lab task and nothing is lost or added. */
  lemma LabsFirstSpec(tasks: seq<Task>)
    ensures LabsFirst(tasks) == Labs(tasks) + Lectures(tasks)
    ensures multiset(LabsFirst(tasks)) == multiset(tasks)
    ensures forall i, j :: 0 <= i < j < |LabsFirst(tasks)| && LabsFirst(tasks)[j].isLab ==> LabsFirst(tasks)[i].isLab
  {
    var r := LabsFirst(tasks);
    SortBySorted(tasks, LabKey);
    SortedLabsSplit(r);
    SortByStable(tasks, LabKey, (0, 0));
    SortByStable(tasks, LabKey, (1, 0));
    WithLabKey(r);
    WithLabKey(tasks);
  }
}
