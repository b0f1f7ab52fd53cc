/**
  The task manager's list: the tasks filtered by completion, then sorted on a
  copy by due date or by priority. `Array.prototype.sort` is stable and the
  comparators are differences of numeric keys, so the list is modelled as a
  stable insertion sort on that key.
*/
module TaskManager {
  import opened Text
  import opened Dates
  import opened Tasks

  // ---------------------------------------------------------------------
  // Keys

  /** `priorityValue[p]`: High 3, Medium 2, Low 1 (0 stands for an unknown priority). */
  function PriorityValue(p: string): (r: int)
    ensures 0 <= r <= 3
    ensures r == 3 <==> p == "High"
    ensures r == 2 <==> p == "Medium"
    ensures r == 1 <==> p == "Low"
  {
    if p == "High" then 3 else if p == "Medium" then 2 else if p == "Low" then 1 else 0
  }

  /**
    `parseDate(ddmmyyyy)` as a day number: an empty date is `new Date(0)`, day
    0; an unparsable one is also given day 0.
  */
  function DueKey(s: string): int
  {
    if s == "" then 0
    else match DmyKey(s)
      case Some(k) => k
      case None => 0
  }

  /**
    The key the comparator for `sortBy` subtracts: `a - b` on the key gives the
    ascending orders, `b - a` (the negated key) the descending ones, and any
    other value compares everything as equal.
  */
  function SortKey(t: Task, sortBy: string): int
  {
    if sortBy == "dueDateAsc" then DueKey(t.dueDate)
    else if sortBy == "dueDateDesc" then -DueKey(t.dueDate)
    else if sortBy == "priorityAsc" then PriorityValue(t.priority)
    else if sortBy == "priorityDesc" then -PriorityValue(t.priority)
    else 0
  }

  /** The filter callback for `filterBy`. */
  predicate Keeps(t: Task, filterBy: string)
  {
    if filterBy == "completed" then t.completed
    else if filterBy == "incomplete" then !t.completed
    else true
  }

  function FilterTasks(ts: seq<Task>, filterBy: string): seq<Task>
  {
    Filter(ts, (t: Task) => Keeps(t, filterBy))
  }

  // ---------------------------------------------------------------------
  // Stable sort on a key

  predicate SortedOn<T>(s: seq<T>, key: T -> int)
  {
    forall i, j :: 0 <= i < j < |s| ==> key(s[i]) <= key(s[j])
  }

  /** Insert `x` after every element whose key is not greater than its own. */
  function Insert<T>(s: seq<T>, x: T, key: T -> int): (r: seq<T>)
    ensures |r| == |s| + 1
    decreases |s|
  {
    if s == [] then [x]
    else if key(x) < key(s[0]) then [x] + s
    else [s[0]] + Insert(s[1..], x, key)
  }

  /** Insertion sort, taking the elements in input order. */
  function SortBy<T>(s: seq<T>, key: T -> int): (r: seq<T>)
    ensures |r| == |s|
    decreases |s|
  {
    if s == [] then []
    else Insert(SortBy(s[..|s| - 1], key), s[|s| - 1], key)
  }

  /** The list the task manager shows. */
  function SortedAndFiltered(ts: seq<Task>, filterBy: string, sortBy: string): seq<Task>
  {
    SortBy(FilterTasks(ts, filterBy), (t: Task) => SortKey(t, sortBy))
  }

  // ---------------------------------------------------------------------
  // Properties of the sort

  lemma {:induction false} InsertPermutes<T>(s: seq<T>, x: T, key: T -> int)
    ensures multiset(Insert(s, x, key)) == multiset(s) + multiset{x}
    decreases |s|
  {
    if s != [] && key(x) >= key(s[0]) {
      InsertPermutes(s[1..], x, key);
      assert s == [s[0]] + s[1..];
    }
  }

  /** A bound below every element and below `x` stays below every element after the insertion. */
  lemma {:induction false} InsertBounded<T>(s: seq<T>, x: T, key: T -> int, b: int)
    requires forall i :: 0 <= i < |s| ==> b <= key(s[i])
    requires b <= key(x)
    ensures forall i :: 0 <= i < |Insert(s, x, key)| ==> b <= key(Insert(s, x, key)[i])
    decreases |s|
  {
    if s != [] && key(x) >= key(s[0]) {
      InsertBounded(s[1..], x, key, b);
      var rest := Insert(s[1..], x, key);
      assert Insert(s, x, key) == [s[0]] + rest;
    }
  }

  lemma {:induction false} InsertSorted<T>(s: seq<T>, x: T, key: T -> int)
    requires SortedOn(s, key)
    ensures SortedOn(Insert(s, x, key), key)
    decreases |s|
  {
    if s != [] && key(x) >= key(s[0]) {
      var rest := Insert(s[1..], x, key);
      InsertSorted(s[1..], x, key);
      assert forall j :: 0 <= j < |rest| ==> key(s[0]) <= key(rest[j]) by {
        assert forall i :: 0 <= i < |s[1..]| ==> key(s[0]) <= key(s[1..][i]) by {
          forall i | 0 <= i < |s[1..]| ensures key(s[0]) <= key(s[1..][i]) {
            assert s[1..][i] == s[i + 1];
          }
        }
        InsertBounded(s[1..], x, key, key(s[0]));
      }
      var r := [s[0]] + rest;
      forall i, j | 0 <= i < j < |r| ensures key(r[i]) <= key(r[j]) {
        if i > 0 {
          assert r[i] == rest[i - 1] && r[j] == rest[j - 1];
        } else {
          assert r[j] == rest[j - 1];
        }
      }
    }
  }

  /** The elements whose key is `k`. */
  function WithKey<T>(key: T -> int, k: int): T -> bool
  {
    (x: T) => key(x) == k
  }

  lemma FilterNoneMatch<T>(s: seq<T>, p: T -> bool)
    requires forall i :: 0 <= i < |s| ==> !p(s[i])
    ensures Filter(s, p) == []
  {
    CountExtremes(s, p);
  }

  lemma FilterSingle<T>(x: T, p: T -> bool)
    ensures Filter([x], p) == if p(x) then [x] else []
  {
    assert [x][..0] == [];
  }

  /** Inserting into a sorted list keeps the order among equal keys, the new element last. */
  lemma {:induction false} InsertStable<T>(s: seq<T>, x: T, key: T -> int, k: int)
    requires SortedOn(s, key)
    ensures Filter(Insert(s, x, key), WithKey(key, k)) ==
      Filter(s, WithKey(key, k)) + (if key(x) == k then [x] else [])
    decreases |s|
  {
    if s == [] {
      FilterSingle(x, WithKey(key, k));
    } else if key(x) < key(s[0]) {
      InsertFront(s, x, key, k);
    } else {
      var p := WithKey(key, k);
      var rest := Insert(s[1..], x, key);
      assert Insert(s, x, key) == [s[0]] + rest;
      InsertStable(s[1..], x, key, k);
      FilterConcat([s[0]], rest, p);
      FilterConcat([s[0]], s[1..], p);
      assert s == [s[0]] + s[1..];
    }
  }

  /** The case of `InsertStable` where the new element goes first. */
  lemma InsertFront<T>(s: seq<T>, x: T, key: T -> int, k: int)
    requires SortedOn(s, key) && s != [] && key(x) < key(s[0])
    ensures Filter([x] + s, WithKey(key, k)) == Filter(s, WithKey(key, k)) + (if key(x) == k then [x] else [])
  {
    var p := WithKey(key, k);
    FilterSingle(x, p);
    FilterConcat([x], s, p);
    if key(x) == k {
      forall i | 0 <= i < |s| ensures !p(s[i]) {
        assert key(s[0]) <= key(s[i]);
      }
      FilterNoneMatch(s, p);
    }
  }

  /** The sort returns an ordered permutation of its input. */
  lemma {:induction false} SortByCorrect<T>(s: seq<T>, key: T -> int)
    ensures SortedOn(SortBy(s, key), key)
    ensures multiset(SortBy(s, key)) == multiset(s)
    decreases |s|
  {
    if s != [] {
      var n := |s| - 1;
      SortByCorrect(s[..n], key);
      InsertSorted(SortBy(s[..n], key), s[n], key);
      InsertPermutes(SortBy(s[..n], key), s[n], key);
      assert s == s[..n] + [s[n]];
    }
  }

  /** Stability: the elements of any one key keep their input order. */
  lemma {:induction false} SortByStable<T>(s: seq<T>, key: T -> int, k: int)
    ensures Filter(SortBy(s, key), WithKey(key, k)) == Filter(s, WithKey(key, k))
    decreases |s|
  {
    if s != [] {
      var n := |s| - 1;
      SortByStable(s[..n], key, k);
      SortByCorrect(s[..n], key);
      InsertStable(SortBy(s[..n], key), s[n], key, k);
    }
  }

  /** With one key for every element the order is the input order. */
  lemma {:induction false} SortByConstantKey<T>(s: seq<T>, key: T -> int, k: int)
    requires forall i :: 0 <= i < |s| ==> key(s[i]) == k
    ensures SortBy(s, key) == s
  {
    SortByStable(s, key, k);
    SortByCorrect(s, key);
    var r := SortBy(s, key);
    forall i | 0 <= i < |r| ensures WithKey(key, k)(r[i]) {
      assert r[i] in multiset(s);
    }
    FilterKeepsAll(r, WithKey(key, k));
    FilterKeepsAll(s, WithKey(key, k));
  }

  // ---------------------------------------------------------------------
  // Properties of the task list

  /**
    "completed" keeps exactly the completed tasks, "incomplete" exactly the
    others, and any other filter keeps the list as it is.
  */
  lemma FilterTasksRule(ts: seq<Task>, filterBy: string, x: Task)
    ensures filterBy == "completed" ==> (x in FilterTasks(ts, filterBy) <==> x in ts && x.completed)
    ensures filterBy == "incomplete" ==> (x in FilterTasks(ts, filterBy) <==> x in ts && !x.completed)
    ensures filterBy != "completed" && filterBy != "incomplete" ==> FilterTasks(ts, filterBy) == ts
  {
    FilterMembers(ts, (t: Task) => Keeps(t, filterBy), x);
    if filterBy != "completed" && filterBy != "incomplete" {
      FilterKeepsAll(ts, (t: Task) => Keeps(t, filterBy));
    }
  }

  /** The list shown is a permutation of the filtered tasks, ordered on the key. */
  lemma ShownIsSortedPermutation(ts: seq<Task>, filterBy: string, sortBy: string)
    ensures multiset(SortedAndFiltered(ts, filterBy, sortBy)) == multiset(FilterTasks(ts, filterBy))
    ensures var r := SortedAndFiltered(ts, filterBy, sortBy);
      forall i, j :: 0 <= i < j < |r| ==> SortKey(r[i], sortBy) <= SortKey(r[j], sortBy)
  {
    SortByCorrect(FilterTasks(ts, filterBy), (t: Task) => SortKey(t, sortBy));
  }

  /** Due dates ascending or descending, read as day numbers. */
  lemma DueDateOrder(ts: seq<Task>, filterBy: string)
    ensures var r := SortedAndFiltered(ts, filterBy, "dueDateAsc");
      forall i, j :: 0 <= i < j < |r| ==> DueKey(r[i].dueDate) <= DueKey(r[j].dueDate)
    ensures var r := SortedAndFiltered(ts, filterBy, "dueDateDesc");
      forall i, j :: 0 <= i < j < |r| ==> DueKey(r[i].dueDate) >= DueKey(r[j].dueDate)
  {
    ShownIsSortedPermutation(ts, filterBy, "dueDateAsc");
    ShownIsSortedPermutation(ts, filterBy, "dueDateDesc");
  }

  /** Priorities ascending or descending (High 3, Medium 2, Low 1). */
  lemma PriorityOrder(ts: seq<Task>, filterBy: string)
    ensures var r := SortedAndFiltered(ts, filterBy, "priorityAsc");
      forall i, j :: 0 <= i < j < |r| ==> PriorityValue(r[i].priority) <= PriorityValue(r[j].priority)
    ensures var r := SortedAndFiltered(ts, filterBy, "priorityDesc");
      forall i, j :: 0 <= i < j < |r| ==> PriorityValue(r[i].priority) >= PriorityValue(r[j].priority)
  {
    ShownIsSortedPermutation(ts, filterBy, "priorityAsc");
    ShownIsSortedPermutation(ts, filterBy, "priorityDesc");
  }

  /** Tasks with equal keys (a tie) stay in their filtered order. */
  lemma TiesKeepOrder(ts: seq<Task>, filterBy: string, sortBy: string, k: int)
    ensures var key := (t: Task) => SortKey(t, sortBy);
      Filter(SortedAndFiltered(ts, filterBy, sortBy), WithKey(key, k)) == Filter(FilterTasks(ts, filterBy), WithKey(key, k))
  {
    SortByStable(FilterTasks(ts, filterBy), (t: Task) => SortKey(t, sortBy), k);
  }

  /** An unknown sort order leaves the filtered list as it is. */
  lemma UnknownSortKeepsOrder(ts: seq<Task>, filterBy: string, sortBy: string)
    requires sortBy != "dueDateAsc" && sortBy != "dueDateDesc" && sortBy != "priorityAsc" && sortBy != "priorityDesc"
    ensures SortedAndFiltered(ts, filterBy, sortBy) == FilterTasks(ts, filterBy)
  {
    SortByConstantKey(FilterTasks(ts, filterBy), (t: Task) => SortKey(t, sortBy), 0);
  }

  /** A missing due date sorts as day 0, 1 January 1970; a rendered date sorts as its own day. */
  lemma DueKeys(d: Date)
    requires d.year >= 100
    ensures DueKey("") == DayNumber(Date(1970, 1, 1))
    ensures DueKey(RenderDmy(d)) == DayNumber(d)
  {
    EpochIsDayZero();
    DmyKeyOfRender(d);
    NoDashInNumber(d.day);
  }
}
