/**
  A study task as the client keeps it, and the counts over task lists that
  the badge rules, the progress report and the analytics cards use.
  Hours are whole hundredths of an hour.
*/
module Tasks {
  import opened Text

  datatype Task = Task(
    id: int,
    title: string,
    dueDate: string,
    priority: string,
    completed: bool,
    completedDate: Option<string>,
    pointsAwarded: bool,
    hours: nat,
    deleted: bool)

  /** Points for completing a task: 30 for High, 20 for Medium, 10 for any other priority. */
  function PriorityPoints(priority: string): (r: nat)
    ensures r == 30 || r == 20 || r == 10
    ensures r == 30 <==> priority == "High"
    ensures r == 20 <==> priority == "Medium"
  {
    if priority == "High" then 30 else if priority == "Medium" then 20 else 10
  }

  /** JavaScript truthiness of a possibly-null string. */
  predicate Present(s: Option<string>)
  {
    s.Some? && s.value != ""
  }

  /** The number of elements that satisfy `p` (`list.filter(p).length`). */
  function Count<T>(s: seq<T>, p: T -> bool): (r: nat)
    ensures r <= |s|
  {
    if s == [] then 0 else Count(s[..|s| - 1], p) + (if p(s[|s| - 1]) then 1 else 0)
  }

  /** The count is 0 exactly when no element passes, and the length exactly when all do. */
  lemma {:induction false} CountExtremes<T>(s: seq<T>, p: T -> bool)
    ensures Count(s, p) == 0 <==> forall i :: 0 <= i < |s| ==> !p(s[i])
    ensures Count(s, p) == |s| <==> forall i :: 0 <= i < |s| ==> p(s[i])
    decreases |s|
  {
    if s != [] {
      var n := |s| - 1;
      CountExtremes(s[..n], p);
      assert forall i :: 0 <= i < n ==> s[..n][i] == s[i];
    }
  }

  lemma {:induction false} CountConcat<T>(a: seq<T>, b: seq<T>, p: T -> bool)
    ensures Count(a + b, p) == Count(a, p) + Count(b, p)
    decreases |b|
  {
    if b == [] {
      assert a + b == a;
    } else {
      assert (a + b)[..|a + b| - 1] == a + b[..|b| - 1];
      CountConcat(a, b[..|b| - 1], p);
    }
  }

  /** Counting with two predicates that agree on every element gives the same count. */
  lemma {:induction false} CountCongruent<T>(s: seq<T>, p: T -> bool, q: T -> bool)
    requires forall i :: 0 <= i < |s| ==> p(s[i]) == q(s[i])
    ensures Count(s, p) == Count(s, q)
    decreases |s|
  {
    if s != [] {
      CountCongruent(s[..|s| - 1], p, q);
    }
  }

  /** Two lists whose elements pass the test at the same places have the same count. */
  lemma {:induction false} CountSameTests<T>(a: seq<T>, b: seq<T>, p: T -> bool)
    requires |a| == |b| && forall i :: 0 <= i < |a| ==> p(a[i]) == p(b[i])
    ensures Count(a, p) == Count(b, p)
    decreases |a|
  {
    if a != [] {
      CountSameTests(a[..|a| - 1], b[..|b| - 1], p);
    }
  }

  /** Elements satisfying a stronger predicate are never more. */
  lemma {:induction false} CountMonotone<T>(s: seq<T>, p: T -> bool, q: T -> bool)
    requires forall i :: 0 <= i < |s| ==> p(s[i]) ==> q(s[i])
    ensures Count(s, p) <= Count(s, q)
    decreases |s|
  {
    if s != [] {
      CountMonotone(s[..|s| - 1], p, q);
    }
  }

  /** The elements that satisfy `p`, in order (`list.filter(p)`). */
  function Filter<T>(s: seq<T>, p: T -> bool): (r: seq<T>)
    ensures |r| == Count(s, p)
    ensures forall i :: 0 <= i < |r| ==> p(r[i])
  {
    if s == [] then []
    else
      var init := Filter(s[..|s| - 1], p);
      assert s == s[..|s| - 1] + [s[|s| - 1]];
      if p(s[|s| - 1]) then init + [s[|s| - 1]] else init
  }

  lemma {:induction false} FilterConcat<T>(a: seq<T>, b: seq<T>, p: T -> bool)
    ensures Filter(a + b, p) == Filter(a, p) + Filter(b, p)
    decreases |b|
  {
    if b == [] {
      assert a + b == a;
    } else {
      assert (a + b)[..|a + b| - 1] == a + b[..|b| - 1];
      FilterConcat(a, b[..|b| - 1], p);
    }
  }

  /** Filtering keeps exactly the elements that satisfy `p`. */
  lemma {:induction false} FilterMembers<T>(s: seq<T>, p: T -> bool, x: T)
    ensures x in Filter(s, p) <==> x in s && p(x)
    decreases |s|
  {
    if s != [] {
      FilterMembers(s[..|s| - 1], p, x);
      assert s == s[..|s| - 1] + [s[|s| - 1]];
    }
  }

  /** Filtering by a test every element passes leaves the list as it is. */
  lemma {:induction false} FilterKeepsAll<T>(s: seq<T>, p: T -> bool)
    requires forall i :: 0 <= i < |s| ==> p(s[i])
    ensures Filter(s, p) == s
    decreases |s|
  {
    if s != [] {
      FilterKeepsAll(s[..|s| - 1], p);
      assert s == s[..|s| - 1] + [s[|s| - 1]];
    }
  }

  // Task predicates used by several cards and rules

  predicate IsCompleted(t: Task) { t.completed }

  predicate IsCompletedHigh(t: Task) { t.completed && t.priority == "High" }

  /**
    An Early Bird task as the award rule counts it: completed, with a
    completion date and a due date, and the completion date before the due
    date in string order.
  */
  predicate IsEarly(t: Task)
  {
    t.completed && Present(t.completedDate) && t.dueDate != "" && LexLess(t.completedDate.value, t.dueDate)
  }

  predicate NotDeleted(t: Task) { !t.deleted }

  /** The tasks the analytics cards count: the ones not flagged deleted. */
  function Live(tasks: seq<Task>): seq<Task>
  {
    Filter(tasks, NotDeleted)
  }

  /** A deleted task, first or last, makes no difference to the live tasks. */
  lemma LiveIgnoresDeleted(tasks: seq<Task>, d: Task)
    requires d.deleted
    ensures Live(tasks + [d]) == Live(tasks)
    ensures Live([d] + tasks) == Live(tasks)
  {
    FilterConcat(tasks, [d], NotDeleted);
    assert Filter([d], NotDeleted) == [];
    FilterConcat([d], tasks, NotDeleted);
  }

  /** Every task with a given id. */
  predicate HasId(ts: seq<Task>, id: int)
  {
    exists i :: 0 <= i < |ts| && ts[i].id == id
  }

  /** `tasks.find(t => t.id === id)`: the index of the first task with the id. */
  function FirstWithId(ts: seq<Task>, id: int): (r: Option<nat>)
    ensures r.None? <==> !HasId(ts, id)
    ensures r.Some? ==> r.value < |ts| && ts[r.value].id == id &&
                        forall j :: 0 <= j < r.value ==> ts[j].id != id
  {
    if ts == [] then None
    else if ts[0].id == id then Some(0)
    else match FirstWithId(ts[1..], id)
      case None => None
      case Some(k) => Some(k + 1)
  }
}
