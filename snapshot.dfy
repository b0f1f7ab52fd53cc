/**
  The productivity snapshot card: overdue and pending high-priority tasks,
  completions and hours on each of the past days, the most productive of
  those days, and the three insight sentences. Deleted tasks are left out of
  every figure. "Today" and the past days are calendar dates in the card's
  time zone.
*/
module Snapshot {
  import opened Text
  import opened Dates
  import opened Tasks

  // ---------------------------------------------------------------------
  // Overdue and pending tasks

  /**
    `todayDateObj`: today rendered as YYYY-MM-DD, turned into DD-MM-YYYY and
    read back as `new Date(year, month - 1, day)`.
  */
  function TodayKey(today: Date): Option<int>
  {
    DmyKey(ReverseFields(RenderIso(today)))
  }

  /**
    `!task.completed && task.dueDate && parseDDMMYYYY(task.dueDate) < todayDateObj`:
    a due date that does not read as a date compares as false.
  */
  predicate IsOverdue(t: Task, todayKey: Option<int>)
  {
    !t.completed && t.dueDate != "" &&
    match (DmyKey(t.dueDate), todayKey)
    case (Some(k), Some(now)) => k < now
    case _ => false
  }

  function OverdueCount(tasks: seq<Task>, today: Date): nat
  {
    var key := TodayKey(today);
    Count(Live(tasks), (t: Task) => IsOverdue(t, key))
  }

  predicate IsPendingHigh(t: Task) { !t.completed && t.priority == "High" }

  function PendingHighCount(tasks: seq<Task>): nat
  {
    Count(Live(tasks), IsPendingHigh)
  }

  // ---------------------------------------------------------------------
  // The past days

  const WeekdayNames: seq<string> := ["Sunday", "Monday", "Tuesday", "Wednesday", "Thursday", "Friday", "Saturday"]

  /** The weekday of a date, 0 for Sunday; 1 January 1970 was a Thursday. */
  function WeekdayIndex(d: Date): (r: nat)
    ensures r < 7
  {
    (DayNumber(d) + 4) % 7
  }

  /** The long weekday name the card shows for a date. */
  function WeekdayName(d: Date): string
  {
    WeekdayNames[WeekdayIndex(d)]
  }

  /** One row of `completedTasksByDay`: weekday name, YYYY-MM-DD date, completions and their hours. */
  datatype DayStat = DayStat(day: string, date: string, count: nat, hours: nat)

  predicate CompletedOn(t: Task, dmy: string)
  {
    t.completed && t.completedDate == Some(dmy)
  }

  /** The test of a task completed on the day written `dmy`. */
  function CompletedOnDay(dmy: string): Task -> bool
  {
    (t: Task) => CompletedOn(t, dmy)
  }

  /** The sum of `task.hours || 0` over a list. */
  function SumHours(ts: seq<Task>): nat
  {
    if ts == [] then 0 else SumHours(ts[..|ts| - 1]) + ts[|ts| - 1].hours
  }

  /** The row for one day: the live tasks completed on it, as DD-MM-YYYY, counted and their hours added. */
  function DayStatOf(live: seq<Task>, d: Date): DayStat
  {
    var iso := RenderIso(d);
    var dmy := ReverseFields(iso);
    var done := Filter(live, CompletedOnDay(dmy));
    DayStat(WeekdayName(d), iso, |done|, SumHours(done))
  }

  /** `past7Days.map(...)`. */
  function DayStats(tasks: seq<Task>, days: seq<Date>): (r: seq<DayStat>)
    ensures |r| == |days|
  {
    seq(|days|, i requires 0 <= i < |days| => DayStatOf(Live(tasks), days[i]))
  }

  // ---------------------------------------------------------------------
  // The most productive days

  /** The position of a largest count (`Math.max(...counts)`). */
  function MaxCountAt(s: seq<DayStat>): (i: nat)
    requires |s| > 0
    ensures i < |s| && forall j :: 0 <= j < |s| ==> s[j].count <= s[i].count
  {
    if |s| == 1 then 0
    else
      var k := MaxCountAt(s[..|s| - 1]);
      if s[|s| - 1].count > s[k].count then |s| - 1 else k
  }

  function MaxCount(s: seq<DayStat>): nat
    requires |s| > 0
  {
    s[MaxCountAt(s)].count
  }

  /** The position of a smallest number of hours (`Math.min(...hours)`). */
  function MinHoursAt(s: seq<DayStat>): (i: nat)
    requires |s| > 0
    ensures i < |s| && forall j :: 0 <= j < |s| ==> s[i].hours <= s[j].hours
  {
    if |s| == 1 then 0
    else
      var k := MinHoursAt(s[..|s| - 1]);
      if s[|s| - 1].hours < s[k].hours then |s| - 1 else k
  }

  function MinHours(s: seq<DayStat>): nat
    requires |s| > 0
  {
    s[MinHoursAt(s)].hours
  }

  function HasCount(k: nat): DayStat -> bool { (x: DayStat) => x.count == k }

  function HasHours(h: nat): DayStat -> bool { (x: DayStat) => x.hours == h }

  /** `daysWithMaxTasks`. */
  function TopDays(s: seq<DayStat>): (r: seq<DayStat>)
    requires |s| > 0
    ensures |r| > 0
  {
    FilterMembers(s, HasCount(MaxCount(s)), s[MaxCountAt(s)]);
    Filter(s, HasCount(MaxCount(s)))
  }

  /** `mostProductiveDays`: the top days, and among several of them those with the fewest hours. */
  function MostProductive(s: seq<DayStat>): (r: seq<DayStat>)
    requires |s| > 0
    ensures |r| > 0
  {
    var top := TopDays(s);
    if |top| == 1 then top
    else
      FilterMembers(top, HasHours(MinHours(top)), top[MinHoursAt(top)]);
      Filter(top, HasHours(MinHours(top)))
  }

  // ---------------------------------------------------------------------
  // The insight sentences

  const StartedMessage := "You're just getting started\U{2014}complete your first task today to build your streak!"

  function Plural(n: nat): string { if n != 1 then "s" else "" }

  /** One item as it is, several joined by ", " with the last ", " replaced by " and ". */
  function Phrase(items: seq<string>): string
    requires |items| > 0
  {
    if |items| == 1 then items[0] else ReplaceLastComma(Join(items, ", "))
  }

  /** "A", "A and B", "A, B and C": the list the sentence is meant to show. */
  function AndList(items: seq<string>): string
    requires |items| > 0
  {
    if |items| == 1 then items[0] else Join(items[..|items| - 1], ", ") + " and " + items[|items| - 1]
  }

  function DayNames(s: seq<DayStat>): (r: seq<string>)
    ensures |r| == |s| && forall i :: 0 <= i < |s| ==> r[i] == s[i].day
  {
    seq(|s|, i requires 0 <= i < |s| => s[i].day)
  }

  /** The chosen dates shown as DD-MM-YYYY (`formatDateForDisplay`). */
  function DisplayDates(s: seq<DayStat>): (r: seq<string>)
    ensures |r| == |s| && forall i :: 0 <= i < |s| ==> r[i] == ReverseFields(s[i].date)
  {
    seq(|s|, i requires 0 <= i < |s| => ReverseFields(s[i].date))
  }

  function ProductiveInsight(s: seq<DayStat>): string
    requires |s| > 0
  {
    var max := MaxCount(s);
    if max == 0 then StartedMessage
    else
      var chosen := MostProductive(s);
      "You're most productive on " + Phrase(DayNames(chosen)) + ", with " + NatToString(max) +
      " task" + Plural(max) + " completed on " + Phrase(DisplayDates(chosen)) + "."
  }

  /** `You have N <noun>(s)<rest>`. */
  function YouHave(n: nat, noun: string, rest: string): string
  {
    "You have " + NatToString(n) + " " + noun + Plural(n) + rest
  }

  const OverdueNoun := "overdue task"
  const PriorityNoun := "incomplete high-priority task"
  const OverdueAdvice := ". Focus on completing these to stay on track!"
  const PriorityAdvice := ". Prioritize these to maximize your productivity."

  function OverdueInsight(n: nat): string
  {
    if n > 0 then YouHave(n, OverdueNoun, OverdueAdvice)
    else "Great job! You have no overdue tasks."
  }

  function PriorityInsight(n: nat): string
  {
    if n > 0 then YouHave(n, PriorityNoun, PriorityAdvice)
    else "No high-priority tasks pending. Keep up the good work!"
  }

  // ---------------------------------------------------------------------
  // Properties

  /** For a four-digit year, today reads back as its own day number. */
  lemma TodayKeyIs(today: Date)
    requires 1000 <= today.year <= 9999
    ensures TodayKey(today) == Some(DayNumber(today))
  {
    ReverseRendered(today);
    DmyKeyOfRender(today);
  }

  /**
    A task is overdue exactly when it is incomplete, has a due date, and that
    date reads as a day before today.
  */
  lemma OverdueRule(t: Task, today: Date)
    requires 1000 <= today.year <= 9999
    ensures IsOverdue(t, TodayKey(today)) <==>
      !t.completed && t.dueDate != "" && DmyKey(t.dueDate).Some? && DmyKey(t.dueDate).value < DayNumber(today)
  {
    TodayKeyIs(today);
  }

  /** For a due date written by the app itself the rule compares day numbers of the two dates. */
  lemma OverdueRendered(t: Task, due: Date, today: Date)
    requires 1000 <= today.year <= 9999 && due.year >= 100
    requires t.dueDate == RenderDmy(due)
    ensures IsOverdue(t, TodayKey(today)) <==> !t.completed && DayNumber(due) < DayNumber(today)
  {
    OverdueRule(t, today);
    DmyKeyOfRender(due);
  }

  /** A due date that does not read as a date is never overdue. */
  lemma UnreadableDueNotOverdue(t: Task, todayKey: Option<int>)
    requires DmyKey(t.dueDate).None?
    ensures !IsOverdue(t, todayKey)
  {
  }

  /** A deleted task, first or last, changes none of the card's figures. */
  lemma DeletedIgnored(tasks: seq<Task>, d: Task, today: Date, days: seq<Date>)
    requires d.deleted
    ensures OverdueCount(tasks + [d], today) == OverdueCount(tasks, today)
    ensures OverdueCount([d] + tasks, today) == OverdueCount(tasks, today)
    ensures PendingHighCount(tasks + [d]) == PendingHighCount(tasks)
    ensures PendingHighCount([d] + tasks) == PendingHighCount(tasks)
    ensures DayStats(tasks + [d], days) == DayStats(tasks, days)
    ensures DayStats([d] + tasks, days) == DayStats(tasks, days)
  {
    LiveIgnoresDeleted(tasks, d);
  }

  /**
    The pending high-priority count: 0 exactly when no live task is an
    incomplete High one, and one more for each such live task added.
  */
  lemma PendingHighCountRule(tasks: seq<Task>, t: Task)
    ensures PendingHighCount(tasks) == 0 <==>
      forall i :: 0 <= i < |Live(tasks)| ==> !IsPendingHigh(Live(tasks)[i])
    ensures PendingHighCount(tasks + [t]) ==
      PendingHighCount(tasks) + (if !t.deleted && IsPendingHigh(t) then 1 else 0)
  {
    CountExtremes(Live(tasks), IsPendingHigh);
    var s := tasks + [t];
    assert s[..|s| - 1] == tasks;
    if !t.deleted {
      var l := Live(tasks) + [t];
      assert Live(s) == l;
      assert l[..|l| - 1] == Live(tasks);
    }
  }

  /**
    The row of a day with a four-digit year: its date is the YYYY-MM-DD
    rendering, and its count and hours are over exactly the live tasks that
    are completed with that day's DD-MM-YYYY date.
  */
  lemma DayStatRule(tasks: seq<Task>, d: Date, t: Task)
    requires 1000 <= d.year <= 9999
    ensures var r := DayStatOf(Live(tasks), d);
      var done := Filter(Live(tasks), CompletedOnDay(RenderDmy(d)));
      r.date == RenderIso(d) && r.day == WeekdayName(d) &&
      r.count == |done| && r.hours == SumHours(done) &&
      (t in done <==> t in tasks && !t.deleted && t.completed && t.completedDate == Some(RenderDmy(d)))
  {
    ReverseRendered(d);
    FilterMembers(Live(tasks), CompletedOnDay(RenderDmy(d)), t);
    FilterMembers(tasks, NotDeleted, t);
  }

  /** Hours add up over concatenation. */
  lemma {:induction false} SumHoursConcat(a: seq<Task>, b: seq<Task>)
    ensures SumHours(a + b) == SumHours(a) + SumHours(b)
    decreases |b|
  {
    if b == [] {
      assert a + b == a;
    } else {
      assert (a + b)[..|a + b| - 1] == a + b[..|b| - 1];
      SumHoursConcat(a, b[..|b| - 1]);
    }
  }

  /** A task completed that day with `h` hours adds one to the day's count and `h` to its hours. */
  lemma DayStatAddCompleted(tasks: seq<Task>, d: Date, t: Task)
    requires !t.deleted && t.completed && t.completedDate == Some(ReverseFields(RenderIso(d)))
    ensures DayStatOf(Live(tasks + [t]), d).count == DayStatOf(Live(tasks), d).count + 1
    ensures DayStatOf(Live(tasks + [t]), d).hours == DayStatOf(Live(tasks), d).hours + t.hours
  {
    CompletedAdd(tasks, ReverseFields(RenderIso(d)), t);
  }

  /** The live tasks completed on a day, after one more such task. */
  lemma CompletedAdd(tasks: seq<Task>, dmy: string, t: Task)
    requires !t.deleted && CompletedOn(t, dmy)
    ensures Filter(Live(tasks + [t]), CompletedOnDay(dmy)) == Filter(Live(tasks), CompletedOnDay(dmy)) + [t]
    ensures SumHours(Filter(Live(tasks + [t]), CompletedOnDay(dmy))) == SumHours(Filter(Live(tasks), CompletedOnDay(dmy))) + t.hours
  {
    var p := CompletedOnDay(dmy);
    var done := Filter(Live(tasks), p);
    assert Live(tasks + [t]) == Live(tasks) + [t] by {
      FilterConcat(tasks, [t], NotDeleted);
      assert Filter([t], NotDeleted) == [t];
    }
    assert Filter(Live(tasks) + [t], p) == done + [t] by {
      FilterConcat(Live(tasks), [t], p);
      assert Filter([t], p) == [t];
    }
    assert SumHours(done + [t]) == SumHours(done) + t.hours by {
      SumHoursConcat(done, [t]);
      assert [t][..0] == [];
    }
  }

  /**
    The choice is never empty; every chosen day has the largest count; among
    the days with that count the chosen ones have the fewest hours, and every
    such day with the fewest hours is chosen.
  */
  lemma MostProductiveRule(s: seq<DayStat>)
    requires |s| > 0
    ensures var r := MostProductive(s);
      |r| > 0 &&
      (forall x :: x in r ==> x in s && x.count == MaxCount(s)) &&
      (forall j :: 0 <= j < |s| ==> s[j].count <= MaxCount(s)) &&
      (forall x, y :: x in r && y in s && y.count == MaxCount(s) ==> x.hours <= y.hours) &&
      (forall y :: y in s && y.count == MaxCount(s) && y.hours == MinHours(TopDays(s)) ==> y in r)
  {
    var top := TopDays(s);
    var max := MaxCount(s);
    var r := MostProductive(s);
    forall x
      ensures x in top <==> x in s && x.count == max
    {
      FilterMembers(s, HasCount(max), x);
    }
    if |top| == 1 {
      forall x, y | x in r && y in s && y.count == max
        ensures x.hours <= y.hours
      {
        assert x == top[0] && y == top[0];
      }
      forall y | y in s && y.count == max && y.hours == MinHours(top)
        ensures y in r
      {
      }
    } else {
      var h := MinHours(top);
      FilterMembers(top, HasHours(h), top[MinHoursAt(top)]);
      forall x
        ensures x in r <==> x in top && x.hours == h
      {
        FilterMembers(top, HasHours(h), x);
      }
      forall x, y | x in r && y in s && y.count == max
        ensures x.hours <= y.hours
      {
        var j :| 0 <= j < |top| && top[j] == y;
      }
    }
  }

  /** No weekday name and no rendered date holds a comma. */
  lemma NoCommaInNames(d: Date)
    ensures ',' !in WeekdayName(d)
    ensures ',' !in RenderDmy(d)
  {
    var i := WeekdayIndex(d);
    assert ',' !in WeekdayNames[i] by {
      assert i == 0 || i == 1 || i == 2 || i == 3 || i == 4 || i == 5 || i == 6;
    }
    var a := Pad2(d.day);
    var b := Pad2(d.month);
    var y := NatToString(d.year);
    NoDashInNumber(d.day);
    NoDashInNumber(d.month);
    assert forall k :: 0 <= k < |a| ==> a[k] != ',';
    assert forall k :: 0 <= k < |b| ==> b[k] != ',';
    assert forall k :: 0 <= k < |y| ==> y[k] != ',';
    assert RenderDmy(d) == a + "-" + b + "-" + y;
  }

  /** Items without commas are phrased as the intended list. */
  lemma PhraseIsAndList(items: seq<string>)
    requires |items| > 0 && forall k :: 0 <= k < |items| ==> ',' !in items[k]
    ensures Phrase(items) == AndList(items)
  {
    if |items| > 1 {
      ReplaceLastCommaOfJoin(items);
    }
  }

  /** Rows whose day names and displayed dates hold no comma. */
  predicate CommaFree(s: seq<DayStat>)
  {
    forall i :: 0 <= i < |s| ==> ',' !in s[i].day && ',' !in ReverseFields(s[i].date)
  }

  /** Rows built from days with four-digit years are comma-free. */
  lemma DayStatsCommaFree(tasks: seq<Task>, days: seq<Date>)
    requires forall i :: 0 <= i < |days| ==> 1000 <= days[i].year <= 9999
    ensures CommaFree(DayStats(tasks, days))
  {
    var s := DayStats(tasks, days);
    forall i | 0 <= i < |s|
      ensures ',' !in s[i].day && ',' !in ReverseFields(s[i].date)
    {
      NoCommaInNames(days[i]);
      ReverseRendered(days[i]);
    }
  }

  /** A sub-list of comma-free rows is comma-free. */
  lemma CommaFreeFilter(s: seq<DayStat>, p: DayStat -> bool)
    requires CommaFree(s)
    ensures CommaFree(Filter(s, p))
  {
    var r := Filter(s, p);
    forall i | 0 <= i < |r|
      ensures ',' !in r[i].day && ',' !in ReverseFields(r[i].date)
    {
      FilterMembers(s, p, r[i]);
    }
  }

  /**
    With no completion on any day the card encourages a start; otherwise it
    names the chosen days and their DD-MM-YYYY dates as lists ("A, B and C"),
    with the largest count and "task" or "tasks" to match.
  */
  lemma ProductiveInsightRule(s: seq<DayStat>)
    requires |s| > 0 && CommaFree(s)
    ensures MaxCount(s) == 0 ==> ProductiveInsight(s) == StartedMessage
    ensures MaxCount(s) > 0 ==>
      var chosen := MostProductive(s);
      |chosen| > 0 &&
      ProductiveInsight(s) ==
        "You're most productive on " + AndList(DayNames(chosen)) + ", with " + NatToString(MaxCount(s)) +
        " task" + Plural(MaxCount(s)) + " completed on " + AndList(DisplayDates(chosen)) + "."
  {
    if MaxCount(s) > 0 {
      MostProductiveRule(s);
      var chosen := MostProductive(s);
      var top := TopDays(s);
      CommaFreeFilter(s, HasCount(MaxCount(s)));
      if |top| != 1 {
        CommaFreeFilter(top, HasHours(MinHours(top)));
      }
      PhraseIsAndList(DayNames(chosen));
      PhraseIsAndList(DisplayDates(chosen));
    }
  }

  /** The sentence for `n` is not the sentence for any other `n'`, and names `n`. */
  lemma YouHaveInjective(a: nat, b: nat, noun: string, rest: string)
    requires YouHave(a, noun, rest) == YouHave(b, noun, rest)
    ensures a == b
  {
    YouHaveAfterLead(a, noun, rest);
    YouHaveAfterLead(b, noun, rest);
    NumberPrefixInjective(a, b, " " + noun + Plural(a) + rest, " " + noun + Plural(b) + rest);
  }

  /** What follows "You have " in the sentence: the count, then a space. */
  lemma YouHaveAfterLead(n: nat, noun: string, rest: string)
    ensures |YouHave(n, noun, rest)| >= 9
    ensures YouHave(n, noun, rest)[9..] == NatToString(n) + (" " + noun + Plural(n) + rest)
  {
    var p := "You have ";
    var x := NatToString(n) + (" " + noun + Plural(n) + rest);
    assert YouHave(n, noun, rest) == p + x;
    assert (p + x)[|p|..] == x;
  }

  /** The overdue sentence: a fixed text for none, "task" for one and "tasks" for more. */
  lemma OverdueInsightText(n: nat)
    ensures OverdueInsight(0) == "Great job! You have no overdue tasks."
    ensures OverdueInsight(1) == "You have 1 " + OverdueNoun + OverdueAdvice
    ensures n >= 2 ==> OverdueInsight(n) == "You have " + NatToString(n) + " " + OverdueNoun + "s" + OverdueAdvice
  {
    assert NatToString(1) == "1";
  }

  /** Different overdue counts give different sentences. */
  lemma OverdueInsightInjective(a: nat, b: nat)
    requires OverdueInsight(a) == OverdueInsight(b)
    ensures a == b
  {
    if a > 0 && b > 0 {
      YouHaveInjective(a, b, OverdueNoun, OverdueAdvice);
    }
  }

  /** The high-priority sentence: a fixed text for none, "task" for one and "tasks" for more. */
  lemma PriorityInsightText(n: nat)
    ensures PriorityInsight(0) == "No high-priority tasks pending. Keep up the good work!"
    ensures PriorityInsight(1) == "You have 1 " + PriorityNoun + PriorityAdvice
    ensures n >= 2 ==> PriorityInsight(n) == "You have " + NatToString(n) + " " + PriorityNoun + "s" + PriorityAdvice
  {
    assert NatToString(1) == "1";
  }

  /** Different high-priority counts give different sentences. */
  lemma PriorityInsightInjective(a: nat, b: nat)
    requires PriorityInsight(a) == PriorityInsight(b)
    ensures a == b
  {
    if a > 0 && b > 0 {
      YouHaveInjective(a, b, PriorityNoun, PriorityAdvice);
    }
  }

  /** 1 January 1970 was a Thursday. */
  lemma EpochWeekday()
    ensures WeekdayName(Date(1970, 1, 1)) == "Thursday"
  {
    EpochIndex();
  }

  lemma EpochIndex()
    ensures WeekdayIndex(Date(1970, 1, 1)) == 4
  {
    EpochIsDayZero();
  }

  /** Each next day of a month is the next weekday. */
  lemma WeekdayNext(d: Date)
    ensures WeekdayIndex(d.(day := d.day + 1)) == (WeekdayIndex(d) + 1) % 7
  {
    NextDayInMonth(d);
    WeekdayStep(DayNumber(d), DayNumber(d.(day := d.day + 1)));
  }

  /** The weekday of the next day number is the next weekday. */
  lemma WeekdayStep(a: int, b: int)
    requires b == a + 1
    ensures (b + 4) % 7 == ((a + 4) % 7 + 1) % 7
  {
  }
}
