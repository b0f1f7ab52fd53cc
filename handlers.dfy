/**
  The study profile the client keeps in React state, and what each handler
  of the layout component makes of it, as functions from the old profile to
  the new one. `Layout.StudyProfile` runs the same handlers step by step on
  fields and is proved to end in the state these functions describe.
*/
module Handlers {
  import opened Text
  import opened Dates
  import opened Tasks
  import opened StudyLog

  datatype StudyStats = StudyStats(
    totalHours: nat,
    completedTasks: nat,
    streak: nat,
    lastActiveDate: Option<Date>,
    lastStreakUpdate: Option<Date>,
    studyHoursLog: seq<LogEntry>)

  datatype Profile = Profile(
    tasks: seq<Task>,
    stats: StudyStats,
    points: int,
    badges: seq<string>,
    currentTheme: string,
    unlockedThemes: seq<string>)

  const LightMode := "Light Mode"
  const PriorityMaster := "Priority Master"
  const TaskTitan := "Task Titan"
  const EarlyBird := "Early Bird"
  const StreakStar := "Streak Star"

  /** The state before anything is loaded. */
  const InitialStats := StudyStats(0, 0, 0, None, None, [])
  const Initial := Profile([], InitialStats, 0, [], LightMode, [LightMode])

  predicate NoDuplicates(s: seq<string>)
  {
    forall i, j :: 0 <= i < j < |s| ==> s[i] != s[j]
  }

  /** What the handlers keep true: one log entry per date, no badge or unlocked theme twice. */
  predicate Consistent(p: Profile)
  {
    UniqueDates(p.stats.studyHoursLog) && NoDuplicates(p.badges) && NoDuplicates(p.unlockedThemes)
  }

  // ---------------------------------------------------------------------
  // Streak

  /** Whole days from `from` to `to`. */
  function DayGap(from: Date, to: Date): int
  {
    DayNumber(to) - DayNumber(from)
  }

  /**
    `updateStreak(today)`. First check: when the last active day is not
    today, a gap of one day extends the streak, a longer gap or no earlier
    activity restarts it at 1. Second check: a last streak update more than
    one day ago restarts it at 1. The last active day always becomes today.
    The source compares the DD-MM-YYYY renderings; rendering is injective
    (`RenderDmyInjective`), so the dates are compared here.
  */
  function UpdateStreak(st: StudyStats, today: Date): StudyStats
  {
    var first: (nat, Option<Date>) :=
      match st.lastActiveDate
      case None => (1, Some(today))
      case Some(last) =>
        if last == today then (st.streak, st.lastStreakUpdate)
        else if DayGap(last, today) == 1 then (st.streak + 1, Some(today))
        else if DayGap(last, today) > 1 then (1, Some(today))
        else (st.streak, st.lastStreakUpdate);
    var second: (nat, Option<Date>) :=
      match st.lastStreakUpdate
      case Some(upd) =>
        if upd != today && DayGap(upd, today) > 1 then (1, Some(today)) else first
      case None => first;
    st.(streak := second.0, lastActiveDate := Some(today), lastStreakUpdate := second.1)
  }

  /**
    The streak reconciliation when the profile is loaded: nothing happens if
    the streak was already updated today; otherwise a first visit records
    today, a one-day gap extends the streak, a longer gap resets it to 0, and
    anything else only records today as the last streak update.
  */
  function Reconcile(st: StudyStats, today: Date): StudyStats
  {
    if st.lastStreakUpdate == Some(today) then st
    else match st.lastActiveDate
      case None => st.(lastActiveDate := Some(today), lastStreakUpdate := Some(today))
      case Some(last) =>
        if DayGap(last, today) == 1 then
          st.(streak := st.streak + 1, lastActiveDate := Some(today), lastStreakUpdate := Some(today))
        else if DayGap(last, today) > 1 then
          st.(streak := 0, lastActiveDate := Some(today), lastStreakUpdate := Some(today))
        else st.(lastStreakUpdate := Some(today))
  }

  // ---------------------------------------------------------------------
  // Study hours

  /**
    `logStudyHours(hours)`, with the parsed amount in hundredths (None for
    NaN): a non-positive amount changes nothing; otherwise the amount goes to
    today's log entry and the total, and the streak is updated for today.
  */
  function LogStudyHours(st: StudyStats, today: Date, amount: Option<int>): StudyStats
  {
    if amount.None? || amount.value <= 0 then st
    else
      var h := amount.value as nat;
      var logged := st.(totalHours := st.totalHours + h,
                        studyHoursLog := AddHours(st.studyHoursLog, RenderDmy(today), h));
      UpdateStreak(logged, today)
  }

  /**
    `deductStudyHours(hours, completedDate)`: a non-positive amount changes
    nothing; otherwise the log entry for the date drops by the amount and
    the total drops by it, both clamped at 0.
  */
  function DeductStudyHours(st: StudyStats, date: string, amount: Option<int>): StudyStats
  {
    if amount.None? || amount.value <= 0 then st
    else
      var h := amount.value as nat;
      st.(totalHours := Clamped(st.totalHours, h),
          studyHoursLog := DeductHours(st.studyHoursLog, date, h))
  }

  // ---------------------------------------------------------------------
  // Tasks

  /** What the add form passes on. */
  datatype NewTask = NewTask(title: string, dueDate: string, priority: string, completed: bool, hours: nat)

  /** A YYYY-MM-DD date from the date input turned into DD-MM-YYYY; other strings are kept. */
  function FormatDueDate(d: string): string
  {
    var parts := Split(d, '-');
    if d != "" && '-' in d && |parts[0]| == 4 then Part(parts, 2) + "-" + Part(parts, 1) + "-" + Part(parts, 0)
    else d
  }

  /** `addTask(newTask)`, with `now` for `Date.now()`. */
  function AddTask(p: Profile, nt: NewTask, now: int): Profile
  {
    var t := Task(now, nt.title, FormatDueDate(nt.dueDate), nt.priority, nt.completed, None, false, nt.hours, false);
    p.(tasks := p.tasks + [t])
  }

  /** The test `task => task.id !== id`. */
  function OtherId(id: int): Task -> bool
  {
    (t: Task) => t.id != id
  }

  /** The tasks without any task carrying `id`. */
  function WithoutId(ts: seq<Task>, id: int): seq<Task>
  {
    Filter(ts, OtherId(id))
  }

  /**
    `deleteTask(id)`: no task with the id changes nothing; a completed one
    first gives back its logged hours and its awarded points; then every task
    with the id is removed.
  */
  function DeleteTask(p: Profile, id: int): Profile
  {
    match FirstWithId(p.tasks, id)
    case None => p
    case Some(i) =>
      var t := p.tasks[i];
      var st := if t.completed && t.hours > 0 && Present(t.completedDate)
                then DeductStudyHours(p.stats, t.completedDate.value, Some(t.hours)) else p.stats;
      var pts := if t.completed && t.pointsAwarded then p.points - PriorityPoints(t.priority) else p.points;
      p.(tasks := WithoutId(p.tasks, id), stats := st, points := pts)
  }

  /** The `tasks.map` of `updateTask`: every task with the id of `u` becomes `u`. */
  function ReplaceById(ts: seq<Task>, u: Task): seq<Task>
  {
    seq(|ts|, k requires 0 <= k < |ts| => if ts[k].id == u.id then u else ts[k])
  }

  /** `updateTask(task)`. */
  function UpdateTask(p: Profile, u: Task): Profile
  {
    p.(tasks := ReplaceById(p.tasks, u))
  }

  /** The `tasks.map` of `toggleTaskComplete`: flip every task with the id, dating a completion today. */
  function FlipAll(ts: seq<Task>, id: int, today: string): (r: seq<Task>)
    ensures |r| == |ts|
    ensures forall k :: 0 <= k < |ts| ==> r[k].id == ts[k].id
  {
    seq(|ts|, k requires 0 <= k < |ts| =>
      if ts[k].id == id
      then ts[k].(completed := !ts[k].completed, completedDate := if !ts[k].completed then Some(today) else None)
      else ts[k])
  }

  /** Add `name` to `badges` when it is earned and was not already held before the handler ran. */
  function AwardIf(badges: seq<string>, held: seq<string>, earned: bool, name: string): seq<string>
  {
    if earned && name !in held then badges + [name] else badges
  }

  /** The badges a completion awards, checked against the badges held before it. */
  function AwardBadges(held: seq<string>, ts: seq<Task>): seq<string>
  {
    var b1 := AwardIf(held, held, Count(ts, IsCompletedHigh) >= 5, PriorityMaster);
    var b2 := AwardIf(b1, held, Count(ts, IsCompleted) >= 10, TaskTitan);
    AwardIf(b2, held, Count(ts, IsEarly) >= 3, EarlyBird)
  }

  /**
    `toggleTaskComplete(id)`. Completing: points for the priority unless the
    first task with the id was already awarded, its hours logged for today,
    badges checked, and the streak updated. Un-completing: the points taken
    back if they were awarded and the hours deducted at the old completion
    date. Only the first task with the id has its `pointsAwarded` flag
    changed, as only that one is mutated in the source.
  */
  function ToggleTask(p: Profile, id: int, today: Date): Profile
  {
    match FirstWithId(p.tasks, id)
    case None => p
    case Some(i) =>
      if !p.tasks[i].completed then CompleteAt(p, id, i, today) else UncompleteAt(p, id, i, today)
  }

  /** The completing branch of the toggle, for the first task `i` with the id. */
  function CompleteAt(p: Profile, id: int, i: nat, today: Date): Profile
    requires i < |p.tasks|
  {
    var task := p.tasks[i];
    var flipped := FlipAll(p.tasks, id, RenderDmy(today));
    var award := !flipped[i].pointsAwarded;
    var done := if award then flipped[i := flipped[i].(pointsAwarded := true)] else flipped;
    var logged := if task.hours > 0 then LogStudyHours(p.stats, today, Some(task.hours)) else p.stats;
    p.(tasks := done,
       points := if award then p.points + PriorityPoints(task.priority) else p.points,
       badges := AwardBadges(p.badges, done),
       stats := UpdateStreak(logged, today))
  }

  /** The un-completing branch of the toggle. */
  function UncompleteAt(p: Profile, id: int, i: nat, today: Date): Profile
    requires i < |p.tasks|
  {
    var task := p.tasks[i];
    var flipped := FlipAll(p.tasks, id, RenderDmy(today));
    var revoke := flipped[i].pointsAwarded;
    p.(tasks := if revoke then flipped[i := flipped[i].(pointsAwarded := false)] else flipped,
       points := if revoke then p.points - PriorityPoints(task.priority) else p.points,
       stats := if task.hours > 0 && Present(task.completedDate)
                then DeductStudyHours(p.stats, task.completedDate.value, Some(task.hours)) else p.stats)
  }

  /** The Streak Star effect: a streak of 7 or more awards the badge and 50 points, once. */
  function AwardStreakStar(p: Profile): Profile
  {
    if p.stats.streak >= 7 && StreakStar !in p.badges
    then p.(badges := p.badges + [StreakStar], points := p.points + 50)
    else p
  }

  /** The `completedTasks` resync effect. */
  function SyncCompleted(p: Profile): Profile
  {
    p.(stats := p.stats.(completedTasks := Count(p.tasks, IsCompleted)))
  }

  // ---------------------------------------------------------------------
  // Themes

  /** `indexOf`, with -1 when absent. */
  function IndexOf(s: seq<string>, x: string): (r: int)
    ensures -1 <= r < |s|
    ensures r == -1 <==> x !in s
    ensures r >= 0 ==> s[r] == x && forall j :: 0 <= j < r ==> s[j] != x
  {
    if s == [] then -1
    else if s[0] == x then 0
    else var k := IndexOf(s[1..], x); if k == -1 then -1 else k + 1
  }

  /**
    `getNextTheme()`: Light Mode when one theme is unlocked, otherwise the
    theme after the current one in the unlocked list, wrapping round (the
    first one when the current theme is not in the list). None stands for
    the `undefined` an empty list gives.
  */
  function NextTheme(unlocked: seq<string>, current: string): Option<string>
  {
    if |unlocked| == 1 then Some(LightMode)
    else if unlocked == [] then None
    else Some(unlocked[(IndexOf(unlocked, current) + 1) % |unlocked|])
  }

  /** `handleThemeChange()`: switch to the next theme (kept when there is none). */
  function ChangeTheme(p: Profile): Profile
  {
    match NextTheme(p.unlockedThemes, p.currentTheme)
    case None => p
    case Some(t) => p.(currentTheme := t)
  }

  /** `handleThemeUnlock(name)`: append the theme unless it is already unlocked. */
  function UnlockTheme(unlocked: seq<string>, name: string): seq<string>
  {
    if name in unlocked then unlocked else unlocked + [name]
  }

  // =====================================================================
  // Properties

  // --- Streak -----------------------------------------------------------

  /** The last active day always becomes today, and nothing outside the streak fields changes. */
  lemma UpdateStreakFrame(st: StudyStats, today: Date)
    ensures var r := UpdateStreak(st, today);
      r.lastActiveDate == Some(today) && r.totalHours == st.totalHours &&
      r.completedTasks == st.completedTasks && r.studyHoursLog == st.studyHoursLog
  {
  }

  /** Active yesterday: the streak grows by one (unless the last streak update is older than a day). */
  lemma UpdateStreakYesterday(st: StudyStats, today: Date)
    requires st.lastActiveDate.Some? && DayGap(st.lastActiveDate.value, today) == 1
    requires st.lastStreakUpdate.None? || DayGap(st.lastStreakUpdate.value, today) <= 1
    ensures UpdateStreak(st, today).streak == st.streak + 1
    ensures UpdateStreak(st, today).lastStreakUpdate == Some(today)
  {
  }

  /** No earlier activity, or a gap of more than a day: the streak restarts at 1. */
  lemma UpdateStreakRestart(st: StudyStats, today: Date)
    requires st.lastActiveDate.None? || DayGap(st.lastActiveDate.value, today) > 1
    ensures UpdateStreak(st, today).streak == 1
    ensures UpdateStreak(st, today).lastStreakUpdate == Some(today)
  {
  }

  /** A last streak update more than a day old forces the streak to 1. */
  lemma UpdateStreakStale(st: StudyStats, today: Date)
    requires st.lastStreakUpdate.Some? && DayGap(st.lastStreakUpdate.value, today) > 1
    ensures UpdateStreak(st, today).streak == 1
  {
  }

  /** A second update with the same day changes nothing. */
  lemma UpdateStreakIdempotent(st: StudyStats, today: Date)
    ensures UpdateStreak(UpdateStreak(st, today), today) == UpdateStreak(st, today)
  {
    var r := UpdateStreak(st, today);
    assert r.lastActiveDate == Some(today);
    if r.lastStreakUpdate.Some? && r.lastStreakUpdate.value != today {
      var u := r.lastStreakUpdate.value;
      assert st.lastStreakUpdate == Some(u);
      assert DayGap(u, today) <= 1;
    }
  }

  /** The streak either stays, grows by one, or is 1 after an update. */
  lemma UpdateStreakRange(st: StudyStats, today: Date)
    ensures var s := UpdateStreak(st, today).streak; s == st.streak || s == st.streak + 1 || s == 1
  {
  }

  /** At load, a gap of more than a day resets the streak to 0 and records today. */
  lemma ReconcileGap(st: StudyStats, today: Date)
    requires st.lastStreakUpdate != Some(today)
    requires st.lastActiveDate.Some? && DayGap(st.lastActiveDate.value, today) > 1
    ensures Reconcile(st, today).streak == 0
    ensures Reconcile(st, today).lastActiveDate == Some(today)
    ensures Reconcile(st, today).lastStreakUpdate == Some(today)
  {
  }

  /** Loading twice on one day is loading once. */
  lemma ReconcileIdempotent(st: StudyStats, today: Date)
    ensures Reconcile(Reconcile(st, today), today) == Reconcile(st, today)
  {
  }

  /**
    After a load that found a gap, completing a task the same day leaves the
    streak at 0: the update sees today as both the last active day and the
    last streak update.
  */
  lemma ReturnAfterGapKeepsZero(st: StudyStats, today: Date)
    requires st.lastStreakUpdate != Some(today)
    requires st.lastActiveDate.Some? && DayGap(st.lastActiveDate.value, today) > 1
    ensures UpdateStreak(Reconcile(st, today), today).streak == 0
  {
  }

  // --- Study hours ------------------------------------------------------

  /** NaN and non-positive amounts are refused with no change. */
  lemma LogStudyHoursRejects(st: StudyStats, today: Date, amount: Option<int>)
    requires amount.None? || amount.value <= 0
    ensures LogStudyHours(st, today, amount) == st
  {
  }

  /**
    An accepted amount is added to the total and to today's entry (or a new
    entry), other entries are untouched, dates stay unique and the log total
    grows by the same amount.
  */
  lemma LogStudyHoursAdds(st: StudyStats, today: Date, h: nat)
    requires h > 0 && UniqueDates(st.studyHoursLog)
    ensures var r := LogStudyHours(st, today, Some(h));
      r.totalHours == st.totalHours + h &&
      r.studyHoursLog == AddHours(st.studyHoursLog, RenderDmy(today), h) &&
      UniqueDates(r.studyHoursLog) &&
      TotalHours(r.studyHoursLog) == TotalHours(st.studyHoursLog) + h &&
      r.lastActiveDate == Some(today)
  {
    AddHoursUnique(st.studyHoursLog, RenderDmy(today), h);
    AddHoursTotal(st.studyHoursLog, RenderDmy(today), h);
  }

  /**
    A deduction lowers the total by the amount, clamped at 0, even when the
    date has no entry, and never touches the streak fields.
  */
  lemma DeductStudyHoursTotal(st: StudyStats, date: string, h: nat)
    requires h > 0
    ensures var r := DeductStudyHours(st, date, Some(h));
      r.totalHours == (if st.totalHours >= h then st.totalHours - h else 0) &&
      r.streak == st.streak && r.lastActiveDate == st.lastActiveDate &&
      r.lastStreakUpdate == st.lastStreakUpdate
    ensures !HasDate(st.studyHoursLog, date) ==> DeductStudyHours(st, date, Some(h)).studyHoursLog == st.studyHoursLog
  {
  }

  /** Non-positive or NaN deductions are ignored. */
  lemma DeductStudyHoursRejects(st: StudyStats, date: string, amount: Option<int>)
    requires amount.None? || amount.value <= 0
    ensures DeductStudyHours(st, date, amount) == st
  {
  }

  // --- Tasks ------------------------------------------------------------

  /** Two task lists with the same ids at the same places find the same first task for an id. */
  lemma {:induction false} FirstWithIdSameIds(a: seq<Task>, b: seq<Task>, id: int)
    requires |a| == |b| && forall k :: 0 <= k < |a| ==> a[k].id == b[k].id
    ensures FirstWithId(a, id) == FirstWithId(b, id)
    decreases |a|
  {
    if a != [] && a[0].id != id {
      FirstWithIdSameIds(a[1..], b[1..], id);
    }
  }

  /** Toggling, deleting or updating an id no task carries changes nothing. */
  lemma UnknownIdNoChange(p: Profile, id: int, today: Date)
    requires !HasId(p.tasks, id)
    ensures ToggleTask(p, id, today) == p
    ensures DeleteTask(p, id) == p
  {
  }

  /**
    Completing an incomplete task marks it completed today and awarded, and
    adds its priority points unless it was already awarded; tasks with other
    ids are untouched.
  */
  lemma ToggleCompletes(p: Profile, id: int, today: Date, i: nat)
    requires FirstWithId(p.tasks, id) == Some(i) && !p.tasks[i].completed
    ensures var r := ToggleTask(p, id, today);
      |r.tasks| == |p.tasks| &&
      r.tasks[i].completed && r.tasks[i].completedDate == Some(RenderDmy(today)) && r.tasks[i].pointsAwarded &&
      r.points == p.points + (if p.tasks[i].pointsAwarded then 0 else PriorityPoints(p.tasks[i].priority)) &&
      forall k :: 0 <= k < |p.tasks| && p.tasks[k].id != id ==> r.tasks[k] == p.tasks[k]
  {
  }

  /**
    Un-completing a task clears its completion date and its flag, takes back
    its points only if they were awarded, deducts its hours at the old
    completion date and leaves the badges alone.
  */
  lemma ToggleUncompletes(p: Profile, id: int, today: Date, i: nat)
    requires FirstWithId(p.tasks, id) == Some(i) && p.tasks[i].completed
    ensures var r := ToggleTask(p, id, today); var t := p.tasks[i];
      |r.tasks| == |p.tasks| &&
      !r.tasks[i].completed && r.tasks[i].completedDate.None? && !r.tasks[i].pointsAwarded &&
      r.points == p.points - (if t.pointsAwarded then PriorityPoints(t.priority) else 0) &&
      r.stats == (if t.hours > 0 && Present(t.completedDate)
                  then DeductStudyHours(p.stats, t.completedDate.value, Some(t.hours)) else p.stats) &&
      r.badges == p.badges &&
      forall k :: 0 <= k < |p.tasks| && p.tasks[k].id != id ==> r.tasks[k] == p.tasks[k]
  {
  }

  lemma RenderDmyNonEmpty(d: Date)
    ensures RenderDmy(d) != ""
  {
    assert |RenderDmy(d)| >= 2;
  }

  /** A toggle changes the tasks, the stats, the points and the badges only. */
  lemma ToggleFrame(p: Profile, id: int, today: Date)
    ensures var r := ToggleTask(p, id, today);
      r == p.(tasks := r.tasks, stats := r.stats, points := r.points, badges := r.badges)
  {
  }

  /** The three parts of a toggle of the task at `i`, one by one. */
  lemma ToggleParts(p: Profile, id: int, today: Date, i: nat)
    requires FirstWithId(p.tasks, id) == Some(i)
    ensures var r := ToggleTask(p, id, today); var t := p.tasks[i];
      var f := FlipAll(p.tasks, id, RenderDmy(today));
      r.tasks == (if t.completed == t.pointsAwarded then f[i := f[i].(pointsAwarded := !t.completed)] else f) &&
      r.points == (if t.completed == t.pointsAwarded
                   then (if t.completed then p.points - PriorityPoints(t.priority) else p.points + PriorityPoints(t.priority))
                   else p.points)
  {
  }

  lemma ToggleStats(p: Profile, id: int, today: Date, i: nat)
    requires FirstWithId(p.tasks, id) == Some(i)
    ensures var r := ToggleTask(p, id, today); var t := p.tasks[i];
      r.stats == (if !t.completed
                  then UpdateStreak(if t.hours > 0 then LogStudyHours(p.stats, today, Some(t.hours)) else p.stats, today)
                  else if t.hours > 0 && Present(t.completedDate)
                  then DeductStudyHours(p.stats, t.completedDate.value, Some(t.hours))
                  else p.stats)
  {
  }

  /** Flipping twice, awarding on the way and withdrawing on the way back, gives the list back. */
  lemma FlipTwice(ts: seq<Task>, id: int, d: string, i: nat)
    requires i < |ts| && ts[i].id == id && !ts[i].pointsAwarded
    requires forall k :: 0 <= k < |ts| && ts[k].id == id ==> !ts[k].completed && ts[k].completedDate.None?
    ensures var f := FlipAll(ts, id, d); var r := f[i := f[i].(pointsAwarded := true)];
      var g := FlipAll(r, id, d);
      g[i := g[i].(pointsAwarded := false)] == ts
  {
    var f := FlipAll(ts, id, d);
    var r := f[i := f[i].(pointsAwarded := true)];
    var g := FlipAll(r, id, d);
    var q := g[i := g[i].(pointsAwarded := false)];
    forall k | 0 <= k < |ts| ensures q[k] == ts[k] {
      if ts[k].id == id {
        assert r[k].completed && r[k].completedDate == Some(d);
      }
    }
  }

  /** The task list half of the round trip. */
  lemma RoundTripTasks(p: Profile, id: int, today: Date, i: nat)
    requires FirstWithId(p.tasks, id) == Some(i) && !p.tasks[i].pointsAwarded
    requires forall k :: 0 <= k < |p.tasks| && p.tasks[k].id == id ==>
      !p.tasks[k].completed && p.tasks[k].completedDate.None?
    ensures var r := ToggleTask(p, id, today);
      FirstWithId(r.tasks, id) == Some(i) && r.tasks[i].completed && r.tasks[i].pointsAwarded &&
      r.tasks[i].completedDate == Some(RenderDmy(today)) && r.tasks[i].hours == p.tasks[i].hours
    ensures var q := ToggleTask(ToggleTask(p, id, today), id, today);
      q.tasks == p.tasks && q.points == p.points
  {
    var d := RenderDmy(today);
    var r := ToggleTask(p, id, today);
    ToggleParts(p, id, today, i);
    FirstWithIdSameIds(p.tasks, r.tasks, id);
    ToggleParts(r, id, today, i);
    FlipTwice(p.tasks, id, d, i);
  }

  /** The hours half of the round trip: deducting at today's date what completing logged today. */
  lemma RoundTripStats(st: StudyStats, today: Date, h: nat)
    requires UniqueDates(st.studyHoursLog) && AllPositive(st.studyHoursLog)
    ensures var done := UpdateStreak(if h > 0 then LogStudyHours(st, today, Some(h)) else st, today);
      var undone := if h > 0 then DeductStudyHours(done, RenderDmy(today), Some(h)) else done;
      undone.totalHours == st.totalHours && undone.studyHoursLog == st.studyHoursLog
  {
    var d := RenderDmy(today);
    if h > 0 {
      var logged := st.(totalHours := st.totalHours + h, studyHoursLog := AddHours(st.studyHoursLog, d, h));
      assert LogStudyHours(st, today, Some(h)) == UpdateStreak(logged, today);
      UpdateStreakIdempotent(logged, today);
      UpdateStreakFrame(logged, today);
      DeductAfterAdd(st.studyHoursLog, d, h);
    } else {
      UpdateStreakFrame(st, today);
    }
  }

  /**
    Completing and then un-completing a task on the same day restores the
    points, the total hours, the hours log and the task list, for a task not
    yet awarded whose id marks only incomplete, undated tasks, and a log with
    unique dates and positive entries.
  */
  lemma ToggleRoundTrip(p: Profile, id: int, today: Date, i: nat)
    requires FirstWithId(p.tasks, id) == Some(i) && !p.tasks[i].pointsAwarded
    requires forall k :: 0 <= k < |p.tasks| && p.tasks[k].id == id ==>
      !p.tasks[k].completed && p.tasks[k].completedDate.None?
    requires UniqueDates(p.stats.studyHoursLog) && AllPositive(p.stats.studyHoursLog)
    ensures var q := ToggleTask(ToggleTask(p, id, today), id, today);
      q.points == p.points && q.stats.totalHours == p.stats.totalHours &&
      q.stats.studyHoursLog == p.stats.studyHoursLog && q.tasks == p.tasks
  {
    var r := ToggleTask(p, id, today);
    var t := p.tasks[i];
    RoundTripTasks(p, id, today, i);
    ToggleStats(p, id, today, i);
    ToggleStats(r, id, today, i);
    RenderDmyNonEmpty(today);
    RoundTripStats(p.stats, today, t.hours);
  }

  /** The award rule of each of the three task badges: held before, or its threshold reached. */
  lemma AwardBadgesRule(held: seq<string>, ts: seq<Task>)
    ensures var b := AwardBadges(held, ts);
      (PriorityMaster in b <==> PriorityMaster in held || Count(ts, IsCompletedHigh) >= 5) &&
      (TaskTitan in b <==> TaskTitan in held || Count(ts, IsCompleted) >= 10) &&
      (EarlyBird in b <==> EarlyBird in held || Count(ts, IsEarly) >= 3) &&
      forall x :: x in b && x != PriorityMaster && x != TaskTitan && x != EarlyBird ==> x in held
  {
  }

  /** Setting the award flag of one task does not change which badges are awarded. */
  lemma AwardIgnoresFlag(held: seq<string>, ts: seq<Task>, i: nat, b: bool)
    requires i < |ts|
    ensures AwardBadges(held, ts[i := ts[i].(pointsAwarded := b)]) == AwardBadges(held, ts)
  {
    var us := ts[i := ts[i].(pointsAwarded := b)];
    CountSameTests(us, ts, IsCompletedHigh);
    CountSameTests(us, ts, IsCompleted);
    CountSameTests(us, ts, IsEarly);
  }

  /** Awarding only appends, and never appends a badge already held. */
  lemma AwardBadgesGrow(held: seq<string>, ts: seq<Task>)
    requires NoDuplicates(held)
    ensures var b := AwardBadges(held, ts); |held| <= |b| && b[..|held|] == held && NoDuplicates(b)
  {
  }

  /**
    The badges after a toggle: on completion those awarded for the flipped
    list (the award flag set on the way makes no difference), otherwise the
    old ones.
  */
  lemma ToggleBadges(p: Profile, id: int, today: Date, i: nat)
    requires FirstWithId(p.tasks, id) == Some(i)
    ensures ToggleTask(p, id, today).badges ==
      if !p.tasks[i].completed then AwardBadges(p.badges, FlipAll(p.tasks, id, RenderDmy(today))) else p.badges
  {
    if !p.tasks[i].completed {
      var f := FlipAll(p.tasks, id, RenderDmy(today));
      AwardIgnoresFlag(p.badges, f, i, true);
    }
  }

  /** Completing or un-completing a task only ever adds badges, without duplicates. */
  lemma ToggleBadgesGrow(p: Profile, id: int, today: Date)
    requires NoDuplicates(p.badges)
    ensures var b := ToggleTask(p, id, today).badges;
      |p.badges| <= |b| && b[..|p.badges|] == p.badges && NoDuplicates(b)
  {
    match FirstWithId(p.tasks, id)
    case None =>
    case Some(i) =>
      ToggleBadges(p, id, today, i);
      AwardBadgesGrow(p.badges, FlipAll(p.tasks, id, RenderDmy(today)));
  }

  /** The Streak Star is awarded exactly when the streak reaches 7, with 50 points, and only once. */
  lemma StreakStarOnce(p: Profile)
    requires NoDuplicates(p.badges)
    ensures var r := AwardStreakStar(p);
      (StreakStar in r.badges <==> StreakStar in p.badges || p.stats.streak >= 7) &&
      r.points == p.points + (if p.stats.streak >= 7 && StreakStar !in p.badges then 50 else 0) &&
      |p.badges| <= |r.badges| && r.badges[..|p.badges|] == p.badges && NoDuplicates(r.badges) &&
      AwardStreakStar(r) == r
  {
  }

  /**
    Deleting a task: the hours of a completed one are deducted at its
    completion date and its awarded points taken back; every task with the
    id goes and exactly the others remain.
  */
  lemma DeleteTaskEffect(p: Profile, id: int, i: nat)
    requires FirstWithId(p.tasks, id) == Some(i)
    ensures var r := DeleteTask(p, id); var t := p.tasks[i];
      r.points == p.points - (if t.completed && t.pointsAwarded then PriorityPoints(t.priority) else 0) &&
      r.stats == (if t.completed && t.hours > 0 && Present(t.completedDate)
                  then DeductStudyHours(p.stats, t.completedDate.value, Some(t.hours)) else p.stats) &&
      r.badges == p.badges
    ensures forall x :: x in DeleteTask(p, id).tasks <==> x in p.tasks && x.id != id
  {
    assert DeleteTask(p, id).tasks == Filter(p.tasks, OtherId(id));
    forall x ensures x in Filter(p.tasks, OtherId(id)) <==> x in p.tasks && x.id != id {
      FilterMembers(p.tasks, OtherId(id), x);
    }
  }

  /** When one task only carries the id, removing it leaves the others in their order. */
  lemma WithoutSingleId(ts: seq<Task>, id: int, i: nat)
    requires i < |ts| && ts[i].id == id
    requires forall k :: 0 <= k < |ts| && k != i ==> ts[k].id != id
    ensures WithoutId(ts, id) == ts[..i] + ts[i + 1..]
  {
    var f := OtherId(id);
    var a := ts[..i];
    var b := ts[i + 1..];
    assert ts == (a + [ts[i]]) + b;
    FilterConcat(a + [ts[i]], b, f);
    FilterConcat(a, [ts[i]], f);
    assert Filter([ts[i]], f) == [] by {
      assert [ts[i]][..0] == [];
    }
    FilterKeepsAll(a, f);
    FilterKeepsAll(b, f);
  }

  lemma DeleteSingleTask(p: Profile, id: int, i: nat)
    requires i < |p.tasks| && p.tasks[i].id == id
    requires forall k :: 0 <= k < |p.tasks| && k != i ==> p.tasks[k].id != id
    ensures DeleteTask(p, id).tasks == p.tasks[..i] + p.tasks[i + 1..]
  {
    assert FirstWithId(p.tasks, id).Some?;
    WithoutSingleId(p.tasks, id, i);
  }

  /** Updating replaces exactly the tasks with the updated task's id. */
  lemma UpdateTaskEffect(p: Profile, u: Task)
    ensures var r := UpdateTask(p, u);
      |r.tasks| == |p.tasks| &&
      forall k :: 0 <= k < |p.tasks| ==> r.tasks[k] == (if p.tasks[k].id == u.id then u else p.tasks[k])
    ensures !HasId(p.tasks, u.id) ==> UpdateTask(p, u) == p
  {
    if !HasId(p.tasks, u.id) {
      assert UpdateTask(p, u).tasks == p.tasks;
    }
  }

  /**
    A date from the date input (four-digit year first) is stored as
    DD-MM-YYYY; a DD-MM-YYYY date is stored as it is.
  */
  lemma FormatDueDateIso(y: string, m: string, d: string)
    requires |y| == 4 && '-' !in y && '-' !in m && '-' !in d
    ensures FormatDueDate(y + "-" + m + "-" + d) == d + "-" + m + "-" + y
  {
    SplitThree(y, m, d, '-');
    assert (y + "-" + m + "-" + d)[4] == '-';
  }

  lemma FormatDueDateDmy(d: string, m: string, y: string)
    requires |d| == 2 && '-' !in d && '-' !in m && '-' !in y
    ensures FormatDueDate(d + "-" + m + "-" + y) == d + "-" + m + "-" + y
  {
    SplitThree(d, m, y, '-');
  }

  /**
    Adding appends one task, with a fresh id, the form's fields, the due date
    in DD-MM-YYYY, no completion date and no points awarded; no other part of
    the profile changes.
  */
  lemma AddTaskEffect(p: Profile, nt: NewTask, now: int)
    ensures var r := AddTask(p, nt, now);
      |r.tasks| == |p.tasks| + 1 && r.tasks[..|p.tasks|] == p.tasks &&
      var t := r.tasks[|p.tasks|];
      t.id == now && t.title == nt.title && t.dueDate == FormatDueDate(nt.dueDate) &&
      t.priority == nt.priority && t.completed == nt.completed && t.completedDate.None? &&
      !t.pointsAwarded && t.hours == nt.hours && !t.deleted &&
      r.(tasks := p.tasks) == p
  {
  }

  /** An ISO due date from the form is stored in DD-MM-YYYY. */
  lemma AddTaskIsoDue(p: Profile, nt: NewTask, now: int, y: string, m: string, d: string)
    requires nt.dueDate == y + "-" + m + "-" + d
    requires |y| == 4 && '-' !in y && '-' !in m && '-' !in d
    ensures AddTask(p, nt, now).tasks[|p.tasks|].dueDate == d + "-" + m + "-" + y
  {
    FormatDueDateIso(y, m, d);
  }

  /**
    The resync sets the completed count to the number of completed tasks,
    changes no other field, and repeating it changes nothing.
  */
  lemma SyncCompletedEffect(p: Profile)
    ensures SyncCompleted(p).stats.completedTasks == |Filter(p.tasks, IsCompleted)|
    ensures SyncCompleted(p).stats.completedTasks <= |p.tasks|
    ensures SyncCompleted(p).stats.(completedTasks := p.stats.completedTasks) == p.stats
    ensures SyncCompleted(p).(stats := p.stats) == p
    ensures SyncCompleted(SyncCompleted(p)) == SyncCompleted(p)
    ensures SyncCompleted(p).tasks == p.tasks
  {
  }

  // --- Themes -----------------------------------------------------------

  /**
    With two or more themes the next theme is the one after the first
    occurrence of the current one, wrapping round from the last to the first,
    and the first one when the current theme is not unlocked.
  */
  lemma NextThemeCycles(unlocked: seq<string>, current: string)
    requires |unlocked| >= 2
    ensures NextTheme(unlocked, current).Some? && NextTheme(unlocked, current).value in unlocked
    ensures current !in unlocked ==> NextTheme(unlocked, current) == Some(unlocked[0])
    ensures var k := IndexOf(unlocked, current);
      0 <= k < |unlocked| - 1 ==> NextTheme(unlocked, current) == Some(unlocked[k + 1])
    ensures IndexOf(unlocked, current) == |unlocked| - 1 ==> NextTheme(unlocked, current) == Some(unlocked[0])
  {
    var n := |unlocked|;
    var k := IndexOf(unlocked, current);
    WrapNext(k, n);
    var j := (k + 1) % n;
    assert NextTheme(unlocked, current) == Some(unlocked[j]);
    assert unlocked[j] in unlocked;
  }

  lemma WrapNext(k: int, n: int)
    requires -1 <= k < n && n > 0
    ensures (k + 1) % n == if k + 1 == n then 0 else k + 1
  {
    if k + 1 == n {
      assert (k + 1) % n == n % n;
    }
  }

  /** A single unlocked theme always gives Light Mode, whatever it is. */
  lemma NextThemeSingle(unlocked: seq<string>, current: string)
    requires |unlocked| == 1
    ensures NextTheme(unlocked, current) == Some(LightMode)
  {
  }

  /** Unlocking adds the theme at the end once; unlocking it again changes nothing. */
  lemma UnlockThemeEffect(unlocked: seq<string>, name: string)
    ensures name in UnlockTheme(unlocked, name)
    ensures UnlockTheme(UnlockTheme(unlocked, name), name) == UnlockTheme(unlocked, name)
    ensures name in unlocked ==> UnlockTheme(unlocked, name) == unlocked
    ensures NoDuplicates(unlocked) ==> NoDuplicates(UnlockTheme(unlocked, name))
  {
  }

  // --- The handlers keep the profile consistent --------------------------

  lemma LogStudyHoursUnique(st: StudyStats, today: Date, amount: Option<int>)
    requires UniqueDates(st.studyHoursLog)
    ensures UniqueDates(LogStudyHours(st, today, amount).studyHoursLog)
  {
    if amount.Some? && amount.value > 0 {
      LogStudyHoursAdds(st, today, amount.value as nat);
    }
  }

  lemma DeductStudyHoursUnique(st: StudyStats, date: string, amount: Option<int>)
    requires UniqueDates(st.studyHoursLog)
    ensures UniqueDates(DeductStudyHours(st, date, amount).studyHoursLog)
  {
    if amount.Some? && amount.value > 0 {
      DeductHoursUnique(st.studyHoursLog, date, amount.value as nat);
    }
  }

  lemma ToggleConsistent(p: Profile, id: int, today: Date)
    requires Consistent(p)
    ensures Consistent(ToggleTask(p, id, today))
  {
    ToggleBadgesGrow(p, id, today);
    match FirstWithId(p.tasks, id)
    case None =>
    case Some(i) =>
      ToggleStats(p, id, today, i);
      var t := p.tasks[i];
      if !t.completed {
        var logged := if t.hours > 0 then LogStudyHours(p.stats, today, Some(t.hours)) else p.stats;
        LogStudyHoursUnique(p.stats, today, Some(t.hours));
        UpdateStreakFrame(logged, today);
      } else if t.hours > 0 && Present(t.completedDate) {
        DeductStudyHoursUnique(p.stats, t.completedDate.value, Some(t.hours));
      }
  }

  lemma DeleteConsistent(p: Profile, id: int)
    requires Consistent(p)
    ensures Consistent(DeleteTask(p, id))
  {
    match FirstWithId(p.tasks, id)
    case None =>
    case Some(i) =>
      var t := p.tasks[i];
      if t.completed && t.hours > 0 && Present(t.completedDate) {
        DeductStudyHoursUnique(p.stats, t.completedDate.value, Some(t.hours));
      }
  }

  lemma OtherHandlersConsistent(p: Profile, nt: NewTask, now: int, u: Task, name: string)
    requires Consistent(p)
    ensures Consistent(AddTask(p, nt, now)) && Consistent(UpdateTask(p, u))
    ensures Consistent(AwardStreakStar(p)) && Consistent(SyncCompleted(p))
    ensures Consistent(p.(unlockedThemes := UnlockTheme(p.unlockedThemes, name)))
  {
  }
}
