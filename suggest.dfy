/**
  The server's suggestion endpoint: which of its three paths a request takes,
  the canned study tips, the progress template, the local study plan used
  when the text generator fails, the patch pass that repairs the habits
  lines of a generated plan, and the per-request cache.

  The clock, the random draws, the outcome of the text generator and the
  JavaScript date comparison of a due date with today are parameters.
*/
module Suggest {
  import opened Text
  import opened Tasks
  import opened StudyLog

  /** `studyHabits` as the endpoint reads it: the streak (`|| 0`) and the hours log. */
  datatype Habits = Habits(streak: nat, log: seq<LogEntry>)

  /** `studyHabits.studyHoursLog?.find(l => l.date === today)?.hours || 0`. */
  function HoursOn(log: seq<LogEntry>, today: string): (r: nat)
    ensures HasDate(log, today) ==> r == log[FirstWithDate(log, today).value].hours
    ensures !HasDate(log, today) ==> r == 0
  {
    match FirstWithDate(log, today)
    case None => 0
    case Some(i) => log[i].hours
  }

  function Plural(n: nat): string { if n != 1 then "s" else "" }

  // ---------------------------------------------------------------------
  // Modes

  const TipMarker := "Generate a concise study tip"
  const ReportMarker := "Generate a list of 10 short motivational messages"

  datatype Mode = StudyTip | ProgressReport | Planner

  /** The path a request takes, decided by substrings of `customPrompt`; the tip marker wins. */
  function ModeOf(customPrompt: Option<string>): (m: Mode)
    ensures m == StudyTip <==> Present(customPrompt) && Contains(customPrompt.value, TipMarker)
    ensures m == ProgressReport <==>
      Present(customPrompt) && !Contains(customPrompt.value, TipMarker) && Contains(customPrompt.value, ReportMarker)
    ensures !Present(customPrompt) ==> m == Planner
  {
    if Present(customPrompt) && Contains(customPrompt.value, TipMarker) then StudyTip
    else if Present(customPrompt) && Contains(customPrompt.value, ReportMarker) then ProgressReport
    else Planner
  }

  // ---------------------------------------------------------------------
  // Canned texts

  /** The closing sentence every plan must carry; it is also the first motivational message. */
  const Closing := "Your dedication and consistency will lead you to success in CE and IT field. Keep pushing forward and remember that every hour you invest in learning is a step closer to achieving your goals."

  /**
    The ten canned study tips and the ten motivational messages of the
    progress report. Their wording is data the model does not fix; the first
    message is the closing sentence.
  */
  datatype Pools = Pools(tips: seq<string>, messages: seq<string>)

  predicate PoolsValid(p: Pools)
  {
    |p.tips| == 10 && |p.messages| == 10 && p.messages[0] == Closing &&
    (forall i :: 0 <= i < 10 ==> p.tips[i] != "") && (forall i :: 0 <= i < 10 ==> p.messages[i] != "")
  }

  /** `pool[Math.floor(draw * pool.length)]` for a draw of `Math.random()`. */
  function Pick(pool: seq<string>, draw: real): (r: string)
    requires |pool| > 0 && 0.0 <= draw < 1.0
    ensures r in pool
  {
    var k := (draw * (|pool| as real)).Floor;
    assert 0 <= k < |pool| by {
      assert 0.0 <= draw * (|pool| as real) < |pool| as real;
    }
    pool[k]
  }

  // ---------------------------------------------------------------------
  // The progress template

  predicate IsHigh(t: Task) { t.priority == "High" }
  predicate IsMedium(t: Task) { t.priority == "Medium" }
  predicate IsLow(t: Task) { t.priority == "Low" }

  /** The figures of the progress report. */
  datatype Tally = Tally(hours: nat, total: nat, high: nat, medium: nat, low: nat)

  function CompletedToday(tasks: seq<Task>, today: string): seq<Task>
  {
    Filter(tasks, (t: Task) => t.completed && t.completedDate == Some(today))
  }

  function TallyOf(tasks: seq<Task>, habits: Habits, today: string): Tally
  {
    var done := CompletedToday(tasks, today);
    Tally(HoursOn(habits.log, today), |done|, Count(done, IsHigh), Count(done, IsMedium), Count(done, IsLow))
  }

  function ReportText(today: string, f: Tally, message: string): string
  {
    "Here's your progress for today (" + today + "):\n\n- Total Study Hours Today: " +
    HundredthsToString(f.hours) + " hour" + (if f.hours != 100 then "s" else "") +
    "\n- Tasks Completed Today: " + NatToString(f.total) +
    "\n- High Priority Tasks Completed Today: " + NatToString(f.high) +
    "\n- Medium Priority Tasks Completed Today: " + NatToString(f.medium) +
    "\n- Low Priority Tasks Completed Today: " + NatToString(f.low) +
    "\n\n" + message
  }

  // ---------------------------------------------------------------------
  // The local plan

  const HighHeading := "- High Priority:\n"
  const MediumHeading := "- Medium Priority:\n"
  const LowHeading := "- Low Priority:\n"
  const NoneLine := "  - None\n"
  const TipTitle := "- General Study Tip:"
  const TipBlock := TipTitle + "\n  - Practice writing SQL queries on a platform like LeetCode to strengthen your database skills.\n"
  const KeepLine := "  - Keep consistent to build your streak and achieve your goals!"
  const StreakLead := "- Your current streak is "
  const HoursLead := "- Total study hours for today: "

  function StreakLine(n: nat): string { StreakLead + NatToString(n) + " day" + Plural(n) }

  function HoursLine(h: nat): string { HoursLead + HundredthsToString(h) + " hour" }

  /** The two habit lines, each indented and ended by a newline. */
  function HabitLines(h: nat, n: nat): string
  {
    "  " + HoursLine(h) + "\n  " + StreakLine(n) + "\n"
  }

  function HabitsBlock(h: nat, n: nat): string
  {
    "- Habits:\n" + HabitLines(h, n) + KeepLine + "\n" + Closing
  }

  /** One plan line: `  - title (Hours: h, Due: d)`. */
  function TaskLine(t: Task): string
  {
    "  - " + t.title + " (Hours: " + HundredthsToString(t.hours) + ", Due: " + t.dueDate + ")\n"
  }

  function Lines(ts: seq<Task>): string
  {
    if ts == [] then "" else Lines(ts[..|ts| - 1]) + TaskLine(ts[|ts| - 1])
  }

  function Section(heading: string, ts: seq<Task>): string
  {
    heading + (if |ts| > 0 then Lines(ts) else NoneLine)
  }

  /** The plan for an empty task list: three empty headings, the SQL tip and the habits. */
  function EmptyPlan(h: nat, n: nat): string
  {
    HighHeading + NoneLine + MediumHeading + NoneLine + LowHeading + NoneLine + TipBlock + HabitsBlock(h, n)
  }

  /** `generateFallbackSuggestion(tasks, studyHabits, todayStudyHours, todayStr)`. */
  function FallbackPlan(tasks: seq<Task>, streak: nat, h: nat): string
  {
    if |tasks| == 0 then EmptyPlan(h, streak)
    else
      Section(HighHeading, Filter(tasks, IsHigh)) + Section(MediumHeading, Filter(tasks, IsMedium)) +
      Section(LowHeading, Filter(tasks, IsLow)) + HabitsBlock(h, streak)
  }

  /** `suggestion += ...` over a list of tasks (one `forEach`). */
  method AppendLines(prefix: string, ts: seq<Task>) returns (r: string)
    ensures r == prefix + Lines(ts)
  {
    r := prefix;
    for i := 0 to |ts|
      invariant r == prefix + Lines(ts[..i])
    {
      assert ts[..i + 1][..i] == ts[..i];
      AppendAssoc(prefix, Lines(ts[..i]), TaskLine(ts[i]));
      r := r + TaskLine(ts[i]);
    }
    assert ts[..|ts|] == ts;
  }

  lemma AppendAssoc(a: string, b: string, c: string)
    ensures (a + b) + c == a + (b + c)
  {
  }

  /** One priority block: its heading, then a line per task or "  - None". */
  method AppendSection(prefix: string, heading: string, ts: seq<Task>) returns (r: string)
    ensures r == prefix + Section(heading, ts)
  {
    r := prefix + heading;
    if |ts| > 0 {
      r := AppendLines(r, ts);
      AppendAssoc(prefix, heading, Lines(ts));
    } else {
      r := r + NoneLine;
      AppendAssoc(prefix, heading, NoneLine);
    }
  }

  method GenerateFallbackSuggestion(tasks: seq<Task>, streak: nat, h: nat) returns (suggestion: string)
    ensures suggestion == FallbackPlan(tasks, streak, h)
  {
    if |tasks| == 0 {
      return EmptyPlan(h, streak);
    }
    var high := Filter(tasks, IsHigh);
    var medium := Filter(tasks, IsMedium);
    var low := Filter(tasks, IsLow);
    suggestion := "";
    suggestion := AppendSection(suggestion, HighHeading, high);
    assert suggestion == Section(HighHeading, high);
    suggestion := AppendSection(suggestion, MediumHeading, medium);
    suggestion := AppendSection(suggestion, LowHeading, low);
    suggestion := suggestion + HabitsBlock(h, streak);
  }

  // ---------------------------------------------------------------------
  // The two habit-line patterns

  /**
    `/- Your current streak is (\d+) day(s)?/` and
    `/- Total study hours for today: (\d+(\.\d+)?) hour/`. Each digit run is
    followed by a non-digit in any match, so the greedy `\d+` takes the whole
    run and never backtracks; the optional parts only decide where the match
    ends.
  */
  datatype Pattern = StreakPattern | HoursPattern

  /** A match: where it starts and ends, and the text of its number. */
  datatype Match = Match(start: nat, end: nat, number: string)

  function Lead(p: Pattern): string
  {
    match p
    case StreakPattern => StreakLead
    case HoursPattern => HoursLead
  }

  /** After the streak lead: digits, " day" and an optional 's'. */
  function StreakTail(u: string): (r: Option<(nat, string)>)
    ensures r.Some? ==> r.value.0 <= |u| && AllDigits(r.value.1)
  {
    var n := DigitRun(u);
    if n > 0 && StartsWith(u[n..], " day") then
      var e := n + 4;
      Some((if e < |u| && u[e] == 's' then e + 1 else e, u[..n]))
    else None
  }

  /**
    After the hours lead: digits, optionally '.' and digits, then " hour".
    The optional group is tried first, as the greedy regular expression does;
    a '.' after the digits rules out " hour" there, so the order is immaterial.
  */
  function HoursTail(u: string): (r: Option<(nat, string)>)
    ensures r.Some? ==> r.value.0 <= |u|
  {
    var n := DigitRun(u);
    if n == 0 then None
    else if n == |u| then HourAfter(u, n)
    else AfterDigits(u, n, DigitRun(u[n + 1..]))
  }

  /** After `n` digits, with `m` digits following the next character: the fraction first, then the whole number. */
  function AfterDigits(u: string, n: nat, m: nat): (r: Option<(nat, string)>)
    requires n < |u| && n + 1 + m <= |u|
    ensures r.Some? ==> r.value.0 <= |u|
  {
    if u[n] == '.' && m > 0 && HourAfter(u, n + 1 + m).Some? then HourAfter(u, n + 1 + m)
    else HourAfter(u, n)
  }

  /** " hour" at position `e`: the length through it and the number before it. */
  function HourAfter(u: string, e: nat): (r: Option<(nat, string)>)
    requires e <= |u|
    ensures r.Some? ==> r.value.0 <= |u|
  {
    if StartsWith(u[e..], " hour") then Some((e + 5, u[..e])) else None
  }

  /** A match of `p` at the very front of `t`: its length and the text of its number. */
  function MatchHere(t: string, p: Pattern): (r: Option<(nat, string)>)
    ensures r.Some? ==> r.value.0 <= |t|
    ensures r.Some? && p == StreakPattern ==> AllDigits(r.value.1)
  {
    var lead := Lead(p);
    if !StartsWith(t, lead) then None
    else
      var tail := match p
        case StreakPattern => StreakTail(t[|lead|..])
        case HoursPattern => HoursTail(t[|lead|..]);
      if tail.None? then None else Some((|lead| + tail.value.0, tail.value.1))
  }

  /** A match of `p` starting at position `i` of `s`. */
  function MatchAt(s: string, i: nat, p: Pattern): (r: Option<Match>)
    ensures r.Some? ==> r.value.start == i && i <= r.value.end <= |s|
    ensures r.Some? && p == StreakPattern ==> AllDigits(r.value.number)
    ensures i > |s| ==> r.None?
  {
    if i > |s| then None
    else
      var here := MatchHere(s[i..], p);
      if here.None? then None else Some(Match(i, i + here.value.0, here.value.1))
  }

  /** `s.match(pattern)`: the leftmost match at or after `from`. */
  function FirstMatch(s: string, p: Pattern, from: nat): (r: Option<Match>)
    ensures r.Some? ==> from <= r.value.start && MatchAt(s, r.value.start, p) == r
    decreases |s| + 1 - from
  {
    if from > |s| then None
    else if MatchAt(s, from, p).Some? then MatchAt(s, from, p)
    else FirstMatch(s, p, from + 1)
  }

  /** No position in [lo, hi) holds a match. */
  ghost predicate NoMatchIn(s: string, p: Pattern, lo: int, hi: int)
  {
    forall j :: lo <= j < hi && 0 <= j <= |s| ==> MatchAt(s, j, p).None?
  }

  lemma NoMatchExtend(s: string, p: Pattern, lo: nat, hi: int)
    requires lo <= |s| && MatchAt(s, lo, p).None? && NoMatchIn(s, p, lo + 1, hi)
    ensures NoMatchIn(s, p, lo, hi)
  {
  }

  /** The match found is the leftmost one, and None means no position matches. */
  lemma {:induction false} FirstMatchLeftmost(s: string, p: Pattern, from: nat)
    ensures FirstMatch(s, p, from).Some? ==> NoMatchIn(s, p, from, FirstMatch(s, p, from).value.start)
    ensures FirstMatch(s, p, from).None? ==> NoMatchIn(s, p, from, |s| + 1)
    decreases |s| + 1 - from
  {
    var r := FirstMatch(s, p, from);
    if from > |s| {
    } else if MatchAt(s, from, p).Some? {
    } else {
      FirstMatchLeftmost(s, p, from + 1);
      assert r == FirstMatch(s, p, from + 1);
      if r.Some? {
        NoMatchExtend(s, p, from, r.value.start);
      } else {
        NoMatchExtend(s, p, from, |s| + 1);
      }
    }
  }

  /**
    `parseFloat(number) === h / 100` in exact decimal arithmetic: the digits
    up to hundredths give `h`, and every later digit is 0.
  */
  predicate SameHours(number: string, h: nat)
  {
    var (w, f) := ReadDecimal(number);
    DigitsValue(w) * 100 + FracHundredths(f) == h && (|f| <= 2 || AllZeros(f[2..]))
  }

  // ---------------------------------------------------------------------
  // The patch pass

  /** Step 1: append the closing sentence when it is missing. */
  function EnsureClosing(s: string): string
  {
    if Contains(s, Closing) then s else Trim(s) + "\n" + Closing
  }

  /** The habits block appended when the text has no "- Habits:" at all. */
  function HabitsTail(h: nat, n: nat): string
  {
    "\n- Habits:\n" + HabitLines(h, n) + KeepLine
  }

  /** Step 2: the streak line. */
  function PatchStreak(s: string, n: nat, h: nat): string
  {
    match FirstMatch(s, StreakPattern, 0)
    case None =>
      if Contains(s, "- Habits:") then ReplaceFirst(s, "- Habits:\n", "- Habits:\n" + HabitLines(h, n))
      else s + HabitsTail(h, n)
    case Some(m) =>
      if DigitsValue(m.number) == n then s else s[..m.start] + StreakLine(n) + s[m.end..]
  }

  /** Step 3: the hours line. */
  function PatchHours(s: string, h: nat, n: nat): string
  {
    match FirstMatch(s, HoursPattern, 0)
    case None =>
      if Contains(s, "- Habits:") then ReplaceFirst(s, "- Habits:\n", "- Habits:\n  " + HoursLine(h) + "\n")
      else s + HabitsTail(h, n)
    case Some(m) =>
      if SameHours(m.number, h) then s else s[..m.start] + HoursLine(h) + s[m.end..]
  }

  const LowLead := "Low Priority:"
  const TipLead := "General Study Tip:"

  /**
    Step 4, `/Low Priority:[\s\S]*?General Study Tip:/` replaced: from the
    first "Low Priority:" to the first "General Study Tip:" after it. When
    the first "Low Priority:" has no tip heading after it, no later one has.
  */
  function ReplaceLowSection(s: string): string
  {
    match Find(s, LowLead)
    case None => s
    case Some(i) =>
      match FindFrom(s, TipLead, i + |LowLead|)
      case None => s
      case Some(j) => s[..i] + "Low Priority:\n- None\nGeneral Study Tip:" + s[j + |TipLead|..]
  }

  /** The incomplete tasks due today or later, by the JavaScript date comparison `dueFromToday`. */
  function Upcoming(tasks: seq<Task>, dueFromToday: string -> bool): seq<Task>
  {
    Filter(tasks, (t: Task) => !t.completed && dueFromToday(t.dueDate))
  }

  /** Step 5: the SQL tip before the first "- Habits:" when nothing is upcoming. */
  function InsertTip(s: string, upcoming: seq<Task>): string
  {
    if |upcoming| == 0 && !Contains(s, TipTitle) then ReplaceFirst(s, "- Habits:", TipBlock + "- Habits:")
    else s
  }

  /** The whole patch pass. */
  function Patched(s: string, tasks: seq<Task>, habits: Habits, today: string, dueFromToday: string -> bool): string
  {
    var h := HoursOn(habits.log, today);
    var s1 := EnsureClosing(s);
    var s2 := PatchStreak(s1, habits.streak, h);
    var s3 := PatchHours(s2, h, habits.streak);
    var s4 := if Contains(s3, "Math") then ReplaceLowSection(s3) else s3;
    InsertTip(s4, Upcoming(tasks, dueFromToday))
  }

  /** The streak block of the patch pass. */
  method FixStreakLine(s0: string, n: nat, h: nat) returns (s: string)
    ensures s == PatchStreak(s0, n, h)
  {
    s := s0;
    var streakMatch := FirstMatch(s, StreakPattern, 0);
    if streakMatch.None? {
      if Contains(s, "- Habits:") {
        s := ReplaceFirst(s, "- Habits:\n", "- Habits:\n" + HabitLines(h, n));
      } else {
        s := s + HabitsTail(h, n);
      }
    } else if DigitsValue(streakMatch.value.number) != n {
      s := s[..streakMatch.value.start] + StreakLine(n) + s[streakMatch.value.end..];
    }
  }

  /** The hours block of the patch pass. */
  method FixHoursLine(s0: string, h: nat, n: nat) returns (s: string)
    ensures s == PatchHours(s0, h, n)
  {
    s := s0;
    var hoursMatch := FirstMatch(s, HoursPattern, 0);
    if hoursMatch.None? {
      if Contains(s, "- Habits:") {
        s := ReplaceFirst(s, "- Habits:\n", "- Habits:\n  " + HoursLine(h) + "\n");
      } else {
        s := s + HabitsTail(h, n);
      }
    } else if !SameHours(hoursMatch.value.number, h) {
      s := s[..hoursMatch.value.start] + HoursLine(h) + s[hoursMatch.value.end..];
    }
  }

  /** The patch pass as the endpoint runs it, reassigning the text step by step. */
  method PostProcess(suggestion: string, tasks: seq<Task>, habits: Habits, today: string, dueFromToday: string -> bool)
    returns (s: string)
    ensures s == Patched(suggestion, tasks, habits, today, dueFromToday)
  {
    var h := HoursOn(habits.log, today);
    var n := habits.streak;
    s := suggestion;
    if !Contains(s, Closing) {
      s := Trim(s) + "\n" + Closing;
    }
    s := FixStreakLine(s, n, h);
    s := FixHoursLine(s, h, n);
    if Contains(s, "Math") {
      s := ReplaceLowSection(s);
    }
    var upcoming := Upcoming(tasks, dueFromToday);
    if |upcoming| == 0 && !Contains(s, TipTitle) {
      s := ReplaceFirst(s, "- Habits:", TipBlock + "- Habits:");
    }
  }

  // ---------------------------------------------------------------------
  // The endpoint

  datatype Request = Request(tasks: seq<Task>, habits: Habits, customPrompt: Option<string>, key: string)

  /**
    What the endpoint cannot compute itself: today's YYYY-MM-DD date, the
    date comparison of a due date with today, two draws of `Math.random()`,
    and the text generator's reply (None when it fails).
  */
  datatype Outside = Outside(today: string, dueFromToday: string -> bool, tipDraw: real, messageDraw: real, generated: Option<string>)

  predicate ValidDraws(o: Outside)
  {
    0.0 <= o.tipDraw < 1.0 && 0.0 <= o.messageDraw < 1.0
  }

  /** A generator reply the endpoint keeps: at least 10 characters once trimmed. */
  predicate Usable(reply: Option<string>)
  {
    reply.Some? && |Trim(reply.value)| >= 10
  }

  /** The suggestion a request produces when the cache has nothing for it. */
  function Compose(pools: Pools, req: Request, o: Outside): string
    requires PoolsValid(pools) && ValidDraws(o)
  {
    var h := HoursOn(req.habits.log, o.today);
    var raw :=
      match ModeOf(req.customPrompt)
      case StudyTip => Pick(pools.tips, o.tipDraw)
      case ProgressReport => ReportText(o.today, TallyOf(req.tasks, req.habits, o.today), Pick(pools.messages, o.messageDraw))
      case Planner =>
        if Usable(o.generated) then Trim(o.generated.value)
        else FallbackPlan(Upcoming(req.tasks, o.dueFromToday), req.habits.streak, h);
    if Present(req.customPrompt) then raw else Patched(raw, req.tasks, req.habits, o.today, o.dueFromToday)
  }

  /** `cachedSuggestions.get(key)` when it is truthy. */
  function Cached(cache: map<string, string>, key: string): Option<string>
  {
    if key in cache && cache[key] != "" then Some(cache[key]) else None
  }

  /** The cache of suggestions by request key (the `cachedSuggestions` map of the fixed user record). */
  class SuggestionCache {
    const pools: Pools
    var entries: map<string, string>

    constructor (pools: Pools)
      requires PoolsValid(pools)
      ensures this.pools == pools && entries == map[]
    {
      this.pools := pools;
      entries := map[];
    }

    /** A stored suggestion is returned as it is; otherwise the new one is composed and stored. */
    method Suggest(req: Request, o: Outside) returns (suggestion: string)
      requires PoolsValid(pools) && ValidDraws(o)
      modifies this
      ensures old(Cached(entries, req.key)).Some? ==>
        suggestion == old(entries[req.key]) && entries == old(entries)
      ensures old(Cached(entries, req.key)).None? ==>
        suggestion == Compose(pools, req, o) && entries == old(entries)[req.key := suggestion]
    {
      var hit := Cached(entries, req.key);
      if hit.Some? {
        return hit.value;
      }
      var mode := ModeOf(req.customPrompt);
      var h := HoursOn(req.habits.log, o.today);
      if mode == StudyTip {
        suggestion := Pick(pools.tips, o.tipDraw);
      } else if mode == ProgressReport {
        suggestion := ReportText(o.today, TallyOf(req.tasks, req.habits, o.today), Pick(pools.messages, o.messageDraw));
      } else if Usable(o.generated) {
        suggestion := Trim(o.generated.value);
      } else {
        suggestion := GenerateFallbackSuggestion(Upcoming(req.tasks, o.dueFromToday), req.habits.streak, h);
      }
      if !Present(req.customPrompt) {
        suggestion := PostProcess(suggestion, req.tasks, req.habits, o.today, o.dueFromToday);
      }
      entries := entries[req.key := suggestion];
    }
  }

  // ---------------------------------------------------------------------
  // Properties: the three paths

  /** A request whose prompt carries the tip marker is answered with one of the canned tips. */
  lemma TipRequestGivesPoolTip(pools: Pools, req: Request, o: Outside)
    requires PoolsValid(pools) && ValidDraws(o)
    requires Present(req.customPrompt) && Contains(req.customPrompt.value, TipMarker)
    ensures Compose(pools, req, o) in pools.tips
  {
  }

  /** Failing that, the report marker gives the progress template with a pooled message. */
  lemma ReportRequestGivesReport(pools: Pools, req: Request, o: Outside)
    requires PoolsValid(pools) && ValidDraws(o)
    requires Present(req.customPrompt) && !Contains(req.customPrompt.value, TipMarker)
    requires Contains(req.customPrompt.value, ReportMarker)
    ensures exists m :: m in pools.messages && Compose(pools, req, o) == ReportText(o.today, TallyOf(req.tasks, req.habits, o.today), m)
  {
    var m := Pick(pools.messages, o.messageDraw);
    assert Compose(pools, req, o) == ReportText(o.today, TallyOf(req.tasks, req.habits, o.today), m);
  }

  /**
    Any other request takes the generator's trimmed reply when it is long
    enough, or else the local plan over the upcoming tasks; the patch pass
    runs exactly when no prompt was sent.
  */
  lemma PlannerRequest(pools: Pools, req: Request, o: Outside)
    requires PoolsValid(pools) && ValidDraws(o)
    requires ModeOf(req.customPrompt) == Planner
    ensures var raw := if Usable(o.generated) then Trim(o.generated.value)
                       else FallbackPlan(Upcoming(req.tasks, o.dueFromToday), req.habits.streak, HoursOn(req.habits.log, o.today));
      Compose(pools, req, o) == if Present(req.customPrompt) then raw else Patched(raw, req.tasks, req.habits, o.today, o.dueFromToday)
  {
  }

  /** Two paths never patch: a tip or report request always carries a prompt. */
  lemma PromptedNotPatched(pools: Pools, req: Request, o: Outside)
    requires PoolsValid(pools) && ValidDraws(o)
    requires ModeOf(req.customPrompt) != Planner
    ensures Present(req.customPrompt)
  {
  }

  // ---------------------------------------------------------------------
  // Properties: the progress figures

  predicate IsOtherPriority(t: Task) { !IsHigh(t) && !IsMedium(t) && !IsLow(t) }

  lemma {:induction false} CountByPriority(s: seq<Task>)
    ensures Count(s, IsHigh) + Count(s, IsMedium) + Count(s, IsLow) + Count(s, IsOtherPriority) == |s|
    decreases |s|
  {
    if s != [] {
      CountByPriority(s[..|s| - 1]);
    }
  }

  /** With only High, Medium and Low tasks, the three counts add up to the tasks completed today. */
  lemma TallySum(tasks: seq<Task>, habits: Habits, today: string)
    requires forall i :: 0 <= i < |tasks| ==> !IsOtherPriority(tasks[i])
    ensures var f := TallyOf(tasks, habits, today); f.high + f.medium + f.low == f.total
  {
    var done := CompletedToday(tasks, today);
    CountByPriority(done);
    forall i | 0 <= i < |done|
      ensures !IsOtherPriority(done[i])
    {
      FilterMembers(tasks, (t: Task) => t.completed && t.completedDate == Some(today), done[i]);
    }
    CountExtremes(done, IsOtherPriority);
  }

  // ---------------------------------------------------------------------
  // Properties: the local plan

  lemma {:induction false} LinesConcat(a: seq<Task>, b: seq<Task>)
    ensures Lines(a + b) == Lines(a) + Lines(b)
    decreases |b|
  {
    if b == [] {
      assert a + b == a;
    } else {
      assert (a + b)[..|a + b| - 1] == a + b[..|b| - 1];
      LinesConcat(a, b[..|b| - 1]);
      AppendAssoc(Lines(a), Lines(b[..|b| - 1]), TaskLine(b[|b| - 1]));
    }
  }

  /** Every listed task has its line in the section. */
  lemma {:induction false} LinesContain(ts: seq<Task>, t: Task)
    requires t in ts
    ensures Contains(Lines(ts), TaskLine(t))
    decreases |ts|
  {
    var init := ts[..|ts| - 1];
    assert ts == init + [ts[|ts| - 1]];
    if t == ts[|ts| - 1] {
      ContainsSelf(TaskLine(t));
      ContainsRight(Lines(init), TaskLine(t), TaskLine(t));
    } else {
      LinesContain(init, t);
      ContainsLeft(Lines(init), TaskLine(ts[|ts| - 1]), TaskLine(t));
    }
  }

  /** A task of another priority adds nothing to a non-empty plan. */
  lemma FallbackIgnoresOtherPriorities(tasks: seq<Task>, t: Task, streak: nat, h: nat)
    requires |tasks| > 0 && IsOtherPriority(t)
    ensures FallbackPlan(tasks + [t], streak, h) == FallbackPlan(tasks, streak, h)
  {
    FilterConcat(tasks, [t], IsHigh);
    FilterConcat(tasks, [t], IsMedium);
    FilterConcat(tasks, [t], IsLow);
    assert Filter([t], IsHigh) == [] && Filter([t], IsMedium) == [] && Filter([t], IsLow) == [];
    assert Filter(tasks + [t], IsHigh) == Filter(tasks, IsHigh);
    assert Filter(tasks + [t], IsMedium) == Filter(tasks, IsMedium);
    assert Filter(tasks + [t], IsLow) == Filter(tasks, IsLow);
  }

  /** A task added to a non-empty section gets its line after the others. */
  lemma SectionSnoc(heading: string, ts: seq<Task>, t: Task)
    ensures Section(heading, ts + [t]) == heading + Lines(ts) + TaskLine(t)
  {
    assert (ts + [t])[..|ts + [t]| - 1] == ts;
    AppendAssoc(heading, Lines(ts), TaskLine(t));
  }

  /** Appending a High task extends the High section alone. */
  lemma FallbackAppendHigh(tasks: seq<Task>, t: Task, streak: nat, h: nat)
    requires |tasks| > 0 && IsHigh(t)
    ensures FallbackPlan(tasks + [t], streak, h) ==
      Section(HighHeading, Filter(tasks, IsHigh) + [t]) + Section(MediumHeading, Filter(tasks, IsMedium)) +
      Section(LowHeading, Filter(tasks, IsLow)) + HabitsBlock(h, streak)
  {
    FilterConcat(tasks, [t], IsHigh);
    FilterConcat(tasks, [t], IsMedium);
    FilterConcat(tasks, [t], IsLow);
    assert Filter([t], IsHigh) == [t] && Filter([t], IsMedium) == [] && Filter([t], IsLow) == [];
    assert Filter(tasks + [t], IsMedium) == Filter(tasks, IsMedium);
    assert Filter(tasks + [t], IsLow) == Filter(tasks, IsLow);
  }

  /** Every High, Medium or Low task is listed in the plan. */
  lemma FallbackListsEveryTask(tasks: seq<Task>, t: Task, streak: nat, h: nat)
    requires t in tasks && !IsOtherPriority(t)
    ensures Contains(FallbackPlan(tasks, streak, h), TaskLine(t))
  {
    var high := Section(HighHeading, Filter(tasks, IsHigh));
    var medium := Section(MediumHeading, Filter(tasks, IsMedium));
    var low := Section(LowHeading, Filter(tasks, IsLow));
    var tail := HabitsBlock(h, streak);
    var line := TaskLine(t);
    if IsHigh(t) {
      FilterMembers(tasks, IsHigh, t);
      LinesContain(Filter(tasks, IsHigh), t);
      ContainsRight(HighHeading, Lines(Filter(tasks, IsHigh)), line);
      ContainsLeft(high, medium, line);
      ContainsLeft(high + medium, low, line);
    } else if IsMedium(t) {
      FilterMembers(tasks, IsMedium, t);
      LinesContain(Filter(tasks, IsMedium), t);
      ContainsRight(MediumHeading, Lines(Filter(tasks, IsMedium)), line);
      ContainsRight(high, medium, line);
      ContainsLeft(high + medium, low, line);
    } else {
      FilterMembers(tasks, IsLow, t);
      LinesContain(Filter(tasks, IsLow), t);
      ContainsRight(LowHeading, Lines(Filter(tasks, IsLow)), line);
      ContainsRight(high + medium, low, line);
    }
    ContainsLeft(high + medium + low, tail, line);
  }

  /** Every plan ends with the closing sentence, so the first patch step leaves it alone. */
  lemma FallbackHasClosing(tasks: seq<Task>, streak: nat, h: nat)
    ensures EnsureClosing(FallbackPlan(tasks, streak, h)) == FallbackPlan(tasks, streak, h)
  {
    var head := "- Habits:\n" + HabitLines(h, streak) + KeepLine + "\n";
    ContainsSelf(Closing);
    ContainsRight(head, Closing, Closing);
    assert HabitsBlock(h, streak) == head + Closing;
    var plan := FallbackPlan(tasks, streak, h);
    var body := plan[..|plan| - |HabitsBlock(h, streak)|];
    if |tasks| == 0 {
      var lead := HighHeading + NoneLine + MediumHeading + NoneLine + LowHeading + NoneLine + TipBlock;
      ContainsRight(lead, HabitsBlock(h, streak), Closing);
    } else {
      var lead := Section(HighHeading, Filter(tasks, IsHigh)) + Section(MediumHeading, Filter(tasks, IsMedium)) +
        Section(LowHeading, Filter(tasks, IsLow));
      ContainsRight(lead, HabitsBlock(h, streak), Closing);
    }
  }

  // ---------------------------------------------------------------------
  // Properties: the patch pass

  /** After the first step the closing sentence is there, and a text that had it is unchanged. */
  lemma EnsureClosingRule(s: string)
    ensures Contains(EnsureClosing(s), Closing)
    ensures Contains(s, Closing) ==> EnsureClosing(s) == s
  {
    if !Contains(s, Closing) {
      ContainsSelf(Closing);
      ContainsRight(Trim(s) + "\n", Closing, Closing);
    }
  }

  /** The streak line as the plans write it is read back with its own number. */
  lemma StreakLineRead(n: nat, t: string)
    ensures MatchHere(StreakLine(n) + t, StreakPattern).Some?
    ensures MatchHere(StreakLine(n) + t, StreakPattern).value.1 == NatToString(n)
  {
    var w := NatToString(n);
    var u := w + (" day" + (Plural(n) + t));
    assert StreakLine(n) + t == StreakLead + u;
    StreakNumberRead(w, Plural(n) + t);
    StreakAfterLead(u);
  }

  /** After the streak lead, the streak pattern reads what its tail reads. */
  lemma StreakAfterLead(u: string)
    requires StreakTail(u).Some?
    ensures MatchHere(StreakLead + u, StreakPattern) == Some((|StreakLead| + StreakTail(u).value.0, StreakTail(u).value.1))
  {
    var x := StreakLead + u;
    assert x[..|StreakLead|] == StreakLead;
    assert x[|StreakLead|..] == u;
  }

  /** Digits followed by " day": the streak pattern reads exactly those digits. */
  lemma StreakNumberRead(w: string, t: string)
    requires |w| > 0 && AllDigits(w)
    ensures StreakTail(w + (" day" + t)).Some? && StreakTail(w + (" day" + t)).value.1 == w
  {
    var rest := " day" + t;
    var u := w + rest;
    DigitRunOf(w, rest);
    assert u[|w|..] == rest && u[..|w|] == w;
    assert StartsWith(rest, " day");
  }

  /** Digits, an optional '.' and digits, then " hour": the hours pattern reads exactly that number. */
  lemma HoursNumberRead(w: string, ft: string, t: string)
    requires |w| > 0 && AllDigits(w)
    requires ft == [] || (ft[0] == '.' && |ft| > 1 && AllDigits(ft[1..]))
    ensures HoursTail(w + ft + " hour" + t).Some?
    ensures HoursTail(w + ft + " hour" + t).value.0 == |w| + |ft| + 5
    ensures HoursTail(w + ft + " hour" + t).value.1 == w + ft
  {
    var rest := " hour" + t;
    var u := w + ft + rest;
    assert u == w + ft + " hour" + t;
    if ft == [] {
      assert u == w + rest;
      assert DigitRun(u) == |w| && u[|w|] == ' ' && StartsWith(u[|w|..], " hour") by {
        DigitRunOf(w, rest);
        assert u[|w|..] == rest;
      }
      HoursTailWhole(u, |w|);
      assert u[..|w|] == w;
    } else {
      var d := ft[1..];
      assert ft == "." + d;
      assert u == w + ("." + (d + rest));
      FractionNumberRead(w, d, rest);
    }
  }

  /** The case with a fraction: digits, '.', digits, then the rest. */
  lemma FractionNumberRead(w: string, d: string, rest: string)
    requires |w| > 0 && AllDigits(w) && |d| > 0 && AllDigits(d) && StartsWith(rest, " hour")
    ensures HoursTail(w + ("." + (d + rest))).Some?
    ensures HoursTail(w + ("." + (d + rest))).value.0 == |w| + 1 + |d| + 5
    ensures HoursTail(w + ("." + (d + rest))).value.1 == w + "." + d
  {
    var u := w + ("." + (d + rest));
    assert rest[0] == ' ';
    FractionPositions(w, d, rest, u);
    HoursTailFraction(u, |w|, |d|);
    FractionPrefix(w, d, rest, u);
  }

  /** The number read is the text before the rest. */
  lemma FractionPrefix(w: string, d: string, rest: string, u: string)
    requires u == w + ("." + (d + rest))
    ensures u[..|w| + 1 + |d|] == w + "." + d
  {
    var p := w + "." + d;
    assert u == p + rest;
    assert u[..|p|] == p;
  }

  /** Where the integer digits, the point, the fraction digits and the rest lie in the text. */
  lemma FractionPositions(w: string, d: string, rest: string, u: string)
    requires AllDigits(w) && AllDigits(d) && (rest == [] || !IsDigit(rest[0]))
    requires u == w + ("." + (d + rest))
    ensures |w| < |u| && DigitRun(u) == |w| && u[|w|] == '.'
    ensures DigitRun(u[|w| + 1..]) == |d| && u[|w| + 1 + |d|..] == rest
  {
    var x := d + rest;
    assert "." + x == ['.'] + x;
    CharBetween(w, '.', x, u);
    DigitRunOf(w, ['.'] + x);
    DigitRunOf(d, rest);
    assert x[|d|..] == rest;
  }

  /** The character after a prefix, and the text after that character. */
  lemma CharBetween(w: string, c: char, x: string, u: string)
    requires u == w + ([c] + x)
    ensures |w| < |u| && u[|w|] == c && u[|w| + 1..] == x
  {
  }

  /** The hours pattern on digits then " hour", stated by the positions alone. */
  lemma HoursTailWhole(u: string, n: nat)
    requires 0 < n < |u| && DigitRun(u) == n && u[n] != '.' && StartsWith(u[n..], " hour")
    ensures HoursTail(u).Some? && HoursTail(u).value.0 == n + 5 && HoursTail(u).value.1 == u[..n]
  {
  }

  /** The hours pattern on digits, '.', digits and " hour", stated by the positions alone. */
  lemma HoursTailFraction(u: string, n: nat, m: nat)
    requires 0 < n < |u| && DigitRun(u) == n && u[n] == '.'
    requires 0 < m && DigitRun(u[n + 1..]) == m && StartsWith(u[n + 1 + m..], " hour")
    ensures HoursTail(u).Some? && HoursTail(u).value.0 == n + 1 + m + 5 && HoursTail(u).value.1 == u[..n + 1 + m]
  {
    HoursTailAfterDigits(u, n);
    AfterDigitsFraction(u, n, m);
  }

  /** Past the integer digits, the hours pattern depends only on what follows. */
  lemma HoursTailAfterDigits(u: string, n: nat)
    requires 0 < n < |u| && DigitRun(u) == n
    ensures HoursTail(u) == AfterDigits(u, n, DigitRun(u[n + 1..]))
  {
  }

  lemma AfterDigitsFraction(u: string, n: nat, m: nat)
    requires n < |u| && n + 1 + m <= |u| && u[n] == '.' && 0 < m && StartsWith(u[n + 1 + m..], " hour")
    ensures AfterDigits(u, n, m).Some? && AfterDigits(u, n, m).value.0 == n + 1 + m + 5
    ensures AfterDigits(u, n, m).value.1 == u[..n + 1 + m]
  {
  }

  /** A rendered number of hundredths compares equal to the same number of hours. */
  lemma SameHoursRendered(h: nat)
    ensures SameHours(HundredthsToString(h), h)
  {
    var w := NatToString(h / 100);
    DigitsValueOfNatToString(h / 100);
    var ft := FractionText(h % 100);
    FractionRoundTrip(h % 100);
    if ft == [] {
      ReadDecimalOf(w, "");
    } else {
      var d := ft[1..];
      assert ft == "." + d;
      assert w + ft == w + "." + d;
      ReadDecimalOf(w, d);
      DigitRunOf(d, []);
      assert d + [] == d;
      assert FracDigits(ft) == d;
    }
  }

  /** The hours line as the plans write it is read back as the same number of hours. */
  lemma HoursLineRead(h: nat, t: string)
    ensures MatchHere(HoursLine(h) + t, HoursPattern).Some?
    ensures SameHours(MatchHere(HoursLine(h) + t, HoursPattern).value.1, h)
  {
    var w := NatToString(h / 100);
    var ft := FractionText(h % 100);
    var u := w + ft + " hour" + t;
    var x := HoursLine(h) + t;
    assert x == HoursLead + u;
    assert StartsWith(x, HoursLead) && x[|HoursLead|..] == u;
    HoursNumberRead(w, ft, t);
    SameHoursRendered(h);
  }

  /** A text that starts with the right streak line is left as it is. */
  lemma PatchStreakKeepsCorrectLine(n: nat, h: nat, t: string)
    ensures PatchStreak(StreakLine(n) + t, n, h) == StreakLine(n) + t
  {
    var s := StreakLine(n) + t;
    StreakLineRead(n, t);
    assert s[0..] == s;
    DigitsValueOfNatToString(n);
  }

  /** A text that starts with the right hours line is left as it is. */
  lemma PatchHoursKeepsCorrectLine(h: nat, n: nat, t: string)
    ensures PatchHours(HoursLine(h) + t, h, n) == HoursLine(h) + t
  {
    var s := HoursLine(h) + t;
    HoursLineRead(h, t);
    assert s[0..] == s;
  }

  /** A match at the end of a prefix is a match at the front of what follows it. */
  lemma MatchAtFront(a: string, x: string, p: Pattern)
    ensures MatchAt(a + x, |a|, p).Some? <==> MatchHere(x, p).Some?
    ensures MatchHere(x, p).Some? ==> MatchAt(a + x, |a|, p).value.end == |a| + MatchHere(x, p).value.0
    ensures MatchHere(x, p).Some? ==> MatchAt(a + x, |a|, p).value.number == MatchHere(x, p).value.1
  {
    assert (a + x)[|a|..] == x;
  }

  /** When the text has a streak line, the patched text reads the actual streak where the first one was. */
  lemma PatchStreakRewrites(s: string, n: nat, h: nat)
    requires FirstMatch(s, StreakPattern, 0).Some?
    ensures var m := FirstMatch(s, StreakPattern, 0).value;
      var r := MatchAt(PatchStreak(s, n, h), m.start, StreakPattern);
      r.Some? && DigitsValue(r.value.number) == n
  {
    var m := FirstMatch(s, StreakPattern, 0).value;
    if DigitsValue(m.number) != n {
      var x := StreakLine(n) + s[m.end..];
      assert PatchStreak(s, n, h) == s[..m.start] + x;
      MatchAtFront(s[..m.start], x, StreakPattern);
      StreakLineRead(n, s[m.end..]);
      DigitsValueOfNatToString(n);
    }
  }

  /** When the text has an hours line, the patched text reads the actual hours where the first one was. */
  lemma PatchHoursRewrites(s: string, h: nat, n: nat)
    requires FirstMatch(s, HoursPattern, 0).Some?
    ensures var m := FirstMatch(s, HoursPattern, 0).value;
      var r := MatchAt(PatchHours(s, h, n), m.start, HoursPattern);
      r.Some? && SameHours(r.value.number, h)
  {
    var m := FirstMatch(s, HoursPattern, 0).value;
    if !SameHours(m.number, h) {
      var x := HoursLine(h) + s[m.end..];
      PatchHoursReplaces(s, h, n);
      HoursLineRead(h, s[m.end..]);
      MatchAtFront(s[..m.start], x, HoursPattern);
    }
  }

  /** A wrong hours line is replaced by the right one, the text around it kept. */
  lemma PatchHoursReplaces(s: string, h: nat, n: nat)
    requires FirstMatch(s, HoursPattern, 0).Some?
    requires !SameHours(FirstMatch(s, HoursPattern, 0).value.number, h)
    ensures var m := FirstMatch(s, HoursPattern, 0).value;
      PatchHours(s, h, n) == s[..m.start] + (HoursLine(h) + s[m.end..])
  {
    var m := FirstMatch(s, HoursPattern, 0).value;
    AppendAssoc(s[..m.start], HoursLine(h), s[m.end..]);
  }

  /** The two habit lines hold the streak line and the hours line. */
  lemma HabitLinesHold(h: nat, n: nat)
    ensures Contains(HabitLines(h, n), StreakLine(n))
    ensures Contains(HabitLines(h, n), HoursLine(h))
  {
    SecondAndFourthHeld("  ", HoursLine(h), "\n  ", StreakLine(n), "\n");
  }

  /** The second and the fourth of five concatenated parts are contained in the whole. */
  lemma SecondAndFourthHeld(a: string, b: string, c: string, d: string, e: string)
    ensures Contains(a + b + c + d + e, b)
    ensures Contains(a + b + c + d + e, d)
  {
    ContainsSelf(d);
    ContainsRight(a + b + c, d, d);
    ContainsLeft(a + b + c + d, e, d);
    ContainsSelf(b);
    ContainsRight(a, b, b);
    ContainsLeft(a + b, c + d + e, b);
    assert a + b + (c + d + e) == a + b + c + d + e;
  }

  /** Without a streak line, one is inserted under the first "- Habits:" line. */
  lemma PatchStreakInserts(s: string, n: nat, h: nat)
    requires FirstMatch(s, StreakPattern, 0).None? && Contains(s, "- Habits:\n")
    ensures Contains(PatchStreak(s, n, h), StreakLine(n))
  {
    assert Contains(s, "- Habits:") by {
      assert "- Habits:\n" == "- Habits:" + "\n";
      ContainsStart(s, "- Habits:", "\n");
    }
    assert Contains("- Habits:\n" + HabitLines(h, n), StreakLine(n)) by {
      HabitLinesHold(h, n);
      ContainsRight("- Habits:\n", HabitLines(h, n), StreakLine(n));
    }
    ReplaceFirstHolds(s, "- Habits:\n", "- Habits:\n" + HabitLines(h, n), StreakLine(n));
  }

  /** Without a streak line or any "- Habits:", a full habits block is appended. */
  lemma PatchStreakAppends(s: string, n: nat, h: nat)
    requires FirstMatch(s, StreakPattern, 0).None? && !Contains(s, "- Habits:")
    ensures PatchStreak(s, n, h) == s + HabitsTail(h, n)
    ensures Contains(PatchStreak(s, n, h), StreakLine(n))
  {
    HabitLinesHold(h, n);
    ContainsRight("\n- Habits:\n", HabitLines(h, n), StreakLine(n));
    ContainsLeft("\n- Habits:\n" + HabitLines(h, n), KeepLine, StreakLine(n));
    ContainsRight(s, HabitsTail(h, n), StreakLine(n));
  }

  /**
    The presence test and the replacement disagree: with "- Habits:" present
    but never followed by a newline, a missing streak line stays missing.
  */
  lemma PatchStreakMissesBareHabits(s: string, n: nat, h: nat)
    requires FirstMatch(s, StreakPattern, 0).None?
    requires Contains(s, "- Habits:") && !Contains(s, "- Habits:\n")
    ensures PatchStreak(s, n, h) == s
    ensures FirstMatch(PatchStreak(s, n, h), StreakPattern, 0).None?
  {
  }

  /** `ReplaceLowSection` is the leftmost lazy match: a later "Low Priority:" cannot find a tip heading the first one missed. */
  lemma LowSectionLeftmost(s: string, k: nat)
    requires Find(s, LowLead).Some? && FindFrom(s, TipLead, Find(s, LowLead).value + |LowLead|).None?
    requires Find(s, LowLead).value <= k
    ensures FindFrom(s, TipLead, k + |LowLead|).None?
  {
  }

  /** With nothing upcoming and no tip heading, the tip goes in before "- Habits:"; otherwise nothing changes. */
  lemma InsertTipRule(s: string, upcoming: seq<Task>)
    ensures |upcoming| > 0 || Contains(s, TipTitle) ==> InsertTip(s, upcoming) == s
    ensures |upcoming| == 0 && Contains(s, "- Habits:") ==> Contains(InsertTip(s, upcoming), TipTitle)
  {
    if |upcoming| == 0 && Contains(s, "- Habits:") && !Contains(s, TipTitle) {
      var k := Find(s, "- Habits:").value;
      var q := TipBlock + "- Habits:";
      assert InsertTip(s, upcoming) == s[..k] + q + s[k + 9..];
      ContainsSelf(TipTitle);
      ContainsLeft(TipTitle, TipBlock[|TipTitle|..] + "- Habits:", TipTitle);
      assert TipTitle + (TipBlock[|TipTitle|..] + "- Habits:") == q;
      ContainsRight(s[..k], q, TipTitle);
      ContainsLeft(s[..k] + q, s[k + 9..], TipTitle);
    }
  }

  // ---------------------------------------------------------------------
  // Properties: the cache

  /** Every step of the patch pass keeps the text non-empty, and the first makes it so. */
  lemma PatchedNonEmpty(s: string, tasks: seq<Task>, habits: Habits, today: string, dueFromToday: string -> bool)
    ensures Patched(s, tasks, habits, today, dueFromToday) != ""
  {
    var h := HoursOn(habits.log, today);
    var s1 := EnsureClosing(s);
    assert |s1| > 0 by {
      EnsureClosingRule(s);
    }
    var s2 := PatchStreak(s1, habits.streak, h);
    assert |s2| > 0 by {
      PatchStreakNonEmpty(s1, habits.streak, h);
    }
    var s3 := PatchHours(s2, h, habits.streak);
    assert |s3| > 0 by {
      PatchHoursNonEmpty(s2, h, habits.streak);
    }
    var s4 := if Contains(s3, "Math") then ReplaceLowSection(s3) else s3;
    assert |s4| > 0 by {
      LowSectionNonEmpty(s3);
    }
    assert |InsertTip(s4, Upcoming(tasks, dueFromToday))| > 0 by {
      InsertTipNonEmpty(s4, Upcoming(tasks, dueFromToday));
    }
  }

  lemma PatchStreakNonEmpty(s: string, n: nat, h: nat)
    requires |s| > 0
    ensures |PatchStreak(s, n, h)| > 0
  {
    var r := FirstMatch(s, StreakPattern, 0);
    if r.None? && Contains(s, "- Habits:") {
      ReplaceFirstNonEmpty(s, "- Habits:\n", "- Habits:\n" + HabitLines(h, n));
    }
  }

  lemma PatchHoursNonEmpty(s: string, h: nat, n: nat)
    requires |s| > 0
    ensures |PatchHours(s, h, n)| > 0
  {
    var r := FirstMatch(s, HoursPattern, 0);
    if r.None? && Contains(s, "- Habits:") {
      ReplaceFirstNonEmpty(s, "- Habits:\n", "- Habits:\n  " + HoursLine(h) + "\n");
    }
  }

  /** A replacement no shorter than what it replaces keeps a text non-empty. */
  lemma ReplaceFirstNonEmpty(s: string, p: string, q: string)
    requires |s| > 0 && |p| <= |q|
    ensures |ReplaceFirst(s, p, q)| > 0
  {
  }

  lemma LowSectionNonEmpty(s: string)
    requires |s| > 0
    ensures |ReplaceLowSection(s)| > 0
  {
  }

  lemma InsertTipNonEmpty(s: string, upcoming: seq<Task>)
    requires |s| > 0
    ensures |InsertTip(s, upcoming)| > 0
  {
    if |upcoming| == 0 && !Contains(s, TipTitle) {
      ReplaceFirstNonEmpty(s, "- Habits:", TipBlock + "- Habits:");
    }
  }

  /** No request composes the empty text, which the cache would treat as absent. */
  lemma ComposeNonEmpty(pools: Pools, req: Request, o: Outside)
    requires PoolsValid(pools) && ValidDraws(o)
    ensures Compose(pools, req, o) != ""
  {
    var h := HoursOn(req.habits.log, o.today);
    if Present(req.customPrompt) {
      match ModeOf(req.customPrompt)
      case StudyTip =>
        var tip := Pick(pools.tips, o.tipDraw);
        var k :| 0 <= k < 10 && pools.tips[k] == tip;
      case ProgressReport =>
      case Planner =>
    } else {
      var raw := if Usable(o.generated) then Trim(o.generated.value)
                 else FallbackPlan(Upcoming(req.tasks, o.dueFromToday), req.habits.streak, h);
      PatchedNonEmpty(raw, req.tasks, req.habits, o.today, o.dueFromToday);
    }
  }

  /** Once stored, a suggestion is what the next identical request gets. */
  lemma StoredIsServed(pools: Pools, req: Request, o: Outside, entries: map<string, string>)
    requires PoolsValid(pools) && ValidDraws(o)
    ensures Cached(entries[req.key := Compose(pools, req, o)], req.key) == Some(Compose(pools, req, o))
  {
    ComposeNonEmpty(pools, req, o);
  }
}
