/**
  The client's study coach: how a generated study tip is cleaned up and
  framed, the figures of the daily progress report, the progress level, and
  how the motivational line of the report is chosen and filtered.
*/
module Coach {
  import opened Text
  import opened Tasks
  import opened StudyLog
  import opened Suggest

  // ---------------------------------------------------------------------
  // The reply of the suggestion service

  /** What the service call returned: a string, an array (its elements strings or not), or anything else. */
  datatype Reply = TextReply(s: string) | ListReply(items: seq<Option<string>>) | OtherReply

  /**
    The fixed texts the coach falls back to. Their wording is a parameter of
    the model; `TextsValid` states what the proofs need of it.
  */
  datatype CoachTexts = CoachTexts(
    mindMap: string,
    noProgress: string,
    beginner: string,
    intermediate: string,
    advanced: string,
    forToday: string,
    neutral: string)

  // ---------------------------------------------------------------------
  // Cleaning up a line

  /** `s.replace(/^\d+\.\s*\/, "")`: a leading number, its '.', and the white space after it. */
  function StripNumbering(s: string): (r: string)
    ensures |r| <= |s| && r == s[|s| - |r|..]
  {
    var n := DigitRun(s);
    if n > 0 && n < |s| && s[n] == '.' then TrimStart(s[n + 1..]) else s
  }

  /** The characters the regular expression `.` does not match. */
  predicate IsLineTerminator(c: char)
  {
    c == '\n' || c == '\r' || c == '\U{2028}' || c == '\U{2029}'
  }

  /** `s.replace(/^"(.*)"$/, "$1")`: surrounding double quotes dropped from a one-line text. */
  function Unquote(s: string): (r: string)
    ensures |r| <= |s|
  {
    if |s| >= 2 && s[0] == '"' && s[|s| - 1] == '"' &&
       forall i :: 1 <= i < |s| - 1 ==> !IsLineTerminator(s[i])
    then s[1..|s| - 1]
    else s
  }

  // ---------------------------------------------------------------------
  // The study tip

  const Failed := "Failed to fetch a valid study tip."
  /** The phrase the framing test looks for, in lower case. */
  const TipMark := "here's a study tip"
  const TipPrefix := "Here's a study tip for students:\n\n- "

  /** Prefix the framing unless the lower-cased tip already mentions it. */
  function Framed(t: string): string
  {
    if Contains(Lower(t), TipMark) then t else TipPrefix + t
  }

  /** `items.find(item => typeof item === "string" && item.trim())`. */
  function FirstText(items: seq<Option<string>>): (r: Option<string>)
    ensures r.Some? ==> r in items && Trim(r.value) != ""
    ensures r.None? ==> forall i :: 0 <= i < |items| ==> items[i].None? || Trim(items[i].value) == ""
  {
    if items == [] then None
    else if items[0].Some? && Trim(items[0].value) != "" then items[0]
    else FirstText(items[1..])
  }

  /** A reply that yields no tip at all: a blank string, an empty array, or neither. */
  predicate IsBlank(r: Reply)
  {
    match r
    case TextReply(s) => Trim(s) == ""
    case ListReply(items) => items == []
    case OtherReply => true
  }

  /** The tip after trimming, dropping the numbering and framing. */
  function BaseTip(r: Reply): string
  {
    match r
    case TextReply(s) => if Trim(s) != "" then Framed(StripNumbering(Trim(s))) else Failed
    case ListReply(items) =>
      if |items| > 0 then
        var chosen := match FirstText(items) case Some(x) => x case None => Failed;
        Framed(StripNumbering(Trim(chosen)))
      else Failed
    case OtherReply => Failed
  }

  /** The extra validation: the failure text replaced by a long enough string reply. */
  function Revalidated(r: Reply, tip: string): string
  {
    if tip == Failed && r.TextReply? && |Trim(r.s)| > 10 then TipPrefix + Trim(r.s) else tip
  }

  /** The tip filter's words, tested on the lower-cased tip. */
  predicate MentionsField(lower: string)
  {
    Contains(lower, "coding") || Contains(lower, "programming") || Contains(lower, "developer") ||
    Contains(lower, "tech") || Contains(lower, "it field")
  }

  /** The tip the coach shows for a reply. */
  function StudyTip(r: Reply, texts: CoachTexts): string
  {
    var tip := Revalidated(r, BaseTip(r));
    if MentionsField(Lower(tip)) then texts.mindMap else tip
  }

  // ---------------------------------------------------------------------
  // The figures of the daily progress report

  /** An incomplete task due today. */
  function DueTodayOpen(today: string): Task -> bool
  {
    (t: Task) => !t.completed && t.dueDate == today
  }

  /** `tasks.reduce((total, t) => total + points(t), 0)`. */
  function SumPoints(ts: seq<Task>): (r: nat)
    ensures 10 * |ts| <= r <= 30 * |ts|
  {
    if ts == [] then 0 else SumPoints(ts[..|ts| - 1]) + PriorityPoints(ts[|ts| - 1].priority)
  }

  datatype DayFigures = DayFigures(
    hours: nat,
    completed: nat,
    high: nat,
    medium: nat,
    low: nat,
    points: nat,
    remaining: nat)

  /** The figures of the report for the day `today`. */
  function FiguresOf(tasks: seq<Task>, log: seq<LogEntry>, today: string): DayFigures
  {
    var done := CompletedToday(tasks, today);
    DayFigures(HoursOn(log, today), |done|, Count(done, IsHigh), Count(done, IsMedium), Count(done, IsLow),
               SumPoints(done), Count(tasks, DueTodayOpen(today)))
  }

  // ---------------------------------------------------------------------
  // The progress level

  datatype Level = Beginner | Intermediate | Advanced

  function Rank(l: Level): nat
  {
    match l
    case Beginner => 0
    case Intermediate => 1
    case Advanced => 2
  }

  /** The level from the streak, total hours (in hundredths) and completed tasks. */
  function LevelOf(streak: nat, totalHours: nat, completed: nat): (l: Level)
    ensures l == Advanced <==> streak > 14 || totalHours > 5000 || completed > 30
    ensures l == Beginner <==> streak <= 5 && totalHours <= 2000 && completed <= 10
  {
    if streak > 14 || totalHours > 5000 || completed > 30 then Advanced
    else if streak > 5 || totalHours > 2000 || completed > 10 then Intermediate
    else Beginner
  }

  /** The message that replaces a reply that is only a heading. */
  function LevelMessage(texts: CoachTexts, f: DayFigures, l: Level): string
  {
    if f.hours == 0 && f.completed == 0 then texts.noProgress
    else match l
      case Beginner => texts.beginner
      case Intermediate => texts.intermediate
      case Advanced => texts.advanced
  }

  // ---------------------------------------------------------------------
  // The motivational line

  const KeepUp := "Keep up the great effort in your studies!"
  const HighHeadingText := "- High Priority:"
  const ProgressOpening := "Here's your progress"
  const ForTodayMark := "progress for today"

  /** The message filter's words, tested case-sensitively. */
  predicate NamesField(m: string)
  {
    Contains(m, "coding") || Contains(m, "programming") || Contains(m, "tech") ||
    Contains(m, "IT") || Contains(m, "developer")
  }

  /** What the fallback texts must satisfy: none trips the filters that run after it. */
  predicate TextsValid(texts: CoachTexts)
  {
    !MentionsField(Lower(texts.mindMap)) &&
    !Contains(texts.noProgress, ForTodayMark) && !NamesField(texts.noProgress) &&
    !Contains(texts.beginner, ForTodayMark) && !NamesField(texts.beginner) &&
    !Contains(texts.intermediate, ForTodayMark) && !NamesField(texts.intermediate) &&
    !Contains(texts.advanced, ForTodayMark) && !NamesField(texts.advanced) &&
    !NamesField(texts.forToday) && !NamesField(texts.neutral) && !Contains(texts.neutral, ForTodayMark)
  }

  /** The first line of a reply that is not blank. */
  function FirstLine(lines: seq<string>): (r: Option<string>)
    ensures r.Some? ==> Trim(r.value) != ""
    ensures r.None? ==> forall i :: 0 <= i < |lines| ==> Trim(lines[i]) == ""
  {
    if lines == [] then None
    else if Trim(lines[0]) != "" then Some(lines[0])
    else FirstLine(lines[1..])
  }

  /** A reply that is only a heading of the planner text. */
  predicate IsHeadingReply(s: string)
  {
    s == HighHeadingText || StartsWith(Trim(s), HighHeadingText) || StartsWith(Trim(s), ProgressOpening)
  }

  /** The cleaned-up first line of a string reply, before the filters. */
  function FirstMessage(s: string): string
  {
    var first := match FirstLine(Split(s, '\n')) case Some(line) => Unquote(line) case None => KeepUp;
    Trim(StripNumbering(Unquote(first)))
  }

  /** The two filters that run last. */
  function Filtered(m: string, texts: CoachTexts): string
  {
    var m1 := if Contains(m, ForTodayMark) then texts.forToday else m;
    if NamesField(m1) then texts.neutral else m1
  }

  /**
    The motivational line of the report, or None where the code throws and
    the report falls back: a reply that is not a string has no `trim`.
  */
  function Motivation(r: Reply, texts: CoachTexts, f: DayFigures, l: Level): (m: Option<string>)
    ensures m.Some? <==> r.TextReply?
  {
    match r
    case TextReply(s) =>
      var m := if IsHeadingReply(s) then LevelMessage(texts, f, l) else FirstMessage(s);
      Some(Filtered(m, texts))
    case _ => None
  }

  // ---------------------------------------------------------------------
  // Properties: cleaning up

  /** Text that does not start with white space is unchanged by `TrimStart`. */
  lemma TrimStartPlain(x: string)
    requires x == [] || !IsSpace(x[0])
    ensures TrimStart(x) == x
  {
  }

  /** A numbered line "k. tip" loses exactly its number. */
  lemma StripNumberingOf(k: nat, x: string)
    requires x == [] || !IsSpace(x[0])
    ensures StripNumbering(NatToString(k) + ". " + x) == x
  {
    StripNumberingDigits(NatToString(k), x);
  }

  lemma StripNumberingDigits(w: string, x: string)
    requires |w| > 0 && AllDigits(w) && (x == [] || !IsSpace(x[0]))
    ensures StripNumbering(w + ". " + x) == x
  {
    var sx := [' '] + x;
    var s := w + (['.'] + sx);
    assert w + ". " + x == s;
    StripNumberingSplit(w, sx, s);
    TrimStartSpace(x);
  }

  /** Digits, a '.' and then `y`: the digits and the '.' go, and the spaces at the front of `y`. */
  lemma StripNumberingSplit(w: string, y: string, s: string)
    requires |w| > 0 && AllDigits(w) && s == w + (['.'] + y)
    ensures StripNumbering(s) == TrimStart(y)
  {
    DigitRunOf(w, ['.'] + y);
    Suggest.CharBetween(w, '.', y, s);
  }

  /** One space in front of text that does not start with white space is trimmed away. */
  lemma TrimStartSpace(x: string)
    requires x == [] || !IsSpace(x[0])
    ensures TrimStart([' '] + x) == x
  {
    assert ([' '] + x)[1..] == x;
    TrimStartPlain(x);
  }

  /** Text that does not start with a digit is left alone. */
  lemma StripNumberingPlain(s: string)
    requires s == [] || !IsDigit(s[0])
    ensures StripNumbering(s) == s
  {
  }

  /** A quoted one-line text loses exactly its quotes. */
  lemma UnquoteOf(x: string)
    requires forall i :: 0 <= i < |x| ==> !IsLineTerminator(x[i])
    ensures Unquote("\"" + x + "\"") == x
  {
    var s := "\"" + x + "\"";
    assert forall i :: 1 <= i < |s| - 1 ==> s[i] == x[i - 1];
    assert s[1..|s| - 1] == x;
  }

  // ---------------------------------------------------------------------
  // Properties: the study tip

  /** The framing prefix, lower-cased, holds the phrase the framing test looks for. */
  lemma PrefixHoldsMark(t: string)
    ensures Contains(Lower(TipPrefix + t), TipMark)
  {
    var l := Lower(TipPrefix + t);
    assert forall i :: 0 <= i < |TipMark| ==> l[i] == TipMark[i];
    assert l[0..|TipMark|] == TipMark;
    ContainsAt(l, TipMark, 0);
  }

  /** A framed tip always holds the phrase. */
  lemma FramedHoldsMark(t: string)
    ensures Contains(Lower(Framed(t)), TipMark)
  {
    if !Contains(Lower(t), TipMark) {
      PrefixHoldsMark(t);
    }
  }

  /** The failure text has no apostrophe, so it never holds the phrase. */
  lemma FailedLacksMark()
    ensures !Contains(Lower(Failed), TipMark)
  {
    var l := Lower(Failed);
    assert forall j :: 0 <= j < |Failed| ==> Failed[j] != '\'';
    forall i | 0 <= i <= |l|
      ensures !OccursAt(l, TipMark, i)
    {
      if i + |TipMark| <= |l| {
        assert l[i..i + |TipMark|][4] == l[i + 4] != '\'';
      }
    }
  }

  /** The failure text shows exactly for a blank reply; any other reply gives a framed tip. */
  lemma BaseTipCases(r: Reply)
    ensures BaseTip(r) == Failed <==> IsBlank(r)
    ensures !IsBlank(r) ==> Contains(Lower(BaseTip(r)), TipMark)
  {
    FailedLacksMark();
    if !IsBlank(r) {
      var x :| BaseTip(r) == Framed(x);
      FramedHoldsMark(x);
    }
  }

  /** The extra validation never changes the tip: a long string reply is never blank. */
  lemma RevalidationInert(r: Reply)
    ensures Revalidated(r, BaseTip(r)) == BaseTip(r)
  {
    BaseTipCases(r);
  }

  /** An array without a usable string shows the failure text inside the framing. */
  lemma ListWithoutText(items: seq<Option<string>>)
    requires |items| > 0 && FirstText(items).None?
    ensures BaseTip(ListReply(items)) == TipPrefix + Failed
  {
    FailedLacksMark();
    PlainFramed(Failed);
  }

  /** A text with no white space at its ends, no leading digit and no phrase is framed as it is. */
  lemma PlainFramed(f: string)
    requires f != [] && !IsSpace(f[0]) && !IsSpace(f[|f| - 1]) && !IsDigit(f[0])
    requires !Contains(Lower(f), TipMark)
    ensures Framed(StripNumbering(Trim(f))) == TipPrefix + f
  {
    TrimNoSpaceEnds(f);
    StripNumberingPlain(f);
  }

  /** A numbered string reply "k. tip" shows as the framed tip without its number. */
  lemma NumberedTip(k: nat, x: string)
    requires x != [] && !IsSpace(x[0]) && !IsSpace(x[|x| - 1])
    requires !Contains(Lower(x), TipMark)
    ensures BaseTip(TextReply(NatToString(k) + ". " + x)) == TipPrefix + x
  {
    var w := NatToString(k);
    var s := w + ". " + x;
    assert s[0] == w[0] && s[|s| - 1] == x[|x| - 1];
    assert !IsDigit(' ') && !IsSpace(w[0]);
    TrimNoSpaceEnds(s);
    StripNumberingOf(k, x);
  }

  /** With field-neutral fallback text, the tip shown never names a field. */
  lemma StudyTipNeutral(r: Reply, texts: CoachTexts)
    requires TextsValid(texts)
    ensures !MentionsField(Lower(StudyTip(r, texts)))
  {
  }

  // ---------------------------------------------------------------------
  // Properties: figures and level

  /** Today's points are 30 per High, 20 per Medium and 10 per other task completed today. */
  lemma {:induction false} SumPointsByPriority(ts: seq<Task>)
    ensures SumPoints(ts) == 30 * Count(ts, IsHigh) + 20 * Count(ts, IsMedium) +
                             10 * (|ts| - Count(ts, IsHigh) - Count(ts, IsMedium))
    ensures Count(ts, IsHigh) + Count(ts, IsMedium) <= |ts|
    decreases |ts|
  {
    if ts != [] {
      SumPointsByPriority(ts[..|ts| - 1]);
    }
  }

  /** The report's points agree with its High and Medium counts. */
  lemma FiguresPoints(tasks: seq<Task>, log: seq<LogEntry>, today: string)
    ensures var f := FiguresOf(tasks, log, today);
      f.points == 30 * f.high + 20 * f.medium + 10 * (f.completed - f.high - f.medium) &&
      f.high + f.medium + f.low <= f.completed
  {
    var done := CompletedToday(tasks, today);
    SumPointsByPriority(done);
    CountByPriority(done);
  }

  /** More streak, hours or completed tasks never lower the level. */
  lemma LevelMonotone(s1: nat, h1: nat, c1: nat, s2: nat, h2: nat, c2: nat)
    requires s1 <= s2 && h1 <= h2 && c1 <= c2
    ensures Rank(LevelOf(s1, h1, c1)) <= Rank(LevelOf(s2, h2, c2))
  {
  }

  /** The level is Intermediate exactly between the two sets of thresholds. */
  lemma IntermediateBand(streak: nat, totalHours: nat, completed: nat)
    ensures LevelOf(streak, totalHours, completed) == Intermediate <==>
      (streak > 5 || totalHours > 2000 || completed > 10) &&
      streak <= 14 && totalHours <= 5000 && completed <= 30
  {
  }

  // ---------------------------------------------------------------------
  // Properties: the motivational line

  /** After the two filters no field word is left, and the heading phrase only in the text meant for it. */
  lemma FilteredRule(m: string, texts: CoachTexts)
    requires !NamesField(texts.forToday) && !NamesField(texts.neutral) && !Contains(texts.neutral, ForTodayMark)
    ensures !NamesField(Filtered(m, texts))
    ensures Contains(Filtered(m, texts), ForTodayMark) ==> Filtered(m, texts) == texts.forToday
  {
  }

  /** With valid fallback texts, the line never repeats the report's heading and never names a field. */
  lemma MotivationFiltered(r: Reply, texts: CoachTexts, f: DayFigures, l: Level)
    requires TextsValid(texts)
    requires r.TextReply?
    ensures !NamesField(Motivation(r, texts, f, l).value)
    ensures Contains(Motivation(r, texts, f, l).value, ForTodayMark) ==>
      Motivation(r, texts, f, l).value == texts.forToday
  {
    var s := r.s;
    var m := if IsHeadingReply(s) then LevelMessage(texts, f, l) else FirstMessage(s);
    FilteredRule(m, texts);
    assert Motivation(r, texts, f, l) == Some(Filtered(m, texts));
  }

  /** A reply that is only a heading is replaced by the message for the student's level. */
  lemma HeadingGivesLevelMessage(s: string, texts: CoachTexts, f: DayFigures, l: Level)
    requires TextsValid(texts) && IsHeadingReply(s)
    ensures Motivation(TextReply(s), texts, f, l) == Some(LevelMessage(texts, f, l))
    ensures f.hours == 0 && f.completed == 0 ==> Motivation(TextReply(s), texts, f, l) == Some(texts.noProgress)
  {
  }

  /** The line taken is the first line that is not blank: every line before it is blank. */
  lemma {:induction false} FirstLineIsFirst(lines: seq<string>, k: nat)
    requires k < |lines| && Trim(lines[k]) != ""
    requires forall j :: 0 <= j < k ==> Trim(lines[j]) == ""
    ensures FirstLine(lines) == Some(lines[k])
  {
    if k > 0 {
      var rest := lines[1..];
      assert FirstLine(lines) == FirstLine(rest);
      assert rest[k - 1] == lines[k];
      forall j | 0 <= j < k - 1
        ensures Trim(rest[j]) == ""
      {
        assert rest[j] == lines[j + 1];
      }
      FirstLineIsFirst(rest, k - 1);
    }
  }

  /** The item taken is the first usable string: a non-blank string with only unusable items before it is the one taken. */
  lemma {:induction false} FirstTextIsFirst(items: seq<Option<string>>, k: nat)
    requires k < |items| && items[k].Some? && Trim(items[k].value) != ""
    requires forall j :: 0 <= j < k ==> items[j].None? || Trim(items[j].value) == ""
    ensures FirstText(items) == items[k]
  {
    if k > 0 {
      var rest := items[1..];
      assert FirstText(items) == FirstText(rest);
      assert rest[k - 1] == items[k];
      forall j | 0 <= j < k - 1
        ensures rest[j].None? || Trim(rest[j].value) == ""
      {
        assert rest[j] == items[j + 1];
      }
      FirstTextIsFirst(rest, k - 1);
    }
  }

  /** A quoted first line comes through without its quotes. */
  lemma QuotedLine(x: string, rest: string)
    requires forall i :: 0 <= i < |x| ==> !IsLineTerminator(x[i])
    requires x != [] && !IsSpace(x[0]) && !IsSpace(x[|x| - 1]) && !IsDigit(x[0]) && x[0] != '"'
    ensures FirstMessage("\"" + x + "\"" + "\n" + rest) == x
  {
    var line := "\"" + x + "\"";
    var s := line + "\n" + rest;
    assert '\n' !in line by {
      assert forall i :: 0 <= i < |line| ==> line[i] == '"' || line[i] == x[i - 1];
    }
    SplitFirstField(line, rest, '\n');
    assert Trim(line) != "" by {
      TrimNoSpaceEnds(line);
    }
    UnquoteOf(x);
    assert Unquote(x) == x;
    StripNumberingPlain(x);
    TrimNoSpaceEnds(x);
  }
}
