/**
  The task forms: editing a task in the task list and adding one. The date
  input holds YYYY-MM-DD while tasks store DD-MM-YYYY; the hours input holds
  text (a fresh edit form holds the task's number).
*/
module TaskForm {
  import opened Text
  import opened Dates
  import opened Tasks
  import Handlers

  // ---------------------------------------------------------------------
  // Date strings

  /** The regular expression `^\d{4}-\d{2}-\d{2}$`. */
  predicate IsoShape(s: string)
  {
    |s| == 10 && s[4] == '-' && s[7] == '-' &&
    AllDigits(s[..4]) && AllDigits(s[5..7]) && AllDigits(s[8..])
  }

  /** The numbers `dateString.split("-").map(Number)` reads from a YYYY-MM-DD string. */
  function IsoFields(s: string): Date
    requires IsoShape(s)
  {
    Date(DigitsValue(s[..4]), DigitsValue(s[5..7]), DigitsValue(s[8..]))
  }

  /**
    `isValidDate`: the YYYY-MM-DD shape, and the Date built from it shows
    the same year, month and day, which holds exactly for real calendar dates.
  */
  predicate IsValidIsoDate(s: string)
  {
    IsoShape(s) && IsValid(IsoFields(s))
  }

  /**
    The edit form's `validateAndCorrectYear`: a valid date in a year before
    `currentYear` moves to `currentYear`; anything else is left as it is.
  */
  function CorrectPastYear(s: string, currentYear: nat): string
  {
    if s == "" || !IsValidIsoDate(s) then s
    else
      var parts := Split(s, '-');
      if IsoFields(s).year < currentYear then NatToString(currentYear) + "-" + Part(parts, 1) + "-" + Part(parts, 2)
      else s
  }

  /**
    The add form's `validateAndCorrectYear`: any non-empty date whose year
    field `parseInt` does not read as `currentYear` moves to `currentYear`.
  */
  function CorrectYear(s: string, currentYear: nat): string
  {
    if s == "" then s
    else
      var parts := Split(s, '-');
      if JsParseInt(Part(parts, 0)) != Some(currentYear) then NatToString(currentYear) + "-" + Part(parts, 1) + "-" + Part(parts, 2)
      else s
  }

  // ---------------------------------------------------------------------
  // Hours

  /** What the hours input holds: the task's number when editing starts, typed text afterwards. */
  datatype HoursInput = HoursNumber(n: nat) | HoursText(text: string)

  /** `parseFloat(hours)`. */
  function HoursValue(h: HoursInput): JsFloat
  {
    match h
    case HoursNumber(n) => Num(false, n)
    case HoursText(t) => ParseFloat(t)
  }

  /** `!isNaN(parsed) && parsed >= 0`. */
  predicate AcceptedHours(v: JsFloat)
  {
    v.Num? && !v.negative
  }

  datatype FormError = InvalidDate | MissingField | InvalidHours

  // ---------------------------------------------------------------------
  // Editing a task

  /** `editingTask`: the task, its due date as the date input holds it, and the hours input. */
  datatype Draft = Draft(task: Task, hours: HoursInput)

  datatype SaveOutcome = NotEditing | Refused(error: FormError) | Saved(update: Task)

  /** `handleStartEdit`: a completed task is not opened; otherwise its date is converted for the input. */
  function StartEdit(task: Task): (r: Option<Draft>)
    ensures r.None? <==> task.completed
    ensures r.Some? ==> r.value.task.id == task.id && r.value.task.completed == task.completed
  {
    if task.completed then None
    else Some(Draft(task.(dueDate := ReverseFields(task.dueDate)), HoursNumber(task.hours)))
  }

  /**
    `handleSaveEdit`, given whether the date field was touched: the date check
    (only after a touch), the required fields, the hours, and then the update
    with the date turned back into DD-MM-YYYY.
  */
  function SaveEdit(editing: Option<Draft>, interacted: bool): SaveOutcome
  {
    match editing
    case None => NotEditing
    case Some(d) =>
      var t := d.task;
      if interacted && (t.dueDate == "" || !IsValidIsoDate(t.dueDate)) then Refused(InvalidDate)
      else if t.title == "" || t.dueDate == "" || d.hours == HoursText("") then Refused(MissingField)
      else if !AcceptedHours(HoursValue(d.hours)) then Refused(InvalidHours)
      else Saved(t.(dueDate := Handlers.FormatDueDate(t.dueDate), hours := HoursValue(d.hours).hundredths))
  }

  // ---------------------------------------------------------------------
  // Adding a task

  /** The add form's fields. */
  datatype Form = Form(title: string, dueDate: string, priority: string, completed: bool, hours: string)

  /** The form's initial and reset state. */
  const EmptyForm := Form("", "", "Medium", false, "")

  datatype AddOutcome = AddRefused(error: FormError) | Added(task: Handlers.NewTask, form: Form)

  /** `handleAddTask`: required fields, then the hours; an accepted task is passed on and the form reset. */
  function SubmitAdd(f: Form): AddOutcome
  {
    if f.title == "" || f.dueDate == "" || f.hours == "" then AddRefused(MissingField)
    else
      var v := ParseFloat(f.hours);
      if !AcceptedHours(v) then AddRefused(InvalidHours)
      else Added(Handlers.NewTask(f.title, f.dueDate, f.priority, f.completed, v.hundredths), EmptyForm)
  }

  // ---------------------------------------------------------------------
  // Properties of the date strings

  /** The three digit groups of a YYYY-MM-DD string, which hold no '-'. */
  lemma IsoParts(s: string)
    requires IsoShape(s)
    ensures s == s[..4] + "-" + s[5..7] + "-" + s[8..]
    ensures Split(s, '-') == [s[..4], s[5..7], s[8..]]
  {
    assert s == s[..4] + "-" + s[5..7] + "-" + s[8..];
    assert forall i :: 0 <= i < 4 ==> s[..4][i] != '-';
    assert forall i :: 0 <= i < 2 ==> s[5..7][i] != '-';
    assert forall i :: 0 <= i < 2 ==> s[8..][i] != '-';
    SplitThree(s[..4], s[5..7], s[8..], '-');
  }

  /** Four, two and two digits joined by '-' have the YYYY-MM-DD shape, with those numbers. */
  lemma IsoShapeOf(y: string, m: string, d: string)
    requires |y| == 4 && |m| == 2 && |d| == 2 && AllDigits(y) && AllDigits(m) && AllDigits(d)
    ensures IsoShape(y + "-" + m + "-" + d)
    ensures IsoFields(y + "-" + m + "-" + d) == Date(DigitsValue(y), DigitsValue(m), DigitsValue(d))
  {
    var s := y + "-" + m + "-" + d;
    assert s[..4] == y && s[5..7] == m && s[8..] == d;
  }

  /** The value of a two-digit string. */
  lemma TwoDigits(s: string)
    requires |s| == 2 && AllDigits(s)
    ensures DigitsValue(s) == 10 * DigitValue(s[0]) + DigitValue(s[1])
  {
    assert DigitsValue(s) == DigitsValue(s[..1]) * 10 + DigitValue(s[1]);
    assert s[..1][..0] == [] && s[..1][0] == s[0];
  }

  /** The value of a four-digit string. */
  lemma FourDigits(s: string)
    requires |s| == 4 && AllDigits(s)
    ensures DigitsValue(s) == 1000 * DigitValue(s[0]) + 100 * DigitValue(s[1]) + 10 * DigitValue(s[2]) + DigitValue(s[3])
  {
    assert DigitsValue(s) == DigitsValue(s[..3]) * 10 + DigitValue(s[3]);
    assert s[..3][..2] == s[..2] && s[..3][2] == s[2];
    assert DigitsValue(s[..3]) == DigitsValue(s[..2]) * 10 + DigitValue(s[2]);
    TwoDigits(s[..2]);
  }

  /**
    Opening a DD-MM-YYYY date for editing gives YYYY-MM-DD, and saving that
    turns it back into the same string.
  */
  lemma ConvertRoundTrip(d: string, m: string, y: string)
    requires '-' !in d && '-' !in m && '-' !in y && |y| == 4
    ensures ReverseFields(d + "-" + m + "-" + y) == y + "-" + m + "-" + d
    ensures Handlers.FormatDueDate(ReverseFields(d + "-" + m + "-" + y)) == d + "-" + m + "-" + y
  {
    ReverseFieldsOf(d, m, y);
    Handlers.FormatDueDateIso(y, m, d);
  }

  /** Every real date up to year 9999 renders as a YYYY-MM-DD string `isValidDate` accepts and reads back. */
  lemma IsoRenderAccepted(date: Date)
    requires IsValid(date) && date.year <= 9999
    ensures IsValidIsoDate(RenderIso(date)) && IsoFields(RenderIso(date)) == date
  {
    YearDigits(date.year);
    TwoDigitsOf(date.month);
    TwoDigitsOf(date.day);
    IsoShapeOf(PadLeft(NatToString(date.year), 4, '0'), Pad2(date.month), Pad2(date.day));
  }

  /** A year up to 9999 padded to four places is four digits with that value. */
  lemma YearDigits(n: nat)
    requires n <= 9999
    ensures var y := PadLeft(NatToString(n), 4, '0');
      |y| == 4 && AllDigits(y) && DigitsValue(y) == n
  {
    NatToStringLength(n);
    DigitsValueOfNatToString(n);
    PadZeroValue(NatToString(n), 4);
    PadLeftShape(NatToString(n), 4, '0');
  }

  /** A number below 100 padded to two places is two digits with that value. */
  lemma TwoDigitsOf(n: nat)
    requires n <= 99
    ensures |Pad2(n)| == 2 && AllDigits(Pad2(n)) && DigitsValue(Pad2(n)) == n
  {
    NatToStringLength(n);
    PadTwoValue(n);
    PadLeftShape(NatToString(n), 2, '0');
  }

  /** The numbers read from four, two and two digits joined by '-'. */
  lemma IsoDigits(y: string, m: string, d: string)
    requires |y| == 4 && |m| == 2 && |d| == 2 && AllDigits(y) && AllDigits(m) && AllDigits(d)
    ensures IsoShape(y + "-" + m + "-" + d)
    ensures IsoFields(y + "-" + m + "-" + d) ==
      Date(1000 * DigitValue(y[0]) + 100 * DigitValue(y[1]) + 10 * DigitValue(y[2]) + DigitValue(y[3]),
           10 * DigitValue(m[0]) + DigitValue(m[1]), 10 * DigitValue(d[0]) + DigitValue(d[1]))
  {
    IsoShapeOf(y, m, d);
    FourDigits(y);
    TwoDigits(m);
    TwoDigits(d);
  }

  /** Any YYYY-MM-DD string naming 29 February is accepted exactly in a leap year. */
  lemma IsoLeapDay(s: string)
    requires IsoShape(s) && IsoFields(s).month == 2 && IsoFields(s).day == 29
    ensures IsValidIsoDate(s) <==> IsLeapYear(IsoFields(s).year)
  {
  }

  /** Any YYYY-MM-DD string with a month outside 1..12, or a day past the month's end, is rejected. */
  lemma IsoRejectsOutOfRange(s: string)
    requires IsoShape(s)
    requires IsoFields(s).month == 0 || IsoFields(s).month > 12 ||
      IsoFields(s).day == 0 || IsoFields(s).day > DaysInMonth(IsoFields(s).year, IsoFields(s).month)
    ensures !IsValidIsoDate(s)
  {
  }

  /** Month 13 is rejected. */
  lemma IsoRejectsMonth13()
    ensures !IsValidIsoDate("2024-13-01")
  {
    IsoDigits("2024", "13", "01");
    assert "2024-13-01" == "2024" + "-" + "13" + "-" + "01";
  }

  /** 30 February is rejected. */
  lemma IsoRejectsFebruary30()
    ensures !IsValidIsoDate("2023-02-30")
  {
    IsoDigits("2023", "02", "30");
    assert "2023-02-30" == "2023" + "-" + "02" + "-" + "30";
  }

  /** 29 February is rejected outside a leap year. */
  lemma IsoRejectsFebruary29()
    ensures !IsValidIsoDate("2023-02-29")
  {
    IsoDigits("2023", "02", "29");
    assert "2023-02-29" == "2023" + "-" + "02" + "-" + "29";
  }

  /** 29 February of a leap year is accepted. */
  lemma IsoAcceptsLeapDay()
    ensures IsValidIsoDate("2024-02-29")
  {
    IsoDigits("2024", "02", "29");
    assert "2024-02-29" == "2024" + "-" + "02" + "-" + "29";
  }

  /** One-digit months and DD-MM-YYYY strings do not have the shape. */
  lemma IsoRejectsShape()
    ensures !IsValidIsoDate("2024-2-29")
    ensures !IsValidIsoDate("29-02-2024")
  {
  }

  /**
    The edit form's correction: a valid date before the current year gets
    the current year and keeps month and day; later years and invalid
    strings are left alone.
  */
  lemma CorrectPastYearEffect(s: string, currentYear: nat)
    ensures !IsValidIsoDate(s) ==> CorrectPastYear(s, currentYear) == s
    ensures IsValidIsoDate(s) && IsoFields(s).year >= currentYear ==> CorrectPastYear(s, currentYear) == s
    ensures IsValidIsoDate(s) && IsoFields(s).year < currentYear ==>
      CorrectPastYear(s, currentYear) == NatToString(currentYear) + s[4..]
  {
    if IsValidIsoDate(s) {
      IsoParts(s);
      assert s[4..] == "-" + s[5..7] + "-" + s[8..];
    }
  }

  /**
    For a four-digit current year the corrected string again has the
    YYYY-MM-DD shape, with the current year and the same month and day. It
    is a valid date unless it was 29 February and the current year is not a
    leap year; saving it after touching the date is then refused.
  */
  lemma CorrectPastYearFields(s: string, currentYear: nat)
    requires IsValidIsoDate(s) && IsoFields(s).year < currentYear
    requires 1000 <= currentYear <= 9999
    ensures IsoShape(CorrectPastYear(s, currentYear))
    ensures IsoFields(CorrectPastYear(s, currentYear)) == IsoFields(s).(year := currentYear)
    ensures IsValidIsoDate(CorrectPastYear(s, currentYear)) <==>
      !(IsoFields(s).month == 2 && IsoFields(s).day == 29 && !IsLeapYear(currentYear))
  {
    CorrectPastYearEffect(s, currentYear);
    var y := NatToString(currentYear);
    NatToStringLength(currentYear);
    DigitsValueOfNatToString(currentYear);
    ReplaceYear(y, s);
  }

  /** Putting four other characters in front of the last six of a ten-character string. */
  lemma ReplaceYear(y: string, s: string)
    requires |y| == 4 && |s| == 10
    ensures var r := y + s[4..];
      |r| == 10 && r[..4] == y && r[4] == s[4] && r[7] == s[7] && r[5..7] == s[5..7] && r[8..] == s[8..]
  {
    var r := y + s[4..];
    assert r[..4] == y;
    assert r[5..7] == s[5..7];
    assert r[8..] == s[8..];
  }

  /** Correcting twice is correcting once. */
  lemma CorrectPastYearIdempotent(s: string, currentYear: nat)
    ensures CorrectPastYear(CorrectPastYear(s, currentYear), currentYear) == CorrectPastYear(s, currentYear)
  {
    CorrectPastYearEffect(s, currentYear);
    var r := CorrectPastYear(s, currentYear);
    if r != s {
      CorrectPastYearEffect(r, currentYear);
      if IsValidIsoDate(r) {
        var y := NatToString(currentYear);
        assert r[..|y|] == y;
        assert |y| == 4 by {
          assert r[4] == '-';
          assert r[|y|] == '-';
        }
        assert r[..4] == y;
        DigitsValueOfNatToString(currentYear);
      }
    }
  }

  /**
    The add form's correction on a date with a four-digit year: any year
    other than the current one, earlier or later, is replaced by it, and
    month and day are kept.
  */
  lemma CorrectYearEffect(y: string, m: string, d: string, currentYear: nat)
    requires |y| == 4 && AllDigits(y) && '-' !in m && '-' !in d
    ensures CorrectYear(y + "-" + m + "-" + d, currentYear) ==
      if DigitsValue(y) == currentYear then y + "-" + m + "-" + d
      else NatToString(currentYear) + "-" + m + "-" + d
  {
    assert forall i :: 0 <= i < 4 ==> y[i] != '-';
    SplitThree(y, m, d, '-');
    assert !IsSpace(y[0]) && Unsigned(y) == y;
    assert y + [] == y;
    DigitRunOf(y, []);
    assert y[..DigitRun(y)] == y;
  }

  /** After the add form's correction the year field reads as the current year, so correcting again changes nothing. */
  lemma CorrectYearIdempotent(s: string, currentYear: nat)
    ensures CorrectYear(CorrectYear(s, currentYear), currentYear) == CorrectYear(s, currentYear)
  {
    var r := CorrectYear(s, currentYear);
    if r != s {
      var parts := Split(s, '-');
      var m := Part(parts, 1);
      var d := Part(parts, 2);
      var y := NatToString(currentYear);
      assert r == y + "-" + m + "-" + d;
      assert '-' !in y by {
        assert forall i :: 0 <= i < |y| ==> y[i] != '-';
      }
      assert '-' !in m && '-' !in d by {
        if 1 < |parts| { assert m == parts[1]; } else { assert m == "undefined"; }
        if 2 < |parts| { assert d == parts[2]; } else { assert d == "undefined"; }
      }
      SplitThree(y, m, d, '-');
      ParseIntRendered(currentYear);
    }
  }

  // ---------------------------------------------------------------------
  // Properties of the two handlers

  /** A completed task cannot be opened for editing, so no save of it can follow. */
  lemma CompletedNotEditable(task: Task, interacted: bool)
    requires task.completed
    ensures SaveEdit(StartEdit(task), interacted) == NotEditing
  {
  }

  /**
    Saving succeeds exactly when the date passes the touched-date check, the
    title, date and hours are filled in and the hours read as a number of at
    least 0; the saved task is the draft with its date turned back into
    DD-MM-YYYY and its hours as a number. Refusals name the first failed check.
  */
  lemma SaveEditRule(d: Draft, interacted: bool)
    ensures var r := SaveEdit(Some(d), interacted);
      var t := d.task;
      r.Saved? <==>
        (interacted ==> IsValidIsoDate(t.dueDate)) && t.title != "" && t.dueDate != "" &&
        d.hours != HoursText("") && AcceptedHours(HoursValue(d.hours))
    ensures var r := SaveEdit(Some(d), interacted);
      r.Saved? ==>
        r.update.id == d.task.id && r.update.title == d.task.title &&
        r.update.dueDate == Handlers.FormatDueDate(d.task.dueDate) &&
        r.update.completed == d.task.completed && r.update.priority == d.task.priority &&
        Num(false, r.update.hours) == HoursValue(d.hours)
    ensures interacted && !IsValidIsoDate(d.task.dueDate) ==> SaveEdit(Some(d), interacted) == Refused(InvalidDate)
    ensures !interacted && (d.task.title == "" || d.task.dueDate == "" || d.hours == HoursText("")) ==>
      SaveEdit(Some(d), interacted) == Refused(MissingField)
  {
  }

  /** Until the date field is touched any non-empty date string passes; the date check never runs. */
  lemma UntouchedDateNotChecked(d: Draft)
    requires d.task.title != "" && d.task.dueDate != "" && d.hours.HoursNumber?
    ensures SaveEdit(Some(d), false).Saved?
  {
  }

  /** Typed zero hours are accepted and saved as 0. */
  lemma SaveEditZeroHours(d: Draft)
    requires d.task.title != "" && d.task.dueDate != ""
    ensures SaveEdit(Some(d.(hours := HoursText("0"))), false) ==
      Saved(d.task.(dueDate := Handlers.FormatDueDate(d.task.dueDate), hours := 0))
  {
    ParseFloatInteger("0");
  }

  /** A negative number of hours is refused. */
  lemma SaveEditNegativeHours(d: Draft, a: string)
    requires a != [] && AllDigits(a) && !AllZeros(a)
    ensures SaveEdit(Some(d.(hours := HoursText("-" + a))), false).Refused?
  {
    ParseFloatNegative(a);
  }

  /** Hours that do not start like a number are refused. */
  lemma SaveEditTextHours(d: Draft, text: string)
    requires text != [] && !IsSpace(text[0]) && !IsDigit(text[0]) && text[0] != '-' && text[0] != '+' && text[0] != '.'
    ensures SaveEdit(Some(d.(hours := HoursText(text))), false).Refused?
  {
    ParseFloatText(text);
  }

  /**
    Opening an incomplete DD-MM-YYYY task for editing and saving it untouched
    yields exactly the task that was opened.
  */
  lemma EditRoundTrip(task: Task, d: string, m: string, y: string)
    requires !task.completed && task.title != ""
    requires task.dueDate == d + "-" + m + "-" + y
    requires '-' !in d && '-' !in m && '-' !in y && |y| == 4
    ensures SaveEdit(StartEdit(task), false) == Saved(task)
  {
    ConvertRoundTrip(d, m, y);
  }

  /** Writing back a task equal to every task carrying its id leaves the profile as it is. */
  lemma UpdateUnchangedTask(p: Handlers.Profile, task: Task)
    requires forall k :: 0 <= k < |p.tasks| && p.tasks[k].id == task.id ==> p.tasks[k] == task
    ensures Handlers.UpdateTask(p, task) == p
  {
    assert Handlers.ReplaceById(p.tasks, task) == p.tasks;
  }

  /**
    Adding succeeds exactly when title, date and hours are non-empty and the
    hours read as a number of at least 0; the task passed on carries the
    form's fields and the numeric hours, and the form returns to its defaults.
  */
  lemma SubmitAddRule(f: Form)
    ensures SubmitAdd(f).Added? <==>
      f.title != "" && f.dueDate != "" && f.hours != "" && AcceptedHours(ParseFloat(f.hours))
    ensures (f.title == "" || f.dueDate == "" || f.hours == "") ==> SubmitAdd(f) == AddRefused(MissingField)
    ensures SubmitAdd(f).Added? ==>
      var nt := SubmitAdd(f).task;
      nt.title == f.title && nt.dueDate == f.dueDate && nt.priority == f.priority &&
      nt.completed == f.completed && Num(false, nt.hours) == ParseFloat(f.hours) &&
      SubmitAdd(f).form == EmptyForm
  {
  }

  /** "0" hours is not an empty field: the task is added with zero hours. */
  lemma SubmitAddZeroHours(f: Form)
    requires f.title != "" && f.dueDate != "" && f.hours == "0"
    ensures SubmitAdd(f) == Added(Handlers.NewTask(f.title, f.dueDate, f.priority, f.completed, 0), EmptyForm)
  {
    assert HundredthsToString(0) == "0";
    SubmitAddRenderedHours(f, 0);
  }

  /** Hours written as a rendered number are passed on as that number. */
  lemma SubmitAddRenderedHours(f: Form, h: nat)
    requires f.title != "" && f.dueDate != "" && f.hours == HundredthsToString(h)
    ensures SubmitAdd(f) == Added(Handlers.NewTask(f.title, f.dueDate, f.priority, f.completed, h), EmptyForm)
  {
    ParseFloatRendered(h);
  }
}
