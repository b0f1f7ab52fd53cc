/**
  The per-date study-hours log kept in `studyStats.studyHoursLog`: one entry
  per DD-MM-YYYY date with the hours (in hundredths) studied that day.
*/
module StudyLog {
  import opened Text

  datatype LogEntry = LogEntry(date: string, hours: nat)

  predicate HasDate(log: seq<LogEntry>, date: string)
  {
    exists i :: 0 <= i < |log| && log[i].date == date
  }

  /** No date appears twice. */
  predicate UniqueDates(log: seq<LogEntry>)
  {
    forall i, j :: 0 <= i < j < |log| ==> log[i].date != log[j].date
  }

  /** Every entry holds some hours. */
  predicate AllPositive(log: seq<LogEntry>)
  {
    forall i :: 0 <= i < |log| ==> log[i].hours > 0
  }

  function TotalHours(log: seq<LogEntry>): nat
  {
    if log == [] then 0 else TotalHours(log[..|log| - 1]) + log[|log| - 1].hours
  }

  /** `log.find(l => l.date === date)`: the index of the first entry for the date. */
  function FirstWithDate(log: seq<LogEntry>, date: string): (r: Option<nat>)
    ensures r.None? <==> !HasDate(log, date)
    ensures r.Some? ==> r.value < |log| && log[r.value].date == date &&
                        forall j :: 0 <= j < r.value ==> log[j].date != date
  {
    if log == [] then None
    else if log[0].date == date then Some(0)
    else match FirstWithDate(log[1..], date)
      case None => None
      case Some(k) => Some(k + 1)
  }

  /** `log.map(l => l.date === date ? { ...l, hours: l.hours + h } : l)`. */
  function AddToDate(log: seq<LogEntry>, date: string, h: nat): (r: seq<LogEntry>)
    ensures |r| == |log|
    ensures forall i :: 0 <= i < |log| ==>
      r[i] == if log[i].date == date then log[i].(hours := log[i].hours + h) else log[i]
  {
    seq(|log|, i requires 0 <= i < |log| =>
      if log[i].date == date then log[i].(hours := log[i].hours + h) else log[i])
  }

  /** `log.map(l => l.date === date ? { ...l, hours: v } : l)`. */
  function SetDate(log: seq<LogEntry>, date: string, v: nat): (r: seq<LogEntry>)
    ensures |r| == |log|
    ensures forall i :: 0 <= i < |log| ==>
      r[i] == if log[i].date == date then log[i].(hours := v) else log[i]
  {
    seq(|log|, i requires 0 <= i < |log| =>
      if log[i].date == date then log[i].(hours := v) else log[i])
  }

  /** `log.filter(l => l.hours > 0)`. */
  function DropEmpty(log: seq<LogEntry>): (r: seq<LogEntry>)
    ensures AllPositive(r)
    ensures |r| <= |log|
    ensures forall k :: 0 <= k < |r| ==> r[k] in log
  {
    if log == [] then []
    else
      var init := DropEmpty(log[..|log| - 1]);
      assert log == log[..|log| - 1] + [log[|log| - 1]];
      if log[|log| - 1].hours > 0 then init + [log[|log| - 1]] else init
  }

  /**
    The log update of `logStudyHours`: add `h` to the entry for `date`, or
    append a new entry when there is none.
  */
  function AddHours(log: seq<LogEntry>, date: string, h: nat): seq<LogEntry>
  {
    if HasDate(log, date) then AddToDate(log, date, h) else log + [LogEntry(date, h)]
  }

  /**
    The log update of `deductStudyHours`: when an entry for `date` exists,
    every entry for it is set to the first one's hours minus `h`, clamped at
    0, and then every empty entry is dropped; without one the log is kept.
  */
  function DeductHours(log: seq<LogEntry>, date: string, h: nat): seq<LogEntry>
  {
    match FirstWithDate(log, date)
    case None => log
    case Some(i) =>
      DropEmpty(SetDate(log, date, Clamped(log[i].hours, h)))
  }

  /** `Math.max(0, hours - h)`. */
  function Clamped(hours: nat, h: nat): (r: nat)
    ensures r == 0 <==> hours <= h
    ensures hours > h ==> r == hours - h
  {
    if hours >= h then hours - h else 0
  }

  // ---------------------------------------------------------------------
  // Properties

  /** Adding hours keeps dates unique. */
  lemma AddHoursUnique(log: seq<LogEntry>, date: string, h: nat)
    requires UniqueDates(log)
    ensures UniqueDates(AddHours(log, date, h))
  {
  }

  /** After adding, the date has exactly one entry holding the old hours plus `h`; other entries are untouched. */
  lemma AddHoursEntry(log: seq<LogEntry>, date: string, h: nat)
    requires UniqueDates(log)
    ensures var r := AddHours(log, date, h);
      HasDate(r, date) &&
      r[FirstWithDate(r, date).value].hours ==
        (if HasDate(log, date) then log[FirstWithDate(log, date).value].hours + h else h)
    ensures var r := AddHours(log, date, h);
      forall i :: 0 <= i < |log| && log[i].date != date ==> r[i] == log[i]
  {
    var r := AddHours(log, date, h);
    if !HasDate(log, date) {
      assert r[|log|].date == date;
      var k := FirstWithDate(r, date).value;
      assert k == |log|;
    } else {
      var i := FirstWithDate(log, date).value;
      assert r[i].date == date;
      var k := FirstWithDate(r, date).value;
      assert k == i;
    }
  }

  lemma {:induction false} TotalHoursAppend(log: seq<LogEntry>, e: LogEntry)
    ensures TotalHours(log + [e]) == TotalHours(log) + e.hours
  {
    assert (log + [e])[..|log + [e]| - 1] == log;
  }

  /** Giving one entry `h` more hours raises the total by `h`. */
  lemma {:induction false} TotalHoursBump(log: seq<LogEntry>, r: seq<LogEntry>, k: nat, h: nat)
    requires |r| == |log| && k < |log|
    requires r[k] == log[k].(hours := log[k].hours + h)
    requires forall i :: 0 <= i < |log| && i != k ==> r[i] == log[i]
    ensures TotalHours(r) == TotalHours(log) + h
    decreases |log|
  {
    var n := |log| - 1;
    if k == n {
      assert r[..n] == log[..n];
    } else {
      TotalHoursBump(log[..n], r[..n], k, h);
    }
  }

  /** With unique dates the total grows by exactly the added hours. */
  lemma AddHoursTotal(log: seq<LogEntry>, date: string, h: nat)
    requires UniqueDates(log)
    ensures TotalHours(AddHours(log, date, h)) == TotalHours(log) + h
  {
    if HasDate(log, date) {
      var k := FirstWithDate(log, date).value;
      TotalHoursBump(log, AddHours(log, date, h), k, h);
    } else {
      TotalHoursAppend(log, LogEntry(date, h));
    }
  }

  /** Dropping empty entries from an all-positive log keeps it. */
  lemma {:induction false} DropEmptyPositive(log: seq<LogEntry>)
    requires AllPositive(log)
    ensures DropEmpty(log) == log
    decreases |log|
  {
    if log != [] {
      var n := |log| - 1;
      assert AllPositive(log[..n]) by {
        forall i | 0 <= i < n ensures log[..n][i].hours > 0 {
          assert log[..n][i] == log[i];
        }
      }
      DropEmptyPositive(log[..n]);
      assert log[n].hours > 0;
      assert DropEmpty(log) == DropEmpty(log[..n]) + [log[n]];
      assert log == log[..n] + [log[n]];
    }
  }

  /** Filtering keeps dates unique. */
  lemma {:induction false} DropEmptyUnique(log: seq<LogEntry>)
    requires UniqueDates(log)
    ensures UniqueDates(DropEmpty(log))
    decreases |log|
  {
    if log != [] {
      var n := |log| - 1;
      var init := DropEmpty(log[..n]);
      DropEmptyUnique(log[..n]);
      forall k | 0 <= k < |init| ensures init[k].date != log[n].date {
        assert init[k] in log[..n];
      }
    }
  }

  /** Deducting keeps dates unique. */
  lemma DeductHoursUnique(log: seq<LogEntry>, date: string, h: nat)
    requires UniqueDates(log)
    ensures UniqueDates(DeductHours(log, date, h))
  {
    var f := FirstWithDate(log, date);
    if f.Some? {
      var i := f.value;
      var left := Clamped(log[i].hours, h);
      DeductHoursAt(log, date, h, i);
      SetDropUnique(log, date, left);
    }
  }

  /** With an entry for the date, the deduction is the clamped set followed by the filter. */
  lemma DeductHoursAt(log: seq<LogEntry>, date: string, h: nat, i: nat)
    requires FirstWithDate(log, date) == Some(i)
    ensures DeductHours(log, date, h) ==
      DropEmpty(SetDate(log, date, Clamped(log[i].hours, h)))
  {
  }

  lemma SetDropUnique(log: seq<LogEntry>, date: string, v: nat)
    requires UniqueDates(log)
    ensures UniqueDates(DropEmpty(SetDate(log, date, v)))
  {
    SetDateUnique(log, date, v);
    DropEmptyUnique(SetDate(log, date, v));
  }

  /** Setting the hours of a date keeps every date where it was. */
  lemma SetDateUnique(log: seq<LogEntry>, date: string, v: nat)
    requires UniqueDates(log)
    ensures UniqueDates(SetDate(log, date, v))
  {
    var m := SetDate(log, date, v);
    forall i, j | 0 <= i < j < |m| ensures m[i].date != m[j].date {
      assert m[i].date == log[i].date && m[j].date == log[j].date;
    }
  }

  /** A deduction for a date without an entry leaves the log as it is. */
  lemma DeductMissingDate(log: seq<LogEntry>, date: string, h: nat)
    requires !HasDate(log, date)
    ensures DeductHours(log, date, h) == log
  {
  }

  /** After a deduction every entry is positive and none is new. */
  lemma DeductHoursShape(log: seq<LogEntry>, date: string, h: nat)
    requires HasDate(log, date)
    ensures AllPositive(DeductHours(log, date, h))
    ensures forall e :: e in DeductHours(log, date, h) && e.date != date ==> e in log
  {
    var i := FirstWithDate(log, date).value;
    var left := Clamped(log[i].hours, h);
    var m := SetDate(log, date, left);
    var r := DropEmpty(m);
    forall e | e in r && e.date != date ensures e in log {
      var j :| 0 <= j < |r| && r[j] == e;
      assert e in m;
      var k :| 0 <= k < |m| && m[k] == e;
      assert log[k] == e;
    }
  }

  /** The first entry for the date drops by `h`, clamped at 0 (it disappears at 0). */
  lemma DeductHoursEntry(log: seq<LogEntry>, date: string, h: nat, i: nat)
    requires FirstWithDate(log, date) == Some(i)
    ensures log[i].hours > h ==> LogEntry(date, log[i].hours - h) in DeductHours(log, date, h)
    ensures log[i].hours <= h ==> !HasDate(DeductHours(log, date, h), date)
  {
    var left := Clamped(log[i].hours, h);
    var m := SetDate(log, date, left);
    if log[i].hours > h {
      assert m[i] == LogEntry(date, left);
      KeptIfPositive(m, i);
    } else {
      SetDateHours(log, date, left);
      NoDateAfterDrop(m, date);
    }
    DeductHoursAt(log, date, h, i);
  }

  /** Every entry for the date holds the set value afterwards. */
  lemma SetDateHours(log: seq<LogEntry>, date: string, v: nat)
    ensures forall e :: e in SetDate(log, date, v) && e.date == date ==> e.hours == v
  {
    var m := SetDate(log, date, v);
    forall e | e in m && e.date == date ensures e.hours == v {
      var k :| 0 <= k < |m| && m[k] == e;
    }
  }

  /** A positive entry survives the filter. */
  lemma {:induction false} KeptIfPositive(m: seq<LogEntry>, i: nat)
    requires i < |m| && m[i].hours > 0
    ensures m[i] in DropEmpty(m)
    decreases |m|
  {
    var n := |m| - 1;
    assert m == m[..n] + [m[n]];
    if i < n {
      KeptIfPositive(m[..n], i);
      assert m[..n][i] == m[i];
    }
  }

  lemma NoDateAfterDrop(m: seq<LogEntry>, date: string)
    requires forall e :: e in m && e.date == date ==> e.hours == 0
    ensures !HasDate(DropEmpty(m), date)
  {
    var r := DropEmpty(m);
    forall k | 0 <= k < |r| ensures r[k].date != date {
      assert r[k] in m;
    }
  }

  /**
    Deducting what was just added restores the log, when dates are unique
    and every entry is positive.
  */
  lemma DeductAfterAdd(log: seq<LogEntry>, date: string, h: nat)
    requires UniqueDates(log) && AllPositive(log) && h > 0
    ensures DeductHours(AddHours(log, date, h), date, h) == log
  {
    var a := AddHours(log, date, h);
    if HasDate(log, date) {
      var i := FirstWithDate(log, date).value;
      assert FirstWithDate(a, date) == Some(i) by {
        assert a[i].date == date;
      }
      var m := SetDate(a, date, log[i].hours);
      assert m == log by {
        forall k | 0 <= k < |log| ensures m[k] == log[k] {
          if log[k].date == date {
            assert k == i;
          }
        }
      }
      DropEmptyPositive(log);
    } else {
      assert FirstWithDate(a, date) == Some(|log|) by {
        assert a[|log|].date == date;
      }
      var m := SetDate(a, date, 0);
      assert m == log + [LogEntry(date, 0)];
      DropEmptyPositive(log);
      assert DropEmpty(m) == DropEmpty(log) by {
        assert m[..|m| - 1] == log;
      }
    }
  }
}
