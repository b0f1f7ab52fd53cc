/**
  Calendar dates. The client renders "today" as DD-MM-YYYY
  (`getLocalDateString`), the HTML date input and the server use YYYY-MM-DD,
  and date differences go through JavaScript's `new Date(y, m - 1, d)`. Here
  a date is a (year, month, day) triple and a difference is a difference of
  day numbers (days since 1 January 1970).
*/
module Dates {
  import opened Text

  datatype Date = Date(year: nat, month: nat, day: nat)

  predicate IsLeapYear(y: int)
  {
    (y % 4 == 0 && y % 100 != 0) || y % 400 == 0
  }

  function DaysInMonth(y: int, m: int): nat
  {
    if m == 2 then (if IsLeapYear(y) then 29 else 28)
    else if m == 4 || m == 6 || m == 9 || m == 11 then 30
    else 31
  }

  /** A real calendar date. */
  predicate IsValid(d: Date)
  {
    1 <= d.month <= 12 && 1 <= d.day <= DaysInMonth(d.year, d.month)
  }

  /**
    Days from 1 January 1970 to the proleptic Gregorian date (y, m, d). As in
    JavaScript's Date constructor a month outside 1..12 carries into the year
    and a day outside the month carries into the neighbouring months.
  */
  function DaysFromCivil(y: int, m: int, d: int): int
  {
    var mi := m - 1;
    var yy := y + mi / 12;
    var mm := mi % 12 + 1;
    var ya := if mm <= 2 then yy - 1 else yy;
    var era := ya / 400;
    var yoe := ya - era * 400;
    var mp := (mm + 9) % 12;
    var doy := (153 * mp + 2) / 5 + d - 1;
    var doe := yoe * 365 + yoe / 4 - yoe / 100 + doy;
    era * 146097 + doe - 719468
  }

  /** The day number of a date. */
  function DayNumber(d: Date): int
  {
    DaysFromCivil(d.year, d.month, d.day)
  }

  /**
    The day of `new Date(year, month - 1, day)` for numeric components: the
    constructor reads a year 0..99 as 1900..1999.
  */
  function JsLocalDay(y: int, m: int, d: int): int
  {
    DaysFromCivil(if 0 <= y <= 99 then 1900 + y else y, m, d)
  }

  lemma EpochIsDayZero()
    ensures DaysFromCivil(1970, 1, 1) == 0
  {
  }

  /** The next day of the month is the next day number. */
  lemma NextDayInMonth(d: Date)
    ensures DayNumber(d.(day := d.day + 1)) == DayNumber(d) + 1
  {
  }

  // ---------------------------------------------------------------------
  // Rendering and parsing

  function Pad2(n: nat): string
  {
    PadLeft(NatToString(n), 2, '0')
  }

  /** `getLocalDateString`: DD-MM-YYYY with a two-digit day and month. */
  function RenderDmy(d: Date): string
  {
    Pad2(d.day) + "-" + Pad2(d.month) + "-" + NatToString(d.year)
  }

  /** The date part of `toISOString()`: YYYY-MM-DD. */
  function RenderIso(d: Date): string
  {
    PadLeft(NatToString(d.year), 4, '0') + "-" + Pad2(d.month) + "-" + Pad2(d.day)
  }

  /**
    The first three '-' fields in reverse order, "" for "": both
    `convertToHTMLDateFormat` of TaskList.jsx (DD-MM-YYYY to YYYY-MM-DD) and
    `formatDateForDisplay` of ProductivitySnapshot.jsx (YYYY-MM-DD to
    DD-MM-YYYY) are this. The `formatDateForDisplay` of TaskList.jsx returns
    its input unchanged and is not this function.
  */
  function ReverseFields(s: string): (r: string)
    ensures r == "" <==> s == ""
  {
    if s == "" then ""
    else
      var parts := Split(s, '-');
      Part(parts, 2) + "-" + Part(parts, 1) + "-" + Part(parts, 0)
  }

  /** Reversing three fields without '-' swaps the outer two, so reversing twice restores them. */
  lemma ReverseFieldsOf(a: string, b: string, c: string)
    requires '-' !in a && '-' !in b && '-' !in c
    ensures ReverseFields(a + "-" + b + "-" + c) == c + "-" + b + "-" + a
    ensures ReverseFields(ReverseFields(a + "-" + b + "-" + c)) == a + "-" + b + "-" + c
  {
    SplitThree(a, b, c, '-');
    SplitThree(c, b, a, '-');
  }

  /**
    For a four-digit year the two renderings turn into each other:
    DD-MM-YYYY opens in the date input as YYYY-MM-DD, and YYYY-MM-DD is
    displayed as DD-MM-YYYY.
  */
  lemma ReverseRendered(date: Date)
    requires 1000 <= date.year <= 9999
    ensures ReverseFields(RenderDmy(date)) == RenderIso(date)
    ensures ReverseFields(RenderIso(date)) == RenderDmy(date)
  {
    NoDashInNumber(date.day);
    NoDashInNumber(date.month);
    NoDashInNumber(date.year);
    NatToStringLength(date.year);
    assert PadLeft(NatToString(date.year), 4, '0') == NatToString(date.year);
    ReverseFieldsOf(Pad2(date.day), Pad2(date.month), NatToString(date.year));
  }

  /** Parse "D-M-Y" with three non-empty digit fields. */
  function ParseDmy(s: string): Option<Date>
  {
    var parts := Split(s, '-');
    if |parts| == 3 && parts[0] != "" && parts[1] != "" && parts[2] != "" &&
       AllDigits(parts[0]) && AllDigits(parts[1]) && AllDigits(parts[2])
    then Some(Date(DigitsValue(parts[2]), DigitsValue(parts[1]), DigitsValue(parts[0])))
    else None
  }

  lemma NoDashInNumber(n: nat)
    ensures '-' !in NatToString(n) && '-' !in Pad2(n)
    ensures NatToString(n) != "" && Pad2(n) != ""
    ensures AllDigits(Pad2(n))
  {
    var s := NatToString(n);
    var p := Pad2(n);
    assert forall i :: 0 <= i < |s| ==> s[i] != '-';
    PadTwoValue(n);
    assert forall i :: 0 <= i < |p| ==> p[i] != '-';
  }

  /** The rendered DD-MM-YYYY string reads back as the same date. */
  lemma ParseRenderDmy(d: Date)
    ensures ParseDmy(RenderDmy(d)) == Some(d)
  {
    NoDashInNumber(d.day);
    NoDashInNumber(d.month);
    NoDashInNumber(d.year);
    SplitThree(Pad2(d.day), Pad2(d.month), NatToString(d.year), '-');
    PadTwoValue(d.day);
    PadTwoValue(d.month);
    DigitsValueOfNatToString(d.year);
  }

  /** Distinct dates render differently, so comparing rendered strings compares dates. */
  lemma RenderDmyInjective(a: Date, b: Date)
    ensures RenderDmy(a) == RenderDmy(b) <==> a == b
  {
    if RenderDmy(a) == RenderDmy(b) {
      ParseRenderDmy(a);
      ParseRenderDmy(b);
    }
  }

  /** A date with a four-digit year renders as ten characters, dashes at 2 and 5. */
  lemma RenderDmyShape(d: Date)
    requires IsValid(d) && 1000 <= d.year <= 9999
    ensures var r := RenderDmy(d); |r| == 10 && r[2] == '-' && r[5] == '-'
  {
    NatToStringLength(d.day);
    NatToStringLength(d.month);
    NatToStringLength(d.year);
    var a := Pad2(d.day);
    var b := Pad2(d.month);
    var y := NatToString(d.year);
    assert |a| == 2 && |b| == 2 && |y| == 4;
    var r := a + "-" + b + "-" + y;
    assert RenderDmy(d) == r;
    assert r[2] == '-' && r[5] == '-';
  }

  /**
    `Number(part)` for the fields the app writes into a date: "" is 0, digits
    are read, and any other such field (letters, "undefined") is NaN. Forms
    such as " 5", "+5", "5.0" or "0x5", which `Number` also reads, never
    occur in those fields and are not modelled.
  */
  function JsNumber(s: string): Option<nat>
  {
    if s == "" then Some(0) else if AllDigits(s) then Some(DigitsValue(s)) else None
  }

  /**
    The day of `new Date(year, month - 1, day)` after `const [day, month, year]
    = s.split('-')`; None where the Date would be invalid (a missing or
    non-numeric field).
  */
  function DmyKey(s: string): Option<int>
  {
    var parts := Split(s, '-');
    if |parts| < 3 then None
    else match (JsNumber(parts[0]), JsNumber(parts[1]), JsNumber(parts[2]))
      case (Some(d), Some(m), Some(y)) => Some(JsLocalDay(y, m, d))
      case _ => None
  }

  /** The key of a rendered date is its day number (for years from 100 on). */
  lemma DmyKeyOfRender(d: Date)
    requires d.year >= 100
    ensures DmyKey(RenderDmy(d)) == Some(DayNumber(d))
  {
    NoDashInNumber(d.day);
    NoDashInNumber(d.month);
    NoDashInNumber(d.year);
    SplitThree(Pad2(d.day), Pad2(d.month), NatToString(d.year), '-');
    PadTwoValue(d.day);
    PadTwoValue(d.month);
    DigitsValueOfNatToString(d.year);
  }
}
