/**
  String helpers shared by the client and the server model: decimal rendering
  of numbers the way JavaScript's template literals print them, substring
  search and first-occurrence replacement (the regex and `includes` steps of
  the source), `split`/`join`, `trim`, ASCII `toLowerCase` and the string
  order of JavaScript's `<`.
*/
module Text {

  datatype Option<T> = None | Some(value: T)

  // ---------------------------------------------------------------------
  // Digits and decimal numbers

  predicate IsDigit(c: char) { '0' <= c <= '9' }

  predicate AllDigits(s: string) { forall i :: 0 <= i < |s| ==> IsDigit(s[i]) }

  function DigitChar(d: nat): (c: char)
    requires d < 10
    ensures IsDigit(c) && DigitValue(c) == d
  {
    (('0' as int) + d) as char
  }

  function DigitValue(c: char): nat
    requires IsDigit(c)
  {
    (c as int) - ('0' as int)
  }

  /** `String(n)` for a natural number: shortest decimal, no leading zero. */
  function NatToString(n: nat): (r: string)
    ensures |r| > 0 && AllDigits(r)
    ensures (r[0] == '0') == (n == 0)
    decreases n
  {
    if n < 10 then [DigitChar(n)] else NatToString(n / 10) + [DigitChar(n % 10)]
  }

  /** The value of a string of decimal digits (what `parseInt` reads from it). */
  function DigitsValue(s: string): nat
    requires AllDigits(s)
  {
    if s == [] then 0 else DigitsValue(s[..|s| - 1]) * 10 + DigitValue(s[|s| - 1])
  }

  lemma {:induction false} DigitsValueOfNatToString(n: nat)
    ensures DigitsValue(NatToString(n)) == n
    decreases n
  {
    if n >= 10 {
      var r := NatToString(n);
      assert r[..|r| - 1] == NatToString(n / 10);
      DigitsValueOfNatToString(n / 10);
    }
  }

  /** A leading zero does not change the value of a digit string. */
  lemma {:induction false} DigitsValueLeadingZero(s: string)
    requires AllDigits(s)
    ensures AllDigits("0" + s) && DigitsValue("0" + s) == DigitsValue(s)
    decreases |s|
  {
    if s != [] {
      var t := "0" + s;
      assert t[..|t| - 1] == "0" + s[..|s| - 1];
      DigitsValueLeadingZero(s[..|s| - 1]);
    }
  }

  lemma {:induction false} NatToStringLength(n: nat)
    ensures n < 10 ==> |NatToString(n)| == 1
    ensures 10 <= n < 100 ==> |NatToString(n)| == 2
    ensures 100 <= n < 1000 ==> |NatToString(n)| == 3
    ensures 1000 <= n < 10000 ==> |NatToString(n)| == 4
  {
    if 10 <= n < 10000 { NatToStringLength(n / 10); }
  }

  /** `String(x).padStart(width, c)`. */
  function PadLeft(s: string, width: nat, c: char): string
  {
    if |s| >= width then s else seq(width - |s|, _ => c) + s
  }

  /**
    The padded string is `width` long (or `s` when that is longer already),
    ends with `s` and is filled with `c` before it.
  */
  lemma PadLeftShape(s: string, width: nat, c: char)
    ensures var r := PadLeft(s, width, c);
      |r| == (if |s| >= width then |s| else width) &&
      r[|r| - |s|..] == s &&
      forall i :: 0 <= i < |r| - |s| ==> r[i] == c
  {
  }

  /** `padStart(2, "0")` of a rendered number keeps its value. */
  lemma PadTwoValue(n: nat)
    ensures AllDigits(PadLeft(NatToString(n), 2, '0'))
    ensures DigitsValue(PadLeft(NatToString(n), 2, '0')) == n
  {
    var s := NatToString(n);
    DigitsValueOfNatToString(n);
    if |s| < 2 {
      assert PadLeft(s, 2, '0') == "0" + s;
      DigitsValueLeadingZero(s);
    }
  }

  /** Zero padding on the left keeps a digit string's value. */
  lemma {:induction false} PadZeroValue(s: string, w: nat)
    requires AllDigits(s)
    ensures AllDigits(PadLeft(s, w, '0')) && DigitsValue(PadLeft(s, w, '0')) == DigitsValue(s)
    decreases w - |s|
  {
    if |s| < w {
      var shorter := PadLeft(s, w - 1, '0');
      assert PadLeft(s, w, '0') == "0" + shorter;
      PadZeroValue(s, w - 1);
      DigitsValueLeadingZero(shorter);
    }
  }

  /**
    JavaScript's rendering of the number h/100 (h in hundredths): the integer
    part, then "." and one or two fraction digits unless they are zero.
  */
  function HundredthsToString(h: nat): (r: string)
    ensures |r| > 0
  {
    NatToString(h / 100) + FractionText(h % 100)
  }

  /** The fraction part of a rendered number for `f` hundredths: "", ".d" or ".dd". */
  function FractionText(f: nat): (r: string)
    requires f < 100
    ensures r == [] || (r[0] == '.' && AllDigits(r[1..]) && 0 < |r[1..]| <= 2)
  {
    if f == 0 then ""
    else if f % 10 == 0 then ['.', DigitChar(f / 10)]
    else ['.', DigitChar(f / 10), DigitChar(f % 10)]
  }

  // ---------------------------------------------------------------------
  // parseInt and parseFloat

  /** The length of the run of decimal digits at the front of `s`. */
  function DigitRun(s: string): (n: nat)
    ensures n <= |s| && AllDigits(s[..n])
    ensures n < |s| ==> !IsDigit(s[n])
  {
    if s == [] || !IsDigit(s[0]) then 0
    else
      var k := DigitRun(s[1..]);
      assert s[..k + 1] == [s[0]] + s[1..][..k];
      k + 1
  }

  /** A digit string followed by a non-digit (or nothing) is read up to its end. */
  lemma {:induction false} DigitRunOf(a: string, b: string)
    requires AllDigits(a) && (b == [] || !IsDigit(b[0]))
    ensures DigitRun(a + b) == |a|
    decreases |a|
  {
    if a != [] {
      assert (a + b)[1..] == a[1..] + b;
      DigitRunOf(a[1..], b);
    }
  }

  /** The sign and digits `parseInt` and `parseFloat` read after leading white space. */
  function Unsigned(s: string): (u: string)
    ensures |u| <= |s|
  {
    var t := TrimStart(s);
    if t != [] && (t[0] == '-' || t[0] == '+') then t[1..] else t
  }

  predicate IsNegativeSign(s: string)
  {
    var t := TrimStart(s);
    t != [] && t[0] == '-'
  }

  /**
    `parseInt(s, 10)`: the leading digits with their sign, None for NaN.
    Without a radix `parseInt` also reads a "0x" prefix as hexadecimal; the
    strings read here (the digits the server's streak pattern captures and
    the year field of a date input) never start that way, so only the decimal reading is modelled.
  */
  function JsParseInt(s: string): (r: Option<int>)
    ensures r.Some? <==> DigitRun(Unsigned(s)) > 0
  {
    var u := Unsigned(s);
    var k := DigitRun(u);
    var v: int := DigitsValue(u[..k]);
    if k == 0 then None
    else if IsNegativeSign(s) then Some(-v)
    else Some(v)
  }

  /** `parseInt` reads a rendered natural number back. */
  lemma ParseIntRendered(n: nat)
    ensures JsParseInt(NatToString(n)) == Some(n)
  {
    var s := NatToString(n);
    assert !IsSpace(s[0]);
    assert Unsigned(s) == s && !IsNegativeSign(s);
    assert s + [] == s;
    DigitRunOf(s, []);
    assert s[..DigitRun(s)] == s;
    DigitsValueOfNatToString(n);
  }

  /** A number as `parseFloat` returns it, to hundredths: NaN, or a sign and a magnitude. */
  datatype JsFloat = NaN | Num(negative: bool, hundredths: nat)

  predicate AllZeros(s: string) { forall i :: 0 <= i < |s| ==> s[i] == '0' }

  /** The first two fraction digits as hundredths; later digits are dropped. */
  function FracHundredths(f: string): (r: nat)
    requires AllDigits(f)
    ensures r < 100
  {
    if |f| == 0 then 0
    else if |f| == 1 then 10 * DigitValue(f[0])
    else 10 * DigitValue(f[0]) + DigitValue(f[1])
  }

  /** The fraction digits after a leading '.', if any. */
  function FracDigits(rest: string): (f: string)
    ensures AllDigits(f)
  {
    if rest != [] && rest[0] == '.' then rest[1..][..DigitRun(rest[1..])] else ""
  }

  /**
    `parseFloat(s)` for decimal notation: white space, a sign, digits, and a
    '.' with more digits; NaN when neither digit run is there. The value is
    kept to hundredths; `negative` says whether it is below zero, which takes
    any non-zero digit, kept or dropped.
  */
  function ParseFloat(s: string): (r: JsFloat)
  {
    var (whole, frac) := ReadDecimal(Unsigned(s));
    if whole == [] && frac == [] then NaN
    else Num(IsNegativeSign(s) && !AllZeros(whole + frac), DigitsValue(whole) * 100 + FracHundredths(frac))
  }

  /** The integer digits at the front of `u` and the fraction digits after a '.' that follows them. */
  function ReadDecimal(u: string): (r: (string, string))
    ensures AllDigits(r.0) && AllDigits(r.1)
  {
    (u[..DigitRun(u)], FracDigits(u[DigitRun(u)..]))
  }

  /** Digits alone, or digits, '.' and digits, read as those two runs. */
  lemma ReadDecimalOf(a: string, f: string)
    requires AllDigits(a) && AllDigits(f)
    ensures ReadDecimal(a) == (a, "")
    ensures ReadDecimal(a + "." + f) == (a, f)
  {
    assert a + [] == a;
    DigitRunOf(a, []);
    assert a[..DigitRun(a)] == a && a[DigitRun(a)..] == [];
    var s := a + "." + f;
    assert s == a + ("." + f);
    DigitRunOf(a, "." + f);
    assert s[..DigitRun(s)] == a && s[DigitRun(s)..] == "." + f;
    assert f + [] == f;
    DigitRunOf(f, []);
    assert ("." + f)[1..] == f;
  }

  /** Text that starts with a digit or '.' has no white space or sign to skip. */
  lemma UnsignedPlain(s: string)
    requires s != [] && (IsDigit(s[0]) || s[0] == '.')
    ensures Unsigned(s) == s && !IsNegativeSign(s)
  {
    assert !IsSpace(s[0]);
  }

  /** A leading '-' is skipped and marks the number negative. */
  lemma UnsignedMinus(a: string)
    ensures Unsigned("-" + a) == a && IsNegativeSign("-" + a)
  {
    var n := "-" + a;
    assert !IsSpace(n[0]) && TrimStart(n) == n;
    assert n[1..] == a;
  }

  /** `parseFloat` on a whole number reads its value. */
  lemma ParseFloatInteger(a: string)
    requires a != [] && AllDigits(a)
    ensures ParseFloat(a) == Num(false, 100 * DigitsValue(a))
  {
    ReadDecimalOf(a, "");
    UnsignedPlain(a);
  }

  /** With a '-' in front the number is negative unless every digit is 0 ("-0" is not below zero). */
  lemma ParseFloatNegative(a: string)
    requires a != [] && AllDigits(a)
    ensures ParseFloat("-" + a) == Num(!AllZeros(a), 100 * DigitsValue(a))
  {
    ReadDecimalOf(a, "");
    UnsignedMinus(a);
    assert a + "" == a;
  }

  /** `parseFloat` on a decimal number keeps the first two fraction digits. */
  lemma ParseFloatDecimal(a: string, f: string)
    requires AllDigits(a) && AllDigits(f) && (a != [] || f != [])
    ensures ParseFloat(a + "." + f) == Num(false, 100 * DigitsValue(a) + FracHundredths(f))
  {
    var s := a + "." + f;
    assert ReadDecimal(s) == (a, f) by {
      ReadDecimalOf(a, f);
    }
    assert Unsigned(s) == s && !IsNegativeSign(s) by {
      assert s[0] == (if a != [] then a[0] else '.');
      UnsignedPlain(s);
    }
    ParseFloatUnsigned(s, a, f);
  }

  /** Unsigned decimal text whose two digit runs are `whole` and `frac` and not both empty. */
  lemma ParseFloatUnsigned(s: string, whole: string, frac: string)
    requires Unsigned(s) == s && !IsNegativeSign(s) && ReadDecimal(s) == (whole, frac) && (whole != [] || frac != [])
    ensures AllDigits(frac) && ParseFloat(s) == Num(false, 100 * DigitsValue(whole) + FracHundredths(frac))
  {
  }

  /** Text that starts with neither white space, a sign, a digit nor '.' is NaN. */
  lemma ParseFloatText(s: string)
    requires s != [] && !IsSpace(s[0]) && !IsDigit(s[0]) && s[0] != '-' && s[0] != '+' && s[0] != '.'
    ensures ParseFloat(s) == NaN
  {
    assert Unsigned(s) == s && DigitRun(s) == 0;
  }

  /** The fraction digits of a rendered fraction read back as the same hundredths. */
  lemma FractionRoundTrip(f: nat)
    requires f < 100
    ensures FracHundredths(FracDigits(FractionText(f))) == f
  {
    var t := FractionText(f);
    if f != 0 {
      var digits := t[1..];
      assert digits + [] == digits;
      DigitRunOf(digits, []);
      assert FracDigits(t) == digits;
    }
  }

  /** `parseFloat` reads the rendering of a number of hundredths back as that number. */
  lemma ParseFloatRendered(h: nat)
    ensures ParseFloat(HundredthsToString(h)) == Num(false, h)
  {
    ParseFloatParts(h / 100, h % 100);
  }

  /** A whole number followed by the rendered fraction for `f` hundredths reads back as both. */
  lemma ParseFloatParts(q: nat, f: nat)
    requires f < 100
    ensures ParseFloat(NatToString(q) + FractionText(f)) == Num(false, 100 * q + f)
  {
    var w := NatToString(q);
    DigitsValueOfNatToString(q);
    if f == 0 {
      assert w + FractionText(f) == w;
      ParseFloatInteger(w);
    } else {
      ParseFloatFraction(w, f);
    }
  }

  /** Digits followed by the rendered fraction for `f` hundredths, when there is one. */
  lemma ParseFloatFraction(w: string, f: nat)
    requires w != [] && AllDigits(w) && 0 < f < 100
    ensures ParseFloat(w + FractionText(f)) == Num(false, 100 * DigitsValue(w) + f)
  {
    var t := FractionText(f);
    assert w + t == w + "." + t[1..];
    ParseFloatDecimal(w, t[1..]);
    FractionDigitsValue(f);
  }

  /** The digits after the '.' of a rendered fraction are worth that many hundredths. */
  lemma FractionDigitsValue(f: nat)
    requires 0 < f < 100
    ensures FracHundredths(FractionText(f)[1..]) == f
  {
  }

  // ---------------------------------------------------------------------
  // Substrings

  predicate OccursAt(s: string, p: string, i: nat)
  {
    i + |p| <= |s| && s[i..i + |p|] == p
  }

  /** `s.includes(p)`. */
  predicate Contains(s: string, p: string)
  {
    exists i :: 0 <= i <= |s| && OccursAt(s, p, i)
  }

  predicate StartsWith(s: string, p: string)
  {
    |p| <= |s| && s[..|p|] == p
  }

  /** The first occurrence of `p` in `s` at or after `start`. */
  function FindFrom(s: string, p: string, start: nat): (r: Option<nat>)
    ensures r.Some? ==> start <= r.value && OccursAt(s, p, r.value)
    ensures r.Some? ==> forall j :: start <= j < r.value ==> !OccursAt(s, p, j)
    ensures r.None? ==> forall j: nat :: start <= j ==> !OccursAt(s, p, j)
    decreases |s| - start
  {
    if start + |p| > |s| then None
    else if OccursAt(s, p, start) then Some(start)
    else FindFrom(s, p, start + 1)
  }

  /** `s.indexOf(p)`, with None for -1. */
  function Find(s: string, p: string): (r: Option<nat>)
    ensures r.Some? <==> Contains(s, p)
    ensures r.Some? ==> OccursAt(s, p, r.value) && forall j :: 0 <= j < r.value ==> !OccursAt(s, p, j)
  {
    FindFrom(s, p, 0)
  }

  /** `s.replace(p, q)` with a literal pattern: only the first occurrence. */
  function ReplaceFirst(s: string, p: string, q: string): (r: string)
    ensures !Contains(s, p) ==> r == s
    ensures Contains(s, p) ==> var i := Find(s, p).value;
      i + |p| <= |s| && r == s[..i] + q + s[i + |p|..]
  {
    match Find(s, p)
    case None => s
    case Some(i) => s[..i] + q + s[i + |p|..]
  }

  lemma ContainsAt(s: string, p: string, i: nat)
    requires OccursAt(s, p, i)
    ensures Contains(s, p)
  {
  }

  lemma ContainsLeft(a: string, b: string, p: string)
    requires Contains(a, p)
    ensures Contains(a + b, p)
  {
    var i :| 0 <= i <= |a| && OccursAt(a, p, i);
    assert (a + b)[i..i + |p|] == a[i..i + |p|];
    assert OccursAt(a + b, p, i);
  }

  lemma ContainsRight(a: string, b: string, p: string)
    requires Contains(b, p)
    ensures Contains(a + b, p)
  {
    var i :| 0 <= i <= |b| && OccursAt(b, p, i);
    assert (a + b)[|a| + i..|a| + i + |p|] == b[i..i + |p|];
    assert OccursAt(a + b, p, |a| + i);
  }

  /** A text that contains `p + c` contains `p`. */
  lemma ContainsStart(s: string, p: string, c: string)
    requires Contains(s, p + c)
    ensures Contains(s, p)
  {
    var i :| 0 <= i <= |s| && OccursAt(s, p + c, i);
    assert s[i..i + |p|] == s[i..i + |p + c|][..|p|];
    assert OccursAt(s, p, i);
  }

  /** Replacing an occurrence with a text that holds `x` gives a text that holds `x`. */
  lemma ReplaceFirstHolds(s: string, p: string, q: string, x: string)
    requires Contains(s, p) && Contains(q, x)
    ensures Contains(ReplaceFirst(s, p, q), x)
  {
    var i := Find(s, p).value;
    ContainsRight(s[..i], q, x);
    ContainsLeft(s[..i] + q, s[i + |p|..], x);
  }

  lemma ContainsSelf(p: string)
    ensures Contains(p, p)
  {
    assert OccursAt(p, p, 0);
  }

  // ---------------------------------------------------------------------
  // split / join

  /** `s.split(c)` for a one-character separator. */
  function Split(s: string, c: char): (r: seq<string>)
    ensures |r| > 0
    ensures forall k :: 0 <= k < |r| ==> c !in r[k]
  {
    if s == [] then [""]
    else
      var rest := Split(s[1..], c);
      if s[0] == c then [""] + rest else [[s[0]] + rest[0]] + rest[1..]
  }

  /** `parts.join(sep)`. */
  function Join(parts: seq<string>, sep: string): string
  {
    if |parts| == 0 then ""
    else if |parts| == 1 then parts[0]
    else parts[0] + sep + Join(parts[1..], sep)
  }

  /** Joining two or more parts is joining all but the last, the separator, and the last. */
  lemma {:induction false} JoinSnoc(parts: seq<string>, sep: string)
    requires |parts| >= 2
    ensures Join(parts, sep) == Join(parts[..|parts| - 1], sep) + sep + parts[|parts| - 1]
    decreases |parts|
  {
    var n := |parts|;
    if n > 2 {
      JoinSnoc(parts[1..], sep);
      assert parts[1..][..n - 2] == parts[..n - 1][1..];
    }
  }

  /** The position of the last `c` in `s`. */
  function LastIndexOf(s: string, c: char): (r: Option<nat>)
    ensures r.None? <==> c !in s
    ensures r.Some? ==> r.value < |s| && s[r.value] == c && forall j :: r.value < j < |s| ==> s[j] != c
  {
    if s == [] then None
    else if s[|s| - 1] == c then Some(|s| - 1)
    else
      var r := LastIndexOf(s[..|s| - 1], c);
      assert s == s[..|s| - 1] + [s[|s| - 1]];
      r
  }

  /**
    `s.replace(/, (?=[^,]*$)/, " and ")`: the match must be a ", " with no
    comma after it, which only the last comma can be.
  */
  function ReplaceLastComma(s: string): string
  {
    match LastIndexOf(s, ',')
    case None => s
    case Some(i) => if i + 1 < |s| && s[i + 1] == ' ' then s[..i] + " and " + s[i + 2..] else s
  }

  /** A ", " followed by text without commas becomes " and ". */
  lemma ReplaceLastCommaAt(x: string, last: string)
    requires ',' !in last
    ensures ReplaceLastComma(x + ", " + last) == x + " and " + last
  {
    var s := x + ", " + last;
    assert s[|x|] == ',' && s[|x| + 1] == ' ';
    assert forall j :: |x| + 2 <= j < |s| ==> s[j] == last[j - |x| - 2];
    assert LastIndexOf(s, ',') == Some(|x|);
    assert s[..|x|] == x && s[|x| + 2..] == last;
  }

  /** Parts without commas joined by ", " read as a list with " and " before the last one. */
  lemma ReplaceLastCommaOfJoin(parts: seq<string>)
    requires |parts| >= 2 && forall k :: 0 <= k < |parts| ==> ',' !in parts[k]
    ensures ReplaceLastComma(Join(parts, ", ")) ==
      Join(parts[..|parts| - 1], ", ") + " and " + parts[|parts| - 1]
  {
    JoinSnoc(parts, ", ");
    ReplaceLastCommaAt(Join(parts[..|parts| - 1], ", "), parts[|parts| - 1]);
  }

  /** A number rendered in front of text that does not start with a digit can be read back. */
  lemma NumberPrefixInjective(a: nat, b: nat, x: string, y: string)
    requires x == [] || !IsDigit(x[0])
    requires y == [] || !IsDigit(y[0])
    requires NatToString(a) + x == NatToString(b) + y
    ensures a == b && x == y
  {
    DigitRunOf(NatToString(a), x);
    DigitRunOf(NatToString(b), y);
    var s := NatToString(a) + x;
    assert s[..|NatToString(a)|] == NatToString(a);
    assert s[..|NatToString(b)|] == NatToString(b);
    DigitsValueOfNatToString(a);
    DigitsValueOfNatToString(b);
    assert s[|NatToString(a)|..] == x;
  }

  /** Splitting undoes joining when no part holds the separator. */
  lemma {:induction false} SplitJoin(parts: seq<string>, c: char)
    requires |parts| > 0
    requires forall k :: 0 <= k < |parts| ==> c !in parts[k]
    ensures Split(Join(parts, [c]), c) == parts
    decreases |parts|, |parts[0]|
  {
    if |parts| == 1 {
      SplitNoSeparator(parts[0], c);
    } else {
      var p0 := parts[0];
      var tail := parts[1..];
      var rest := Join(tail, [c]);
      assert Join(parts, [c]) == p0 + [c] + rest;
      if p0 == [] {
        assert Join(parts, [c]) == [c] + rest;
        SplitJoin(tail, c);
        SplitAfterSeparator(rest, c);
        assert [""] + tail == parts;
      } else {
        var shorter := [p0[1..]] + tail;
        assert shorter[1..] == tail;
        NoSeparatorInTail(p0, c);
        assert Join(shorter, [c]) == p0[1..] + [c] + rest;
        assert Join(parts, [c]) == [p0[0]] + Join(shorter, [c]);
        SplitJoin(shorter, c);
        SplitAfterChar(p0[0], Join(shorter, [c]), c);
        assert [p0[0]] + p0[1..] == p0;
        assert [p0] + tail == parts;
      }
    }
  }

  lemma SplitAfterSeparator(t: string, c: char)
    ensures Split([c] + t, c) == [""] + Split(t, c)
  {
    assert ([c] + t)[1..] == t;
  }

  lemma SplitAfterChar(x: char, t: string, c: char)
    requires x != c
    ensures Split([x] + t, c) == [[x] + Split(t, c)[0]] + Split(t, c)[1..]
  {
    assert ([x] + t)[1..] == t;
  }

  lemma NoSeparatorInTail(s: string, c: char)
    requires s != [] && c !in s
    ensures c !in s[1..]
  {
    forall k | 0 <= k < |s[1..]| ensures s[1..][k] != c {
      assert s[1..][k] == s[k + 1];
    }
  }

  lemma {:induction false} SplitNoSeparator(s: string, c: char)
    requires c !in s
    ensures Split(s, c) == [s]
    decreases |s|
  {
    if s != [] {
      assert c !in s[1..] by {
        forall k | 0 <= k < |s[1..]| ensures s[1..][k] != c {
          assert s[1..][k] == s[k + 1];
        }
      }
      SplitNoSeparator(s[1..], c);
      assert [s[0]] + s[1..] == s;
    }
  }

  /** The first field of a split is the text before the first separator. */
  lemma {:induction false} SplitFirstField(a: string, b: string, c: char)
    requires c !in a
    ensures Split(a + [c] + b, c)[0] == a
    decreases |a|
  {
    if a == [] {
      assert a + [c] + b == [c] + b;
      SplitAfterSeparator(b, c);
    } else {
      NoSeparatorInTail(a, c);
      SplitFirstField(a[1..], b, c);
      assert a + [c] + b == [a[0]] + (a[1..] + [c] + b);
      SplitAfterChar(a[0], a[1..] + [c] + b, c);
    }
  }

  /** Three fields joined with '-' split back into those fields. */
  lemma SplitThree(a: string, b: string, d: string, c: char)
    requires c !in a && c !in b && c !in d
    ensures Split(a + [c] + b + [c] + d, c) == [a, b, d]
  {
    var parts := [a, b, d];
    assert parts[1..] == [b, d] && [b, d][1..] == [d];
    assert Join([b, d], [c]) == b + [c] + d;
    assert Join(parts, [c]) == a + [c] + (b + [c] + d);
    assert a + [c] + (b + [c] + d) == a + [c] + b + [c] + d;
    SplitJoin(parts, c);
  }

  /** JavaScript destructuring `const [x, y, z] = parts`: a missing element is `undefined`. */
  function Part(parts: seq<string>, i: nat): string
  {
    if i < |parts| then parts[i] else "undefined"
  }

  // ---------------------------------------------------------------------
  // trim, toLowerCase and string order

  /** The characters `String.prototype.trim` removes (white space and line terminators). */
  predicate IsSpace(c: char)
  {
    c == ' ' || c == '\t' || c == '\n' || c == '\r' || c == '\U{000B}' || c == '\U{000C}' ||
    c == '\U{00A0}' || c == '\U{FEFF}' || c == '\U{1680}' || ('\U{2000}' <= c <= '\U{200A}') ||
    c == '\U{2028}' || c == '\U{2029}' || c == '\U{202F}' || c == '\U{205F}' || c == '\U{3000}'
  }

  function TrimStart(s: string): (r: string)
    ensures |r| <= |s| && r == s[|s| - |r|..]
    ensures r == [] || !IsSpace(r[0])
    ensures forall i :: 0 <= i < |s| - |r| ==> IsSpace(s[i])
  {
    if s != [] && IsSpace(s[0]) then TrimStart(s[1..]) else s
  }

  function TrimEnd(s: string): (r: string)
    ensures |r| <= |s| && r == s[..|r|]
    ensures r == [] || !IsSpace(r[|r| - 1])
    ensures forall i :: |r| <= i < |s| ==> IsSpace(s[i])
  {
    if s != [] && IsSpace(s[|s| - 1]) then TrimEnd(s[..|s| - 1]) else s
  }

  /** `s.trim()`. */
  function Trim(s: string): string
  {
    TrimEnd(TrimStart(s))
  }

  lemma TrimNoSpaceEnds(s: string)
    requires s != [] && !IsSpace(s[0]) && !IsSpace(s[|s| - 1])
    ensures Trim(s) == s
  {
  }

  predicate IsUpper(c: char)
  {
    'A' <= c <= 'Z'
  }

  function LowerChar(c: char): char
  {
    if IsUpper(c) then ((c as int) + 32) as char else c
  }

  /**
    `s.toLowerCase()` on the ASCII letters: no capital is left, each capital
    becomes its small letter in the same place, and every other character is
    kept.
  */
  function Lower(s: string): (r: string)
    ensures |r| == |s|
    ensures forall i :: 0 <= i < |r| ==> !IsUpper(r[i])
    ensures forall i :: 0 <= i < |s| && IsUpper(s[i]) ==> r[i] as int == s[i] as int + 32
    ensures forall i :: 0 <= i < |s| && !IsUpper(s[i]) ==> r[i] == s[i]
  {
    seq(|s|, i requires 0 <= i < |s| => LowerChar(s[i]))
  }

  /** Lower-casing twice is lower-casing once. */
  lemma LowerIdempotent(s: string)
    ensures Lower(Lower(s)) == Lower(s)
  {
  }

  lemma LowerConcat(a: string, b: string)
    ensures Lower(a + b) == Lower(a) + Lower(b)
  {
  }

  /** JavaScript's `a < b` on strings: lexicographic on characters. */
  predicate LexLess(a: string, b: string)
  {
    if a == [] then b != []
    else if b == [] then false
    else if a[0] != b[0] then a[0] < b[0]
    else LexLess(a[1..], b[1..])
  }
}
