/** UTC instants of the years 0 to 9999 and their RFC 3339 text with trimmed fractions of a second.
    An instant counts nanoseconds from the start of the year 0. */
module Timestamps {
  import opened Strings
  import Decimals

  const NANOS := 1_000_000_000

  // ----- the calendar ---------------------------------------------------------------

  predicate IsLeap(y: nat) {
    y % 4 == 0 && (y % 100 != 0 || y % 400 == 0)
  }

  function YearLength(y: nat): (days: nat)
    ensures days >= 365
  {
    if IsLeap(y) then 366 else 365
  }

  function MonthLength(y: nat, m: nat): nat {
    if m == 2 then (if IsLeap(y) then 29 else 28)
    else if m in {4, 6, 9, 11} then 30
    else 31
  }

  /** The year of a day counted from the start of year `y`, and the day within that year. */
  function YearOf(day: nat, y: nat): (r: (nat, nat))
    ensures r.0 >= y && r.1 < YearLength(r.0)
    decreases day
  {
    if day < YearLength(y) then (y, day) else YearOf(day - YearLength(y), y + 1)
  }

  function DaysFrom(y: nat, m: nat): nat
    requires 1 <= m <= 12
    decreases 12 - m
  {
    if m == 12 then MonthLength(y, m) else MonthLength(y, m) + DaysFrom(y, m + 1)
  }

  /** The month of a day counted from the start of month `m`, and the day within that month, from 1. */
  function MonthOf(y: nat, day: nat, m: nat): (r: (nat, nat))
    requires 1 <= m <= 12 && day < DaysFrom(y, m)
    ensures m <= r.0 <= 12 && 1 <= r.1 <= MonthLength(y, r.0)
    decreases 12 - m
  {
    if day < MonthLength(y, m) then (m, day + 1) else MonthOf(y, day - MonthLength(y, m), m + 1)
  }

  lemma MonthsMakeAYear(y: nat)
    ensures DaysFrom(y, 1) == YearLength(y)
  {
    assert DaysFrom(y, 9) == 122 && DaysFrom(y, 6) == 214 by { assert DaysFrom(y, 12) == 31; }
    assert DaysFrom(y, 3) == 306;
  }

  /** Year, month, day, hour, minute and second. */
  function Civil(seconds: nat): (values: seq<nat>)
    ensures |values| == 6
  {
    var day, rest := seconds / 86400, seconds % 86400;
    var (year, inYear) := YearOf(day, 0);
    MonthsMakeAYear(year);
    var (month, inMonth) := MonthOf(year, inYear, 1);
    [year, month, inMonth, rest / 3600, rest % 3600 / 60, rest % 60]
  }

  // ----- the calendar is the Gregorian one ------------------------------------------------

  /** The days before a year: every fourth year has one more, but of the full centuries only every fourth. */
  ghost function DaysBefore(y: nat): int {
    365 * y + (y + 3) / 4 - (y + 99) / 100 + (y + 399) / 400
  }

  /** The days of a year before a month. */
  ghost function DaysBeforeMonth(y: nat, m: nat): int
    requires 1 <= m <= 12
  {
    [0, 31, 59, 90, 120, 151, 181, 212, 243, 273, 304, 334][m - 1]
      + if m > 2 && y % 4 == 0 && (y % 100 != 0 || y % 400 == 0) then 1 else 0
  }

  lemma OneYearMore(y: nat)
    ensures DaysBefore(y + 1) == DaysBefore(y) + YearLength(y)
  {
    assert (y + 4) / 4 - (y + 3) / 4 == if y % 4 == 0 then 1 else 0;
    assert (y + 100) / 100 - (y + 99) / 100 == if y % 100 == 0 then 1 else 0;
    assert (y + 400) / 400 - (y + 399) / 400 == if y % 400 == 0 then 1 else 0;
    assert y % 400 == 0 ==> y % 100 == 0 && y % 4 == 0;
    assert y % 100 == 0 ==> y % 4 == 0;
  }

  lemma {:induction false} YearOfMeans(day: nat, y: nat)
    ensures DaysBefore(y) + day == DaysBefore(YearOf(day, y).0) + YearOf(day, y).1
    decreases day
  {
    hide DaysBefore, YearLength;
    if day >= YearLength(y) {
      OneYearMore(y);
      YearOfMeans(day - YearLength(y), y + 1);
    }
  }

  lemma OneMonthMore(y: nat, m: nat)
    requires 1 <= m < 12
    ensures DaysBeforeMonth(y, m + 1) == DaysBeforeMonth(y, m) + MonthLength(y, m)
  {
  }

  lemma {:induction false} MonthOfMeans(y: nat, day: nat, m: nat)
    requires 1 <= m <= 12 && day < DaysFrom(y, m)
    ensures var r := MonthOf(y, day, m); DaysBeforeMonth(y, m) + day + 1 == DaysBeforeMonth(y, r.0) + r.1
    decreases 12 - m
  {
    hide DaysBeforeMonth, MonthLength, DaysFrom, MonthOf;
    ThisMonth(y, day, m);
    if day >= MonthLength(y, m) {
      NextMonth(y, day, m);
      OneMonthMore(y, m);
      MonthOfMeans(y, day - MonthLength(y, m), m + 1);
    }
  }

  lemma DateMeans(day: nat)
    ensures var (y, inYear) := YearOf(day, 0);
            && inYear < DaysFrom(y, 1)
            && var (m, d) := MonthOf(y, inYear, 1);
            && day == DaysBefore(y) + DaysBeforeMonth(y, m) + d - 1
            && d <= (if m == 12 then 31 else DaysBeforeMonth(y, m + 1) - DaysBeforeMonth(y, m))
  {
    var (y, inYear) := YearOf(day, 0);
    MonthsMakeAYear(y);
    YearOfMeans(day, 0);
    MonthOfMeans(y, inYear, 1);
    var m := MonthOf(y, inYear, 1).0;
    if m < 12 { OneMonthMore(y, m); }
    assert MonthLength(y, 12) == 31;
    FirstDays(y);
    hide DaysBefore, DaysBeforeMonth, YearOf, MonthOf, DaysFrom, MonthLength, IsLeap;
  }

  lemma FirstDays(y: nat)
    ensures DaysBefore(0) == 0 && DaysBeforeMonth(y, 1) == 0
  {
  }

  lemma TimeMeans(rest: nat)
    requires rest < 86400
    ensures rest == rest / 3600 * 3600 + rest % 3600 / 60 * 60 + rest % 60
    ensures rest / 3600 < 24 && rest % 3600 / 60 < 60 && rest % 60 < 60
  {
    var h := rest % 3600;
    assert h == h / 60 * 60 + h % 60;
    assert h % 60 == rest % 60 by { assert rest == 60 * (60 * (rest / 3600)) + h; }
  }

  lemma CivilIs(seconds: nat)
    ensures var day, rest := seconds / 86400, seconds % 86400;
            var (y, inYear) := YearOf(day, 0);
            inYear < DaysFrom(y, 1)
              && Civil(seconds) == [y, MonthOf(y, inYear, 1).0, MonthOf(y, inYear, 1).1, rest / 3600,
                                    rest % 3600 / 60, rest % 60]
  {
    MonthsMakeAYear(YearOf(seconds / 86400, 0).0);
    hide YearOf, MonthOf, DaysFrom;
  }

  /** The calendar reading of a second denotes that second in the Gregorian calendar, and its values are in
      the ranges of months, days, hours, minutes and seconds. */
  lemma CivilMeans(seconds: nat)
    ensures var v := Civil(seconds);
            && |v| == 6 && 1 <= v[1] <= 12 && 1 <= v[2] && v[3] < 24 && v[4] < 60 && v[5] < 60
            && v[2] <= (if v[1] == 12 then 31 else DaysBeforeMonth(v[0], v[1] + 1) - DaysBeforeMonth(v[0], v[1]))
            && seconds == (DaysBefore(v[0]) + DaysBeforeMonth(v[0], v[1]) + v[2] - 1) * 86400
                          + v[3] * 3600 + v[4] * 60 + v[5]
  {
    hide DaysBefore, DaysBeforeMonth, YearOf, MonthOf, DaysFrom, Civil;
    CivilIs(seconds);
    DateMeans(seconds / 86400);
    TimeMeans(seconds % 86400);
  }

  /** A later calendar reading: the first value that differs is larger. */
  predicate Earlier(a: seq<nat>, b: seq<nat>) {
    |a| == |b| && a != [] && (a[0] < b[0] || (a[0] == b[0] && Earlier(a[1..], b[1..])))
  }

  lemma {:induction false} YearsAdvance(a: nat, b: nat, y: nat)
    requires a < b
    ensures var r, s := YearOf(a, y), YearOf(b, y); r.0 < s.0 || (r.0 == s.0 && r.1 < s.1)
    decreases a
  {
    if a >= YearLength(y) {
      YearsAdvance(a - YearLength(y), b - YearLength(y), y + 1);
    }
  }

  lemma NextMonth(y: nat, day: nat, m: nat)
    requires 1 <= m <= 12 && MonthLength(y, m) <= day < DaysFrom(y, m)
    ensures m < 12 && day - MonthLength(y, m) < DaysFrom(y, m + 1)
    ensures MonthOf(y, day, m) == MonthOf(y, day - MonthLength(y, m), m + 1)
  {
    hide MonthLength;
  }

  lemma ThisMonth(y: nat, day: nat, m: nat)
    requires 1 <= m <= 12 && day < DaysFrom(y, m)
    ensures day < MonthLength(y, m) ==> MonthOf(y, day, m) == (m, day + 1)
  {
    hide MonthLength;
  }

  lemma {:induction false} MonthsAdvance(y: nat, a: nat, b: nat, m: nat)
    requires 1 <= m <= 12 && a < b < DaysFrom(y, m)
    ensures var r, s := MonthOf(y, a, m), MonthOf(y, b, m); r.0 < s.0 || (r.0 == s.0 && r.1 < s.1)
    decreases 12 - m
  {
    hide MonthLength, DaysFrom, MonthOf, IsLeap;
    var length := MonthLength(y, m);
    ThisMonth(y, a, m);
    ThisMonth(y, b, m);
    if b >= length { NextMonth(y, b, m); }
    if a >= length {
      NextMonth(y, a, m);
      MonthsAdvance(y, a - length, b - length, m + 1);
    }
  }

  lemma EarlierAt(a: seq<nat>, b: seq<nat>, k: nat)
    requires |a| == |b| && k < |a| && a[k] < b[k] && forall i :: 0 <= i < k ==> a[i] == b[i]
    ensures Earlier(a, b)
  {
    if k > 0 {
      EarlierAt(a[1..], b[1..], k - 1);
    }
  }

  /** The calendar reading of a later second is later. */
  lemma CivilAdvances(a: nat, b: nat)
    requires a < b
    ensures Earlier(Civil(a), Civil(b))
  {
    var x, y := Civil(a), Civil(b);
    var dayA, dayB := a / 86400, b / 86400;
    if dayA < dayB {
      DatesAdvance(dayA, dayB, a, b);
    } else {
      ClockAdvances(a % 86400, b % 86400);
      EarlierAt(x, y, if x[3] < y[3] then 3 else if x[4] < y[4] then 4 else 5);
    }
  }

  lemma ClockAdvances(a: nat, b: nat)
    requires a < b
    ensures a / 3600 <= b / 3600
    ensures a / 3600 == b / 3600 ==> a % 3600 / 60 <= b % 3600 / 60
    ensures a / 3600 == b / 3600 && a % 3600 / 60 == b % 3600 / 60 ==> a % 60 < b % 60
  {
    SecondsOfHour(a);
    SecondsOfHour(b);
    if a / 3600 == b / 3600 {
      MinutesAdvance(a % 3600, b % 3600);
    }
  }

  lemma SecondsOfHour(a: nat)
    ensures a == 3600 * (a / 3600) + a % 3600
    ensures a % 60 == a % 3600 % 60
  {
    var rest := a % 3600;
    DividesBy60(60 * (a / 3600) + rest / 60, rest % 60);
    DividesBy60(rest / 60, rest % 60);
  }

  lemma DividesBy60(q: nat, r: nat)
    requires r < 60
    ensures (60 * q + r) % 60 == r
  {
  }

  lemma MinutesAdvance(a: nat, b: nat)
    requires a < b
    ensures a / 60 <= b / 60 && (a / 60 == b / 60 ==> a % 60 < b % 60)
  {
  }

  lemma DatesAdvance(dayA: nat, dayB: nat, a: nat, b: nat)
    requires dayA < dayB && a / 86400 == dayA && b / 86400 == dayB
    ensures Earlier(Civil(a), Civil(b))
  {
    var x, y := Civil(a), Civil(b);
    var p, q := YearOf(dayA, 0), YearOf(dayB, 0);
    YearsAdvance(dayA, dayB, 0);
    MonthsMakeAYear(p.0);
    if p.0 < q.0 {
      EarlierAt(x, y, 0);
    } else {
      MonthsAdvance(p.0, p.1, q.1, 1);
      EarlierAt(x, y, if x[1] < y[1] then 1 else 2);
    }
  }

  // ----- printing ----------------------------------------------------------------------

  function Pow10(w: nat): nat {
    if w == 0 then 1 else 10 * Pow10(w - 1)
  }

  function Digit(d: nat): (c: char)
    requires d < 10
    ensures '0' <= c <= '9'
  {
    (d + 48) as char
  }

  /** `n` in exactly `w` decimal digits. */
  function Pad(n: nat, w: nat): (s: string)
    ensures |s| == w && forall i :: 0 <= i < w ==> '0' <= s[i] <= '9'
  {
    if w == 0 then "" else Pad(n / 10, w - 1) + [Digit(n % 10)]
  }

  /** A printed value: its width and what follows it. */
  datatype Field = Field(width: nat, after: string)

  const STAMP := [Field(4, "-"), Field(2, "-"), Field(2, "T"), Field(2, ":"), Field(2, ":"), Field(2, "")]

  function Print(values: seq<nat>, shape: seq<Field>): string
    requires |values| == |shape|
  {
    if values == [] then "" else Pad(values[0], shape[0].width) + shape[0].after + Print(values[1..], shape[1..])
  }

  predicate Fits(values: seq<nat>, shape: seq<Field>) {
    |values| == |shape| && forall i :: 0 <= i < |values| ==> values[i] < Pow10(shape[i].width)
  }

  function Significant(s: string): (n: nat)
    ensures n <= |s|
    ensures forall i :: n <= i < |s| ==> s[i] == '0'
    ensures n > 0 ==> s[n - 1] != '0'
  {
    if s == "" then 0 else if s[|s| - 1] == '0' then Significant(s[..|s| - 1]) else |s|
  }

  /** The digits of the fraction of a second without trailing zeros. */
  function FractionDigits(t: nat): string {
    var digits := Pad(t % NANOS, 9);
    digits[..Significant(digits)]
  }

  /** What follows the whole second. */
  function Fraction(t: nat): string {
    Ending(FractionDigits(t))
  }

  function Ending(digits: string): string {
    (if digits == "" then "" else "." + digits) + "Z"
  }

  function Second(t: nat): nat {
    t / NANOS
  }

  predicate InRange(t: nat) {
    Civil(Second(t))[0] <= 9999
  }

  /** time.RFC3339Nano */
  function Format(t: nat): string {
    Print(Civil(Second(t)), STAMP) + Fraction(t)
  }

  // ----- what is printed can be read ------------------------------------------------------

  lemma {:induction false} PadReads(n: nat, w: nat)
    requires n < Pow10(w)
    ensures Decimals.AllDigits(Pad(n, w)) && Decimals.Digits(Pad(n, w)) == n
  {
    if w > 0 {
      PadReads(n / 10, w - 1);
      assert Pad(n, w)[..w - 1] == Pad(n / 10, w - 1);
    }
  }

  lemma PrintOne(values: seq<nat>, shape: seq<Field>)
    requires |values| == |shape| && values != []
    ensures Print(values, shape) ==
            Pad(values[0], shape[0].width) + shape[0].after + Print(values[1..], shape[1..])
  {
  }

  lemma StampPrints(v: seq<nat>)
    requires |v| == 6
    ensures Print(v, STAMP) ==
            Pad(v[0], 4) + "-" + (Pad(v[1], 2) + "-" + (Pad(v[2], 2) + "T" +
              (Pad(v[3], 2) + ":" + (Pad(v[4], 2) + ":" + Pad(v[5], 2)))))
  {
    hide Print, Pad;
    PrintOne(v, STAMP);
    PrintOne(v[1..], STAMP[1..]);
    PrintOne(v[2..], STAMP[2..]);
    PrintOne(v[3..], STAMP[3..]);
    PrintOne(v[4..], STAMP[4..]);
    PrintOne(v[5..], STAMP[5..]);
    PrintNone(v[6..], STAMP[6..]);
    assert v[1..][1..] == v[2..] && v[2..][1..] == v[3..] && v[3..][1..] == v[4..] && v[4..][1..] == v[5..]
        && v[5..][1..] == v[6..];
    assert STAMP[1..][1..] == STAMP[2..] && STAMP[2..][1..] == STAMP[3..] && STAMP[3..][1..] == STAMP[4..]
        && STAMP[4..][1..] == STAMP[5..] && STAMP[5..][1..] == STAMP[6..];
  }

  lemma PrintNone(values: seq<nat>, shape: seq<Field>)
    requires |values| == |shape| == 0
    ensures Print(values, shape) == ""
  {
  }

  /** What the fraction of a second says: its digits, without trailing zeros, are those of the nanoseconds. */
  lemma FractionReads(t: nat)
    ensures t % 1_000_000_000 == 0 ==> Fraction(t) == "Z"
    ensures t % 1_000_000_000 != 0 ==>
              var d := FractionDigits(t);
              && Fraction(t) == "." + d + "Z" && 1 <= |d| <= 9 && d[|d| - 1] != '0' && Decimals.AllDigits(d)
              && Decimals.Digits(d) * Pow10(9 - |d|) == t % 1_000_000_000
  {
    var n := t % NANOS;
    var p := Pad(n, 9);
    var m := Significant(p);
    assert Pow10(9) == NANOS;
    hide Pow10, Decimals.Digits, Decimals.AllDigits, Pad, Significant;
    PadReads(n, 9);
    TrailingZeros(p, m);
    assert FractionDigits(t) == p[..m];
    NoDigits(p[..m]);
    ZeroOrNot(p, m, n);
  }

  lemma NoDigits(d: string)
    ensures d == "" ==> Decimals.AllDigits(d) && Decimals.Digits(d) == 0
  {
  }

  lemma ZeroOrNot(p: string, m: nat, n: nat)
    requires Decimals.AllDigits(p) && m <= |p| && Decimals.Digits(p) == n
    requires m > 0 ==> p[m - 1] != '0'
    requires forall i :: m <= i < |p| ==> p[i] == '0'
    ensures n == 0 <==> m == 0
  {
    TrailingZeros(p, m);
    if m > 0 {
      assert p[..m][..m - 1] == p[..m - 1];
      assert Decimals.IsDigit(p[m - 1]) && Decimals.Digits(p[..m]) > 0;
      PowPositive(|p| - m);
      hide Decimals.Digits;
      Positive(Decimals.Digits(p[..m]), Pow10(|p| - m));
    }
  }

  lemma {:induction false} PowPositive(w: nat)
    ensures Pow10(w) > 0
  {
    if w > 0 { PowPositive(w - 1); }
  }

  lemma Positive(a: nat, b: nat)
    requires a > 0 && b > 0
    ensures a * b > 0
  {
  }

  /** Digits followed by zeros denote a multiple. */
  lemma {:induction false} TrailingZeros(p: string, m: nat)
    requires Decimals.AllDigits(p) && m <= |p| && forall i :: m <= i < |p| ==> p[i] == '0'
    ensures Decimals.AllDigits(p[..m]) && Decimals.Digits(p) == Decimals.Digits(p[..m]) * Pow10(|p| - m)
  {
    if m < |p| {
      TrailingZeros(p[..|p| - 1], m);
      assert p[..|p| - 1][..m] == p[..m];
    } else {
      assert p[..m] == p;
    }
  }

  /** The text of an instant is its calendar reading, in fixed places, and its fraction. */
  lemma FormatReads(t: nat) returns (f: seq<string>)
    requires InRange(t)
    ensures |f| == 6 && |f[0]| == 4 && forall i :: 1 <= i < 6 ==> |f[i]| == 2
    ensures forall i :: 0 <= i < 6 ==>
              Decimals.AllDigits(f[i]) && Decimals.Digits(f[i]) == Civil(t / 1_000_000_000)[i]
    ensures Format(t) ==
            f[0] + "-" + (f[1] + "-" + (f[2] + "T" + (f[3] + ":" + (f[4] + ":" + f[5])))) + Fraction(t)
  {
    hide Pad, Civil, Fraction, Print, Pow10, Decimals.Digits, Decimals.AllDigits, InRange;
    var v := Civil(Second(t));
    CivilFits(t);
    StampPrints(v);
    f := [Pad(v[0], 4), Pad(v[1], 2), Pad(v[2], 2), Pad(v[3], 2), Pad(v[4], 2), Pad(v[5], 2)];
    forall i | 0 <= i < 6 ensures Decimals.AllDigits(f[i]) && Decimals.Digits(f[i]) == v[i] {
      assert v[i] < Pow10(STAMP[i].width) && f[i] == Pad(v[i], STAMP[i].width);
      PadReads(v[i], STAMP[i].width);
    }
  }

  // ----- the order of printed instants ---------------------------------------------------

  lemma LessByHead(a: string, b: string, x: string, y: string)
    requires |a| == |b| && StrLess(a, b)
    ensures StrLess(a + x, b + y)
  {
    var k := FirstDifference(a, b);
    assert (a + x)[..k] == a[..k] && (b + y)[..k] == b[..k];
    StrLessAt(a, b, k);
    StrLessAt(a + x, b + y, k);
  }

  lemma {:induction false} LessByTail(a: string, x: string, y: string)
    ensures StrLess(a + x, a + y) <==> StrLess(x, y)
  {
    if a == "" {
      assert a + x == x && a + y == y;
    } else {
      assert (a + x)[1..] == a[1..] + x && (a + y)[1..] == a[1..] + y;
      LessByTail(a[1..], x, y);
      assert x != y ==> (a + x)[|a|..] != (a + y)[|a|..];
    }
  }

  lemma {:induction false} FirstDifference(a: string, b: string) returns (k: nat)
    requires |a| == |b| && a != b
    ensures k < |a| && a[..k] == b[..k] && a[k] != b[k]
  {
    if a[0] != b[0] {
      k := 0;
    } else {
      assert a == [a[0]] + a[1..] && b == [b[0]] + b[1..];
      var rest := FirstDifference(a[1..], b[1..]);
      k := rest + 1;
      assert a[..k] == [a[0]] + a[1..][..rest] && b[..k] == [b[0]] + b[1..][..rest];
    }
  }

  lemma {:induction false} PadLess(a: nat, b: nat, w: nat)
    requires a < b < Pow10(w)
    ensures StrLess(Pad(a, w), Pad(b, w))
  {
    if w > 0 {
      if a / 10 < b / 10 {
        PadLess(a / 10, b / 10, w - 1);
        LessByHead(Pad(a / 10, w - 1), Pad(b / 10, w - 1), [Digit(a % 10)], [Digit(b % 10)]);
      } else {
        LessByTail(Pad(a / 10, w - 1), [Digit(a % 10)], [Digit(b % 10)]);
      }
    }
  }

  lemma {:induction false} PrintLess(a: seq<nat>, b: seq<nat>, shape: seq<Field>, x: string, y: string)
    requires Fits(a, shape) && Fits(b, shape) && Earlier(a, b)
    ensures StrLess(Print(a, shape) + x, Print(b, shape) + y)
    decreases |a|
  {
    hide StrLess, Pow10, Pad;
    var w, sep := shape[0].width, shape[0].after;
    var restA, restB := Print(a[1..], shape[1..]), Print(b[1..], shape[1..]);
    assert Print(a, shape) + x == Pad(a[0], w) + (sep + (restA + x));
    assert Print(b, shape) + y == Pad(b[0], w) + (sep + (restB + y));
    if a[0] < b[0] {
      PadLess(a[0], b[0], w);
      LessByHead(Pad(a[0], w), Pad(b[0], w), sep + (restA + x), sep + (restB + y));
    } else {
      PrintLess(a[1..], b[1..], shape[1..], x, y);
      LessByTail(sep, restA + x, restB + y);
      LessByTail(Pad(a[0], w), sep + (restA + x), sep + (restB + y));
    }
  }

  lemma CivilFits(t: nat)
    requires InRange(t)
    ensures Fits(Civil(Second(t)), STAMP)
  {
    var values := Civil(Second(t));
    assert Pow10(2) == 100 && Pow10(4) == 10000;
    forall i | 0 <= i < 6 ensures values[i] < Pow10(STAMP[i].width) {
      MonthsMakeAYear(YearOf(Second(t) / 86400, 0).0);
    }
  }

  /** Between different whole seconds the text order is the order of time. */
  lemma SecondsSort(a: nat, b: nat)
    requires InRange(a) && InRange(b) && Second(a) < Second(b)
    ensures StrLess(Format(a), Format(b))
  {
    hide InRange, StrLess, Civil, Fits, Print, Fraction, Earlier;
    CivilFits(a);
    CivilFits(b);
    CivilAdvances(Second(a), Second(b));
    PrintLess(Civil(Second(a)), Civil(Second(b)), STAMP, Fraction(a), Fraction(b));
  }

  /** Within one second it is the order of time exactly if the digits of the earlier fraction do not
      begin those of the later one; otherwise it is reversed. */
  lemma FractionsSort(a: nat, b: nat)
    requires Second(a) == Second(b) && a < b
    ensures StrLess(Format(a), Format(b)) <==> !(FractionDigits(a) <= FractionDigits(b))
    ensures StrLess(Format(b), Format(a)) <==> FractionDigits(a) <= FractionDigits(b)
  {
    hide StrLess, Civil, Print, Fraction;
    var head := Print(Civil(Second(a)), STAMP);
    LessByTail(head, Fraction(a), Fraction(b));
    LessByTail(head, Fraction(b), Fraction(a));
    FractionOrder(a, b);
  }

  lemma FractionOrder(a: nat, b: nat)
    requires Second(a) == Second(b) && a < b
    ensures StrLess(Fraction(a), Fraction(b)) <==> !(FractionDigits(a) <= FractionDigits(b))
    ensures StrLess(Fraction(b), Fraction(a)) <==> FractionDigits(a) <= FractionDigits(b)
  {
    hide StrLess, Pad;
    var p, q := Pad(a % NANOS, 9), Pad(b % NANOS, 9);
    assert Pow10(9) == NANOS;
    PadLess(a % NANOS, b % NANOS, 9);
    assert p != q by { assert StrLess(p, q); LessIsDifferent(p, q); }
    var k := FirstDifference(p, q);
    StrLessAt(p, q, k);
    var m, n := Significant(p), Significant(q);
    assert q[k] != '0' && k < n;
    assert FractionDigits(b) == q[..n] && FractionDigits(a) == p[..m];
    hide FractionDigits, Significant, Pow10, Ending;
    if m <= k {
      assert q[..n][..m] == q[..k][..m] == p[..k][..m] == p[..m];
      LongerEnding(p[..m], q[..n]);
    } else {
      assert p[..m][..k] == p[..k] && q[..n][..k] == q[..k] && p[..m][k] < q[..n][k];
      EndingsDiffer(p[..m], q[..n], k);
    }
  }

  /** More digits come first, because the final letter exceeds every digit and the point. */
  lemma LongerEnding(d: string, e: string)
    requires d <= e && d != e && forall i :: 0 <= i < |e| ==> '0' <= e[i] <= '9'
    ensures StrLess(Ending(e), Ending(d)) && !StrLess(Ending(d), Ending(e))
  {
    var m := |d|;
    if m == 0 {
      StrLessAt(Ending(d), Ending(e), 0);
    } else {
      assert Ending(d)[..m + 1] == "." + d && Ending(e)[..m + 1] == "." + e[..m];
      StrLessAt(Ending(d), Ending(e), m + 1);
    }
  }

  lemma EndingsDiffer(d: string, e: string, k: nat)
    requires k < |d| && k < |e| && d[..k] == e[..k] && d[k] < e[k]
    ensures StrLess(Ending(d), Ending(e)) && !StrLess(Ending(e), Ending(d))
  {
    assert Ending(d)[..k + 1] == "." + d[..k] && Ending(e)[..k + 1] == "." + e[..k];
    StrLessAt(Ending(d), Ending(e), k + 1);
  }

  lemma LessIsDifferent(p: string, q: string)
    requires StrLess(p, q)
    ensures p != q
  {
  }
}
