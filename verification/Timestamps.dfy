/** Canonical timestamp text and identifier text: their order is the order of instants and numbers
    (src/remindi/model.rs; sections 5.1 and 5.6 of RFC 3339). */
module Timestamps {
  import opened Wrappers
  import opened Model

  // ---------------------------------------------------------------- text order

  /** Byte-wise order of text. */
  predicate TextLess(a: string, b: string) {
    b != [] && (a == [] || a[0] < b[0] || (a[0] == b[0] && TextLess(a[1..], b[1..])))
  }

  lemma {:induction false} TextLessConcat(a: string, x: string, b: string, y: string)
    requires |a| == |b|
    ensures TextLess(a + x, b + y) <==> TextLess(a, b) || (a == b && TextLess(x, y))
  {
    if a == [] {
      assert a + x == x && b + y == y;
    } else {
      TextLessConcat(a[1..], x, b[1..], y);
      assert (a + x)[1..] == a[1..] + x && (b + y)[1..] == b[1..] + y;
      assert a == [a[0]] + a[1..] && b == [b[0]] + b[1..];
    }
  }

  function DigitChar(d: nat): char
    requires d < 16
  {
    if d < 10 then '0' + d as char else 'a' + (d - 10) as char
  }

  function Quotient(n: nat, base: nat): nat
    requires base > 0
  {
    n / base
  }

  function Remainder(n: nat, base: nat): (r: nat)
    requires base > 0
    ensures r < base
  {
    n % base
  }

  /** A number with leading zeros. */
  function Digits(base: nat, n: nat, width: nat): (s: string)
    requires 2 <= base <= 16
    ensures |s| == width
  {
    if width == 0 then "" else Digits(base, Quotient(n, base), width - 1) + [DigitChar(Remainder(n, base))]
  }

  function Power(base: nat, width: nat): nat {
    if width == 0 then 1 else base * Power(base, width - 1)
  }

  lemma PowerQuotient(base: nat, n: nat, width: nat)
    requires 2 <= base && width > 0 && n < Power(base, width)
    ensures Quotient(n, base) < Power(base, width - 1)
  {
    QuotientLess(n, base, Power(base, width - 1));
  }

  lemma QuotientLess(n: nat, base: nat, p: nat)
    requires base > 0 && n < base * p
    ensures Quotient(n, base) < p
  {
  }

  /** Numbers of one width compare as their texts. */
  lemma {:induction false} DigitsOrder(base: nat, m: nat, n: nat, width: nat)
    requires 2 <= base <= 16 && m < Power(base, width) && n < Power(base, width)
    ensures TextLess(Digits(base, m, width), Digits(base, n, width)) <==> m < n
    ensures Digits(base, m, width) == Digits(base, n, width) <==> m == n
    decreases width
  {
    if width > 0 {
      hide TextLess, Power, DigitChar, Quotient, Remainder;
      PowerQuotient(base, m, width);
      PowerQuotient(base, n, width);
      DigitsOrder(base, Quotient(m, base), Quotient(n, base), width - 1);
      AppendDigit(
        Digits(base, Quotient(m, base), width - 1), Remainder(m, base),
        Digits(base, Quotient(n, base), width - 1), Remainder(n, base));
      QuotientOrder(m, n, base);
    }
  }

  lemma AppendDigit(a: string, d: nat, b: string, e: nat)
    requires |a| == |b| && d < 16 && e < 16
    ensures TextLess(a + [DigitChar(d)], b + [DigitChar(e)]) <==> TextLess(a, b) || (a == b && d < e)
    ensures a + [DigitChar(d)] == b + [DigitChar(e)] <==> a == b && d == e
  {
    hide TextLess;
    DigitOrder(d, e);
    TextLessConcat(a, [DigitChar(d)], b, [DigitChar(e)]);
    SplitAt(a, [DigitChar(d)], b, [DigitChar(e)]);
  }

  lemma DigitOrder(d: nat, e: nat)
    requires d < 16 && e < 16
    ensures TextLess([DigitChar(d)], [DigitChar(e)]) <==> d < e
    ensures [DigitChar(d)] == [DigitChar(e)] <==> d == e
  {
    assert TextLess([DigitChar(d)], [DigitChar(e)]) <==> DigitChar(d) < DigitChar(e) by {
      assert [DigitChar(d)][1..] == [] && [DigitChar(e)][1..] == [];
    }
    assert [DigitChar(d)][0] == DigitChar(d) && [DigitChar(e)][0] == DigitChar(e);
  }

  lemma QuotientOrder(m: nat, n: nat, base: nat)
    requires base > 0
    ensures m < n <==>
      || Quotient(m, base) < Quotient(n, base)
      || (Quotient(m, base) == Quotient(n, base) && Remainder(m, base) < Remainder(n, base))
    ensures m == n <==> Quotient(m, base) == Quotient(n, base) && Remainder(m, base) == Remainder(n, base)
  {
    PairOrder(m / base, m % base, n / base, n % base, base);
  }

  /** Pairs compare as the numbers they stand for. */
  lemma PairOrder(a: int, x: int, b: int, y: int, k: int)
    requires 0 <= x < k && 0 <= y < k
    ensures a * k + x < b * k + y <==> a < b || (a == b && x < y)
    ensures a * k + x == b * k + y <==> a == b && x == y
  {
    if a < b {
      StepUp(a, b, k);
    } else if b < a {
      StepUp(b, a, k);
    }
  }

  lemma StepUp(a: int, b: int, k: int)
    requires a < b && k >= 0
    ensures a * k + k <= b * k
  {
    var d := b - a - 1;
    assert d * k >= 0;
    assert b * k == (a + 1 + d) * k == a * k + k + d * k;
  }

  // ---------------------------------------------------------------- fields of fixed width

  /** A number written with a fixed width, and the separator behind it. */
  datatype Field = Field(value: nat, width: nat, after: string)

  function Written(base: nat, fields: seq<Field>): string
    requires 2 <= base <= 16
  {
    if fields == [] then ""
    else Digits(base, fields[0].value, fields[0].width) + fields[0].after + Written(base, fields[1..])
  }

  predicate Fits(base: nat, fields: seq<Field>) {
    forall k :: 0 <= k < |fields| ==> fields[k].value < Power(base, fields[k].width)
  }

  predicate SameShape(a: seq<Field>, b: seq<Field>) {
    |a| == |b| && forall k :: 0 <= k < |a| ==> a[k].width == b[k].width && a[k].after == b[k].after
  }

  predicate FieldsLess(a: seq<Field>, b: seq<Field>)
    requires |a| == |b|
  {
    a != [] && (a[0].value < b[0].value || (a[0].value == b[0].value && FieldsLess(a[1..], b[1..])))
  }

  lemma {:induction false} WrittenOrder(base: nat, a: seq<Field>, b: seq<Field>)
    requires 2 <= base <= 16 && SameShape(a, b) && Fits(base, a) && Fits(base, b)
    ensures TextLess(Written(base, a), Written(base, b)) <==> FieldsLess(a, b)
    ensures Written(base, a) == Written(base, b) <==> a == b
    ensures |Written(base, a)| == |Written(base, b)|
  {
    hide TextLess, Digits, Power;
    if a != [] {
      WrittenOrder(base, a[1..], b[1..]);
      var p, q := Digits(base, a[0].value, a[0].width), Digits(base, b[0].value, b[0].width);
      var x, y := a[0].after + Written(base, a[1..]), b[0].after + Written(base, b[1..]);
      assert Written(base, a) == p + x && Written(base, b) == q + y;
      DigitsOrder(base, a[0].value, b[0].value, a[0].width);
      TextLessConcat(p, x, q, y);
      TextLessConcat(a[0].after, Written(base, a[1..]), b[0].after, Written(base, b[1..]));
      IrreflexiveText(a[0].after);
      SplitAt(p, x, q, y);
      SplitAt(a[0].after, Written(base, a[1..]), b[0].after, Written(base, b[1..]));
      assert a == [a[0]] + a[1..] && b == [b[0]] + b[1..];
    } else {
      IrreflexiveText("");
    }
  }

  lemma {:induction false} IrreflexiveText(a: string)
    ensures !TextLess(a, a)
  {
    if a != [] {
      IrreflexiveText(a[1..]);
    }
  }

  lemma SplitAt(a: string, x: string, b: string, y: string)
    requires |a| == |b|
    ensures a + x == b + y <==> a == b && x == y
  {
    if a + x == b + y {
      assert a == (a + x)[..|a|] && b == (b + y)[..|b|];
      assert x == (a + x)[|a|..] && y == (b + y)[|b|..];
    }
  }

  // ---------------------------------------------------------------- instants

  /** A UTC date and time, as the calendar gives it. */
  datatype Components = Components(
    year: nat, month: nat, day: nat, hour: nat, minute: nat, second: nat, nanosecond: nat)

  predicate Leap(year: nat) {
    year % 4 == 0 && (year % 100 != 0 || year % 400 == 0)
  }

  function DaysIn(year: nat, month: nat): nat {
    if month == 2 then (if Leap(year) then 29 else 28)
    else if month == 4 || month == 6 || month == 9 || month == 11 then 30
    else 31
  }

  predicate WellFormed(c: Components) {
    && c.year <= 9999
    && 1 <= c.month <= 12
    && 1 <= c.day <= DaysIn(c.year, c.month)
    && c.hour < 24 && c.minute < 60 && c.second < 60 && c.nanosecond < 1_000_000_000
  }

  /** The days of a year before a month. */
  function DaysBeforeMonth(year: nat, month: nat): nat {
    if month <= 1 then 0 else DaysBeforeMonth(year, month - 1) + DaysIn(year, month - 1)
  }

  /** The days before a year, from year 0 on. */
  function DaysBeforeYear(year: nat): nat {
    if year == 0 then 0 else DaysBeforeYear(year - 1) + DaysBeforeMonth(year - 1, 13)
  }

  function DayNumber(c: Components): int {
    DaysBeforeYear(c.year) + DaysBeforeMonth(c.year, c.month) + c.day - 1
  }

  function SecondOfDay(c: Components): int {
    (c.hour * 60 + c.minute) * 60 + c.second
  }

  /** The instant, in nanoseconds from the start of 1970. */
  function InstantOf(c: Components): Instant {
    ((DayNumber(c) - DaysBeforeYear(1970)) * 86_400 + SecondOfDay(c)) * 1_000_000_000 + c.nanosecond
  }

  lemma {:induction false} MonthsAddUp(year: nat, m: nat, n: nat)
    requires 1 <= m < n
    ensures DaysBeforeMonth(year, m) + DaysIn(year, m) <= DaysBeforeMonth(year, n)
  {
    if m < n - 1 {
      MonthsAddUp(year, m, n - 1);
    }
  }

  lemma {:induction false} YearsAddUp(m: nat, n: nat)
    requires m < n
    ensures DaysBeforeYear(m) + DaysBeforeMonth(m, 13) <= DaysBeforeYear(n)
  {
    if m < n - 1 {
      YearsAddUp(m, n - 1);
    }
  }

  function Quarters(year: nat, d: nat): nat
    requires d > 0
  {
    (year + d - 1) / d
  }

  lemma QuarterStep(year: nat)
    ensures Quarters(year + 1, 4) == Quarters(year, 4) + if year % 4 == 0 then 1 else 0
    ensures Quarters(year + 1, 100) == Quarters(year, 100) + if year % 100 == 0 then 1 else 0
    ensures Quarters(year + 1, 400) == Quarters(year, 400) + if year % 400 == 0 then 1 else 0
  {
  }

  lemma LeapDays(year: nat)
    ensures year % 100 == 0 ==> year % 4 == 0
    ensures year % 400 == 0 ==> year % 100 == 0
  {
    var q, p := year / 100, year / 400;
    if year % 100 == 0 {
      assert year == 4 * (25 * q);
    }
    if year % 400 == 0 {
      assert year == 100 * (4 * p);
    }
  }

  /** How many of the years before this one are leap years. */
  function LeapYearsBefore(year: nat): int {
    Quarters(year, 4) - Quarters(year, 100) + Quarters(year, 400)
  }

  lemma LeapStep(year: nat)
    ensures LeapYearsBefore(year + 1) == LeapYearsBefore(year) + if Leap(year) then 1 else 0
  {
    QuarterStep(year);
    LeapDays(year);
    hide Quarters;
  }

  /** The days before a year in closed form: every fourth year has a day more, but not every hundredth,
      and yet every four hundredth. */
  lemma {:induction false} YearsInClosedForm(year: nat)
    ensures DaysBeforeYear(year) == 365 * year + LeapYearsBefore(year)
  {
    if year > 0 {
      YearsInClosedForm(year - 1);
      DaysOfYear(year - 1);
      LeapStep(year - 1);
      hide LeapYearsBefore, DaysBeforeMonth, Leap;
    }
  }

  /** The days before a month in closed form: from March on, 153 in every five months. */
  lemma MonthsInClosedForm(year: nat, month: nat)
    requires 1 <= month <= 13
    ensures DaysBeforeMonth(year, month)
      == if month <= 2 then 31 * (month - 1)
         else (153 * (month - 3) + 2) / 5 + (if Leap(year) then 60 else 59)
  {
    var d := m requires m >= 1 => DaysBeforeMonth(year, m);
    assert d(1) == 0;
    assert d(2) == 31;
    assert d(3) == 31 + DaysIn(year, 2);
    assert d(4) == d(3) + 31;
    assert d(5) == d(4) + 30;
    assert d(6) == d(5) + 31;
    assert d(7) == d(6) + 30;
    assert d(8) == d(7) + 31;
    assert d(9) == d(8) + 31;
    assert d(10) == d(9) + 30;
    assert d(11) == d(10) + 31;
    assert d(12) == d(11) + 30;
    assert d(13) == d(12) + 31;
  }

  lemma DaysOfYear(year: nat)
    ensures DaysBeforeMonth(year, 13) == if Leap(year) then 366 else 365
  {
    MonthsInClosedForm(year, 13);
    hide DaysBeforeMonth;
  }

  /** The first instant of 1970 is zero, 719528 days after the first of year 0. */
  lemma EpochIsZero()
    ensures InstantOf(Components(1970, 1, 1, 0, 0, 0, 0)) == 0
    ensures DayNumber(Components(1970, 1, 1, 0, 0, 0, 0)) == 719_528
  {
    hide DaysBeforeYear;
    EpochDays(1970);
  }

  lemma EpochDays(year: nat)
    requires year == 1970
    ensures DaysBeforeYear(year) == 719_528
  {
    YearsInClosedForm(year);
    hide DaysBeforeYear;
  }

  predicate DateLess(a: Components, b: Components) {
    a.year < b.year || (a.year == b.year && (a.month < b.month || (a.month == b.month && a.day < b.day)))
  }

  /** Dates compare as their day numbers. */
  lemma DateOrder(a: Components, b: Components)
    requires WellFormed(a) && WellFormed(b)
    ensures DayNumber(a) < DayNumber(b) <==> DateLess(a, b)
    ensures DayNumber(a) == DayNumber(b) <==> a.year == b.year && a.month == b.month && a.day == b.day
  {
    hide DaysIn, DaysBeforeYear, DaysBeforeMonth;
    DayStaysInYear(a);
    DayStaysInYear(b);
    if a.year < b.year {
      YearsAddUp(a.year, b.year);
    } else if b.year < a.year {
      YearsAddUp(b.year, a.year);
    } else if a.month < b.month {
      MonthsAddUp(a.year, a.month, b.month);
    } else if b.month < a.month {
      MonthsAddUp(a.year, b.month, a.month);
    }
  }

  lemma DayStaysInYear(c: Components)
    requires WellFormed(c)
    ensures DaysBeforeMonth(c.year, c.month) + c.day <= DaysBeforeMonth(c.year, 13)
  {
    MonthsAddUp(c.year, c.month, 13);
  }

  // ---------------------------------------------------------------- canonical text

  function Subsecond(c: Components): nat {
    c.nanosecond / 1_000_000
  }

  function FieldsOf(c: Components): seq<Field> {
    [Field(c.year, 4, "-"), Field(c.month, 2, "-"), Field(c.day, 2, "T"),
     Field(c.hour, 2, ":"), Field(c.minute, 2, ":"), Field(c.second, 2, "."), Field(Subsecond(c), 3, "Z")]
  }

  /** `[year]-[month]-[day]T[hour]:[minute]:[second].[subsecond digits:3]Z`. */
  function CanonicalText(c: Components): string {
    Written(10, FieldsOf(c))
  }

  /** The components at millisecond resolution. */
  function Truncated(c: Components): Components {
    c.(nanosecond := Subsecond(c) * 1_000_000)
  }

  lemma TruncationIsMillis(c: Components)
    requires WellFormed(c)
    ensures WellFormed(Truncated(c)) && InstantOf(Truncated(c)) == Millis(InstantOf(c))
  {
    hide DayNumber, DaysBeforeYear, DaysIn, Millis;
    TruncatedDay(c);
    MillisWithinSecond((DayNumber(c) - DaysBeforeYear(1970)) * 86_400 + SecondOfDay(c), c.nanosecond);
  }

  lemma MillisWithinSecond(seconds: int, ns: nat)
    requires ns < 1_000_000_000
    ensures Millis(seconds * 1_000_000_000 + ns) == seconds * 1_000_000_000 + ns / 1_000_000 * 1_000_000
  {
  }

  predicate ComponentsLess(a: Components, b: Components) {
    || DateLess(a, b)
    || (a.year == b.year && a.month == b.month && a.day == b.day
        && (SecondOfDay(a) < SecondOfDay(b)
            || (SecondOfDay(a) == SecondOfDay(b) && Subsecond(a) < Subsecond(b))))
  }

  lemma FieldsOrder(a: Components, b: Components)
    requires WellFormed(a) && WellFormed(b)
    ensures FieldsLess(FieldsOf(a), FieldsOf(b)) <==> ComponentsLess(a, b)
    ensures FieldsOf(a) == FieldsOf(b) <==>
      a.year == b.year && a.month == b.month && a.day == b.day
      && SecondOfDay(a) == SecondOfDay(b) && Subsecond(a) == Subsecond(b)
  {
    hide DaysIn;
    PairOrder(a.hour, a.minute, b.hour, b.minute, 60);
    PairOrder(a.hour * 60 + a.minute, a.second, b.hour * 60 + b.minute, b.second, 60);
    var x, y := FieldsOf(a), FieldsOf(b);
    FirstFields(x, y);
    FirstFields(x[1..], y[1..]);
    FirstFields(x[1..][1..], y[1..][1..]);
    assert x[1..][1..][1..] == x[3..] && y[1..][1..][1..] == y[3..];
    TimeFieldsOrder(x[3..], y[3..]);
  }

  lemma FirstFields(x: seq<Field>, y: seq<Field>)
    requires |x| == |y| > 0
    ensures FieldsLess(x, y) <==>
      x[0].value < y[0].value || (x[0].value == y[0].value && FieldsLess(x[1..], y[1..]))
  {
  }

  lemma TimeFieldsOrder(x: seq<Field>, y: seq<Field>)
    requires |x| == 4 && |y| == 4
    ensures FieldsLess(x, y) <==>
      || x[0].value < y[0].value
      || (x[0].value == y[0].value && x[1].value < y[1].value)
      || (x[0].value == y[0].value && x[1].value == y[1].value && x[2].value < y[2].value)
      || (x[0].value == y[0].value && x[1].value == y[1].value && x[2].value == y[2].value
          && x[3].value < y[3].value)
  {
    FirstFields(x, y);
    FirstFields(x[1..], y[1..]);
    FirstFields(x[1..][1..], y[1..][1..]);
    FirstFields(x[1..][1..][1..], y[1..][1..][1..]);
    assert x[1..][1..][1..][1..] == [];
    hide FieldsLess;
  }

  lemma InstantOrder(a: Components, b: Components)
    requires WellFormed(a) && WellFormed(b)
    ensures Millis(InstantOf(a)) < Millis(InstantOf(b)) <==> ComponentsLess(a, b)
    ensures Millis(InstantOf(a)) == Millis(InstantOf(b)) <==> FieldsOf(a) == FieldsOf(b)
  {
    hide DayNumber, DaysIn, DaysBeforeYear, Millis, DateLess;
    TruncationIsMillis(a);
    TruncationIsMillis(b);
    DateOrder(a, b);
    FieldsOrder(a, b);
    var e := DaysBeforeYear(1970);
    PairOrder(DayNumber(a) - e, SecondOfDay(a), DayNumber(b) - e, SecondOfDay(b), 86_400);
    PairOrder(
      (DayNumber(a) - e) * 86_400 + SecondOfDay(a), Subsecond(a) * 1_000_000,
      (DayNumber(b) - e) * 86_400 + SecondOfDay(b), Subsecond(b) * 1_000_000, 1_000_000_000);
    assert DayNumber(Truncated(a)) == DayNumber(a) && DayNumber(Truncated(b)) == DayNumber(b) by {
      TruncatedDay(a);
      TruncatedDay(b);
    }
  }

  lemma TruncatedDay(c: Components)
    ensures DayNumber(Truncated(c)) == DayNumber(c)
  {
  }

  lemma FieldsFit(c: Components)
    requires WellFormed(c)
    ensures Fits(10, FieldsOf(c))
  {
    assert Power(10, 2) == 100 && Power(10, 3) == 1000 && Power(10, 4) == 10_000;
    assert c.day <= 31;
  }

  /** For the years 0 to 9999, the order of canonical texts is the order of the instants at millisecond
      resolution, and two instants have the same text exactly when they agree to the millisecond. */
  lemma TextOrderIsTimeOrder(a: Components, b: Components)
    requires WellFormed(a) && WellFormed(b)
    ensures TextLess(CanonicalText(a), CanonicalText(b)) <==> Millis(InstantOf(a)) < Millis(InstantOf(b))
    ensures CanonicalText(a) == CanonicalText(b) <==> Millis(InstantOf(a)) == Millis(InstantOf(b))
  {
    hide InstantOf, Millis, TextLess, FieldsLess, Fits;
    FieldsFit(a);
    FieldsFit(b);
    InstantOrder(a, b);
    FieldsOrder(a, b);
    WrittenOrder(10, FieldsOf(a), FieldsOf(b));
  }

  // ---------------------------------------------------------------- parsing

  datatype TimestampError = TimestampOffsetRequired | InvalidTimestamp

  /** The text ends in `Z`, or in an offset `+hh:mm` or `-hh:mm`. */
  predicate HasExplicitOffset(s: string) {
    || (s != "" && s[|s| - 1] == 'Z')
    || (var tail := if |s| < 6 then s else s[|s| - 6..];
        |tail| > 3 && (tail[0] == '+' || tail[0] == '-') && tail[3] == ':')
  }

  predicate IsDigit(c: char) {
    '0' <= c <= '9'
  }

  predicate AllDigits(s: string) {
    forall k :: 0 <= k < |s| ==> IsDigit(s[k])
  }

  function Number(s: string): nat
    requires AllDigits(s)
  {
    if s == "" then 0 else Number(s[..|s| - 1]) * 10 + (s[|s| - 1] - '0') as nat
  }

  /** Reads a number of fixed width and the separator behind it. */
  function ReadField(s: string, width: nat, after: string): Option<(nat, string)> {
    var n := width + |after|;
    if |s| < n || !AllDigits(s[..width]) || s[width..n] != after then None
    else Some((Number(s[..width]), s[n..]))
  }

  function DigitCount(s: string): (n: nat)
    ensures n <= |s| && AllDigits(s[..n])
  {
    if s == "" || !IsDigit(s[0]) then 0
    else
      var n := DigitCount(s[1..]);
      assert s[..n + 1] == [s[0]] + s[1..][..n];
      n + 1
  }

  /** The nanoseconds a fraction stands for: nine digits count, missing ones are zero. */
  function FractionNanoseconds(digits: string): nat
    requires AllDigits(digits)
  {
    if |digits| >= 9 then Number(digits[..9]) else Number(digits) * Power(10, 9 - |digits|)
  }

  /** The optional fraction of a second. */
  function ReadFraction(s: string): Option<(nat, string)> {
    if s == "" || s[0] != '.' then Some((0, s))
    else
      var n := DigitCount(s[1..]);
      if n == 0 then None else Some((FractionNanoseconds(s[1..][..n]), s[1..][n..]))
  }

  /** The offset from UTC, in minutes. */
  function ReadOffset(s: string): Option<int> {
    if s == "Z" then Some(0)
    else if |s| != 6 || (s[0] != '+' && s[0] != '-') then None
    else
      var hours := ReadField(s[1..], 2, ":");
      if hours.None? then None
      else
        var minutes := ReadField(hours.value.1, 2, "");
        if minutes.None? || hours.value.0 > 23 || minutes.value.0 > 59 then None
        else
          var total: int := hours.value.0 * 60 + minutes.value.0;
          Some(if s[0] == '+' then total else -total)
  }

  /** Date, time and fraction of RFC 3339, with what is left for the offset. */
  function ReadDateTime(s: string): Option<(Components, string)> {
    var year := ReadField(s, 4, "-");
    if year.None? then None else
    var month := ReadField(year.value.1, 2, "-");
    if month.None? then None else
    var day := ReadField(month.value.1, 2, "T");
    if day.None? then None else
    var hour := ReadField(day.value.1, 2, ":");
    if hour.None? then None else
    var minute := ReadField(hour.value.1, 2, ":");
    if minute.None? then None else
    var second := ReadField(minute.value.1, 2, "");
    if second.None? then None else
    var fraction := ReadFraction(second.value.1);
    if fraction.None? then None
    else Some((
      Components(
        year.value.0, month.value.0, day.value.0, hour.value.0, minute.value.0, second.value.0, fraction.value.0),
      fraction.value.1))
  }

  function ParseTimestamp(s: string): Result<Instant, TimestampError> {
    if !HasExplicitOffset(s) then Failure(TimestampOffsetRequired)
    else
      var read := ReadDateTime(s);
      if read.None? || !WellFormed(read.value.0) then Failure(InvalidTimestamp)
      else
        var offset := ReadOffset(read.value.1);
        if offset.None? then Failure(InvalidTimestamp)
        else Success(InstantOf(read.value.0) - Seconds(offset.value * 60))
  }

  lemma {:induction false} DigitsRead(n: nat, width: nat)
    requires n < Power(10, width)
    ensures AllDigits(Digits(10, n, width)) && Number(Digits(10, n, width)) == n
  {
    if width > 0 {
      PowerQuotient(10, n, width);
      DigitsRead(Quotient(n, 10), width - 1);
      var s := Digits(10, n, width);
      assert s[..width - 1] == Digits(10, Quotient(n, 10), width - 1);
    }
  }

  lemma FieldRead(f: Field, rest: string)
    requires f.value < Power(10, f.width)
    ensures ReadField(Digits(10, f.value, f.width) + f.after + rest, f.width, f.after) == Some((f.value, rest))
  {
    DigitsRead(f.value, f.width);
    var d := Digits(10, f.value, f.width);
    var s := d + f.after + rest;
    assert s[..f.width] == d;
    assert s[f.width..f.width + |f.after|] == f.after;
    assert s[f.width + |f.after|..] == rest;
  }

  /** The text up to the seconds, with whatever follows. */
  function UpToSeconds(c: Components, rest: string): string {
    Digits(10, c.year, 4) + "-" + (Digits(10, c.month, 2) + "-" + (Digits(10, c.day, 2) + "T"
      + (Digits(10, c.hour, 2) + ":" + (Digits(10, c.minute, 2) + ":" + (Digits(10, c.second, 2) + "" + rest)))))
  }

  lemma DateTimeRead(c: Components, rest: string)
    requires WellFormed(c)
    requires ReadFraction(rest).Some?
    ensures ReadDateTime(UpToSeconds(c, rest))
         == Some((c.(nanosecond := ReadFraction(rest).value.0), ReadFraction(rest).value.1))
  {
    hide Digits, ReadField, ReadFraction;
    assert Power(10, 2) == 100 && Power(10, 4) == 10_000;
    assert c.day <= 31;
    var seconds := Digits(10, c.second, 2) + "" + rest;
    var minutes := Digits(10, c.minute, 2) + ":" + seconds;
    var hours := Digits(10, c.hour, 2) + ":" + minutes;
    var days := Digits(10, c.day, 2) + "T" + hours;
    var months := Digits(10, c.month, 2) + "-" + days;
    FieldRead(Field(c.year, 4, "-"), months);
    FieldRead(Field(c.month, 2, "-"), days);
    FieldRead(Field(c.day, 2, "T"), hours);
    FieldRead(Field(c.hour, 2, ":"), minutes);
    FieldRead(Field(c.minute, 2, ":"), seconds);
    FieldRead(Field(c.second, 2, ""), rest);
  }

  lemma {:induction false} CountStops(d: string, rest: string)
    requires AllDigits(d) && (rest == "" || !IsDigit(rest[0]))
    ensures DigitCount(d + rest) == |d|
  {
    if d != "" {
      assert (d + rest)[1..] == d[1..] + rest;
      CountStops(d[1..], rest);
    } else {
      assert d + rest == rest;
    }
  }

  lemma MillisecondsRead(ms: nat, offset: string)
    requires ms < 1000 && (offset == "" || !IsDigit(offset[0]))
    ensures ReadFraction("." + Digits(10, ms, 3) + offset) == Some((ms * 1_000_000, offset))
  {
    var d := Digits(10, ms, 3);
    assert Power(10, 3) == 1000 && Power(10, 6) == 1_000_000;
    DigitsRead(ms, 3);
    var s := "." + d + offset;
    assert s[1..] == d + offset;
    CountStops(d, offset);
    assert (d + offset)[..3] == d && (d + offset)[3..] == offset;
  }

  lemma CanonicalTextSplits(c: Components)
    ensures CanonicalText(c) == UpToSeconds(c, "." + Digits(10, Subsecond(c), 3) + "Z")
  {
    hide Digits;
    var f := FieldsOf(c);
    assert f[1..][1..] == f[2..] && f[2..][1..] == f[3..] && f[3..][1..] == f[4..];
    assert f[4..][1..] == f[5..] && f[5..][1..] == f[6..] && f[6..][1..] == f[7..];
    assert Written(10, f) == Digits(10, c.year, 4) + "-" + Written(10, f[1..]);
    assert Written(10, f[1..]) == Digits(10, c.month, 2) + "-" + Written(10, f[2..]);
    assert Written(10, f[2..]) == Digits(10, c.day, 2) + "T" + Written(10, f[3..]);
    assert Written(10, f[3..]) == Digits(10, c.hour, 2) + ":" + Written(10, f[4..]);
    assert Written(10, f[4..]) == Digits(10, c.minute, 2) + ":" + Written(10, f[5..]);
    assert Written(10, f[5..]) == Digits(10, c.second, 2) + "." + Written(10, f[6..]);
    assert Written(10, f[6..]) == Digits(10, Subsecond(c), 3) + "Z" + Written(10, f[7..]);
    assert Written(10, f[7..]) == "";
  }

  /** Parsing undoes formatting up to the truncation to milliseconds. */
  lemma ParsingUndoesFormatting(c: Components)
    requires WellFormed(c)
    ensures ParseTimestamp(CanonicalText(c)) == Success(Millis(InstantOf(c)))
  {
    hide InstantOf, Millis, ReadDateTime, UpToSeconds, CanonicalText;
    CanonicalTextSplits(c);
    var rest := "." + Digits(10, Subsecond(c), 3) + "Z";
    MillisecondsRead(Subsecond(c), "Z");
    DateTimeRead(c, rest);
    TruncationIsMillis(c);
    EndsInZ(c, "." + Digits(10, Subsecond(c), 3));
  }

  lemma EndsInZ(c: Components, fraction: string)
    ensures HasExplicitOffset(UpToSeconds(c, fraction + "Z"))
  {
    var s := UpToSeconds(c, fraction + "Z");
    assert s[|s| - 1] == 'Z';
  }

  /** An offset of `hours` and `minutes`, as RFC 3339 writes it. */
  function OffsetText(negative: bool, hours: nat, minutes: nat): string {
    (if negative then "-" else "+") + (Digits(10, hours, 2) + ":" + (Digits(10, minutes, 2) + ""))
  }

  lemma OffsetRead(negative: bool, hours: nat, minutes: nat)
    requires hours < 24 && minutes < 60
    ensures ReadOffset(OffsetText(negative, hours, minutes))
         == Some(if negative then -(hours * 60 + minutes) else hours * 60 + minutes)
  {
    assert Power(10, 2) == 100;
    var tail := Digits(10, minutes, 2) + "" + "";
    FieldRead(Field(minutes, 2, ""), "");
    FieldRead(Field(hours, 2, ":"), Digits(10, minutes, 2) + "");
    assert tail == Digits(10, minutes, 2) + "";
    var s := OffsetText(negative, hours, minutes);
    assert s[1..] == Digits(10, hours, 2) + ":" + (Digits(10, minutes, 2) + "");
  }

  /** The fraction of a second, or nothing. */
  function FractionText(digits: string): string {
    if digits == "" then "" else "." + digits
  }

  lemma {:induction false} NumberFits(digits: string)
    requires AllDigits(digits)
    ensures Number(digits) < Power(10, |digits|)
  {
    if digits != "" {
      NumberFits(digits[..|digits| - 1]);
    }
  }

  lemma {:induction false} PowersMultiply(m: nat, n: nat)
    ensures Power(10, m) * Power(10, n) == Power(10, m + n)
  {
    if m > 0 {
      PowersMultiply(m - 1, n);
      assert 10 * Power(10, m - 1) * Power(10, n) == 10 * (Power(10, m - 1) * Power(10, n));
    }
  }

  lemma FractionFits(digits: string)
    requires AllDigits(digits)
    ensures FractionNanoseconds(digits) < 1_000_000_000
  {
    assert Power(10, 9) == 1_000_000_000;
    if |digits| >= 9 {
      NumberFits(digits[..9]);
    } else {
      NumberFits(digits);
      PowersMultiply(|digits|, 9 - |digits|);
      PowerPositive(9 - |digits|);
      StepUp(Number(digits), Power(10, |digits|), Power(10, 9 - |digits|));
    }
  }

  lemma {:induction false} PowerPositive(n: nat)
    ensures Power(10, n) > 0
  {
    if n > 0 {
      PowerPositive(n - 1);
    }
  }

  lemma FractionRead(digits: string, offset: string)
    requires AllDigits(digits) && (offset == "" || (!IsDigit(offset[0]) && offset[0] != '.'))
    ensures ReadFraction(FractionText(digits) + offset) == Some((FractionNanoseconds(digits), offset))
  {
    var s := FractionText(digits) + offset;
    if digits == "" {
      assert s == offset;
      assert FractionNanoseconds("") == 0 * Power(10, 9);
    } else {
      assert s[1..] == digits + offset;
      CountStops(digits, offset);
      assert (digits + offset)[..|digits|] == digits && (digits + offset)[|digits|..] == offset;
    }
  }

  /** A local time with an offset, whatever its fraction of a second, is read as the UTC instant it
      denotes; digits beyond nanoseconds are cut off. */
  lemma OffsetsAreNormalized(c: Components, digits: string, negative: bool, hours: nat, minutes: nat)
    requires WellFormed(c) && AllDigits(digits) && hours < 24 && minutes < 60
    ensures
      var east := if negative then -(hours * 60 + minutes) else hours * 60 + minutes;
      ParseTimestamp(UpToSeconds(c, FractionText(digits) + OffsetText(negative, hours, minutes)))
      == Success(InstantOf(c.(nanosecond := FractionNanoseconds(digits))) - Seconds(east * 60))
  {
    hide InstantOf, ReadDateTime, ReadOffset, FractionText, HasExplicitOffset, UpToSeconds, OffsetText,
      FractionNanoseconds, ReadFraction;
    var offset := OffsetText(negative, hours, minutes);
    OffsetShape(negative, hours, minutes);
    OffsetIsExplicit(c, FractionText(digits), offset);
    FractionRead(digits, offset);
    FractionFits(digits);
    DateTimeRead(c, FractionText(digits) + offset);
    OffsetRead(negative, hours, minutes);
  }

  lemma OffsetShape(negative: bool, hours: nat, minutes: nat)
    ensures
      var offset := OffsetText(negative, hours, minutes);
      && |offset| == 6 && (offset[0] == '+' || offset[0] == '-') && offset[3] == ':'
      && !IsDigit(offset[0]) && offset[0] != '.'
  {
  }

  lemma OffsetIsExplicit(c: Components, middle: string, offset: string)
    requires |offset| == 6 && (offset[0] == '+' || offset[0] == '-') && offset[3] == ':'
    ensures HasExplicitOffset(UpToSeconds(c, middle + offset))
  {
    hide UpToSeconds;
    EndsWith(c, middle, offset);
  }

  lemma EndsWith(c: Components, middle: string, tail: string)
    ensures
      var s := UpToSeconds(c, middle + tail);
      |s| >= |tail| && s[|s| - |tail|..] == tail
  {
  }

  /** Without an offset a timestamp, with or without a fraction of a second, is refused for that reason. */
  lemma OffsetIsRequired(c: Components, digits: string)
    requires WellFormed(c) && AllDigits(digits)
    ensures ParseTimestamp(UpToSeconds(c, FractionText(digits))) == Failure(TimestampOffsetRequired)
  {
    hide Digits;
    assert Power(10, 2) == 100;
    DigitsRead(c.second, 2);
    DigitsRead(c.minute, 2);
    var s := UpToSeconds(c, FractionText(digits));
    var end := Digits(10, c.minute, 2) + ":" + (Digits(10, c.second, 2) + "" + FractionText(digits));
    EndsWith(c, "", FractionText(digits));
    assert s == s[..14] + end;
    assert |s| == 19 + |FractionText(digits)|;
    assert s[|s| - 6] == if |digits| == 0 then ':' else end[|end| - 6];
    LastSix(Digits(10, c.minute, 2), Digits(10, c.second, 2), digits);
    assert s[|s| - 1] == end[|end| - 1];
  }

  /** The sixth character from the end, and the last, of a time without offset. */
  lemma LastSix(m: string, d: string, digits: string)
    requires |m| == 2 && |d| == 2 && AllDigits(m) && AllDigits(d) && AllDigits(digits)
    ensures
      var end := m + ":" + (d + "" + FractionText(digits));
      && IsDigit(end[|end| - 1])
      && (|digits| > 0 ==> |end| >= 6 && end[|end| - 6] != '+' && end[|end| - 6] != '-')
  {
    var end := m + ":" + (d + "" + FractionText(digits));
    if |digits| > 0 {
      assert end[|end| - 1] == digits[|digits| - 1];
      if |digits| >= 6 {
        assert end[|end| - 6] == digits[|digits| - 6];
      } else if |digits| == 5 {
        assert end[|end| - 6] == '.';
      } else if |digits| == 4 {
        assert end[|end| - 6] == d[1];
      } else if |digits| == 3 {
        assert end[|end| - 6] == d[0];
      } else if |digits| == 2 {
        assert end[|end| - 6] == ':';
      } else {
        assert end[|end| - 6] == m[1];
      }
    } else {
      assert end[|end| - 1] == d[1];
    }
  }

  // ---------------------------------------------------------------- identifiers

  const P12: int := 0x1_0000_0000_0000
  const P4: int := 0x1_0000

  /** The groups of a hyphenated identifier: 8, 4, 4, 4 and 12 hexadecimal digits. */
  function UuidFields(u: Uuid): seq<Field> {
    [Field(u / P12 / P4 / P4 / P4, 8, "-"), Field(u / P12 / P4 / P4 % P4, 4, "-"), Field(u / P12 / P4 % P4, 4, "-"),
     Field(u / P12 % P4, 4, "-"), Field(u % P12, 12, "")]
  }

  function UuidText(u: Uuid): string {
    Written(16, UuidFields(u))
  }

  lemma UuidFieldsFit(u: Uuid)
    ensures Fits(16, UuidFields(u))
  {
    assert Power(16, 4) == P4;
    assert Power(16, 8) == 0x1_0000_0000;
    assert Power(16, 12) == P12;
  }

  lemma UuidFieldsOrder(u: Uuid, v: Uuid)
    ensures FieldsLess(UuidFields(u), UuidFields(v)) <==> u < v
    ensures UuidFields(u) == UuidFields(v) <==> u == v
  {
    QuotientOrder(u, v, P12);
    QuotientOrder(u / P12, v / P12, P4);
    QuotientOrder(u / P12 / P4, v / P12 / P4, P4);
    QuotientOrder(u / P12 / P4 / P4, v / P12 / P4 / P4, P4);
    var x, y := UuidFields(u), UuidFields(v);
    assert FieldsLess(x, y) <==>
      x[0].value < y[0].value || (x[0].value == y[0].value && FieldsLess(x[1..], y[1..]));
    TimeFieldsOrder(x[1..], y[1..]);
    assert x == y <==> forall k :: 0 <= k < 5 ==> x[k] == y[k];
  }

  /** Hyphenated identifier text is ordered like the identifiers' bytes. */
  lemma UuidTextOrder(u: Uuid, v: Uuid)
    ensures TextLess(UuidText(u), UuidText(v)) <==> u < v
    ensures UuidText(u) == UuidText(v) <==> u == v
  {
    hide TextLess, FieldsLess, Fits;
    UuidFieldsFit(u);
    UuidFieldsFit(v);
    UuidFieldsOrder(u, v);
    WrittenOrder(16, UuidFields(u), UuidFields(v));
  }
}
