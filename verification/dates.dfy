/** Proleptic-Gregorian calendar dates as java.time.LocalDate handles them:
    day stepping, epoch days, ISO weekdays (Monday = 1 .. Sunday = 7),
    the `yyyy-MM-dd` text form that LocalDate.toString prints, and the
    partial parser LocalDate.parse applies to it (ISO 8601 section 5.2.1.1,
    extended format). A failed LocalDate.parse is `None` here. */
module Dates {
  import opened Wrappers

  /** A year-month-day triple; only `Valid` ones are calendar dates. */
  datatype Date = Date(year: int, month: int, day: int) {
    predicate Valid() {
      1 <= month <= 12 && 1 <= day <= DaysInMonth(year, month)
    }
  }

  /** The dates LocalDate can hold (its year bound of 999,999,999 aside). */
  type LocalDate = d: Date | d.Valid() witness Date(1970, 1, 1)

  predicate IsLeapYear(y: int) {
    y % 4 == 0 && (y % 100 != 0 || y % 400 == 0)
  }

  /** YearMonth.lengthOfMonth for months 1..12. */
  function DaysInMonth(y: int, m: int): (n: int)
    ensures 28 <= n <= 31
    ensures m == 2 ==> (n == 29 <==> IsLeapYear(y))
  {
    if m == 2 then (if IsLeapYear(y) then 29 else 28)
    else if m == 4 || m == 6 || m == 9 || m == 11 then 30
    else 31
  }

  function DaysInYear(y: int): int {
    if IsLeapYear(y) then 366 else 365
  }

  /** Days from 0000-01-01 to the first day of year `y` (negative before
      it), counted one year at a time. */
  function DaysBeforeYear(y: int): int
    decreases if y >= 0 then y else -y
  {
    if y == 0 then 0
    else if y > 0 then DaysBeforeYear(y - 1) + DaysInYear(y - 1)
    else DaysBeforeYear(y + 1) - DaysInYear(y)
  }

  /** The closed form LocalDate.toEpochDay uses for the same count. */
  function DaysBeforeYearFormula(y: int): int {
    365 * y + (y + 3) / 4 - (y + 99) / 100 + (y + 399) / 400
  }

  /** Days from the first of January to the first of month `m` of year `y`. */
  function DaysBeforeMonth(y: int, m: int): int
    requires 1 <= m <= 12
  {
    var base :=
      if m == 1 then 0 else if m == 2 then 31 else if m == 3 then 59
      else if m == 4 then 90 else if m == 5 then 120 else if m == 6 then 151
      else if m == 7 then 181 else if m == 8 then 212 else if m == 9 then 243
      else if m == 10 then 273 else if m == 11 then 304 else 334;
    if m > 2 && IsLeapYear(y) then base + 1 else base
  }

  /** LocalDate.toEpochDay: days since 1970-01-01. */
  function EpochDay(d: LocalDate): int {
    DaysBeforeYear(d.year) + DaysBeforeMonth(d.year, d.month) + d.day - 1 - 719528
  }

  /** DayOfWeek.getValue: ISO weekday, Monday = 1 .. Sunday = 7
      (1970-01-01 was a Thursday). */
  function Weekday(d: LocalDate): (w: int)
    ensures 1 <= w <= 7
  {
    WeekdayOfEpoch(EpochDay(d))
  }

  /** The ISO weekday of an epoch day. */
  function WeekdayOfEpoch(e: int): (w: int)
    ensures 1 <= w <= 7
  {
    (e + 3) % 7 + 1
  }

  /** The day after `d`. */
  function NextDay(d: LocalDate): (r: LocalDate)
    ensures EpochDay(r) == EpochDay(d) + 1
  {
    if d.day < DaysInMonth(d.year, d.month) then Date(d.year, d.month, d.day + 1)
    else if d.month < 12 then
      MonthStep(d.year, d.month);
      Date(d.year, d.month + 1, 1)
    else
      YearStep(d.year);
      Date(d.year + 1, 1, 1)
  }

  /** The day before `d`. */
  function PrevDay(d: LocalDate): (r: LocalDate)
    ensures EpochDay(r) == EpochDay(d) - 1
  {
    if d.day > 1 then Date(d.year, d.month, d.day - 1)
    else if d.month > 1 then
      MonthStep(d.year, d.month - 1);
      Date(d.year, d.month - 1, DaysInMonth(d.year, d.month - 1))
    else
      YearStep(d.year - 1);
      Date(d.year - 1, 12, 31)
  }

  /** LocalDate.plusDays(n) (minusDays(k) is plusDays(-k)). */
  function PlusDays(d: LocalDate, n: int): (r: LocalDate)
    ensures EpochDay(r) == EpochDay(d) + n
    decreases if n >= 0 then n else -n
  {
    if n == 0 then d
    else if n > 0 then PlusDays(NextDay(d), n - 1)
    else PlusDays(PrevDay(d), n + 1)
  }

  function MinusDays(d: LocalDate, n: int): (r: LocalDate)
    ensures EpochDay(r) == EpochDay(d) - n
  {
    PlusDays(d, -n)
  }

  /** LocalDate.withDayOfMonth(1) and withDayOfMonth(lengthOfMonth()). */
  function FirstOfMonth(d: LocalDate): (r: LocalDate)
    ensures r.year == d.year && r.month == d.month && r.day == 1
  {
    Date(d.year, d.month, 1)
  }

  function LastOfMonth(d: LocalDate): (r: LocalDate)
    ensures r.year == d.year && r.month == d.month
    ensures r.day == DaysInMonth(d.year, d.month)
  {
    Date(d.year, d.month, DaysInMonth(d.year, d.month))
  }

  // ---------------------------------------------------------------------
  // Ordering: LocalDate.compareTo compares year, then month, then day.

  predicate IsBefore(a: Date, b: Date) {
    a.year < b.year
    || (a.year == b.year && (a.month < b.month || (a.month == b.month && a.day < b.day)))
  }

  /** `a <= b` for LocalDate. */
  predicate OnOrBefore(a: Date, b: Date) {
    a == b || IsBefore(a, b)
  }

  /** `d in lo..hi` for a LocalDate closed range. */
  predicate InRange(d: Date, lo: Date, hi: Date) {
    OnOrBefore(lo, d) && OnOrBefore(d, hi)
  }

  lemma YearStep(y: int)
    ensures DaysBeforeYear(y + 1) == DaysBeforeYear(y) + DaysInYear(y)
    ensures DaysBeforeMonth(y, 12) + 31 == DaysInYear(y)
  {
  }

  lemma FormulaStep(y: int)
    ensures DaysBeforeYearFormula(y + 1) == DaysBeforeYearFormula(y) + DaysInYear(y)
  {
    StepOver4(y);
    StepOver100(y);
    StepOver400(y);
    LeapCount(y);
  }

  lemma LeapCount(y: int)
    ensures DaysInYear(y) == 365 + (if y % 4 == 0 then 1 else 0) - (if y % 100 == 0 then 1 else 0)
                                 + (if y % 400 == 0 then 1 else 0)
  {
    assert y % 400 == 0 ==> y % 100 == 0 by {
      if y % 400 == 0 {
        assert y == 100 * (4 * (y / 400));
      }
    }
    assert y % 100 == 0 ==> y % 4 == 0 by {
      if y % 100 == 0 {
        assert y == 4 * (25 * (y / 100));
      }
    }
  }

  lemma StepOver4(y: int)
    ensures (y + 4) / 4 - (y + 3) / 4 == (if y % 4 == 0 then 1 else 0)
  {
  }

  lemma StepOver100(y: int)
    ensures (y + 100) / 100 - (y + 99) / 100 == (if y % 100 == 0 then 1 else 0)
  {
  }

  lemma StepOver400(y: int)
    ensures (y + 400) / 400 - (y + 399) / 400 == (if y % 400 == 0 then 1 else 0)
  {
  }

  /** The year-by-year count and the closed form agree on every year. */
  lemma {:induction false} DaysBeforeYearClosed(y: int)
    ensures DaysBeforeYear(y) == DaysBeforeYearFormula(y)
    decreases if y >= 0 then y else -y
  {
    if y > 0 {
      DaysBeforeYearClosed(y - 1);
      FormulaStep(y - 1);
    } else if y < 0 {
      DaysBeforeYearClosed(y + 1);
      FormulaStep(y);
    }
  }

  lemma MonthStep(y: int, m: int)
    requires 1 <= m < 12
    ensures DaysBeforeMonth(y, m + 1) == DaysBeforeMonth(y, m) + DaysInMonth(y, m)
  {
  }

  lemma {:induction false} DaysBeforeYearMonotone(y: int, z: int)
    requires y < z
    ensures DaysBeforeYear(y) + DaysInYear(y) <= DaysBeforeYear(z)
    decreases z - y
  {
    YearStep(y);
    if y + 1 < z {
      DaysBeforeYearMonotone(y + 1, z);
    }
  }

  lemma DaysBeforeMonthMonotone(y: int, m: int, n: int)
    requires 1 <= m < n <= 12
    ensures DaysBeforeMonth(y, m) + DaysInMonth(y, m) <= DaysBeforeMonth(y, n)
  {
  }

  /** The offset of `d` within its year is below the year's length. */
  lemma DayOfYearBound(d: LocalDate)
    ensures 0 <= DaysBeforeMonth(d.year, d.month) + d.day - 1 < DaysInYear(d.year)
  {
    YearStep(d.year);
    if d.month < 12 {
      DaysBeforeMonthMonotone(d.year, d.month, 12);
    }
  }

  /** The calendar order of LocalDate is the order of epoch days, and the
      epoch day identifies the date. */
  lemma EpochOrder(a: LocalDate, b: LocalDate)
    ensures IsBefore(a, b) <==> EpochDay(a) < EpochDay(b)
    ensures a == b <==> EpochDay(a) == EpochDay(b)
  {
    DayOfYearBound(a);
    DayOfYearBound(b);
    if a.year < b.year {
      DaysBeforeYearMonotone(a.year, b.year);
    } else if b.year < a.year {
      DaysBeforeYearMonotone(b.year, a.year);
    } else if a.month < b.month {
      DaysBeforeMonthMonotone(a.year, a.month, b.month);
    } else if b.month < a.month {
      DaysBeforeMonthMonotone(a.year, b.month, a.month);
    }
  }

  lemma InRangeEpoch(d: LocalDate, lo: LocalDate, hi: LocalDate)
    ensures InRange(d, lo, hi) <==> EpochDay(lo) <= EpochDay(d) <= EpochDay(hi)
  {
    EpochOrder(lo, d);
    EpochOrder(d, hi);
  }

  /** Stepping `n` days moves the ISO weekday `n` places round the week. */
  lemma WeekdayPlusDays(d: LocalDate, n: int)
    ensures Weekday(PlusDays(d, n)) == (Weekday(d) - 1 + n) % 7 + 1
  {
    var e := EpochDay(d);
    assert Weekday(PlusDays(d, n)) == WeekdayOfEpoch(e + n);
    EpochWeekdayShift(e, n);
  }

  /** The weekday arithmetic of `WeekdayPlusDays`, on epoch days alone. */
  lemma EpochWeekdayShift(e: int, n: int)
    ensures WeekdayOfEpoch(e + n) == (WeekdayOfEpoch(e) - 1 + n) % 7 + 1
  {
    var q, r := (e + 3) / 7, (e + 3) % 7;
    assert e + n + 3 == 7 * q + (r + n);
    ModShift(r + n, q);
  }

  /** Whole weeks forwards or backwards keep the weekday. */
  lemma WeekdayPlusWeek(d: LocalDate)
    ensures Weekday(PlusDays(d, 7)) == Weekday(d)
    ensures Weekday(PlusDays(d, -7)) == Weekday(d)
  {
    var e := EpochDay(d);
    assert Weekday(PlusDays(d, 7)) == WeekdayOfEpoch(e + 7);
    assert Weekday(PlusDays(d, -7)) == WeekdayOfEpoch(e - 7);
    EpochWholeWeek(e);
  }

  lemma EpochWholeWeek(e: int)
    ensures WeekdayOfEpoch(e + 7) == WeekdayOfEpoch(e) && WeekdayOfEpoch(e - 7) == WeekdayOfEpoch(e)
  {
    ModShift(e + 3, 1);
    ModShift(e - 4, 1);
  }

  /** Stepping forwards or backwards inside one ISO week (Monday to
      Sunday) adds the step to the weekday. */
  lemma WeekdayWithinWeek(d: LocalDate, k: int)
    requires 1 <= Weekday(d) + k <= 7
    ensures Weekday(PlusDays(d, k)) == Weekday(d) + k
  {
    var e := EpochDay(d);
    assert Weekday(PlusDays(d, k)) == WeekdayOfEpoch(e + k);
    EpochWithinWeek(e, k);
  }

  /** Stepping from one ISO week into the next subtracts a week from the
      sum. */
  lemma WeekdayIntoNextWeek(d: LocalDate, k: int)
    requires 8 <= Weekday(d) + k <= 14
    ensures Weekday(PlusDays(d, k)) == Weekday(d) + k - 7
  {
    var e := EpochDay(d);
    assert Weekday(PlusDays(d, k)) == WeekdayOfEpoch(e + k);
    EpochIntoNextWeek(e, k);
  }

  lemma EpochWithinWeek(e: int, k: int)
    requires 1 <= WeekdayOfEpoch(e) + k <= 7
    ensures WeekdayOfEpoch(e + k) == WeekdayOfEpoch(e) + k
  {
    var q, r := (e + 3) / 7, (e + 3) % 7;
    assert e + k + 3 == 7 * q + (r + k);
    ModShift(r + k, q);
  }

  lemma EpochIntoNextWeek(e: int, k: int)
    requires 8 <= WeekdayOfEpoch(e) + k <= 14
    ensures WeekdayOfEpoch(e + k) == WeekdayOfEpoch(e) + k - 7
  {
    var q, r := (e + 3) / 7, (e + 3) % 7;
    assert e + k + 3 == 7 * (q + 1) + (r + k - 7);
    ModShift(r + k - 7, q + 1);
  }

  lemma ModShift(x: int, q: int)
    ensures (7 * q + x) % 7 == x % 7
  {
    var a, b := (7 * q + x) / 7, x / 7;
    assert 7 * q + x == 7 * a + (7 * q + x) % 7;
    assert x == 7 * b + x % 7;
    assert 7 * (a - q - b) == x % 7 - (7 * q + x) % 7;
  }

  lemma PlusDaysAdd(d: LocalDate, m: int, n: int)
    ensures PlusDays(PlusDays(d, m), n) == PlusDays(d, m + n)
  {
    EpochOrder(PlusDays(PlusDays(d, m), n), PlusDays(d, m + n));
  }

  // ---------------------------------------------------------------------
  // Decimal text.

  predicate IsDigit(c: char) {
    '0' <= c <= '9'
  }

  predicate AllDigits(s: seq<char>) {
    forall i :: 0 <= i < |s| ==> IsDigit(s[i])
  }

  function DigitChar(n: int): (c: char)
    requires 0 <= n <= 9
    ensures IsDigit(c) && c as int - '0' as int == n
  {
    ('0' as int + n) as char
  }

  /** The number a string of decimal digits denotes (leading zeros allowed). */
  function DecimalValue(s: seq<char>): nat
    requires AllDigits(s)
  {
    if |s| == 0 then 0
    else 10 * DecimalValue(s[..|s| - 1]) + (s[|s| - 1] as int - '0' as int)
  }

  function Pow10(w: nat): (p: nat)
    ensures p >= 1
  {
    if w == 0 then 1 else 10 * Pow10(w - 1)
  }

  /** The last `w` decimal digits of `n`, zero-padded to width `w`. */
  function Fixed(n: nat, w: nat): (s: seq<char>)
    ensures |s| == w && AllDigits(s)
  {
    if w == 0 then [] else Fixed(n / 10, w - 1) + [DigitChar(n % 10)]
  }

  /** The shortest decimal text of `n` (Kotlin's Int/Long toString). */
  function Digits(n: nat): (s: seq<char>)
    ensures |s| >= 1 && AllDigits(s)
    ensures n >= 10 ==> |s| >= 2
    ensures n >= 100 ==> |s| >= 3
    ensures n >= 1000 ==> |s| >= 4
    ensures n >= 10000 ==> |s| >= 5
  {
    if n < 10 then [DigitChar(n)] else Digits(n / 10) + [DigitChar(n % 10)]
  }

  lemma {:induction false} FixedValue(n: nat, w: nat)
    requires n < Pow10(w)
    ensures DecimalValue(Fixed(n, w)) == n
  {
    if w > 0 {
      FixedValue(n / 10, w - 1);
      var s := Fixed(n, w);
      assert s[..|s| - 1] == Fixed(n / 10, w - 1);
    }
  }

  lemma {:induction false} FixedCanonical(s: seq<char>)
    requires AllDigits(s)
    ensures Fixed(DecimalValue(s), |s|) == s
  {
    if |s| > 0 {
      var p := s[..|s| - 1];
      FixedCanonical(p);
      var v := DecimalValue(s);
      assert v / 10 == DecimalValue(p);
      assert v % 10 == s[|s| - 1] as int - '0' as int;
    }
  }

  lemma {:induction false} DigitsValue(n: nat)
    ensures DecimalValue(Digits(n)) == n
  {
    if n >= 10 {
      DigitsValue(n / 10);
      var s := Digits(n);
      assert s[..|s| - 1] == Digits(n / 10);
    }
  }

  // ---------------------------------------------------------------------
  // LocalDate.toString and LocalDate.parse.

  /** The year field of LocalDate.toString: four digits for 0..9999, a `+`
      and all digits above, a `-` and at least four digits below zero. */
  function YearText(y: int): (t: seq<char>)
    ensures |t| >= 4
    ensures 0 <= y <= 9999 <==> |t| == 4
  {
    if 0 <= y <= 9999 then Fixed(y, 4)
    else if y > 9999 then ['+'] + Digits(y)
    else if y > -10000 then ['-'] + Fixed(-y, 4)
    else ['-'] + Digits(-y)
  }

  /** LocalDate.toString: `yyyy-MM-dd` (with the year forms above). */
  function ToString(d: LocalDate): (s: seq<char>)
    ensures |s| >= 10
    ensures 0 <= d.year <= 9999 ==> |s| == 10
  {
    YearText(d.year) + ['-'] + Fixed(d.month, 2) + ['-'] + Fixed(d.day, 2)
  }

  /** LocalDate.parse on the unsigned four-digit form: exactly
      `dddd-dd-dd`, and a month and day that exist (strict resolution). */
  function Parse(s: seq<char>): (r: Option<LocalDate>)
    ensures r.Some? ==> |s| == 10 && s[4] == '-' && s[7] == '-' && 0 <= r.value.year <= 9999
  {
    if |s| == 10 && s[4] == '-' && s[7] == '-'
       && AllDigits(s[0..4]) && AllDigits(s[5..7]) && AllDigits(s[8..10]) then
      var d := Date(DecimalValue(s[0..4]), DecimalValue(s[5..7]), DecimalValue(s[8..10]));
      assert DecimalValue(s[0..4]) < Pow10(4) by { FixedCanonical(s[0..4]); DecimalBound(s[0..4]); }
      if d.Valid() then Some(d) else None
    else None
  }

  lemma {:induction false} DecimalBound(s: seq<char>)
    requires AllDigits(s)
    ensures DecimalValue(s) < Pow10(|s|)
  {
    if |s| > 0 {
      DecimalBound(s[..|s| - 1]);
    }
  }

  /** Printing then parsing a four-digit-year date gives it back. */
  lemma ParseToString(d: LocalDate)
    requires 0 <= d.year <= 9999
    ensures Parse(ToString(d)) == Some(d)
  {
    var s := ToString(d);
    assert s[0..4] == Fixed(d.year, 4);
    assert s[5..7] == Fixed(d.month, 2);
    assert s[8..10] == Fixed(d.day, 2);
    FixedValue(d.year, 4);
    FixedValue(d.month, 2);
    FixedValue(d.day, 2);
  }

  /** Whatever parses is already in LocalDate.toString's canonical form. */
  lemma ToStringParse(s: seq<char>)
    requires Parse(s).Some?
    ensures ToString(Parse(s).value) == s
  {
    var d := Parse(s).value;
    FixedCanonical(s[0..4]);
    FixedCanonical(s[5..7]);
    FixedCanonical(s[8..10]);
    assert s == s[0..4] + ['-'] + s[5..7] + ['-'] + s[8..10];
  }

  /** For a four-digit-year date, text equality with its printed form is
      the same as parsing to it. */
  lemma TextIsDate(s: seq<char>, d: LocalDate)
    requires 0 <= d.year <= 9999
    ensures s == ToString(d) <==> Parse(s) == Some(d)
  {
    ParseToString(d);
    if Parse(s) == Some(d) {
      ToStringParse(s);
    }
  }

  /** Reads a year back from YearText. */
  ghost function YearValue(t: seq<char>): int
    requires |t| >= 1
  {
    if t[0] == '+' && AllDigits(t[1..]) then DecimalValue(t[1..])
    else if t[0] == '-' && AllDigits(t[1..]) then var v: int := DecimalValue(t[1..]); -v
    else if AllDigits(t) then DecimalValue(t)
    else 0
  }

  lemma YearTextValue(y: int)
    ensures |YearText(y)| >= 4
    ensures YearValue(YearText(y)) == y
  {
    var t := YearText(y);
    if 0 <= y <= 9999 {
      FixedValue(y, 4);
    } else if y > 9999 {
      assert t[1..] == Digits(y);
      DigitsValue(y);
    } else if y > -10000 {
      assert t[1..] == Fixed(-y, 4);
      FixedValue(-y, 4);
    } else {
      assert t[1..] == Digits(-y);
      DigitsValue(-y);
    }
  }

  /** Distinct dates print differently, whatever their year. */
  lemma ToStringInjective(a: LocalDate, b: LocalDate)
    requires ToString(a) == ToString(b)
    ensures a == b
  {
    var s := ToString(a);
    var n := |s|;
    assert s[n - 5..n - 3] == Fixed(a.month, 2) == Fixed(b.month, 2);
    assert s[n - 2..n] == Fixed(a.day, 2) == Fixed(b.day, 2);
    assert s[..n - 6] == YearText(a.year) == YearText(b.year);
    YearTextValue(a.year);
    YearTextValue(b.year);
    FixedValue(a.month, 2);
    FixedValue(b.month, 2);
    FixedValue(a.day, 2);
    FixedValue(b.day, 2);
  }
}
