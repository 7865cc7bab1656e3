/**
 * The time value `new Date("YYYY-MM-DD").getTime()` that the blog code
 * computes from the date in a post's identifier. A date-only ISO string
 * is read as midnight UTC. Node's engine (V8) rejects a month outside
 * 1–12 or a day outside 1–31 (an Invalid Date, whose time value is NaN) and
 * lets a day past the end of its month run on into the next month.
 */
module Calendar {
  import opened Wrappers
  import opened Strings

  const MillisecondsPerDay := 86400000

  /** Days from 0000-01-01 to 1970-01-01 in the proleptic Gregorian calendar. */
  const EpochDay := 719528

  predicate IsLeapYear(y: nat) {
    y % 4 == 0 && (y % 100 != 0 || y % 400 == 0)
  }

  function YearLength(y: nat): nat {
    if IsLeapYear(y) then 366 else 365
  }

  function MonthLength(y: nat, m: nat): nat
    requires 1 <= m <= 12
  {
    if m == 2 then (if IsLeapYear(y) then 29 else 28)
    else if m == 4 || m == 6 || m == 9 || m == 11 then 30
    else 31
  }

  /** The days of the years before `y`, counted from year 0: 365 each, plus one per leap year. */
  function DaysBeforeYear(y: nat): nat {
    365 * y + (y + 3) / 4 - (y + 99) / 100 + (y + 399) / 400
  }

  /** The days of the months of year `y` before month `m`. */
  function DaysBeforeMonth(y: nat, m: nat): nat
    requires 1 <= m <= 12
  {
    var leap := if IsLeapYear(y) && m > 2 then 1 else 0;
    [0, 31, 59, 90, 120, 151, 181, 212, 243, 273, 304, 334][m - 1] + leap
  }

  /** The day number of `y-m-d` relative to 1970-01-01, days past the end of the month running on. */
  function DayNumber(y: nat, m: nat, d: nat): int
    requires 1 <= m <= 12
  {
    DaysBeforeYear(y) + DaysBeforeMonth(y, m) + d - 1 - EpochDay
  }

  /** A real calendar date. */
  predicate IsCalendarDate(y: nat, m: nat, d: nat) {
    1 <= m <= 12 && 1 <= d <= MonthLength(y, m)
  }

  /** `new Date(`${year}-${month}-${day}`).getTime()` for the strings the
      identifier pattern captures; `None` is the Invalid Date. */
  function IsoDateValue(year: string, month: string, day: string): (r: Option<int>)
    requires AllDigits(year) && AllDigits(month) && AllDigits(day)
    ensures r.Some? <==> 1 <= DecimalValue(month) <= 12 && 1 <= DecimalValue(day) <= 31
    ensures r.Some? ==> r.value % MillisecondsPerDay == 0
  {
    var y := DecimalValue(year);
    var m := DecimalValue(month);
    var d := DecimalValue(day);
    if 1 <= m <= 12 && 1 <= d <= 31 then Some(DayNumber(y, m, d) * MillisecondsPerDay) else None
  }

  /* ---------------------------------------------------------------------- */
  /* Ordering                                                                */
  /* ---------------------------------------------------------------------- */

  lemma LeapDaysStep(y: nat)
    ensures DaysBeforeYear(y + 1) == DaysBeforeYear(y) + YearLength(y)
  {
    var a := (y + 4) / 4 - (y + 3) / 4;
    var b := (y + 100) / 100 - (y + 99) / 100;
    var c := (y + 400) / 400 - (y + 399) / 400;
    QuarterStep(y);
    CenturyStep(y);
    QuadCenturyStep(y);
    Divisibility(y);
    assert DaysBeforeYear(y + 1) == DaysBeforeYear(y) + 365 + a - b + c;
  }

  lemma QuarterStep(y: nat)
    ensures (y + 4) / 4 - (y + 3) / 4 == (if y % 4 == 0 then 1 else 0)
  {
  }

  lemma CenturyStep(y: nat)
    ensures (y + 100) / 100 - (y + 99) / 100 == (if y % 100 == 0 then 1 else 0)
  {
  }

  lemma QuadCenturyStep(y: nat)
    ensures (y + 400) / 400 - (y + 399) / 400 == (if y % 400 == 0 then 1 else 0)
  {
  }

  lemma Divisibility(y: nat)
    ensures y % 400 == 0 ==> y % 100 == 0
    ensures y % 100 == 0 ==> y % 4 == 0
  {
    if y % 400 == 0 {
      assert y == 100 * (4 * (y / 400));
    }
    if y % 100 == 0 {
      assert y == 4 * (25 * (y / 100));
    }
  }

  lemma {:induction false} DaysBeforeYearGrows(y: nat, y': nat)
    requires y < y'
    ensures DaysBeforeYear(y) + YearLength(y) <= DaysBeforeYear(y')
    decreases y' - y
  {
    LeapDaysStep(y);
    if y + 1 < y' {
      DaysBeforeYearGrows(y + 1, y');
    }
  }

  lemma DaysBeforeMonthGrows(y: nat, m: nat, m': nat)
    requires 1 <= m < m' <= 12
    ensures DaysBeforeMonth(y, m) + MonthLength(y, m) <= DaysBeforeMonth(y, m')
  {
  }

  lemma LastDayOfYear(y: nat, m: nat)
    requires 1 <= m <= 12
    ensures DaysBeforeMonth(y, m) + MonthLength(y, m) <= YearLength(y)
  {
  }

  /** On real calendar dates, time values are ordered as the dates are,
      year first, then month, then day. */
  lemma DayNumberOrdered(y: nat, m: nat, d: nat, y': nat, m': nat, d': nat)
    requires IsCalendarDate(y, m, d) && IsCalendarDate(y', m', d')
    ensures DayNumber(y, m, d) < DayNumber(y', m', d') <==>
            y < y' || (y == y' && (m < m' || (m == m' && d < d')))
  {
    if y < y' {
      LastDayOfYear(y, m);
      DaysBeforeYearGrows(y, y');
    } else if y' < y {
      LastDayOfYear(y', m');
      DaysBeforeYearGrows(y', y);
    } else if m < m' {
      DaysBeforeMonthGrows(y, m, m');
    } else if m' < m {
      DaysBeforeMonthGrows(y, m', m);
    }
  }

  /** The same for the time values of date strings. */
  lemma IsoDateOrdered(year: string, month: string, day: string, year': string, month': string, day': string)
    requires AllDigits(year) && AllDigits(month) && AllDigits(day)
    requires AllDigits(year') && AllDigits(month') && AllDigits(day')
    requires IsCalendarDate(DecimalValue(year), DecimalValue(month), DecimalValue(day))
    requires IsCalendarDate(DecimalValue(year'), DecimalValue(month'), DecimalValue(day'))
    ensures IsoDateValue(year, month, day).Some? && IsoDateValue(year', month', day').Some?
    ensures var y, m, d := DecimalValue(year), DecimalValue(month), DecimalValue(day);
            var y', m', d' := DecimalValue(year'), DecimalValue(month'), DecimalValue(day');
            IsoDateValue(year, month, day).value < IsoDateValue(year', month', day').value <==>
            y < y' || (y == y' && (m < m' || (m == m' && d < d')))
  {
    DayNumberOrdered(DecimalValue(year), DecimalValue(month), DecimalValue(day),
                     DecimalValue(year'), DecimalValue(month'), DecimalValue(day'));
  }

  lemma TwoDigits(s: string)
    requires |s| == 2 && AllDigits(s)
    ensures DecimalValue(s) == 10 * DigitValue(s[0]) + DigitValue(s[1])
  {
    var a := s[..1];
    assert a[..0] == [] && a[0] == s[0];
    assert DecimalValue(a) == DigitValue(s[0]);
  }

  lemma FourDigits(s: string)
    requires |s| == 4 && AllDigits(s)
    ensures DecimalValue(s) == 1000 * DigitValue(s[0]) + 100 * DigitValue(s[1]) + 10 * DigitValue(s[2]) + DigitValue(s[3])
  {
    var a, b := s[..3], s[..2];
    assert a[..2] == b && a[2] == s[2];
    TwoDigits(b);
    assert DecimalValue(a) == DecimalValue(b) * 10 + DigitValue(s[2]);
  }

  lemma EpochExample()
    ensures IsoDateValue("1970", "01", "01") == Some(0)
  {
    FourDigits("1970");
    TwoDigits("01");
    assert DecimalValue("1970") == 1970 && DecimalValue("01") == 1;
  }

  lemma RecentExample()
    ensures IsoDateValue("2024", "06", "20") == Some(1718841600000)
  {
    FourDigits("2024");
    TwoDigits("06");
    TwoDigits("20");
    assert DecimalValue("2024") == 2024 && DecimalValue("06") == 6 && DecimalValue("20") == 20;
    assert DayNumber(2024, 6, 20) == 19894;
  }

  lemma OlderExample()
    ensures IsoDateValue("2013", "10", "16") == Some(1381881600000)
  {
    FourDigits("2013");
    TwoDigits("10");
    TwoDigits("16");
    assert DecimalValue("2013") == 2013 && DecimalValue("10") == 10 && DecimalValue("16") == 16;
    assert DayNumber(2013, 10, 16) == 15994;
  }

  lemma InvalidMonthExample()
    ensures IsoDateValue("2024", "13", "01") == None
  {
    TwoDigits("13");
    assert DecimalValue("13") == 13;
  }
}
