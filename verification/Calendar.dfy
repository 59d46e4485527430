/** rtc::TmToSeconds: seconds since the Epoch from broken-down time, compared with a calendar
    that counts day by day, and with the closed formula of POSIX.1-2017 Base Definitions,
    section 4.16. */
module Calendar {

  // struct tm: year counts from 1900 and mon from 0.
  datatype Tm = Tm(year: int, mon: int, mday: int, hour: int, min: int, sec: int)

  // ---------------------------------------------------------------------------------------
  // The code
  // ---------------------------------------------------------------------------------------

  const MDAYS: seq<int> := [31, 28, 31, 30, 31, 30, 31, 31, 30, 31, 30, 31]
  const CUMUL_MDAYS: seq<int> := [0, 31, 59, 90, 120, 151, 181, 212, 243, 273, 304, 334]

  predicate ExpiryInLeapYear(year: int) {
    year % 4 == 0 && (year % 100 != 0 || year % 400 == 0)
  }

  function LeapDays(year: int): int {
    (year / 4 - 1970 / 4) - (year / 100 - 1970 / 100) + (year / 400 - 1970 / 400)
  }

  /** The day of the year is summed up into `day`, then the leap days of all years up to and
      with this one, then one is taken back in the January and February of a leap year. */
  function TmToSeconds(tm: Tm): int {
    var year := tm.year + 1900;
    var month := tm.mon;
    var day := tm.mday - 1;
    var leap := ExpiryInLeapYear(year);
    if year < 1970 then -1
    else if month < 0 || month > 11 then -1
    else if day < 0 || day >= MDAYS[month] + (if leap && month == 2 - 1 then 1 else 0) then -1
    else if tm.hour < 0 || tm.hour > 23 then -1
    else if tm.min < 0 || tm.min > 59 then -1
    else if tm.sec < 0 || tm.sec > 59 then -1
    else
      var yearDay := day + CUMUL_MDAYS[month];
      var withLeapDays := yearDay + LeapDays(year);
      var days := if leap && month <= 2 - 1 then withLeapDays - 1 else withLeapDays;
      ((((year - 1970) * 365 + days) * 24 + tm.hour) * 60 + tm.min) * 60 + tm.sec
  }

  // ---------------------------------------------------------------------------------------
  // The calendar, with years and months as people write them
  // ---------------------------------------------------------------------------------------

  datatype Date = Date(year: int, month: int, day: int)

  const EPOCH := Date(1970, 1, 1)

  // Every fourth year, but of the full centuries only every fourth.
  predicate IsLeap(year: int) {
    if year % 100 == 0 then year % 400 == 0 else year % 4 == 0
  }

  function DaysInMonth(year: int, month: int): int {
    if month == 2 then (if IsLeap(year) then 29 else 28)
    else if month in {4, 6, 9, 11} then 30
    else 31
  }

  predicate ValidDate(d: Date) {
    1970 <= d.year && 1 <= d.month <= 12 && 1 <= d.day <= DaysInMonth(d.year, d.month)
  }

  function NextDay(d: Date): Date {
    if d.day < DaysInMonth(d.year, d.month) then Date(d.year, d.month, d.day + 1)
    else if d.month < 12 then Date(d.year, d.month + 1, 1)
    else Date(d.year + 1, 1, 1)
  }

  function PrevDay(d: Date): Date {
    if d.day > 1 then Date(d.year, d.month, d.day - 1)
    else if d.month > 1 then Date(d.year, d.month - 1, DaysInMonth(d.year, d.month - 1))
    else Date(d.year - 1, 12, 31)
  }

  /** The number of days between the Epoch and the date, counted one by one. */
  function DayNumber(d: Date): nat
    requires ValidDate(d)
    decreases d.year, d.month, d.day
  {
    if d == EPOCH then 0 else DayNumber(PrevDay(d)) + 1
  }

  /** The number of days of the year before the date, a month at a time. */
  function YearDay(year: int, month: int, day: int): int
    decreases month
  {
    if month <= 1 then day - 1 else YearDay(year, month - 1, day) + DaysInMonth(year, month - 1)
  }

  function DateOf(tm: Tm): Date {
    Date(tm.year + 1900, tm.mon + 1, tm.mday)
  }

  predicate ValidTm(tm: Tm) {
    ValidDate(DateOf(tm)) && 0 <= tm.hour <= 23 && 0 <= tm.min <= 59 && 0 <= tm.sec <= 59
  }

  // ---------------------------------------------------------------------------------------
  // The day count
  // ---------------------------------------------------------------------------------------

  lemma DivIs(y: int, k: int, q: int, r: int)
    requires k > 0 && y == q * k + r && 0 <= r < k
    ensures y / k == q
  {
    var d := y / k - q;
    assert d * k == r - y % k;
    assert d >= 1 ==> d * k >= k;
    assert d <= -1 ==> d * k <= -k;
  }

  lemma MultipleLeavesNothing(q: int, k: int)
    requires k > 0
    ensures (q * k) % k == 0
  {
    DivIs(q * k, k, q, 0);
  }

  lemma CenturiesAreMultiplesOfFour(year: int)
    ensures year % 100 == 0 ==> year % 4 == 0
    ensures year % 400 == 0 ==> year % 100 == 0
  {
    var c, f := year / 100, year / 400;
    MultipleLeavesNothing(25 * c, 4);
    MultipleLeavesNothing(4 * f, 100);
    assert year % 100 == 0 ==> year == 25 * c * 4;
    assert year % 400 == 0 ==> year == 4 * f * 100;
  }

  lemma SameLeapYears(year: int)
    ensures ExpiryInLeapYear(year) <==> IsLeap(year)
  {
    CenturiesAreMultiplesOfFour(year);
  }

  lemma QuotientStep(y: int, k: int)
    requires k > 1
    ensures y / k - (y - 1) / k == if y % k == 0 then 1 else 0
  {
    var q, r := y / k, y % k;
    assert y == q * k + r;
    if r == 0 {
      assert y - 1 == (q - 1) * k + (k - 1);
      DivIs(y - 1, k, q - 1, k - 1);
    } else {
      DivIs(y - 1, k, q, r - 1);
    }
  }

  // A year adds a leap day exactly when it is a leap year.
  lemma LeapDaysStep(year: int)
    ensures LeapDays(year) - LeapDays(year - 1) == if IsLeap(year) then 1 else 0
  {
    QuotientStep(year, 4);
    QuotientStep(year, 100);
    QuotientStep(year, 400);
    CenturiesAreMultiplesOfFour(year);
  }

  // The day count of the code.
  function CodeDays(d: Date): int
    requires 1 <= d.month <= 12
  {
    (d.year - 1970) * 365 + d.day - 1 + CUMUL_MDAYS[d.month - 1] + LeapDays(d.year)
    - (if IsLeap(d.year) && d.month <= 2 then 1 else 0)
  }

  lemma MonthTable(year: int, month: int)
    requires 1 <= month <= 12
    ensures DaysInMonth(year, month) == MDAYS[month - 1] + (if IsLeap(year) && month == 2 then 1 else 0)
    ensures month < 12 ==> CUMUL_MDAYS[month] == CUMUL_MDAYS[month - 1] + MDAYS[month - 1]
  {
    assert month in {1, 2, 3, 4, 5, 6, 7, 8, 9, 10, 11, 12};
  }

  lemma PrevDayIsValid(d: Date)
    requires ValidDate(d) && d != EPOCH
    ensures ValidDate(PrevDay(d)) && NextDay(PrevDay(d)) == d
  {
  }

  lemma CodeDaysStep(d: Date)
    requires ValidDate(d) && d != EPOCH
    ensures CodeDays(d) == CodeDays(PrevDay(d)) + 1
  {
    if d.day == 1 {
      if d.month > 1 {
        MonthTable(d.year, d.month - 1);
      } else {
        LeapDaysStep(d.year);
      }
    }
  }

  lemma {:induction false} CodeDaysCount(d: Date)
    requires ValidDate(d)
    ensures CodeDays(d) == DayNumber(d)
    decreases d.year, d.month, d.day
  {
    if d != EPOCH {
      CodeDaysStep(d);
      CodeDaysCount(PrevDay(d));
    }
  }

  // ---------------------------------------------------------------------------------------
  // Main results
  // ---------------------------------------------------------------------------------------

  function Seconds(days: int, tm: Tm): int {
    ((days * 24 + tm.hour) * 60 + tm.min) * 60 + tm.sec
  }

  // The branches of the code, with the arithmetic left in one place.
  lemma Branches(tm: Tm)
    ensures !ValidTm(tm) ==> TmToSeconds(tm) == -1
    ensures ValidTm(tm) ==> TmToSeconds(tm) == Seconds(CodeDays(DateOf(tm)), tm)
  {
    SameLeapYears(tm.year + 1900);
    if 0 <= tm.mon <= 11 {
      MonthTable(tm.year + 1900, tm.mon + 1);
    }
  }

  /** For every valid date the result is the day-by-day count turned into seconds; any other
      input is answered with -1, which no valid date has. */
  lemma CountsSeconds(tm: Tm)
    ensures ValidTm(tm) ==> TmToSeconds(tm) == Seconds(DayNumber(DateOf(tm)), tm)
    ensures TmToSeconds(tm) == -1 <==> !ValidTm(tm)
  {
    Branches(tm);
    if ValidTm(tm) {
      CodeDaysCount(DateOf(tm));
    }
  }

  // One second later.
  function NextSecond(tm: Tm): Tm {
    if tm.sec < 59 then tm.(sec := tm.sec + 1)
    else if tm.min < 59 then tm.(sec := 0, min := tm.min + 1)
    else if tm.hour < 23 then tm.(sec := 0, min := 0, hour := tm.hour + 1)
    else
      var d := NextDay(DateOf(tm));
      Tm(d.year - 1900, d.month - 1, d.day, 0, 0, 0)
  }

  function PrevSecond(tm: Tm): Tm {
    if tm.sec > 0 then tm.(sec := tm.sec - 1)
    else if tm.min > 0 then tm.(sec := 59, min := tm.min - 1)
    else if tm.hour > 0 then tm.(sec := 59, min := 59, hour := tm.hour - 1)
    else
      var d := PrevDay(DateOf(tm));
      Tm(d.year - 1900, d.month - 1, d.day, 23, 59, 59)
  }

  const EPOCH_TM := Tm(70, 0, 1, 0, 0, 0)

  lemma NextDayCounts(d: Date)
    requires ValidDate(d)
    ensures ValidDate(NextDay(d)) && DayNumber(NextDay(d)) == DayNumber(d) + 1
  {
    assert PrevDay(NextDay(d)) == d;
  }

  /** Advancing the date by one second gives a valid date and advances the result by one. */
  lemma NextSecondAddsOne(tm: Tm)
    requires ValidTm(tm)
    ensures ValidTm(NextSecond(tm)) && TmToSeconds(NextSecond(tm)) == TmToSeconds(tm) + 1
  {
    hide TmToSeconds, IsLeap, DaysInMonth, DayNumber;
    CountsSeconds(tm);
    CountsSeconds(NextSecond(tm));
    if tm.sec == 59 && tm.min == 59 && tm.hour == 23 {
      NextDayCounts(DateOf(tm));
      assert DateOf(NextSecond(tm)) == NextDay(DateOf(tm));
    }
  }

  lemma PrevSecondTakesBack(tm: Tm)
    requires ValidTm(tm) && tm != EPOCH_TM
    ensures ValidTm(PrevSecond(tm)) && NextSecond(PrevSecond(tm)) == tm
  {
    if tm.sec == 0 && tm.min == 0 && tm.hour == 0 {
      PrevDayIsValid(DateOf(tm));
      assert DateOf(PrevSecond(tm)) == PrevDay(DateOf(tm));
    }
  }

  /** The broken-down time n seconds after the Epoch. */
  function TmAt(n: nat): Tm {
    if n == 0 then EPOCH_TM else NextSecond(TmAt(n - 1))
  }

  /** Every number of seconds is the result for the date that many seconds after the Epoch... */
  lemma {:induction false} SecondsOfTmAt(n: nat)
    ensures ValidTm(TmAt(n)) && TmToSeconds(TmAt(n)) == n
  {
    if n > 0 {
      SecondsOfTmAt(n - 1);
      NextSecondAddsOne(TmAt(n - 1));
    }
  }

  lemma EpochIsZero()
    ensures TmToSeconds(EPOCH_TM) == 0
  {
    CountsSeconds(EPOCH_TM);
  }

  /** ... and of no other valid date: counting that many seconds leads back to the date. */
  lemma {:induction false} TmAtOfSeconds(tm: Tm)
    requires ValidTm(tm)
    ensures TmToSeconds(tm) >= 0 && TmAt(TmToSeconds(tm)) == tm
    decreases tm.year, tm.mon, tm.mday, tm.hour, tm.min, tm.sec
  {
    hide TmToSeconds, IsLeap, DaysInMonth, NextSecond;
    if tm == EPOCH_TM {
      EpochIsZero();
    } else {
      PrevSecondTakesBack(tm);
      NextSecondAddsOne(PrevSecond(tm));
      TmAtOfSeconds(PrevSecond(tm));
    }
  }

  lemma {:induction false} YearDayIs(year: int, month: int, day: int)
    requires 1 <= month <= 12
    ensures YearDay(year, month, day) == day - 1 + CUMUL_MDAYS[month - 1] + (if IsLeap(year) && month > 2 then 1 else 0)
    decreases month
  {
    if month > 1 {
      YearDayIs(year, month - 1, day);
      MonthTable(year, month - 1);
    }
  }

  // The number of leap days before the year, which counts from 1900, as the formula does.
  lemma LeapDaysBefore(year: int)
    ensures LeapDays(year + 1899) == (year - 69) / 4 - (year - 1) / 100 + (year + 299) / 400
  {
    assert (year - 69) / 4 == (year + 1899) / 4 - 492;
    assert (year - 1) / 100 == (year + 1899) / 100 - 19;
    assert (year + 299) / 400 == (year + 1899) / 400 - 4;
  }

  lemma DaysByYearDay(d: Date)
    requires ValidDate(d)
    ensures CodeDays(d) == (d.year - 1970) * 365 + YearDay(d.year, d.month, d.day) + LeapDays(d.year - 1)
  {
    YearDayIs(d.year, d.month, d.day);
    LeapDaysStep(d.year);
  }

  lemma SumUp(tm: Tm, yearDay: int, fourths: int, centuries: int, fourCenturies: int)
    ensures Seconds((tm.year - 70) * 365 + yearDay + (fourths - centuries + fourCenturies), tm)
            == tm.sec + tm.min * 60 + tm.hour * 3600 + yearDay * 86400 + (tm.year - 70) * 31536000
               + fourths * 86400 - centuries * 86400 + fourCenturies * 86400
  {
  }

  /** The formula of POSIX.1-2017 Base Definitions, section 4.16. */
  function PosixSeconds(tm: Tm): int {
    tm.sec + tm.min * 60 + tm.hour * 3600 + YearDay(tm.year + 1900, tm.mon + 1, tm.mday) * 86400
    + (tm.year - 70) * 31536000 + ((tm.year - 69) / 4) * 86400
    - ((tm.year - 1) / 100) * 86400 + ((tm.year + 299) / 400) * 86400
  }

  lemma DaysGivePosixSeconds(tm: Tm)
    requires ValidTm(tm)
    ensures Seconds(CodeDays(DateOf(tm)), tm) == PosixSeconds(tm)
  {
    hide Seconds, CodeDays, YearDay, LeapDays, IsLeap, DaysInMonth;
    DaysByYearDay(DateOf(tm));
    LeapDaysBefore(tm.year);
    SumUp(tm, YearDay(tm.year + 1900, tm.mon + 1, tm.mday),
          (tm.year - 69) / 4, (tm.year - 1) / 100, (tm.year + 299) / 400);
  }

  /** For every valid date the result is what the closed formula gives. */
  lemma MeetsPosixFormula(tm: Tm)
    requires ValidTm(tm)
    ensures TmToSeconds(tm) == PosixSeconds(tm)
  {
    Branches(tm);
    DaysGivePosixSeconds(tm);
  }
}
