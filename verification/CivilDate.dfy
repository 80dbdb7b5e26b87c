/** The budget day: from a day number to a Gregorian date and back. */
module CivilDate {

  datatype Date = Date(year: int, month: int, day: int)

  // ----- the calendar itself (RFC 3339, section 5.7 and appendix C) -----

  predicate IsLeap(year: int) {
    year % 4 == 0 && (year % 100 != 0 || year % 400 == 0)
  }

  function DaysInMonth(year: int, month: int): int {
    if month == 2 then (if IsLeap(year) then 29 else 28)
    else if month == 4 || month == 6 || month == 9 || month == 11 then 30
    else 31
  }

  predicate Valid(d: Date) {
    1 <= d.month <= 12 && 1 <= d.day <= DaysInMonth(d.year, d.month)
  }

  function Tomorrow(d: Date): Date {
    if d.day < DaysInMonth(d.year, d.month) then d.(day := d.day + 1)
    else if d.month < 12 then Date(d.year, d.month + 1, 1)
    else Date(d.year + 1, 1, 1)
  }

  /** Days of the year before the first of `month`. */
  function DaysBeforeMonth(year: int, month: int): int
    requires 1 <= month <= 12
    decreases month
  {
    if month == 1 then 0 else DaysBeforeMonth(year, month - 1) + DaysInMonth(year, month - 1)
  }

  /** Days from 0001-01-01 to the first of January of `year`. */
  function DaysBeforeYear(year: int): int {
    365 * (year - 1) + (year - 1) / 4 - (year - 1) / 100 + (year - 1) / 400
  }

  /** The day number of a date, counted from 1970-01-01, straight from the calendar. */
  function DayNumber(d: Date): int
    requires 1 <= d.month <= 12
  {
    DaysBeforeYear(d.year) + DaysBeforeMonth(d.year, d.month) + d.day - 1 - 719_162
  }

  // ----- the code under study -----

  /** Days since the epoch to a date. Dafny's `/` and `%` are Rust's `div_euclid` and `rem_euclid`;
      every other division has a non-negative dividend. */
  function CivilFromDays(days: int): Date {
    var z := days + 719_468;
    var era := z / 146_097;
    var doe := z % 146_097;
    var yoe := YearOfEra(doe);
    var doy := doe - (365 * yoe + yoe / 4 - yoe / 100);
    DayOfMarchYear(yoe + era * 400, doy)
  }

  /** The date of day `doy` of the year that starts on 1 March of `year`. */
  function DayOfMarchYear(year: int, doy: int): Date {
    var mp := (5 * doy + 2) / 153;
    var d := doy - (153 * mp + 2) / 5 + 1;
    var m := if mp < 10 then mp + 3 else mp - 9;
    Date(year + (if m <= 2 then 1 else 0), m, d)
  }

  function YearOfEra(doe: int): int {
    (doe - doe / 1460 + doe / 36_524 - doe / 146_096) / 365
  }

  // ----- the arithmetic of one 400-year era -----

  /** A day of an era, split into century, four-year group, year and day of the year (March first). */
  ghost predicate EraDay(c: int, q: int, s: int, doy: int) {
    && 0 <= c <= 3 && 0 <= q <= 24 && 0 <= s <= 3 && 0 <= doy <= 365
    && (doy == 365 ==> s == 3 && (q < 24 || c == 3))
  }

  lemma SplitEraDay(doe: int) returns (c: int, q: int, s: int, doy: int)
    requires 0 <= doe < 146_097
    ensures EraDay(c, q, s, doy)
    ensures doe == 36_524 * c + 1461 * q + 365 * s + doy
  {
    c := if doe == 146_096 then 3 else doe / 36_524;
    var inCentury := doe - 36_524 * c;
    q := inCentury / 1461;
    var inGroup := inCentury - 1461 * q;
    s := if inGroup == 1460 then 3 else inGroup / 365;
    doy := inGroup - 365 * s;
  }

  /** The year formula finds the year of every day of the era. */
  lemma YearOfEraIsYear(doe: int, c: int, q: int, s: int, doy: int)
    requires EraDay(c, q, s, doy)
    requires doe == 36_524 * c + 1461 * q + 365 * s + doy
    ensures YearOfEra(doe) == 100 * c + 4 * q + s
  {
    var r := 24 * c + q + 365 * s + doy;
    assert doe == 1460 * (25 * c + q) + r;
    var carry := if r >= 1460 then 1 else 0;
    assert doe / 1460 == 25 * c + q + carry;
    assert doe / 36_524 == if doe == 146_096 then 4 else c;
    assert doe / 146_096 == if doe == 146_096 then 1 else 0;
    var num := doe - doe / 1460 + doe / 36_524 - doe / 146_096;
    assert num == 365 * (100 * c + 4 * q + s) + (doy - carry);
  }

  /** Counting from March: the date is valid, and its day number is what the year and the day say. */
  lemma MarchYearDay(year: int, doy: int)
    requires 0 <= doy <= 365
    requires doy == 365 ==> IsLeap(year + 1)
    ensures Valid(DayOfMarchYear(year, doy))
    ensures DayNumber(DayOfMarchYear(year, doy)) == DaysBeforeYear(year + 1) + doy - 306 - 719_162
  {
    var mp := (5 * doy + 2) / 153;
    var y := DayOfMarchYear(year, doy).year;
    MonthStarts(y);
    LeapCount(year);
    assert mp >= 10 ==> DaysBeforeYear(y) == DaysBeforeYear(year + 1);
    MarchMonth(doy, mp);
  }

  lemma MarchMonth(doy: int, mp: int)
    requires 0 <= doy <= 365 && mp == (5 * doy + 2) / 153
    ensures 0 <= mp <= 11
    ensures (153 * mp + 2) / 5 <= doy
    ensures mp < 11 ==> doy < (153 * (mp + 1) + 2) / 5
  {
  }

  lemma MonthStarts(y: int)
    ensures DaysBeforeMonth(y, 1) == 0 && DaysBeforeMonth(y, 2) == 31
    ensures var march := if IsLeap(y) then 60 else 59;
      forall m | 3 <= m <= 12 :: DaysBeforeMonth(y, m) == march + (153 * (m - 3) + 2) / 5
  {
    assert DaysBeforeMonth(y, 3) == if IsLeap(y) then 60 else 59;
    assert DaysBeforeMonth(y, 4) == DaysBeforeMonth(y, 3) + 31;
    assert DaysBeforeMonth(y, 5) == DaysBeforeMonth(y, 3) + 61;
    assert DaysBeforeMonth(y, 6) == DaysBeforeMonth(y, 3) + 92;
    assert DaysBeforeMonth(y, 7) == DaysBeforeMonth(y, 3) + 122;
    assert DaysBeforeMonth(y, 8) == DaysBeforeMonth(y, 3) + 153;
    assert DaysBeforeMonth(y, 9) == DaysBeforeMonth(y, 3) + 184;
    assert DaysBeforeMonth(y, 10) == DaysBeforeMonth(y, 3) + 214;
    assert DaysBeforeMonth(y, 11) == DaysBeforeMonth(y, 3) + 245;
    assert DaysBeforeMonth(y, 12) == DaysBeforeMonth(y, 3) + 275;
  }

  lemma LeapCount(year: int)
    ensures DaysBeforeYear(year + 1) - DaysBeforeYear(year) == if IsLeap(year) then 366 else 365
  {
    Fourth(year);
    Hundredth(year);
    FourHundredth(year);
  }

  lemma Fourth(year: int)
    ensures year / 4 - (year - 1) / 4 == if year % 4 == 0 then 1 else 0
  {
  }

  lemma Hundredth(year: int)
    ensures year / 100 - (year - 1) / 100 == if year % 100 == 0 then 1 else 0
  {
  }

  lemma FourHundredth(year: int)
    ensures year / 400 - (year - 1) / 400 == if year % 400 == 0 then 1 else 0
    ensures year % 400 == 0 ==> year % 100 == 0
    ensures year % 100 == 0 ==> year % 4 == 0
  {
  }

  lemma EraYear(era: int, yoe: int)
    requires 0 <= yoe < 400
    ensures DaysBeforeYear(yoe + era * 400 + 1) == 146_097 * era + 365 * yoe + yoe / 4 - yoe / 100
  {
    var y := yoe + era * 400;
    assert y / 4 == yoe / 4 + 100 * era;
    assert y / 100 == yoe / 100 + 4 * era;
    assert y / 400 == era;
  }

  // ----- the theorems -----

  /** Every day number, negative ones included, becomes a real date whose calendar day number it is. */
  lemma CivilIsTheDate(z: int)
    ensures Valid(CivilFromDays(z))
    ensures DayNumber(CivilFromDays(z)) == z
  {
    var era, doe := (z + 719_468) / 146_097, (z + 719_468) % 146_097;
    var c, q, s, doy := SplitEraDay(doe);
    YearOfEraIsYear(doe, c, q, s, doy);
    var yoe := 100 * c + 4 * q + s;
    assert yoe / 4 == 25 * c + q;
    assert yoe / 100 == c;
    assert doe - (365 * yoe + yoe / 4 - yoe / 100) == doy;
    var year := yoe + era * 400;
    assert CivilFromDays(z) == DayOfMarchYear(year, doy);
    EraYear(era, yoe);
    assert doy == 365 ==> IsLeap(year + 1) by { LastDayIsLeap(era, c, q, s, doy); }
    MarchYearDay(year, doy);
  }

  lemma LastDayIsLeap(era: int, c: int, q: int, s: int, doy: int)
    requires EraDay(c, q, s, doy)
    ensures doy == 365 ==> IsLeap(100 * c + 4 * q + s + era * 400 + 1)
  {
    var y := 100 * c + 4 * q + s + era * 400 + 1;
    if doy == 365 {
      assert y == 4 * (25 * c + q + 100 * era + 1);
      assert y % 4 == 0;
      if q < 24 {
        assert y == 100 * (c + 4 * era) + (4 * q + 4);
        assert y % 100 == 4 * q + 4;
      } else {
        assert y == 400 * (era + 1);
      }
    }
  }

  lemma YearsInOrder(y: int, y': int)
    requires y < y'
    ensures DaysBeforeYear(y) + (if IsLeap(y) then 366 else 365) <= DaysBeforeYear(y')
    decreases y' - y
  {
    LeapCount(y);
    if y + 1 < y' {
      YearsInOrder(y + 1, y');
    }
  }

  lemma MonthsInOrder(y: int, m: int, m': int)
    requires 1 <= m < m' <= 12
    ensures DaysBeforeMonth(y, m) + DaysInMonth(y, m) <= DaysBeforeMonth(y, m')
    decreases m' - m
  {
    if m + 1 < m' {
      MonthsInOrder(y, m + 1, m');
    }
  }

  lemma DayOfYear(d: Date)
    requires Valid(d)
    ensures 1 <= DaysBeforeMonth(d.year, d.month) + d.day <= if IsLeap(d.year) then 366 else 365
  {
    assert DaysBeforeMonth(d.year, 1) == 0;
    if d.month > 1 { MonthsInOrder(d.year, 1, d.month); }
    if d.month < 12 { MonthsInOrder(d.year, d.month, 12); }
    YearLength(d.year);
  }

  lemma YearLength(y: int)
    ensures DaysBeforeMonth(y, 12) + 31 == if IsLeap(y) then 366 else 365
  {
    MonthStarts(y);
  }

  /** Two dates never share a day number. */
  lemma DayNumberInjective(d: Date, e: Date)
    requires Valid(d) && Valid(e)
    requires DayNumber(d) == DayNumber(e)
    ensures d == e
  {
    DayOfYear(d);
    DayOfYear(e);
    if d.year < e.year {
      YearsInOrder(d.year, e.year);
    } else if e.year < d.year {
      YearsInOrder(e.year, d.year);
    } else if d.month < e.month {
      MonthsInOrder(d.year, d.month, e.month);
    } else if e.month < d.month {
      MonthsInOrder(d.year, e.month, d.month);
    }
  }

  /** The other half of the bijection: every valid date is reached, from its own day number. */
  lemma EveryDateIsReached(d: Date)
    requires Valid(d)
    ensures CivilFromDays(DayNumber(d)) == d
  {
    CivilIsTheDate(DayNumber(d));
    DayNumberInjective(CivilFromDays(DayNumber(d)), d);
  }

  lemma TomorrowCounts(d: Date)
    requires Valid(d)
    ensures Valid(Tomorrow(d)) && DayNumber(Tomorrow(d)) == DayNumber(d) + 1
  {
    LeapCount(d.year);
    YearLength(d.year);
  }

  /** One more day is exactly the next day of the calendar. */
  lemma NextDay(z: int)
    ensures CivilFromDays(z + 1) == Tomorrow(CivilFromDays(z))
  {
    CivilIsTheDate(z);
    var today := CivilFromDays(z);
    TomorrowCounts(today);
    EveryDateIsReached(Tomorrow(today));
  }

  /** Day 0 is the Unix epoch. */
  lemma Epoch()
    ensures CivilFromDays(0) == Date(1970, 1, 1)
  {
    assert DaysBeforeYear(1970) == 719_162;
    EveryDateIsReached(Date(1970, 1, 1));
  }
}
