/** The proleptic Gregorian calendar, and `civil_from_days` of src/audit.rs against it. */
module Calendar {

  datatype Date = Date(year: int, month: int, day: int)

  // ---------------------------------------------------------------------------------------
  // The calendar, by its rules
  // ---------------------------------------------------------------------------------------

  predicate IsLeap(y: int) {
    y % 4 == 0 && (y % 100 != 0 || y % 400 == 0)
  }

  function YearLength(y: int): int {
    if IsLeap(y) then 366 else 365
  }

  function MonthLength(y: int, m: int): (n: int)
    ensures 28 <= n <= 31
  {
    if m == 2 then (if IsLeap(y) then 29 else 28)
    else if m in {4, 6, 9, 11} then 30 else 31
  }

  predicate Valid(d: Date) {
    1 <= d.month <= 12 && 1 <= d.day <= MonthLength(d.year, d.month)
  }

  function Successor(d: Date): Date {
    if d.day < MonthLength(d.year, d.month) then Date(d.year, d.month, d.day + 1)
    else if d.month < 12 then Date(d.year, d.month + 1, 1)
    else Date(d.year + 1, 1, 1)
  }

  /** Days from 1 January 1970 to 1 January of year y; NextYear says why. */
  function DaysBeforeYear(y: int): int {
    365 * (y - 1) + (y - 1) / 4 - (y - 1) / 100 + (y - 1) / 400 - 719_162
  }

  function DaysBeforeMonth(y: int, m: int): int
    decreases m
  {
    if m <= 1 then 0 else DaysBeforeMonth(y, m - 1) + MonthLength(y, m - 1)
  }

  /** Days since 1 January 1970. */
  function DayNumber(d: Date): int {
    DaysBeforeYear(d.year) + DaysBeforeMonth(d.year, d.month) + d.day - 1
  }

  lemma NextYear(y: int)
    ensures DaysBeforeYear(1970) == 0
    ensures DaysBeforeYear(y + 1) == DaysBeforeYear(y) + YearLength(y)
  {
    assert y / 4 - (y - 1) / 4 == if y % 4 == 0 then 1 else 0;
    assert y / 100 - (y - 1) / 100 == if y % 100 == 0 then 1 else 0;
    assert y / 400 - (y - 1) / 400 == if y % 400 == 0 then 1 else 0;
  }

  lemma MonthTable(y: int)
    ensures var leap := if IsLeap(y) then 1 else 0;
      && DaysBeforeMonth(y, 1) == 0 && DaysBeforeMonth(y, 2) == 31
      && DaysBeforeMonth(y, 3) == 59 + leap && DaysBeforeMonth(y, 4) == 90 + leap
      && DaysBeforeMonth(y, 5) == 120 + leap && DaysBeforeMonth(y, 6) == 151 + leap
      && DaysBeforeMonth(y, 7) == 181 + leap && DaysBeforeMonth(y, 8) == 212 + leap
      && DaysBeforeMonth(y, 9) == 243 + leap && DaysBeforeMonth(y, 10) == 273 + leap
      && DaysBeforeMonth(y, 11) == 304 + leap && DaysBeforeMonth(y, 12) == 334 + leap
      && DaysBeforeMonth(y, 13) == YearLength(y)
  {
    hide IsLeap;
    assert DaysBeforeMonth(y, 3) == 31 + MonthLength(y, 2);
    assert DaysBeforeMonth(y, 5) == DaysBeforeMonth(y, 3) + 61;
    assert DaysBeforeMonth(y, 7) == DaysBeforeMonth(y, 5) + 61;
    assert DaysBeforeMonth(y, 9) == DaysBeforeMonth(y, 7) + 62;
    assert DaysBeforeMonth(y, 11) == DaysBeforeMonth(y, 9) + 61;
  }

  lemma SuccessorIsNext(d: Date)
    requires Valid(d)
    ensures Valid(Successor(d)) && DayNumber(Successor(d)) == DayNumber(d) + 1
  {
    NextYear(d.year);
    MonthTable(d.year);
  }

  predicate Before(a: Date, b: Date) {
    a.year < b.year || (a.year == b.year && (a.month < b.month || (a.month == b.month && a.day < b.day)))
  }

  lemma {:induction false} YearsIncrease(y: int, z: int)
    requires y <= z
    ensures DaysBeforeYear(y) <= DaysBeforeYear(z)
    decreases z - y
  {
    if y < z {
      NextYear(y);
      YearsIncrease(y + 1, z);
    }
  }

  lemma {:induction false} MonthsIncrease(y: int, m: int, n: int)
    requires m <= n
    ensures DaysBeforeMonth(y, m) <= DaysBeforeMonth(y, n)
    decreases n - m
  {
    if m < n {
      MonthsIncrease(y, m, n - 1);
    }
  }

  lemma WholeYear(y: int)
    ensures DaysBeforeMonth(y, 1) == 0 && DaysBeforeMonth(y, 13) == YearLength(y)
  {
    MonthTable(y);
  }

  /** Later dates have larger numbers. */
  lemma DayNumberIncreases(a: Date, b: Date)
    requires Valid(a) && Valid(b) && Before(a, b)
    ensures DayNumber(a) < DayNumber(b)
  {
    hide IsLeap, DaysBeforeYear, MonthLength;
    MonthsIncrease(a.year, a.month + 1, 13);
    MonthsIncrease(b.year, 1, b.month);
    WholeYear(a.year);
    if a.year < b.year {
      NextYear(a.year);
      YearsIncrease(a.year + 1, b.year);
    } else if a.month < b.month {
      MonthsIncrease(a.year, a.month + 1, b.month);
    }
  }

  lemma DayNumberInjective(a: Date, b: Date)
    requires Valid(a) && Valid(b) && DayNumber(a) == DayNumber(b)
    ensures a == b
  {
    if Before(a, b) {
      DayNumberIncreases(a, b);
    } else if Before(b, a) {
      DayNumberIncreases(b, a);
    }
  }

  // ---------------------------------------------------------------------------------------
  // The conversion
  // ---------------------------------------------------------------------------------------

  function YearOfEra(doe: int): int {
    (doe - doe / 1_460 + doe / 36_524 - doe / 146_096) / 365
  }

  /** `civil_from_days`. */
  function CivilFromDays(days: int): Date {
    var z := days + 719_468;
    var era := z / 146_097;
    var doe := z % 146_097;
    var yoe := YearOfEra(doe);
    var y := yoe + era * 400;
    var doy := doe - (365 * yoe + yoe / 4 - yoe / 100);
    var mp := (5 * doy + 2) / 153;
    var d := doy - (153 * mp + 2) / 5 + 1;
    var m := if mp < 10 then mp + 3 else mp - 9;
    Date(if m <= 2 then y + 1 else y, m, d)
  }

  /** A day of a 400-year era lies in one of its centuries, in one 4-year group of that, in one
      year of that, years running from March; only a leap February gives a 366th day. */
  lemma EraDigits(doe: int) returns (c: int, q: int, r: int, doy: int)
    requires 0 <= doe < 146_097
    ensures 0 <= c < 4 && 0 <= q < 25 && 0 <= r < 4 && 0 <= doy <= 365
    ensures doe == 36_524 * c + 1_461 * q + 365 * r + doy
    ensures doy == 365 ==> r == 3 && (q != 24 || c == 3)
  {
    c := if doe == 146_096 then 3 else doe / 36_524;
    var inCentury := doe - 36_524 * c;
    q := inCentury / 1_461;
    var inGroup := inCentury - 1_461 * q;
    r := if inGroup == 1_460 then 3 else inGroup / 365;
    doy := inGroup - 365 * r;
  }

  /** The year formula finds exactly that year. */
  lemma YearFormula(c: int, q: int, r: int, doy: int)
    requires 0 <= c < 4 && 0 <= q < 25 && 0 <= r < 4 && 0 <= doy <= 365
    requires doy == 365 ==> r == 3 && (q != 24 || c == 3)
    ensures YearOfEra(36_524 * c + 1_461 * q + 365 * r + doy) == 100 * c + 4 * q + r
  {
    var doe := 36_524 * c + 1_461 * q + 365 * r + doy;
    var low := 24 * c + q + 365 * r + doy;
    assert doe == 1_460 * (25 * c + q) + low;
    assert doe / 1_460 == 25 * c + q + if low >= 1_460 then 1 else 0;
    assert doe / 36_524 == if doe == 146_096 then 4 else c;
  }

  /** The month formula: day doy of a year that starts in March. */
  lemma MonthFormula(y: int, doy: int)
    requires 0 <= doy <= 365 && (doy == 365 ==> IsLeap(y + 1))
    ensures var mp := (5 * doy + 2) / 153;
      var d := doy - (153 * mp + 2) / 5 + 1;
      var date := Date(if mp < 10 then y else y + 1, if mp < 10 then mp + 3 else mp - 9, d);
      Valid(date) && DayNumber(date) == DaysBeforeYear(y + 1) - 306 + doy
  {
    hide IsLeap, DaysBeforeYear, DaysBeforeMonth;
    NextYear(y);
    MonthTable(y);
    MonthTable(y + 1);
    var mp := (5 * doy + 2) / 153;
    assert 0 <= mp <= 11;
    if mp < 6 { if mp < 3 {} else {} } else if mp < 10 {} else {}
  }

  lemma EraStart(era: int, yoe: int)
    requires 0 <= yoe < 400
    ensures DaysBeforeYear(yoe + era * 400 + 1) == 146_097 * era + 365 * yoe + yoe / 4 - yoe / 100 - 719_162
  {
    var y := yoe + era * 400;
    assert y / 4 == 100 * era + yoe / 4;
    assert y / 100 == 4 * era + yoe / 100;
    assert y / 400 == era;
  }

  lemma LeapFromDigits(era: int, c: int, q: int, r: int)
    requires 0 <= c < 4 && 0 <= q < 25 && r == 3 && (q != 24 || c == 3)
    ensures IsLeap(100 * c + 4 * q + r + era * 400 + 1)
  {
    var y := 100 * c + 4 * q + 4 + era * 400;
    assert y == 4 * (25 * c + q + 1 + era * 100);
    if q == 24 {
      assert y == 400 * (era + 1);
    } else {
      assert y % 100 == 4 * q + 4;
    }
  }

  /** Every day number, negative ones included, becomes a valid date with that number. */
  lemma CivilIsCorrect(days: int)
    ensures Valid(CivilFromDays(days)) && DayNumber(CivilFromDays(days)) == days
  {
    hide Valid, DayNumber, DaysBeforeYear, IsLeap, YearOfEra;
    var z := days + 719_468;
    var era, doe := z / 146_097, z % 146_097;
    var yoe, doy := EraYear(era, doe);
    MonthFormula(yoe + era * 400, doy);
    EraStart(era, yoe);
  }

  lemma EraYear(era: int, doe: int) returns (yoe: int, doy: int)
    requires 0 <= doe < 146_097
    ensures yoe == YearOfEra(doe) && 0 <= yoe < 400
    ensures doy == doe - (365 * yoe + yoe / 4 - yoe / 100) && 0 <= doy <= 365
    ensures doy == 365 ==> IsLeap(yoe + era * 400 + 1)
  {
    hide YearOfEra, IsLeap;
    var c, q, r, d := EraDigits(doe);
    YearFormula(c, q, r, d);
    yoe, doy := YearOfEra(doe), d;
    assert yoe / 4 == 25 * c + q && yoe / 100 == c;
    if doy == 365 {
      LeapFromDigits(era, c, q, r);
    }
  }

  /** The conversion is the inverse of the day count, on all valid dates. */
  lemma CivilInvertsDayNumber(d: Date)
    requires Valid(d)
    ensures CivilFromDays(DayNumber(d)) == d
  {
    CivilIsCorrect(DayNumber(d));
    DayNumberInjective(CivilFromDays(DayNumber(d)), d);
  }

  /** The next day is the next date. */
  lemma CivilOfNextDay(days: int)
    ensures CivilFromDays(days + 1) == Successor(CivilFromDays(days))
  {
    hide CivilFromDays, DayNumber, Successor, Valid;
    CivilIsCorrect(days);
    SuccessorIsNext(CivilFromDays(days));
    CivilInvertsDayNumber(Successor(CivilFromDays(days)));
  }
}
