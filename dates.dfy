/** Python `datetime.date` on the proleptic Gregorian calendar. A date is identified
    with its day number, `toordinal() - 1`: 0001-01-01, a Monday, is day 0, so the
    weekday (`date.weekday()`, Monday 0 .. Sunday 6) of day `n` is `n % 7` and
    adding a `timedelta(days=k)` adds `k`. */
module Dates {
  import opened Wrappers
  import opened Strings

  datatype Date = Date(year: int, month: int, day: int)

  predicate IsLeap(y: int)
  {
    y % 4 == 0 && (y % 100 != 0 || y % 400 == 0)
  }

  function DaysInMonth(y: int, m: int): (n: int)
    requires 1 <= m <= 12
    ensures 28 <= n <= 31
  {
    if m == 2 then (if IsLeap(y) then 29 else 28)
    else if m == 4 || m == 6 || m == 9 || m == 11 then 30
    else 31
  }

  function DaysInYear(y: int): int
  {
    if IsLeap(y) then 366 else 365
  }

  /** What `date(year, month, day)` accepts (the upper year bound 9999 is checked where
      dates are built from text). */
  predicate ValidDate(d: Date)
  {
    1 <= d.year && 1 <= d.month <= 12 && 1 <= d.day <= DaysInMonth(d.year, d.month)
  }

  function DaysBeforeYear(y: int): int
    requires y >= 1
  {
    var p := y - 1;
    365 * p + p / 4 - p / 100 + p / 400
  }

  function DaysBeforeMonth(y: int, m: int): int
    requires 1 <= m <= 12
  {
    var table := [0, 31, 59, 90, 120, 151, 181, 212, 243, 273, 304, 334];
    table[m - 1] + (if m > 2 && IsLeap(y) then 1 else 0)
  }

  /** `d.toordinal() - 1`. */
  function DayNumber(d: Date): int
    requires ValidDate(d)
  {
    DaysBeforeYear(d.year) + DaysBeforeMonth(d.year, d.month) + d.day - 1
  }

  /** `date.weekday()` of day number `n`: Monday 0 .. Sunday 6. */
  function Weekday(n: int): (w: int)
    ensures 0 <= w < 7
  {
    n % 7
  }

  /** `d + timedelta(days=1)`. */
  function NextDay(d: Date): Date
    requires ValidDate(d)
  {
    if d.day < DaysInMonth(d.year, d.month) then Date(d.year, d.month, d.day + 1)
    else if d.month < 12 then Date(d.year, d.month + 1, 1)
    else Date(d.year + 1, 1, 1)
  }

  /** A multiple of 100 is a multiple of 4, and a multiple of 400 one of 100. */
  lemma CenturyDivisors(y: int)
    ensures y % 100 == 0 ==> y % 4 == 0
    ensures y % 400 == 0 ==> y % 100 == 0
  {
    if y % 100 == 0 {
      assert y == 4 * (25 * (y / 100));
    }
    if y % 400 == 0 {
      assert y == 100 * (4 * (y / 400));
    }
  }

  lemma YearStep(y: int)
    requires y >= 1
    ensures DaysBeforeYear(y + 1) == DaysBeforeYear(y) + DaysInYear(y)
  {
    var a := y / 4 - (y - 1) / 4;
    var b := y / 100 - (y - 1) / 100;
    var c := y / 400 - (y - 1) / 400;
    assert a == (if y % 4 == 0 then 1 else 0);
    assert b == (if y % 100 == 0 then 1 else 0);
    assert c == (if y % 400 == 0 then 1 else 0);
    CenturyDivisors(y);
    assert a - b + c == (if IsLeap(y) then 1 else 0);
    assert DaysBeforeYear(y + 1) - DaysBeforeYear(y) == 365 + a - b + c;
  }

  lemma MonthStep(y: int, m: int)
    requires 1 <= m < 12
    ensures DaysBeforeMonth(y, m + 1) == DaysBeforeMonth(y, m) + DaysInMonth(y, m)
  {
  }

  lemma YearEnd(y: int)
    ensures DaysBeforeMonth(y, 12) + DaysInMonth(y, 12) == DaysInYear(y)
  {
  }

  /** The next day is a valid date one day number later. */
  lemma NextDayNumber(d: Date)
    requires ValidDate(d)
    ensures ValidDate(NextDay(d)) && DayNumber(NextDay(d)) == DayNumber(d) + 1
  {
    if d.day == DaysInMonth(d.year, d.month) {
      if d.month < 12 { MonthStep(d.year, d.month); } else { YearStep(d.year); YearEnd(d.year); }
    }
  }

  /** `date.max`: Python has no later date. */
  const MaxDate := Date(9999, 12, 31)

  /** The day number of `date.max`. */
  const MaxDayNumber := 3652058

  /** What `d + timedelta(days=1)` raises on `date.max`. */
  const DateOverflow := OverflowError("date value out of range")

  lemma MaxDayNumberIs()
    ensures ValidDate(MaxDate) && DayNumber(MaxDate) == MaxDayNumber
  {
  }

  /** Stepping a Python date forward stays within Python's range except from `date.max`,
      whose day number is the largest. */
  lemma NextDayOverflow(d: Date)
    requires ValidDate(d) && d.year <= 9999
    ensures NextDay(d).year <= 9999 <==> d != MaxDate
    ensures DayNumber(d) <= MaxDayNumber && (DayNumber(d) == MaxDayNumber <==> d == MaxDate)
  {
    MaxDayNumberIs();
    if d != MaxDate {
      assert Before(d, MaxDate);
      DayNumberMonotone(d, MaxDate);
    }
  }

  lemma DayNumberNonNegative(d: Date)
    requires ValidDate(d)
    ensures DayNumber(d) >= 0
  {
    var p := d.year - 1;
    assert p / 4 >= p / 100;
  }

  /** `date.fromordinal(n + 1)`, by counting days forward from 0001-01-01. */
  function DateOf(n: nat): (d: Date)
    ensures ValidDate(d) && DayNumber(d) == n
  {
    if n == 0 then Date(1, 1, 1)
    else
      var p := DateOf(n - 1);
      NextDayNumber(p);
      NextDay(p)
  }

  /** Python's `<` on dates: by year, then month, then day. */
  predicate Before(a: Date, b: Date)
  {
    a.year < b.year || (a.year == b.year && (a.month < b.month || (a.month == b.month && a.day < b.day)))
  }

  lemma {:induction false} YearsMonotone(y1: int, y2: int)
    requires 1 <= y1 < y2
    ensures DaysBeforeYear(y1) + DaysInYear(y1) <= DaysBeforeYear(y2)
    decreases y2 - y1
  {
    YearStep(y1);
    if y1 + 1 < y2 { YearsMonotone(y1 + 1, y2); YearStep(y1 + 1); }
  }

  lemma {:induction false} MonthsMonotone(y: int, m1: int, m2: int)
    requires 1 <= m1 < m2 <= 12
    ensures DaysBeforeMonth(y, m1) + DaysInMonth(y, m1) <= DaysBeforeMonth(y, m2)
    decreases m2 - m1
  {
    MonthStep(y, m1);
    if m1 + 1 < m2 { MonthsMonotone(y, m1 + 1, m2); MonthStep(y, m1 + 1); }
  }

  lemma DayInYear(d: Date)
    requires ValidDate(d)
    ensures DaysBeforeMonth(d.year, d.month) + d.day - 1 < DaysInYear(d.year)
  {
    if d.month < 12 { MonthsMonotone(d.year, d.month, 12); }
    YearEnd(d.year);
  }

  /** Day numbers follow Python's ordering of dates. */
  lemma DayNumberMonotone(a: Date, b: Date)
    requires ValidDate(a) && ValidDate(b) && Before(a, b)
    ensures DayNumber(a) < DayNumber(b)
  {
    if a.year < b.year {
      DayInYear(a);
      YearsMonotone(a.year, b.year);
    } else if a.month < b.month {
      MonthsMonotone(a.year, a.month, b.month);
    }
  }

  /** Each day number belongs to exactly one date, so `DateOf` inverts `DayNumber`. */
  lemma DateOfDayNumber(d: Date)
    requires ValidDate(d)
    ensures DayNumber(d) >= 0 && DateOf(DayNumber(d)) == d
  {
    DayNumberNonNegative(d);
    var e := DateOf(DayNumber(d));
    if Before(e, d) { DayNumberMonotone(e, d); }
    if Before(d, e) { DayNumberMonotone(d, e); }
  }

  /** `date(y, m, d)`: a ValueError unless the year is 1..9999 and the date exists. */
  function MakeDate(y: int, m: int, d: int): (r: Result<Date>)
    ensures r.Ok? <==> 1 <= y <= 9999 && ValidDate(Date(y, m, d))
    ensures r.Ok? ==> r.value == Date(y, m, d)
  {
    if !(1 <= y <= 9999) then Err(ValueError("year is out of range"))
    else if !(1 <= m <= 12) then Err(ValueError("month must be in 1..12"))
    else if !(1 <= d <= DaysInMonth(y, m)) then Err(ValueError("day is out of range for month"))
    else Ok(Date(y, m, d))
  }

  /** `d.strftime("%Y%m%d")` (years from 1000 on; `%Y` is not padded below that). */
  function Compact(d: Date): string
    requires ValidDate(d)
  {
    Decimal(d.year, 4) + Decimal(d.month, 2) + Decimal(d.day, 2)
  }

  /** `date(int(e[:4]), int(e[4:6]), int(e[6:8]))`. */
  function ParseCompact(e: string): (r: Result<Date>)
    ensures r.Ok? ==> ValidDate(r.value) && r.value.year <= 9999
  {
    match ParseNat(PySlice(e, 0, 4))
    case Err(err) => Err(err)
    case Ok(y) =>
      match ParseNat(PySlice(e, 4, 6))
      case Err(err) => Err(err)
      case Ok(m) =>
        match ParseNat(PySlice(e, 6, 8))
        case Err(err) => Err(err)
        case Ok(d) => MakeDate(y, m, d)
  }

  /** Writing a date out and reading it back gives the date. */
  lemma ParseCompactOfCompact(d: Date)
    requires ValidDate(d) && 1000 <= d.year <= 9999
    ensures ParseCompact(Compact(d)) == Ok(d)
  {
    DecimalWidth(d.year, 4);
    DecimalWidth(d.month, 2);
    DecimalWidth(d.day, 2);
    DecimalValue(d.year, 4);
    DecimalValue(d.month, 2);
    DecimalValue(d.day, 2);
    var e := Compact(d);
    assert PySlice(e, 0, 4) == Decimal(d.year, 4);
    assert PySlice(e, 4, 6) == Decimal(d.month, 2);
    assert PySlice(e, 6, 8) == Decimal(d.day, 2);
  }

  /** An eight-character string that parses is the compact form of what it parses to. */
  lemma CompactOfParseCompact(e: string)
    requires |e| == 8 && ParseCompact(e).Ok?
    ensures Compact(ParseCompact(e).value) == e
  {
    assert e == e[0..4] + e[4..6] + e[6..8];
  }

  /** The shape `YYYY-MM-DD`. */
  predicate IsoForm(s: string)
  {
    |s| == 10 && s[4] == '-' && s[7] == '-' && AllDigits(s[0..4]) && AllDigits(s[5..7]) && AllDigits(s[8..10])
  }

  /** `date.fromisoformat(s)` for the extended form `YYYY-MM-DD`. */
  function ParseIso(s: string): (r: Result<Date>)
    ensures r.Ok? <==> IsoForm(s) && MakeDate(DigitsValue(s[0..4]), DigitsValue(s[5..7]), DigitsValue(s[8..10])).Ok?
    ensures r.Ok? ==> ValidDate(r.value) && r.value.year <= 9999
    ensures r.Ok? ==> r.value == Date(DigitsValue(s[0..4]), DigitsValue(s[5..7]), DigitsValue(s[8..10]))
  {
    if IsoForm(s) then MakeDate(DigitsValue(s[0..4]), DigitsValue(s[5..7]), DigitsValue(s[8..10]))
    else Err(ValueError("Invalid isoformat string: '" + s + "'"))
  }

  /** `d.isoformat()`. */
  function Iso(d: Date): string
    requires ValidDate(d)
  {
    Decimal(d.year, 4) + "-" + Decimal(d.month, 2) + "-" + Decimal(d.day, 2)
  }

  /** `date.fromisoformat(d.isoformat()) == d`. */
  lemma ParseIsoOfIso(d: Date)
    requires ValidDate(d) && 1000 <= d.year <= 9999
    ensures ParseIso(Iso(d)) == Ok(d)
  {
    DecimalWidth(d.year, 4);
    DecimalWidth(d.month, 2);
    DecimalWidth(d.day, 2);
    DecimalValue(d.year, 4);
    DecimalValue(d.month, 2);
    DecimalValue(d.day, 2);
    var s := Iso(d);
    assert s[0..4] == Decimal(d.year, 4);
    assert s[5..7] == Decimal(d.month, 2);
    assert s[8..10] == Decimal(d.day, 2);
  }
}
