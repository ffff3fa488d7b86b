/**
 * Calendar dates as Python's `datetime.date` has them (proleptic Gregorian,
 * years 1 to 9999), `toordinal()` day numbers, and the parser behind
 * `datetime.strptime(s, '%d.%m.%Y')`.
 */
module Calendar {
  import opened Wrappers
  import PyStr

  datatype Date = Date(year: int, month: int, day: int)

  /** A reading of the clock, down to the second. */
  datatype DateTime = DateTime(date: Date, hour: int, minute: int, second: int)

  predicate IsLeapYear(y: int) {
    y % 4 == 0 && (y % 100 != 0 || y % 400 == 0)
  }

  function DaysInMonth(y: int, m: int): int
    requires 1 <= m <= 12
  {
    if m == 2 then (if IsLeapYear(y) then 29 else 28)
    else if m == 4 || m == 6 || m == 9 || m == 11 then 30
    else 31
  }

  function YearLength(y: int): int {
    if IsLeapYear(y) then 366 else 365
  }

  /** The dates `datetime.date` accepts (`MINYEAR` is 1, `MAXYEAR` is 9999). */
  predicate ValidDate(d: Date) {
    1 <= d.year <= 9999 && 1 <= d.month <= 12 && 1 <= d.day <= DaysInMonth(d.year, d.month)
  }

  predicate ValidDateTime(t: DateTime) {
    ValidDate(t.date) && 0 <= t.hour < 24 && 0 <= t.minute < 60 && 0 <= t.second < 60
  }

  /** Strict chronological order of dates. */
  predicate Before(a: Date, b: Date) {
    || a.year < b.year
    || (a.year == b.year && a.month < b.month)
    || (a.year == b.year && a.month == b.month && a.day < b.day)
  }

  function DaysBeforeYear(y: int): int {
    var p := y - 1;
    p * 365 + p / 4 - p / 100 + p / 400
  }

  function DaysBeforeMonth(y: int, m: int): int
    requires 1 <= m <= 12
  {
    [0, 31, 59, 90, 120, 151, 181, 212, 243, 273, 304, 334][m - 1] + (if m > 2 && IsLeapYear(y) then 1 else 0)
  }

  /** `d.toordinal()`: 1 for 1 January of year 1, counting up by one per day. */
  function DayNumber(d: Date): int
    requires ValidDate(d)
  {
    DaysBeforeYear(d.year) + DaysBeforeMonth(d.year, d.month) + d.day
  }

  lemma DivStep(p: int, k: int)
    requires k == 4 || k == 100 || k == 400
    ensures (p + 1) / k == p / k + (if (p + 1) % k == 0 then 1 else 0)
  {
    var q, r := p / k, p % k;
    assert p == k * q + r && 0 <= r < k;
    if r + 1 == k {
      assert p + 1 == k * (q + 1);
    } else {
      assert p + 1 == k * q + (r + 1);
    }
  }

  lemma YearLengthStep(y: int)
    ensures DaysBeforeYear(y + 1) == DaysBeforeYear(y) + YearLength(y)
  {
    var p := y - 1;
    DivStep(p, 4);
    DivStep(p, 100);
    DivStep(p, 400);
  }

  lemma {:induction false} DaysBeforeYearMonotone(y1: int, y2: int)
    requires y1 <= y2
    ensures DaysBeforeYear(y1) + (if y1 < y2 then YearLength(y1) else 0) <= DaysBeforeYear(y2)
    decreases y2 - y1
  {
    if y1 < y2 {
      YearLengthStep(y1);
      if y1 + 1 < y2 {
        DaysBeforeYearMonotone(y1 + 1, y2);
      }
    }
  }

  lemma DaysWithinYear(d: Date)
    requires ValidDate(d)
    ensures DaysBeforeMonth(d.year, d.month) + d.day <= YearLength(d.year)
    ensures forall m :: d.month < m <= 12 ==> DaysBeforeMonth(d.year, d.month) + d.day <= DaysBeforeMonth(d.year, m)
  {
  }

  /** Day numbers follow the calendar: an earlier date has a smaller day number. */
  lemma DayNumberMonotone(a: Date, b: Date)
    requires ValidDate(a) && ValidDate(b)
    requires Before(a, b)
    ensures DayNumber(a) < DayNumber(b)
  {
    DaysWithinYear(a);
    if a.year < b.year {
      DaysBeforeYearMonotone(a.year, b.year);
    }
  }

  // ---------------------------------------------------------------------------
  // datetime.strptime(s, '%d.%m.%Y')

  function Digit(c: char): int {
    c as int - '0' as int
  }

  /** The `%d` directive, the regular expression `3[01]|[12]\d|0[1-9]|[1-9]| [1-9]`, matched in full. */
  function DayField(t: string): Option<int> {
    if |t| == 1 && '1' <= t[0] <= '9' then Some(Digit(t[0]))
    else if |t| != 2 then None
    else if (t[0] == '0' || t[0] == ' ') && '1' <= t[1] <= '9' then Some(Digit(t[1]))
    else if (t[0] == '1' || t[0] == '2') && PyStr.IsDigit(t[1]) then Some(10 * Digit(t[0]) + Digit(t[1]))
    else if t[0] == '3' && (t[1] == '0' || t[1] == '1') then Some(30 + Digit(t[1]))
    else None
  }

  /** The `%m` directive, the regular expression `1[0-2]|0[1-9]|[1-9]`, matched in full. */
  function MonthField(t: string): Option<int> {
    if |t| == 1 && '1' <= t[0] <= '9' then Some(Digit(t[0]))
    else if |t| != 2 then None
    else if t[0] == '0' && '1' <= t[1] <= '9' then Some(Digit(t[1]))
    else if t[0] == '1' && '0' <= t[1] <= '2' then Some(10 + Digit(t[1]))
    else None
  }

  /** The `%Y` directive: exactly four digits. */
  function YearField(t: string): Option<int> {
    if |t| == 4 && forall i :: 0 <= i < 4 ==> PyStr.IsDigit(t[i]) then Some(PyStr.DigitsValue(t))
    else None
  }

  /**
   * `datetime.strptime(s, '%d.%m.%Y')`, reduced to its date: `None` where
   * Python raises `ValueError` (no match, text left over, or no such day).
   */
  function ParseDayMonthYear(s: string): (r: Option<Date>)
    ensures r.Some? ==> ValidDate(r.value)
  {
    var parts := PyStr.SplitOn(s, '.');
    if |parts| != 3 then None
    else
      match (DayField(parts[0]), MonthField(parts[1]), YearField(parts[2]))
      case (Some(d), Some(m), Some(y)) =>
        if ValidDate(Date(y, m, d)) then Some(Date(y, m, d)) else None
      case _ => None
  }

  /** Zero-padded two-digit form of `0 <= n < 100`, as `%02d` writes it. */
  function Pad2(n: int): (s: string)
    requires 0 <= n < 100
    ensures |s| == 2 && PyStr.IsDigit(s[0]) && PyStr.IsDigit(s[1])
  {
    [PyStr.DigitChar(n / 10), PyStr.DigitChar(n % 10)]
  }

  /** `d.strftime('%d.%m.%Y')` for a four-digit year. */
  function FormatDayMonthYear(d: Date): string
    requires ValidDate(d) && 1000 <= d.year
  {
    PyStr.Join([Pad2(d.day), Pad2(d.month), PyStr.NatToStr(d.year)], ".")
  }

  lemma NatToStrFourDigits(n: int)
    requires 1000 <= n <= 9999
    ensures |PyStr.NatToStr(n)| == 4
  {
    assert PyStr.NatToStr(n) == PyStr.NatToStr(n / 10) + [PyStr.DigitChar(n % 10)];
    assert PyStr.NatToStr(n / 10) == PyStr.NatToStr(n / 100) + [PyStr.DigitChar(n / 10 % 10)];
    assert PyStr.NatToStr(n / 100) == PyStr.NatToStr(n / 1000) + [PyStr.DigitChar(n / 100 % 10)];
  }

  /** `strptime` reads back what `strftime('%d.%m.%Y')` writes. */
  lemma ParseFormattedDate(d: Date)
    requires ValidDate(d) && 1000 <= d.year
    ensures ParseDayMonthYear(FormatDayMonthYear(d)) == Some(d)
  {
    var parts := [Pad2(d.day), Pad2(d.month), PyStr.NatToStr(d.year)];
    NatToStrFourDigits(d.year);
    PyStr.DigitsValueOfNatToStr(d.year);
    PyStr.SplitOnJoin(parts, '.');
    assert DayField(parts[0]) == Some(d.day);
    assert MonthField(parts[1]) == Some(d.month);
  }
}
