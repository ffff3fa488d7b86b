/**
 * The publication-date normaliser (`_process_date` in the class-based copy,
 * `_date_str_to_date` in the older one; the two bodies are the same). The
 * listing shows a date such as "5 марта": the text is split on single
 * spaces, every Russian genitive month name is replaced by its two-digit
 * number, the clock's year is appended, and the previous year is used
 * instead when that date would lie after the clock.
 */
module PublicationDate {
  import opened Wrappers
  import PyStr
  import opened Calendar

  /** The genitive month names, January first. */
  const MonthNames: seq<string> := ["января", "февраля", "марта", "апреля", "мая", "июня",
                                    "июля", "августа", "сентября", "октября", "ноября", "декабря"]

  /** `date_dict`. */
  const DateDict: map<string, string> := map[
    "января" := "01", "февраля" := "02", "марта" := "03", "апреля" := "04",
    "мая" := "05", "июня" := "06", "июля" := "07", "августа" := "08",
    "сентября" := "09", "октября" := "10", "ноября" := "11", "декабря" := "12"]

  /** `date_arr[i] = date_dict[date_arr[i]]`, with the `KeyError` leaving the token as it was. */
  function Translate(token: string): string {
    if token in DateDict then DateDict[token] else token
  }

  /** The dictionary holds exactly the twelve month names, each mapped to its number as `%m` reads it. */
  lemma DateDictIsMonths(k: int)
    requires 1 <= k <= 12
    ensures MonthNames[k - 1] in DateDict
    ensures DateDict[MonthNames[k - 1]] == Pad2(k)
    ensures MonthField(DateDict[MonthNames[k - 1]]) == Some(k)
  {
  }

  lemma DateDictKeys(token: string)
    ensures token in DateDict <==> token in MonthNames
  {
  }

  /** A token that is not a month name passes through unchanged; a month name becomes its number. */
  lemma TranslateMonths(token: string)
    ensures token !in MonthNames ==> Translate(token) == token
    ensures forall k :: 1 <= k <= 12 && token == MonthNames[k - 1] ==> Translate(token) == Pad2(k)
  {
    DateDictKeys(token);
    forall k | 1 <= k <= 12 && token == MonthNames[k - 1] ensures Translate(token) == Pad2(k) {
      DateDictIsMonths(k);
    }
  }

  /** The loop over `date_arr`. */
  function TranslateAll(tokens: seq<string>): (r: seq<string>)
    ensures |r| == |tokens| && forall k :: 0 <= k < |tokens| ==> r[k] == Translate(tokens[k])
  {
    if tokens == [] then [] else TranslateAll(tokens[..|tokens| - 1]) + [Translate(tokens[|tokens| - 1])]
  }

  /** The tokens with `str(year)` appended, joined with `'.'`. */
  function WithYear(tokens: seq<string>, year: int): string {
    PyStr.Join(tokens + [PyStr.IntToStr(year)], ".")
  }

  /**
   * What the normaliser returns for `raw` with the clock on `today`; `None`
   * where `strptime` raises `ValueError` (the text with the current year is
   * not a `d.m.Y` date). Comparing `strptime(…)`, a midnight, with the clock
   * is comparing the parsed date with `today`.
   */
  function NormalisedDate(raw: string, today: Date): Option<string> {
    var tokens := TranslateAll(PyStr.SplitOn(raw, ' '));
    match ParseDayMonthYear(WithYear(tokens, today.year))
    case None => None
    case Some(d) => Some(if Before(today, d) then WithYear(tokens, today.year - 1) else WithYear(tokens, today.year))
  }

  /** `_process_date` / `_date_str_to_date`, with the clock passed in. */
  method ProcessDate(rawDate: string, now: DateTime) returns (r: Option<string>)
    ensures r == NormalisedDate(rawDate, now.date)
  {
    var parts := PyStr.SplitOn(rawDate, ' ');
    var dateArr := parts;
    var i := 0;
    while i < |dateArr|
      invariant 0 <= i <= |dateArr| == |parts|
      invariant forall k :: 0 <= k < i ==> dateArr[k] == Translate(parts[k])
      invariant forall k :: i <= k < |parts| ==> dateArr[k] == parts[k]
    {
      if dateArr[i] in DateDict {
        dateArr := dateArr[i := DateDict[dateArr[i]]];
      }
      i := i + 1;
    }
    assert dateArr == TranslateAll(parts);
    var tokens := dateArr;
    dateArr := dateArr + [PyStr.IntToStr(now.date.year)];
    var parsed := ParseDayMonthYear(PyStr.Join(dateArr, "."));
    if parsed.None? {
      return None;
    }
    if Before(now.date, parsed.value) {
      dateArr := dateArr[|dateArr| - 1 := PyStr.IntToStr(now.date.year - 1)];
      assert dateArr == tokens + [PyStr.IntToStr(now.date.year - 1)];
    }
    r := Some(PyStr.Join(dateArr, "."));
  }

  // ---------------------------------------------------------------------------
  // Properties

  /** Whatever precedes the year, a date read from `tokens` joined with `str(year)` is in that year. */
  lemma ParsedYearIsAppended(tokens: seq<string>, year: int, d: Date)
    requires |tokens| >= 1 && year >= 0
    requires ParseDayMonthYear(WithYear(tokens, year)) == Some(d)
    ensures d.year == year
  {
    var ys := PyStr.IntToStr(year);
    assert ys == PyStr.NatToStr(year);
    PyStr.JoinAppendLast(tokens, ys, ".");
    assert WithYear(tokens, year) == PyStr.Join(tokens, ".") + ['.'] + ys;
    PyStr.SplitOnAtSep(PyStr.Join(tokens, "."), '.', ys);
    PyStr.SplitOnWithoutSep(ys, '.');
    var parts := PyStr.SplitOn(WithYear(tokens, year), '.');
    assert parts[|parts| - 1] == ys;
    assert YearField(ys) == Some(year) by {
      PyStr.DigitsValueOfNatToStr(year);
    }
  }

  /**
   * A normalised date that reads back as a date is never after the clock:
   * either the current year gave a date not after `today`, or the fallback
   * put it in the previous year.
   */
  lemma NeverAfterClock(raw: string, today: Date, d: Date)
    requires ValidDate(today)
    requires NormalisedDate(raw, today).Some?
    requires ParseDayMonthYear(NormalisedDate(raw, today).value) == Some(d)
    ensures !Before(today, d)
  {
    var tokens := TranslateAll(PyStr.SplitOn(raw, ' '));
    var first := ParseDayMonthYear(WithYear(tokens, today.year));
    if Before(today, first.value) {
      ParsedYearIsAppended(tokens, today.year - 1, d);
    }
  }

  /** `%d` reads the day as `str()` writes it. */
  lemma DayFieldOfNatToStr(day: int)
    requires 1 <= day <= 31
    ensures DayField(PyStr.NatToStr(day)) == Some(day)
  {
    if day >= 10 {
      assert PyStr.NatToStr(day) == PyStr.NatToStr(day / 10) + [PyStr.DigitChar(day % 10)];
    }
  }

  /** The listing's text for a date: the day, a space, the genitive month name. */
  function ListingText(p: Date): string
    requires 1 <= p.month <= 12 && 1 <= p.day
  {
    PyStr.NatToStr(p.day) + [' '] + MonthNames[p.month - 1]
  }

  lemma MonthNameHasNoSpace(k: int)
    requires 0 <= k < 12
    ensures ' ' !in MonthNames[k]
  {
  }

  lemma NumberIsNoMonthName(t: string)
    requires t != [] && PyStr.IsDigit(t[0])
    ensures t !in MonthNames
  {
    forall k | 0 <= k < 12 ensures MonthNames[k][0] != t[0] {
    }
  }

  lemma ListingTokens(p: Date)
    requires ValidDate(p)
    ensures TranslateAll(PyStr.SplitOn(ListingText(p), ' ')) == [PyStr.NatToStr(p.day), Pad2(p.month)]
  {
    var dayText := PyStr.NatToStr(p.day);
    var name := MonthNames[p.month - 1];
    PyStr.SplitOnAtSep(dayText, ' ', name);
    assert ' ' !in dayText;
    PyStr.SplitOnWithoutSep(dayText, ' ');
    MonthNameHasNoSpace(p.month - 1);
    PyStr.SplitOnWithoutSep(name, ' ');
    assert PyStr.SplitOn(ListingText(p), ' ') == [dayText, name];
    NumberIsNoMonthName(dayText);
    TranslateMonths(dayText);
    TranslateMonths(name);
    assert TranslateAll([dayText, name]) == [Translate(dayText), Translate(name)];
  }

  lemma ReadListingWithYear(p: Date, year: int)
    requires ValidDate(p) && 1000 <= year <= 9999
    ensures ParseDayMonthYear(WithYear([PyStr.NatToStr(p.day), Pad2(p.month)], year)) ==
      if ValidDate(Date(year, p.month, p.day)) then Some(Date(year, p.month, p.day)) else None
  {
    var parts := [PyStr.NatToStr(p.day), Pad2(p.month), PyStr.NatToStr(year)];
    assert [PyStr.NatToStr(p.day), Pad2(p.month)] + [PyStr.IntToStr(year)] == parts;
    NatToStrFourDigits(year);
    PyStr.DigitsValueOfNatToStr(year);
    PyStr.SplitOnJoin(parts, '.');
    DayFieldOfNatToStr(p.day);
    assert MonthField(parts[1]) == Some(p.month);
  }

  /**
   * The normaliser recovers a publication date of the current year that is
   * not after the clock, and one of the previous year whose day has not yet
   * come round this year, provided that day exists this year: a 29 February
   * seen in a non-leap year leaves the text with the current year unparsable.
   */
  lemma RecoversRecentDate(p: Date, today: Date)
    requires ValidDate(p) && ValidDate(today) && 1001 <= today.year
    requires !Before(today, p)
    requires p.year == today.year ||
      (p.year == today.year - 1 && ValidDate(Date(today.year, p.month, p.day)) && Before(today, Date(today.year, p.month, p.day)))
    ensures NormalisedDate(ListingText(p), today).Some?
    ensures ParseDayMonthYear(NormalisedDate(ListingText(p), today).value) == Some(p)
  {
    ListingTokens(p);
    var tokens := [PyStr.NatToStr(p.day), Pad2(p.month)];
    ReadListingWithYear(p, today.year);
    ReadListingWithYear(p, today.year - 1);
  }

  /**
   * The fallback is not read back: "29 февраля" seen on 10 February of a leap
   * year gives "29.02" of the previous year, which is no date.
   */
  lemma FallbackNotRevalidated()
    ensures NormalisedDate(ListingText(Date(2024, 2, 29)), Date(2024, 2, 10)).Some?
    ensures ParseDayMonthYear(NormalisedDate(ListingText(Date(2024, 2, 29)), Date(2024, 2, 10)).value).None?
  {
    var p := Date(2024, 2, 29);
    ListingTokens(p);
    ReadListingWithYear(p, 2024);
    ReadListingWithYear(p, 2023);
  }
}
