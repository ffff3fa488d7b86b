/**
 * `_get_data_from_divs`: one record per listing block whose title passes
 * the refining regular expression, with the employer, salary and date
 * defaulted and cleaned. The two copies agree on every block whose title
 * link carries an href; they differ only on a link without one, where
 * `.get('href')` gives `None` in one copy and `['href']` raises `KeyError`
 * in the other, and a block here always carries its href. The HTML lookups
 * and the regular expression are inputs: a block is the fields `div.find`
 * returns, and the title check is a predicate.
 */
module Extraction {
  import opened Wrappers
  import PyStr
  import opened Calendar
  import opened Jobs
  import Salary
  import PublicationDate

  /** U+00A0, which the listing puts between a number and its unit. */
  const NoBreakSpace: char := '\U{00A0}'

  /** `'Не определено'`, the company of a block without an employer link. */
  const UndefinedEmployer: string := "Не определено"

  /** What `div.find` yields for one listing block; `None` where it finds nothing. */
  datatype VacancyDiv = VacancyDiv(
    title: string,
    href: string,
    employer: Option<string>,
    publicationDate: string,
    compensation: Option<string>)

  /** A result page: the labels of its pager links, its regular blocks and its premium blocks. */
  datatype Page = Page(pager: seq<string>, regular: seq<VacancyDiv>, premium: seq<VacancyDiv>)

  datatype PagerError =
    | NoPagerLinks        // `pages[-1]` on an empty list raises IndexError
    | PagerNotANumber     // `int()` of the last label raises ValueError

  /** `int(pages[-1].text)`: the number on the last pager link. */
  function PageCount(pager: seq<string>): (r: Result<int, PagerError>)
    ensures pager == [] <==> r == Err(NoPagerLinks)
    ensures r.Ok? <==> pager != [] && PyStr.ParseInt(pager[|pager| - 1]).Some?
    ensures r.Ok? ==> PyStr.ParseInt(pager[|pager| - 1]) == Some(r.value)
  {
    if pager == [] then Err(NoPagerLinks)
    else
      match PyStr.ParseInt(pager[|pager| - 1])
      case None => Err(PagerNotANumber)
      case Some(n) => Ok(n)
  }

  function Company(div: VacancyDiv): (company: string)
    ensures div.employer.None? ==> company == UndefinedEmployer
    ensures div.employer.Some? ==> company == div.employer.value
  {
    match div.employer
    case None => UndefinedEmployer
    case Some(text) => text
  }

  /** The salary text with its non-breaking spaces removed, or `'Не указано'` when the block shows none. */
  function SalaryText(div: VacancyDiv): (salary: string)
    ensures NoBreakSpace !in salary
    ensures div.compensation.None? ==> salary == Salary.NotSpecifiedText
  {
    match div.compensation
    case None => Salary.NotSpecifiedText
    case Some(text) => PyStr.ReplaceChar(text, NoBreakSpace, "")
  }

  /** The publication date text with its non-breaking spaces turned into spaces. */
  function DateText(div: VacancyDiv): (raw: string)
    ensures NoBreakSpace !in raw
  {
    PyStr.ReplaceChar(div.publicationDate, NoBreakSpace, " ")
  }

  /** The record of a kept block whose date normalised to `date`. */
  function RecordOf(div: VacancyDiv, date: string): ParsedJob {
    ParsedJob(div.title, Company(div), SalaryText(div), date, div.href)
  }

  /** The blocks whose title passes the title check, in page order. */
  function Kept(divs: seq<VacancyDiv>, titleOk: string -> bool): (kept: seq<VacancyDiv>)
    ensures forall d :: d in kept <==> d in divs && titleOk(d.title)
  {
    if divs == [] then []
    else Kept(divs[..|divs| - 1], titleOk) + (if titleOk(divs[|divs| - 1].title) then [divs[|divs| - 1]] else [])
  }

  /**
   * What `_get_data_from_divs` returns; `None` where it raises, which is
   * when the date of a kept block is not a date (`strptime` raises
   * `ValueError`). A block whose title fails the title check is skipped before
   * its date is looked at.
   */
  function DataOf(divs: seq<VacancyDiv>, titleOk: string -> bool, today: Date): Option<seq<ParsedJob>> {
    if divs == [] then Some([])
    else
      var div := divs[|divs| - 1];
      match DataOf(divs[..|divs| - 1], titleOk, today)
      case None => None
      case Some(records) =>
        if !titleOk(div.title) then Some(records)
        else
          match PublicationDate.NormalisedDate(DateText(div), today)
          case None => None
          case Some(date) => Some(records + [RecordOf(div, date)])
  }

  /** `_get_data_from_divs`, with the clock passed in. */
  method DataFromDivs(divs: seq<VacancyDiv>, titleOk: string -> bool, now: DateTime) returns (r: Option<seq<ParsedJob>>)
    ensures r == DataOf(divs, titleOk, now.date)
  {
    var results: seq<ParsedJob> := [];
    var i := 0;
    while i < |divs|
      invariant 0 <= i <= |divs|
      invariant DataOf(divs[..i], titleOk, now.date) == Some(results)
    {
      var div := divs[i];
      assert divs[..i + 1][..i] == divs[..i];
      if !titleOk(div.title) {
        i := i + 1;
        continue;
      }
      var company := if div.employer.Some? then div.employer.value else UndefinedEmployer;
      var href := div.href;
      var date := PublicationDate.ProcessDate(PyStr.ReplaceChar(div.publicationDate, NoBreakSpace, " "), now);
      if date.None? {
        assert DataOf(divs[..i + 1], titleOk, now.date).None?;
        NoneStaysNone(divs, i + 1, titleOk, now.date);
        assert divs[..|divs|] == divs;
        return None;
      }
      var salary := if div.compensation.Some? then PyStr.ReplaceChar(div.compensation.value, NoBreakSpace, "") else Salary.NotSpecifiedText;
      results := results + [ParsedJob(div.title, company, salary, date.value, href)];
      i := i + 1;
    }
    assert divs[..i] == divs;
    r := Some(results);
  }

  /** Once a block raises, the blocks after it do not matter. */
  lemma {:induction false} NoneStaysNone(divs: seq<VacancyDiv>, i: nat, titleOk: string -> bool, today: Date)
    requires i <= |divs|
    requires DataOf(divs[..i], titleOk, today).None?
    ensures DataOf(divs, titleOk, today).None?
    decreases |divs| - i
  {
    if i < |divs| {
      assert divs[..i + 1][..i] == divs[..i];
      NoneStaysNone(divs, i + 1, titleOk, today);
    } else {
      assert divs[..i] == divs;
    }
  }

  // ---------------------------------------------------------------------------
  // Properties

  /**
   * One record per kept block, in page order, each carrying the block's
   * title and link, its company or the default, its cleaned salary or the
   * default, and its normalised date.
   */
  lemma {:induction false} RecordsOfKeptBlocks(divs: seq<VacancyDiv>, titleOk: string -> bool, today: Date)
    requires DataOf(divs, titleOk, today).Some?
    ensures var records := DataOf(divs, titleOk, today).value;
      var kept := Kept(divs, titleOk);
      |records| == |kept| &&
      forall k :: 0 <= k < |kept| ==>
        PublicationDate.NormalisedDate(DateText(kept[k]), today).Some? &&
        records[k] == RecordOf(kept[k], PublicationDate.NormalisedDate(DateText(kept[k]), today).value)
  {
    if divs != [] {
      RecordsOfKeptBlocks(divs[..|divs| - 1], titleOk, today);
    }
  }

  /** Extraction fails exactly when a kept block's date does not normalise. */
  lemma {:induction false} DataOfFailsIff(divs: seq<VacancyDiv>, titleOk: string -> bool, today: Date)
    ensures DataOf(divs, titleOk, today).None? <==>
      exists d :: d in Kept(divs, titleOk) && PublicationDate.NormalisedDate(DateText(d), today).None?
  {
    if divs != [] {
      var front := divs[..|divs| - 1];
      var div := divs[|divs| - 1];
      DataOfFailsIff(front, titleOk, today);
      assert Kept(divs, titleOk) == Kept(front, titleOk) + (if titleOk(div.title) then [div] else []);
    }
  }

  /** Every record's title passes the title check, and no record's salary holds a non-breaking space. */
  lemma RecordsAreClean(divs: seq<VacancyDiv>, titleOk: string -> bool, today: Date)
    requires DataOf(divs, titleOk, today).Some?
    ensures forall j :: j in DataOf(divs, titleOk, today).value ==> titleOk(j.title) && NoBreakSpace !in j.salary
  {
    var records := DataOf(divs, titleOk, today).value;
    var kept := Kept(divs, titleOk);
    RecordsOfKeptBlocks(divs, titleOk, today);
    forall j | j in records ensures titleOk(j.title) && NoBreakSpace !in j.salary {
      var k :| 0 <= k < |records| && records[k] == j;
      assert kept[k] in kept;
    }
  }

  /** A block without a compensation field counts as a vacancy without salary. */
  lemma DefaultSalaryIsMarker(div: VacancyDiv)
    requires div.compensation.None?
    ensures Salary.Classify(SalaryText(div)) == Ok(Salary.NotSpecified)
  {
    Salary.ClassifyMarker();
  }
}
