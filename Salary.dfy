/**
 * The salary-text classifier. Both copies of the engine (the class-based one
 * and the older flat one) branch on a salary string in the same order and
 * raise at the same points, in two places each: when they build the
 * `min_salary`/`max_salary` columns of the current-jobs table, and when they
 * fill the min and max pools for the run statistics. `Classify` is that
 * common branch chain; `RankBounds` and `MinContribution`/`MaxContribution`
 * are what the two uses do with each family.
 */
module Salary {
  import opened Wrappers
  import PyStr

  /** The text the extractor stores when a listing shows no compensation. */
  const NotSpecifiedText: string := "Не указано"

  /** The families of salary text, in the order they are tried. */
  datatype Family =
    | From(amount: int)              // "от N ..."
    | UpTo(amount: int)              // "до N ..."
    | Fork(low: int, high: int)      // first token "A-B"
    | NotSpecified                   // exactly "Не указано"
    | Fixed(amount: int)             // first token "N"

  datatype SalaryError =
    | MissingToken                   // `IndexError` from `split()[0]` or `split()[1]`
    | NotAnInteger(token: string)    // `ValueError` from `int(token)`

  function ParseAmount(token: string): Result<int, SalaryError> {
    match PyStr.ParseInt(token)
    case Some(n) => Ok(n)
    case None => Err(NotAnInteger(token))
  }

  /** The branch chain over one salary string; `Err` where the source raises. */
  function Classify(salary: string): Result<Family, SalaryError> {
    var tokens := PyStr.SplitWhitespace(salary);
    if |tokens| == 0 then Err(MissingToken)
    else if tokens[0] == "от" then
      if |tokens| < 2 then Err(MissingToken)
      else
        var n :- ParseAmount(tokens[1]);
        Ok(From(n))
    else if tokens[0] == "до" then
      if |tokens| < 2 then Err(MissingToken)
      else
        var n :- ParseAmount(tokens[1]);
        Ok(UpTo(n))
    else if |PyStr.SplitOn(tokens[0], '-')| == 2 then
      var fork := PyStr.SplitOn(tokens[0], '-');
      var low :- ParseAmount(fork[0]);
      var high :- ParseAmount(fork[1]);
      Ok(Fork(low, high))
    else if salary == NotSpecifiedText then Ok(NotSpecified)
    else
      var n :- ParseAmount(tokens[0]);
      Ok(Fixed(n))
  }

  /** The `(min_salary, max_salary)` columns the ranking path gives a family. */
  function RankBounds(f: Family): (int, int) {
    match f
    case From(n) => (n, n)
    case UpTo(n) => (0, n)
    case Fork(low, high) => (low, high)
    case NotSpecified => (0, 0)
    case Fixed(n) => (n, n)
  }

  /** What the statistics path appends to the min pool for a family. */
  function MinContribution(f: Family): seq<int> {
    match f
    case From(n) => [n]
    case UpTo(_) => []
    case Fork(low, _) => [low]
    case NotSpecified => []
    case Fixed(n) => [n]
  }

  /** What the statistics path appends to the max pool for a family. */
  function MaxContribution(f: Family): seq<int> {
    match f
    case From(_) => []
    case UpTo(n) => [n]
    case Fork(_, high) => [high]
    case NotSpecified => []
    case Fixed(n) => [n]
  }

  /**
   * The two paths agree on ranges and fixed values and deliberately differ on
   * the open-ended families: "от N" ranks as (N, N) but feeds only the min
   * pool, "до N" ranks with min 0 but feeds only the max pool.
   */
  lemma PathsAgreeExceptOpenEnded(f: Family)
    ensures (f.Fork? || f.Fixed?) ==>
      MinContribution(f) == [RankBounds(f).0] && MaxContribution(f) == [RankBounds(f).1]
    ensures f.From? ==> MinContribution(f) == [RankBounds(f).0] && MaxContribution(f) == [] && RankBounds(f).1 == f.amount
    ensures f.UpTo? ==> MinContribution(f) == [] && MaxContribution(f) == [RankBounds(f).1] && RankBounds(f).0 == 0
    ensures f.NotSpecified? ==> MinContribution(f) == [] && MaxContribution(f) == [] && RankBounds(f) == (0, 0)
  {
  }

  // ---------------------------------------------------------------------------
  // Reading back the text of each family

  /** Whether `Render` writes text that classifies back to the same family. */
  predicate Renderable(f: Family) {
    match f
    case Fork(low, high) => low >= 0 && high >= 0
    case Fixed(n) => n >= 0
    case _ => true
  }

  /** The canonical salary text of a family, as hh.ru writes it after the non-breaking spaces are removed. */
  function Render(f: Family): string
    requires Renderable(f)
  {
    match f
    case From(n) => "от" + " " + PyStr.IntToStr(n)
    case UpTo(n) => "до" + " " + PyStr.IntToStr(n)
    case Fork(low, high) => PyStr.NatToStr(low) + "-" + PyStr.NatToStr(high)
    case NotSpecified => NotSpecifiedText
    case Fixed(n) => PyStr.NatToStr(n)
  }

  lemma SplitWordThenRest(w: string, suffix: string)
    requires w != [] && PyStr.NoSpace(w)
    requires suffix == [] || PyStr.IsSpace(suffix[0])
    ensures PyStr.SplitWhitespace(w + suffix)
         == [w] + (if suffix == [] then [] else PyStr.SplitWhitespace(suffix[1..]))
  {
    PyStr.SplitWhitespaceOfWord(w);
    if suffix == [] {
      assert w + suffix == w;
    } else {
      assert w + suffix == w + [suffix[0]] + suffix[1..];
      PyStr.SplitWhitespaceAtSpace(w, suffix[0], suffix[1..]);
    }
  }

  lemma OpenEndedTokens(word: string, n: int, suffix: string)
    requires word == "от" || word == "до"
    requires suffix == [] || PyStr.IsSpace(suffix[0])
    ensures var tokens := PyStr.SplitWhitespace(word + " " + PyStr.IntToStr(n) + suffix);
      |tokens| >= 2 && tokens[0] == word && tokens[1] == PyStr.IntToStr(n)
  {
    var num := PyStr.IntToStr(n);
    PyStr.IntToStrHasNoSpace(n);
    assert word + " " + num + suffix == word + [' '] + (num + suffix);
    PyStr.SplitWhitespaceAtSpace(word, ' ', num + suffix);
    PyStr.SplitWhitespaceOfWord(word);
    SplitWordThenRest(num, suffix);
  }

  lemma ClassifyOpenEnded(word: string, n: int, suffix: string)
    requires word == "от" || word == "до"
    requires suffix == [] || PyStr.IsSpace(suffix[0])
    ensures Classify(word + " " + PyStr.IntToStr(n) + suffix)
         == Ok(if word == "от" then From(n) else UpTo(n))
  {
    OpenEndedTokens(word, n, suffix);
    PyStr.ParseIntOfIntToStr(n);
    assert "до" != "от" by { assert "до"[0] != "от"[0]; }
  }

  lemma NatToStrHasNoDash(n: nat)
    ensures '-' !in PyStr.NatToStr(n) && PyStr.NoSpace(PyStr.NatToStr(n))
  {
    var s := PyStr.NatToStr(n);
    assert forall i :: 0 <= i < |s| ==> PyStr.IsDigit(s[i]);
  }

  /**
   * Every family reads back from its canonical text, whatever follows it
   * after a whitespace character (a currency, "на руки", ...); the marker
   * "Не указано" only when nothing follows.
   */
  lemma ClassifyRendered(f: Family, suffix: string)
    requires Renderable(f)
    requires suffix == [] || (!f.NotSpecified? && PyStr.IsSpace(suffix[0]))
    ensures Classify(Render(f) + suffix) == Ok(f)
  {
    match f
    case From(n) =>
      ClassifyOpenEnded("от", n, suffix);
    case UpTo(n) =>
      ClassifyOpenEnded("до", n, suffix);
    case Fork(low, high) =>
      ClassifyFork(low, high, suffix);
    case NotSpecified =>
      assert Render(f) + suffix == NotSpecifiedText;
      ClassifyMarker();
    case Fixed(n) =>
      assert Render(f) + suffix == PyStr.NatToStr(n) + suffix;
      ClassifyFixed(n, suffix);
  }

  lemma ClassifyFork(low: nat, high: nat, suffix: string)
    requires suffix == [] || PyStr.IsSpace(suffix[0])
    ensures Classify(PyStr.NatToStr(low) + "-" + PyStr.NatToStr(high) + suffix) == Ok(Fork(low, high))
  {
    var a, b := PyStr.NatToStr(low), PyStr.NatToStr(high);
    var w := a + "-" + b;
    ForkWord(a, b, suffix);
    assert w != "от" && w != "до" && w + suffix != NotSpecifiedText by {
      assert (w + suffix)[0] == w[0] == a[0];
    }
    PyStr.ParseIntOfIntToStr(low);
    PyStr.ParseIntOfIntToStr(high);
  }

  /** The first word of `a-b` followed by a suffix, when `a` and `b` are numerals. */
  lemma ForkWord(a: string, b: string, suffix: string)
    requires a != [] && (forall i :: 0 <= i < |a| ==> PyStr.IsDigit(a[i]))
    requires b != [] && (forall i :: 0 <= i < |b| ==> PyStr.IsDigit(b[i]))
    requires suffix == [] || PyStr.IsSpace(suffix[0])
    ensures PyStr.IsDigit(a[0])
    ensures PyStr.SplitWhitespace(a + "-" + b + suffix)[0] == a + "-" + b
    ensures PyStr.SplitOn(a + "-" + b, '-') == [a, b]
  {
    var w := a + "-" + b;
    assert w == a + ['-'] + b;
    assert '-' !in a && '-' !in b;
    assert PyStr.NoSpace(w) by {
      assert forall i :: 0 <= i < |w| ==> w[i] == '-' || w[i] in a || w[i] in b;
    }
    SplitWordThenRest(w, suffix);
    PyStr.SplitOnAtSep(a, '-', b);
    PyStr.SplitOnWithoutSep(a, '-');
    PyStr.SplitOnWithoutSep(b, '-');
  }

  lemma SplitTwoWords(a: string, b: string)
    requires a != [] && PyStr.NoSpace(a) && b != [] && PyStr.NoSpace(b)
    ensures PyStr.SplitWhitespace(a + [' '] + b) == [a, b]
  {
    PyStr.SplitWhitespaceAtSpace(a, ' ', b);
    PyStr.SplitWhitespaceOfWord(a);
    PyStr.SplitWhitespaceOfWord(b);
  }

  lemma MarkerTokens()
    ensures PyStr.SplitWhitespace(NotSpecifiedText) == ["Не", "указано"]
    ensures |PyStr.SplitOn("Не", '-')| == 1
  {
    assert NotSpecifiedText == "Не" + [' '] + "указано";
    SplitTwoWords("Не", "указано");
    PyStr.SplitOnWithoutSep("Не", '-');
  }

  lemma ClassifyMarker()
    ensures Classify(NotSpecifiedText) == Ok(NotSpecified)
  {
    MarkerTokens();
    var tokens := PyStr.SplitWhitespace(NotSpecifiedText);
    assert tokens[0] != "от" && tokens[0] != "до" by { assert tokens[0][0] != 'о' && tokens[0][0] != 'д'; }
  }

  lemma ClassifyFixed(n: nat, suffix: string)
    requires suffix == [] || PyStr.IsSpace(suffix[0])
    ensures Classify(PyStr.NatToStr(n) + suffix) == Ok(Fixed(n))
  {
    var w := PyStr.NatToStr(n);
    var salary := w + suffix;
    assert PyStr.SplitWhitespace(salary)[0] == w && PyStr.SplitOn(w, '-') == [w] by {
      NatToStrHasNoDash(n);
      SplitWordThenRest(w, suffix);
      PyStr.SplitOnWithoutSep(w, '-');
    }
    assert w != "от" && w != "до" && salary != NotSpecifiedText by {
      assert salary[0] == w[0] && PyStr.IsDigit(w[0]);
    }
    assert ParseAmount(w) == Ok(n) by {
      PyStr.ParseIntOfIntToStr(n);
    }
  }

  /** The unspecified family is the exact marker text and nothing else. */
  lemma NotSpecifiedIffMarker(salary: string)
    ensures Classify(salary) == Ok(NotSpecified) <==> salary == NotSpecifiedText
  {
    if salary == NotSpecifiedText {
      ClassifyRendered(NotSpecified, []);
      assert Render(NotSpecified) + [] == salary;
    }
  }

  /** A salary text whose first word is neither a keyword, a range nor a number is a failure. */
  lemma ClassifyRejectsWord(w: string, suffix: string)
    requires w != [] && PyStr.NoSpace(w) && '-' !in w
    requires w != "от" && w != "до" && PyStr.ParseInt(w).None?
    requires suffix == [] || PyStr.IsSpace(suffix[0])
    requires w + suffix != NotSpecifiedText
    ensures Classify(w + suffix) == Err(NotAnInteger(w))
  {
    SplitWordThenRest(w, suffix);
    PyStr.SplitOnWithoutSep(w, '-');
  }

  /** A keyword with no amount after it fails on the missing token. */
  lemma ClassifyRejectsBareKeyword(word: string)
    requires word == "от" || word == "до"
    ensures Classify(word) == Err(MissingToken)
  {
    PyStr.SplitWhitespaceOfWord(word);
  }
}
