/** `get_months_until_now`: the months a run scans, as English
    abbreviations. The clock is a parameter: `currentMonth` is
    `datetime.now().month`. */
module Months {
  import opened Common
  import opened Calendar

  /** The `ValueError`s the function raises, each carrying the argument
      its message quotes. */
  datatype MonthError =
    | StartOutOfRange(start: Option<int>)
    | EndOutOfRange(end: Option<int>)
    | StartAfterEnd(start: Option<int>, end: Option<int>)

  /** The first month: January when none is given. */
  function StartNumber(start: Option<int>): int {
    if start.None? then 1 else start.value
  }

  /** The last month: the current one when none is given. */
  function EndNumber(end: Option<int>, currentMonth: int): int {
    if end.None? then currentMonth else end.value
  }

  /** `range(lo, hi)`: the integers from `lo` up to, not including, `hi`. */
  function Range(lo: int, hi: int): (r: seq<int>)
    requires lo <= hi
    ensures |r| == hi - lo
    ensures forall i :: 0 <= i < |r| ==> r[i] == lo + i
    decreases hi - lo
  {
    if lo == hi then [] else Range(lo, hi - 1) + [hi - 1]
  }

  /** True when only the current month is asked for and it is not January:
      then the previous month is scanned as well. */
  predicate PrependsPrevious(startNum: int, endNum: int, currentMonth: int) {
    startNum == currentMonth && endNum == currentMonth && currentMonth > 1
  }

  /** The month numbers to scan, once the range has been validated. */
  function MonthsToScan(startNum: int, endNum: int, currentMonth: int): (months: seq<int>)
    requires 1 <= startNum <= endNum <= 12 && 1 <= currentMonth <= 12
    ensures forall i :: 0 <= i < |months| ==> 1 <= months[i] <= 12
  {
    if PrependsPrevious(startNum, endNum, currentMonth) then
      [currentMonth - 1] + Range(startNum, endNum + 1)
    else
      Range(startNum, endNum + 1)
  }

  /** The abbreviation of each month number, in order. */
  function Abbreviations(months: seq<int>): (names: seq<string>)
    requires forall i :: 0 <= i < |months| ==> 1 <= months[i] <= 12
    ensures |names| == |months|
    ensures forall i :: 0 <= i < |names| ==>
      names[i] in MonthNumbers && MonthNumbers[names[i]] == months[i]
  {
    if months == [] then []
    else Abbreviations(months[..|months| - 1]) + [MonthAbbreviation(months[|months| - 1])]
  }

  /** What `get_months_until_now(start, end)` returns or raises when the
      current month is `currentMonth`: the start is checked first, then
      the end, then their order. */
  function MonthWindow(start: Option<int>, end: Option<int>, currentMonth: int): (w: Result<seq<string>, MonthError>)
    requires 1 <= currentMonth <= 12
    ensures w.Ok? <==> 1 <= StartNumber(start) <= EndNumber(end, currentMonth) <= 12
    ensures w.Ok? ==> 1 <= |w.value| <= 12
  {
    var s := StartNumber(start);
    var e := EndNumber(end, currentMonth);
    if !(1 <= s <= 12) then Err(StartOutOfRange(start))
    else if !(1 <= e <= 12) then Err(EndOutOfRange(end))
    else if s > e then Err(StartAfterEnd(start, end))
    else Ok(Abbreviations(MonthsToScan(s, e, currentMonth)))
  }

  /** `get_months_until_now`: builds the list with a loop, prepends the
      previous month in the special case, then names each month. */
  method GetMonthsUntilNow(start: Option<int>, end: Option<int>, currentMonth: int)
    returns (r: Result<seq<string>, MonthError>)
    requires 1 <= currentMonth <= 12
    ensures r == MonthWindow(start, end, currentMonth)
  {
    var s := if start.None? then 1 else start.value;
    var e := if end.None? then currentMonth else end.value;
    assert s == StartNumber(start) && e == EndNumber(end, currentMonth);
    if !(1 <= s <= 12) {
      return Err(StartOutOfRange(start));
    }
    if !(1 <= e <= 12) {
      return Err(EndOutOfRange(end));
    }
    if s > e {
      return Err(StartAfterEnd(start, end));
    }
    var months: seq<int> := [];
    var m := s;
    while m < e + 1
      invariant s <= m <= e + 1
      invariant months == Range(s, m)
    {
      months := months + [m];
      m := m + 1;
    }
    if s == currentMonth && e == currentMonth && currentMonth > 1 {
      months := [currentMonth - 1] + months;
    }
    assert months == MonthsToScan(s, e, currentMonth);
    var names := NameMonths(months);
    WindowOk(start, end, currentMonth);
    r := Ok(names);
  }

  /** A valid window names the months to scan. */
  lemma WindowOk(start: Option<int>, end: Option<int>, currentMonth: int)
    requires 1 <= currentMonth <= 12
    requires 1 <= StartNumber(start) <= EndNumber(end, currentMonth) <= 12
    ensures MonthWindow(start, end, currentMonth) ==
      Ok(Abbreviations(MonthsToScan(StartNumber(start), EndNumber(end, currentMonth), currentMonth)))
  {
  }

  /** The list comprehension naming each month with `strftime("%b")`. */
  method NameMonths(months: seq<int>) returns (names: seq<string>)
    requires forall i :: 0 <= i < |months| ==> 1 <= months[i] <= 12
    ensures names == Abbreviations(months)
  {
    names := [];
    var i := 0;
    while i < |months|
      invariant 0 <= i <= |months|
      invariant names == Abbreviations(months[..i])
    {
      AbbreviationsStep(months, i);
      names := names + [MonthAbbreviation(months[i])];
      i := i + 1;
    }
    assert months[..|months|] == months;
  }

  /** Naming one more month appends its abbreviation. */
  lemma AbbreviationsStep(months: seq<int>, i: int)
    requires 0 <= i < |months|
    requires forall j :: 0 <= j < |months| ==> 1 <= months[j] <= 12
    ensures Abbreviations(months[..i + 1]) == Abbreviations(months[..i]) + [MonthAbbreviation(months[i])]
  {
    assert months[..i + 1][..i] == months[..i];
  }

  /** The window is refused exactly when a bound is outside 1..12 or the
      start comes after the end, and the error names the first check that
      failed. */
  lemma WindowRejects(start: Option<int>, end: Option<int>, currentMonth: int)
    requires 1 <= currentMonth <= 12
    ensures var s, e := StartNumber(start), EndNumber(end, currentMonth);
      && (MonthWindow(start, end, currentMonth).Err? <==> !(1 <= s <= 12) || !(1 <= e <= 12) || s > e)
      && (!(1 <= s <= 12) ==> MonthWindow(start, end, currentMonth) == Err(StartOutOfRange(start)))
      && (1 <= s <= 12 && !(1 <= e <= 12) ==>
            MonthWindow(start, end, currentMonth) == Err(EndOutOfRange(end)))
      && (1 <= s <= 12 && 1 <= e <= 12 && s > e ==>
            MonthWindow(start, end, currentMonth) == Err(StartAfterEnd(start, end)))
  {
  }

  /** Outside the special case the window lists the months from start to end
      in ascending order, one each: `end - start + 1` names, the `i`-th
      naming month `start + i`. */
  lemma WindowAscending(start: Option<int>, end: Option<int>, currentMonth: int)
    requires 1 <= currentMonth <= 12
    requires var s, e := StartNumber(start), EndNumber(end, currentMonth);
      1 <= s <= e <= 12 && !PrependsPrevious(s, e, currentMonth)
    ensures var s, e := StartNumber(start), EndNumber(end, currentMonth);
      && MonthWindow(start, end, currentMonth).Ok?
      && |MonthWindow(start, end, currentMonth).value| == e - s + 1
      && forall i :: 0 <= i <= e - s ==>
           MonthNumbers[MonthWindow(start, end, currentMonth).value[i]] == s + i
  {
  }

  /** When only the current month `c > 1` is requested, the window is the
      previous month followed by the current one. */
  lemma WindowPrependsPrevious(start: Option<int>, end: Option<int>, currentMonth: int)
    requires 1 <= currentMonth <= 12
    requires PrependsPrevious(StartNumber(start), EndNumber(end, currentMonth), currentMonth)
    ensures MonthWindow(start, end, currentMonth) ==
      Ok([MonthAbbreviation(currentMonth - 1), MonthAbbreviation(currentMonth)])
  {
    var c := currentMonth;
    assert Range(c, c + 1) == [c];
    assert Abbreviations([c - 1, c]) == [MonthAbbreviation(c - 1), MonthAbbreviation(c)] by {
      assert [c - 1, c][..1] == [c - 1];
      assert Abbreviations([c - 1]) == [MonthAbbreviation(c - 1)] by {
        assert [c - 1][..0] == [];
      }
    }
  }

  /** Every month a window names is a key of the month-number table, so the
      merge can translate a window without a `KeyError`. */
  lemma WindowMonthsKnown(start: Option<int>, end: Option<int>, currentMonth: int)
    requires 1 <= currentMonth <= 12
    requires MonthWindow(start, end, currentMonth).Ok?
    ensures forall name :: name in MonthWindow(start, end, currentMonth).value ==>
      name in MonthNumbers && 1 <= MonthNumbers[name] <= 12
  {
  }

  /** The months to scan are strictly increasing. */
  lemma ScanIncreasing(startNum: int, endNum: int, currentMonth: int)
    requires 1 <= startNum <= endNum <= 12 && 1 <= currentMonth <= 12
    ensures var months := MonthsToScan(startNum, endNum, currentMonth);
      forall i, j :: 0 <= i < j < |months| ==> months[i] < months[j]
  {
  }

  /** Strictly increasing month numbers have pairwise distinct names. */
  lemma NamesDistinct(months: seq<int>)
    requires forall i :: 0 <= i < |months| ==> 1 <= months[i] <= 12
    requires forall i, j :: 0 <= i < j < |months| ==> months[i] < months[j]
    ensures var names := Abbreviations(months);
      forall i, j :: 0 <= i < j < |names| ==> names[i] != names[j]
  {
    var names := Abbreviations(months);
    forall i, j | 0 <= i < j < |names|
      ensures names[i] != names[j]
    {
      assert MonthNumbers[names[i]] == months[i] < months[j] == MonthNumbers[names[j]];
    }
  }

  /** No month is listed twice. */
  lemma WindowDistinct(start: Option<int>, end: Option<int>, currentMonth: int)
    requires 1 <= currentMonth <= 12
    requires MonthWindow(start, end, currentMonth).Ok?
    ensures var names := MonthWindow(start, end, currentMonth).value;
      forall i, j :: 0 <= i < j < |names| ==> names[i] != names[j]
  {
    var s, e := StartNumber(start), EndNumber(end, currentMonth);
    var months := MonthsToScan(s, e, currentMonth);
    var names := Abbreviations(months);
    assert forall i, j :: 0 <= i < j < |names| ==> names[i] != names[j] by {
      ScanIncreasing(s, e, currentMonth);
      NamesDistinct(months);
    }
    WindowOk(start, end, currentMonth);
  }

}
