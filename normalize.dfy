/** The text normalisers of the scraper: distance text to miles, a scraped
    date to the canonical `mm/dd/yy` form, and the month number read back
    out of a canonical date. */
module Normalize {
  import opened Common
  import opened PyText
  import Calendar

  /** One activity record: `date` (canonical `mm/dd/yy`), `distance` in
      miles or `None`, the activity type, duration and pace texts. */
  datatype Activity = Activity(
    date: string,
    distance: Option<real>,
    activityType: string,
    duration: string,
    pace: string)

  const MilesPerKilometre: real := 0.621371

  predicate EndsWith(s: string, suffix: string) {
    |suffix| <= |s| && s[|s| - |suffix|..] == suffix
  }

  /** A concatenation ends with its second part. */
  lemma EndsWithAppend(a: string, b: string)
    ensures EndsWith(a + b, b)
  {
    assert (a + b)[|a + b| - |b|..] == b;
  }

  // ---------------------------------------------------------------------
  // convert_distance_to_float
  // ---------------------------------------------------------------------

  /** `convert_distance_to_float`: a `"<value> <unit>"` text to miles. */
  function ConvertDistanceToFloat(text: string): (miles: Option<real>)
    ensures text == [] ==> miles == None
    ensures miles.Some? <==>
      && |Words(text)| == 2
      && ParseFloat(Words(text)[0]).Some?
      && (LowerEquals(Words(text)[1], "mi") || LowerEquals(Words(text)[1], "km"))
    ensures miles.Some? && LowerEquals(Words(text)[1], "mi") ==>
      miles.value == ParseFloat(Words(text)[0]).value
    ensures miles.Some? && !LowerEquals(Words(text)[1], "mi") ==>
      miles.value == ParseFloat(Words(text)[0]).value * MilesPerKilometre
  {
    if text == [] then None
    else
      var words := Words(text);
      // `value, unit = distance_string.split()` raises unless there are two words
      if |words| != 2 then None
      else
        match ParseFloat(words[0])
        case None => None
        case Some(value) =>
          if LowerEquals(words[1], "mi") then Some(value)
          else if LowerEquals(words[1], "km") then Some(value * MilesPerKilometre)
          else None
  }

  /** A whole number followed by whitespace and a unit converts exactly
      when the unit is `mi` or `km` in any letter case. */
  lemma WholeDistance(n: nat, sp: string, unit: string)
    requires sp != [] && AllSpace(sp)
    requires unit != [] && NoSpace(unit)
    ensures ConvertDistanceToFloat(NatToDecimal(n) + sp + unit) ==
      if LowerEquals(unit, "mi") then Some(n as real)
      else if LowerEquals(unit, "km") then Some(n as real * MilesPerKilometre)
      else None
  {
    var digits := NatToDecimal(n);
    var text := digits + sp + unit;
    assert Words(text) == [digits, unit] by {
      assert NoSpace(digits);
      TwoWords(digits, sp, unit);
    }
    assert ParseFloat(digits) == Some(n as real) by {
      ParseFloatOfDecimal(n);
    }
    assert text != [];
  }

  // ---------------------------------------------------------------------
  // normalize_date
  // ---------------------------------------------------------------------

  /** `month_map.get(month_abbrev, '01')`. */
  function MonthDigitsOr01(monthPart: string): (digits: string)
    ensures |digits| == 2 && '/' !in digits
  {
    Calendar.TablesAgree(monthPart);
    if monthPart in Calendar.MonthDigits then Calendar.MonthDigits[monthPart] else "01"
  }

  /** The text the date's `"m/d"` form splits into, when it has exactly one slash. */
  predicate IsMonthSlashDay(dateText: string) {
    '/' in dateText && |Split(dateText, '/')| == 2
  }

  /** The texts on which `date_text.split()[-1]` raises: a space but no word. */
  predicate IsBlankWithSpace(dateText: string) {
    ' ' in dateText && Words(dateText) == []
  }

  /** `normalize_date`: a scraped date (`"m/d"`, `"Mon d"` or `"d"`) to
      `mm/dd/yy`, using the month and year of the page's month selector.
      It never raises: the one failing step, indexing the last word of a
      blank text, falls back to `date_text + "/" + yy`. */
  function NormalizeDate(dateText: string, monthPart: string, yearPart: string): (r: string)
    ensures EndsWith(r, "/" + Last2(yearPart))
  {
    var head := DateHead(dateText, monthPart);
    var yy := Last2(yearPart);
    assert head + "/" + yy == head + ("/" + yy);
    EndsWithAppend(head, "/" + yy);
    head + "/" + yy
  }

  /** What `normalize_date` puts before `"/" + yy`. */
  function DateHead(dateText: string, monthPart: string): string
  {
    var parts := Split(dateText, '/');
    if '/' in dateText && |parts| == 2 then
      ZFill2(parts[0]) + "/" + ZFill2(parts[1])
    else if ' ' in dateText && Words(dateText) == [] then
      // `date_text.split()[-1]` raised: the handler's `f"{date_text}/..."`
      dateText
    else
      MonthDigitsOr01(monthPart) + "/" + ZFill2(DayText(dateText))
  }

  /** The day of a `"Mon d"` or `"d"` text: its last word when it holds a
      space, otherwise the whole text. */
  function DayText(dateText: string): string {
    var words := Words(dateText);
    if ' ' in dateText && words != [] then words[|words| - 1] else dateText
  }

  /** An `"m/d"` text: both parts zero-padded, then the selector's year. */
  lemma NormalizeSlashDate(m: string, d: string, monthPart: string, yearPart: string)
    requires '/' !in m && '/' !in d
    ensures NormalizeDate(m + "/" + d, monthPart, yearPart) ==
      ZFill2(m) + "/" + ZFill2(d) + "/" + Last2(yearPart)
  {
    assert Split(m + "/" + d, '/') == [m, d] by {
      SplitAt(m, '/', d);
      SplitNoSep(d, '/');
    }
    assert '/' in m + "/" + d by {
      assert (m + "/" + d)[|m|] == '/';
    }
  }

  /** A `"Mon d"` text: the selector's month, the last word as the day. */
  lemma NormalizeMonthDay(word: string, sp: string, day: string, monthPart: string, yearPart: string)
    requires word != [] && NoSpace(word) && day != [] && NoSpace(day)
    requires sp != [] && AllSpace(sp) && ' ' in sp
    requires '/' !in word && '/' !in sp && '/' !in day
    ensures NormalizeDate(word + sp + day, monthPart, yearPart) ==
      MonthDigitsOr01(monthPart) + "/" + ZFill2(day) + "/" + Last2(yearPart)
  {
    var t := word + sp + day;
    assert Words(t) == [word, day] by {
      TwoWords(word, sp, day);
    }
    assert '/' !in t;
    SplitNoSep(t, '/');
    assert ' ' in t by {
      var k :| 0 <= k < |sp| && sp[k] == ' ';
      assert t[|word| + k] == ' ';
    }
  }

  /** A bare day `"d"`: the selector's month, the whole text as the day. */
  lemma NormalizeBareDay(day: string, monthPart: string, yearPart: string)
    requires '/' !in day && ' ' !in day
    ensures NormalizeDate(day, monthPart, yearPart) ==
      MonthDigitsOr01(monthPart) + "/" + ZFill2(day) + "/" + Last2(yearPart)
  {
    SplitNoSep(day, '/');
  }

  /** A blank text holding a space: the handler's fallback, kept as it is. */
  lemma NormalizeBlank(blank: string, monthPart: string, yearPart: string)
    requires ' ' in blank && AllSpace(blank)
    ensures NormalizeDate(blank, monthPart, yearPart) == blank + "/" + Last2(yearPart)
  {
    assert '/' !in blank;
    SplitNoSep(blank, '/');
    AllSpaceNoWords(blank);
  }

  // ---------------------------------------------------------------------
  // get_activity_month
  // ---------------------------------------------------------------------

  /** `get_activity_month`: `int()` of the text before the first slash,
      when the date has a slash and that number is a month. */
  function GetActivityMonth(activity: Activity): (month: Option<int>)
    ensures month.Some? ==> 1 <= month.value <= 12
    ensures month.Some? <==>
      && '/' in activity.date
      && ParseInt(Split(activity.date, '/')[0]).Some?
      && 1 <= ParseInt(Split(activity.date, '/')[0]).value <= 12
    ensures month.Some? ==> month == ParseInt(Split(activity.date, '/')[0])
  {
    SplitCount(activity.date, '/');
    var parts := Split(activity.date, '/');
    if |parts| >= 2 then
      match ParseInt(parts[0])
      case Some(m) => if 1 <= m <= 12 then Some(m) else None
      case None => None
    else None
  }

  /** The month `int()` reads from the text before a date's first slash,
      when it is in 1..12. */
  function MonthOfText(t: string): Option<int> {
    match ParseInt(t)
    case Some(m) => if 1 <= m <= 12 then Some(m) else None
    case None => None
  }

  /** `Calendar.MonthNumbers.get(monthPart)`, with `normalize_date`'s default of January. */
  function MonthNumberOr1(monthPart: string): int {
    if monthPart in Calendar.MonthNumbers then Calendar.MonthNumbers[monthPart] else 1
  }

  /** Zero-padding the month text does not change the month read from it. */
  lemma MonthOfZFill2(t: string)
    ensures MonthOfText(ZFill2(t)) == MonthOfText(t)
  {
    if |t| >= 2 {
    } else if ParseInt(t).Some? {
      ZFill2KeepsInt(t);
    } else if |t| == 1 {
      OneCharNotInt(t);
      ZFill2OfNonDigit(t);
    } else {
      ZFill2OfEmpty();
    }
  }

  lemma ZFill2OfEmpty()
    ensures MonthOfText(ZFill2("")) == None
  {
    var z := ZFill2("");
    assert |z| == 2 && z[0] == '0' && z[1] == '0';
    DoubleZeroInt(z);
  }

  /** The month of a date is read from the text before its first slash. */
  lemma MonthOfFirstPiece(head: string, tail: string, a: Activity)
    requires '/' !in head
    ensures GetActivityMonth(a.(date := head + ['/'] + tail)) == MonthOfText(head)
  {
    SplitAt(head, '/', tail);
    SplitCount(head + ['/'] + tail, '/');
  }

  /** Reading the month back out of a normalised date gives the month the
      date was normalised into: the month of an `"m/d"` text, the month of
      the page's selector for `"Mon d"` and `"d"`, and none for the blank
      fallback. This is what lets the month-replacing merge find the
      activities a scan of that month produced. */
  lemma NormalizedDateMonth(dateText: string, monthPart: string, yearPart: string, rest: Activity)
    ensures GetActivityMonth(rest.(date := NormalizeDate(dateText, monthPart, yearPart))) ==
      if IsMonthSlashDay(dateText) then MonthOfText(Split(dateText, '/')[0])
      else if IsBlankWithSpace(dateText) then None
      else Some(MonthNumberOr1(monthPart))
  {
    if IsMonthSlashDay(dateText) {
      SlashDateMonth(dateText, monthPart, yearPart, rest);
    } else if IsBlankWithSpace(dateText) {
      BlankDateMonth(dateText, monthPart, yearPart, rest);
    } else {
      ContextDateMonth(dateText, monthPart, yearPart, rest);
    }
  }

  lemma SlashDateMonth(dateText: string, monthPart: string, yearPart: string, rest: Activity)
    requires IsMonthSlashDay(dateText)
    ensures GetActivityMonth(rest.(date := NormalizeDate(dateText, monthPart, yearPart))) ==
      MonthOfText(Split(dateText, '/')[0])
  {
    var parts := Split(dateText, '/');
    SlashDateShape(dateText, monthPart, yearPart);
    SplitPiecesNoSep(dateText, '/', 0);
    PaddedMonthFirst(parts[0], ZFill2(parts[1]) + "/" + Last2(yearPart), rest);
  }

  /** An `"m/d"` date is the padded month, a slash, then the padded day and the year. */
  lemma SlashDateShape(dateText: string, monthPart: string, yearPart: string)
    requires IsMonthSlashDay(dateText)
    ensures var parts := Split(dateText, '/');
      NormalizeDate(dateText, monthPart, yearPart) ==
        ZFill2(parts[0]) + ['/'] + (ZFill2(parts[1]) + "/" + Last2(yearPart))
  {
    var parts := Split(dateText, '/');
    var m, d := ZFill2(parts[0]), ZFill2(parts[1]);
    assert DateHead(dateText, monthPart) == m + "/" + d;
    assert m + "/" + d + "/" + Last2(yearPart) == m + ['/'] + (d + "/" + Last2(yearPart));
  }

  lemma PaddedMonthFirst(m: string, tail: string, rest: Activity)
    requires '/' !in m
    ensures GetActivityMonth(rest.(date := ZFill2(m) + ['/'] + tail)) == MonthOfText(m)
  {
    assert '/' !in ZFill2(m);
    MonthOfFirstPiece(ZFill2(m), tail, rest);
    MonthOfZFill2(m);
  }

  lemma BlankDateMonth(dateText: string, monthPart: string, yearPart: string, rest: Activity)
    requires !IsMonthSlashDay(dateText) && IsBlankWithSpace(dateText)
    ensures GetActivityMonth(rest.(date := NormalizeDate(dateText, monthPart, yearPart))) == None
  {
    NoWordsAllSpace(dateText);
    assert '/' !in dateText;
    assert NormalizeDate(dateText, monthPart, yearPart) == dateText + ['/'] + Last2(yearPart);
    MonthOfFirstPiece(dateText, Last2(yearPart), rest);
    StripAllSpace(dateText);
  }

  lemma ContextDateMonth(dateText: string, monthPart: string, yearPart: string, rest: Activity)
    requires !IsMonthSlashDay(dateText) && !IsBlankWithSpace(dateText)
    ensures GetActivityMonth(rest.(date := NormalizeDate(dateText, monthPart, yearPart))) ==
      Some(MonthNumberOr1(monthPart))
  {
    var digits := MonthDigitsOr01(monthPart);
    var tail := ZFill2(DayText(dateText)) + "/" + Last2(yearPart);
    ContextDateShape(dateText, monthPart, yearPart);
    MonthOfFirstPiece(digits, tail, rest);
    MonthDigitsMonth(monthPart);
  }

  /** Outside the `"m/d"` and blank cases the date is the month's two
      digits, a slash, then the day and the year. */
  lemma ContextDateShape(dateText: string, monthPart: string, yearPart: string)
    requires !IsMonthSlashDay(dateText) && !IsBlankWithSpace(dateText)
    ensures NormalizeDate(dateText, monthPart, yearPart) ==
      MonthDigitsOr01(monthPart) + ['/'] + (ZFill2(DayText(dateText)) + "/" + Last2(yearPart))
  {
    var digits, day := MonthDigitsOr01(monthPart), ZFill2(DayText(dateText));
    assert DateHead(dateText, monthPart) == digits + "/" + day;
    assert digits + "/" + day + "/" + Last2(yearPart) == digits + ['/'] + (day + "/" + Last2(yearPart));
  }

  /** The two-digit month `normalize_date` writes reads back as the month. */
  lemma MonthDigitsMonth(monthPart: string)
    ensures MonthOfText(MonthDigitsOr01(monthPart)) == Some(MonthNumberOr1(monthPart))
  {
    Calendar.TablesAgree(monthPart);
    var digits := MonthDigitsOr01(monthPart);
    if monthPart in Calendar.MonthDigits {
      var n := Calendar.MonthNumbers[monthPart];
      assert digits == Calendar.MonthDigits[monthPart];
      assert ParseInt(digits) == Some(n) && 1 <= n <= 12;
      assert MonthNumberOr1(monthPart) == n;
    } else {
      Calendar.TablesAgree("Jan");
      assert digits == Calendar.MonthDigits["Jan"];
    }
  }

  /** `"0" + c` for a one-character text `c` that is not a digit: `int()`
      either rejects it or reads 0 (when `c` is whitespace), never a month. */
  lemma ZFill2OfNonDigit(t: string)
    requires |t| == 1 && !IsDigit(t[0])
    ensures MonthOfText(ZFill2(t)) == None
  {
    var c, z := t[0], ZFill2(t);
    if c == '+' || c == '-' {
      assert |z| == 2 && z[0] == c && z[1] == '0';
      SignedZeroInt(z);
    } else {
      assert |z| == 2 && z[0] == '0' && z[1] == c;
      if IsSpace(c) {
        ZeroSpaceInt(z);
      } else {
        ZeroOtherInt(z);
      }
    }
  }
}
