/** The three month tables the script uses: the English abbreviations
    `strftime("%b")` yields, the abbreviation-to-number table of
    `merge_activities_by_month` and the abbreviation-to-two-digit table of
    `normalize_date`. */
module Calendar {
  import opened Common
  import opened PyText

  /** `datetime(year, m, 1).strftime("%b")` under an English locale. */
  function MonthAbbreviation(m: int): (abbrev: string)
    requires 1 <= m <= 12
    ensures abbrev in MonthNumbers && MonthNumbers[abbrev] == m
    ensures abbrev in MonthDigits
  {
    ["Jan", "Feb", "Mar", "Apr", "May", "Jun",
     "Jul", "Aug", "Sep", "Oct", "Nov", "Dec"][m - 1]
  }

  /** `month_abbr_to_num` in `merge_activities_by_month`. */
  const MonthNumbers: map<string, int> := map[
    "Jan" := 1, "Feb" := 2, "Mar" := 3, "Apr" := 4, "May" := 5, "Jun" := 6,
    "Jul" := 7, "Aug" := 8, "Sep" := 9, "Oct" := 10, "Nov" := 11, "Dec" := 12]

  /** `month_map` in `normalize_date`. */
  const MonthDigits: map<string, string> := map[
    "Jan" := "01", "Feb" := "02", "Mar" := "03", "Apr" := "04",
    "May" := "05", "Jun" := "06", "Jul" := "07", "Aug" := "08",
    "Sep" := "09", "Oct" := "10", "Nov" := "11", "Dec" := "12"]

  /** The two tables know the same abbreviations, and each two-digit form
      spells the month number in decimal. */
  lemma TablesAgreeOnDigits(abbrev: string)
    ensures abbrev in MonthNumbers <==> abbrev in MonthDigits
    ensures abbrev in MonthDigits ==>
      && |MonthDigits[abbrev]| == 2
      && IsDigit(MonthDigits[abbrev][0]) && IsDigit(MonthDigits[abbrev][1])
      && 1 <= MonthNumbers[abbrev] <= 12
      && DigitsOrUnderscores(MonthDigits[abbrev])
      && RunValue(MonthDigits[abbrev]) == MonthNumbers[abbrev]
  {
    if abbrev in MonthDigits {
      TwoDigitValue(MonthDigits[abbrev]);
    }
  }

  /** The two tables agree: both know the same twelve abbreviations, and
      `int()` of the two-digit form is the month number. */
  lemma TablesAgree(abbrev: string)
    ensures abbrev in MonthNumbers <==> abbrev in MonthDigits
    ensures abbrev in MonthDigits ==>
      && |MonthDigits[abbrev]| == 2
      && (forall i :: 0 <= i < 2 ==> IsDigit(MonthDigits[abbrev][i]))
      && ParseInt(MonthDigits[abbrev]) == Some(MonthNumbers[abbrev])
      && 1 <= MonthNumbers[abbrev] <= 12
  {
    TablesAgreeOnDigits(abbrev);
    if abbrev in MonthDigits {
      var d := MonthDigits[abbrev];
      assert forall i :: 0 <= i < |d| ==> IsDigit(d[i]);
      ParseIntOfDigits(d);
    }
  }
}
