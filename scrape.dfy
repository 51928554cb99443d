/** The string handling inside `scrape_activities`: the month selector it
    builds and parses back, the activity link it makes absolute, and the
    activity record it assembles from the texts it read. */
module Scrape {
  import opened Common
  import opened PyText
  import Calendar
  import opened Normalize

  /** The site the scraper reads; relative links are resolved against it. */
  const SiteRoot: string := "https://runkeeper.com"

  /** The part of the selector before its first double quote. */
  const SelectorPrefix: string := "[data-date="

  /** `f"{month}-01-{current_year}"`: the `data-date` attribute of a month tab. */
  function MonthDate(month: string, year: nat): string {
    month + ['-'] + "01" + ['-'] + NatToDecimal(year)
  }

  /** `f'[data-date="{month}-01-{current_year}"]'`: the month tab's selector. */
  function MonthSelector(month: string, year: nat): (selector: string)
    ensures selector == SelectorPrefix + ['"'] + MonthDate(month, year) + ['"'] + "]"
  {
    "[data-date=\"" + month + "-01-" + NatToDecimal(year) + "\"]"
  }

  /** `month_year = cur_month.split('"')[1]`, then the first and third
      dash-separated parts as the month and the year. Either index can
      raise `IndexError`; the scraper then skips the activity, modelled as
      `None`. */
  function SelectorContext(selector: string): (context: Option<(string, string)>)
    ensures context.Some? ==> '"' !in context.value.0 && '-' !in context.value.0
  {
    var quoted := Split(selector, '"');
    if |quoted| < 2 then None
    else
      var dashed := Split(quoted[1], '-');
      if |dashed| < 3 then None
      else
        SplitPiecesNoSep(selector, '"', 1);
        SplitPiecesNoSep(quoted[1], '-', 0);
        assert forall c :: c in dashed[0] ==> c in quoted[1] by {
          JoinSplit(quoted[1], '-');
          JoinPrefix(dashed, '-');
        }
        Some((dashed[0], dashed[2]))
  }

  /** The first piece of a join is a prefix of the joined text. */
  lemma JoinPrefix(parts: seq<string>, sep: char)
    requires |parts| >= 1
    ensures |parts[0]| <= |Join(parts, sep)| && Join(parts, sep)[..|parts[0]|] == parts[0]
  {
  }

  /** Parsing the selector gives back the month and the year it was built
      from, whenever the month text holds no `"` and no `-` (true of every
      month abbreviation). */
  lemma SelectorRoundTrip(month: string, year: nat)
    requires '"' !in month && '-' !in month
    ensures SelectorContext(MonthSelector(month, year)) == Some((month, NatToDecimal(year)))
  {
    var y := NatToDecimal(year);
    var date := MonthDate(month, year);
    assert '"' !in y && '-' !in y by {
      assert forall i :: 0 <= i < |y| ==> IsDigit(y[i]);
    }
    assert Split(MonthSelector(month, year), '"')[1] == date by {
      assert '"' !in SelectorPrefix;
      assert '"' !in date;
      SplitAt(SelectorPrefix, '"', date + ['"'] + "]");
      SplitAt(date, '"', "]");
      assert MonthSelector(month, year) == SelectorPrefix + ['"'] + (date + ['"'] + "]");
    }
    assert Split(date, '-') == [month, "01", y] by {
      SplitAt(month, '-', "01" + ['-'] + y);
      SplitAt("01", '-', y);
      SplitNoSep(y, '-');
      assert date == month + ['-'] + ("01" + ['-'] + y);
    }
  }

  /** Every month abbreviation survives the selector round trip. */
  lemma AbbreviationRoundTrip(m: int, year: nat)
    requires 1 <= m <= 12
    ensures SelectorContext(MonthSelector(Calendar.MonthAbbreviation(m), year)) ==
      Some((Calendar.MonthAbbreviation(m), NatToDecimal(year)))
  {
    var a := Calendar.MonthAbbreviation(m);
    assert '"' !in a && '-' !in a;
    SelectorRoundTrip(a, year);
  }

  /** The link handling at the activity: a missing or empty `href` skips
      the activity (`None`); a link starting with `/` is prefixed with the
      site root; any other link is used as it is. */
  function ActivityUrl(href: Option<string>): (url: Option<string>)
    ensures url.None? <==> href.None? || href.value == []
    ensures url.Some? ==> EndsWith(url.value, href.value) && url.value[0] != '/'
    ensures url.Some? && href.value[0] != '/' ==> url.value == href.value
    ensures url.Some? && href.value[0] == '/' ==> url.value == SiteRoot + href.value
  {
    if href.None? || href.value == [] then None
    else if href.value[0] == '/' then Some(SiteRoot + href.value)
    else href
  }

  /** Making a link absolute twice is the same as once. */
  lemma ActivityUrlIdempotent(href: Option<string>)
    ensures ActivityUrl(ActivityUrl(href)) == ActivityUrl(href)
  {
  }

  /** The record the scraper appends for one activity, given the texts it
      read and the month tab's selector; `None` where it skips the activity
      because the selector does not parse. */
  function ScrapedActivity(selector: string, dateText: string, distanceText: string,
                           activityType: string, duration: string, pace: string): (a: Option<Activity>)
    ensures a.Some? <==> SelectorContext(selector).Some?
    ensures a.Some? ==>
      && a.value.distance == ConvertDistanceToFloat(distanceText)
      && EndsWith(a.value.date, "/" + Last2(SelectorContext(selector).value.1))
    ensures a.Some? ==>
      && a.value.date == NormalizeDate(dateText, SelectorContext(selector).value.0,
                                       SelectorContext(selector).value.1)
      && a.value.activityType == activityType
      && a.value.duration == duration && a.value.pace == pace
  {
    match SelectorContext(selector)
    case None => None
    case Some((monthPart, yearPart)) =>
      Some(Activity(NormalizeDate(dateText, monthPart, yearPart),
                    ConvertDistanceToFloat(distanceText), activityType, duration, pace))
  }

  /** An activity scraped under the tab of month `m` reads back as month `m`,
      unless its date text carried its own `m/d` (then that month) or was
      blank (then none). This is what lets the merge replace whole months. */
  lemma ScrapedActivityMonth(m: int, year: nat, dateText: string, distanceText: string,
                             activityType: string, duration: string, pace: string)
    requires 1 <= m <= 12
    ensures var a := ScrapedActivity(MonthSelector(Calendar.MonthAbbreviation(m), year),
                                     dateText, distanceText, activityType, duration, pace);
      && a.Some?
      && GetActivityMonth(a.value) ==
           if IsMonthSlashDay(dateText) then MonthOfText(Split(dateText, '/')[0])
           else if IsBlankWithSpace(dateText) then None
           else Some(m)
  {
    var abbrev := Calendar.MonthAbbreviation(m);
    var y := NatToDecimal(year);
    AbbreviationRoundTrip(m, year);
    var rest := Activity("", ConvertDistanceToFloat(distanceText), activityType, duration, pace);
    NormalizedDateMonth(dateText, abbrev, y, rest);
    assert MonthNumberOr1(abbrev) == m;
  }
}
