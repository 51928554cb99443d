# Runkeeper miles: a verified model of the scraper's data shaping

`update_runkeeper_miles.py` scrapes each club member's Runkeeper activity
list month by month, turns the texts it reads into activity records, and
writes `data.json`. An incremental run replaces only the scanned months of
each runner's stored activities. This project models that data shaping in
Dafny and proves what it promises:

- The text normalisers: `convert_distance_to_float`, `normalize_date` and
  `get_activity_month`, built on models of the Python string builtins they
  use (`split`, `zfill`, `strip`, `int`, `float`, `lower`, `[-2:]`).
- The month window `get_months_until_now`, with the clock as a parameter.
- The month-tab selector the scraper builds and parses back, the activity
  link it makes absolute, and the record it assembles.
- `merge_activities_by_month`, which replaces whole scanned months.
- `export_to_json` without the file write: consolidating the scrape with the
  prior document, then the per-runner statistics and the metadata.
- The cookie adapters `cookie_to_dict` and `format_cookie_for_playwright`.

Modules, one per file: `Common` (Option, Result), `PyText` (Python string
builtins), `Calendar` (the month tables), `Normalize`, `Months`, `Cookies`,
`Scrape`, `MonthMerge`, `Stats` (sorting, types and distance totals) and
`Export`.

The loops of `get_months_until_now`, `merge_activities_by_month` and
`export_to_json` are methods with loop invariants. Each is proved equal to a
specification function, and the properties are lemmas about those functions.
The rest of the code is expressions, so it is modelled as functions.

The main modelling choices:

- Dictionaries are `map`s, so iteration order is not modelled.
- Floats are exact `real`s.
- An exception the code raises is an `Err` (or `None`) result. An exception
  the code catches is modelled as its handler's result.

## Model

| member | source | states |
|---|---|---|
| Normalize.ConvertDistanceToFloat | update_runkeeper_miles.py:76-93 | empty text gives None; a result exists exactly when the text is two whitespace-separated words, the first a float and the second `mi` or `km` in any case; miles are the value, kilometres are the value times 0.621371 |
| Normalize.WholeDistance | update_runkeeper_miles.py:81-91 | `"<n> <unit>"` converts to n miles, n × 0.621371, or None, depending on the lower-cased unit |
| PyText.TwoWords | update_runkeeper_miles.py:82 | `"a b".split()` is `[a, b]` for two words separated by any whitespace |
| PyText.ParseFloatOfDecimal | update_runkeeper_miles.py:83 | `float(str(n))` is n |
| Normalize.NormalizeDate | update_runkeeper_miles.py:96-132 | the result always ends with `/` followed by the last two characters of the year text, on every path including the exception fallback |
| Normalize.NormalizeSlashDate | update_runkeeper_miles.py:100-106 | `"m/d"` becomes zfill(2) of m, `/`, zfill(2) of d, `/`, then the year's last two characters |
| Normalize.NormalizeMonthDay | update_runkeeper_miles.py:109-127 | `"Mon d"` takes the day from the last word and the month from the selector's month table (default `01`) |
| Normalize.NormalizeBareDay | update_runkeeper_miles.py:113-127 | a bare day is zero-padded under the selector's month |
| Normalize.NormalizeBlank | update_runkeeper_miles.py:109-111 | a blank text holding a space makes `split()[-1]` raise; the handler returns the text, `/`, and the year's last two characters |
| PyText.ZFill2KeepsInt | update_runkeeper_miles.py:106 | zero-padding a number to width 2 keeps the integer `int()` reads from it |
| Calendar.TablesAgree | update_runkeeper_miles.py:118-124 | the two-digit month table and the month-number table know the same twelve abbreviations; `int()` of the two-digit form is the number |
| Calendar.MonthAbbreviation | update_runkeeper_miles.py:181-184 | `strftime("%b")` of month m is a key of both tables and maps back to m |
| Normalize.GetActivityMonth | update_runkeeper_miles.py:536-548 | a month exists exactly when the date has a slash and the text before the first slash parses as an integer in 1..12, and then it is that integer |
| Normalize.NormalizedDateMonth | update_runkeeper_miles.py:96-132 | reading the month back from a normalised date gives the month of an `m/d` text, the selector's month (January if unknown) otherwise, and none for the blank fallback |
| Normalize.MonthOfZFill2 | update_runkeeper_miles.py:106 | zero-padding the month text never changes the month read back from it |
| Normalize.MonthDigitsMonth | update_runkeeper_miles.py:124 | the two-digit month written for an abbreviation reads back as that abbreviation's number, and unknown abbreviations read back as January |
| Months.MonthWindow | update_runkeeper_miles.py:135-184 | a window exists exactly when 1 ≤ start ≤ end ≤ 12 (start defaulting to 1, end to the current month), and then it names 1 to 12 months |
| Months.GetMonthsUntilNow | update_runkeeper_miles.py:135-184 | the loop-built list, with the previous-month special case, equals the month window or its error |
| Months.NameMonths | update_runkeeper_miles.py:181-184 | the comprehension names every month in order |
| Months.Range | update_runkeeper_miles.py:172-173 | `range(lo, hi)` has hi − lo elements and element i is lo + i |
| Months.WindowRejects | update_runkeeper_miles.py:147-167 | refused exactly when the start or the end is outside 1..12 or the start is after the end; the error reports the first failing check |
| Months.WindowAscending | update_runkeeper_miles.py:171-173 | outside the special case, the window names end − start + 1 months in ascending order from start |
| Months.WindowPrependsPrevious | update_runkeeper_miles.py:176-178 | when only the current month c > 1 is asked for, the window is month c − 1 followed by month c |
| Months.WindowMonthsKnown | update_runkeeper_miles.py:557-561 | every name in a window is a key of the merge's month table |
| Months.WindowDistinct | update_runkeeper_miles.py:169-184 | no month is listed twice |
| Cookies.CookieToDict | update_runkeeper_miles.py:50-73 | the stored expiry is None or a timestamp in 0..2^31 − 1; it is None exactly when the cookie has no expiry or one outside 0..2^31 − 1 (a zero expiry is falsy and kept as 0), and otherwise it is the cookie's expiry |
| Cookies.CookieToDictKeys | update_runkeeper_miles.py:57-73 | exactly the fifteen attribute keys; name, value, domain and path are copied |
| Cookies.CookieToDictFlags | update_runkeeper_miles.py:63-72 | `secure`, `domain_initial_dot`, `path_specified`, `domain_specified`, `discard` and `rfc2109` are copied |
| Cookies.CookieToDictOptionals | update_runkeeper_miles.py:63-71 | `version`, `port`, `comment` and `comment_url` are copied, None when unset |
| Cookies.FormatCookieForPlaywright | update_runkeeper_miles.py:236-253 | an empty dict exactly for None or `{}`; otherwise the six keys, `sameSite` is `Lax`, value, domain and path are `get` of the input, the name defaults to `checker`, and a None, 0 or False expiry becomes −1 while any other is kept |
| Cookies.BrowserCookieForPlaywright | update_runkeeper_miles.py:236-253 | a browser cookie passed through both adapters keeps name, value, domain and path; its expiry is −1 or a timestamp in 1..2^31 − 1, and a valid positive expiry is kept |
| Cookies.FormatIdempotent | update_runkeeper_miles.py:236-253 | formatting an already formatted cookie changes nothing |
| Scrape.SelectorContext | update_runkeeper_miles.py:411-413 | when the selector parses, the month part holds no `"` and no `-` |
| Scrape.SelectorRoundTrip | update_runkeeper_miles.py:274 | parsing the built selector gives back the month and the year, for any month text without `"` or `-` |
| Scrape.AbbreviationRoundTrip | update_runkeeper_miles.py:274 | every month abbreviation survives the selector round trip |
| Scrape.ActivityUrl | update_runkeeper_miles.py:428-435 | None exactly for a missing or empty link; a link starting with `/` becomes `https://runkeeper.com` followed by the link; any other link is unchanged; the result never starts with `/` |
| Scrape.ActivityUrlIdempotent | update_runkeeper_miles.py:434-435 | making a link absolute twice is the same as once |
| Scrape.ScrapedActivity | update_runkeeper_miles.py:474-486 | a record exists exactly when the selector parses; its date is `normalize_date` of the date text under the selector's month and year, so it ends with the two-digit year; its distance is the converted distance; type, duration and pace are copied |
| Scrape.ScrapedActivityMonth | update_runkeeper_miles.py:474-486 | an activity scraped under month m reads back as month m, unless its text was `m/d` (then that month) or blank (then none) |
| MonthMerge.ScannedMonthNumbersMeaning | update_runkeeper_miles.py:557-561 | succeeds exactly when every scanned name is in the table, and then holds exactly their numbers; otherwise the `KeyError` names an unknown abbreviation |
| MonthMerge.MergeByMonth | update_runkeeper_miles.py:551-585 | fails exactly when the prior list is non-empty and a scanned name is unknown; otherwise the result ends with the scraped list and is at most the two lists long |
| MonthMerge.MergeWith | update_runkeeper_miles.py:568-578 | the merged list is at least the scraped list long and at most both lists together |
| MonthMerge.MergeActivitiesByMonth | update_runkeeper_miles.py:551-585 | the partition loop returns the kept prior activities followed by the scraped ones, or the `KeyError` |
| MonthMerge.PartitionByMonth | update_runkeeper_miles.py:568-575 | the loop over the prior activities builds exactly the kept list and the removed list, each in the prior order |
| MonthMerge.KeptCount | update_runkeeper_miles.py:570-575 | an activity of an unscanned month is kept exactly as many times as it occurs in the prior list |
| MonthMerge.KeptMembers | update_runkeeper_miles.py:570-575 | a prior activity is kept exactly when its month is readable and was not scanned |
| MonthMerge.KeptRemovedPartition | update_runkeeper_miles.py:568-575 | kept and removed together are the prior list, with multiplicities |
| MonthMerge.KeptAppend | update_runkeeper_miles.py:570-575 | the filter distributes over concatenation, so order is kept |
| MonthMerge.KeptIdempotent | update_runkeeper_miles.py:570-575 | filtering twice is filtering once |
| MonthMerge.MergeContents | update_runkeeper_miles.py:553-585 | the merge ends with the scraped list; what precedes it is exactly the surviving prior activities; an empty prior list gives the scraped list |
| MonthMerge.MergeFails | update_runkeeper_miles.py:553-561 | the merge fails exactly when the prior list is non-empty and a scanned name is unknown |
| MonthMerge.MergeIdempotent | update_runkeeper_miles.py:551-585 | when every scraped activity is of a scanned month, merging the same scrape again changes nothing |
| Stats.StrLessTransitive | update_runkeeper_miles.py:654 | Python's string order is transitive (with StrLessIrreflexive, StrLessTotal and StrLessAsymmetric, a strict total order) |
| Stats.SortByDate | update_runkeeper_miles.py:654 | `sorted(..., key=date)` is a permutation of its input |
| Stats.SortByDateSorted | update_runkeeper_miles.py:654 | the result is ordered by date |
| Stats.SortByDateStable | update_runkeeper_miles.py:654 | the sort is stable: activities with equal dates keep their order |
| Stats.SortByDateUnique | update_runkeeper_miles.py:654 | two lists that hold the same activities of each date in the same order sort to the same list |
| Stats.SortByDateOfSorted | update_runkeeper_miles.py:654 | an already ordered list is unchanged |
| Stats.SortedTypes | update_runkeeper_miles.py:645 | `sorted(set(types))` is strictly increasing and holds exactly the types that occur |
| Stats.StrictlySortedUnique | update_runkeeper_miles.py:645 | two strictly increasing lists with the same elements are equal |
| Stats.SortedTypesOfPermutation | update_runkeeper_miles.py:645 | the type list does not depend on the order of the activities |
| Stats.TotalDistance | update_runkeeper_miles.py:643 | activities without a distance add nothing (a list of them totals 0), and non-negative distances give a non-negative total; `TotalDistanceAppend` and `TotalDistanceOfPermutation` state how it sums |
| Stats.TotalDistanceAppend | update_runkeeper_miles.py:643 | the distance total of a concatenation is the sum of the totals |
| Stats.TotalDistanceOfPermutation | update_runkeeper_miles.py:643 | the distance total does not depend on the order of the activities |
| Stats.FormatRunner | update_runkeeper_miles.py:647-655 | the entry carries the name; `totalActivities` is the number of activities; the listed activities are a permutation of the input |
| Stats.FormatRunnerConsistent | update_runkeeper_miles.py:641-655 | the entry's list is ordered and stable, its statistics are those of its own list, and re-formatting its list gives the same entry |
| Export.Consolidate | update_runkeeper_miles.py:597-621 | without an incremental run, scanned months and a prior document the scrape is returned unchanged; otherwise the runners are those of both sides; an error is the `KeyError` of an unknown scanned name |
| Export.WithPriorRunners | update_runkeeper_miles.py:605-610 | the first loop adds every prior runner missing from the scrape with their prior list and leaves the scraped runners alone |
| Export.PreservePriorRunners | update_runkeeper_miles.py:605-610 | the first loop computes exactly those runners |
| Export.MergeStage | update_runkeeper_miles.py:612-621 | the second loop fails exactly when a scanned name is unknown and some prior runner has activities, with that name's `KeyError`; otherwise it keeps the runners of its input |
| Export.MergeAsWritten | update_runkeeper_miles.py:612-621 | the second loop as written keeps the runners of its input; `ConsolidateIncremental` and `PriorOnlyRunnerDuplicated` state what each runner gets, the self-merge of a prior-only runner included |
| Export.MergePriorRunners | update_runkeeper_miles.py:612-621 | the second loop merges every runner the prior document knows, or stops with the `KeyError` |
| Export.MergeRunner | update_runkeeper_miles.py:613-617 | one iteration of the second loop either stops with the merge stage's `KeyError` or merges that runner and leaves every other runner as before |
| Export.MergedAll | update_runkeeper_miles.py:612-621 | once every runner has been visited without error, the dictionary is the merge stage's result |
| Export.TotalActivities | update_runkeeper_miles.py:635-637 | the loop's total is the sum of all activity-list lengths |
| Export.Entries | update_runkeeper_miles.py:641-655 | one entry per runner, under the runner's name; `FormatRunnerConsistent` states what each entry holds |
| Export.FormatRunners | update_runkeeper_miles.py:641-655 | one formatted entry per runner |
| Export.ExportToJson | update_runkeeper_miles.py:597-655 | the method returns exactly the specified document, or the merge error |
| Export.ConsolidateFullExport | update_runkeeper_miles.py:597-627 | outside an incremental run with scanned months and a prior document, the scrape is exported unchanged |
| Export.ConsolidateIncremental | update_runkeeper_miles.py:605-621 | the runners are those of either side; a runner in both gets the month merge of prior and scraped; a scrape-only runner keeps the scraped list; a prior-only runner gets the prior list merged with itself |
| Export.ConsolidateFails | update_runkeeper_miles.py:612-617 | an incremental export fails exactly when a scanned name is unknown and some prior runner has activities |
| Export.FormatDocument | update_runkeeper_miles.py:630-655 | the document lists exactly the runners and `totalRunners` counts them; `DocumentConsistent` states the rest |
| Export.DocumentConsistent | update_runkeeper_miles.py:630-655 | `totalRunners` counts the runners, `totalActivities` counts the activities listed, and each runner's entry carries its name and is the formatting of its own list |
| Export.PriorOnlyRunnerDuplicated | update_runkeeper_miles.py:605-617 | as written, a prior-only runner's list becomes the kept part followed by the whole prior list, so every activity of an unscanned month appears twice as often |
| Export.DuplicationExample | update_runkeeper_miles.py:605-617 | one November activity, prior only, under a December scan is written twice |
| Export.DuplicationInDocument | update_runkeeper_miles.py:605-655 | the written document lists that runner with two activities and `totalActivities` 2 |
| Export.AsWrittenNotIdempotent | update_runkeeper_miles.py:605-617 | as written, repeating the same incremental update changes the data (two activities become four) |
| Export.IntendedPreservesPriorOnly | update_runkeeper_miles.py:605-610 | corrected: a prior-only runner is preserved unchanged, and scraped runners are treated exactly as the code treats them |
| Export.IntendedDocumentIdempotent | update_runkeeper_miles.py:597-655 | corrected: when every scraped activity is of a scanned month, a second run with the same scrape that reads the document the first run wrote (activity lists sorted by date) writes exactly that document again |
| Export.IntendedIdempotent | update_runkeeper_miles.py:597-621 | corrected: when every scraped activity is of a scanned month, re-running the same update on its own output changes nothing |

## Left out
- Cookies.Key: `Other(text)` can spell a listed key (`Other("name")`); the model never builds such a key, so a dictionary with both spellings of one Python key does not arise, but the type does not exclude it.
- Browser automation is not modelled: the page navigation, waiting, tabs, the cookie modal and `scrape_user_activities`. The scraper's texts are parameters of `Scrape.ScrapedActivity`.
- The activity type, `all_content.replace(...).strip()`, is taken as a parameter.
- The thread pool in `main`, `get_essential_cookie`, `load_existing_data`, the JSON file write and `gcp_secret.py` are not part of this model. A prior document that is missing, not valid JSON, or empty is `None`. Other read errors, such as `PermissionError` or `UnicodeDecodeError`, propagate in the source and are not modelled.
- The clock is a parameter: `datetime.now().month` in `get_months_until_now`. The current year is a parameter of the selector. `get_months_until_now` also uses it, in `datetime(current.year, month, 1).strftime("%b")`, where it cannot change the abbreviation. `strftime("%b")` is modelled under an English locale (`Calendar.MonthAbbreviation`). `lastUpdated` is not in the modelled metadata.
- Logging (`print`) is not modelled.
- Dictionary and set iteration order is not modelled. Runners are `map`s, and the written document is compared by contents.
- Floats are exact reals. `Normalize.ConvertDistanceToFloat` and `PyText.ParseFloat` accept decimal and exponent notation with ASCII digits and underscores. They do not model `inf`, `nan` or binary rounding.
- `PyText.ParseInt`, `PyText.ParseFloat`, `Normalize.GetActivityMonth` and `Normalize.ConvertDistanceToFloat` accept ASCII digits only. Python's `int()` and `float()` also accept other Unicode decimal digits (Arabic-Indic or full-width digits, for example), so a date or distance written with those is read by the source but not by the model.
- `Stats.FormatRunner`: does not model `round(total_distance, 2)`. The exact sum is kept, because rounding a binary float is not part of the real-number model.
- A `None` distance counts as 0 in the distance total. This agrees with the source's `if act["distance"]` filter, which skips `None` and `0.0`.
- `Cookies.CookieToDict`: Python's `cookie.expires` may be any number. The model takes it as an optional integer.
- `Cookies.FormatCookieForPlaywright` covers the dictionary shape only. The list-shaped secret that `gcp_secret.py` may return is not part of this model.
- `Export.ExportToJson` does not model the mutation of the caller's `activities_data` dictionary. It returns the consolidated document instead.
- A prior document without a `"runners"` key raises `KeyError` in the source. The model assumes the key is present.
- `Normalize.NormalizeDate` has no concrete example lemma. Its behaviour on each input shape is stated by the four shape lemmas.

## Findings

| source | as written | input that shows it | evidently intended | confidence | as-written member | corrected member |
|---|---|---|---|---|---|---|
| update_runkeeper_miles.py:605-617 | The first loop copies each prior-only runner's prior list into `activities_data`. The second loop then merges every runner the prior document knows, including that runner. So the prior list is merged with itself, and every activity of an unscanned month is kept twice. | An incremental run with months `["Dec"]`, an empty scrape, and a prior document where runner "Pat" has one activity dated `11/02/24`. The export writes that activity twice with `totalActivities` 2. The next identical run writes it four times. | A runner absent from the scrape is preserved unchanged (the comment at line 608 says so), and only runners in both are merged. Then, when every scraped activity is of a scanned month, repeating an update changes nothing: the second run, reading the written file, writes the same document. | not executed | Export.PriorOnlyRunnerDuplicated, Export.DuplicationExample, Export.AsWrittenNotIdempotent | Export.ConsolidateIntended, Export.IntendedPreservesPriorOnly, Export.IntendedIdempotent, Export.IntendedDocumentIdempotent |

In practice `main` puts every scraped member into `all_activities`, with an empty list when scraping fails. A prior-only runner therefore arises for a member who was removed from the `spartans` table while still in the stored document.
