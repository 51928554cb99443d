/** `export_to_json` without the file write: consolidating the scraped
    runners with the prior dataset, then the document with per-runner
    statistics and the run's metadata. */
module Export {
  import opened Common
  import opened Normalize
  import opened MonthMerge
  import opened Stats

  /** Each runner's name and activity list: `activities_data`, and the
      `activities` lists of the prior document's `runners`. */
  type Runners = map<string, seq<Activity>>

  /** `metadata` without `lastUpdated`, which is the wall-clock time. */
  datatype Metadata = Metadata(totalRunners: nat, totalActivities: nat)

  datatype Document = Document(runners: map<string, RunnerEntry>, metadata: Metadata)

  /** The prior dataset takes part only in an incremental run with a
      non-empty list of scanned months, and only when a prior dataset was
      read (`prior` is `None` when the file is missing, is not valid
      JSON, or holds an empty object). */
  predicate MergesPrior(prior: Option<Runners>, scanned: seq<string>, incremental: bool) {
    incremental && |scanned| > 0 && prior.Some?
  }

  /** The first loop: every prior runner missing from the scrape is added
      with their prior activity list. */
  function WithPriorRunners(scraped: Runners, prior: Runners): (data: Runners)
    ensures data.Keys == scraped.Keys + prior.Keys
    ensures forall r :: r in scraped ==> data[r] == scraped[r]
    ensures forall r :: r in prior && r !in scraped ==> data[r] == prior[r]
  {
    map r | r in scraped.Keys + prior.Keys :: if r in scraped then scraped[r] else prior[r]
  }

  /** The second loop as written: every runner the prior dataset knows is
      merged, including those the first loop has just copied from it. */
  function MergeAsWritten(data: Runners, prior: Runners, nums: set<int>): (merged: Runners)
    ensures merged.Keys == data.Keys
  {
    map r | r in data :: if r in prior then MergeWith(prior[r], data[r], nums) else data[r]
  }

  /** True when some prior runner has activities, so that a merge looks the
      scanned months up. */
  predicate HasPriorActivities(prior: Runners) {
    exists r :: r in prior && prior[r] != []
  }

  /** The runners `export_to_json` formats, or the `KeyError` the merge
      raises for an unknown scanned month. */
  function Consolidate(scraped: Runners, prior: Option<Runners>, scanned: seq<string>, incremental: bool)
    : (r: Result<Runners, MergeError>)
    ensures !MergesPrior(prior, scanned, incremental) ==> r == Ok(scraped)
    ensures r.Ok? && MergesPrior(prior, scanned, incremental) ==>
      r.value.Keys == scraped.Keys + prior.value.Keys
    ensures r.Err? ==> ScannedMonthNumbers(scanned).Err? && r.error == ScannedMonthNumbers(scanned).error
  {
    if !MergesPrior(prior, scanned, incremental) then Ok(scraped)
    else
      MergeStage(WithPriorRunners(scraped, prior.value), prior.value, scanned)
  }

  /** The outcome of the second loop over `data`: the merge as written, or
      the `KeyError` the first prior runner with activities raises. */
  function MergeStage(data: Runners, prior: Runners, scanned: seq<string>): (r: Result<Runners, MergeError>)
    ensures r.Err? <==> ScannedMonthNumbers(scanned).Err? && HasPriorActivities(prior)
    ensures r.Err? ==> r.error == ScannedMonthNumbers(scanned).error
    ensures r.Ok? ==> r.value.Keys == data.Keys
  {
    match ScannedMonthNumbers(scanned)
    case Ok(nums) => Ok(MergeAsWritten(data, prior, nums))
    case Err(e) => if HasPriorActivities(prior) then Err(e) else Ok(data)
  }

  // ---------------------------------------------------------------------
  // The document
  // ---------------------------------------------------------------------

  /** The number of activities over all runners. */
  ghost function SumLengths(m: Runners): nat
    decreases |m.Keys|
  {
    if m == map[] then 0
    else
      var k :| k in m;
      |m[k]| + SumLengths(m - {k})
  }

  /** The sum can be taken with any runner first. */
  lemma {:induction false} SumLengthsRemove(m: Runners, k: string)
    requires k in m
    ensures SumLengths(m) == |m[k]| + SumLengths(m - {k})
    decreases |m.Keys|
  {
    var k' :| k' in m && SumLengths(m) == |m[k']| + SumLengths(m - {k'});
    if k' != k {
      assert (m - {k'}) - {k} == (m - {k}) - {k'};
      assert |(m - {k}).Keys| < |m.Keys| by {
        assert (m - {k}).Keys < m.Keys;
      }
      SumLengthsRemove(m - {k'}, k);
      SumLengthsRemove(m - {k}, k');
    }
  }

  /** `formatted_data["runners"]`: each runner's entry under their name. */
  function Entries(data: Runners): (entries: map<string, RunnerEntry>)
    ensures entries.Keys == data.Keys
  {
    map r | r in data :: FormatRunner(r, data[r])
  }

  /** The document: one entry per runner and the two totals. */
  ghost function FormatDocument(data: Runners): (doc: Document)
    ensures doc.runners.Keys == data.Keys
    ensures doc.metadata.totalRunners == |data|
  {
    Document(Entries(data), Metadata(|data|, SumLengths(data)))
  }

  /** What `export_to_json` writes, or the error it raises. */
  ghost function Export(scraped: Runners, prior: Option<Runners>, scanned: seq<string>, incremental: bool)
    : Result<Document, MergeError>
  {
    match Consolidate(scraped, prior, scanned, incremental)
    case Err(e) => Err(e)
    case Ok(data) => Ok(FormatDocument(data))
  }

  /** `runners` restricted to the names in `keys`. */
  function Restrict(m: Runners, keys: set<string>): (r: Runners)
    ensures r.Keys == m.Keys * keys
  {
    map k | k in m && k in keys :: m[k]
  }

  /** `export_to_json` minus the file write. */
  method ExportToJson(scraped: Runners, prior: Option<Runners>, scanned: seq<string>, incremental: bool)
    returns (r: Result<Document, MergeError>)
    ensures r == Export(scraped, prior, scanned, incremental)
  {
    var data := scraped;
    if incremental && |scanned| > 0 && prior.Some? {
      data := PreservePriorRunners(scraped, prior.value);
      var merged := MergePriorRunners(data, prior.value, scanned);
      if merged.Err? {
        return Err(merged.error);
      }
      data := merged.value;
    }
    assert Consolidate(scraped, prior, scanned, incremental) == Ok(data);
    var total := TotalActivities(data);
    var runners := FormatRunners(data);
    return Ok(Document(runners, Metadata(|data|, total)));
  }

  /** The first loop of the incremental update. */
  method PreservePriorRunners(scraped: Runners, prior: Runners) returns (data: Runners)
    ensures data == WithPriorRunners(scraped, prior)
  {
    data := scraped;
    var rest := prior.Keys;
    PreserveStart(scraped, prior);
    while rest != {}
      invariant rest <= prior.Keys
      invariant data == WithPriorRunners(scraped, Restrict(prior, prior.Keys - rest))
      decreases |rest|
    {
      var runner :| runner in rest;
      PreserveStep(scraped, prior, rest, runner);
      if runner !in data {
        data := data[runner := prior[runner]];
      }
      rest := rest - {runner};
    }
    assert Restrict(prior, prior.Keys - rest) == prior;
  }

  lemma PreserveStart(scraped: Runners, prior: Runners)
    ensures scraped == WithPriorRunners(scraped, Restrict(prior, prior.Keys - prior.Keys))
  {
    assert Restrict(prior, prior.Keys - prior.Keys) == map[];
  }

  /** One step of the first loop adds one prior runner unless the scrape
      already has them. */
  lemma PreserveStep(scraped: Runners, prior: Runners, rest: set<string>, runner: string)
    requires rest <= prior.Keys && runner in rest
    ensures var data := WithPriorRunners(scraped, Restrict(prior, prior.Keys - rest));
      WithPriorRunners(scraped, Restrict(prior, prior.Keys - (rest - {runner}))) ==
        if runner in data then data else data[runner := prior[runner]]
  {
    var data := WithPriorRunners(scraped, Restrict(prior, prior.Keys - rest));
    var next := WithPriorRunners(scraped, Restrict(prior, prior.Keys - (rest - {runner})));
    var expected := if runner in data then data else data[runner := prior[runner]];
    assert next.Keys == expected.Keys;
    forall r | r in next
      ensures next[r] == expected[r]
    {
    }
  }

  /** The second loop of the incremental update: every runner of `data`
      that the prior dataset also has is merged, through the merge method. */
  method MergePriorRunners(data: Runners, prior: Runners, scanned: seq<string>)
    returns (r: Result<Runners, MergeError>)
    requires |scanned| > 0 && prior.Keys <= data.Keys
    ensures r == MergeStage(data, prior, scanned)
  {
    var current := data;
    var done: set<string> := {};
    VisitedNone(data, prior, scanned);
    while done != data.Keys
      invariant done <= data.Keys
      invariant Visited(data, prior, scanned, done, current)
      decreases |data.Keys - done|
    {
      var runner :| runner in data.Keys - done;
      var step := MergeRunner(data, prior, scanned, done, current, runner);
      if step.Err? {
        return step;
      }
      current := step.value;
      done := done + {runner};
    }
    MergedAll(data, prior, scanned, current);
    return Ok(current);
  }

  /** What the second loop leaves when it runs to the end. */
  ghost function MergeTarget(data: Runners, prior: Runners, scanned: seq<string>): (target: Runners)
    ensures target.Keys == data.Keys
  {
    match ScannedMonthNumbers(scanned)
    case Ok(nums) => MergeAsWritten(data, prior, nums)
    case Err(_) => data
  }

  /** `data` with the runners of `done` taken from `target`. */
  function Overlay(data: Runners, target: Runners, done: set<string>): (current: Runners)
    requires target.Keys == data.Keys
    ensures current.Keys == data.Keys
  {
    map k | k in data :: if k in done then target[k] else data[k]
  }

  /** No runner of `done` has prior activities. */
  predicate NoPriorActivitiesIn(prior: Runners, done: set<string>) {
    forall k :: k in prior && k in done ==> prior[k] == []
  }

  /** The second loop's invariant: the runners of `done` are merged, the
      others untouched, and when the months are unknown no visited runner
      had prior activities (any of them would have raised). */
  ghost predicate Visited(data: Runners, prior: Runners, scanned: seq<string>, done: set<string>, current: Runners) {
    && current == Overlay(data, MergeTarget(data, prior, scanned), done)
    && (ScannedMonthNumbers(scanned).Err? ==> NoPriorActivitiesIn(prior, done))
  }

  lemma VisitedNone(data: Runners, prior: Runners, scanned: seq<string>)
    ensures Visited(data, prior, scanned, {}, data)
  {
    assert Overlay(data, MergeTarget(data, prior, scanned), {}) == data;
  }

  /** One pass of the second loop: the runner's prior list, if any, is
      merged with their current list; a merge that raises ends the export
      with the error the whole stage reports. */
  method MergeRunner(data: Runners, prior: Runners, scanned: seq<string>, done: set<string>,
                     current: Runners, runner: string)
    returns (next: Result<Runners, MergeError>)
    requires runner in data && runner !in done
    requires Visited(data, prior, scanned, done, current)
    ensures next.Err? ==> next == MergeStage(data, prior, scanned)
    ensures next.Ok? ==> Visited(data, prior, scanned, done + {runner}, next.value)
  {
    ghost var target := MergeTarget(data, prior, scanned);
    OverlayStep(data, target, done, runner);
    assert current[runner] == data[runner];
    if runner !in prior {
      assert target[runner] == data[runner];
      return Ok(current);
    }
    var merged := MergeActivitiesByMonth(prior[runner], current[runner], scanned);
    if merged.Err? {
      MergeFailure(data, prior, scanned, runner);
      return Err(merged.error);
    }
    assert merged.value == target[runner] by {
      if ScannedMonthNumbers(scanned).Ok? {
        MergeWithAgrees(prior[runner], data[runner], scanned);
      }
    }
    return Ok(current[runner := merged.value]);
  }

  /** Taking one more runner from the target updates that runner only. */
  lemma OverlayStep(data: Runners, target: Runners, done: set<string>, runner: string)
    requires target.Keys == data.Keys && runner in data
    ensures Overlay(data, target, done + {runner}) == Overlay(data, target, done)[runner := target[runner]]
  {
  }

  /** Once every runner is visited, the loop has computed the merge as
      written, or left the runners unchanged when the months are unknown
      and no prior runner has activities. */
  lemma MergedAll(data: Runners, prior: Runners, scanned: seq<string>, current: Runners)
    requires prior.Keys <= data.Keys
    requires Visited(data, prior, scanned, data.Keys, current)
    ensures Ok(current) == MergeStage(data, prior, scanned)
  {
    var target := MergeTarget(data, prior, scanned);
    assert Overlay(data, target, data.Keys) == target;
    if ScannedMonthNumbers(scanned).Err? {
      assert !HasPriorActivities(prior);
    }
  }

  /** A failed merge of one runner is the export's failure. */
  lemma MergeFailure(data: Runners, prior: Runners, scanned: seq<string>, runner: string)
    requires ScannedMonthNumbers(scanned).Err? && runner in prior && prior[runner] != []
    ensures MergeStage(data, prior, scanned) == Err(ScannedMonthNumbers(scanned).error)
  {
  }

  /** `sum(len(activities) for activities in activities_data.values())`. */
  method TotalActivities(data: Runners) returns (total: nat)
    ensures total == SumLengths(data)
  {
    total := 0;
    var rest := data.Keys;
    assert Restrict(data, rest) == data;
    while rest != {}
      invariant rest <= data.Keys
      invariant total + SumLengths(Restrict(data, rest)) == SumLengths(data)
      decreases |rest|
    {
      var runner :| runner in rest;
      var part := Restrict(data, rest);
      SumLengthsRemove(part, runner);
      assert part - {runner} == Restrict(data, rest - {runner});
      total := total + |data[runner]|;
      rest := rest - {runner};
    }
    assert Restrict(data, {}) == map[];
  }

  /** The loop filling `formatted_data["runners"]`. */
  method FormatRunners(data: Runners) returns (runners: map<string, RunnerEntry>)
    ensures runners == Entries(data)
  {
    runners := map[];
    var rest := data.Keys;
    while rest != {}
      invariant rest <= data.Keys
      invariant runners == FormattedExcept(data, rest)
      decreases |rest|
    {
      var runner :| runner in rest;
      FormatStep(data, rest, runner);
      runners := runners[runner := FormatRunner(runner, data[runner])];
      rest := rest - {runner};
    }
  }

  /** The entries of the runners not in `rest`. */
  function FormattedExcept(data: Runners, rest: set<string>): map<string, RunnerEntry> {
    map r | r in data && r !in rest :: FormatRunner(r, data[r])
  }

  /** Formatting one more runner. */
  lemma FormatStep(data: Runners, rest: set<string>, runner: string)
    requires runner in rest && rest <= data.Keys
    ensures FormattedExcept(data, rest)[runner := FormatRunner(runner, data[runner])] ==
      FormattedExcept(data, rest - {runner})
  {
  }

  // ---------------------------------------------------------------------
  // What the consolidation does, runner by runner
  // ---------------------------------------------------------------------

  /** Outside an incremental run with scanned months and a prior dataset,
      the scraped runners are exported as they are. */
  lemma ConsolidateFullExport(scraped: Runners, prior: Option<Runners>, scanned: seq<string>, incremental: bool)
    requires !incremental || scanned == [] || prior.None?
    ensures Consolidate(scraped, prior, scanned, incremental) == Ok(scraped)
  {
  }

  /** In an incremental run: every runner of either side is exported; a
      runner in both ends with the month-replacing merge of their prior and
      scraped lists; a runner only in the scrape keeps the scraped list; and
      a runner only in the prior dataset ends with their prior list merged
      with itself. */
  lemma ConsolidateIncremental(scraped: Runners, prior: Option<Runners>, scanned: seq<string>, incremental: bool)
    requires MergesPrior(prior, scanned, incremental) && ScannedMonthNumbers(scanned).Ok?
    ensures Consolidate(scraped, prior, scanned, incremental).Ok?
    ensures var data, p := Consolidate(scraped, prior, scanned, incremental).value, prior.value;
      && data.Keys == scraped.Keys + p.Keys
      && (forall r :: r in scraped && r in p ==> Ok(data[r]) == MergeByMonth(p[r], scraped[r], scanned))
      && (forall r :: r in scraped && r !in p ==> data[r] == scraped[r])
      && (forall r :: r in p && r !in scraped ==> Ok(data[r]) == MergeByMonth(p[r], p[r], scanned))
  {
  }

  /** An unknown scanned month fails the export exactly when some prior
      runner has activities to merge. */
  lemma ConsolidateFails(scraped: Runners, prior: Option<Runners>, scanned: seq<string>, incremental: bool)
    requires MergesPrior(prior, scanned, incremental)
    ensures Consolidate(scraped, prior, scanned, incremental).Err? <==>
      ScannedMonthNumbers(scanned).Err? && HasPriorActivities(prior.value)
  {
  }

  /** The sum of the list lengths depends only on the lengths. */
  lemma {:induction false} SumLengthsSameLengths(m1: Runners, m2: Runners)
    requires m1.Keys == m2.Keys
    requires forall k :: k in m1 ==> |m1[k]| == |m2[k]|
    ensures SumLengths(m1) == SumLengths(m2)
    decreases |m1.Keys|
  {
    if m1 != map[] {
      var k :| k in m1 && SumLengths(m1) == |m1[k]| + SumLengths(m1 - {k});
      SumLengthsRemove(m2, k);
      assert (m1 - {k}).Keys < m1.Keys;
      SumLengthsSameLengths(m1 - {k}, m2 - {k});
    }
  }

  /** The activity lists of a written document. */
  ghost function ActivitiesOf(doc: Document): Runners {
    map r | r in doc.runners :: doc.runners[r].activities
  }

  /** A written document is consistent with itself: `totalRunners` counts
      its runners, `totalActivities` counts the activities it lists, and
      every runner's entry carries the runner's name and is exactly what
      formatting its own activity list gives (sorted by date, statistics of
      that list). */
  lemma DocumentConsistent(data: Runners)
    ensures var doc := FormatDocument(data);
      && doc.metadata.totalRunners == |doc.runners|
      && doc.metadata.totalActivities == SumLengths(ActivitiesOf(doc))
      && forall r :: r in doc.runners ==>
           && doc.runners[r].name == r
           && doc.runners[r].stats.totalActivities == |doc.runners[r].activities|
           && FormatRunner(r, doc.runners[r].activities) == doc.runners[r]
  {
    var doc := FormatDocument(data);
    assert |doc.runners| == |data| by {
      assert doc.runners.Keys == data.Keys;
    }
    SumLengthsSameLengths(data, ActivitiesOf(doc));
    forall r | r in doc.runners
      ensures FormatRunner(r, doc.runners[r].activities) == doc.runners[r]
    {
      FormatRunnerConsistent(r, data[r]);
    }
  }

  // ---------------------------------------------------------------------
  // Prior-only runners are merged with themselves
  // ---------------------------------------------------------------------

  /** As written, a runner who is only in the prior dataset ends with every
      prior activity of an unscanned month twice: the kept copy and the
      copy the first loop put in as if it were freshly scraped. */
  lemma PriorOnlyRunnerDuplicated(scraped: Runners, prior: Option<Runners>, scanned: seq<string>,
                                  incremental: bool, runner: string)
    requires MergesPrior(prior, scanned, incremental) && ScannedMonthNumbers(scanned).Ok?
    requires runner in prior.value && runner !in scraped && prior.value[runner] != []
    ensures var data := Consolidate(scraped, prior, scanned, incremental).value;
      var p, nums := prior.value[runner], ScannedMonthNumbers(scanned).value;
      && data[runner] == Kept(p, nums) + p
      && forall a :: Keeps(a, nums) ==>
           multiset(data[runner])[a] == 2 * multiset(p)[a]
  {
    var p, nums := prior.value[runner], ScannedMonthNumbers(scanned).value;
    ConsolidateIncremental(scraped, prior, scanned, incremental);
    forall a | Keeps(a, nums)
      ensures multiset(Kept(p, nums) + p)[a] == 2 * multiset(p)[a]
    {
      KeptCount(p, nums, a);
    }
  }

  /** An activity dated 2 November, for the examples below. */
  const NovemberRun: Activity := Activity("11/02/24", Some(3.1), "Running", "25:00", "8:04")

  lemma NovemberRunMonth()
    ensures GetActivityMonth(NovemberRun) == Some(11)
  {
    assert NovemberRun.date == "11" + ['/'] + "02/24";
    MonthOfFirstPiece("11", "02/24", NovemberRun);
    Calendar.TablesAgree("Nov");
    assert Calendar.MonthDigits["Nov"] == "11";
  }

  lemma DecemberNumbers()
    ensures ScannedMonthNumbers(["Dec"]) == Ok({12})
  {
    var dec := ["Dec"];
    assert Calendar.MonthAbbreviation(12) == "Dec";
    assert dec[0] == "Dec" && dec[1..] == [];
    assert ScannedMonthNumbers(dec[1..]) == Ok({});
    var nums := ScannedMonthNumbers(dec);
    assert nums.Ok?;
    assert nums.value == {Calendar.MonthNumbers["Dec"]} + {};
    assert nums.value == {12};
  }

  /** A runner who is the only one in the prior dataset, with an empty
      scrape, ends with their list merged with itself. */
  lemma LonePriorRunner(runner: string, s: seq<Activity>, scanned: seq<string>)
    requires |scanned| > 0 && ScannedMonthNumbers(scanned).Ok?
    ensures Consolidate(map[], Some(map[runner := s]), scanned, true) ==
      Ok(map[runner := MergeWith(s, s, ScannedMonthNumbers(scanned).value)])
  {
    var nums := ScannedMonthNumbers(scanned).value;
    var prior := map[runner := s];
    assert WithPriorRunners(map[], prior) == prior;
    assert MergeAsWritten(prior, prior, nums) == map[runner := MergeWith(s, s, nums)];
  }

  /** A list whose activities are all of unscanned months, merged with
      itself, comes out twice. */
  lemma SelfMergeDoubles(s: seq<Activity>, nums: set<int>)
    requires s != [] && forall i :: 0 <= i < |s| ==> Keeps(s[i], nums)
    ensures MergeWith(s, s, nums) == s + s
  {
    KeptAll(s, nums);
  }

  /** The November activity survives a December scan. */
  lemma NovemberKeptInDecember()
    ensures Keeps(NovemberRun, {12})
  {
    NovemberRunMonth();
  }

  /** One activity of an unscanned month, merged with itself once and then
      again, doubles each time. */
  lemma RepeatedSelfMerge(a: Activity, nums: set<int>)
    requires Keeps(a, nums)
    ensures MergeWith([a], [a], nums) == [a, a]
    ensures MergeWith([a, a], [a, a], nums) == [a, a, a, a]
  {
    SelfMergeDoubles([a], nums);
    SelfMergeDoubles([a, a], nums);
    assert [a] + [a] == [a, a];
    assert [a, a] + [a, a] == [a, a, a, a];
  }

  /** The input that shows it: a runner with one November activity in the
      prior dataset and none in a December scrape is written with that
      activity twice. */
  lemma DuplicationExample()
    ensures Consolidate(map[], Some(map["Pat" := [NovemberRun]]), ["Dec"], true) ==
      Ok(map["Pat" := [NovemberRun, NovemberRun]])
  {
    NovemberKeptInDecember();
    DecemberNumbers();
    RepeatedSelfMerge(NovemberRun, {12});
    LonePriorRunner("Pat", [NovemberRun], ["Dec"]);
  }

  /** And the next run doubles the list again. */
  lemma DuplicationGrows()
    ensures Consolidate(map[], Some(map["Pat" := [NovemberRun, NovemberRun]]), ["Dec"], true) ==
      Ok(map["Pat" := [NovemberRun, NovemberRun, NovemberRun, NovemberRun]])
  {
    NovemberKeptInDecember();
    DecemberNumbers();
    RepeatedSelfMerge(NovemberRun, {12});
    LonePriorRunner("Pat", [NovemberRun, NovemberRun], ["Dec"]);
  }

  /** The written document shows the duplicate: two activities for a
      runner who did one. */
  lemma DuplicationInDocument()
    ensures var doc := Export(map[], Some(map["Pat" := [NovemberRun]]), ["Dec"], true);
      && doc.Ok?
      && "Pat" in doc.value.runners
      && doc.value.runners["Pat"].activities == [NovemberRun, NovemberRun]
      && doc.value.runners["Pat"].stats.totalActivities == 2
  {
    DuplicationExample();
    var two := [NovemberRun, NovemberRun];
    assert SortByDate(two) == two by {
      StrLessIrreflexive(NovemberRun.date);
      assert SortedByDate(two);
      SortByDateOfSorted(two);
    }
  }

  // ---------------------------------------------------------------------
  // The consolidation as intended
  // ---------------------------------------------------------------------

  /** The second loop as intended: only runners present in the scrape are
      merged; prior-only runners keep what the first loop preserved. */
  function MergeIntended(data: Runners, scraped: Runners, prior: Runners, nums: set<int>): (merged: Runners)
    ensures merged.Keys == data.Keys
  {
    map r | r in data :: if r in prior && r in scraped then MergeWith(prior[r], data[r], nums) else data[r]
  }

  /** True when some runner of both sides has prior activities. */
  predicate HasSharedPriorActivities(scraped: Runners, prior: Runners) {
    exists r :: r in prior && r in scraped && prior[r] != []
  }

  /** The consolidation the comments describe: runners absent from the
      scrape are preserved unchanged. */
  function ConsolidateIntended(scraped: Runners, prior: Option<Runners>, scanned: seq<string>, incremental: bool)
    : Result<Runners, MergeError>
  {
    if !MergesPrior(prior, scanned, incremental) then Ok(scraped)
    else
      var data := WithPriorRunners(scraped, prior.value);
      match ScannedMonthNumbers(scanned)
      case Ok(nums) => Ok(MergeIntended(data, scraped, prior.value, nums))
      case Err(e) => if HasSharedPriorActivities(scraped, prior.value) then Err(e) else Ok(data)
  }

  /** The document as intended. */
  ghost function ExportIntended(scraped: Runners, prior: Option<Runners>, scanned: seq<string>, incremental: bool)
    : Result<Document, MergeError>
  {
    match ConsolidateIntended(scraped, prior, scanned, incremental)
    case Err(e) => Err(e)
    case Ok(data) => Ok(FormatDocument(data))
  }

  /** As intended, a prior-only runner is preserved exactly, and the other
      runners are treated as the code treats them. */
  lemma IntendedPreservesPriorOnly(scraped: Runners, prior: Option<Runners>, scanned: seq<string>, incremental: bool)
    requires MergesPrior(prior, scanned, incremental) && ScannedMonthNumbers(scanned).Ok?
    ensures ConsolidateIntended(scraped, prior, scanned, incremental).Ok?
    ensures var data, p := ConsolidateIntended(scraped, prior, scanned, incremental).value, prior.value;
      && data.Keys == scraped.Keys + p.Keys
      && (forall r :: r in p && r !in scraped ==> data[r] == p[r])
      && (forall r :: r in scraped ==>
            data[r] == Consolidate(scraped, prior, scanned, incremental).value[r])
  {
    ConsolidateIncremental(scraped, prior, scanned, incremental);
  }

  /** As intended, the update is idempotent: when every scraped activity
      belongs to a scanned month, consolidating the same scrape into the
      consolidated runners again changes nothing. */
  lemma IntendedIdempotent(scraped: Runners, prior: Runners, scanned: seq<string>)
    requires |scanned| > 0 && ScannedMonthNumbers(scanned).Ok?
    requires forall r, i :: r in scraped && 0 <= i < |scraped[r]| ==>
      !Keeps(scraped[r][i], ScannedMonthNumbers(scanned).value)
    ensures ConsolidateIntended(scraped, Some(prior), scanned, true).Ok?
    ensures var once := ConsolidateIntended(scraped, Some(prior), scanned, true).value;
      ConsolidateIntended(scraped, Some(once), scanned, true) == Ok(once)
  {
    var nums := ScannedMonthNumbers(scanned).value;
    var once := MergeIntended(WithPriorRunners(scraped, prior), scraped, prior, nums);
    assert ConsolidateIntended(scraped, Some(prior), scanned, true) == Ok(once);
    MergeIntendedAgain(scraped, prior, nums);
  }

  /** As intended, the update is idempotent on the written file: when every
      scraped activity belongs to a scanned month, a second run that reads
      the document the first run wrote, sorted lists and all, writes that
      same document again. */
  lemma IntendedDocumentIdempotent(scraped: Runners, prior: Runners, scanned: seq<string>)
    requires |scanned| > 0 && ScannedMonthNumbers(scanned).Ok?
    requires forall r, i :: r in scraped && 0 <= i < |scraped[r]| ==>
      !Keeps(scraped[r][i], ScannedMonthNumbers(scanned).value)
    ensures ExportIntended(scraped, Some(prior), scanned, true).Ok?
    ensures var doc := ExportIntended(scraped, Some(prior), scanned, true).value;
      ExportIntended(scraped, Some(ActivitiesOf(doc)), scanned, true) == Ok(doc)
  {
    var nums := ScannedMonthNumbers(scanned).value;
    var once := MergeIntended(WithPriorRunners(scraped, prior), scraped, prior, nums);
    IntendedMerges(scraped, prior, scanned);
    var reread := ActivitiesOf(FormatDocument(once));
    var twice := MergeIntended(WithPriorRunners(scraped, reread), scraped, reread, nums);
    IntendedMerges(scraped, reread, scanned);
    assert twice.Keys == once.Keys;
    forall r | r in once
      ensures FormatRunner(r, twice[r]) == FormatRunner(r, once[r])
    {
      RunnerReread(scraped, prior, nums, r);
    }
    SameDocument(twice, once);
  }

  /** With known scanned months, the intended update merges. */
  lemma IntendedMerges(scraped: Runners, prior: Runners, scanned: seq<string>)
    requires |scanned| > 0 && ScannedMonthNumbers(scanned).Ok?
    ensures ConsolidateIntended(scraped, Some(prior), scanned, true) ==
      Ok(MergeIntended(WithPriorRunners(scraped, prior), scraped, prior, ScannedMonthNumbers(scanned).value))
  {
  }

  /** Runner lists that format to the same entries give the same document. */
  lemma SameDocument(a: Runners, b: Runners)
    requires a.Keys == b.Keys
    requires forall r :: r in a ==> FormatRunner(r, a[r]) == FormatRunner(r, b[r])
    ensures FormatDocument(a) == FormatDocument(b)
  {
    SameEntries(a, b);
    SameEntriesSameSum(a, b);
    assert |a| == |a.Keys| == |b.Keys| == |b|;
  }

  /** Runner lists that format to the same entries give the same `runners`. */
  lemma SameEntries(a: Runners, b: Runners)
    requires a.Keys == b.Keys
    requires forall r :: r in a ==> FormatRunner(r, a[r]) == FormatRunner(r, b[r])
    ensures Entries(a) == Entries(b)
  {
  }

  /** Runner lists that format to the same entries hold as many activities. */
  lemma SameEntriesSameSum(a: Runners, b: Runners)
    requires a.Keys == b.Keys
    requires forall r :: r in a ==> FormatRunner(r, a[r]) == FormatRunner(r, b[r])
    ensures SumLengths(a) == SumLengths(b)
  {
    forall r | r in a
      ensures |a[r]| == |b[r]|
    {
      assert FormatRunner(r, a[r]).stats.totalActivities == FormatRunner(r, b[r]).stats.totalActivities;
    }
    SumLengthsSameLengths(a, b);
  }

  /** The intended update's list for one runner, given any prior runners `q`. */
  lemma IntendedAt(scraped: Runners, q: Runners, nums: set<int>, r: string)
    requires r in scraped.Keys + q.Keys
    ensures var m := MergeIntended(WithPriorRunners(scraped, q), scraped, q, nums);
      && r in m
      && m[r] == if r in scraped then MergeWith(if r in q then q[r] else [], scraped[r], nums) else q[r]
  {
  }

  /** The activity lists read back from a written document are the sorted lists. */
  lemma ReadBack(m: Runners, r: string)
    requires r in m
    ensures r in ActivitiesOf(FormatDocument(m))
    ensures ActivitiesOf(FormatDocument(m))[r] == SortByDate(m[r])
  {
  }

  /** One runner of the intended update: what the second run computes from
      the written (sorted) list formats to the entry the first run wrote. */
  lemma RunnerReread(scraped: Runners, prior: Runners, nums: set<int>, r: string)
    requires forall r, i :: r in scraped && 0 <= i < |scraped[r]| ==> !Keeps(scraped[r][i], nums)
    requires r in scraped.Keys + prior.Keys
    ensures var once := MergeIntended(WithPriorRunners(scraped, prior), scraped, prior, nums);
      var reread := ActivitiesOf(FormatDocument(once));
      var twice := MergeIntended(WithPriorRunners(scraped, reread), scraped, reread, nums);
      r in once && r in twice && FormatRunner(r, twice[r]) == FormatRunner(r, once[r])
  {
    var once := MergeIntended(WithPriorRunners(scraped, prior), scraped, prior, nums);
    IntendedAt(scraped, prior, nums, r);
    var reread := ActivitiesOf(FormatDocument(once));
    ReadBack(once, r);
    var twice := MergeIntended(WithPriorRunners(scraped, reread), scraped, reread, nums);
    IntendedAt(scraped, reread, nums, r);
    if r in scraped {
      var s := scraped[r];
      assert forall i :: 0 <= i < |s| ==> !Keeps(s[i], nums);
      IntendedRunnerReread(s, if r in prior then prior[r] else [], nums);
    } else {
      SortByDateSorted(once[r]);
      SortByDateOfSorted(SortByDate(once[r]));
    }
    FormatRunnerOfSameSort(r, twice[r], once[r]);
  }

  /** A scraped runner's merged list, written sorted and merged again with
      the same scrape, sorts to the same list. */
  lemma IntendedRunnerReread(s: seq<Activity>, p: seq<Activity>, nums: set<int>)
    requires forall i :: 0 <= i < |s| ==> !Keeps(s[i], nums)
    ensures var once := MergeWith(p, s, nums);
      SortByDate(MergeWith(SortByDate(once), s, nums)) == SortByDate(once)
  {
    var once := MergeWith(p, s, nums);
    var written := SortByDate(once);
    var twice := MergeWith(written, s, nums);
    if written == [] {
      assert once == [];
    } else if p == [] {
      forall x | x in written
        ensures x in s
      {
        assert multiset(written)[x] > 0;
      }
      NoneKeptIn(written, s, nums);
      assert twice == s;
    } else {
      forall d
        ensures WithDate(twice, d) == WithDate(once, d)
      {
        RereadDated(p, s, nums, d);
      }
      SortByDateUnique(twice, once);
    }
  }

  /** The activities of one date after the second merge are those after
      the first. */
  lemma RereadDated(p: seq<Activity>, s: seq<Activity>, nums: set<int>, d: string)
    requires forall i :: 0 <= i < |s| ==> !Keeps(s[i], nums)
    ensures var once := Kept(p, nums) + s;
      WithDate(Kept(SortByDate(once), nums) + s, d) == WithDate(once, d)
  {
    var k := Kept(p, nums);
    var once := k + s;
    var written := SortByDate(once);
    var mine, theirs := WithDate(k, d), WithDate(s, d);
    assert WithDate(written, d) == mine + theirs by {
      SortByDateStable(once, d);
      WithDateAppend(k, s, d);
    }
    assert Kept(mine, nums) == mine by {
      KeptWithDate(k, nums, d);
      KeptIdempotent(p, nums);
    }
    assert Kept(theirs, nums) == [] by {
      forall x | x in theirs
        ensures x in s
      {
        WithDateMembers(s, d, x);
      }
      NoneKeptIn(theirs, s, nums);
    }
    calc {
      WithDate(Kept(written, nums) + s, d);
    == { WithDateAppend(Kept(written, nums), s, d); }
      WithDate(Kept(written, nums), d) + theirs;
    == { KeptWithDate(written, nums, d); }
      Kept(mine + theirs, nums) + theirs;
    == { KeptAppend(mine, theirs, nums); }
      mine + [] + theirs;
    == { assert mine + [] == mine; }
      mine + theirs;
    == { WithDateAppend(k, s, d); }
      WithDate(once, d);
    }
  }

  /** A list drawn from activities none of which is kept keeps nothing. */
  lemma NoneKeptIn(t: seq<Activity>, s: seq<Activity>, nums: set<int>)
    requires forall i :: 0 <= i < |s| ==> !Keeps(s[i], nums)
    requires forall x :: x in t ==> x in s
    ensures Kept(t, nums) == []
  {
    forall i | 0 <= i < |t|
      ensures !Keeps(t[i], nums)
    {
      assert t[i] in s;
    }
    KeptNone(t, nums);
  }

  /** Filtering by month and filtering by date commute. */
  lemma {:induction false} KeptWithDate(s: seq<Activity>, nums: set<int>, d: string)
    ensures Kept(WithDate(s, d), nums) == WithDate(Kept(s, nums), d)
  {
    if s != [] {
      var init, last := s[..|s| - 1], s[|s| - 1];
      KeptWithDate(init, nums, d);
      var dated := if last.date == d then [last] else [];
      var kept := if Keeps(last, nums) then [last] else [];
      KeptAppend(WithDate(init, d), dated, nums);
      WithDateAppend(Kept(init, nums), kept, d);
      KeptWithDateOne(last, nums, d);
    }
  }

  /** `KeptWithDate` for the one-element step. */
  lemma KeptWithDateOne(x: Activity, nums: set<int>, d: string)
    ensures Kept(if x.date == d then [x] else [], nums) ==
      WithDate(if Keeps(x, nums) then [x] else [], d)
  {
    assert [x][..0] == [];
  }

  /** The second loop as intended, run again over its own output with the
      same scrape, changes nothing. */
  lemma MergeIntendedAgain(scraped: Runners, prior: Runners, nums: set<int>)
    requires forall r, i :: r in scraped && 0 <= i < |scraped[r]| ==> !Keeps(scraped[r][i], nums)
    ensures var once := MergeIntended(WithPriorRunners(scraped, prior), scraped, prior, nums);
      MergeIntended(WithPriorRunners(scraped, once), scraped, once, nums) == once
  {
    var once := MergeIntended(WithPriorRunners(scraped, prior), scraped, prior, nums);
    var twice := MergeIntended(WithPriorRunners(scraped, once), scraped, once, nums);
    forall r | r in once
      ensures twice[r] == once[r]
    {
      if r in scraped {
        IntendedRunnerIdempotent(scraped[r], if r in prior then prior[r] else [], nums);
      }
    }
  }

  /** One scraped runner: their consolidated list, merged again with the
      same scrape, is unchanged (an absent prior list acts as empty). */
  lemma IntendedRunnerIdempotent(s: seq<Activity>, p: seq<Activity>, nums: set<int>)
    requires forall i :: 0 <= i < |s| ==> !Keeps(s[i], nums)
    ensures MergeWith(MergeWith(p, s, nums), s, nums) == MergeWith(p, s, nums)
  {
    MergeWithIdempotent(p, s, nums);
  }

  /** As written, the same update is not idempotent: the example's runner
      grows from one activity to two to four. */
  lemma AsWrittenNotIdempotent()
    ensures var once := Consolidate(map[], Some(map["Pat" := [NovemberRun]]), ["Dec"], true).value;
      Consolidate(map[], Some(once), ["Dec"], true) != Ok(once)
  {
    DuplicationExample();
    DuplicationGrows();
    var two, four := [NovemberRun, NovemberRun], [NovemberRun, NovemberRun, NovemberRun, NovemberRun];
    assert map["Pat" := four]["Pat"] != map["Pat" := two]["Pat"] by {
      assert |four| != |two|;
    }
  }
}
