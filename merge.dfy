/** `merge_activities_by_month`: replace whole months of a runner's prior
    activities by the freshly scraped ones, keeping the months that were not
    scanned. */
module MonthMerge {
  import opened Common
  import opened Calendar
  import opened Normalize

  /** The `KeyError` raised when a scanned month is not an abbreviation the
      month table knows. */
  datatype MergeError = UnknownMonth(abbrev: string)

  /** `{month_abbr_to_num[month] for month in scanned_months}`, or the
      first abbreviation the table does not know. */
  function ScannedMonthNumbers(scanned: seq<string>): Result<set<int>, MergeError>
  {
    if scanned == [] then Ok({})
    else if scanned[0] !in MonthNumbers then Err(UnknownMonth(scanned[0]))
    else
      match ScannedMonthNumbers(scanned[1..])
      case Err(e) => Err(e)
      case Ok(rest) => Ok({MonthNumbers[scanned[0]]} + rest)
  }

  /** The translation succeeds exactly when every scanned name is in the
      table, and then holds exactly their numbers; a failure names an
      abbreviation the table does not know. */
  lemma {:induction false} ScannedMonthNumbersMeaning(scanned: seq<string>)
    ensures var nums := ScannedMonthNumbers(scanned);
      && (nums.Ok? <==> forall i :: 0 <= i < |scanned| ==> scanned[i] in MonthNumbers)
      && (nums.Ok? ==> forall m :: m in nums.value <==>
            exists i :: 0 <= i < |scanned| && scanned[i] in MonthNumbers && MonthNumbers[scanned[i]] == m)
      && (nums.Err? ==> nums.error.abbrev !in MonthNumbers)
  {
    if scanned != [] {
      var tail := scanned[1..];
      ScannedMonthNumbersMeaning(tail);
      var nums := ScannedMonthNumbers(scanned);
      if nums.Ok? {
        forall m
          ensures m in nums.value <==>
            exists i :: 0 <= i < |scanned| && scanned[i] in MonthNumbers && MonthNumbers[scanned[i]] == m
        {
          if m in nums.value && m != MonthNumbers[scanned[0]] {
            var j :| 0 <= j < |tail| && tail[j] in MonthNumbers && MonthNumbers[tail[j]] == m;
            assert scanned[j + 1] == tail[j];
          }
        }
      }
      if scanned[0] in MonthNumbers && ScannedMonthNumbers(tail).Err? {
        var i :| 0 <= i < |tail| && tail[i] !in MonthNumbers;
        assert scanned[i + 1] == tail[i];
      }
      forall i | 0 <= i < |tail| ensures tail[i] == scanned[i + 1] { }
    }
  }

  /** True when a prior activity survives: its month can be read and was
      not scanned. */
  predicate Keeps(a: Activity, nums: set<int>) {
    GetActivityMonth(a).Some? && GetActivityMonth(a).value !in nums
  }

  /** The prior activities that survive, in their original order. */
  function Kept(existing: seq<Activity>, nums: set<int>): (kept: seq<Activity>)
    ensures |kept| <= |existing|
  {
    if existing == [] then []
    else
      var last := existing[|existing| - 1];
      Kept(existing[..|existing| - 1], nums) + (if Keeps(last, nums) then [last] else [])
  }

  /** The prior activities that are dropped, in their original order. */
  function Removed(existing: seq<Activity>, nums: set<int>): seq<Activity> {
    if existing == [] then []
    else
      var last := existing[|existing| - 1];
      Removed(existing[..|existing| - 1], nums) + (if Keeps(last, nums) then [] else [last])
  }

  /** The merge once the scanned months are known as numbers. */
  function MergeWith(existing: seq<Activity>, scraped: seq<Activity>, nums: set<int>): (merged: seq<Activity>)
    ensures |scraped| <= |merged| <= |existing| + |scraped|
  {
    if existing == [] then scraped else Kept(existing, nums) + scraped
  }

  /** What `merge_activities_by_month` returns or raises: an empty prior
      list returns the scraped one before any month is looked up. */
  function MergeByMonth(existing: seq<Activity>, scraped: seq<Activity>, scanned: seq<string>)
    : (r: Result<seq<Activity>, MergeError>)
    ensures r.Err? <==> existing != [] && ScannedMonthNumbers(scanned).Err?
    ensures r.Ok? ==> |scraped| <= |r.value| <= |existing| + |scraped|
    ensures r.Ok? ==> r.value[|r.value| - |scraped|..] == scraped
  {
    if existing == [] then Ok(scraped)
    else
      match ScannedMonthNumbers(scanned)
      case Err(e) => Err(e)
      case Ok(nums) => Ok(MergeWith(existing, scraped, nums))
  }

  /** `merge_activities_by_month`: the scanned months as numbers, the
      partition loop, then the kept activities followed by the scraped ones. */
  method MergeActivitiesByMonth(existing: seq<Activity>, scraped: seq<Activity>, scanned: seq<string>)
    returns (r: Result<seq<Activity>, MergeError>)
    ensures r == MergeByMonth(existing, scraped, scanned)
  {
    if existing == [] {
      return Ok(scraped);
    }
    var numbers := ScannedMonthNumbers(scanned);
    if numbers.Err? {
      return Err(numbers.error);
    }
    var kept, removed := PartitionByMonth(existing, numbers.value);
    return Ok(kept + scraped);
  }

  /** The loop of `merge_activities_by_month` that sorts each prior
      activity into the kept list or the removed list. */
  method PartitionByMonth(existing: seq<Activity>, nums: set<int>)
    returns (kept: seq<Activity>, removed: seq<Activity>)
    ensures kept == Kept(existing, nums) && removed == Removed(existing, nums)
  {
    kept, removed := [], [];
    var i := 0;
    while i < |existing|
      invariant 0 <= i <= |existing|
      invariant kept == Kept(existing[..i], nums)
      invariant removed == Removed(existing[..i], nums)
    {
      PartitionStep(existing, i, nums);
      kept, removed := Route(existing[i], nums, kept, removed);
      i := i + 1;
    }
    WholePrefix(existing);
  }

  /** The loop body: an activity of a month that was not scanned is kept,
      any other is removed. */
  method Route(activity: Activity, nums: set<int>, kept: seq<Activity>, removed: seq<Activity>)
    returns (kept': seq<Activity>, removed': seq<Activity>)
    ensures kept' == kept + (if Keeps(activity, nums) then [activity] else [])
    ensures removed' == removed + (if Keeps(activity, nums) then [] else [activity])
  {
    var month := GetActivityMonth(activity);
    if month.Some? && month.value !in nums {
      kept', removed' := kept + [activity], removed;
    } else {
      kept', removed' := kept, removed + [activity];
    }
  }

  /** One more prior activity goes to exactly one side of the partition. */
  lemma PartitionStep(existing: seq<Activity>, i: nat, nums: set<int>)
    requires i < |existing|
    ensures Kept(existing[..i + 1], nums) ==
      Kept(existing[..i], nums) + (if Keeps(existing[i], nums) then [existing[i]] else [])
    ensures Removed(existing[..i + 1], nums) ==
      Removed(existing[..i], nums) + (if Keeps(existing[i], nums) then [] else [existing[i]])
  {
    PrefixSnoc(existing, i);
  }

  // ---------------------------------------------------------------------
  // Properties
  // ---------------------------------------------------------------------

  /** A prior activity is kept exactly when it is one of the prior
      activities, its month can be read, and that month was not scanned. */
  lemma {:induction false} KeptMembers(existing: seq<Activity>, nums: set<int>, a: Activity)
    ensures a in Kept(existing, nums) <==> a in existing && Keeps(a, nums)
  {
    if existing != [] {
      var init := existing[..|existing| - 1];
      KeptMembers(init, nums, a);
      assert existing == init + [existing[|existing| - 1]];
    }
  }

  /** A kept activity is kept as often as it occurs. */
  lemma {:induction false} KeptCount(s: seq<Activity>, nums: set<int>, a: Activity)
    requires Keeps(a, nums)
    ensures multiset(Kept(s, nums))[a] == multiset(s)[a]
  {
    if s != [] {
      var init, last := s[..|s| - 1], s[|s| - 1];
      KeptCount(init, nums, a);
      CountSnoc(Kept(init, nums), init, last, a, Keeps(last, nums));
      LastSplit(s);
    }
  }

  /** Counting `a` after one more element on both sides, when `a` itself
      would be kept. */
  lemma CountSnoc(kept: seq<Activity>, init: seq<Activity>, last: Activity, a: Activity, keepLast: bool)
    requires multiset(kept)[a] == multiset(init)[a]
    requires last == a ==> keepLast
    ensures multiset(kept + (if keepLast then [last] else []))[a] == multiset(init + [last])[a]
  {
  }

  /** Filtering distributes over concatenation, so the kept activities keep
      their original order. */
  lemma {:induction false} KeptAppend(a: seq<Activity>, b: seq<Activity>, nums: set<int>)
    ensures Kept(a + b, nums) == Kept(a, nums) + Kept(b, nums)
    decreases |b|
  {
    if b == [] {
      assert a + b == a;
    } else {
      var init, last := b[..|b| - 1], b[|b| - 1];
      var tail := if Keeps(last, nums) then [last] else [];
      KeptAppend(a, init, nums);
      AppendInit(a, b);
      assert Kept(a + b, nums) == Kept(a + init, nums) + tail;
      assert Kept(b, nums) == Kept(init, nums) + tail;
    }
  }

  /** Every prior activity is either kept or removed: the two lists
      partition it, with multiplicities. */
  lemma {:induction false} KeptRemovedPartition(existing: seq<Activity>, nums: set<int>)
    ensures multiset(Kept(existing, nums)) + multiset(Removed(existing, nums)) == multiset(existing)
  {
    if existing != [] {
      var init := existing[..|existing| - 1];
      KeptRemovedPartition(init, nums);
      LastSplit(existing);
    }
  }

  /** Activities that are all dropped contribute nothing. */
  lemma {:induction false} KeptNone(s: seq<Activity>, nums: set<int>)
    requires forall i :: 0 <= i < |s| ==> !Keeps(s[i], nums)
    ensures Kept(s, nums) == []
  {
    if s != [] {
      KeptNone(s[..|s| - 1], nums);
    }
  }

  /** Activities that are all kept are kept unchanged. */
  lemma {:induction false} KeptAll(s: seq<Activity>, nums: set<int>)
    requires forall i :: 0 <= i < |s| ==> Keeps(s[i], nums)
    ensures Kept(s, nums) == s
  {
    if s != [] {
      KeptAll(s[..|s| - 1], nums);
      LastSplit(s);
    }
  }

  /** Filtering twice is filtering once. */
  lemma KeptIdempotent(s: seq<Activity>, nums: set<int>)
    ensures Kept(Kept(s, nums), nums) == Kept(s, nums)
  {
    var k := Kept(s, nums);
    forall i | 0 <= i < |k|
      ensures Keeps(k[i], nums)
    {
      KeptMembers(s, nums, k[i]);
    }
    KeptAll(k, nums);
  }

  /** The merged list is the surviving prior activities in their original
      order followed by the scraped ones: nothing from a scanned month and
      nothing with an unreadable date survives from the prior list, every
      prior activity of an unscanned month does, and an empty prior list
      yields the scraped list unchanged. */
  lemma MergeContents(existing: seq<Activity>, scraped: seq<Activity>, scanned: seq<string>)
    requires MergeByMonth(existing, scraped, scanned).Ok?
    ensures var merged := MergeByMonth(existing, scraped, scanned).value;
      && |merged| >= |scraped|
      && merged[|merged| - |scraped|..] == scraped
      && (existing == [] ==> merged == scraped)
      && (existing != [] ==>
            var nums := ScannedMonthNumbers(scanned).value;
            forall a :: a in merged[..|merged| - |scraped|] <==> a in existing && Keeps(a, nums))
  {
    var merged := MergeByMonth(existing, scraped, scanned).value;
    if existing != [] {
      var nums := ScannedMonthNumbers(scanned).value;
      var kept := Kept(existing, nums);
      assert merged[..|merged| - |scraped|] == kept;
      forall a
        ensures a in kept <==> a in existing && Keeps(a, nums)
      {
        KeptMembers(existing, nums, a);
      }
    }
  }

  /** The merge fails only when the prior list is not empty and a scanned
      month is not in the table. */
  lemma MergeFails(existing: seq<Activity>, scraped: seq<Activity>, scanned: seq<string>)
    ensures MergeByMonth(existing, scraped, scanned).Err? <==>
      existing != [] && exists i :: 0 <= i < |scanned| && scanned[i] !in MonthNumbers
  {
    ScannedMonthNumbersMeaning(scanned);
  }

  /** Replacing months is idempotent: when every scraped activity belongs to a
      scanned month (or has no readable month), merging the same scraped
      activities into the merged list again changes nothing. */
  lemma MergeIdempotent(existing: seq<Activity>, scraped: seq<Activity>, scanned: seq<string>)
    requires ScannedMonthNumbers(scanned).Ok?
    requires forall i :: 0 <= i < |scraped| ==> !Keeps(scraped[i], ScannedMonthNumbers(scanned).value)
    ensures MergeByMonth(existing, scraped, scanned).Ok?
    ensures var once := MergeByMonth(existing, scraped, scanned).value;
      MergeByMonth(once, scraped, scanned) == Ok(once)
  {
    var nums := ScannedMonthNumbers(scanned).value;
    MergeWithIdempotent(existing, scraped, nums);
    assert MergeByMonth(existing, scraped, scanned) == Ok(MergeWith(existing, scraped, nums));
  }

  lemma MergeWithIdempotent(existing: seq<Activity>, scraped: seq<Activity>, nums: set<int>)
    requires forall i :: 0 <= i < |scraped| ==> !Keeps(scraped[i], nums)
    ensures var once := MergeWith(existing, scraped, nums);
      MergeWith(once, scraped, nums) == once
  {
    KeptNone(scraped, nums);
    if existing == [] {
      assert MergeWith(existing, scraped, nums) == scraped;
      if scraped != [] {
        assert MergeWith(scraped, scraped, nums) == Kept(scraped, nums) + scraped;
      }
    } else {
      var kept := Kept(existing, nums);
      var once := kept + scraped;
      assert MergeWith(existing, scraped, nums) == once;
      assert Kept(once, nums) == kept by {
        KeptAppend(kept, scraped, nums);
        KeptIdempotent(existing, nums);
      }
      if once != [] {
        assert MergeWith(once, scraped, nums) == Kept(once, nums) + scraped;
      }
    }
  }

  /** The merge with known month numbers agrees with `MergeByMonth`. */
  lemma MergeWithAgrees(existing: seq<Activity>, scraped: seq<Activity>, scanned: seq<string>)
    requires ScannedMonthNumbers(scanned).Ok?
    ensures MergeByMonth(existing, scraped, scanned) ==
      Ok(MergeWith(existing, scraped, ScannedMonthNumbers(scanned).value))
  {
  }
}
