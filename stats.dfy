/** The per-runner entry `export_to_json` writes: the statistics
    (`totalActivities`, `totalDistance`, `activityTypes`) and the activities
    sorted by their date string. */
module Stats {
  import opened Common
  import opened Normalize

  // ---------------------------------------------------------------------
  // Python's `<` on strings: code point by code point
  // ---------------------------------------------------------------------

  /** `a < b` for Python strings. */
  predicate StrLess(a: string, b: string) {
    if b == [] then false
    else if a == [] then true
    else if a[0] != b[0] then a[0] < b[0]
    else StrLess(a[1..], b[1..])
  }

  lemma {:induction false} StrLessIrreflexive(a: string)
    ensures !StrLess(a, a)
  {
    if a != [] {
      StrLessIrreflexive(a[1..]);
    }
  }

  lemma {:induction false} StrLessTransitive(a: string, b: string, c: string)
    requires StrLess(a, b) && StrLess(b, c)
    ensures StrLess(a, c)
  {
    if a != [] && a[0] == b[0] && b[0] == c[0] {
      StrLessTransitive(a[1..], b[1..], c[1..]);
    }
  }

  /** Any two different strings are ordered one way or the other. */
  lemma {:induction false} StrLessTotal(a: string, b: string)
    ensures a == b || StrLess(a, b) || StrLess(b, a)
  {
    if a != [] && b != [] && a[0] == b[0] {
      StrLessTotal(a[1..], b[1..]);
      if a[1..] == b[1..] {
        assert a == [a[0]] + a[1..] && b == [b[0]] + b[1..];
      }
    }
  }

  lemma {:induction false} StrLessAsymmetric(a: string, b: string)
    requires StrLess(a, b)
    ensures !StrLess(b, a)
  {
    if a != [] && a[0] == b[0] {
      StrLessAsymmetric(a[1..], b[1..]);
    }
  }

  // ---------------------------------------------------------------------
  // `sorted(activities, key=lambda x: x["date"])`
  // ---------------------------------------------------------------------

  /** No activity has a later date than one after it. */
  predicate SortedByDate(s: seq<Activity>) {
    forall i, j :: 0 <= i < j < |s| ==> !StrLess(s[j].date, s[i].date)
  }

  /** Places `a` after every activity whose date is not later than its own. */
  function InsertByDate(s: seq<Activity>, a: Activity): (r: seq<Activity>)
    ensures multiset(r) == multiset(s) + multiset{a}
    ensures |r| == |s| + 1
  {
    if s == [] || !StrLess(a.date, s[|s| - 1].date) then s + [a]
    else
      var init := s[..|s| - 1];
      assert s == init + [s[|s| - 1]];
      InsertByDate(init, a) + [s[|s| - 1]]
  }

  /** The stable sort Python's `sorted` performs, as an insertion sort. */
  function SortByDate(s: seq<Activity>): (r: seq<Activity>)
    ensures multiset(r) == multiset(s)
    ensures |r| == |s|
  {
    if s == [] then []
    else
      assert s == s[..|s| - 1] + [s[|s| - 1]];
      InsertByDate(SortByDate(s[..|s| - 1]), s[|s| - 1])
  }

  /** The activities of `s` dated `d`, in their order in `s`. */
  function WithDate(s: seq<Activity>, d: string): seq<Activity> {
    if s == [] then []
    else
      var last := s[|s| - 1];
      WithDate(s[..|s| - 1], d) + (if last.date == d then [last] else [])
  }

  /** No element of `s` is dated later than `x`. */
  predicate NotLaterThan(s: seq<Activity>, x: Activity) {
    forall i :: 0 <= i < |s| ==> !StrLess(x.date, s[i].date)
  }

  /** Appending an element no earlier than the rest keeps the order. */
  lemma AppendSorted(s: seq<Activity>, x: Activity)
    requires SortedByDate(s) && NotLaterThan(s, x)
    ensures SortedByDate(s + [x])
  {
    var r := s + [x];
    forall i, j | 0 <= i < j < |r|
      ensures !StrLess(r[j].date, r[i].date)
    {
      if j < |s| {
        assert r[i] == s[i] && r[j] == s[j];
      } else {
        assert r[i] == s[i] && r[j] == x;
      }
    }
  }

  /** An element no earlier than the last of a sorted list is no earlier
      than any of them. */
  lemma LastBoundsAll(s: seq<Activity>, x: Activity)
    requires SortedByDate(s) && s != [] && !StrLess(x.date, s[|s| - 1].date)
    ensures NotLaterThan(s, x)
  {
    forall i | 0 <= i < |s|
      ensures !StrLess(x.date, s[i].date)
    {
      if i < |s| - 1 && StrLess(x.date, s[i].date) {
        StrLessTotal(s[i].date, s[|s| - 1].date);
        if StrLess(s[i].date, s[|s| - 1].date) {
          StrLessTransitive(x.date, s[i].date, s[|s| - 1].date);
        }
      }
    }
  }

  /** Inserting an element dated before `x` keeps every element no later than `x`. */
  lemma InsertNotLater(s: seq<Activity>, a: Activity, x: Activity)
    requires NotLaterThan(s, x) && StrLess(a.date, x.date)
    ensures NotLaterThan(InsertByDate(s, a), x)
  {
    var r := InsertByDate(s, a);
    forall i | 0 <= i < |r|
      ensures !StrLess(x.date, r[i].date)
    {
      assert r[i] in multiset(r);
      if r[i] == a {
        StrLessAsymmetric(a.date, x.date);
      } else {
        assert r[i] in multiset(s);
        var k :| 0 <= k < |s| && s[k] == r[i];
      }
    }
  }

  lemma {:induction false} InsertSorted(s: seq<Activity>, a: Activity)
    requires SortedByDate(s)
    ensures SortedByDate(InsertByDate(s, a))
  {
    if s == [] {
      AppendSorted(s, a);
    } else if StrLess(a.date, s[|s| - 1].date) {
      var init, last := s[..|s| - 1], s[|s| - 1];
      assert SortedByDate(init) && NotLaterThan(init, last);
      InsertSorted(init, a);
      InsertNotLater(init, a, last);
      AppendSorted(InsertByDate(init, a), last);
    } else {
      LastBoundsAll(s, a);
      AppendSorted(s, a);
    }
  }

  /** Python's `sorted` result is ordered by date. */
  lemma {:induction false} SortByDateSorted(s: seq<Activity>)
    ensures SortedByDate(SortByDate(s))
  {
    if s != [] {
      SortByDateSorted(s[..|s| - 1]);
      InsertSorted(SortByDate(s[..|s| - 1]), s[|s| - 1]);
    }
  }

  /** Filtering by date one element at a time. */
  lemma WithDateSnoc(s: seq<Activity>, x: Activity, d: string)
    ensures WithDate(s + [x], d) == WithDate(s, d) + (if x.date == d then [x] else [])
  {
    assert (s + [x])[..|s|] == s;
  }

  /** Inserting keeps the activities of each date in their order and adds
      `a` after those that share its date. */
  lemma {:induction false} InsertStable(s: seq<Activity>, a: Activity, d: string)
    ensures WithDate(InsertByDate(s, a), d) == WithDate(s, d) + (if a.date == d then [a] else [])
  {
    if s != [] && StrLess(a.date, s[|s| - 1].date) {
      var init, last := s[..|s| - 1], s[|s| - 1];
      InsertStable(init, a, d);
      assert s == init + [last];
      InsertBeforeLast(init, last, a, d);
    } else {
      WithDateSnoc(s, a, d);
    }
  }

  /** An element dated before the last one is inserted before it. */
  lemma InsertBefore(init: seq<Activity>, last: Activity, a: Activity)
    requires StrLess(a.date, last.date)
    ensures InsertByDate(init + [last], a) == InsertByDate(init, a) + [last]
  {
    SnocParts(init, last);
  }

  /** The step of `InsertStable` where `a` goes before the last element. */
  lemma InsertBeforeLast(init: seq<Activity>, last: Activity, a: Activity, d: string)
    requires StrLess(a.date, last.date)
    requires WithDate(InsertByDate(init, a), d) == WithDate(init, d) + (if a.date == d then [a] else [])
    ensures WithDate(InsertByDate(init + [last], a), d) ==
      WithDate(init + [last], d) + (if a.date == d then [a] else [])
  {
    InsertBefore(init, last, a);
    WithDateSnoc(InsertByDate(init, a), last, d);
    WithDateSnoc(init, last, d);
    var w := WithDate(init, d);
    var mine := if a.date == d then [a] else [];
    var theirs := if last.date == d then [last] else [];
    if a.date == d {
      StrLessIrreflexive(a.date);
      assert theirs == [];
      assert w + mine + theirs == w + theirs + mine;
    } else {
      assert mine == [];
      assert w + mine + theirs == w + theirs + mine;
    }
  }

  /** The sort is stable: activities with the same date keep their
      original relative order. */
  lemma {:induction false} SortByDateStable(s: seq<Activity>, d: string)
    ensures WithDate(SortByDate(s), d) == WithDate(s, d)
  {
    if s != [] {
      var init, last := s[..|s| - 1], s[|s| - 1];
      SortByDateStable(init, d);
      InsertStable(SortByDate(init), last, d);
    }
  }

  /** Dropping the last element of a sorted list leaves it sorted, and the
      last element is no earlier than the one before it. */
  lemma SortedInit(s: seq<Activity>)
    requires SortedByDate(s) && s != []
    ensures SortedByDate(s[..|s| - 1])
    ensures |s| == 1 || !StrLess(s[|s| - 1].date, s[|s| - 2].date)
  {
    var init := s[..|s| - 1];
    assert forall i :: 0 <= i < |init| ==> init[i] == s[i];
  }

  /** An element no earlier than the last one is inserted at the end. */
  lemma InsertAtEnd(init: seq<Activity>, last: Activity)
    requires init == [] || !StrLess(last.date, init[|init| - 1].date)
    ensures InsertByDate(init, last) == init + [last]
  {
  }

  /** Sorting an already sorted list changes nothing. */
  lemma {:induction false} SortByDateOfSorted(s: seq<Activity>)
    requires SortedByDate(s)
    ensures SortByDate(s) == s
  {
    if s != [] {
      var init, last := s[..|s| - 1], s[|s| - 1];
      SortedInit(s);
      SortByDateOfSorted(init);
      InsertAtEnd(init, last);
      assert s == init + [last];
    }
  }

  /** The activities of `s` dated `d` are those of its elements with that date. */
  lemma {:induction false} WithDateMembers(s: seq<Activity>, d: string, x: Activity)
    ensures x in WithDate(s, d) <==> x in s && x.date == d
  {
    if s != [] {
      WithDateMembers(s[..|s| - 1], d, x);
      LastSplit(s);
    }
  }

  /** Filtering by date distributes over concatenation. */
  lemma {:induction false} WithDateAppend(a: seq<Activity>, b: seq<Activity>, d: string)
    ensures WithDate(a + b, d) == WithDate(a, d) + WithDate(b, d)
    decreases |b|
  {
    if b == [] {
      assert a + b == a;
    } else {
      var init, last := b[..|b| - 1], b[|b| - 1];
      WithDateAppend(a, init, d);
      AppendInit(a, b);
    }
  }

  /** In a list sorted by date, the last element is no earlier than any other. */
  lemma LastIsLatest(s: seq<Activity>, x: Activity)
    requires SortedByDate(s) && x in s
    ensures !StrLess(s[|s| - 1].date, x.date)
  {
    var j :| 0 <= j < |s| && s[j] == x;
    if j < |s| - 1 {
      assert !StrLess(s[|s| - 1].date, s[j].date);
    } else {
      StrLessIrreflexive(x.date);
    }
  }

  /** Two non-empty lists, sorted by date and with the same activities of
      each date in the same order, end with the same activity. */
  lemma SameLastActivity(y: seq<Activity>, z: seq<Activity>)
    requires SortedByDate(y) && SortedByDate(z) && y != [] && z != []
    requires forall d :: WithDate(y, d) == WithDate(z, d)
    ensures y[|y| - 1] == z[|z| - 1]
  {
    var a, b := y[|y| - 1], z[|z| - 1];
    WithDateMembers(z, a.date, a);
    assert a in WithDate(y, a.date);
    LastIsLatest(z, a);
    WithDateMembers(y, b.date, b);
    assert b in WithDate(z, b.date);
    LastIsLatest(y, b);
    StrLessTotal(a.date, b.date);
    SnocParts(WithDate(y[..|y| - 1], a.date), a);
    SnocParts(WithDate(z[..|z| - 1], b.date), b);
  }

  /** Two lists ending with the same activity that agree on the activities
      dated `d` still agree on them without that last activity. */
  lemma SameInitDated(yi: seq<Activity>, zi: seq<Activity>, a: Activity, d: string)
    requires WithDate(yi + [a], d) == WithDate(zi + [a], d)
    ensures WithDate(yi, d) == WithDate(zi, d)
  {
    var p, q := WithDate(yi, d), WithDate(zi, d);
    WithDateSnoc(yi, a, d);
    WithDateSnoc(zi, a, d);
    if a.date == d {
      SnocCancel(p, q, a);
    } else {
      assert p + [] == p && q + [] == q;
    }
  }

  /** A non-empty list has an activity dated like its last one. */
  lemma LastDated(s: seq<Activity>)
    requires s != []
    ensures WithDate(s, s[|s| - 1].date) != []
  {
  }

  /** Two lists sorted by date, with the same activities of each date in the
      same order, are equal. */
  lemma {:induction false} SortedUnique(y: seq<Activity>, z: seq<Activity>)
    requires SortedByDate(y) && SortedByDate(z)
    requires forall d :: WithDate(y, d) == WithDate(z, d)
    ensures y == z
    decreases |y|
  {
    if y == [] && z != [] {
      LastDated(z);
      assert false;
    } else if y != [] && z == [] {
      LastDated(y);
      assert false;
    } else if y != [] {
      var yi, zi := y[..|y| - 1], z[..|z| - 1];
      SameLastActivity(y, z);
      LastSplit(y);
      LastSplit(z);
      forall d
        ensures WithDate(yi, d) == WithDate(zi, d)
      {
        SameInitDated(yi, zi, y[|y| - 1], d);
      }
      SortedInit(y);
      SortedInit(z);
      SortedUnique(yi, zi);
      LastSplit(y);
      LastSplit(z);
    }
  }

  /** The stable sort depends only on the activities of each date in their
      order: two lists that agree on those sort to the same list. */
  lemma SortByDateUnique(s: seq<Activity>, t: seq<Activity>)
    requires forall d :: WithDate(s, d) == WithDate(t, d)
    ensures SortByDate(s) == SortByDate(t)
  {
    SortByDateSorted(s);
    SortByDateSorted(t);
    forall d
      ensures WithDate(SortByDate(s), d) == WithDate(SortByDate(t), d)
    {
      SortByDateStable(s, d);
      SortByDateStable(t, d);
    }
    SortedUnique(SortByDate(s), SortByDate(t));
  }

  // ---------------------------------------------------------------------
  // `sorted(set(act["type"] for act in activities))`
  // ---------------------------------------------------------------------

  /** Each string comes strictly before the next. */
  predicate StrictlySorted(s: seq<string>) {
    forall i, j :: 0 <= i < j < |s| ==> StrLess(s[i], s[j])
  }

  /** Adds `t` to a strictly sorted list unless it is already there. */
  function InsertType(s: seq<string>, t: string): (r: seq<string>)
    requires StrictlySorted(s)
    ensures StrictlySorted(r)
    ensures forall x :: x in r <==> x in s || x == t
  {
    if s == [] then [t]
    else
      var init, last := s[..|s| - 1], s[|s| - 1];
      if t == last then s
      else if StrLess(last, t) then
        assert forall i :: 0 <= i < |s| - 1 ==> StrLess(s[i], last);
        TransitiveAll(s, t);
        s + [t]
      else
        StrLessTotal(t, last);
        assert s == init + [last];
        var r := InsertType(init, t) + [last];
        assert forall i :: 0 <= i < |r| - 1 ==> r[i] in init || r[i] == t;
        r
  }

  lemma TransitiveAll(s: seq<string>, t: string)
    requires StrictlySorted(s) && s != [] && StrLess(s[|s| - 1], t)
    ensures forall i :: 0 <= i < |s| ==> StrLess(s[i], t)
  {
    forall i | 0 <= i < |s| - 1
      ensures StrLess(s[i], t)
    {
      StrLessTransitive(s[i], s[|s| - 1], t);
    }
  }

  /** The activity types, each once, in ascending order. */
  function SortedTypes(acts: seq<Activity>): (types: seq<string>)
    ensures StrictlySorted(types)
    ensures forall t :: t in types <==> exists i :: 0 <= i < |acts| && acts[i].activityType == t
  {
    if acts == [] then []
    else
      var init := acts[..|acts| - 1];
      var r := InsertType(SortedTypes(init), acts[|acts| - 1].activityType);
      assert forall i :: 0 <= i < |init| ==> init[i] == acts[i];
      r
  }

  /** Two strictly sorted lists with the same elements end with the same one. */
  lemma SameLast(a: seq<string>, b: seq<string>)
    requires StrictlySorted(a) && StrictlySorted(b) && a != [] && b != []
    requires forall x :: x in a <==> x in b
    ensures a[|a| - 1] == b[|b| - 1]
  {
    var la, lb := a[|a| - 1], b[|b| - 1];
    assert la in b && lb in a;
    var k :| 0 <= k < |b| && b[k] == la;
    var k2 :| 0 <= k2 < |a| && a[k2] == lb;
    if k < |b| - 1 && k2 < |a| - 1 {
      StrLessAsymmetric(la, lb);
    }
  }

  /** ... and, that last element removed, still have the same elements. */
  lemma SameInit(ia: seq<string>, ib: seq<string>, last: string)
    requires StrictlySorted(ia + [last]) && StrictlySorted(ib + [last])
    requires forall x :: x in ia + [last] <==> x in ib + [last]
    ensures StrictlySorted(ia) && StrictlySorted(ib)
    ensures forall x :: x in ia <==> x in ib
  {
    var a, b := ia + [last], ib + [last];
    assert StrictlySorted(ia) by {
      assert forall i :: 0 <= i < |ia| ==> ia[i] == a[i];
    }
    assert StrictlySorted(ib) by {
      assert forall i :: 0 <= i < |ib| ==> ib[i] == b[i];
    }
    forall x
      ensures x in ia <==> x in ib
    {
      if x in ia {
        var k :| 0 <= k < |ia| && ia[k] == x;
        assert StrLess(a[k], a[|a| - 1]);
        StrLessIrreflexive(x);
        assert x in b && x != last;
      }
      if x in ib {
        var k :| 0 <= k < |ib| && ib[k] == x;
        assert StrLess(b[k], b[|b| - 1]);
        StrLessIrreflexive(x);
        assert x in a && x != last;
      }
    }
  }

  /** Two strictly sorted lists with the same elements are the same list. */
  lemma {:induction false} StrictlySortedUnique(a: seq<string>, b: seq<string>)
    requires StrictlySorted(a) && StrictlySorted(b)
    requires forall x :: x in a <==> x in b
    ensures a == b
    decreases |a| + |b|
  {
    if a != [] {
      assert a[0] in b;
    }
    if b != [] {
      assert b[0] in a;
    }
    if a != [] && b != [] {
      SameLast(a, b);
      var ia, ib, last := a[..|a| - 1], b[..|b| - 1], a[|a| - 1];
      assert a == ia + [last] && b == ib + [last];
      SameInit(ia, ib, last);
      StrictlySortedUnique(ia, ib);
    }
  }

  /** The type list depends only on which activities there are, not on
      their order or repetitions. */
  lemma SortedTypesOfPermutation(a: seq<Activity>, b: seq<Activity>)
    requires multiset(a) == multiset(b)
    ensures SortedTypes(a) == SortedTypes(b)
  {
    var ta, tb := SortedTypes(a), SortedTypes(b);
    forall t
      ensures t in ta <==> t in tb
    {
      if t in ta {
        var i :| 0 <= i < |a| && a[i].activityType == t;
        assert a[i] in multiset(b);
        var j :| 0 <= j < |b| && b[j] == a[i];
      }
      if t in tb {
        var j :| 0 <= j < |b| && b[j].activityType == t;
        assert b[j] in multiset(a);
        var i :| 0 <= i < |a| && a[i] == b[j];
      }
    }
    StrictlySortedUnique(ta, tb);
  }

  // ---------------------------------------------------------------------
  // `sum(act["distance"] for act in activities if act["distance"])`
  // ---------------------------------------------------------------------

  /** An activity's contribution: its distance, or nothing when it has none. */
  function DistanceOf(a: Activity): real {
    if a.distance.Some? then a.distance.value else 0.0
  }

  /** The distance total: activities without a distance add nothing, and
      non-negative distances give a non-negative total. */
  function TotalDistance(acts: seq<Activity>): (total: real)
    ensures (forall i :: 0 <= i < |acts| ==> acts[i].distance.None?) ==> total == 0.0
    ensures (forall i :: 0 <= i < |acts| ==> DistanceOf(acts[i]) >= 0.0) ==> total >= 0.0
  {
    if acts == [] then 0.0
    else TotalDistance(acts[..|acts| - 1]) + DistanceOf(acts[|acts| - 1])
  }

  lemma {:induction false} TotalDistanceAppend(a: seq<Activity>, b: seq<Activity>)
    ensures TotalDistance(a + b) == TotalDistance(a) + TotalDistance(b)
    decreases |b|
  {
    if b == [] {
      assert a + b == a;
    } else {
      var init := b[..|b| - 1];
      TotalDistanceAppend(a, init);
      assert (a + b)[..|a + b| - 1] == a + init;
    }
  }

  /** Removing the element at `j` removes one occurrence of it. */
  lemma MultisetRemoveAt(b: seq<Activity>, j: nat)
    requires j < |b|
    ensures multiset(b[..j] + b[j + 1..]) == multiset(b) - multiset{b[j]}
  {
    SplitAround(b, j);
  }

  /** Removing an element removes its distance from the total. */
  lemma TotalDistanceRemove(p: seq<Activity>, x: Activity, q: seq<Activity>)
    ensures TotalDistance(p + [x] + q) == TotalDistance(p + q) + DistanceOf(x)
  {
    TotalDistanceAppend(p + [x], q);
    TotalDistanceAppend(p, [x]);
    TotalDistanceAppend(p, q);
    TotalDistanceSingle(x);
  }

  /** Removing the element at `j` removes its distance from the total. */
  lemma TotalDistanceRemoveAt(b: seq<Activity>, j: nat)
    requires j < |b|
    ensures TotalDistance(b) == TotalDistance(b[..j] + b[j + 1..]) + DistanceOf(b[j])
  {
    SplitAround(b, j);
    TotalDistanceRemove(b[..j], b[j], b[j + 1..]);
  }

  lemma TotalDistanceSingle(x: Activity)
    ensures TotalDistance([x]) == DistanceOf(x)
  {
    assert [x][..0] == [];
  }

  /** The total does not depend on the order of the activities. */
  lemma {:induction false} TotalDistanceOfPermutation(a: seq<Activity>, b: seq<Activity>)
    requires multiset(a) == multiset(b)
    ensures TotalDistance(a) == TotalDistance(b)
    decreases |a|
  {
    if a != [] {
      var init, last := a[..|a| - 1], a[|a| - 1];
      MultisetOfLast(a);
      assert last in multiset(b);
      var j :| 0 <= j < |b| && b[j] == last;
      MultisetRemoveAt(b, j);
      TotalDistanceOfPermutation(init, b[..j] + b[j + 1..]);
      TotalDistanceRemoveAt(b, j);
    } else {
      assert |b| == |multiset(b)| == 0;
    }
  }

  // ---------------------------------------------------------------------
  // One runner's entry
  // ---------------------------------------------------------------------

  /** `stats`: `totalDistance` is the unrounded sum (`round(total, 2)` is
      not modelled). */
  datatype RunnerStats = RunnerStats(totalActivities: nat, totalDistance: real, activityTypes: seq<string>)

  datatype RunnerEntry = RunnerEntry(name: string, stats: RunnerStats, activities: seq<Activity>)

  /** The entry `export_to_json` writes for a runner and their merged list. */
  function FormatRunner(name: string, acts: seq<Activity>): (entry: RunnerEntry)
    ensures entry.name == name
    ensures entry.stats.totalActivities == |acts| == |entry.activities|
    ensures multiset(entry.activities) == multiset(acts)
  {
    RunnerEntry(name, RunnerStats(|acts|, TotalDistance(acts), SortedTypes(acts)), SortByDate(acts))
  }

  /** The written entry is self-consistent: its activities are sorted by
      date, stably, and its statistics are those of its own activity list,
      so formatting the written activities again gives the same entry. */
  lemma FormatRunnerConsistent(name: string, acts: seq<Activity>)
    ensures var entry := FormatRunner(name, acts);
      && SortedByDate(entry.activities)
      && (forall d :: WithDate(entry.activities, d) == WithDate(acts, d))
      && entry.stats.totalDistance == TotalDistance(entry.activities)
      && entry.stats.activityTypes == SortedTypes(entry.activities)
      && FormatRunner(name, entry.activities) == entry
  {
    var entry := FormatRunner(name, acts);
    SortByDateSorted(acts);
    forall d
      ensures WithDate(entry.activities, d) == WithDate(acts, d)
    {
      SortByDateStable(acts, d);
    }
    TotalDistanceOfPermutation(acts, entry.activities);
    SortedTypesOfPermutation(acts, entry.activities);
    SortByDateOfSorted(entry.activities);
  }

  /** Two lists that sort to the same list are formatted to the same entry. */
  lemma FormatRunnerOfSameSort(name: string, a: seq<Activity>, b: seq<Activity>)
    requires SortByDate(a) == SortByDate(b)
    ensures FormatRunner(name, a) == FormatRunner(name, b)
  {
    assert multiset(a) == multiset(b);
    assert |a| == |multiset(a)| == |multiset(b)| == |b|;
    TotalDistanceOfPermutation(a, b);
    SortedTypesOfPermutation(a, b);
  }
}
