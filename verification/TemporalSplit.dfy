/** Chronological train / validation / test split that keeps whole dates together. */
module TemporalSplit {

  datatype Row = Row(date: int, id: int)

  datatype Group = Group(date: int, count: nat)

  datatype Split = Invalid | Split(train: seq<Row>, validation: seq<Row>, test: seq<Row>)

  ghost predicate Sorted(s: seq<Row>) {
    forall i, j :: 0 <= i < j < |s| ==> s[i].date <= s[j].date
  }

  // ---- Sorting and filtering ----

  function Insert(s: seq<Row>, r: Row): seq<Row> {
    if s == [] || s[|s| - 1].date <= r.date then s + [r] else Insert(s[..|s| - 1], r) + [s[|s| - 1]]
  }

  function Sort(s: seq<Row>): seq<Row> {
    if s == [] then [] else Insert(Sort(s[..|s| - 1]), s[|s| - 1])
  }

  lemma {:induction false} InsertSorts(s: seq<Row>, r: Row)
    requires Sorted(s)
    ensures Sorted(Insert(s, r)) && |Insert(s, r)| == |s| + 1
    ensures forall x :: x in Insert(s, r) ==> x in s || x == r
  {
    if s != [] && s[|s| - 1].date > r.date {
      var init, last := s[..|s| - 1], s[|s| - 1];
      InsertSorts(init, r);
      forall x | x in Insert(init, r)
        ensures x.date <= last.date
      {
        if x in init {
          var i :| 0 <= i < |init| && init[i] == x;
          assert s[i].date <= last.date;
        }
      }
    }
  }

  lemma {:induction false} InsertPermutes(s: seq<Row>, r: Row)
    ensures multiset(Insert(s, r)) == multiset(s) + multiset{r}
  {
    if s != [] && s[|s| - 1].date > r.date {
      var init, last := s[..|s| - 1], s[|s| - 1];
      InsertPermutes(init, r);
      assert s == init + [last];
    }
  }

  lemma {:induction false} SortSorts(s: seq<Row>)
    ensures Sorted(Sort(s)) && |Sort(s)| == |s|
  {
    hide Sorted;
    hide Insert;
    if s == [] {
      EmptySorted();
    } else {
      SortSorts(s[..|s| - 1]);
      InsertSorts(Sort(s[..|s| - 1]), s[|s| - 1]);
    }
  }

  lemma EmptySorted()
    ensures Sorted([])
  {
  }

  lemma {:induction false} SortPermutes(s: seq<Row>)
    ensures multiset(Sort(s)) == multiset(s)
  {
    hide Insert;
    if s == [] {
    } else {
      var init, last := s[..|s| - 1], s[|s| - 1];
      SortPermutes(init);
      InsertPermutes(Sort(init), last);
      assert s == init + [last];
    }
  }

  datatype Bound = Open | At(date: int)

  /** lo < date <= hi, where Open stands for no bound. */
  predicate Inside(r: Row, lo: Bound, hi: Bound) {
    (lo.At? ==> lo.date < r.date) && (hi.At? ==> r.date <= hi.date)
  }

  function Filter(s: seq<Row>, lo: Bound, hi: Bound): seq<Row> {
    if s == [] then []
    else
      var n := |s| - 1;
      Filter(s[..n], lo, hi) + (if Inside(s[n], lo, hi) then [s[n]] else [])
  }

  lemma {:induction false} FilterMembers(s: seq<Row>, lo: Bound, hi: Bound, r: Row)
    ensures r in Filter(s, lo, hi) <==> r in s && Inside(r, lo, hi)
  {
    if s == [] {
    } else {
      var n := |s| - 1;
      FilterMembers(s[..n], lo, hi, r);
      assert s == s[..n] + [s[n]];
    }
  }

  function RowsThrough(s: seq<Row>, date: int): nat {
    |Filter(s, Open, At(date))|
  }

  lemma {:induction false} FilterNone(s: seq<Row>, lo: Bound, hi: Bound)
    requires forall i :: 0 <= i < |s| ==> !Inside(s[i], lo, hi)
    ensures Filter(s, lo, hi) == []
  {
    if s == [] {
    } else {
      FilterNone(s[..|s| - 1], lo, hi);
    }
  }

  lemma FilterStep(s: seq<Row>, lo: Bound, hi: Bound)
    requires s != []
    ensures var n := |s| - 1;
            Filter(s, lo, hi) == Filter(s[..n], lo, hi) + (if Inside(s[n], lo, hi) then [s[n]] else [])
  {
  }

  lemma Reassociate(a: seq<Row>, b: seq<Row>, c: seq<Row>, x: Row)
    ensures a + b + (c + [x]) == (a + b + c) + [x]
  {
  }

  lemma LastIsLatest(init: seq<Row>, last: Row)
    requires Sorted(init + [last])
    ensures Sorted(init) && forall i :: 0 <= i < |init| ==> init[i].date <= last.date
  {
    var s := init + [last];
    assert forall i :: 0 <= i < |init| ==> s[i] == init[i] && s[i].date <= s[|init|].date;
  }

  /** The rows up to d and those between d and e are the rows up to e. */
  lemma {:induction false} FilterCounts(s: seq<Row>, d: int, e: int)
    requires d <= e
    ensures |Filter(s, Open, At(d))| + |Filter(s, At(d), At(e))| == RowsThrough(s, e)
  {
    if s == [] {
    } else {
      FilterCounts(s[..|s| - 1], d, e);
    }
  }

  /** On a sorted frame the three date filters are three consecutive slices. */
  lemma {:induction false} FiltersAreSlices(s: seq<Row>, d: int, e: int)
    requires Sorted(s) && d <= e
    ensures Filter(s, Open, At(d)) + Filter(s, At(d), At(e)) + Filter(s, At(e), Open) == s
  {
    hide Sorted;
    hide Filter;
    if s == [] {
      FilterNone(s, Open, At(d));
      FilterNone(s, At(d), At(e));
      FilterNone(s, At(e), Open);
    } else {
      var init, last := s[..|s| - 1], s[|s| - 1];
      assert s == init + [last];
      LastIsLatest(init, last);
      FiltersAreSlices(init, d, e);
      FilterStep(s, Open, At(d));
      FilterStep(s, At(d), At(e));
      FilterStep(s, At(e), Open);
      var a, b, c := Filter(init, Open, At(d)), Filter(init, At(d), At(e)), Filter(init, At(e), Open);
      if last.date > e {
        Reassociate(a, b, c, last);
      } else {
        FilterNone(init, At(e), Open);
        assert a + b == init;
        if last.date > d {
          assert a + (b + [last]) + [] == (a + b) + [last];
        } else {
          FilterNone(init, At(d), At(e));
        }
      }
    }
  }

  // ---- Date groups ----

  function GroupDates(s: seq<Row>): seq<Group> {
    if s == [] then []
    else
      var g, d := GroupDates(s[..|s| - 1]), s[|s| - 1].date;
      if g != [] && g[|g| - 1].date == d then g[|g| - 1 := Group(d, g[|g| - 1].count + 1)] else g + [Group(d, 1)]
  }

  function SumCounts(g: seq<Group>, k: nat): nat
    requires k <= |g|
  {
    if k == 0 then 0 else SumCounts(g, k - 1) + g[k - 1].count
  }

  lemma {:induction false} SumCountsSame(g: seq<Group>, h: seq<Group>, k: nat)
    requires k <= |g| && k <= |h| && g[..k] == h[..k]
    ensures SumCounts(g, k) == SumCounts(h, k)
  {
    if k == 0 {
    } else {
      assert g[..k][k - 1] == h[..k][k - 1];
      assert g[..k - 1] == g[..k][..k - 1] && h[..k - 1] == h[..k][..k - 1];
      SumCountsSame(g, h, k - 1);
    }
  }

  /** The groups of a sorted frame are its dates, each once, in order. */
  ghost predicate GroupsOf(s: seq<Row>, g: seq<Group>) {
    && Ascending(g)
    && (forall r :: r in s ==> HasDate(g, r.date))
    && (forall j :: 0 <= j < |g| ==> Dated(s, g[j].date))
  }

  ghost predicate HasDate(g: seq<Group>, d: int) {
    exists j :: 0 <= j < |g| && g[j].date == d
  }

  ghost predicate Dated(s: seq<Row>, d: int) {
    exists i :: 0 <= i < |s| && s[i].date == d
  }

  ghost predicate Ascending(g: seq<Group>) {
    forall i, j :: 0 <= i < j < |g| ==> g[i].date < g[j].date
  }

  lemma {:induction false} GroupsAscend(s: seq<Row>)
    requires Sorted(s)
    ensures var g := GroupDates(s);
            Ascending(g) && (s == [] <==> g == []) && (s != [] ==> g[|g| - 1].date == s[|s| - 1].date)
  {
    if s == [] {
    } else {
      GroupsAscend(s[..|s| - 1]);
    }
  }

  /** Grouping one more row leaves all but the last group as they were. */
  lemma GroupsStep(s: seq<Row>)
    requires s != []
    ensures var h, g := GroupDates(s[..|s| - 1]), GroupDates(s);
            && |h| <= |g| <= |h| + 1 && |g| > 0 && g[|g| - 1].date == s[|s| - 1].date
            && (forall j :: 0 <= j < |h| ==> g[j].date == h[j].date)
            && g[..|g| - 1] == h[..|g| - 1]
            && g[|g| - 1].count == 1 + (if |g| == |h| then h[|g| - 1].count else 0)
  {
  }

  lemma {:induction false} GroupsCount(s: seq<Row>)
    ensures var g := GroupDates(s); SumCounts(g, |g|) == |s|
  {
    if s == [] {
    } else {
      var h, g := GroupDates(s[..|s| - 1]), GroupDates(s);
      GroupsStep(s);
      GroupsCount(s[..|s| - 1]);
      SumCountsSame(h, g, |g| - 1);
    }
  }

  lemma {:induction false} GroupsCover(s: seq<Row>, r: Row)
    requires r in s
    ensures HasDate(GroupDates(s), r.date)
  {
    hide GroupDates;
    GroupsStep(s);
    var init, g := s[..|s| - 1], GroupDates(s);
    if s[|s| - 1] == r {
      assert g[|g| - 1].date == r.date;
    } else {
      assert r in init;
      GroupsCover(init, r);
      var j :| 0 <= j < |GroupDates(init)| && GroupDates(init)[j].date == r.date;
      assert g[j].date == r.date;
    }
  }

  lemma {:induction false} GroupsDated(s: seq<Row>, j: nat)
    requires j < |GroupDates(s)|
    ensures Dated(s, GroupDates(s)[j].date)
  {
    if s == [] {
    } else {
      hide GroupDates;
      GroupsStep(s);
      var init, g := s[..|s| - 1], GroupDates(s);
      if j == |g| - 1 {
        assert s[|s| - 1].date == g[j].date;
      } else {
        assert g[..|g| - 1][j] == GroupDates(init)[..|g| - 1][j];
        GroupsDated(init, j);
        var i :| 0 <= i < |init| && init[i].date == g[j].date;
        assert s[i].date == g[j].date;
      }
    }
  }

  lemma GroupDatesGroups(s: seq<Row>)
    requires Sorted(s)
    ensures GroupsOf(s, GroupDates(s))
  {
    hide GroupDates;
    hide HasDate;
    hide Dated;
    GroupsAscend(s);
    forall r | r in s
      ensures HasDate(GroupDates(s), r.date)
    {
      GroupsCover(s, r);
    }
    forall j | 0 <= j < |GroupDates(s)|
      ensures Dated(s, GroupDates(s)[j].date)
    {
      GroupsDated(s, j);
    }
  }

  /** Every group's running count is the number of rows up to its date. */
  lemma {:induction false} CumulativeIsThrough(s: seq<Row>, j: nat)
    requires Sorted(s) && j < |GroupDates(s)|
    ensures SumCounts(GroupDates(s), j + 1) == RowsThrough(s, GroupDates(s)[j].date)
  {
    hide GroupDates;
    hide Filter;
    hide SumCounts;
    hide RowsThrough;
    if s == [] {
      NoGroups();
    } else {
      var n := |s| - 1;
      var init, g := s[..n], GroupDates(s);
      var h := GroupDates(init);
      GroupsStep(s);
      if j < |g| - 1 {
        GroupsAscend(s);
        CumulativeIsThrough(init, j);
        EarlierTotals(g, h, |g| - 1, j + 1);
        assert g[j].date < g[|g| - 1].date == s[n].date;
        LaterRowIgnored(s, g[j].date);
      } else {
        GroupsCount(s);
        AllThrough(s, s[n].date);
      }
    }
  }

  lemma NoGroups()
    ensures GroupDates([]) == []
  {
  }

  lemma EarlierTotals(g: seq<Group>, h: seq<Group>, m: nat, k: nat)
    requires k <= m <= |g| && m <= |h| && g[..m] == h[..m]
    ensures SumCounts(g, k) == SumCounts(h, k)
  {
    assert g[..k] == g[..m][..k] == h[..k];
    SumCountsSame(g, h, k);
  }

  /** A last row dated after the cut adds nothing to the rows through it. */
  lemma LaterRowIgnored(s: seq<Row>, d: int)
    requires s != [] && d < s[|s| - 1].date
    ensures RowsThrough(s, d) == RowsThrough(s[..|s| - 1], d)
  {
    FilterStep(s, Open, At(d));
  }

  lemma {:induction false} AllThrough(s: seq<Row>, d: int)
    requires forall i :: 0 <= i < |s| ==> s[i].date <= d
    ensures RowsThrough(s, d) == |s|
  {
    if s == [] {
    } else {
      AllThrough(s[..|s| - 1], d);
    }
  }

  // ---- The split ----

  function Abs(x: real): real {
    if x < 0.0 then -x else x
  }

  /** The distance between a count and a target. */
  function Miss(count: nat, target: real): (d: real)
    ensures d >= 0.0 && (count as real == target + d || target == count as real + d)
  {
    Abs(count as real - target)
  }

  /** The first group in [lo, hi) whose running count is closest to the target. */
  method ClosestCut(cumulative: seq<nat>, lo: nat, hi: nat, target: real) returns (k: nat)
    requires lo < hi <= |cumulative|
    ensures FirstClosest(cumulative, lo, hi, target, k)
  {
    k := lo;
    for j := lo + 1 to hi
      invariant lo <= k < j
      invariant forall i :: lo <= i < j ==> Miss(cumulative[k], target) <= Miss(cumulative[i], target)
      invariant forall i :: lo <= i < k ==> Miss(cumulative[k], target) < Miss(cumulative[i], target)
    {
      if Miss(cumulative[j], target) < Miss(cumulative[k], target) {
        k := j;
      }
    }
  }

  method RunningTotals(groups: seq<Group>) returns (cumulative: seq<nat>)
    ensures |cumulative| == |groups|
    ensures forall j :: 0 <= j < |groups| ==> cumulative[j] == SumCounts(groups, j + 1)
  {
    cumulative := [];
    var running := 0;
    for i := 0 to |groups|
      invariant |cumulative| == i && running == SumCounts(groups, i)
      invariant forall j :: 0 <= j < i ==> cumulative[j] == SumCounts(groups, j + 1)
    {
      running := running + groups[i].count;
      cumulative := cumulative + [running];
    }
  }

  /** The number of rows a fraction of n rows stands for. */
  function Target(n: nat, fraction: real): real {
    n as real * fraction
  }

  predicate ValidFractions(train: real, validation: real) {
    0.0 < train < 1.0 && 0.0 <= validation < 1.0 && train + validation < 1.0
  }

  /** There are rows on two (one) different dates after d. */
  ghost predicate TwoLater(s: seq<Row>, d: int) {
    exists x, y :: x in s && y in s && d < x.date < y.date
  }

  ghost predicate OneLater(s: seq<Row>, d: int) {
    exists x :: x in s && d < x.date
  }

  ghost predicate ThreeDates(s: seq<Row>) {
    exists x :: x in s && TwoLater(s, x.date)
  }

  /** No date is torn: everything in earlier is dated strictly before everything in later. */
  ghost predicate Before(earlier: seq<Row>, later: seq<Row>) {
    forall x, y :: x in earlier && y in later ==> x.date < y.date
  }

  /** Cutting after count rows is at least as close to the target as after other rows, and closer if
      that cut comes first. */
  predicate NoBetter(count: nat, other: nat, target: real) {
    Miss(count, target) <= Miss(other, target) && (other < count ==> Miss(count, target) < Miss(other, target))
  }

  ghost predicate DateSplit(s: seq<Row>, p: Split, trainTarget: real, validationTarget: real)
    requires p.Split?
  {
    && p.train + p.validation + p.test == s
    && p.train != [] && p.validation != [] && p.test != []
    && Before(p.train, p.validation) && Before(p.validation, p.test) && Before(p.train, p.test)
    && (forall x :: x in s && TwoLater(s, x.date) ==>
          NoBetter(|p.train|, RowsThrough(s, x.date), trainTarget))
    && (forall x :: x in s && x !in p.train && OneLater(s, x.date) ==>
          NoBetter(|p.train| + |p.validation|, RowsThrough(s, x.date), validationTarget))
  }

  /** With at least three dates, cut at the closest admissible dates. */
  method SplitByDate(s: seq<Row>, groups: seq<Group>, trainTarget: real, validationTarget: real) returns (p: Split)
    requires Sorted(s) && groups == GroupDates(s) && |groups| >= 3
    ensures p.Split? && DateSplit(s, p, trainTarget, validationTarget)
  {
    hide GroupDates;
    hide Miss;
    hide Sorted;
    hide Filter;
    hide Before;
    hide TwoLater;
    hide OneLater;
    hide NoBetter;
    var cumulative := RunningTotals(groups);
    var a := ClosestCut(cumulative, 0, |groups| - 2, trainTarget);
    var b := ClosestCut(cumulative, a + 1, |groups| - 1, validationTarget);
    var trainEnd, validationEnd := groups[a].date, groups[b].date;
    p := Split(Filter(s, Open, At(trainEnd)), Filter(s, At(trainEnd), At(validationEnd)),
               Filter(s, At(validationEnd), Open));
    GroupDatesGroups(s);
    PartsNonEmpty(s, groups, a, b);
    FiltersAreSlices(s, trainEnd, validationEnd);
    FilterCounts(s, trainEnd, validationEnd);
    PartsApart(s, trainEnd, validationEnd);
    CutsAreClosest(s, cumulative, a, b, trainTarget, validationTarget);
  }

  lemma PartsApart(s: seq<Row>, d: int, e: int)
    requires d <= e
    ensures Before(Filter(s, Open, At(d)), Filter(s, At(d), At(e)))
    ensures Before(Filter(s, At(d), At(e)), Filter(s, At(e), Open))
    ensures Before(Filter(s, Open, At(d)), Filter(s, At(e), Open))
    ensures forall x :: x in s && x !in Filter(s, Open, At(d)) ==> x.date > d
  {
    hide Filter;
    forall x
      ensures x in Filter(s, Open, At(d)) <==> x in s && x.date <= d
      ensures x in Filter(s, At(d), At(e)) <==> x in s && d < x.date <= e
      ensures x in Filter(s, At(e), Open) <==> x in s && e < x.date
    {
      FilterMembers(s, Open, At(d), x);
      FilterMembers(s, At(d), At(e), x);
      FilterMembers(s, At(e), Open, x);
    }
  }

  /** k is the first of the cuts in [lo, hi) closest to the target. */
  ghost predicate FirstClosest(cumulative: seq<nat>, lo: nat, hi: nat, target: real, k: nat) {
    && lo <= k < hi <= |cumulative|
    && (forall j :: lo <= j < hi ==> Miss(cumulative[k], target) <= Miss(cumulative[j], target))
    && (forall j :: lo <= j < k ==> Miss(cumulative[k], target) < Miss(cumulative[j], target))
  }

  lemma CutIsClosest(s: seq<Row>, cumulative: seq<nat>, lo: nat, hi: nat, target: real, k: nat, j: nat)
    requires Sorted(s) && |cumulative| == |GroupDates(s)|
    requires forall j :: 0 <= j < |cumulative| ==> cumulative[j] == SumCounts(GroupDates(s), j + 1)
    requires FirstClosest(cumulative, lo, hi, target, k) && lo <= j < hi
    ensures NoBetter(RowsThrough(s, GroupDates(s)[k].date), RowsThrough(s, GroupDates(s)[j].date), target)
  {
    hide GroupDates;
    hide Miss;
    hide Sorted;
    hide RowsThrough;
    CumulativeIsThrough(s, k);
    CumulativeIsThrough(s, j);
    assert cumulative[k] == RowsThrough(s, GroupDates(s)[k].date);
    assert cumulative[j] == RowsThrough(s, GroupDates(s)[j].date);
    GroupsAscend(s);
    if k <= j {
      ThroughMonotone(s, GroupDates(s)[k].date, GroupDates(s)[j].date);
    }
  }

  lemma ThroughMonotone(s: seq<Row>, d: int, e: int)
    requires d <= e
    ensures RowsThrough(s, d) <= RowsThrough(s, e)
  {
    FilterCounts(s, d, e);
  }

  lemma CutsAreClosest(s: seq<Row>, cumulative: seq<nat>, a: nat, b: nat, trainTarget: real, validationTarget: real)
    requires var g := GroupDates(s);
             && Sorted(s) && |g| == |cumulative| && 2 <= |g|
             && (forall j :: 0 <= j < |cumulative| ==> cumulative[j] == SumCounts(g, j + 1))
             && FirstClosest(cumulative, 0, |g| - 2, trainTarget, a)
             && FirstClosest(cumulative, a + 1, |g| - 1, validationTarget, b)
    ensures forall x :: x in s && TwoLater(s, x.date) ==>
      NoBetter(RowsThrough(s, GroupDates(s)[a].date), RowsThrough(s, x.date), trainTarget)
    ensures forall x :: x in s && x.date > GroupDates(s)[a].date && OneLater(s, x.date) ==>
      NoBetter(RowsThrough(s, GroupDates(s)[b].date), RowsThrough(s, x.date), validationTarget)
  {
    hide GroupDates;
    hide NoBetter;
    hide Sorted;
    hide RowsThrough;
    hide TwoLater;
    hide OneLater;
    var g := GroupDates(s);
    GroupDatesGroups(s);
    forall x | x in s
      ensures TwoLater(s, x.date) ==> NoBetter(RowsThrough(s, g[a].date), RowsThrough(s, x.date), trainTarget)
      ensures x.date > g[a].date && OneLater(s, x.date) ==>
        NoBetter(RowsThrough(s, g[b].date), RowsThrough(s, x.date), validationTarget)
    {
      var j := CutOf(s, g, x);
      LaterGroups(s, g, j);
      AscendingIff(g, a, j);
      if TwoLater(s, x.date) {
        CutIsClosest(s, cumulative, 0, |g| - 2, trainTarget, a, j);
      }
      if x.date > g[a].date && OneLater(s, x.date) {
        CutIsClosest(s, cumulative, a + 1, |g| - 1, validationTarget, b, j);
      }
    }
  }

  lemma AscendingIff(g: seq<Group>, i: nat, j: nat)
    requires Ascending(g) && i < |g| && j < |g|
    ensures g[i].date < g[j].date <==> i < j
  {
  }

  lemma CutOf(s: seq<Row>, g: seq<Group>, x: Row) returns (j: nat)
    requires GroupsOf(s, g) && x in s
    ensures j < |g| && g[j].date == x.date
  {
    assert HasDate(g, x.date);
    j :| 0 <= j < |g| && g[j].date == x.date;
  }

  /** A date with later dates is not among the last groups. */
  lemma LaterGroups(s: seq<Row>, g: seq<Group>, j: nat)
    requires GroupsOf(s, g) && j < |g|
    ensures OneLater(s, g[j].date) ==> j + 1 < |g|
    ensures TwoLater(s, g[j].date) ==> j + 2 < |g|
  {
    hide Ascending;
    hide Dated;
    hide HasDate;
    if OneLater(s, g[j].date) {
      var x :| x in s && g[j].date < x.date;
      var k := CutOf(s, g, x);
      AscendingIff(g, j, k);
    }
    if TwoLater(s, g[j].date) {
      var x, y :| x in s && y in s && g[j].date < x.date < y.date;
      var k := CutOf(s, g, x);
      var m := CutOf(s, g, y);
      AscendingIff(g, j, k);
      AscendingIff(g, k, m);
    }
  }

  lemma PartsNonEmpty(s: seq<Row>, g: seq<Group>, a: nat, b: nat)
    requires GroupsOf(s, g) && a < b < |g| - 1
    ensures g[a].date < g[b].date
    ensures Filter(s, Open, At(g[a].date)) != [] && Filter(s, At(g[a].date), At(g[b].date)) != []
    ensures Filter(s, At(g[b].date), Open) != []
  {
    hide Filter;
    hide Ascending;
    AscendingIff(g, a, b);
    AscendingIff(g, b, b + 1);
    var x := RowOn(s, g, a);
    var y := RowOn(s, g, b);
    var z := RowOn(s, g, b + 1);
    FilterMembers(s, Open, At(g[a].date), x);
    FilterMembers(s, At(g[a].date), At(g[b].date), y);
    FilterMembers(s, At(g[b].date), Open, z);
  }

  lemma RowOn(s: seq<Row>, g: seq<Group>, j: nat) returns (r: Row)
    requires GroupsOf(s, g) && j < |g|
    ensures r in s && r.date == g[j].date
  {
    assert Dated(s, g[j].date);
    var i :| 0 <= i < |s| && s[i].date == g[j].date;
    r := s[i];
  }

  // ---- The split is determined ----

  lemma {:induction false} FilterConcat(s: seq<Row>, t: seq<Row>, lo: Bound, hi: Bound)
    ensures Filter(s + t, lo, hi) == Filter(s, lo, hi) + Filter(t, lo, hi)
  {
    if t == [] {
      assert s + t == s;
    } else {
      var init, last := t[..|t| - 1], t[|t| - 1];
      assert s + t == (s + init) + [last] && (s + t)[..|s + t| - 1] == s + init;
      FilterConcat(s, init, lo, hi);
    }
  }

  lemma {:induction false} FilterAll(s: seq<Row>, lo: Bound, hi: Bound)
    requires forall i :: 0 <= i < |s| ==> Inside(s[i], lo, hi)
    ensures Filter(s, lo, hi) == s
  {
    if s == [] {
    } else {
      FilterAll(s[..|s| - 1], lo, hi);
    }
  }

  /** Where a sorted frame is cut between dates, the rows up to the cut date are the first part. */
  lemma CutCounts(s: seq<Row>, early: seq<Row>, late: seq<Row>)
    requires Sorted(s) && s == early + late && early != [] && Before(early, late)
    ensures RowsThrough(s, early[|early| - 1].date) == |early|
  {
    hide Filter;
    var last := early[|early| - 1];
    forall i | 0 <= i < |early|
      ensures early[i].date <= last.date
    {
      assert early[i] == s[i] && last == s[|early| - 1];
    }
    FilterAll(early, Open, At(last.date));
    forall i | 0 <= i < |late|
      ensures late[i].date > last.date
    {
      assert last in early && late[i] in late;
    }
    FilterNone(late, Open, At(last.date));
    FilterConcat(early, late, Open, At(last.date));
  }

  lemma NoBetterUnique(m: nat, n: nat, target: real)
    requires NoBetter(m, n, target) && NoBetter(n, m, target)
    ensures m == n
  {
  }

  /** The last row of the train part and of the first two parts are at admissible cuts. */
  lemma CutsAreAdmissible(s: seq<Row>, p: Split, t: real, v: real)
    requires Sorted(s) && p.Split? && DateSplit(s, p, t, v)
    ensures var x := p.train[|p.train| - 1]; x in s && TwoLater(s, x.date) && RowsThrough(s, x.date) == |p.train|
    ensures var y := p.validation[|p.validation| - 1];
            y in s && y !in p.train && OneLater(s, y.date) && RowsThrough(s, y.date) == |p.train| + |p.validation|
  {
    hide Sorted;
    hide RowsThrough;
    hide NoBetter;
    var x, y, z := p.train[|p.train| - 1], p.validation[|p.validation| - 1], p.test[0];
    assert x in p.train && y in p.validation && z in p.test;
    assert x in s && y in s && z in s;
    assert x.date < y.date < z.date;
    assert s == p.train + (p.validation + p.test);
    CutCounts(s, p.train, p.validation + p.test);
    var early := p.train + p.validation;
    assert early[|early| - 1] == y;
    CutCounts(s, early, p.test);
  }

  /** Ties go to the earlier cut, so the date split of a sorted frame is determined by its targets. */
  lemma DateSplitUnique(s: seq<Row>, p: Split, q: Split, t: real, v: real)
    requires Sorted(s) && p.Split? && q.Split? && DateSplit(s, p, t, v) && DateSplit(s, q, t, v)
    ensures p == q
  {
    hide Sorted;
    hide RowsThrough;
    hide NoBetter;
    hide TwoLater;
    hide OneLater;
    hide Before;
    CutsAreAdmissible(s, p, t, v);
    CutsAreAdmissible(s, q, t, v);
    NoBetterUnique(|p.train|, |q.train|, t);
    assert p.train == s[..|p.train|] == q.train;
    NoBetterUnique(|p.train| + |p.validation|, |q.train| + |q.validation|, v);
    assert p.train + p.validation == s[..|p.train| + |p.validation|] == q.train + q.validation;
    assert p.validation == (p.train + p.validation)[|p.train|..];
    assert q.validation == (q.train + q.validation)[|q.train|..];
    assert p.test == s[|p.train| + |p.validation|..] == q.test;
  }

  lemma ThreeDatesIff(s: seq<Row>, g: seq<Group>)
    requires GroupsOf(s, g)
    ensures ThreeDates(s) <==> |g| >= 3
  {
    if ThreeDates(s) {
      var x :| x in s && TwoLater(s, x.date);
      var j := CutOf(s, g, x);
      LaterGroups(s, g, j);
    }
    if |g| >= 3 {
      var x := RowOn(s, g, 0);
      var y := RowOn(s, g, 1);
      var z := RowOn(s, g, 2);
      assert TwoLater(s, x.date);
    }
  }

  /** dated says that the frame has the date column. With fewer than three dates, or no date column,
      the split is by row count and may leave a part empty. */
  method SplitFrame(frame: seq<Row>, dated: bool, train: real, validation: real) returns (p: Split)
    ensures p.Split? <==> 0.0 < train < 1.0 && 0.0 <= validation < 1.0 && train + validation < 1.0
    ensures p.Split? && dated && ThreeDates(Sort(frame)) ==>
      DateSplit(Sort(frame), p, |frame| as real * train, |frame| as real * (train + validation))
    ensures p.Split? && !(dated && ThreeDates(Sort(frame))) ==>
      && p.train + p.validation + p.test == (if dated then Sort(frame) else frame)
      && |p.train| == (|frame| as real * train).Floor && |p.validation| == (|frame| as real * validation).Floor
    ensures p.Split? ==> multiset(p.train + p.validation + p.test) == multiset(frame)
  {
    if !(0.0 < train < 1.0) {
      return Invalid;
    }
    if !(0.0 <= validation < 1.0) || train + validation >= 1.0 {
      return Invalid;
    }
    hide DateSplit;
    hide Sort;
    hide ThreeDates;
    hide Target;
    TargetIs(|frame|, train);
    TargetIs(|frame|, validation);
    TargetIs(|frame|, train + validation);
    p := SplitRows(frame, dated, train, validation);
  }

  method SplitRows(frame: seq<Row>, dated: bool, train: real, validation: real) returns (p: Split)
    requires ValidFractions(train, validation)
    ensures p.Split?
    ensures dated && ThreeDates(Sort(frame)) ==>
      DateSplit(Sort(frame), p, Target(|frame|, train), Target(|frame|, train + validation))
    ensures !(dated && ThreeDates(Sort(frame))) ==>
      && p.train + p.validation + p.test == (if dated then Sort(frame) else frame)
      && |p.train| == Target(|frame|, train).Floor && |p.validation| == Target(|frame|, validation).Floor
    ensures multiset(p.train + p.validation + p.test) == multiset(frame)
  {
    hide DateSplit;
    hide Sorted;
    hide Sort;
    hide GroupDates;
    hide GroupsOf;
    hide ThreeDates;
    hide Target;
    SortSorts(frame);
    SortPermutes(frame);
    var rowsFrame := frame;
    if dated {
      rowsFrame := Sort(frame);
      var groups := GroupDates(rowsFrame);
      GroupDatesGroups(rowsFrame);
      ThreeDatesIff(rowsFrame, groups);
      if |groups| >= 3 {
        p := SplitByDate(rowsFrame, groups, Target(|frame|, train), Target(|frame|, train + validation));
        PartsInOrder(rowsFrame, p, Target(|frame|, train), Target(|frame|, train + validation));
        return;
      }
    }
    var n := |rowsFrame|;
    FloorsFit(n, train, validation);
    var trainEnd := Target(n, train).Floor;
    var validationEnd := trainEnd + Target(n, validation).Floor;
    p := Split(rowsFrame[..trainEnd], rowsFrame[trainEnd..validationEnd], rowsFrame[validationEnd..]);
    assert p.train + p.validation + p.test == rowsFrame;
  }

  lemma TargetIs(n: nat, fraction: real)
    ensures Target(n, fraction) == n as real * fraction
  {
  }

  lemma PartsInOrder(s: seq<Row>, p: Split, t: real, v: real)
    requires p.Split? && DateSplit(s, p, t, v)
    ensures p.train + p.validation + p.test == s
  {
  }

  lemma FloorsFit(n: nat, train: real, validation: real)
    requires ValidFractions(train, validation)
    ensures var a, b := Target(n, train).Floor, Target(n, validation).Floor; 0 <= a && 0 <= b && a + b <= n
  {
    hide Target;
    TargetsWithin(n, train, validation);
  }

  lemma TargetsWithin(n: nat, t: real, v: real)
    requires ValidFractions(t, v)
    ensures 0.0 <= Target(n, t) && 0.0 <= Target(n, v) && Target(n, t) + Target(n, v) <= n as real
  {
    TargetWithin(n as real, t);
    TargetWithin(n as real, v);
    TargetWithin(n as real, t + v);
    assert Target(n, t) + Target(n, v) == n as real * (t + v);
  }

  lemma TargetWithin(r: real, f: real)
    requires 0.0 <= r && 0.0 <= f <= 1.0
    ensures 0.0 <= r * f <= r
  {
    assert r * f + r * (1.0 - f) == r;
    assert r * f >= 0.0;
    assert r * (1.0 - f) >= 0.0;
  }
}
