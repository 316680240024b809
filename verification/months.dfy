/** Grouping of the header weeks into month blocks (Gantt_chart.py:54-56).
    The calendar month of a day is a parameter `monthOf`; the grouping is
    defined for any such function exactly as the source computes it (the
    distinct months in first-seen order, then the weeks of each month), and
    the partition lemmas assume only that `monthOf` is monotone. */
module Months {
  import opened Rows
  import opened Calendar

  ghost predicate Monotone(monthOf: int -> int) {
    forall a, b :: a <= b ==> monthOf(a) <= monthOf(b)
  }

  /** The month of each week, in week order. */
  function MonthsOf(weeks: seq<int>, monthOf: int -> int): (months: seq<int>)
    ensures |months| == |weeks|
    ensures forall i :: 0 <= i < |weeks| ==> months[i] == monthOf(weeks[i])
  {
    seq(|weeks|, i requires 0 <= i < |weeks| => monthOf(weeks[i]))
  }

  /** One entry per month that has a week, without repeats, in order of
      first appearance. */
  function MonthGroups(weeks: seq<int>, monthOf: int -> int): (groups: seq<int>)
    ensures forall j :: 0 <= j < |groups| ==>
              exists i :: 0 <= i < |weeks| && monthOf(weeks[i]) == groups[j]
    ensures forall i :: 0 <= i < |weeks| ==> monthOf(weeks[i]) in groups
    ensures forall j, k :: 0 <= j < k < |groups| ==> groups[j] != groups[k]
  {
    var months := MonthsOf(weeks, monthOf);
    var groups := Distinct(months);
    assert forall j :: 0 <= j < |groups| ==> months[FirstIndex(months, groups[j])] == groups[j];
    groups
  }

  /** The weeks that fall in `month`, in their original order. */
  function MonthWeeks(weeks: seq<int>, monthOf: int -> int, month: int): (r: seq<int>)
    ensures forall w :: w in r <==> w in weeks && monthOf(w) == month
    ensures |r| <= |weeks|
  {
    if |weeks| == 0 then []
    else
      var init := weeks[..|weeks| - 1];
      var w := weeks[|weeks| - 1];
      assert weeks == init + [w];
      var r := MonthWeeks(init, monthOf, month);
      if monthOf(w) == month then r + [w] else r
  }

  /** The weeks of one month keep the increasing order of the week list. */
  lemma {:induction false} MonthWeeksIncreasing(weeks: seq<int>, monthOf: int -> int, month: int)
    requires Increasing(weeks)
    ensures Increasing(MonthWeeks(weeks, monthOf, month))
  {
    if |weeks| > 0 {
      var init := weeks[..|weeks| - 1];
      var w := weeks[|weeks| - 1];
      assert weeks == init + [w];
      MonthWeeksIncreasing(init, monthOf, month);
      var r := MonthWeeks(init, monthOf, month);
      forall i | 0 <= i < |r|
        ensures r[i] < w
      {
        assert r[i] in r;
        var k :| 0 <= k < |init| && init[k] == r[i];
        assert weeks[k] < weeks[|weeks| - 1];
      }
    }
  }

  /** The month blocks of `groups`, concatenated in order. */
  function Blocks(weeks: seq<int>, monthOf: int -> int, groups: seq<int>): seq<int> {
    if |groups| == 0 then []
    else Blocks(weeks, monthOf, groups[..|groups| - 1])
         + MonthWeeks(weeks, monthOf, groups[|groups| - 1])
  }

  /** With increasing weeks and a monotone month function the months come
      out in increasing order. */
  lemma GroupsIncreasing(weeks: seq<int>, monthOf: int -> int)
    requires Increasing(weeks) && Monotone(monthOf)
    ensures Increasing(MonthGroups(weeks, monthOf))
  {
    var months := MonthsOf(weeks, monthOf);
    var groups := MonthGroups(weeks, monthOf);
    DistinctFirstSeen(months);
    forall j, k | 0 <= j < k < |groups|
      ensures groups[j] < groups[k]
    {
      var a, b := FirstIndex(months, groups[j]), FirstIndex(months, groups[k]);
      assert a < b;
      assert weeks[a] < weeks[b];
      assert months[a] <= months[b];
    }
  }

  /** Blocks later in the order hold strictly later weeks. */
  lemma BlocksChronological(weeks: seq<int>, monthOf: int -> int, j: int, k: int, a: int, b: int)
    requires Increasing(weeks) && Monotone(monthOf)
    requires 0 <= j < k < |MonthGroups(weeks, monthOf)|
    requires a in MonthWeeks(weeks, monthOf, MonthGroups(weeks, monthOf)[j])
    requires b in MonthWeeks(weeks, monthOf, MonthGroups(weeks, monthOf)[k])
    ensures a < b
  {
    GroupsIncreasing(weeks, monthOf);
    var groups := MonthGroups(weeks, monthOf);
    assert monthOf(a) == groups[j] < groups[k] == monthOf(b);
    assert b <= a ==> monthOf(b) <= monthOf(a);
  }

  lemma MonthWeeksSnoc(weeks: seq<int>, w: int, monthOf: int -> int, month: int)
    ensures MonthWeeks(weeks + [w], monthOf, month)
            == MonthWeeks(weeks, monthOf, month) + (if monthOf(w) == month then [w] else [])
  {
    assert (weeks + [w])[..|weeks|] == weeks;
  }

  /** A week whose month is not among `groups` adds nothing to their blocks. */
  lemma {:induction false} BlocksIgnoreWeek(weeks: seq<int>, w: int, monthOf: int -> int, groups: seq<int>)
    requires monthOf(w) !in groups
    ensures Blocks(weeks + [w], monthOf, groups) == Blocks(weeks, monthOf, groups)
  {
    if |groups| > 0 {
      var init := groups[..|groups| - 1];
      assert monthOf(w) !in init;
      BlocksIgnoreWeek(weeks, w, monthOf, init);
      MonthWeeksSnoc(weeks, w, monthOf, groups[|groups| - 1]);
    }
  }

  lemma MonotoneAt(monthOf: int -> int, a: int, b: int)
    requires Monotone(monthOf) && a <= b
    ensures monthOf(a) <= monthOf(b)
  {
  }

  /** Dropping the last week keeps the order, and that week is the latest. */
  lemma IncreasingSnoc(p: seq<int>, w: int)
    requires Increasing(p + [w])
    ensures Increasing(p)
    ensures forall i :: 0 <= i < |p| ==> p[i] < w
  {
    assert forall i :: 0 <= i < |p| ==> p[i] == (p + [w])[i];
    assert w == (p + [w])[|p|];
  }

  /** When a later week's month already has a block, that block is the
      last one. */
  lemma SameMonthIsLastGroup(p: seq<int>, w: int, monthOf: int -> int)
    requires Increasing(p + [w]) && Monotone(monthOf)
    requires monthOf(w) in MonthGroups(p, monthOf)
    ensures MonthGroups(p, monthOf)[|MonthGroups(p, monthOf)| - 1] == monthOf(w)
  {
    var g := MonthGroups(p, monthOf);
    IncreasingSnoc(p, w);
    GroupsIncreasing(p, monthOf);
    var last := |g| - 1;
    var k :| 0 <= k < |g| && g[k] == monthOf(w);
    IncreasingLe(g, k, last);
    var i :| 0 <= i < |p| && monthOf(p[i]) == g[last];
    MonotoneAt(monthOf, p[i], w);
  }

  /** A week whose month owns the last block joins that block. */
  lemma BlocksSnocLast(p: seq<int>, w: int, monthOf: int -> int, groups: seq<int>)
    requires |groups| > 0 && groups[|groups| - 1] == monthOf(w)
    requires monthOf(w) !in groups[..|groups| - 1]
    ensures Blocks(p + [w], monthOf, groups) == Blocks(p, monthOf, groups) + [w]
  {
    var init := groups[..|groups| - 1];
    BlocksIgnoreWeek(p, w, monthOf, init);
    MonthWeeksSnoc(p, w, monthOf, monthOf(w));
  }

  /** A week of a month with no earlier week forms a new last block. */
  lemma BlocksSnocNew(p: seq<int>, w: int, monthOf: int -> int, groups: seq<int>)
    requires monthOf(w) !in groups
    requires MonthWeeks(p, monthOf, monthOf(w)) == []
    ensures Blocks(p + [w], monthOf, groups + [monthOf(w)]) == Blocks(p, monthOf, groups) + [w]
  {
    assert (groups + [monthOf(w)])[..|groups|] == groups;
    BlocksIgnoreWeek(p, w, monthOf, groups);
    MonthWeeksSnoc(p, w, monthOf, monthOf(w));
  }

  /** Month groups grow by the new week's month when it has not been seen. */
  lemma MonthGroupsSnoc(p: seq<int>, w: int, monthOf: int -> int)
    ensures MonthGroups(p + [w], monthOf)
            == if monthOf(w) in MonthGroups(p, monthOf) then MonthGroups(p, monthOf)
               else MonthGroups(p, monthOf) + [monthOf(w)]
  {
    var weeks := p + [w];
    assert MonthsOf(weeks, monthOf)[..|weeks| - 1] == MonthsOf(p, monthOf);
  }

  /** A month without a group has no weeks. */
  lemma NoGroupNoWeeks(p: seq<int>, monthOf: int -> int, m: int)
    requires m !in MonthGroups(p, monthOf)
    ensures MonthWeeks(p, monthOf, m) == []
  {
    var r := MonthWeeks(p, monthOf, m);
    assert forall x :: x in r ==> x in p && monthOf(x) == m;
  }

  /** The month blocks partition the header weeks: read in order they give
      back exactly the week list, so each block is a contiguous run of
      weeks and the blocks come in chronological order. */
  lemma {:induction false} BlocksPartitionWeeks(weeks: seq<int>, monthOf: int -> int)
    requires Increasing(weeks) && Monotone(monthOf)
    ensures Blocks(weeks, monthOf, MonthGroups(weeks, monthOf)) == weeks
  {
    if |weeks| > 0 {
      var p := weeks[..|weeks| - 1];
      var w := weeks[|weeks| - 1];
      assert weeks == p + [w];
      assert Increasing(p);
      BlocksPartitionWeeks(p, monthOf);
      var g := MonthGroups(p, monthOf);
      MonthGroupsSnoc(p, w, monthOf);
      if monthOf(w) in g {
        SameMonthIsLastGroup(p, w, monthOf);
        BlocksSnocLast(p, w, monthOf, g);
      } else {
        NoGroupNoWeeks(p, monthOf, monthOf(w));
        BlocksSnocNew(p, w, monthOf, g);
      }
    }
  }
}
