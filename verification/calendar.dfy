/** Calendar arithmetic of the chart: dates are integer day numbers chosen so
    that day 0 is a Monday; the weekday (Monday = 0 .. Sunday = 6) of day d is
    then d % 7. Dafny's % is Euclidean, which for the positive divisor 7 is the
    same as Python's floor remainder. */
module Calendar {
  import opened Wrappers

  function Weekday(d: int): (w: int)
    ensures 0 <= w < 7
  {
    d % 7
  }

  predicate IsMonday(d: int) {
    Weekday(d) == 0
  }

  /** The Monday of the week holding d (d minus its weekday). */
  function MondayOf(d: int): (m: int)
    ensures IsMonday(m) && m <= d < m + 7
    ensures forall m' :: IsMonday(m') && m' <= d < m' + 7 ==> m' == m
  {
    d - Weekday(d)
  }

  /** The first Monday that is not earlier than d. */
  function MondayOnOrAfter(d: int): (m: int)
    ensures IsMonday(m) && d <= m < d + 7
  {
    if IsMonday(d) then d else MondayOf(d) + 7
  }

  /** Smallest of the present values; None when every value is missing
      (pandas' min skips missing dates). */
  function MinPresent(xs: seq<Option<int>>): (m: Option<int>)
    ensures m.None? <==> forall i :: 0 <= i < |xs| ==> xs[i].None?
    ensures m.Some? ==> exists i :: 0 <= i < |xs| && xs[i] == m
    ensures m.Some? ==> forall i :: 0 <= i < |xs| && xs[i].Some? ==> m.value <= xs[i].value
  {
    if |xs| == 0 then None
    else
      var rest := MinPresent(xs[1..]);
      assert forall i :: 1 <= i < |xs| ==> xs[i] == xs[1..][i - 1];
      match xs[0]
      case None => rest
      case Some(x) =>
        if rest.Some? && rest.value < x then rest else Some(x)
  }

  /** Largest of the present values; None when every value is missing. */
  function MaxPresent(xs: seq<Option<int>>): (m: Option<int>)
    ensures m.None? <==> forall i :: 0 <= i < |xs| ==> xs[i].None?
    ensures m.Some? ==> exists i :: 0 <= i < |xs| && xs[i] == m
    ensures m.Some? ==> forall i :: 0 <= i < |xs| && xs[i].Some? ==> xs[i].value <= m.value
  {
    if |xs| == 0 then None
    else
      var rest := MaxPresent(xs[1..]);
      assert forall i :: 1 <= i < |xs| ==> xs[i] == xs[1..][i - 1];
      match xs[0]
      case None => rest
      case Some(x) =>
        if rest.Some? && rest.value > x then rest else Some(x)
  }

  /** The Mondays from `first` through `last` at a 7-day stride, as a weekly
      date range anchored on Mondays produces them. */
  function WeekList(first: int, last: int): (w: seq<int>)
    ensures forall k :: 0 <= k < |w| ==> w[k] == MondayOnOrAfter(first) + 7 * k
    ensures forall d :: d in w <==> first <= d <= last && IsMonday(d)
    decreases last - first
  {
    if last < first then []
    else if !IsMonday(first) then WeekList(MondayOf(first) + 7, last)
    else
      var rest := WeekList(first + 7, last);
      assert forall d :: first + 7 <= d <= last && IsMonday(d) ==> d in rest;
      [first] + rest
  }

  predicate Increasing(s: seq<int>) {
    forall i, j :: 0 <= i < j < |s| ==> s[i] < s[j]
  }

  lemma IncreasingLe(s: seq<int>, i: int, j: int)
    requires Increasing(s) && 0 <= i <= j < |s|
    ensures s[i] <= s[j]
  {
  }

  lemma WeekListIncreasing(first: int, last: int)
    ensures Increasing(WeekList(first, last))
  {
  }

  /** Week column of day d in a chart whose first week starts on
      `calendarStart`: whole weeks since the start, offset by the name column
      (column 1) and the 1-based column numbering. */
  function WeekColumn(calendarStart: int, d: int): (c: int)
    ensures calendarStart + 7 * (c - 2) <= d < calendarStart + 7 * (c - 2) + 7
  {
    (d - calendarStart) / 7 + 2
  }

  lemma WeekColumnMonotone(calendarStart: int, d1: int, d2: int)
    requires d1 <= d2
    ensures WeekColumn(calendarStart, d1) <= WeekColumn(calendarStart, d2)
  {
    var c1, c2 := WeekColumn(calendarStart, d1), WeekColumn(calendarStart, d2);
    assert 7 * (c1 - 2) < 7 * (c2 - 2) + 7;
  }

  /** With a Monday origin, the origin is column 2 and every day of a
      Monday-to-Sunday week shares the column of its Monday. */
  lemma WeekColumnOfWeek(calendarStart: int, monday: int, j: int)
    requires IsMonday(calendarStart) && IsMonday(monday) && 0 <= j < 7
    ensures WeekColumn(calendarStart, calendarStart) == 2
    ensures WeekColumn(calendarStart, monday + j) == WeekColumn(calendarStart, monday)
  {
    var c := WeekColumn(calendarStart, monday);
    var c' := WeekColumn(calendarStart, monday + j);
    assert calendarStart + 7 * (c - 2) == monday by {
      assert (monday - calendarStart) % 7 == 0;
    }
    assert 7 * (c' - 2) < 7 * (c - 2) + 7 && 7 * (c - 2) < 7 * (c' - 2) + 7;
  }

  /** The k-th week of the header list sits in global column k + 2. */
  lemma WeekListColumns(calendarStart: int, calendarEnd: int, k: int)
    requires IsMonday(calendarStart)
    requires 0 <= k < |WeekList(calendarStart, calendarEnd)|
    ensures WeekColumn(calendarStart, WeekList(calendarStart, calendarEnd)[k]) == k + 2
  {
    var w := WeekList(calendarStart, calendarEnd)[k];
    assert w == calendarStart + 7 * k;
    var c := WeekColumn(calendarStart, w);
    assert 7 * (c - 2) < 7 * k + 7 && 7 * k < 7 * (c - 2) + 7;
  }
}
