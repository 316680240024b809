/** Distinct values in first-seen order (pandas' unique) and the row map
    that puts each distinct task name on its own row under a header
    (Gantt_chart.py:68). */
module Rows {

  /** Index of the first occurrence of x in s. */
  function FirstIndex<T(==)>(s: seq<T>, x: T): (k: nat)
    requires x in s
    ensures k < |s| && s[k] == x
    ensures forall j :: 0 <= j < k ==> s[j] != x
  {
    if s[0] == x then 0
    else 1 + FirstIndex(s[1..], x)
  }

  /** Appending never moves the first occurrence of a value already present. */
  lemma FirstIndexAppend<T>(s: seq<T>, t: seq<T>, x: T)
    requires x in s
    ensures x in s + t && FirstIndex(s + t, x) == FirstIndex(s, x)
  {
    var k, k' := FirstIndex(s, x), FirstIndex(s + t, x);
    assert (s + t)[k] == x;
    assert k' < |s| ==> s[k'] == x;
  }

  /** The distinct values of s, each kept where it first occurs. */
  function Distinct<T(==)>(s: seq<T>): (r: seq<T>)
    ensures forall i :: 0 <= i < |r| ==> r[i] in s
    ensures forall i :: 0 <= i < |s| ==> s[i] in r
    ensures forall i, j :: 0 <= i < j < |r| ==> r[i] != r[j]
    ensures |r| <= |s|
  {
    if |s| == 0 then []
    else
      var init := s[..|s| - 1];
      var last := s[|s| - 1];
      assert s == init + [last];
      var r := Distinct(init);
      if last in r then r else r + [last]
  }

  /** r lists values of s in the order in which they first occur in s. */
  ghost predicate FirstSeenOrdered<T>(s: seq<T>, r: seq<T>)
    requires forall i :: 0 <= i < |r| ==> r[i] in s
  {
    forall i, j :: 0 <= i < j < |r| ==> FirstIndex(s, r[i]) < FirstIndex(s, r[j])
  }

  /** Appending a value leaves the first index of every earlier value. */
  lemma FirstSeenSnoc<T>(init: seq<T>, last: T, d: seq<T>)
    requires forall i :: 0 <= i < |d| ==> d[i] in init
    requires FirstSeenOrdered(init, d)
    ensures FirstSeenOrdered(init + [last], d)
  {
    forall i | 0 <= i < |d|
      ensures FirstIndex(init + [last], d[i]) == FirstIndex(init, d[i])
    {
      FirstIndexAppend(init, [last], d[i]);
    }
  }

  /** A value new to init, appended, comes after every value of init. */
  lemma FirstSeenNew<T>(init: seq<T>, last: T, d: seq<T>)
    requires last !in init
    requires forall i :: 0 <= i < |d| ==> d[i] in init
    requires FirstSeenOrdered(init + [last], d)
    ensures FirstSeenOrdered(init + [last], d + [last])
  {
    var s := init + [last];
    assert s[|init|] == last;
    assert FirstIndex(s, last) == |init|;
    forall i | 0 <= i < |d|
      ensures FirstIndex(s, d[i]) < |init|
    {
      FirstIndexAppend(init, [last], d[i]);
    }
  }

  /** The distinct values come in the order of their first occurrence. */
  lemma {:induction false} DistinctFirstSeen<T>(s: seq<T>)
    ensures FirstSeenOrdered(s, Distinct(s))
  {
    if |s| > 0 {
      var init := s[..|s| - 1];
      var last := s[|s| - 1];
      assert s == init + [last];
      DistinctFirstSeen(init);
      var r := Distinct(init);
      FirstSeenSnoc(init, last, r);
      if last in r {
        assert Distinct(s) == r;
      } else {
        assert last !in init;
        FirstSeenNew(init, last, r);
        assert Distinct(s) == r + [last];
      }
    }
  }

  /** In a sequence without repeats, each element's first index is its index. */
  lemma FirstIndexOfDistinct<T>(d: seq<T>)
    requires forall i, j :: 0 <= i < j < |d| ==> d[i] != d[j]
    ensures forall i :: 0 <= i < |d| ==> FirstIndex(d, d[i]) == i
  {
    forall i | 0 <= i < |d|
      ensures FirstIndex(d, d[i]) == i
    {
      var k := FirstIndex(d, d[i]);
      assert d[k] == d[i];
    }
  }

  /** Positions in the distinct sequence follow first occurrences in s, both ways. */
  lemma DistinctOrder<T>(s: seq<T>, i: int, j: int)
    requires 0 <= i < |Distinct(s)| && 0 <= j < |Distinct(s)|
    ensures i < j <==> FirstIndex(s, Distinct(s)[i]) < FirstIndex(s, Distinct(s)[j])
  {
    var d := Distinct(s);
    DistinctFirstSeen(s);
    if j < i {
      assert FirstIndex(s, d[j]) < FirstIndex(s, d[i]);
    }
  }

  /** Rows of the distinct names of `names`: the i-th distinct name in
      first-seen order goes on row headerRow + 1 + i. */
  function TaskRows(names: seq<string>, headerRow: int): (rows: map<string, int>)
    ensures forall x :: x in rows <==> x in names
    ensures forall i :: 0 <= i < |Distinct(names)| ==>
              Distinct(names)[i] in rows && rows[Distinct(names)[i]] == headerRow + 1 + i
    ensures forall x :: x in rows ==> headerRow + 1 <= rows[x] <= headerRow + |Distinct(names)|
    ensures forall x, y :: x in rows && y in rows && x != y ==> rows[x] != rows[y]
  {
    var d := Distinct(names);
    FirstIndexOfDistinct(d);
    assert forall x :: x in names ==> x in d by {
      forall x | x in names
        ensures x in d
      {
        assert names[FirstIndex(names, x)] == x;
      }
    }
    var rows := map x | x in names :: headerRow + 1 + FirstIndex(d, x);
    assert forall i :: 0 <= i < |d| ==> d[i] in names;
    assert forall x :: x in rows ==> rows[x] - headerRow - 1 == FirstIndex(d, x) < |d|;
    assert forall x, y :: x in rows && y in rows && x != y ==> rows[x] != rows[y] by {
      forall x, y | x in rows && y in rows && rows[x] == rows[y]
        ensures x == y
      {
        assert d[FirstIndex(d, x)] == x && d[FirstIndex(d, y)] == y;
      }
    }
    rows
  }

  /** Rows follow first occurrence: one name's row is above another's exactly
      when the name occurs first earlier in the list. */
  lemma TaskRowsOrder(names: seq<string>, headerRow: int, x: string, y: string)
    requires x in names && y in names
    ensures var rows := TaskRows(names, headerRow);
            rows[x] < rows[y] <==> FirstIndex(names, x) < FirstIndex(names, y)
  {
    var d := Distinct(names);
    var i, j := FirstIndex(d, x), FirstIndex(d, y);
    DistinctOrder(names, i, j);
  }
}
