/** Properties of the finished chart (Gantt_chart.py:35-106): each month
    block's rows hold exactly what that block lays out on an empty sheet, so
    the header weeks, the name labels and every task's painted span can be
    read off block by block. */
module Chart {
  import opened Wrappers
  import opened Calendar
  import opened Rows
  import opened Months
  import opened Sheet
  import opened Layout

  /** The header weeks of a chart whose calendar bounds exist. */
  function Weeks(recs: seq<Record>): seq<int>
    requires CalendarOrigin(recs).Success? && CalendarEnd(recs).Success?
  {
    WeekList(CalendarOrigin(recs).value, CalendarEnd(recs).value)
  }

  /** Header row of the j-th block when the first header is on `headerRow`
      and every block has n task rows: each block moves the cursor n + 2
      rows on. */
  function BlockRow(headerRow: int, n: nat, j: nat): int
    decreases j
  {
    if j == 0 then headerRow else BlockRow(headerRow + n + 2, n, j - 1)
  }

  /** The j-th header row is j strides of n + 2 rows below the first. */
  lemma {:induction false} BlockRowStride(headerRow: int, n: nat, j: nat)
    ensures BlockRow(headerRow, n, j) == headerRow + j * (n + 2)
    decreases j
  {
    if j > 0 {
      BlockRowStride(headerRow + n + 2, n, j - 1);
      assert (j - 1) * (n + 2) + (n + 2) == j * (n + 2);
    }
  }

  /** Past the first block, the count starts again from the next header. */
  lemma BlockRowNext(headerRow: int, n: nat, j: nat, next: int, j': nat)
    requires j >= 1 && j' == j - 1 && next == headerRow + n + 2
    ensures BlockRow(headerRow, n, j) == BlockRow(next, n, j')
  {
  }

  /** Headers after the first lie below the first block's rows. */
  lemma {:induction false} BlockRowAfter(headerRow: int, n: nat, j: nat)
    requires j >= 1
    ensures BlockRow(headerRow, n, j) >= headerRow + n + 2
    decreases j
  {
    if j > 1 {
      BlockRowAfter(headerRow + n + 2, n, j - 1);
    }
  }

  /** A block's cell depends on the sheet before it only through that same
      cell. */
  lemma LayoutBlockLocal(g: Grid, g': Grid, headerRow: int, weeks: seq<int>, recs: seq<Record>,
                         selected: seq<string>, calendarStart: int, rw: int, c: int)
    requires LayoutBlock(g, headerRow, weeks, recs, selected, calendarStart).Success?
    requires At(g, rw, c) == At(g', rw, c)
    ensures LayoutBlock(g', headerRow, weeks, recs, selected, calendarStart).Success?
    ensures At(LayoutBlock(g, headerRow, weeks, recs, selected, calendarStart).value.0, rw, c) ==
            At(LayoutBlock(g', headerRow, weeks, recs, selected, calendarStart).value.0, rw, c)
  {
    LayoutBlockUnfold(g, headerRow, weeks, recs, selected, calendarStart, rw, c);
    LayoutBlockUnfold(g', headerRow, weeks, recs, selected, calendarStart, rw, c);
  }

  /** Laying out the blocks is laying out the first one, then the rest
      from the next header row. */
  lemma LayoutBlocksStep(g: Grid, headerRow: int, groups: seq<int>, weeks: seq<int>,
                         monthOf: int -> int, recs: seq<Record>, selected: seq<string>, calendarStart: int)
    requires LayoutBlocks(g, headerRow, groups, weeks, monthOf, recs, selected, calendarStart).Success?
    requires |groups| > 0
    ensures LayoutBlock(g, headerRow, MonthWeeks(weeks, monthOf, groups[0]), recs, selected, calendarStart).Success?
    ensures var b := LayoutBlock(g, headerRow, MonthWeeks(weeks, monthOf, groups[0]), recs, selected, calendarStart);
            LayoutBlocks(g, headerRow, groups, weeks, monthOf, recs, selected, calendarStart) ==
            LayoutBlocks(b.value.0, b.value.1, groups[1..], weeks, monthOf, recs, selected, calendarStart)
  {
  }

  /** A row below the first block, blank before it, is still blank after
      it, and the j-th header counted from the first block is the
      (j - 1)-th counted from the next. */
  lemma FirstBlockSkipped(g: Grid, headerRow: int, weeks: seq<int>, recs: seq<Record>, selected: seq<string>,
                          calendarStart: int, n: nat, j: nat, j': nat, top: int, rw: int, c: int)
    requires n == TaskCount(recs, selected)
    requires LayoutBlock(g, headerRow, weeks, recs, selected, calendarStart).Success?
    requires At(g, rw, c) == Blank
    requires j >= 1 && j' == j - 1 && top == BlockRow(headerRow, n, j) && top <= rw
    ensures LayoutBlock(g, headerRow, weeks, recs, selected, calendarStart).value.1 == headerRow + n + 2
    ensures At(LayoutBlock(g, headerRow, weeks, recs, selected, calendarStart).value.0, rw, c) == Blank
    ensures top == BlockRow(LayoutBlock(g, headerRow, weeks, recs, selected, calendarStart).value.1, n, j')
  {
    BlockRowNext(headerRow, n, j, LayoutBlock(g, headerRow, weeks, recs, selected, calendarStart).value.1, j');
    BlockRowAfter(headerRow, n, j);
    LayoutBlockOutside(g, headerRow, weeks, recs, selected, calendarStart, rw, c);
  }

  /** The first block's rows, read on the finished sheet, are that block
      laid out on an empty sheet. */
  lemma LayoutBlocksFirst(g: Grid, headerRow: int, groups: seq<int>, weeks: seq<int>,
                          monthOf: int -> int, recs: seq<Record>, selected: seq<string>,
                          calendarStart: int, rw: int, c: int)
    requires LayoutBlocks(g, headerRow, groups, weeks, monthOf, recs, selected, calendarStart).Success?
    requires At(g, rw, c) == Blank
    requires |groups| > 0
    requires headerRow <= rw <= headerRow + TaskCount(recs, selected) + 1 && (rw, c) != (headerRow, 1)
    ensures LayoutBlock(map[], headerRow, MonthWeeks(weeks, monthOf, groups[0]), recs, selected, calendarStart).Success?
    ensures At(LayoutBlocks(g, headerRow, groups, weeks, monthOf, recs, selected, calendarStart).value, rw, c) ==
            At(LayoutBlock(map[], headerRow, MonthWeeks(weeks, monthOf, groups[0]), recs, selected, calendarStart).value.0,
               rw, c)
  {
    var mw := MonthWeeks(weeks, monthOf, groups[0]);
    LayoutBlocksStep(g, headerRow, groups, weeks, monthOf, recs, selected, calendarStart);
    var b := LayoutBlock(g, headerRow, mw, recs, selected, calendarStart).value;
    LayoutBlockLocal(g, map[], headerRow, mw, recs, selected, calendarStart, rw, c);
    LayoutBlocksFrame(b.0, b.1, groups[1..], weeks, monthOf, recs, selected, calendarStart, rw, c);
  }

  lemma TailIndex(s: seq<int>, j: nat, j': nat)
    requires 1 <= j < |s| && j' == j - 1
    ensures j' < |s[1..]| && s[1..][j'] == s[j]
  {
  }

  /** Laying out the blocks from the second on: the sheet and header row
      after the first block, on which the cell is still blank and the j-th
      header is the (j - 1)-th. */
  lemma SkipFirstBlock(g: Grid, headerRow: int, groups: seq<int>, weeks: seq<int>, monthOf: int -> int,
                       recs: seq<Record>, selected: seq<string>, calendarStart: int, n: nat, j: nat, top: int,
                       rw: int, c: int)
    returns (g': Grid, next: int, j': nat)
    requires n == TaskCount(recs, selected)
    requires LayoutBlocks(g, headerRow, groups, weeks, monthOf, recs, selected, calendarStart).Success?
    requires At(g, rw, c) == Blank
    requires 1 <= j < |groups| && top == BlockRow(headerRow, n, j) && top <= rw
    ensures LayoutBlocks(g, headerRow, groups, weeks, monthOf, recs, selected, calendarStart) ==
            LayoutBlocks(g', next, groups[1..], weeks, monthOf, recs, selected, calendarStart)
    ensures At(g', rw, c) == Blank
    ensures j' == j - 1 && groups[1..][j'] == groups[j]
    ensures top == BlockRow(next, n, j')
  {
    var mw := MonthWeeks(weeks, monthOf, groups[0]);
    LayoutBlocksStep(g, headerRow, groups, weeks, monthOf, recs, selected, calendarStart);
    j' := j - 1;
    FirstBlockSkipped(g, headerRow, mw, recs, selected, calendarStart, n, j, j', top, rw, c);
    var b := LayoutBlock(g, headerRow, mw, recs, selected, calendarStart).value;
    g', next := b.0, b.1;
    TailIndex(groups, j, j');
  }

  /** Rows of the j-th block and the row below it, read on the finished
      sheet, are that block laid out on an empty sheet, provided the cell was empty before the
      first block: blocks never overlap. */
  lemma {:induction false} LayoutBlocksRows(g: Grid, headerRow: int, groups: seq<int>, weeks: seq<int>,
                                            monthOf: int -> int, recs: seq<Record>, selected: seq<string>,
                                            calendarStart: int, n: nat, j: nat, top: int, rw: int, c: int)
    requires n == TaskCount(recs, selected)
    requires LayoutBlocks(g, headerRow, groups, weeks, monthOf, recs, selected, calendarStart).Success?
    requires At(g, rw, c) == Blank
    requires j < |groups| && top == BlockRow(headerRow, n, j)
    requires top <= rw <= top + n + 1 && (rw, c) != (top, 1)
    ensures LayoutBlock(map[], top, MonthWeeks(weeks, monthOf, groups[j]), recs, selected, calendarStart).Success?
    ensures At(LayoutBlocks(g, headerRow, groups, weeks, monthOf, recs, selected, calendarStart).value, rw, c) ==
            At(LayoutBlock(map[], top, MonthWeeks(weeks, monthOf, groups[j]), recs, selected, calendarStart).value.0,
               rw, c)
    decreases |groups|
  {
    if j == 0 {
      LayoutBlocksFirst(g, headerRow, groups, weeks, monthOf, recs, selected, calendarStart, rw, c);
    } else {
      var g', next, j' := SkipFirstBlock(g, headerRow, groups, weeks, monthOf, recs, selected, calendarStart, n, j,
                                         top, rw, c);
      LayoutBlocksRows(g', next, groups[1..], weeks, monthOf, recs, selected, calendarStart, n, j', top, rw, c);
    }
  }

  /** The same, for the whole chart: its first header is row 1, so the
      j-th month block starts on row BlockRow(1, n, j), and its rows hold
      what that block lays out on an empty sheet, except the corner. */
  lemma ChartBlockRows(recs: seq<Record>, selected: seq<string>, monthOf: int -> int, j: int, top: int,
                       rw: int, c: int)
    requires BuildChart(recs, selected, monthOf).Success?
    requires 0 <= j < |MonthGroups(Weeks(recs), monthOf)| && top == BlockRow(1, TaskCount(recs, selected), j)
    requires top <= rw <= top + TaskCount(recs, selected) + 1 && (rw, c) != (top, 1)
    ensures LayoutBlock(map[], top, MonthWeeks(Weeks(recs), monthOf, MonthGroups(Weeks(recs), monthOf)[j]),
                        recs, selected, CalendarOrigin(recs).value).Success?
    ensures At(BuildChart(recs, selected, monthOf).value, rw, c) ==
            At(LayoutBlock(map[], top, MonthWeeks(Weeks(recs), monthOf, MonthGroups(Weeks(recs), monthOf)[j]),
                           recs, selected, CalendarOrigin(recs).value).value.0, rw, c)
  {
    var weeks := Weeks(recs);
    var groups := MonthGroups(weeks, monthOf);
    var calendarStart := CalendarOrigin(recs).value;
    var g0 := Put(map[], 1, 1, Blank.(text := Some(Label(CornerLabel))));
    assert BuildChart(recs, selected, monthOf) ==
           LayoutBlocks(g0, 1, groups, weeks, monthOf, recs, selected, calendarStart);
    if j > 0 {
      BlockRowAfter(1, TaskCount(recs, selected), j);
    }
    assert At(g0, rw, c) == Blank;
    LayoutBlocksRows(g0, 1, groups, weeks, monthOf, recs, selected, calendarStart, TaskCount(recs, selected), j,
                     top, rw, c);
  }

  /** The row just below the last task row of every month block is empty
      in every column: the cursor advance leaves exactly one blank row
      between consecutive blocks. */
  lemma ChartSeparatorRow(recs: seq<Record>, selected: seq<string>, monthOf: int -> int, j: int, top: int,
                          rw: int, c: int)
    requires BuildChart(recs, selected, monthOf).Success?
    requires 0 <= j < |MonthGroups(Weeks(recs), monthOf)| && top == BlockRow(1, TaskCount(recs, selected), j)
    requires rw == top + TaskCount(recs, selected) + 1
    ensures At(BuildChart(recs, selected, monthOf).value, rw, c) == Blank
  {
    ChartBlockRows(recs, selected, monthOf, j, top, rw, c);
    var mw := MonthWeeks(Weeks(recs), monthOf, MonthGroups(Weeks(recs), monthOf)[j]);
    LayoutBlockOutside(map[], top, mw, recs, selected, CalendarOrigin(recs).value, rw, c);
  }

  /** The j-th block's header row holds that month's weeks, as bold
      bordered centred dates, in columns 2 .. k + 1 and nothing else past
      the name column: columns start again at 2 in every month. */
  lemma ChartHeaderRow(recs: seq<Record>, selected: seq<string>, monthOf: int -> int, j: int, top: int, c: int)
    requires BuildChart(recs, selected, monthOf).Success?
    requires 0 <= j < |MonthGroups(Weeks(recs), monthOf)| && top == BlockRow(1, TaskCount(recs, selected), j)
    requires c != 1
    ensures var mw := MonthWeeks(Weeks(recs), monthOf, MonthGroups(Weeks(recs), monthOf)[j]);
            At(BuildChart(recs, selected, monthOf).value, top, c) ==
            if 2 <= c < 2 + |mw| then Heading(Blank, WeekStart(mw[c - 2])) else Blank
  {
    var mw := MonthWeeks(Weeks(recs), monthOf, MonthGroups(Weeks(recs), monthOf)[j]);
    ChartBlockRows(recs, selected, monthOf, j, top, top, c);
    LayoutBlockOutside(map[], top, mw, recs, selected, CalendarOrigin(recs).value, top, c);
  }

  /** When no selected task starts before the calendar origin, the k-th
      row under every header carries the k-th distinct selected name, in
      first-seen order, whether or not that task has dates. */
  lemma ChartNameLabel(recs: seq<Record>, selected: seq<string>, monthOf: int -> int, j: int, top: int, k: int,
                       rw: int)
    requires BuildChart(recs, selected, monthOf).Success?
    requires 0 <= j < |MonthGroups(Weeks(recs), monthOf)| && top == BlockRow(1, TaskCount(recs, selected), j)
    requires rw == top + 1 + k
    requires 0 <= k < TaskCount(recs, selected)
    requires forall x :: x in Selected(recs, selected) && x.start.Some? ==> CalendarOrigin(recs).value <= x.start.value
    ensures At(BuildChart(recs, selected, monthOf).value, rw, 1) ==
            Heading(Blank, Label(Distinct(Names(Selected(recs, selected)))[k]))
  {
    var mw := MonthWeeks(Weeks(recs), monthOf, MonthGroups(Weeks(recs), monthOf)[j]);
    var cs := CalendarOrigin(recs).value;
    forall y | y in Dated(Selected(recs, selected))
      ensures StartCol(y, cs) >= 2
    {
    }
    ChartBlockRows(recs, selected, monthOf, j, top, rw, 1);
    BlockNameLabel(top, mw, recs, selected, cs, k, rw);
  }

  /** On an empty sheet, a block paints the columns of a task that is the
      only dated record of its name with that task's bands. */
  lemma BlockSoleSpan(top: int, weeks: seq<int>, recs: seq<Record>, selected: seq<string>, calendarStart: int,
                      k: int, rw: int, x: Record, c: int)
    requires LayoutBlock(map[], top, weeks, recs, selected, calendarStart).Success?
    requires rw == top + 1 + k
    requires 0 <= k < TaskCount(recs, selected) && Distinct(Names(Selected(recs, selected)))[k] == x.name
    requires x in Dated(Selected(recs, selected))
    requires forall y :: y in Dated(Selected(recs, selected)) && y.name == x.name ==> y == x
    requires StartCol(x, calendarStart) <= c <= EndCol(x, calendarStart) && c != 1
    ensures At(LayoutBlock(map[], top, weeks, recs, selected, calendarStart).value.0, rw, c) ==
            Painted(Blank, SpanBand(x, calendarStart, c), c == EndCol(x, calendarStart))
  {
    var sel := Selected(recs, selected);
    var rows := TaskRows(Names(sel), top);
    LayoutBlockTaskRow(map[], top, weeks, recs, selected, calendarStart, k, c);
    assert At(map[], rw, c) == Blank;
    assert rows[x.name] == rw;
    CellAfterSole(Blank, Dated(sel), rows, calendarStart, x, rw, c);
  }

  /** On an empty sheet, a block leaves a task-row cell right of the name
      column empty when no dated record of the row's name covers it. */
  lemma BlockUncoveredCell(top: int, weeks: seq<int>, recs: seq<Record>, selected: seq<string>, calendarStart: int,
                           k: int, rw: int, c: int)
    requires LayoutBlock(map[], top, weeks, recs, selected, calendarStart).Success?
    requires rw == top + 1 + k
    requires 0 <= k < TaskCount(recs, selected) && c != 1
    requires forall y :: y in Dated(Selected(recs, selected)) && y.name == Distinct(Names(Selected(recs, selected)))[k]
               ==> !(StartCol(y, calendarStart) <= c <= EndCol(y, calendarStart))
    ensures At(LayoutBlock(map[], top, weeks, recs, selected, calendarStart).value.0, rw, c) == Blank
  {
    var sel := Selected(recs, selected);
    var rows := TaskRows(Names(sel), top);
    var name := Distinct(Names(sel))[k];
    LayoutBlockTaskRow(map[], top, weeks, recs, selected, calendarStart, k, c);
    assert At(map[], rw, c) == Blank;
    assert rows[name] == rw;
    forall y | y in Dated(sel)
      ensures !Covers(y, rows, calendarStart, rw, c)
    {
      if y.name in rows && rows[y.name] == rw {
        assert y.name == name;
      }
    }
    CellAfterUncovered(Blank, Dated(sel), rows, calendarStart, rw, c);
  }

  /** On an empty sheet, a block's k-th name label survives painting when
      no dated record of that name covers column 1. */
  lemma BlockNameLabel(top: int, weeks: seq<int>, recs: seq<Record>, selected: seq<string>, calendarStart: int,
                       k: int, rw: int)
    requires LayoutBlock(map[], top, weeks, recs, selected, calendarStart).Success?
    requires rw == top + 1 + k
    requires 0 <= k < TaskCount(recs, selected)
    requires forall y :: y in Dated(Selected(recs, selected)) && y.name == Distinct(Names(Selected(recs, selected)))[k]
               ==> !(StartCol(y, calendarStart) <= 1 <= EndCol(y, calendarStart))
    ensures At(LayoutBlock(map[], top, weeks, recs, selected, calendarStart).value.0, rw, 1) ==
            Heading(Blank, Label(Distinct(Names(Selected(recs, selected)))[k]))
  {
    var sel := Selected(recs, selected);
    var rows := TaskRows(Names(sel), top);
    var name := Distinct(Names(sel))[k];
    LayoutBlockNameCell(map[], top, weeks, recs, selected, calendarStart, k);
    assert At(map[], rw, 1) == Blank;
    assert rows[name] == rw;
    forall y | y in Dated(sel)
      ensures !Covers(y, rows, calendarStart, rw, 1)
    {
      if y.name in rows && rows[y.name] == rw {
        assert y.name == name;
      }
    }
    CellAfterUncovered(Heading(Blank, Label(name)), Dated(sel), rows, calendarStart, rw, 1);
  }

  /** A task that is the only dated record of its name is painted in full,
      with its global week columns, on its row under EVERY month header:
      spans are not clipped to the month of the block. */
  lemma ChartTaskSpan(recs: seq<Record>, selected: seq<string>, monthOf: int -> int, j: int, top: int, k: int, rw: int,
                      x: Record, c: int)
    requires BuildChart(recs, selected, monthOf).Success?
    requires 0 <= j < |MonthGroups(Weeks(recs), monthOf)| && top == BlockRow(1, TaskCount(recs, selected), j)
    requires rw == top + 1 + k
    requires 0 <= k < TaskCount(recs, selected) && Distinct(Names(Selected(recs, selected)))[k] == x.name
    requires x in Dated(Selected(recs, selected))
    requires forall y :: y in Dated(Selected(recs, selected)) && y.name == x.name ==> y == x
    requires StartCol(x, CalendarOrigin(recs).value) <= c <= EndCol(x, CalendarOrigin(recs).value) && c != 1
    ensures At(BuildChart(recs, selected, monthOf).value, rw, c) ==
            Painted(Blank, SpanBand(x, CalendarOrigin(recs).value, c), c == EndCol(x, CalendarOrigin(recs).value))
  {
    var mw := MonthWeeks(Weeks(recs), monthOf, MonthGroups(Weeks(recs), monthOf)[j]);
    ChartBlockRows(recs, selected, monthOf, j, top, rw, c);
    BlockSoleSpan(top, mw, recs, selected, CalendarOrigin(recs).value, k, rw, x, c);
  }

  /** A cell right of the name column that no dated record of the row's
      name covers stays empty in every month block. */
  lemma ChartUnpaintedCell(recs: seq<Record>, selected: seq<string>, monthOf: int -> int, j: int, top: int,
                           k: int, rw: int, c: int)
    requires BuildChart(recs, selected, monthOf).Success?
    requires 0 <= j < |MonthGroups(Weeks(recs), monthOf)| && top == BlockRow(1, TaskCount(recs, selected), j)
    requires rw == top + 1 + k
    requires 0 <= k < TaskCount(recs, selected) && c != 1
    requires forall y :: y in Dated(Selected(recs, selected)) && y.name == Distinct(Names(Selected(recs, selected)))[k]
               ==> !(StartCol(y, CalendarOrigin(recs).value) <= c <= EndCol(y, CalendarOrigin(recs).value))
    ensures At(BuildChart(recs, selected, monthOf).value, rw, c) == Blank
  {
    var mw := MonthWeeks(Weeks(recs), monthOf, MonthGroups(Weeks(recs), monthOf)[j]);
    var cs := CalendarOrigin(recs).value;
    ChartBlockRows(recs, selected, monthOf, j, top, rw, c);
    BlockUncoveredCell(top, mw, recs, selected, cs, k, rw, c);
  }

  /** A name with no dated selected record keeps its label in every
      block, wherever the other tasks start. */
  lemma ChartDatelessLabel(recs: seq<Record>, selected: seq<string>, monthOf: int -> int, j: int, top: int, k: int,
                           rw: int)
    requires BuildChart(recs, selected, monthOf).Success?
    requires 0 <= j < |MonthGroups(Weeks(recs), monthOf)| && top == BlockRow(1, TaskCount(recs, selected), j)
    requires rw == top + 1 + k
    requires 0 <= k < TaskCount(recs, selected)
    requires forall y :: y in Dated(Selected(recs, selected)) ==> y.name != Distinct(Names(Selected(recs, selected)))[k]
    ensures At(BuildChart(recs, selected, monthOf).value, rw, 1) ==
            Heading(Blank, Label(Distinct(Names(Selected(recs, selected)))[k]))
  {
    var mw := MonthWeeks(Weeks(recs), monthOf, MonthGroups(Weeks(recs), monthOf)[j]);
    ChartBlockRows(recs, selected, monthOf, j, top, rw, 1);
    BlockNameLabel(top, mw, recs, selected, CalendarOrigin(recs).value, k, rw);
  }

  /** A name with no dated selected record (a start or an end date is
      missing in every one) still gets its labelled row under every header,
      and nothing else on that row is written. */
  lemma ChartDatelessRow(recs: seq<Record>, selected: seq<string>, monthOf: int -> int, j: int, top: int, k: int,
                         rw: int, c: int)
    requires BuildChart(recs, selected, monthOf).Success?
    requires 0 <= j < |MonthGroups(Weeks(recs), monthOf)| && top == BlockRow(1, TaskCount(recs, selected), j)
    requires rw == top + 1 + k
    requires 0 <= k < TaskCount(recs, selected)
    requires forall y :: y in Dated(Selected(recs, selected)) ==> y.name != Distinct(Names(Selected(recs, selected)))[k]
    ensures At(BuildChart(recs, selected, monthOf).value, rw, c) ==
            if c == 1 then Heading(Blank, Label(Distinct(Names(Selected(recs, selected)))[k])) else Blank
  {
    if c == 1 {
      ChartDatelessLabel(recs, selected, monthOf, j, top, k, rw);
    } else {
      ChartUnpaintedCell(recs, selected, monthOf, j, top, k, rw, c);
    }
  }
}
