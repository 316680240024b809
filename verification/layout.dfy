/** The chart builder's layout pass (Gantt_chart.py:35-102): calendar
    origin and header weeks, one block per month with a header row of week
    dates, a row per distinct task name, and each task's week span painted
    in three bands with a deadline label on its last column. */
module Layout {
  import opened Wrappers
  import opened Calendar
  import opened Bands
  import opened Rows
  import opened Months
  import opened Sheet

  /** One schedule row after loading: task name, process category, planned
      start and end, and the inheritance-start date; a date that failed to
      parse is None. */
  datatype Record = Record(
    name: string,
    category: string,
    start: Option<int>,
    end: Option<int>,
    inheritanceStart: Option<int>)

  datatype LayoutError =
    | NoCalendarBound    // no inheritance-start date or no end date at all: the week range has a missing bound
    | ColumnBeforeSheet  // a task span would begin left of column 1
    | NoTaskRows         // a month block with no selected task: the maximum of an empty row map

  function InheritanceStarts(recs: seq<Record>): (xs: seq<Option<int>>)
    ensures |xs| == |recs| && forall i :: 0 <= i < |recs| ==> xs[i] == recs[i].inheritanceStart
  {
    seq(|recs|, i requires 0 <= i < |recs| => recs[i].inheritanceStart)
  }

  function EndDates(recs: seq<Record>): (xs: seq<Option<int>>)
    ensures |xs| == |recs| && forall i :: 0 <= i < |recs| ==> xs[i] == recs[i].end
  {
    seq(|recs|, i requires 0 <= i < |recs| => recs[i].end)
  }

  /** The Monday of the week of the earliest inheritance-start date. */
  function CalendarOrigin(recs: seq<Record>): (r: Result<int, LayoutError>)
    ensures r.Success? <==> exists i :: 0 <= i < |recs| && recs[i].inheritanceStart.Some?
    ensures r.Failure? ==> r.error == NoCalendarBound
    ensures r.Success? ==> IsMonday(r.value)
    ensures r.Success? ==> forall i :: 0 <= i < |recs| && recs[i].inheritanceStart.Some? ==>
              r.value <= recs[i].inheritanceStart.value
    ensures r.Success? ==> (exists i :: 0 <= i < |recs| && recs[i].inheritanceStart.Some? &&
                                  recs[i].inheritanceStart.value - r.value <= 6)
  {
    var m := MinPresent(InheritanceStarts(recs));
    if m.None? then Failure(NoCalendarBound)
    else
      assert exists i :: 0 <= i < |recs| && recs[i].inheritanceStart == m;
      Success(MondayOf(m.value))
  }

  /** The latest end date. */
  function CalendarEnd(recs: seq<Record>): (r: Result<int, LayoutError>)
    ensures r.Success? <==> exists i :: 0 <= i < |recs| && recs[i].end.Some?
    ensures r.Failure? ==> r.error == NoCalendarBound
    ensures r.Success? ==> forall i :: 0 <= i < |recs| && recs[i].end.Some? ==> recs[i].end.value <= r.value
    ensures r.Success? ==> exists i :: 0 <= i < |recs| && recs[i].end == Some(r.value)
  {
    var m := MaxPresent(EndDates(recs));
    if m.None? then Failure(NoCalendarBound)
    else
      assert exists i :: 0 <= i < |recs| && recs[i].end == m;
      Success(m.value)
  }

  /** Records whose category is among the selected ones, in order. */
  function Selected(recs: seq<Record>, selected: seq<string>): (r: seq<Record>)
    ensures forall x :: x in r <==> x in recs && x.category in selected
    ensures |r| <= |recs|
  {
    if |recs| == 0 then []
    else
      var rest := Selected(recs[1..], selected);
      assert forall x :: x in recs <==> x == recs[0] || x in recs[1..];
      if recs[0].category in selected then [recs[0]] + rest else rest
  }

  /** Records with both a start and an end date, in order. */
  function Dated(recs: seq<Record>): (r: seq<Record>)
    ensures forall x :: x in r <==> x in recs && x.start.Some? && x.end.Some?
    ensures |r| <= |recs|
  {
    if |recs| == 0 then []
    else
      var rest := Dated(recs[1..]);
      assert forall x :: x in recs <==> x == recs[0] || x in recs[1..];
      if recs[0].start.Some? && recs[0].end.Some? then [recs[0]] + rest else rest
  }

  /** The category filter works record by record and keeps the input order
      and repeats: filtering a concatenation is concatenating the filtered
      parts, and one record is kept alone or dropped. */
  lemma {:induction false} SelectedAppend(a: seq<Record>, b: seq<Record>, selected: seq<string>)
    ensures Selected(a + b, selected) == Selected(a, selected) + Selected(b, selected)
    ensures |a| == 1 ==> Selected(a, selected) == if a[0].category in selected then a else []
    decreases |a|
  {
    if |a| > 0 {
      assert (a + b)[1..] == a[1..] + b;
      SelectedAppend(a[1..], b, selected);
    } else {
      assert a + b == b;
    }
  }

  /** The same for the drop of records with a missing date. */
  lemma {:induction false} DatedAppend(a: seq<Record>, b: seq<Record>)
    ensures Dated(a + b) == Dated(a) + Dated(b)
    ensures |a| == 1 ==> Dated(a) == if a[0].start.Some? && a[0].end.Some? then a else []
    decreases |a|
  {
    if |a| > 0 {
      assert (a + b)[1..] == a[1..] + b;
      DatedAppend(a[1..], b);
    } else {
      assert a + b == b;
    }
  }

  function Names(recs: seq<Record>): (names: seq<string>)
    ensures |names| == |recs| && forall i :: 0 <= i < |recs| ==> names[i] == recs[i].name
  {
    seq(|recs|, i requires 0 <= i < |recs| => recs[i].name)
  }

  /** Number of task rows under each header: the distinct selected names. */
  function TaskCount(recs: seq<Record>, selected: seq<string>): (n: nat)
    ensures n > 0 <==> exists x :: x in recs && x.category in selected
  {
    var sel := Selected(recs, selected);
    assert |sel| == 0 || sel[0] in sel;
    assert |sel| == 0 || Names(sel)[0] in Distinct(Names(sel));
    |Distinct(Names(sel))|
  }

  function StartCol(x: Record, calendarStart: int): int
    requires x.start.Some?
  {
    WeekColumn(calendarStart, x.start.value)
  }

  function EndCol(x: Record, calendarStart: int): int
    requires x.end.Some?
  {
    WeekColumn(calendarStart, x.end.value)
  }

  /** A dated record whose span is non-empty but starts left of column 1:
      writing its first cell raises. In dates: its start lies more than a
      week before the origin, and any such record with start <= end is one. */
  predicate Faulty(x: Record, calendarStart: int): (b: bool)
    ensures b ==> x.start.Some? && x.end.Some? && x.start.value < calendarStart - 7
    ensures x.start.Some? && x.end.Some? && x.start.value < calendarStart - 7 && x.start.value <= x.end.value ==> b
  {
    x.start.Some? && x.end.Some? &&
    StartCol(x, calendarStart) <= EndCol(x, calendarStart) && StartCol(x, calendarStart) < 1
  }

  /** Paints columns from..endCol of `row` for the span startCol..endCol. */
  function PaintSpan(g: Grid, row: int, startCol: int, endCol: int, from: int): (g': Grid)
    requires startCol <= from
    ensures forall r, c :: At(g', r, c) ==
              if r == row && from <= c <= endCol
              then Painted(At(g, r, c), BandAt(c - startCol, endCol - startCol + 1), c == endCol)
              else At(g, r, c)
    decreases endCol - from
  {
    if from > endCol then g
    else
      var band := BandAt(from - startCol, endCol - startCol + 1);
      var g1 := Put(g, row, from, Painted(At(g, row, from), band, from == endCol));
      PaintSpan(g1, row, startCol, endCol, from + 1)
  }

  /** Paints one task's week span on its row (Gantt_chart.py:82-99). An
      inverted span writes nothing; a span starting left of column 1 fails
      as the sheet refuses such a cell. */
  function PaintTask(g: Grid, row: int, startCol: int, endCol: int): (r: Result<Grid, LayoutError>)
    ensures r.Failure? <==> startCol <= endCol && startCol < 1
    ensures r.Failure? ==> r.error == ColumnBeforeSheet
    ensures r.Success? ==> (forall rw, c :: At(r.value, rw, c) ==
                              if rw == row && startCol <= c <= endCol
                              then Painted(At(g, rw, c), BandAt(c - startCol, endCol - startCol + 1), c == endCol)
                              else At(g, rw, c))
  {
    if startCol <= endCol && startCol < 1 then Failure(ColumnBeforeSheet)
    else Success(PaintSpan(g, row, startCol, endCol, startCol))
  }

  /** Every column of a painted span holds exactly one band, bands never
      step back from late to early left to right, and the deadline label
      goes on the last column alone. */
  lemma PaintTaskBands(g: Grid, row: int, startCol: int, endCol: int, c1: int, c2: int)
    requires 1 <= startCol && startCol <= c1 <= c2 <= endCol
    ensures PaintTask(g, row, startCol, endCol).Success?
    ensures var g' := PaintTask(g, row, startCol, endCol).value;
            && At(g', row, c1).fill.Some? && At(g', row, c1).bordered
            && Rank(At(g', row, c1).fill.value) <= Rank(At(g', row, c2).fill.value)
            && (At(g', row, c2).text == Some(Label(DeadlineLabel)) <==>
                  c2 == endCol || At(g, row, c2).text == Some(Label(DeadlineLabel)))
            && At(g', row, endCol).text == Some(Label(DeadlineLabel))
            && (c1 < endCol ==> At(g', row, c1).text == At(g, row, c1).text)
  {
    BandRankMonotone(endCol - startCol + 1, c1 - startCol, c2 - startCol);
  }

  /** Whether record x's span covers cell (r, c). */
  predicate Covers(x: Record, rows: map<string, int>, calendarStart: int, r: int, c: int) {
    x.name in rows && x.start.Some? && x.end.Some? && rows[x.name] == r &&
    StartCol(x, calendarStart) <= c <= EndCol(x, calendarStart)
  }

  /** Band of column c in record x's span. */
  function SpanBand(x: Record, calendarStart: int, c: int): Band
    requires x.start.Some? && x.end.Some?
  {
    BandAt(c - StartCol(x, calendarStart), EndCol(x, calendarStart) - StartCol(x, calendarStart) + 1)
  }

  /** Cell (r, c) after the records are painted in order, starting from
      `cell`: each record whose span covers the cell paints it. */
  function CellAfter(cell: Cell, recs: seq<Record>, rows: map<string, int>, calendarStart: int,
                     r: int, c: int): Cell
    decreases |recs|
  {
    if |recs| == 0 then cell
    else
      var x := recs[0];
      var cell' := if Covers(x, rows, calendarStart, r, c)
                   then Painted(cell, SpanBand(x, calendarStart, c), c == EndCol(x, calendarStart))
                   else cell;
      CellAfter(cell', recs[1..], rows, calendarStart, r, c)
  }

  /** Paints the records in order (Gantt_chart.py:78-99); stops at the first
      record whose span starts left of column 1. */
  function PaintRecords(g: Grid, recs: seq<Record>, rows: map<string, int>, calendarStart: int)
    : (r: Result<Grid, LayoutError>)
    requires forall x :: x in recs ==> x.name in rows && x.start.Some? && x.end.Some?
    ensures r.Failure? <==> exists x :: x in recs && Faulty(x, calendarStart)
    ensures r.Failure? ==> r.error == ColumnBeforeSheet
    ensures r.Success? ==> forall rw, c ::
              At(r.value, rw, c) == CellAfter(At(g, rw, c), recs, rows, calendarStart, rw, c)
    decreases |recs|
  {
    if |recs| == 0 then Success(g)
    else
      var x := recs[0];
      assert forall y :: y in recs <==> y == x || y in recs[1..];
      var first := PaintTask(g, rows[x.name], StartCol(x, calendarStart), EndCol(x, calendarStart));
      assert first.Failure? <==> Faulty(x, calendarStart);
      if first.Failure? then Failure(ColumnBeforeSheet)
      else
        var rest := PaintRecords(first.value, recs[1..], rows, calendarStart);
        assert rest.Success? ==> forall rw, c ::
                 At(rest.value, rw, c) == CellAfter(At(g, rw, c), recs, rows, calendarStart, rw, c) by {
          if rest.Success? {
            forall rw, c
              ensures At(rest.value, rw, c) == CellAfter(At(g, rw, c), recs, rows, calendarStart, rw, c)
            {
              assert At(first.value, rw, c) ==
                     if Covers(x, rows, calendarStart, rw, c)
                     then Painted(At(g, rw, c), SpanBand(x, calendarStart, c), c == EndCol(x, calendarStart))
                     else At(g, rw, c);
            }
          }
        }
        rest
  }

  /** A cell no record covers keeps its value. */
  lemma {:induction false} CellAfterUncovered(cell: Cell, recs: seq<Record>, rows: map<string, int>,
                                              calendarStart: int, r: int, c: int)
    requires forall x :: x in recs ==> !Covers(x, rows, calendarStart, r, c)
    ensures CellAfter(cell, recs, rows, calendarStart, r, c) == cell
    decreases |recs|
  {
    if |recs| > 0 {
      assert recs[0] in recs;
      assert forall y :: y in recs[1..] ==> y in recs;
      CellAfterUncovered(cell, recs[1..], rows, calendarStart, r, c);
    }
  }

  /** A record that is the only one with its name is painted in full on
      its row: every column of its span ends with that record's band, and
      painting the same record twice changes nothing. */
  lemma {:induction false} CellAfterSole(cell: Cell, recs: seq<Record>, rows: map<string, int>,
                                         calendarStart: int, x: Record, r: int, c: int)
    requires forall a, b :: a in rows && b in rows && a != b ==> rows[a] != rows[b]
    requires x.name in rows && rows[x.name] == r && x.start.Some? && x.end.Some?
    requires forall y :: y in recs && y.name == x.name ==> y == x
    requires StartCol(x, calendarStart) <= c <= EndCol(x, calendarStart)
    ensures CellAfter(cell, recs, rows, calendarStart, r, c) ==
            if x in recs then Painted(cell, SpanBand(x, calendarStart, c), c == EndCol(x, calendarStart))
            else cell
    decreases |recs|
  {
    if |recs| > 0 {
      var y := recs[0];
      var rest := recs[1..];
      assert forall z :: z in recs <==> z == y || z in rest;
      var band := SpanBand(x, calendarStart, c);
      var deadline := c == EndCol(x, calendarStart);
      if y == x {
        var cell' := Painted(cell, band, deadline);
        CellAfterSole(cell', rest, rows, calendarStart, x, r, c);
        PaintedIdempotent(cell, band, deadline);
      } else {
        assert !Covers(y, rows, calendarStart, r, c);
        CellAfterSole(cell, rest, rows, calendarStart, x, r, c);
      }
    }
  }

  /** Writes the block's week dates on its header row, from column 2 on
      (Gantt_chart.py:57-61). */
  function WriteWeekHeaders(g: Grid, row: int, weeks: seq<int>): (g': Grid)
    ensures forall r, c :: At(g', r, c) ==
              if r == row && 2 <= c < 2 + |weeks| then Heading(At(g, r, c), WeekStart(weeks[c - 2]))
              else At(g, r, c)
  {
    if |weeks| == 0 then g
    else
      var n := |weeks|;
      var g1 := WriteWeekHeaders(g, row, weeks[..n - 1]);
      Put(g1, row, n + 1, Heading(At(g1, row, n + 1), WeekStart(weeks[n - 1])))
  }

  /** Writes the task names in column 1, one per row below the header
      (Gantt_chart.py:69-74). */
  function WriteTaskLabels(g: Grid, headerRow: int, names: seq<string>): (g': Grid)
    ensures forall r, c :: At(g', r, c) ==
              if c == 1 && headerRow + 1 <= r <= headerRow + |names|
              then Heading(At(g, r, c), Label(names[r - headerRow - 1]))
              else At(g, r, c)
  {
    if |names| == 0 then g
    else
      var n := |names|;
      var g1 := WriteTaskLabels(g, headerRow, names[..n - 1]);
      Put(g1, headerRow + n, 1, Heading(At(g1, headerRow + n, 1), Label(names[n - 1])))
  }

  /** Every cell outside rows lo..hi is left alone by records whose rows
      lie in lo..hi. */
  lemma RowsFrame(recs: seq<Record>, rows: map<string, int>, calendarStart: int, lo: int, hi: int)
    requires forall x :: x in recs ==> x.name in rows && lo <= rows[x.name] <= hi
    ensures forall cell, r, c :: r < lo || r > hi ==>
              CellAfter(cell, recs, rows, calendarStart, r, c) == cell
  {
    forall cell, r, c | r < lo || r > hi
      ensures CellAfter(cell, recs, rows, calendarStart, r, c) == cell
    {
      CellAfterUncovered(cell, recs, rows, calendarStart, r, c);
    }
  }

  /** The selected records' names all have rows. */
  lemma SelectedHaveRows(recs: seq<Record>, selected: seq<string>, headerRow: int)
    ensures var sel := Selected(recs, selected);
            forall x :: x in sel ==> x.name in TaskRows(Names(sel), headerRow)
  {
    var sel := Selected(recs, selected);
    forall x | x in sel
      ensures x.name in Names(sel)
    {
      var i :| 0 <= i < |sel| && sel[i] == x;
      assert Names(sel)[i] == x.name;
    }
  }

  /** The month blocks can all be laid out: there is a selected task to give
      the row map a maximum, and no selected span starts left of column 1. */
  predicate BlockOk(recs: seq<Record>, selected: seq<string>, calendarStart: int) {
    TaskCount(recs, selected) > 0 &&
    forall x :: x in Selected(recs, selected) ==> !Faulty(x, calendarStart)
  }

  /** The written block before painting: header weeks, then name labels. */
  function BlockLabels(g: Grid, headerRow: int, weeks: seq<int>, recs: seq<Record>, selected: seq<string>): Grid {
    WriteTaskLabels(WriteWeekHeaders(g, headerRow, weeks), headerRow, Distinct(Names(Selected(recs, selected))))
  }

  /** Only dated records can be faulty, so dropping the undated ones
      keeps every fault. */
  lemma DatedFaults(recs: seq<Record>, calendarStart: int)
    ensures (forall x :: x in recs ==> !Faulty(x, calendarStart)) <==>
            (forall x :: x in Dated(recs) ==> !Faulty(x, calendarStart))
  {
    assert forall x :: x in recs && Faulty(x, calendarStart) ==> x in Dated(recs);
  }

  /** Labelling leaves a cell right of the name column below the header
      untouched. */
  lemma BlockLabelsTaskCell(g: Grid, headerRow: int, weeks: seq<int>, recs: seq<Record>, selected: seq<string>,
                            rw: int, c: int)
    requires rw > headerRow && c != 1
    ensures At(BlockLabels(g, headerRow, weeks, recs, selected), rw, c) == At(g, rw, c)
  {
    var g1 := WriteWeekHeaders(g, headerRow, weeks);
    assert At(g1, rw, c) == At(g, rw, c);
  }

  /** Labelling writes the k-th distinct name in column 1 of the k-th task
      row. */
  lemma BlockLabelsNameCell(g: Grid, headerRow: int, weeks: seq<int>, recs: seq<Record>, selected: seq<string>,
                            k: int)
    requires 0 <= k < TaskCount(recs, selected)
    ensures At(BlockLabels(g, headerRow, weeks, recs, selected), headerRow + 1 + k, 1) ==
            Heading(At(g, headerRow + 1 + k, 1), Label(Distinct(Names(Selected(recs, selected)))[k]))
  {
    var g1 := WriteWeekHeaders(g, headerRow, weeks);
    assert At(g1, headerRow + 1 + k, 1) == At(g, headerRow + 1 + k, 1);
  }

  /** The labelled block painted by the selected dated records, each on the
      row of its name (Gantt_chart.py:77-99). */
  function PaintBlock(g: Grid, headerRow: int, weeks: seq<int>, recs: seq<Record>,
                      selected: seq<string>, calendarStart: int): (r: Result<Grid, LayoutError>)
    ensures r.Success? <==> forall x :: x in Selected(recs, selected) ==> !Faulty(x, calendarStart)
    ensures r.Failure? ==> r.error == ColumnBeforeSheet
    ensures r.Success? ==> forall rw, c ::
              At(r.value, rw, c) ==
              CellAfter(At(BlockLabels(g, headerRow, weeks, recs, selected), rw, c),
                        Dated(Selected(recs, selected)), TaskRows(Names(Selected(recs, selected)), headerRow),
                        calendarStart, rw, c)
  {
    var sel := Selected(recs, selected);
    SelectedHaveRows(recs, selected, headerRow);
    DatedFaults(sel, calendarStart);
    PaintRecords(BlockLabels(g, headerRow, weeks, recs, selected), Dated(sel),
                 TaskRows(Names(sel), headerRow), calendarStart)
  }

  /** One month block (Gantt_chart.py:57-102): the week dates on the header
      row, the distinct selected task names below it, the selected dated
      records painted at their global week columns, and the next header
      row two past the last task row. */
  function LayoutBlock(g: Grid, headerRow: int, weeks: seq<int>, recs: seq<Record>,
                       selected: seq<string>, calendarStart: int): (r: Result<(Grid, int), LayoutError>)
    ensures r.Success? <==> BlockOk(recs, selected, calendarStart)
    ensures r.Failure? ==>
              r.error == if TaskCount(recs, selected) > 0 then ColumnBeforeSheet else NoTaskRows
    ensures r.Success? ==> r.value.1 == headerRow + TaskCount(recs, selected) + 2
  {
    var painted := PaintBlock(g, headerRow, weeks, recs, selected, calendarStart);
    if painted.Failure? then Failure(ColumnBeforeSheet)
    else if TaskCount(recs, selected) == 0 then Failure(NoTaskRows)
    else Success((painted.value, headerRow + TaskCount(recs, selected) + 2))
  }

  /** The next header row is the largest task row plus 2, as the source
      computes it, so one blank row separates the blocks
      (Gantt_chart.py:102). */
  lemma NextHeaderRow(g: Grid, headerRow: int, weeks: seq<int>, recs: seq<Record>,
                      selected: seq<string>, calendarStart: int)
    requires LayoutBlock(g, headerRow, weeks, recs, selected, calendarStart).Success?
    ensures var rows := TaskRows(Names(Selected(recs, selected)), headerRow);
            var next := LayoutBlock(g, headerRow, weeks, recs, selected, calendarStart).value.1;
            && (forall x :: x in rows ==> rows[x] + 2 <= next)
            && (exists x :: x in rows && rows[x] + 2 == next)
  {
    var names := Distinct(Names(Selected(recs, selected)));
    assert names[|names| - 1] in TaskRows(Names(Selected(recs, selected)), headerRow);
  }

  /** A laid-out block is the labelled block painted by the selected dated
      records. */
  lemma LayoutBlockUnfold(g: Grid, headerRow: int, weeks: seq<int>, recs: seq<Record>,
                          selected: seq<string>, calendarStart: int, rw: int, c: int)
    requires LayoutBlock(g, headerRow, weeks, recs, selected, calendarStart).Success?
    ensures At(LayoutBlock(g, headerRow, weeks, recs, selected, calendarStart).value.0, rw, c) ==
            CellAfter(At(BlockLabels(g, headerRow, weeks, recs, selected), rw, c),
                      Dated(Selected(recs, selected)), TaskRows(Names(Selected(recs, selected)), headerRow),
                      calendarStart, rw, c)
  {
    var painted := PaintBlock(g, headerRow, weeks, recs, selected, calendarStart);
    var sel := Selected(recs, selected);
    var labels := BlockLabels(g, headerRow, weeks, recs, selected);
    var dated := Dated(sel);
    var rows := TaskRows(Names(sel), headerRow);
    assert At(painted.value, rw, c) == CellAfter(At(labels, rw, c), dated, rows, calendarStart, rw, c);
    assert painted.Success? && TaskCount(recs, selected) > 0;
    assert LayoutBlock(g, headerRow, weeks, recs, selected, calendarStart) ==
           Success((painted.value, headerRow + TaskCount(recs, selected) + 2));
    assert At(LayoutBlock(g, headerRow, weeks, recs, selected, calendarStart).value.0, rw, c) ==
           At(painted.value, rw, c);
  }

  /** Outside its task rows a block writes only its header weeks, from
      column 2 on. */
  lemma LayoutBlockOutside(g: Grid, headerRow: int, weeks: seq<int>, recs: seq<Record>,
                           selected: seq<string>, calendarStart: int, rw: int, c: int)
    requires LayoutBlock(g, headerRow, weeks, recs, selected, calendarStart).Success?
    requires rw <= headerRow || rw > headerRow + TaskCount(recs, selected)
    ensures At(LayoutBlock(g, headerRow, weeks, recs, selected, calendarStart).value.0, rw, c) ==
            if rw == headerRow && 2 <= c < 2 + |weeks| then Heading(At(g, rw, c), WeekStart(weeks[c - 2]))
            else At(g, rw, c)
  {
    var sel := Selected(recs, selected);
    var rows := TaskRows(Names(sel), headerRow);
    LayoutBlockUnfold(g, headerRow, weeks, recs, selected, calendarStart, rw, c);
    SelectedHaveRows(recs, selected, headerRow);
    RowsFrame(Dated(sel), rows, calendarStart, headerRow + 1, headerRow + TaskCount(recs, selected));
  }

  /** On a task row a block paints, from column 2 on, the cells covered by
      the selected dated records and nothing else. */
  lemma LayoutBlockTaskRow(g: Grid, headerRow: int, weeks: seq<int>, recs: seq<Record>,
                           selected: seq<string>, calendarStart: int, k: int, c: int)
    requires LayoutBlock(g, headerRow, weeks, recs, selected, calendarStart).Success?
    requires 0 <= k < TaskCount(recs, selected)
    requires c != 1
    ensures At(LayoutBlock(g, headerRow, weeks, recs, selected, calendarStart).value.0, headerRow + 1 + k, c) ==
            CellAfter(At(g, headerRow + 1 + k, c), Dated(Selected(recs, selected)),
                      TaskRows(Names(Selected(recs, selected)), headerRow), calendarStart, headerRow + 1 + k, c)
  {
    BlockLabelsTaskCell(g, headerRow, weeks, recs, selected, headerRow + 1 + k, c);
    LayoutBlockUnfold(g, headerRow, weeks, recs, selected, calendarStart, headerRow + 1 + k, c);
  }

  /** The k-th task row's first cell gets the k-th distinct name (first-seen
      order), bold, bordered and centred, before any painting. */
  lemma LayoutBlockNameCell(g: Grid, headerRow: int, weeks: seq<int>, recs: seq<Record>,
                            selected: seq<string>, calendarStart: int, k: int)
    requires LayoutBlock(g, headerRow, weeks, recs, selected, calendarStart).Success?
    requires 0 <= k < TaskCount(recs, selected)
    ensures At(LayoutBlock(g, headerRow, weeks, recs, selected, calendarStart).value.0, headerRow + 1 + k, 1) ==
            CellAfter(Heading(At(g, headerRow + 1 + k, 1), Label(Distinct(Names(Selected(recs, selected)))[k])),
                      Dated(Selected(recs, selected)), TaskRows(Names(Selected(recs, selected)), headerRow),
                      calendarStart, headerRow + 1 + k, 1)
  {
    BlockLabelsNameCell(g, headerRow, weeks, recs, selected, k);
    LayoutBlockUnfold(g, headerRow, weeks, recs, selected, calendarStart, headerRow + 1 + k, 1);
  }

  /** Rows above a block's header, and the header row's first column, are
      never written by that block or any later one. */
  lemma {:induction false} LayoutBlocksFrame(g: Grid, headerRow: int, groups: seq<int>, weeks: seq<int>,
                                             monthOf: int -> int, recs: seq<Record>, selected: seq<string>,
                                             calendarStart: int, rw: int, c: int)
    requires LayoutBlocks(g, headerRow, groups, weeks, monthOf, recs, selected, calendarStart).Success?
    requires rw < headerRow || (rw == headerRow && c == 1)
    ensures At(LayoutBlocks(g, headerRow, groups, weeks, monthOf, recs, selected, calendarStart).value, rw, c)
            == At(g, rw, c)
    decreases |groups|
  {
    if |groups| > 0 {
      var b := LayoutBlock(g, headerRow, MonthWeeks(weeks, monthOf, groups[0]), recs, selected, calendarStart);
      assert b.Success?;
      LayoutBlockOutside(g, headerRow, MonthWeeks(weeks, monthOf, groups[0]), recs, selected, calendarStart, rw, c);
      LayoutBlocksFrame(b.value.0, b.value.1, groups[1..], weeks, monthOf, recs, selected, calendarStart, rw, c);
    }
  }

  /** All month blocks in order, each starting where the previous one left
      the cursor (Gantt_chart.py:55-102). */
  function LayoutBlocks(g: Grid, headerRow: int, groups: seq<int>, weeks: seq<int>, monthOf: int -> int,
                        recs: seq<Record>, selected: seq<string>, calendarStart: int)
    : (r: Result<Grid, LayoutError>)
    ensures r.Success? <==> |groups| == 0 || BlockOk(recs, selected, calendarStart)
    decreases |groups|
  {
    if |groups| == 0 then Success(g)
    else
      var b :- LayoutBlock(g, headerRow, MonthWeeks(weeks, monthOf, groups[0]), recs, selected, calendarStart);
      LayoutBlocks(b.0, b.1, groups[1..], weeks, monthOf, recs, selected, calendarStart)
  }

  /** The whole layout pass (Gantt_chart.py:35-102): the corner label, then
      one block per month of header weeks. */
  function BuildChart(recs: seq<Record>, selected: seq<string>, monthOf: int -> int): (r: Result<Grid, LayoutError>)
    ensures r.Success? <==>
              && CalendarOrigin(recs).Success?
              && CalendarEnd(recs).Success?
              && (|WeekList(CalendarOrigin(recs).value, CalendarEnd(recs).value)| == 0 ||
                  BlockOk(recs, selected, CalendarOrigin(recs).value))
  {
    var calendarStart :- CalendarOrigin(recs);
    var calendarEnd :- CalendarEnd(recs);
    var weeks := WeekList(calendarStart, calendarEnd);
    var groups := MonthGroups(weeks, monthOf);
    assert |weeks| == 0 || monthOf(weeks[0]) in groups;
    var g0 := Put(map[], 1, 1, Blank.(text := Some(Label(CornerLabel))));
    LayoutBlocks(g0, 1, groups, weeks, monthOf, recs, selected, calendarStart)
  }

  /** The corner label survives the whole pass, so the first row is never
      empty and the removal of two leading empty rows
      (Gantt_chart.py:105-106) never applies. */
  lemma ChartKeepsCorner(recs: seq<Record>, selected: seq<string>, monthOf: int -> int)
    requires BuildChart(recs, selected, monthOf).Success?
    ensures At(BuildChart(recs, selected, monthOf).value, 1, 1).text == Some(Label(CornerLabel))
  {
    var calendarStart := CalendarOrigin(recs).value;
    var weeks := WeekList(calendarStart, CalendarEnd(recs).value);
    var g0 := Put(map[], 1, 1, Blank.(text := Some(Label(CornerLabel))));
    LayoutBlocksFrame(g0, 1, MonthGroups(weeks, monthOf), weeks, monthOf, recs, selected, calendarStart, 1, 1);
  }
}
