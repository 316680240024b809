# Gantt chart layout, modelled in Dafny

The Streamlit tool `Gantt_chart.py` reads a schedule export. Each record has:
- a task name (作業名);
- a process category (工程);
- planned start and end dates;
- an inheritance-start date (相続開始日).

Its "create chart" button lays out an Excel Gantt chart. This project models that layout pass as pure functions and proves what the finished sheet contains.

- **Calendar** (`calendar.dfy`): dates are integer day numbers, with day 0 a Monday.
  - The calendar origin is the Monday of the week of the earliest inheritance-start date.
  - The header weeks are every Monday from the origin through the latest end date.
  - A date's sheet column is its week offset from the origin plus 2.
- **Bands** (`bands.dfy`): a task's week span is split into early, mid and late colour bands. The split uses the source's thresholds, including the mid-band threshold that adds 1 when the span is a multiple of 3.
- **Rows** (`rows.dfy`): the distinct selected task names, in first-seen order, go to the rows just below the current header.
- **Months** (`months.dfy`): the header weeks are grouped by month, one block per month in order of first appearance.
  - `monthOf` is a parameter.
  - The grouping is defined for any such function.
  - The partition and chronology lemmas assume only that `monthOf` is monotone.
- **Sheet** (`sheet.dfy`): the worksheet is a map from (row, column) to an abstract cell: text, bold, bordered, centred, band fill. A cell never written reads as `Blank`.
- **Layout** (`layout.dfy`): builds the chart in order:
  - the corner label;
  - for each month block: its header weeks from column 2, the name labels, then every selected dated record's span painted at its global week columns;
  - the cursor moves to the last task row plus 2.

  Source errors become `Result` failures:
  - `NoCalendarBound`: no inheritance-start or no end date, so the date range cannot be built.
  - `ColumnBeforeSheet`: a span begins left of column 1, and the sheet refuses the cell.
  - `NoTaskRows`: a month block has no task rows, and taking the largest row of an empty mapping raises.
- **Chart** (`chart.dfy`): properties of the finished sheet, month block by month block. Block j starts on row `BlockRow(1, n, j) = 1 + j*(n+2)`, where n is the number of distinct selected names.

Four behaviours of the code are modelled as written:
- **Mid band on a multiple of 3.** When 3 divides the span, the mid band gets one column more than a third and the late band one fewer, so a 3-week span reads early, mid, mid. `Bands.BandDiffersFromEvenThirds` shows that this is the only place the code differs from a near-equal-thirds split.
- **Spans are not clipped per month.** Each month block repeats every task's full span at its global columns, deadline label included (`Chart.ChartTaskSpan`).
- **Rows for tasks without dates.** Rows are given out before records with missing dates are dropped. Such names still get a labelled, otherwise empty row (`Chart.ChartDatelessRow`).
- **Empty selection.** When no record is selected and there is at least one header week, the chart fails with `NoTaskRows` rather than showing headers alone.

The comment at `Gantt_chart.py:101` speaks of two blank rows between months. The cursor update on line 102 leaves one blank row, and the model follows the code (`Chart.ChartSeparatorRow`).

## Model

| member | source | states |
|---|---|---|
| Calendar.MondayOf | Gantt_chart.py:36 | the result is a Monday within the 7 days ending at the date, and is the only Monday with that property |
| Calendar.MinPresent | Gantt_chart.py:35 | no result exactly when every date is missing; otherwise a present date no later than any other present date |
| Calendar.MaxPresent | Gantt_chart.py:37 | no result exactly when every date is missing; otherwise a present date no earlier than any other present date |
| Calendar.WeekList | Gantt_chart.py:38 | entry k is the first Monday on or after the start plus 7k days, and a day is listed exactly when it is a Monday between start and end |
| Calendar.WeekListIncreasing | Gantt_chart.py:38 | the week list is strictly increasing |
| Calendar.WeekColumn | Gantt_chart.py:80-81 | column c is the one whose week, starting 7(c-2) days after the origin, contains the date |
| Calendar.WeekColumnMonotone | Gantt_chart.py:80-81 | a later date never maps to an earlier column |
| Calendar.WeekColumnOfWeek | Gantt_chart.py:80-81 | the origin maps to column 2, and every day of a Monday-to-Sunday week maps to that Monday's column |
| Calendar.WeekListColumns | Gantt_chart.py:80-81 | the k-th header week maps to column k + 2 |
| Bands.BandAt | Gantt_chart.py:83-95 | inside a span, the band of each column follows three consecutive runs, early then mid then late, of the lengths Bands.RunLengths gives, so each column gets exactly one band |
| Bands.ColourDistinct | Gantt_chart.py:46 | the three band colours are pairwise different, so a cell that stores its band determines its fill colour |
| Bands.RunLengths | Gantt_chart.py:82-95 | the three band lengths sum to the span, the early band is never empty, and mid differs from early by at most one |
| Bands.BandRankMonotone | Gantt_chart.py:86-96 | band order never steps back from left to right within a span |
| Bands.BandEnds | Gantt_chart.py:90-95 | the first column is early, and the last column is late exactly when the span has at least 4 columns |
| Bands.ExactThirdsQuirk | Gantt_chart.py:92 | with a remainder of 0 the runs are a third, a third plus one, and a third minus one; 3 columns read early, mid, mid |
| Bands.BandDiffersFromEvenThirds | Gantt_chart.py:90-95 | the coded bands agree with near-equal thirds except at column 2(span/3) of a span divisible by 3, which is mid instead of late |
| Rows.Distinct | Gantt_chart.py:68 | every name appears in the result, exactly once, and nothing else does |
| Rows.DistinctFirstSeen | Gantt_chart.py:68 | the distinct names appear in the order of their first occurrence in the input |
| Rows.DistinctOrder | Gantt_chart.py:68 | one distinct name precedes another exactly when it first occurs earlier in the input |
| Rows.TaskRows | Gantt_chart.py:68 | the row map has exactly the input names as keys, maps the i-th distinct name to header + 1 + i, stays within header + 1 .. header + n, and is one-to-one |
| Rows.TaskRowsOrder | Gantt_chart.py:68 | one name's row is above another's exactly when it first occurs earlier |
| Months.MonthGroups | Gantt_chart.py:54 | each group is the month of some week, every week's month is a group, and no month is repeated |
| Months.MonthWeeks | Gantt_chart.py:56 | a block holds exactly the header weeks of its month |
| Months.MonthWeeksIncreasing | Gantt_chart.py:56 | a block's weeks keep chronological order |
| Months.GroupsIncreasing | Gantt_chart.py:54 | for a monotone month function, the month groups come in increasing order |
| Months.BlocksChronological | Gantt_chart.py:54-56 | every week of an earlier block precedes every week of a later block |
| Months.BlocksPartitionWeeks | Gantt_chart.py:54-56 | concatenating the blocks in group order gives back the whole week list, so the blocks partition it |
| Layout.CalendarOrigin | Gantt_chart.py:35-36 | fails exactly when no inheritance-start date is present; otherwise a Monday no later than every such date and at most 6 days before one of them |
| Layout.CalendarEnd | Gantt_chart.py:37 | fails exactly when no end date is present; otherwise the latest end date |
| Layout.Selected | Gantt_chart.py:65 | keeps exactly the records whose category is selected, and never more records than the input |
| Layout.SelectedAppend | Gantt_chart.py:65 | the category filter keeps input order and repeats: filtering a concatenation concatenates the filtered parts, and one record is either kept alone or dropped |
| Layout.Dated | Gantt_chart.py:77 | keeps exactly the records with both a start and an end date, and never more records than the input |
| Layout.DatedAppend | Gantt_chart.py:77 | dropping records with a missing date keeps input order and repeats, in the same concatenation and single-record sense |
| Layout.Faulty | Gantt_chart.py:80-87 | a faulty record's start lies more than a week before the origin, and every dated record with such a start and start <= end is faulty, so its first cell falls left of column 1, which the sheet refuses |
| Layout.TaskCount | Gantt_chart.py:65-68 | the number of task rows is positive exactly when some record is selected |
| Sheet.Heading | Gantt_chart.py:58-61 | a header or name cell gets its text in bold, with a border, centred, and keeps its fill (the name labels of lines 70-73 are written the same way) |
| Sheet.Painted | Gantt_chart.py:87-99 | a painted cell gets a border and its band's fill; the deadline cell also gets the deadline label and is centred; other cells keep their text and alignment |
| Layout.PaintTask | Gantt_chart.py:82-99 | fails exactly when a non-empty span starts left of column 1; otherwise paints the span's columns on the task row with their bands, labels the end column, and changes no other cell |
| Layout.PaintTaskBands | Gantt_chart.py:86-99 | every column of a span gets a fill and a border, band order never steps back, the end column carries the deadline label, and no other column gains it |
| Layout.PaintRecords | Gantt_chart.py:78-99 | fails exactly when some record is faulty; otherwise every cell equals its old contents painted in turn by each record whose span covers it |
| Layout.CellAfterUncovered | Gantt_chart.py:78-99 | a cell that no record's span covers keeps its contents |
| Layout.CellAfterSole | Gantt_chart.py:86-99 | a cell in the span of the only record of its name ends up painted with that record's band, and carries the deadline label exactly on its end column |
| Layout.WriteWeekHeaders | Gantt_chart.py:57-61 | the header row holds the month's weeks, in order, in columns 2 onward, as bold, bordered, centred headings; other cells are unchanged |
| Layout.WriteTaskLabels | Gantt_chart.py:69-73 | column 1 of the row below the header by i holds the i-th name as a heading; other cells are unchanged |
| Layout.PaintBlock | Gantt_chart.py:77-99 | fails exactly when some selected record is faulty; otherwise every cell is the labelled block painted by the selected dated records on their name rows |
| Layout.LayoutBlock | Gantt_chart.py:57-102 | succeeds exactly when some task is selected and none is faulty, reporting which error otherwise; the next header row is n + 2 rows further down |
| Layout.NextHeaderRow | Gantt_chart.py:102 | the next header row is the largest task row plus 2, below every task row |
| Layout.LayoutBlockOutside | Gantt_chart.py:57-102 | outside its task rows a block writes only its header weeks |
| Layout.LayoutBlockTaskRow | Gantt_chart.py:77-99 | right of the name column, the k-th task row is painted by exactly the dated records of that row's name |
| Layout.LayoutBlockNameCell | Gantt_chart.py:68-74 | the k-th task row's first cell is the k-th distinct name as a heading, then painted by any spans that reach column 1 |
| Layout.LayoutBlocksFrame | Gantt_chart.py:55-102 | the blocks never touch rows above the first header or the first header's name column |
| Layout.LayoutBlocks | Gantt_chart.py:55-102 | the block loop succeeds exactly when there are no months, or every block can be laid out |
| Layout.BuildChart | Gantt_chart.py:35-102 | succeeds exactly when both calendar bounds exist and the week list is empty or the blocks can be laid out |
| Layout.ChartKeepsCorner | Gantt_chart.py:105-106 | the corner label survives, so the first row is never empty and the leading-row deletion never applies |
| Chart.BlockRowStride | Gantt_chart.py:102 | the j-th block's header row is the first header plus j(n + 2) |
| Chart.LayoutBlocksRows | Gantt_chart.py:55-102 | the rows of the j-th block and the row below it hold, on the finished sheet, what that block lays out on an empty sheet |
| Chart.ChartBlockRows | Gantt_chart.py:51-102 | the same on the whole chart: the rows of block j are that month's block laid out alone |
| Chart.ChartSeparatorRow | Gantt_chart.py:101-102 | the row right after each block's last task row is empty in every column |
| Chart.ChartHeaderRow | Gantt_chart.py:57-61 | block j's header row holds that month's weeks in columns 2 .. k + 1, and nothing else past the name column |
| Chart.ChartNameLabel | Gantt_chart.py:68-73 | if no selected task starts before the origin, row k under every header is labelled with the k-th distinct name |
| Chart.ChartTaskSpan | Gantt_chart.py:78-99 | a task that is the only dated record of its name is painted in full, with its bands and deadline, under every month header |
| Chart.ChartUnpaintedCell | Gantt_chart.py:77-99 | a task-row cell right of the name column that no span of that name covers stays empty in every block |
| Chart.ChartDatelessLabel | Gantt_chart.py:68-77 | a name with no dated selected record keeps its label in every block |
| Chart.ChartDatelessRow | Gantt_chart.py:68-77 | a name with no dated selected record has its label in column 1 of every block and nothing else on its row |

## Left out

- Streamlit UI: the title, uploader, category multiselect, button and download are interactive I/O. The selected categories are a parameter.
- CSV reading, column dropping and date parsing with `errors='coerce'`: these are pandas ingestion. The model starts from records with optional integer dates, and an unparseable date is a missing one.
- Gregorian months: pandas month periods are replaced by the `monthOf` parameter.
- Date formatting: a header cell holds its Monday as a day number instead of the `%Y-%m-%d` string.
- openpyxl styling and saving:
  - Font, border, alignment and fill objects become the abstract cell's fields.
  - Column widths (line 62), row heights (line 74), the column auto-fit (lines 108-121) and the workbook save are not modelled.
- Exceptions: they become `Result` errors, which name the failure but not the exception type.
- Leading-rows deletion (lines 105-106): not modelled as an operation. `Layout.ChartKeepsCorner` proves it never applies.
- Bands.RunLengths: stated only for spans of at least one column. An empty or inverted span paints nothing, which `Layout.PaintTask` states.
- Chart.ChartNameLabel: assumes no selected task starts before the calendar origin. A start in the week before the origin lands in column 1 and paints over the label cell. That case is stated, without this assumption, by `Layout.LayoutBlockNameCell`.
- Chart.ChartTaskSpan: stated only for a task that is the only dated record of its name. Records that share a name paint the same row in order, the later over the earlier. `Layout.PaintBlock` states this in general.
