/** The worksheet as a map from (row, column) to an abstract cell: its text,
    whether it is bold, bordered and centred, and its band fill. A cell
    never written reads as Blank. */
module Sheet {
  import opened Wrappers
  import opened Bands

  /** Text of a cell: a label, or a header week written as its date. */
  datatype Text = Label(s: string) | WeekStart(day: int)

  datatype Cell = Cell(text: Option<Text>, bold: bool, bordered: bool, centered: bool, fill: Option<Band>)

  type Grid = map<(int, int), Cell>

  const Blank := Cell(None, false, false, false, None)

  /** Label of the top-left corner cell, the name column's heading. */
  const CornerLabel := "作業名"

  /** Label written on the last column of every task span. */
  const DeadlineLabel := "提出期限"

  function At(g: Grid, row: int, col: int): Cell {
    if (row, col) in g then g[(row, col)] else Blank
  }

  function Put(g: Grid, row: int, col: int, c: Cell): (g': Grid)
    ensures At(g', row, col) == c
    ensures forall r, k :: (r, k) != (row, col) ==> At(g', r, k) == At(g, r, k)
  {
    g[(row, col) := c]
  }

  /** A cell after a header or name label is written into it: the text, in
      bold, bordered and centred; its fill is kept. */
  function Heading(c: Cell, t: Text): (h: Cell)
    ensures h.text == Some(t) && h.bold && h.bordered && h.centered
    ensures h.fill == c.fill
  {
    c.(text := Some(t), bold := true, bordered := true, centered := true)
  }

  /** A cell after a task span paints it: bordered and filled with the band;
      the deadline cell also gets the deadline label, centred. Other text is
      kept. */
  function Painted(c: Cell, b: Band, deadline: bool): (p: Cell)
    ensures p.fill == Some(b) && p.bordered && p.bold == c.bold
    ensures p.text == if deadline then Some(Label(DeadlineLabel)) else c.text
    ensures p.centered == (deadline || c.centered)
  {
    var c' := c.(bordered := true, fill := Some(b));
    if deadline then c'.(text := Some(Label(DeadlineLabel)), centered := true) else c'
  }

  /** Painting a cell twice with the same band is painting it once. */
  lemma PaintedIdempotent(c: Cell, b: Band, deadline: bool)
    ensures Painted(Painted(c, b, deadline), b, deadline) == Painted(c, b, deadline)
  {
  }
}
