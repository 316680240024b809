/** The three colour bands a task's week span is split into
    (Gantt_chart.py:82-96). */
module Bands {

  datatype Band = Early | Mid | Late

  /** Fill colour of each band, as the hex strings of the colour list. */
  function Colour(b: Band): string {
    match b
    case Early => "0DACDC"
    case Mid => "ECDA2F"
    case Late => "F11D1A"
  }

  /** Distinct bands have distinct fills, so a cell that records its band
      records its colour. */
  lemma ColourDistinct(b1: Band, b2: Band)
    ensures Colour(b1) == Colour(b2) <==> b1 == b2
  {
  }

  /** Position of the band in the early-to-late order. */
  function Rank(b: Band): nat {
    match b
    case Early => 0
    case Mid => 1
    case Late => 2
  }

  /** Band of the cell `offset` columns after the first column of a span of
      `span` columns, using the source's thresholds. The mid threshold adds 1
      even when the remainder is 0. Python's // and % agree with Dafny's for
      the positive divisor 3. Within a span the bands are three contiguous
      runs, early then mid then late, of the lengths RunLengths gives, so
      every column of the span gets exactly one band. */
  function BandAt(offset: int, span: int): (b: Band)
    ensures span >= 1 && 0 <= offset < span ==>
              b == if offset < RunLengths(span).0 then Early
                   else if offset < RunLengths(span).0 + RunLengths(span).1 then Mid
                   else Late
  {
    var base := span / 3;
    var rem := span % 3;
    if offset < base + (if rem > 0 then 1 else 0) then Early
    else if offset < 2 * base + (if rem > 1 then 2 else 1) then Mid
    else Late
  }

  /** Run lengths of the three bands, stated from the span alone:
      early is the span divided by 3 rounded up, late is the span divided
      by 3 rounded down, less one more when 3 divides the span, and mid takes
      the rest. */
  function RunLengths(span: int): (lengths: (nat, nat, nat))
    requires span >= 1
    ensures lengths.0 + lengths.1 + lengths.2 == span
    ensures lengths.0 >= 1
    ensures lengths.0 - 1 <= lengths.1 <= lengths.0 + 1
  {
    var early := (span + 2) / 3;
    var late := if span % 3 == 0 then span / 3 - 1 else span / 3;
    (early, span - early - late, late)
  }

  /** Band ranks never decrease from left to right within a span. */
  lemma BandRankMonotone(span: int, o1: int, o2: int)
    requires span >= 1 && o1 <= o2
    ensures Rank(BandAt(o1, span)) <= Rank(BandAt(o2, span))
  {
  }

  /** The first column of a span is always early, and the last column is
      late exactly when the span is not 1, 2 or 3 columns long. */
  lemma BandEnds(span: int)
    requires span >= 1
    ensures BandAt(0, span) == Early
    ensures BandAt(span - 1, span) == Late <==> span >= 4
  {
  }

  /** With a remainder of 0 the mid band takes one column more than a third
      and the late band one fewer: a 3-week span reads early, mid, mid. */
  lemma ExactThirdsQuirk(span: int)
    requires span >= 3 && span % 3 == 0
    ensures RunLengths(span) == (span / 3, span / 3 + 1, span / 3 - 1)
    ensures [BandAt(0, 3), BandAt(1, 3), BandAt(2, 3)] == [Early, Mid, Mid]
  {
  }

  /** Near-equal thirds with the remainder going to the earliest bands and
      the late band always a full third. */
  function EvenThirdsBandAt(offset: int, span: int): (b: Band)
    requires span >= 1 && 0 <= offset < span
    ensures Rank(b) == 0 <==> 3 * offset < span
    ensures Rank(b) == 2 <==> offset >= span - span / 3
  {
    var base := span / 3;
    var rem := span % 3;
    if offset < base + (if rem > 0 then 1 else 0) then Early
    else if offset < 2 * base + (if rem > 1 then 2 else if rem > 0 then 1 else 0) then Mid
    else Late
  }

  /** The source's bands equal near-equal thirds everywhere except the one
      column at offset 2*(span/3) of a span divisible by 3, which the source
      colours mid instead of late. */
  lemma BandDiffersFromEvenThirds(span: int, offset: int)
    requires span >= 1 && 0 <= offset < span
    ensures BandAt(offset, span) != EvenThirdsBandAt(offset, span)
            <==> span % 3 == 0 && offset == 2 * (span / 3)
    ensures span % 3 == 0 && offset == 2 * (span / 3) ==>
              BandAt(offset, span) == Mid && EvenThirdsBandAt(offset, span) == Late
  {
  }
}
