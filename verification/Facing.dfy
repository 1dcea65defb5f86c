/** Which row of one side sits level with a row of the other. */
module Facing {
  import opened Wrappers
  import opened Alignments
  import opened Cells

  /** The row a side has at a padded row, or the last row of its run so far. */
  function RowAtOrAbove(a: Alignment, side: Side, aligned: nat): nat {
    match a.RowAt(side, aligned)
    case Some(row) => row
    case None =>
      var point := PartitionPoint(a.AlignedStarts(), aligned);
      if point == 0 || a.runs[point - 1].On(side).end == 0 then 0 else a.runs[point - 1].On(side).end - 1
  }

  /** Where to look on the other side for a row of side `from`. */
  function FacingRow(a: Alignment, from: Side, row: nat): nat {
    RowAtOrAbove(a, from.Opposite(), a.AlignedRow(from, row))
  }

  /** The first row met when padded rows are tried one by one, going up. */
  function ScanUp(a: Alignment, side: Side, aligned: nat): nat {
    match a.RowAt(side, aligned)
    case Some(row) => row
    case None => if aligned == 0 then 0 else ScanUp(a, side, aligned - 1)
  }

  function Before(n: nat): nat {
    if n == 0 then 0 else n - 1
  }

  lemma {:induction false} CountStep(cells: seq<Cell>, side: Side, k: nat)
    requires k < |cells|
    ensures Count(cells[..k + 1], side) == Count(cells[..k], side) + if cells[k].On(side) then 1 else 0
  {
    assert cells[..k + 1][..k] == cells[..k];
  }

  /** Scanning upwards counts the real rows down to and including the start. */
  lemma {:induction false} ScanCounts(a: Alignment, side: Side, aligned: nat)
    requires a.WellFormed() && aligned < a.height
    ensures |Layout(a)| == a.height
    ensures ScanUp(a, side, aligned) == Before(Count(Layout(a)[..aligned + 1], side))
  {
    hide Alignment.RowAt, Flatten, Count;
    RowAtCounts(a, side, aligned);
    CountStep(Layout(a), side, aligned);
    if !Layout(a)[aligned].On(side) {
      if aligned > 0 {
        ScanCounts(a, side, aligned - 1);
      } else {
        CountNothing(Layout(a), side);
      }
    }
  }

  lemma {:induction false} CountNothing(cells: seq<Cell>, side: Side)
    ensures Count(cells[..0], side) == 0
  {
  }

  /** The lookup through the run counts the same rows. */
  lemma {:induction false} LookupCounts(a: Alignment, side: Side, aligned: nat)
    requires a.WellFormed() && aligned < a.height
    ensures |Layout(a)| == a.height
    ensures RowAtOrAbove(a, side, aligned) == Before(Count(Layout(a)[..aligned + 1], side))
  {
    hide PartitionPoint, Flatten, Count, Alignment.RowAt;
    RowAtCounts(a, side, aligned);
    CountStep(Layout(a), side, aligned);
    var i := RunOfAligned(a, aligned);
    var offset := aligned - a.runs[i].aligned;
    RowAtIs(a, side, i, offset);
    CellInRun(a.runs, side, i, offset);
    assert RunFits(a.runs, i);
  }

  /** Finding the row through its run is scanning upwards, for every aligned
      row, filler and overflow included. */
  lemma {:induction false} LookupIsScan(a: Alignment, side: Side, aligned: nat)
    requires a.WellFormed()
    ensures RowAtOrAbove(a, side, aligned) == ScanUp(a, side, aligned)
  {
    if aligned < a.height {
      LookupCounts(a, side, aligned);
      ScanCounts(a, side, aligned);
    }
  }

  lemma {:induction false} LookupPastEnd(a: Alignment, side: Side, aligned: nat)
    requires aligned >= a.height
    ensures RowAtOrAbove(a, side, aligned) == a.Lines(side) + (aligned - a.height)
  {
  }

  lemma {:induction false} LookupAscends(a: Alignment, side: Side, lo: nat, hi: nat)
    requires a.WellFormed() && lo <= hi
    ensures RowAtOrAbove(a, side, lo) <= RowAtOrAbove(a, side, hi)
  {
    hide RowAtOrAbove, Flatten, Count, Alignment.WellFormed;
    LayoutSize(a);
    if hi < a.height {
      LookupCounts(a, side, lo);
      LookupCounts(a, side, hi);
      CountOfPrefix(Layout(a), side, lo + 1, hi + 1);
    } else if lo < a.height {
      LookupCounts(a, side, lo);
      LookupPastEnd(a, side, hi);
      assert Layout(a)[..a.height] == Layout(a);
      CountOfPrefix(Layout(a), side, lo + 1, a.height);
    } else {
      LookupPastEnd(a, side, lo);
      LookupPastEnd(a, side, hi);
    }
  }

  /** Facing rows never cross: a lower row never faces a higher one. */
  lemma {:induction false} FacingAscends(a: Alignment, from: Side, lower: nat, upper: nat)
    requires a.WellFormed() && lower <= upper
    ensures FacingRow(a, from, lower) <= FacingRow(a, from, upper)
  {
    if lower < upper {
      AlignedRowIncreases(a, from, lower, upper);
      LookupAscends(a, from.Opposite(), a.AlignedRow(from, lower), a.AlignedRow(from, upper));
    }
  }

  /** A row that does not face filler faces a row that faces it back, and the
      two are level; a row that faces filler is level with no row at all. */
  lemma {:induction false} FacingIsMutual(a: Alignment, from: Side, row: nat)
    requires a.WellFormed()
    ensures a.RowAt(from.Opposite(), a.AlignedRow(from, row)).Some? ==>
              && a.Level(from, row, FacingRow(a, from, row))
              && FacingRow(a, from.Opposite(), FacingRow(a, from, row)) == row
    ensures a.RowAt(from.Opposite(), a.AlignedRow(from, row)).None? ==>
              forall other: nat :: !a.Level(from, row, other)
  {
    hide Alignment.RowAt, Alignment.AlignedRow, PartitionPoint;
    var aligned := a.AlignedRow(from, row);
    var opposite := from.Opposite();
    EveryRowIsFoundAgain(a, from, row);
    if a.RowAt(opposite, aligned).Some? {
      EveryShownRowMapsBack(a, opposite, aligned);
    } else {
      forall other: nat ensures !a.Level(from, row, other) {
        EveryRowIsFoundAgain(a, opposite, other);
      }
    }
  }

  /** No row of `side` is at padded row `aligned` or above, or `row` is the last
      of those that are. */
  ghost predicate NearestAbove(a: Alignment, side: Side, aligned: nat, row: nat) {
    if forall other: nat :: a.AlignedRow(side, other) > aligned then row == 0
    else
      && a.AlignedRow(side, row) <= aligned
      && forall other: nat :: a.AlignedRow(side, other) <= aligned ==> other <= row
  }

  lemma {:induction false} ScanIsNearest(a: Alignment, side: Side, aligned: nat)
    requires a.WellFormed()
    ensures NearestAbove(a, side, aligned, ScanUp(a, side, aligned))
  {
    hide Alignment.RowAt, Alignment.AlignedRow, Alignment.WellFormed;
    if a.RowAt(side, aligned).Some? {
      var row := a.RowAt(side, aligned).value;
      EveryShownRowMapsBack(a, side, aligned);
      forall other: nat | a.AlignedRow(side, other) <= aligned ensures other <= row {
        if row < other {
          AlignedRowIncreases(a, side, row, other);
        }
      }
    } else {
      forall other: nat ensures a.AlignedRow(side, other) != aligned {
        EveryRowIsFoundAgain(a, side, other);
      }
      if aligned > 0 {
        ScanIsNearest(a, side, aligned - 1);
      }
    }
  }

  /** A row faces the row it is level with, or, where that is filler, the nearest
      one above, or the first if there is none. */
  lemma {:induction false} FacingIsNearest(a: Alignment, from: Side, row: nat)
    requires a.WellFormed()
    ensures NearestAbove(a, from.Opposite(), a.AlignedRow(from, row), FacingRow(a, from, row))
  {
    hide Alignment.RowAt, Alignment.AlignedRow, ScanUp, NearestAbove, RowAtOrAbove, Alignment.WellFormed;
    LookupIsScan(a, from.Opposite(), a.AlignedRow(from, row));
    ScanIsNearest(a, from.Opposite(), a.AlignedRow(from, row));
  }
}
