/** Runs of lines over two texts, the padded rows they lay out, and the lookups
    from either side's rows to padded rows and back. */
module Alignments {
  import opened Wrappers

  /** Left or right; every row is a row of one of them. */
  datatype Side = Left | Right {
    function Opposite(): Side {
      if Left? then Right else Left
    }
  }

  datatype RunKind = Equal | Replaced | Inserted | Deleted

  /** A half-open range of zero-based rows. */
  datatype Rows = Rows(start: nat, end: nat) {
    function Len(): nat {
      if start <= end then end - start else 0
    }
  }

  /** Rows of both sides that are paired up from `aligned` on; the shorter side
      is padded. */
  datatype Run = Run(kind: RunKind, left: Rows, right: Rows, aligned: nat) {
    function On(side: Side): Rows {
      if side == Left then left else right
    }

    function Height(): nat {
      if left.Len() > right.Len() then left.Len() else right.Len()
    }
  }

  /** What a reader is told happened to one row. */
  datatype Change = Added | Removed | Changed

  /** Index of the first element greater than `x`, found by bisection. */
  function PartitionPoint(starts: seq<nat>, x: nat): (index: nat)
    ensures index <= |starts|
    ensures index > 0 ==> starts[index - 1] <= x
    ensures index < |starts| ==> starts[index] > x
  {
    Bisect(starts, x, 0, |starts|)
  }

  function Bisect(starts: seq<nat>, x: nat, lo: nat, hi: nat): (index: nat)
    requires lo <= hi <= |starts|
    requires lo > 0 ==> starts[lo - 1] <= x
    requires hi < |starts| ==> starts[hi] > x
    ensures lo <= index <= hi
    ensures index > 0 ==> starts[index - 1] <= x
    ensures index < |starts| ==> starts[index] > x
    decreases hi - lo
  {
    if lo == hi then lo
    else
      var mid := (lo + hi) / 2;
      if starts[mid] <= x then Bisect(starts, x, mid + 1, hi) else Bisect(starts, x, lo, mid)
  }

  /** Where run `i` has to start on `side`: at the end of the run before it. */
  function SideAt(runs: seq<Run>, side: Side, i: nat): nat
    requires i <= |runs|
  {
    if i == 0 then 0 else runs[i - 1].On(side).end
  }

  /** The heights of the first `i` runs, added up. */
  function AlignedAt(runs: seq<Run>, i: nat): nat
    requires i <= |runs|
  {
    if i == 0 then 0 else runs[i - 1].aligned + runs[i - 1].Height()
  }

  /** The kind of a run says exactly which of its sides have lines. */
  predicate KindMatches(run: Run) {
    match run.kind
    case Equal => run.left.Len() == run.right.Len() > 0
    case Replaced => run.left.Len() > 0 && run.right.Len() > 0
    case Inserted => run.left.Len() == 0 && run.right.Len() > 0
    case Deleted => run.left.Len() > 0 && run.right.Len() == 0
  }

  predicate RunFits(runs: seq<Run>, i: nat)
    requires i < |runs|
  {
    && runs[i].left.start == SideAt(runs, Left, i) <= runs[i].left.end
    && runs[i].right.start == SideAt(runs, Right, i) <= runs[i].right.end
    && runs[i].aligned == AlignedAt(runs, i)
    && KindMatches(runs[i])
  }

  /** Runs are contiguous and ascending on both sides and in aligned space. */
  predicate Chained(runs: seq<Run>) {
    forall i :: 0 <= i < |runs| ==> RunFits(runs, i)
  }

  /** All runs of two texts, how many padded rows they take, and the lines of
      each text. */
  datatype Alignment = Alignment(runs: seq<Run>, height: nat, leftLines: nat, rightLines: nat) {

    function Lines(side: Side): nat {
      if side == Left then leftLines else rightLines
    }

    /** The runs cover both texts exactly, and the aligned space with them. */
    predicate WellFormed() {
      && Chained(runs)
      && leftLines == SideAt(runs, Left, |runs|)
      && rightLines == SideAt(runs, Right, |runs|)
      && height == AlignedAt(runs, |runs|)
    }

    function Starts(side: Side): (starts: seq<nat>)
      ensures |starts| == |runs|
      ensures forall i :: 0 <= i < |runs| ==> starts[i] == runs[i].On(side).start
    {
      seq(|runs|, i requires 0 <= i < |runs| => runs[i].On(side).start)
    }

    function AlignedStarts(): (starts: seq<nat>)
      ensures |starts| == |runs|
      ensures forall i :: 0 <= i < |runs| ==> starts[i] == runs[i].aligned
    {
      seq(|runs|, i requires 0 <= i < |runs| => runs[i].aligned)
    }

    /** The run with `row` among its rows on a side, found by bisection. */
    function RunAt(side: Side, row: nat): Option<Run> {
      var point := PartitionPoint(Starts(side), row);
      if point == 0 then None
      else
        var run := runs[point - 1];
        if row < run.On(side).end then Some(run) else None
    }

    /** What happened to a row: nothing in an equal run, otherwise what the kind of
        its run says of that side. */
    function ChangeAt(side: Side, row: nat): Option<Change> {
      match RunAt(side, row)
      case None => None
      case Some(run) =>
        match (run.kind, side)
        case (Equal, _) => None
        case (Replaced, _) => Some(Changed)
        case (Inserted, Right) => Some(Added)
        case (Deleted, Left) => Some(Removed)
        case (Inserted, Left) => None
        case (Deleted, Right) => None
    }

    /** The padded row of a side's row; rows past its end go on counting. */
    function AlignedRow(side: Side, row: nat): nat {
      match RunAt(side, row)
      case Some(run) => run.aligned + (if row >= run.On(side).start then row - run.On(side).start else 0)
      case None => height + (if row >= Lines(side) then row - Lines(side) else 0)
    }

    /** The inverse: what a side has at a padded row, if it is not padding there. */
    function RowAt(side: Side, aligned: nat): Option<nat> {
      if aligned >= height then Some(Lines(side) + (aligned - height))
      else
        var point := PartitionPoint(AlignedStarts(), aligned);
        if point == 0 then None
        else
          var run := runs[point - 1];
          var offset := if aligned >= run.aligned then aligned - run.aligned else 0;
          if offset < run.On(side).Len() then Some(run.On(side).start + offset) else None
    }

    /** Two rows are level when they share an aligned row. */
    predicate Level(side: Side, row: nat, other: nat) {
      AlignedRow(side, row) == AlignedRow(side.Opposite(), other)
    }
  }

  // ---------------------------------------------------------------- order

  /** Later runs start where or after earlier ones end. */
  lemma {:induction false} RunsAscend(runs: seq<Run>, i: nat, j: nat)
    requires Chained(runs)
    requires i < j <= |runs|
    ensures runs[i].left.end <= SideAt(runs, Left, j)
    ensures runs[i].right.end <= SideAt(runs, Right, j)
    ensures runs[i].aligned + runs[i].Height() <= AlignedAt(runs, j)
    decreases j
  {
    if i < j - 1 {
      RunsAscend(runs, i, j - 1);
      assert RunFits(runs, j - 1);
    }
  }

  /** A real row's run is the one whose range holds it, and no other. */
  lemma {:induction false} RunAtIs(a: Alignment, side: Side, row: nat, i: nat)
    requires a.WellFormed()
    requires i < |a.runs|
    requires a.runs[i].On(side).start <= row < a.runs[i].On(side).end
    ensures a.RunAt(side, row) == Some(a.runs[i])
    ensures row < a.Lines(side)
  {
    hide PartitionPoint;
    var point := PartitionPoint(a.Starts(side), row);
    assert RunFits(a.runs, i);
    assert point > 0 ==> RunFits(a.runs, point - 1);
    RunsAscend(a.runs, i, |a.runs|);
    if point - 1 < i {
      assert RunFits(a.runs, point);
      if point < i {
        RunsAscend(a.runs, point, i);
      }
    } else if point - 1 > i {
      RunsAscend(a.runs, i, point - 1);
    }
  }

  /** Every row of a side lies in some run. */
  lemma {:induction false} RunOfRow(a: Alignment, side: Side, row: nat) returns (i: nat)
    requires a.WellFormed()
    requires row < a.Lines(side)
    ensures i < |a.runs|
    ensures a.runs[i].On(side).start <= row < a.runs[i].On(side).end
    ensures a.RunAt(side, row) == Some(a.runs[i])
  {
    hide PartitionPoint;
    i := 0;
    while a.runs[i].On(side).end <= row
      invariant i < |a.runs|
      invariant SideAt(a.runs, side, i) <= row
      decreases |a.runs| - i
    {
      assert RunFits(a.runs, i);
      i := i + 1;
    }
    assert RunFits(a.runs, i);
    RunAtIs(a, side, row, i);
  }

  /** A row beyond its side's last line is in none of the runs. */
  lemma {:induction false} NoRunPastEnd(a: Alignment, side: Side, row: nat)
    requires a.WellFormed()
    requires row >= a.Lines(side)
    ensures a.RunAt(side, row) == None
    ensures a.AlignedRow(side, row) == a.height + (row - a.Lines(side))
  {
    hide PartitionPoint;
    var point := PartitionPoint(a.Starts(side), row);
    if point > 0 {
      RunsAscend(a.runs, point - 1, |a.runs|);
    }
  }

  /** What an aligned row inside run `i` shows. */
  lemma {:induction false} RowAtIs(a: Alignment, side: Side, i: nat, offset: nat)
    requires a.WellFormed()
    requires i < |a.runs| && offset < a.runs[i].Height()
    ensures a.runs[i].aligned + offset < a.height
    ensures PartitionPoint(a.AlignedStarts(), a.runs[i].aligned + offset) == i + 1
    ensures a.RowAt(side, a.runs[i].aligned + offset)
         == if offset < a.runs[i].On(side).Len() then Some(a.runs[i].On(side).start + offset) else None
  {
    hide PartitionPoint;
    var aligned := a.runs[i].aligned + offset;
    var point := PartitionPoint(a.AlignedStarts(), aligned);
    assert RunFits(a.runs, i);
    assert point > 0 ==> RunFits(a.runs, point - 1);
    RunsAscend(a.runs, i, |a.runs|);
    if point - 1 < i {
      assert RunFits(a.runs, point);
      if point < i {
        RunsAscend(a.runs, point, i);
      }
    } else if point - 1 > i {
      RunsAscend(a.runs, i, point - 1);
    }
  }

  /** Every aligned row inside the space lies in some run. */
  lemma {:induction false} RunOfAligned(a: Alignment, aligned: nat) returns (i: nat)
    requires a.WellFormed()
    requires aligned < a.height
    ensures i < |a.runs|
    ensures a.runs[i].aligned <= aligned < a.runs[i].aligned + a.runs[i].Height()
  {
    i := 0;
    while a.runs[i].aligned + a.runs[i].Height() <= aligned
      invariant i < |a.runs|
      invariant AlignedAt(a.runs, i) <= aligned
      decreases |a.runs| - i
    {
      assert RunFits(a.runs, i);
      i := i + 1;
    }
    assert RunFits(a.runs, i);
  }

  // ------------------------------------------------------------- inverses

  /** Each real row, and each row past the end, is found again at its aligned
      row; only real rows land inside the aligned space. */
  lemma {:induction false} EveryRowIsFoundAgain(a: Alignment, side: Side, row: nat)
    requires a.WellFormed()
    ensures a.RowAt(side, a.AlignedRow(side, row)) == Some(row)
    ensures a.AlignedRow(side, row) < a.height <==> row < a.Lines(side)
  {
    hide PartitionPoint;
    if row < a.Lines(side) {
      var i := RunOfRow(a, side, row);
      assert RunFits(a.runs, i);
      RowAtIs(a, side, i, row - a.runs[i].On(side).start);
    } else {
      NoRunPastEnd(a, side, row);
    }
  }

  /** A shown row maps back to the aligned row that shows it. */
  lemma {:induction false} EveryShownRowMapsBack(a: Alignment, side: Side, aligned: nat)
    requires a.WellFormed()
    requires a.RowAt(side, aligned).Some?
    ensures a.AlignedRow(side, a.RowAt(side, aligned).value) == aligned
  {
    hide PartitionPoint;
    if aligned < a.height {
      var i := RunOfAligned(a, aligned);
      assert RunFits(a.runs, i);
      var offset := aligned - a.runs[i].aligned;
      RowAtIs(a, side, i, offset);
      RunAtIs(a, side, a.runs[i].On(side).start + offset, i);
    } else {
      NoRunPastEnd(a, side, a.RowAt(side, aligned).value);
    }
  }

  /** The aligned position is strictly increasing on each side, zero-width runs
      and rows past the end included. */
  lemma {:induction false} AlignedRowIncreases(a: Alignment, side: Side, lower: nat, upper: nat)
    requires a.WellFormed()
    requires lower < upper
    ensures a.AlignedRow(side, lower) < a.AlignedRow(side, upper)
  {
    hide PartitionPoint;
    EveryRowIsFoundAgain(a, side, lower);
    EveryRowIsFoundAgain(a, side, upper);
    if upper < a.Lines(side) {
      var i := RunOfRow(a, side, lower);
      var j := RunOfRow(a, side, upper);
      assert RunFits(a.runs, i) && RunFits(a.runs, j);
      if i < j {
        RunsAscend(a.runs, i, j);
      } else if j < i {
        RunsAscend(a.runs, j, i);
      }
    } else {
      NoRunPastEnd(a, side, upper);
      if lower >= a.Lines(side) {
        NoRunPastEnd(a, side, lower);
      }
    }
  }

  /** How a run's rows read on the side they are on. */
  function ReadAs(kind: RunKind): Option<Change> {
    match kind
    case Equal => None
    case Replaced => Some(Changed)
    case Inserted => Some(Added)
    case Deleted => Some(Removed)
  }

  /** A row reads as changed exactly when it lies in a run that is not equal, and
      then as what that run makes of it. */
  lemma {:induction false} ChangeReadsTheRun(a: Alignment, side: Side, row: nat)
    requires a.WellFormed()
    ensures a.ChangeAt(side, row).Some? <==>
            exists i :: 0 <= i < |a.runs| && a.runs[i].kind != Equal
                        && a.runs[i].On(side).start <= row < a.runs[i].On(side).end
    ensures forall i :: 0 <= i < |a.runs| && a.runs[i].On(side).start <= row < a.runs[i].On(side).end ==>
              a.ChangeAt(side, row) == ReadAs(a.runs[i].kind)
  {
    hide PartitionPoint;
    if row < a.Lines(side) {
      var i := RunOfRow(a, side, row);
      assert RunFits(a.runs, i);
      forall j | 0 <= j < |a.runs| && a.runs[j].On(side).start <= row < a.runs[j].On(side).end
        ensures a.runs[j] == a.runs[i]
      {
        RunAtIs(a, side, row, j);
      }
    } else {
      NoRunPastEnd(a, side, row);
      forall j | 0 <= j < |a.runs|
        ensures a.runs[j].On(side).end <= row
      {
        RunsAscend(a.runs, j, |a.runs|);
      }
    }
  }
}
