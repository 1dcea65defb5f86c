/** The aligned row space seen as a row of cells, one per aligned row, each
    saying which sides are real there. */
module Cells {
  import opened Wrappers
  import opened Alignments

  /** One aligned row: which sides show a line in it. */
  datatype Cell = Cell(left: bool, right: bool) {
    predicate On(side: Side) {
      if side == Left then left else right
    }

    function Without(side: Side): Cell {
      if side == Left then Cell(false, right) else Cell(left, false)
    }

    predicate Empty() {
      !left && !right
    }
  }

  function Only(side: Side): Cell {
    if side == Left then Cell(true, false) else Cell(false, true)
  }

  /** How many lines `side` has in a stretch of cells. */
  function Count(cells: seq<Cell>, side: Side): (n: nat)
    ensures n <= |cells|
  {
    if cells == [] then 0
    else Count(cells[..|cells| - 1], side) + (if cells[|cells| - 1].On(side) then 1 else 0)
  }

  function Repeat(cell: Cell, n: nat): (cells: seq<Cell>)
    ensures |cells| == n
    ensures forall i :: 0 <= i < n ==> cells[i] == cell
  {
    seq(n, i => cell)
  }

  /** The cells one run lays out. */
  function RunCells(run: Run): (cells: seq<Cell>)
    ensures |cells| == run.Height()
  {
    seq(run.Height(), i => Cell(i < run.left.Len(), i < run.right.Len()))
  }

  /** The cells a row of runs lays out. */
  function Flatten(runs: seq<Run>): seq<Cell> {
    if runs == [] then [] else Flatten(runs[..|runs| - 1]) + RunCells(runs[|runs| - 1])
  }

  // ------------------------------------------------------------- counting

  lemma {:induction false} CountConcat(left: seq<Cell>, right: seq<Cell>, side: Side)
    ensures Count(left + right, side) == Count(left, side) + Count(right, side)
  {
    if right == [] {
      assert left + right == left;
    } else {
      var n := |right| - 1;
      assert (left + right)[..|left| + n] == left + right[..n];
      CountConcat(left, right[..n], side);
    }
  }

  lemma {:induction false} CountRepeat(cell: Cell, n: nat, side: Side)
    ensures Count(Repeat(cell, n), side) == if cell.On(side) then n else 0
  {
    if n > 0 {
      CountRepeat(cell, n - 1, side);
      assert Repeat(cell, n)[..n - 1] == Repeat(cell, n - 1);
    }
  }

  lemma {:induction false} CountOfPrefix(cells: seq<Cell>, side: Side, lo: nat, hi: nat)
    requires lo <= hi <= |cells|
    ensures Count(cells[..hi], side) == Count(cells[..lo], side) + Count(cells[lo..hi], side)
  {
    assert cells[..hi] == cells[..lo] + cells[lo..hi];
    CountConcat(cells[..lo], cells[lo..hi], side);
  }

  /** Counting inside one run's cells: real rows first, filler after. */
  lemma {:induction false} CountRunCells(run: Run, side: Side, n: nat)
    requires n <= run.Height()
    ensures Count(RunCells(run)[..n], side) == if n < run.On(side).Len() then n else run.On(side).Len()
  {
    if n > 0 {
      CountRunCells(run, side, n - 1);
      assert RunCells(run)[..n][..n - 1] == RunCells(run)[..n - 1];
    }
  }

  // ------------------------------------------- runs and cells tell the same

  lemma {:induction false} FlattenSize(runs: seq<Run>, i: nat)
    requires Chained(runs) && i <= |runs|
    ensures |Flatten(runs[..i])| == AlignedAt(runs, i)
  {
    if i > 0 {
      FlattenSize(runs, i - 1);
      assert runs[..i][..i - 1] == runs[..i - 1];
      assert RunFits(runs, i - 1);
    }
  }

  lemma {:induction false} AllRunCells(run: Run, side: Side)
    ensures Count(RunCells(run), side) == run.On(side).Len()
  {
    CountRunCells(run, side, run.Height());
    assert RunCells(run)[..run.Height()] == RunCells(run);
  }

  lemma {:induction false} FlattenCounts(runs: seq<Run>, side: Side, i: nat)
    requires Chained(runs) && i <= |runs|
    ensures Count(Flatten(runs[..i]), side) == SideAt(runs, side, i)
  {
    hide Count, RunCells;
    if i == 0 {
      NothingCounts(side);
    } else {
      FlattenCounts(runs, side, i - 1);
      assert runs[..i][..i - 1] == runs[..i - 1];
      assert RunFits(runs, i - 1);
      CountConcat(Flatten(runs[..i - 1]), RunCells(runs[i - 1]), side);
      AllRunCells(runs[i - 1], side);
    }
  }

  lemma {:induction false} NothingCounts(side: Side)
    ensures Count([], side) == 0
  {
  }

  lemma {:induction false} FlattenAt(runs: seq<Run>, i: nat)
    requires Chained(runs)
    requires i <= |runs|
    ensures |Flatten(runs[..i])| == AlignedAt(runs, i)
    ensures Count(Flatten(runs[..i]), Left) == SideAt(runs, Left, i)
    ensures Count(Flatten(runs[..i]), Right) == SideAt(runs, Right, i)
  {
    hide Count, Flatten, SideAt, AlignedAt;
    FlattenSize(runs, i);
    FlattenCounts(runs, Left, i);
    FlattenCounts(runs, Right, i);
  }

  lemma {:induction false} FlattenPrefix(runs: seq<Run>, i: nat)
    requires i <= |runs|
    ensures Flatten(runs[..i]) <= Flatten(runs)
  {
    if i == |runs| {
      assert runs[..i] == runs;
    } else {
      FlattenPrefix(runs[..|runs| - 1], i);
      assert runs[..|runs| - 1][..i] == runs[..i];
    }
  }

  lemma {:induction false} FlattenSplits(runs: seq<Run>, i: nat)
    requires Chained(runs)
    requires i < |runs|
    ensures AlignedAt(runs, i) == runs[i].aligned
    ensures Flatten(runs[..i]) + RunCells(runs[i]) <= Flatten(runs)
  {
    assert RunFits(runs, i);
    FlattenPrefix(runs, i + 1);
    assert runs[..i + 1][..i] == runs[..i];
  }

  /** What an alignment lays out. */
  function Layout(a: Alignment): seq<Cell> {
    Flatten(a.runs)
  }

  lemma {:induction false} LayoutSize(a: Alignment)
    requires a.WellFormed()
    ensures |Layout(a)| == a.height
    ensures Count(Layout(a), Left) == a.leftLines
    ensures Count(Layout(a), Right) == a.rightLines
  {
    FlattenAt(a.runs, |a.runs|);
    assert a.runs[..|a.runs|] == a.runs;
  }

  lemma {:induction false} CountThrough(before: seq<Cell>, run: Run, side: Side, offset: nat)
    requires offset < run.Height()
    ensures (before + RunCells(run))[|before| + offset].On(side) <==> offset < run.On(side).Len()
    ensures Count((before + RunCells(run))[..|before| + offset], side)
         == Count(before, side) + if offset < run.On(side).Len() then offset else run.On(side).Len()
  {
    assert (before + RunCells(run))[..|before| + offset] == before + RunCells(run)[..offset];
    CountConcat(before, RunCells(run)[..offset], side);
    CountRunCells(run, side, offset);
  }

  /** The cells of run `i`, read in place. */
  lemma {:induction false} CellInRun(runs: seq<Run>, side: Side, i: nat, offset: nat)
    requires Chained(runs)
    requires i < |runs| && offset < runs[i].Height()
    ensures runs[i].aligned + offset < |Flatten(runs)|
    ensures Flatten(runs)[runs[i].aligned + offset].On(side) <==> offset < runs[i].On(side).Len()
    ensures Count(Flatten(runs)[..runs[i].aligned + offset], side)
         == runs[i].On(side).start + if offset < runs[i].On(side).Len() then offset else runs[i].On(side).Len()
  {
    FlattenSplits(runs, i);
    FlattenAt(runs, i);
    assert RunFits(runs, i);
    var before := Flatten(runs[..i]);
    CountThrough(before, runs[i], side, offset);
    var stretch := before + RunCells(runs[i]);
    assert Flatten(runs)[..|before| + offset] == stretch[..|before| + offset];
  }

  /** A lookup in the aligned space is a count of the real rows above it. */
  lemma {:induction false} RowAtCounts(a: Alignment, side: Side, aligned: nat)
    requires a.WellFormed()
    requires aligned < a.height
    ensures |Layout(a)| == a.height
    ensures a.RowAt(side, aligned)
         == if Layout(a)[aligned].On(side) then Some(Count(Layout(a)[..aligned], side)) else None
  {
    hide Flatten, PartitionPoint;
    LayoutSize(a);
    var i := RunOfAligned(a, aligned);
    var offset := aligned - a.runs[i].aligned;
    RowAtIs(a, side, i, offset);
    CellInRun(a.runs, side, i, offset);
  }
}
