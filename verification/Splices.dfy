/** Patching an alignment after an edit of one side, without comparing texts. */
module Splices {
  import opened Alignments
  import opened Cells

  function KindOf(cell: Cell): RunKind
    requires !cell.Empty()
  {
    if cell.left && cell.right then Equal else if cell.left then Deleted else Inserted
  }

  function Grown(rows: Rows, extra: nat): Rows {
    Rows(rows.start, rows.end + extra)
  }

  function Weight(on: bool, height: nat): nat {
    if on then height else 0
  }

  /** Adds `height` copies of `cell` below `runs`, growing the last run when it
      is of the same kind. */
  function Extended(runs: seq<Run>, cell: Cell, height: nat): seq<Run>
    requires !cell.Empty()
  {
    var n := |runs|;
    if n > 0 && runs[n - 1].kind == KindOf(cell) then
      var last := runs[n - 1];
      runs[..n - 1] + [last.(left := Grown(last.left, Weight(cell.left, height)),
                             right := Grown(last.right, Weight(cell.right, height)))]
    else
      var left, right := SideAt(runs, Left, n), SideAt(runs, Right, n);
      runs + [Run(KindOf(cell), Rows(left, left + Weight(cell.left, height)),
                  Rows(right, right + Weight(cell.right, height)), AlignedAt(runs, n))]
  }

  predicate NoneEmpty(cells: seq<Cell>) {
    forall i :: 0 <= i < |cells| ==> !cells[i].Empty()
  }

  /** The runs that lay out `cells`, one for every stretch of equal cells. */
  function Encode(cells: seq<Cell>): seq<Run>
    requires NoneEmpty(cells)
  {
    if cells == [] then []
    else Extended(Encode(cells[..|cells| - 1]), cells[|cells| - 1], 1)
  }

  /** The alignment that lays out `cells`. */
  function FromCells(cells: seq<Cell>): Alignment
    requires NoneEmpty(cells)
  {
    Alignment(Encode(cells), |cells|, Count(cells, Left), Count(cells, Right))
  }

  /** What clearing `side` leaves of some cells: rows only it had vanish. */
  function Strip(cells: seq<Cell>, side: Side): (rest: seq<Cell>)
    ensures forall i :: 0 <= i < |rest| ==> !rest[i].On(side) && !rest[i].Empty()
  {
    if cells == [] then []
    else
      var last := cells[|cells| - 1].Without(side);
      Strip(cells[..|cells| - 1], side) + (if last.Empty() then [] else [last])
  }

  /** An edit of one side, in cells: `side` is cleared from `at` to `until`
      and `inserted` rows only it has are put in front. */
  function SpliceCells(cells: seq<Cell>, side: Side, at: nat, until: nat, inserted: nat): (r: seq<Cell>)
    requires at <= until <= |cells|
    ensures NoneEmpty(cells) ==> NoneEmpty(r)
  {
    cells[..at] + Repeat(Only(side), inserted) + Strip(cells[at..until], side) + cells[until..]
  }

  // ----------------------------------------------------- encoding is exact

  /** `runs` are chained runs that lay out `cells`. */
  predicate Encodes(runs: seq<Run>, cells: seq<Cell>) {
    Chained(runs) && Flatten(runs) == cells
  }

  lemma {:induction false} ExtendedChained(runs: seq<Run>, cell: Cell, height: nat)
    requires !cell.Empty() && height > 0
    requires Chained(runs)
    ensures Chained(Extended(runs, cell, height))
  {
    var n := |runs|;
    var longer := Extended(runs, cell, height);
    assert n > 0 ==> RunFits(runs, n - 1);
    forall i | 0 <= i < |longer| ensures RunFits(longer, i) {
      assert i < n ==> RunFits(runs, i);
    }
  }

  lemma {:induction false} FlattenSnoc(runs: seq<Run>, run: Run)
    ensures Flatten(runs + [run]) == Flatten(runs) + RunCells(run)
  {
    assert (runs + [run])[..|runs|] == runs;
  }

  lemma {:induction false} GrownCells(run: Run, cell: Cell, height: nat, longer: Run)
    requires !cell.Empty() && KindMatches(run) && run.kind == KindOf(cell)
    requires longer.left.Len() == run.left.Len() + Weight(cell.left, height)
    requires longer.right.Len() == run.right.Len() + Weight(cell.right, height)
    ensures RunCells(longer) == RunCells(run) + Repeat(cell, height)
  {
  }

  lemma {:induction false} ExtendedFlatten(runs: seq<Run>, cell: Cell, height: nat)
    requires !cell.Empty() && height > 0
    requires Chained(runs)
    ensures Flatten(Extended(runs, cell, height)) == Flatten(runs) + Repeat(cell, height)
  {
    hide Flatten, RunCells, Repeat;
    var n := |runs|;
    var longer := Extended(runs, cell, height);
    if n > 0 && runs[n - 1].kind == KindOf(cell) {
      assert RunFits(runs, n - 1);
      GrownCells(runs[n - 1], cell, height, longer[n - 1]);
      FlattenSnoc(runs[..n - 1], runs[n - 1]);
      FlattenSnoc(runs[..n - 1], longer[n - 1]);
      assert runs[..n - 1] + [runs[n - 1]] == runs;
      assert Flatten(runs[..n - 1]) + (RunCells(runs[n - 1]) + Repeat(cell, height))
          == (Flatten(runs[..n - 1]) + RunCells(runs[n - 1])) + Repeat(cell, height);
    } else {
      FlattenSnoc(runs, longer[n]);
      OneKindCells(longer[n], cell, height);
    }
  }

  lemma {:induction false} OneKindCells(run: Run, cell: Cell, height: nat)
    requires !cell.Empty()
    requires run.left.Len() == Weight(cell.left, height) && run.right.Len() == Weight(cell.right, height)
    ensures RunCells(run) == Repeat(cell, height)
  {
  }

  lemma {:induction false} EncodeIsExact(cells: seq<Cell>)
    requires NoneEmpty(cells)
    ensures Encodes(Encode(cells), cells)
  {
    hide RunFits, Extended;
    if cells != [] {
      var n := |cells| - 1;
      EncodeIsExact(cells[..n]);
      ExtendedFlatten(Encode(cells[..n]), cells[n], 1);
      ExtendedChained(Encode(cells[..n]), cells[n], 1);
      assert cells == cells[..n] + Repeat(cells[n], 1);
    }
  }

  lemma {:induction false} ExtendedOnce(runs: seq<Run>, cell: Cell, height: nat)
    requires !cell.Empty() && height > 0
    ensures Extended(Extended(runs, cell, height), cell, 1) == Extended(runs, cell, height + 1)
  {
    var longer := Extended(runs, cell, height);
    var m := |longer| - 1;
    var front := longer[..m];
    var once, twice := Extended(longer, cell, 1), Extended(runs, cell, height + 1);
    assert longer[m].kind == KindOf(cell);
    assert once[..m] == front && |once| == m + 1;
    assert twice[..m] == front && |twice| == m + 1;
    assert once[m] == twice[m];
    assert once == once[..m] + [once[m]];
    assert twice == twice[..m] + [twice[m]];
  }

  lemma {:induction false} EncodeSnoc(cells: seq<Cell>, cell: Cell)
    requires NoneEmpty(cells) && !cell.Empty()
    ensures NoneEmpty(cells + [cell])
    ensures Encode(cells + [cell]) == Extended(Encode(cells), cell, 1)
  {
  }

  /** Appending a block at once is appending its cells one at a time. */
  lemma {:induction false} EncodeBlock(cells: seq<Cell>, cell: Cell, height: nat)
    requires NoneEmpty(cells) && !cell.Empty() && height > 0
    ensures NoneEmpty(cells + Repeat(cell, height))
    ensures Encode(cells + Repeat(cell, height)) == Extended(Encode(cells), cell, height)
    decreases height
  {
    hide Flatten, Encode, Extended, Chained;
    if height == 1 {
      EncodeSnoc(cells, cell);
      assert Repeat(cell, 1) == [cell];
    } else {
      EncodeBlock(cells, cell, height - 1);
      var shorter := cells + Repeat(cell, height - 1);
      EncodeSnoc(shorter, cell);
      assert shorter + [cell] == cells + Repeat(cell, height);
      EncodeIsExact(cells);
      ExtendedOnce(Encode(cells), cell, height - 1);
    }
  }

  /** Runs as a splice leaves them: one kind of row each, and no two neighbours
      of one kind. */
  predicate Merged(runs: seq<Run>) {
    && (forall i :: 0 <= i < |runs| ==> runs[i].kind != RunKind.Replaced)
    && (forall i :: 0 < i < |runs| ==> runs[i - 1].kind != runs[i].kind)
  }

  lemma {:induction false} EncodeIsMerged(cells: seq<Cell>)
    requires NoneEmpty(cells)
    ensures Merged(Encode(cells))
  {
    if cells != [] {
      EncodeIsMerged(cells[..|cells| - 1]);
    }
  }

  /** The one cell a merged run repeats. */
  function CellOf(run: Run): (cell: Cell)
    ensures !cell.Empty()
  {
    Cell(run.kind != Inserted, run.kind != Deleted)
  }

  lemma {:induction false} FrontIsChained(runs: seq<Run>)
    requires Chained(runs) && Merged(runs) && runs != []
    ensures Chained(runs[..|runs| - 1]) && Merged(runs[..|runs| - 1])
    ensures RunFits(runs, |runs| - 1)
  {
    hide KindMatches;
    var n := |runs| - 1;
    forall i | 0 <= i < n ensures RunFits(runs[..n], i) { assert RunFits(runs, i); }
  }

  lemma {:induction false} MergedRunCells(run: Run)
    requires KindMatches(run) && run.kind != RunKind.Replaced
    ensures run.Height() > 0 && RunCells(run) == Repeat(CellOf(run), run.Height())
    ensures run.left.Len() == Weight(CellOf(run).left, run.Height())
    ensures run.right.Len() == Weight(CellOf(run).right, run.Height())
    ensures KindOf(CellOf(run)) == run.kind
  {
    OneKindCells(run, CellOf(run), run.Height());
  }

  lemma {:induction false} LastRunExtends(front: seq<Run>, run: Run)
    requires RunFits(front + [run], |front|) && run.kind != RunKind.Replaced
    requires front != [] ==> front[|front| - 1].kind != run.kind
    ensures Extended(front, CellOf(run), run.Height()) == front + [run]
  {
    MergedRunCells(run);
    hide Repeat, RunCells, CellOf, KindMatches;
    assert (front + [run])[|front|] == run;
  }

  /** Merged runs are the only ones there are: encoding what they lay out gives
      them back. */
  lemma {:induction false} MergedIsEncoded(runs: seq<Run>)
    requires Chained(runs) && Merged(runs)
    ensures NoneEmpty(Flatten(runs)) && Encode(Flatten(runs)) == runs
  {
    if runs != [] {
      var n := |runs| - 1;
      FrontIsChained(runs);
      assert runs == runs[..n] + [runs[n]];
      LastRunExtends(runs[..n], runs[n]);
      MergedRunCells(runs[n]);
      MergedIsEncoded(runs[..n]);
      hide Chained, Merged, Extended, Encode, RunCells, Repeat, CellOf, RunFits, KindMatches;
      EncodeBlock(Flatten(runs[..n]), CellOf(runs[n]), runs[n].Height());
    }
  }

  lemma {:induction false} FromCellsLaysOut(cells: seq<Cell>)
    requires NoneEmpty(cells)
    ensures FromCells(cells).WellFormed()
    ensures Layout(FromCells(cells)) == cells
  {
    EncodeIsExact(cells);
    var runs := Encode(cells);
    FlattenAt(runs, |runs|);
    assert runs[..|runs|] == runs;
  }

  // ------------------------------------------------------------ the method

  /** The aligned range an edit of rows `start..start + removed` clears. */
  function SpliceRange(a: Alignment, side: Side, start: nat, removed: nat): (nat, nat) {
    var lines := a.Lines(side);
    var first := Min(start, lines);
    (if lines == 0 then 0 else a.AlignedRow(side, first), a.AlignedRow(side, Min(first + removed, lines)))
  }

  function Min(x: nat, y: nat): nat {
    if x <= y then x else y
  }

  lemma {:induction false} LayoutNoneEmpty(a: Alignment)
    requires a.WellFormed()
    ensures |Layout(a)| == a.height
    ensures NoneEmpty(Layout(a))
  {
    LayoutSize(a);
    forall k | 0 <= k < a.height ensures !Layout(a)[k].Empty() {
      var i := RunOfAligned(a, k);
      CellInRun(a.runs, Left, i, k - a.runs[i].aligned);
      CellInRun(a.runs, Right, i, k - a.runs[i].aligned);
    }
  }

  lemma {:induction false} AlignedRowAscends(a: Alignment, side: Side, lower: nat, upper: nat)
    requires a.WellFormed()
    requires lower <= upper <= a.Lines(side)
    ensures a.AlignedRow(side, lower) <= a.AlignedRow(side, upper) <= a.height
  {
    hide Alignment.RowAt, Alignment.AlignedRow;
    NoRunPastEnd(a, side, a.Lines(side));
    if upper < a.Lines(side) {
      AlignedRowIncreases(a, side, upper, a.Lines(side));
    }
    if lower < upper {
      AlignedRowIncreases(a, side, lower, upper);
    }
  }

  lemma {:induction false} SpliceRangeFits(a: Alignment, side: Side, start: nat, removed: nat)
    requires a.WellFormed()
    ensures SpliceRange(a, side, start, removed).0 <= SpliceRange(a, side, start, removed).1 <= a.height
  {
    hide Alignment.RowAt, Alignment.AlignedRow;
    var first := Min(start, a.Lines(side));
    AlignedRowAscends(a, side, first, Min(first + removed, a.Lines(side)));
  }

  /** What `splice` makes of a well-formed alignment. */
  function Spliced(a: Alignment, side: Side, start: nat, removed: nat, inserted: nat): (r: Alignment)
    requires a.WellFormed()
    ensures r.WellFormed()
  {
    SpliceRangeFits(a, side, start, removed);
    LayoutNoneEmpty(a);
    var (at, until) := SpliceRange(a, side, start, removed);
    var cells := SpliceCells(Layout(a), side, at, until, inserted);
    FromCellsLaysOut(cells);
    FromCells(cells)
  }

  lemma {:induction false} SplicedIsMerged(a: Alignment, side: Side, start: nat, removed: nat, inserted: nat)
    requires a.WellFormed()
    ensures Merged(Spliced(a, side, start, removed, inserted).runs)
  {
    hide Alignment.AlignedRow, Alignment.WellFormed, Encode, Merged, Strip, Layout;
    SpliceRangeFits(a, side, start, removed);
    LayoutNoneEmpty(a);
    var (at, until) := SpliceRange(a, side, start, removed);
    EncodeIsMerged(SpliceCells(Layout(a), side, at, until, inserted));
  }

  /** The cells written once everything above aligned row `pos` is copied. */
  function Progress(cells: seq<Cell>, side: Side, at: nat, until: nat, inserted: nat, pos: nat): seq<Cell>
    requires at <= until <= |cells| && pos <= |cells|
  {
    if pos <= at then cells[..pos]
    else
      cells[..at] + Repeat(Only(side), inserted) + Strip(cells[at..Min(pos, until)], side)
      + cells[Min(pos, until)..pos]
  }

  lemma {:induction false} StripConcat(front: seq<Cell>, back: seq<Cell>, side: Side)
    ensures Strip(front + back, side) == Strip(front, side) + Strip(back, side)
  {
    if back == [] {
      assert front + back == front;
    } else {
      var n := |back| - 1;
      assert (front + back)[..|front| + n] == front + back[..n];
      StripConcat(front, back[..n], side);
    }
  }

  lemma {:induction false} StripRepeat(cell: Cell, n: nat, side: Side)
    ensures Strip(Repeat(cell, n), side)
         == if cell.Without(side).Empty() then [] else Repeat(cell.Without(side), n)
  {
    if n > 0 {
      assert Repeat(cell, n)[..n - 1] == Repeat(cell, n - 1);
      StripRepeat(cell, n - 1, side);
    }
  }

  /** What one homogeneous piece adds. */
  function PieceCells(cell: Cell, side: Side, cleared: bool, height: nat): seq<Cell> {
    var kept := if cleared then cell.Without(side) else cell;
    if kept.Empty() then [] else Repeat(kept, height)
  }

  lemma {:induction false} ProgressInside(cells: seq<Cell>, side: Side, at: nat, until: nat, inserted: nat,
                                          from: nat, to: nat, cell: Cell)
    requires at <= from < to <= until <= |cells|
    requires cells[from..to] == Repeat(cell, to - from)
    ensures Progress(cells, side, at, until, inserted, to)
         == Progress(cells, side, at, until, inserted, from)
            + (if from == at then Repeat(Only(side), inserted) else [])
            + PieceCells(cell, side, true, to - from)
  {
    hide Strip;
    assert cells[at..to] == cells[at..from] + cells[from..to];
    StripConcat(cells[at..from], cells[from..to], side);
    StripRepeat(cell, to - from, side);
    if from == at {
      assert cells[at..from] == [];
    }
  }

  lemma {:induction false} ProgressBelow(cells: seq<Cell>, side: Side, at: nat, until: nat, inserted: nat, from: nat,
                                         to: nat, cell: Cell)
    requires at <= until <= from < to <= |cells|
    requires cells[from..to] == Repeat(cell, to - from)
    requires !cell.Empty()
    ensures Progress(cells, side, at, until, inserted, to)
         == Progress(cells, side, at, until, inserted, from)
            + (if from == at then Repeat(Only(side), inserted) else [])
            + PieceCells(cell, side, false, to - from)
  {
    assert cells[until..to] == cells[until..from] + cells[from..to];
    if from == at {
      assert cells[at..until] == [];
    }
  }

  /** Copying the piece `from..to` writes the insertion first if it starts
      there, and the piece, cleared on `side` if it lies in the range. */
  lemma {:induction false} ProgressStep(cells: seq<Cell>, side: Side, at: nat, until: nat, inserted: nat, from: nat,
                                        to: nat, cell: Cell)
    requires at <= until <= |cells|
    requires from < to <= |cells|
    requires !cell.Empty()
    requires !(from < at < to) && !(from < until < to)
    requires cells[from..to] == Repeat(cell, to - from)
    ensures Progress(cells, side, at, until, inserted, to)
         == Progress(cells, side, at, until, inserted, from)
            + (if from == at then Repeat(Only(side), inserted) else [])
            + PieceCells(cell, side, at <= from < until, to - from)
  {
    if from < at {
      assert cells[..to] == cells[..from] + cells[from..to];
    } else if from < until {
      ProgressInside(cells, side, at, until, inserted, from, to, cell);
    } else {
      ProgressBelow(cells, side, at, until, inserted, from, to, cell);
    }
  }

  /** The four numbers the copying loop carries, tied to the cells written. */
  predicate Carries(runs: seq<Run>, leftRow: nat, rightRow: nat, aligned: nat, cells: seq<Cell>) {
    && NoneEmpty(cells)
    && runs == Encode(cells)
    && leftRow == Count(cells, Left)
    && rightRow == Count(cells, Right)
    && aligned == |cells|
  }

  lemma {:induction false} ExtendingCarries(runs: seq<Run>, leftRow: nat, rightRow: nat, aligned: nat, height: nat,
                                            cell: Cell, cells: seq<Cell>)
    requires Carries(runs, leftRow, rightRow, aligned, cells)
    requires height > 0 && !cell.Empty()
    ensures leftRow == SideAt(runs, Left, |runs|)
    ensures rightRow == SideAt(runs, Right, |runs|)
    ensures aligned == AlignedAt(runs, |runs|)
    ensures Carries(Extended(runs, cell, height), leftRow + Weight(cell.left, height),
                    rightRow + Weight(cell.right, height), aligned + height, cells + Repeat(cell, height))
  {
    EncodeBlock(cells, cell, height);
    EncodeIsExact(cells);
    FlattenAt(runs, |runs|);
    assert runs[..|runs|] == runs;
    CountConcat(cells, Repeat(cell, height), Left);
    CountRepeat(cell, height, Left);
    CountConcat(cells, Repeat(cell, height), Right);
    CountRepeat(cell, height, Right);
  }

  /** The runs after `height` aligned rows in which the named sides are real. */
  function Pushed(runs: seq<Run>, height: nat, left: bool, right: bool): seq<Run> {
    if height == 0 || (!left && !right) then runs else Extended(runs, Cell(left, right), height)
  }

  method Push(runs: seq<Run>, leftRow: nat, rightRow: nat, aligned: nat, height: nat, left: bool, right: bool)
    returns (runs': seq<Run>, leftRow': nat, rightRow': nat, aligned': nat)
    requires leftRow == SideAt(runs, Left, |runs|)
    requires rightRow == SideAt(runs, Right, |runs|)
    requires aligned == AlignedAt(runs, |runs|)
    ensures runs' == Pushed(runs, height, left, right)
    ensures leftRow' == leftRow + Weight(left, height)
    ensures rightRow' == rightRow + Weight(right, height)
    ensures aligned' == aligned + if left || right then height else 0
  {
    runs', leftRow', rightRow', aligned' := runs, leftRow, rightRow, aligned;
    if height == 0 || (!left && !right) {
      return;
    }
    var kind := if left && right then Equal else if left then Deleted else Inserted;
    if |runs| > 0 && runs[|runs| - 1].kind == kind {
      var last := runs[|runs| - 1];
      if left {
        last := last.(left := Rows(last.left.start, last.left.end + height));
      }
      if right {
        last := last.(right := Rows(last.right.start, last.right.end + height));
      }
      runs' := runs[..|runs| - 1] + [last];
    } else {
      runs' := runs + [Run(kind,
                           Rows(leftRow, leftRow + if left then height else 0),
                           Rows(rightRow, rightRow + if right then height else 0),
                           aligned)];
    }
    leftRow' := leftRow + if left then height else 0;
    rightRow' := rightRow + if right then height else 0;
    aligned' := aligned + height;
  }

  lemma {:induction false} PushedCarries(runs: seq<Run>, leftRow: nat, rightRow: nat, aligned: nat, height: nat,
                                         left: bool, right: bool, cells: seq<Cell>)
    requires Carries(runs, leftRow, rightRow, aligned, cells)
    ensures leftRow == SideAt(runs, Left, |runs|)
    ensures rightRow == SideAt(runs, Right, |runs|)
    ensures aligned == AlignedAt(runs, |runs|)
    ensures Carries(Pushed(runs, height, left, right), leftRow + Weight(left, height), rightRow + Weight(right, height),
                    aligned + (if left || right then height else 0),
                    cells + if !left && !right then [] else Repeat(Cell(left, right), height))
  {
    EncodeIsExact(cells);
    FlattenAt(runs, |runs|);
    assert runs[..|runs|] == runs;
    if height == 0 || (!left && !right) {
      assert cells + [] == cells;
      assert Repeat(Cell(left, right), 0) == [];
    } else {
      ExtendingCarries(runs, leftRow, rightRow, aligned, height, Cell(left, right), cells);
    }
  }

  predicate Ascending(xs: seq<nat>) {
    forall i, j :: 0 <= i < j < |xs| ==> xs[i] < xs[j]
  }

  function InsertOnce(xs: seq<nat>, x: nat): (r: seq<nat>)
    requires Ascending(xs)
    ensures forall y :: y in r <==> y in xs || y == x
  {
    if xs == [] then [x]
    else if x < xs[0] then [x] + xs
    else if x == xs[0] then xs
    else
      assert xs == [xs[0]] + xs[1..];
      [xs[0]] + InsertOnce(xs[1..], x)
  }

  lemma {:induction false} InsertOnceAscends(xs: seq<nat>, x: nat)
    requires Ascending(xs)
    ensures Ascending(InsertOnce(xs, x))
  {
    if xs != [] && xs[0] < x {
      InsertOnceAscends(xs[1..], x);
      var rest := InsertOnce(xs[1..], x);
      forall i | 0 <= i < |rest| ensures xs[0] < rest[i] {
        assert rest[i] in rest;
      }
    }
  }

  /** Sorting and dropping repeats. */
  function SortedOnce(xs: seq<nat>): (r: seq<nat>)
    ensures Ascending(r)
    ensures forall y :: y in r <==> y in xs
  {
    if xs == [] then []
    else
      InsertOnceAscends(SortedOnce(xs[1..]), xs[0]);
      InsertOnce(SortedOnce(xs[1..]), xs[0])
  }

  /** Nothing that could change along the piece `from..to` changes inside it. */
  predicate Uncut(run: Run, at: nat, until: nat, from: nat, to: nat) {
    && !(from < at < to)
    && !(from < until < to)
    && !(from < run.aligned + run.left.Len() < to)
    && !(from < run.aligned + run.right.Len() < to)
  }

  lemma {:induction false} NoneBetween(xs: seq<nat>, i: nat, y: nat)
    requires Ascending(xs) && i + 1 < |xs| && y in xs
    ensures !(xs[i] < y < xs[i + 1])
  {
  }

  /** Where a run has to be cut so that each piece is homogeneous and lies
      wholly inside or wholly outside the edited range. */
  method CutsOf(run: Run, at: nat, until: nat) returns (cuts: seq<nat>)
    requires run.Height() > 0
    ensures Ascending(cuts) && |cuts| >= 2
    ensures cuts[0] == run.aligned && cuts[|cuts| - 1] == run.aligned + run.Height()
    ensures forall i :: 0 <= i < |cuts| - 1 ==> Uncut(run, at, until, cuts[i], cuts[i + 1])
  {
    hide SortedOnce;
    var top, bottom := run.aligned, run.aligned + run.Height();
    var points: seq<nat> := [at, until, run.aligned + run.left.Len(), run.aligned + run.right.Len()];
    var unsorted: seq<nat> := [top, bottom];
    for i := 0 to |points|
      invariant top in unsorted && bottom in unsorted
      invariant forall cut :: cut in unsorted ==> top <= cut <= bottom
      invariant forall j :: 0 <= j < i && top < points[j] < bottom ==> points[j] in unsorted
    {
      if top < points[i] < bottom {
        unsorted := unsorted + [points[i]];
      }
    }
    cuts := SortedOnce(unsorted);
    EndsOfCuts(cuts, top, bottom);
    forall i | 0 <= i < |cuts| - 1
      ensures Uncut(run, at, until, cuts[i], cuts[i + 1])
    {
      assert top <= cuts[i] && cuts[i + 1] <= bottom by {
        assert cuts[i] in cuts && cuts[i + 1] in cuts;
      }
      forall j | 0 <= j < |points| ensures !(cuts[i] < points[j] < cuts[i + 1]) {
        if top < points[j] < bottom {
          NoneBetween(cuts, i, points[j]);
        }
      }
      assert points[0] == at && points[1] == until;
      assert points[2] == run.aligned + run.left.Len() && points[3] == run.aligned + run.right.Len();
    }
  }

  lemma {:induction false} EndsOfCuts(cuts: seq<nat>, top: nat, bottom: nat)
    requires Ascending(cuts) && top < bottom
    requires top in cuts && bottom in cuts
    requires forall cut :: cut in cuts ==> top <= cut <= bottom
    ensures |cuts| >= 2 && cuts[0] == top && cuts[|cuts| - 1] == bottom
  {
    assert cuts[0] in cuts && cuts[|cuts| - 1] in cuts;
  }

  /** A piece between neighbouring cuts shows the same sides throughout. */
  lemma {:induction false} PieceIsHomogeneous(runs: seq<Run>, i: nat, from: nat, to: nat)
    requires Chained(runs)
    requires i < |runs|
    requires runs[i].aligned <= from < to <= runs[i].aligned + runs[i].Height()
    requires !(from < runs[i].aligned + runs[i].left.Len() < to)
    requires !(from < runs[i].aligned + runs[i].right.Len() < to)
    ensures to <= |Flatten(runs)|
    ensures var offset := from - runs[i].aligned;
            var cell := Cell(offset < runs[i].left.Len(), offset < runs[i].right.Len());
            !cell.Empty() && Flatten(runs)[from..to] == Repeat(cell, to - from)
  {
    FlattenSplits(runs, i);
    FlattenAt(runs, i);
    var offset := from - runs[i].aligned;
    var cell := Cell(offset < runs[i].left.Len(), offset < runs[i].right.Len());
    var stretch := Flatten(runs[..i]) + RunCells(runs[i]);
    forall k | from <= k < to ensures Flatten(runs)[k] == cell {
      assert Flatten(runs)[k] == stretch[k] == RunCells(runs[i])[k - runs[i].aligned];
    }
    var piece, same := Flatten(runs)[from..to], Repeat(cell, to - from);
    assert |piece| == |same| && forall k :: 0 <= k < |piece| ==> piece[k] == same[k];
    assert piece == same;
  }

  lemma {:induction false} ProgressDone(cells: seq<Cell>, side: Side, at: nat, until: nat, inserted: nat)
    requires at <= until <= |cells|
    ensures SpliceCells(cells, side, at, until, inserted)
         == Progress(cells, side, at, until, inserted, |cells|)
            + if at < |cells| then [] else Repeat(Only(side), inserted)
  {
    assert cells[until..|cells|] == cells[until..];
    if at == |cells| {
      assert cells[at..until] == [];
      assert cells[until..] == [];
    }
  }

  /** The sides still real in the piece that starts at `from`. */
  function PieceSides(run: Run, side: Side, at: nat, until: nat, from: nat): Cell
    requires run.aligned <= from
  {
    var cell := Cell(from - run.aligned < run.left.Len(), from - run.aligned < run.right.Len());
    if at <= from < until then cell.Without(side) else cell
  }

  function Block(cell: Cell, height: nat): seq<Cell> {
    if cell.Empty() then [] else Repeat(cell, height)
  }

  lemma {:induction false} PieceStep(a: Alignment, side: Side, at: nat, until: nat, inserted: nat, i: nat, from: nat,
                                     to: nat)
    requires a.WellFormed() && at <= until <= |Layout(a)|
    requires i < |a.runs| && a.runs[i].aligned <= from < to <= a.runs[i].aligned + a.runs[i].Height() <= |Layout(a)|
    requires Uncut(a.runs[i], at, until, from, to)
    ensures Progress(Layout(a), side, at, until, inserted, to)
         == Progress(Layout(a), side, at, until, inserted, from)
            + (if from == at then Repeat(Only(side), inserted) else [])
            + Block(PieceSides(a.runs[i], side, at, until, from), to - from)
  {
    var offset := from - a.runs[i].aligned;
    PieceIsHomogeneous(a.runs, i, from, to);
    ProgressStep(Layout(a), side, at, until, inserted, from, to,
                 Cell(offset < a.runs[i].left.Len(), offset < a.runs[i].right.Len()));
  }

  /** Writes the insertion unless it is written already. */
  method InsertOnceHere(side: Side, inserted: nat,
                        runs: seq<Run>, leftRow: nat, rightRow: nat, aligned: nat, due: bool, ghost built: seq<Cell>)
    returns (runs': seq<Run>, leftRow': nat, rightRow': nat, aligned': nat)
    requires Carries(runs, leftRow, rightRow, aligned, built)
    ensures Carries(runs', leftRow', rightRow', aligned', built + if due then Repeat(Only(side), inserted) else [])
  {
    runs', leftRow', rightRow', aligned' := runs, leftRow, rightRow, aligned;
    if due {
      PushedCarries(runs, leftRow, rightRow, aligned, inserted, side == Left, side == Right, built);
      runs', leftRow', rightRow', aligned' := Push(runs, leftRow, rightRow, aligned, inserted, side == Left,
                                                   side == Right);
    } else {
      assert built + [] == built;
    }
  }

  /** Copies one homogeneous piece with the edited range cleared. */
  method CopyPiece(run: Run, side: Side, at: nat, until: nat, from: nat, to: nat,
                   runs: seq<Run>, leftRow: nat, rightRow: nat, aligned: nat, ghost built: seq<Cell>)
    returns (runs': seq<Run>, leftRow': nat, rightRow': nat, aligned': nat)
    requires run.aligned <= from < to
    requires Carries(runs, leftRow, rightRow, aligned, built)
    ensures Carries(runs', leftRow', rightRow', aligned',
                    built + Block(PieceSides(run, side, at, until, from), to - from))
  {
    hide Carries, Pushed;
    var offset := from - run.aligned;
    var left := offset < run.left.Len();
    var right := offset < run.right.Len();
    if at <= from < until {
      if side == Left {
        left := false;
      } else {
        right := false;
      }
    }
    PushedCarries(runs, leftRow, rightRow, aligned, to - from, left, right, built);
    runs', leftRow', rightRow', aligned' := Push(runs, leftRow, rightRow, aligned, to - from, left, right);
  }

  lemma {:induction false} RunSpan(a: Alignment, i: nat)
    requires a.WellFormed() && i < |a.runs|
    ensures a.runs[i].aligned == AlignedAt(a.runs, i)
    ensures AlignedAt(a.runs, i + 1) == a.runs[i].aligned + a.runs[i].Height() <= a.height == |Layout(a)|
    ensures a.runs[i].Height() > 0
  {
    assert RunFits(a.runs, i);
    RunsAscend(a.runs, i, |a.runs|);
    LayoutSize(a);
  }

  /** Copies one run, piece by piece. */
  method CopyRun(a: Alignment, side: Side, at: nat, until: nat, inserted: nat, i: nat,
                 runs: seq<Run>, leftRow: nat, rightRow: nat, aligned: nat, insertedHere: bool, ghost built: seq<Cell>)
    returns (runs': seq<Run>, leftRow': nat, rightRow': nat, aligned': nat, insertedHere': bool,
             ghost built': seq<Cell>)
    requires a.WellFormed() && at <= until <= |Layout(a)|
    requires i < |a.runs| && AlignedAt(a.runs, i) <= |Layout(a)|
    requires built == Progress(Layout(a), side, at, until, inserted, AlignedAt(a.runs, i))
    requires Carries(runs, leftRow, rightRow, aligned, built)
    requires insertedHere <==> at < AlignedAt(a.runs, i)
    ensures AlignedAt(a.runs, i + 1) <= |Layout(a)|
    ensures built' == Progress(Layout(a), side, at, until, inserted, AlignedAt(a.runs, i + 1))
    ensures Carries(runs', leftRow', rightRow', aligned', built')
    ensures insertedHere' <==> at < AlignedAt(a.runs, i + 1)
  {
    hide Progress, Carries, Block, PieceSides, Flatten, Alignment.WellFormed, Repeat;
    RunSpan(a, i);
    runs', leftRow', rightRow', aligned', insertedHere', built' := runs, leftRow, rightRow, aligned, insertedHere,
        built;
    var cuts := CutsOf(a.runs[i], at, until);
    for pair := 0 to |cuts| - 1
      invariant cuts[pair] <= |Layout(a)|
      invariant built' == Progress(Layout(a), side, at, until, inserted, cuts[pair])
      invariant Carries(runs', leftRow', rightRow', aligned', built')
      invariant insertedHere' <==> at < cuts[pair]
    {
      var from, to := cuts[pair], cuts[pair + 1];
      assert cuts[0] <= from < to <= cuts[|cuts| - 1];
      var due := !insertedHere' && from >= at;
      PieceStep(a, side, at, until, inserted, i, from, to);
      runs', leftRow', rightRow', aligned' :=
        InsertOnceHere(side, inserted, runs', leftRow', rightRow', aligned', due, built');
      built' := built' + if due then Repeat(Only(side), inserted) else [];
      insertedHere' := insertedHere' || due;
      runs', leftRow', rightRow', aligned' :=
        CopyPiece(a.runs[i], side, at, until, from, to, runs', leftRow', rightRow', aligned', built');
      built' := built' + Block(PieceSides(a.runs[i], side, at, until, from), to - from);
    }
  }

  /** Copies every run, with the edited range cleared and the insertion made. */
  method CopyRuns(a: Alignment, side: Side, at: nat, until: nat, inserted: nat)
    returns (runs: seq<Run>, leftRow: nat, rightRow: nat, aligned: nat)
    requires a.WellFormed() && at <= until <= |Layout(a)|
    ensures Carries(runs, leftRow, rightRow, aligned, SpliceCells(Layout(a), side, at, until, inserted))
  {
    runs, leftRow, rightRow, aligned := [], 0, 0, 0;
    var insertedHere := false;
    ghost var built: seq<Cell> := [];
    for i := 0 to |a.runs|
      invariant AlignedAt(a.runs, i) <= |Layout(a)|
      invariant built == Progress(Layout(a), side, at, until, inserted, AlignedAt(a.runs, i))
      invariant Carries(runs, leftRow, rightRow, aligned, built)
      invariant insertedHere <==> at < AlignedAt(a.runs, i)
    {
      runs, leftRow, rightRow, aligned, insertedHere, built :=
        CopyRun(a, side, at, until, inserted, i, runs, leftRow, rightRow, aligned, insertedHere, built);
    }
    LayoutSize(a);
    ProgressDone(Layout(a), side, at, until, inserted);
    runs, leftRow, rightRow, aligned := InsertOnceHere(side, inserted, runs, leftRow, rightRow, aligned,
                                                       !insertedHere, built);
  }

  /** Computes `Spliced` by copying the runs around the edit piece by piece. */
  method Splice(a: Alignment, side: Side, start: nat, removed: nat, inserted: nat) returns (r: Alignment)
    requires a.WellFormed()
    ensures r == Spliced(a, side, start, removed, inserted)
  {
    hide Alignment.RowAt, Alignment.AlignedRow, Encode, Count, Flatten, Strip;
    var oldLines := a.Lines(side);
    var first := if start < oldLines then start else oldLines;
    var end := if first + removed < oldLines then first + removed else oldLines;
    var at := if oldLines == 0 then 0 else a.AlignedRow(side, first);
    var until := a.AlignedRow(side, end);
    assert (at, until) == SpliceRange(a, side, start, removed);
    SpliceRangeFits(a, side, start, removed);
    LayoutSize(a);
    var runs, leftRow, rightRow, aligned := CopyRuns(a, side, at, until, inserted);
    r := Alignment(runs, aligned, leftRow, rightRow);
  }
}
