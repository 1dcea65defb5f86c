/** What a splice keeps: every surviving row stays level with the same rows of
    the other side, and new rows face only filler. */
module SpliceLaws {
  import opened Wrappers
  import opened Alignments
  import opened Cells
  import opened Splices

  /** Rows of `side` before and after one splice of it. */
  datatype Patch = Patch(a: Alignment, side: Side, at: nat, until: nat, inserted: nat) {
    ghost predicate Valid() {
      a.WellFormed() && at <= until <= |Layout(a)| == a.height && NoneEmpty(Layout(a))
    }

    function Above(): seq<Cell>
      requires Valid()
    {
      Layout(a)[..at]
    }

    function Added(): seq<Cell> {
      Repeat(Only(side), inserted)
    }

    function Rest(): seq<Cell>
      requires Valid()
    {
      Strip(Layout(a)[at..until], side)
    }

    function Below(): seq<Cell>
      requires Valid()
    {
      Layout(a)[until..]
    }

    function After(): Alignment
      requires Valid()
    {
      FromCells(SpliceCells(Layout(a), side, at, until, inserted))
    }

    /** Where the untouched rows below the cleared range start afterwards. */
    function Resume(): nat
      requires Valid()
    {
      at + inserted + |Rest()|
    }
  }

  lemma {:induction false} CountSnoc(cells: seq<Cell>, cell: Cell, side: Side)
    ensures Count(cells + [cell], side) == Count(cells, side) + if cell.On(side) then 1 else 0
  {
    assert (cells + [cell])[..|cells|] == cells;
  }

  lemma {:induction false} StripCount(cells: seq<Cell>, side: Side, s: Side)
    ensures Count(Strip(cells, side), s) == if s == side then 0 else Count(cells, s)
  {
    hide Strip;
    StripOnce(cells, side);
    if cells != [] {
      var n := |cells| - 1;
      StripCount(cells[..n], side, s);
      var last := cells[n].Without(side);
      if !last.Empty() {
        CountSnoc(Strip(cells[..n], side), last, s);
      }
    }
  }

  lemma {:induction false} StripOnce(cells: seq<Cell>, side: Side)
    ensures cells == [] ==> Strip(cells, side) == []
    ensures cells != [] ==>
      var n := |cells| - 1;
      var last := cells[n].Without(side);
      Strip(cells, side) == if last.Empty() then Strip(cells[..n], side) else Strip(cells[..n], side) + [last]
  {
  }

  /** The patched alignment is well formed and lays out the four parts. */
  lemma {:induction false} PatchLaysOut(p: Patch)
    requires p.Valid()
    ensures p.After().WellFormed()
    ensures Layout(p.After()) == p.Above() + p.Added() + p.Rest() + p.Below()
    ensures p.After().height == p.Resume() + p.a.height - p.until
  {
    FromCellsLaysOut(SpliceCells(Layout(p.a), p.side, p.at, p.until, p.inserted));
  }

  /** Counts of real rows at the seams of the four parts. */
  lemma {:induction false} PatchCounts(p: Patch, s: Side)
    requires p.Valid()
    ensures Count(p.Above() + p.Added() + p.Rest(), s)
         == Count(Layout(p.a)[..p.at], s)
            + if s == p.side then p.inserted else Count(Layout(p.a)[p.at..p.until], s)
    ensures Count(Layout(p.a)[..p.until], s) == Count(Layout(p.a)[..p.at], s) + Count(Layout(p.a)[p.at..p.until], s)
    ensures p.a.Lines(s) == Count(Layout(p.a)[..p.until], s) + Count(p.Below(), s)
    ensures p.After().Lines(s) == Count(p.Above() + p.Added() + p.Rest(), s) + Count(p.Below(), s)
  {
    CountConcat(p.Above() + p.Added(), p.Rest(), s);
    CountConcat(p.Above(), p.Added(), s);
    CountRepeat(Only(p.side), p.inserted, s);
    StripCount(Layout(p.a)[p.at..p.until], p.side, s);
    CountOfPrefix(Layout(p.a), s, p.at, p.until);
    LayoutSize(p.a);
    assert Layout(p.a) == Layout(p.a)[..p.until] + p.Below();
    CountConcat(Layout(p.a)[..p.until], p.Below(), s);
    PatchLaysOut(p);
    LayoutSize(p.After());
    CountConcat(p.Above() + p.Added() + p.Rest(), p.Below(), s);
  }

  /** Above the edit nothing changes. */
  lemma {:induction false} AboveIsKept(p: Patch, s: Side, k: nat)
    requires p.Valid() && k < p.at
    ensures p.After().RowAt(s, k) == p.a.RowAt(s, k)
  {
    hide Flatten, Strip, Encode, Count, Alignment.RowAt;
    PatchLaysOut(p);
    RowAtCounts(p.a, s, k);
    RowAtCounts(p.After(), s, k);
    assert Layout(p.After())[..k] == Layout(p.a)[..k];
  }

  /** Inserted rows are real on the edited side only, in order. */
  lemma {:induction false} AddedIsOneSided(p: Patch, i: nat)
    requires p.Valid() && i < p.inserted
    ensures p.at + i < p.After().height
    ensures p.After().RowAt(p.side, p.at + i) == Some(Count(Layout(p.a)[..p.at], p.side) + i)
    ensures p.After().RowAt(p.side.Opposite(), p.at + i) == None
  {
    hide Flatten, Strip, Encode, Count, Alignment.RowAt;
    PatchLaysOut(p);
    RowAtCounts(p.After(), p.side, p.at + i);
    RowAtCounts(p.After(), p.side.Opposite(), p.at + i);
    var cells := Layout(p.After());
    assert cells[p.at + i] == Only(p.side);
    assert cells[..p.at + i] == p.Above() + Repeat(Only(p.side), i);
    CountConcat(p.Above(), Repeat(Only(p.side), i), p.side);
    CountRepeat(Only(p.side), i, p.side);
  }

  /** What is left of the cleared range is filler on the edited side. */
  lemma {:induction false} RestIsFiller(p: Patch, k: nat)
    requires p.Valid() && p.at + p.inserted <= k < p.Resume()
    ensures k < p.After().height
    ensures p.After().RowAt(p.side, k) == None
  {
    PatchLaysOut(p);
    RowAtCounts(p.After(), p.side, k);
    assert Layout(p.After())[k] == p.Rest()[k - p.at - p.inserted];
  }

  lemma {:induction false} CountAcross(front: seq<Cell>, cells: seq<Cell>, until: nat, k: nat, s: Side)
    requires until <= k < |cells|
    ensures (front + cells[until..])[|front| + k - until] == cells[k]
    ensures Count((front + cells[until..])[..|front| + k - until], s) - Count(front, s)
         == Count(cells[..k], s) - Count(cells[..until], s)
  {
    assert (front + cells[until..])[..|front| + k - until] == front + cells[until..k];
    CountConcat(front, cells[until..k], s);
    CountOfPrefix(cells, s, until, k);
  }

  /** Below the edit everything moves as one, past the end included. */
  lemma {:induction false} BelowIsKept(p: Patch, s: Side, k: nat)
    requires p.Valid() && p.until <= k
    ensures var was, now := p.a.RowAt(s, k), p.After().RowAt(s, p.Resume() + (k - p.until));
            (was.Some? <==> now.Some?)
            && (was.Some? ==>
                  now.value - Count(p.Above() + p.Added() + p.Rest(), s)
                  == was.value - Count(Layout(p.a)[..p.until], s))
  {
    hide Flatten, Strip, Encode, Count;
    PatchLaysOut(p);
    var k' := p.Resume() + (k - p.until);
    if k < p.a.height {
      RowAtCounts(p.a, s, k);
      RowAtCounts(p.After(), s, k');
      CountAcross(p.Above() + p.Added() + p.Rest(), Layout(p.a), p.until, k, s);
    } else {
      PatchCounts(p, s);
    }
  }

  // ---------------------------------------------------- rows of one splice

  /** One call of `splice`, in rows of the edited side. */
  datatype Edit = Edit(a: Alignment, side: Side, start: nat, removed: nat, inserted: nat) {
    function First(): nat {
      Min(start, a.Lines(side))
    }

    /** The first row below the removed ones; clamped to the side's lines. */
    function Last(): nat {
      Min(First() + removed, a.Lines(side))
    }

    function Result(): Alignment
      requires a.WellFormed()
    {
      Spliced(a, side, start, removed, inserted)
    }

    function AsPatch(): Patch {
      var (at, until) := SpliceRange(a, side, start, removed);
      Patch(a, side, at, until, inserted)
    }

    predicate Survives(row: nat) {
      row < First() || row >= Last()
    }

    /** The number a surviving row has afterwards. */
    function Renumbered(row: nat): nat
      requires Survives(row)
    {
      if row < First() then row else row - (Last() - First()) + inserted
    }
  }

  lemma {:induction false} PatchFits(e: Edit)
    requires e.a.WellFormed()
    ensures e.AsPatch().Valid()
    ensures e.AsPatch().After() == e.Result()
  {
    SpliceRangeFits(e.a, e.side, e.start, e.removed);
    LayoutNoneEmpty(e.a);
  }

  lemma {:induction false} CountAbove(a: Alignment, side: Side, row: nat)
    requires a.WellFormed() && row <= a.Lines(side)
    ensures a.AlignedRow(side, row) <= |Layout(a)|
    ensures Count(Layout(a)[..a.AlignedRow(side, row)], side) == row
  {
    hide Flatten, Count, Alignment.RowAt, Alignment.AlignedRow;
    LayoutSize(a);
    EveryRowIsFoundAgain(a, side, row);
    NoRunPastEnd(a, side, a.Lines(side));
    if row < a.Lines(side) {
      RowAtCounts(a, side, a.AlignedRow(side, row));
    } else {
      assert Layout(a)[..a.height] == Layout(a);
    }
  }

  /** The rows `first..last` of `side` were cleared from the aligned stretch
      `at..until`, `added` new rows were put at `at`, and everything from
      `until` down now starts at `resume`. */
  ghost predicate Moves(a: Alignment, r: Alignment, side: Side, at: nat, until: nat, resume: nat,
                        first: nat, last: nat, added: nat) {
    && a.WellFormed() && r.WellFormed()
    && at <= until && at + added <= resume && first <= last
    && (forall s: Side, k: nat :: k < at ==> r.RowAt(s, k) == a.RowAt(s, k))
    && (forall k: nat :: at <= k < at + added ==> r.RowAt(side, k) == Some(first + k - at))
    && (forall k: nat :: at <= k < at + added ==> r.RowAt(side.Opposite(), k) == None)
    && (forall k: nat :: at + added <= k < resume ==> r.RowAt(side, k) == None)
    && (forall k: nat :: until <= k && a.RowAt(side, k).Some? && a.RowAt(side, k).value >= last ==>
          r.RowAt(side, resume + (k - until)) == Some(a.RowAt(side, k).value - last + first + added))
    && (forall k: nat :: until <= k ==>
          r.RowAt(side.Opposite(), resume + (k - until)) == a.RowAt(side.Opposite(), k))
    && (forall row: nat :: row < first ==> a.AlignedRow(side, row) < at)
    && (forall row: nat :: first <= row < last ==> at <= a.AlignedRow(side, row) < until)
    && (forall row: nat :: last <= row ==> until <= a.AlignedRow(side, row))
  }

  lemma {:induction false} RowsBracket(e: Edit)
    requires e.a.WellFormed()
    ensures e.AsPatch().at <= e.AsPatch().until
    ensures forall row: nat :: row < e.First() ==> e.a.AlignedRow(e.side, row) < e.AsPatch().at
    ensures forall row: nat :: e.First() <= row < e.Last() ==>
          e.AsPatch().at <= e.a.AlignedRow(e.side, row) < e.AsPatch().until
    ensures forall row: nat :: e.Last() <= row ==> e.AsPatch().until <= e.a.AlignedRow(e.side, row)
  {
    hide Alignment.RowAt, Alignment.AlignedRow;
    SpliceRangeFits(e.a, e.side, e.start, e.removed);
    forall row: nat | row < e.First() ensures e.a.AlignedRow(e.side, row) < e.AsPatch().at {
      AlignedRowIncreases(e.a, e.side, row, e.First());
    }
    forall row: nat | row < e.Last() ensures e.a.AlignedRow(e.side, row) < e.AsPatch().until {
      AlignedRowIncreases(e.a, e.side, row, e.Last());
    }
    forall row: nat | e.First() < row ensures e.a.AlignedRow(e.side, e.First()) < e.a.AlignedRow(e.side, row) {
      AlignedRowIncreases(e.a, e.side, e.First(), row);
    }
    forall row: nat | e.Last() < row ensures e.AsPatch().until < e.a.AlignedRow(e.side, row) {
      AlignedRowIncreases(e.a, e.side, e.Last(), row);
    }
  }

  lemma {:induction false} PatchSeams(e: Edit)
    requires e.a.WellFormed()
    ensures e.AsPatch().Valid()
    ensures Count(Layout(e.a)[..e.AsPatch().at], e.side) == e.First()
    ensures Count(Layout(e.a)[..e.AsPatch().until], e.side) == e.Last()
  {
    hide Alignment.RowAt, Alignment.AlignedRow, Flatten, Strip, Encode;
    PatchFits(e);
    CountAbove(e.a, e.side, e.Last());
    if e.a.Lines(e.side) == 0 {
      assert Layout(e.a)[..0] == [];
    } else {
      CountAbove(e.a, e.side, e.First());
    }
  }

  /** The counts `splice` leaves are exact on both sides. */
  lemma {:induction false} SpliceLineCounts(e: Edit)
    requires e.a.WellFormed()
    ensures e.Result().WellFormed()
    ensures e.Result().Lines(e.side) == e.a.Lines(e.side) - (e.Last() - e.First()) + e.inserted
    ensures e.Result().Lines(e.side.Opposite()) == e.a.Lines(e.side.Opposite())
  {
    PatchFits(e);
    PatchSeams(e);
    PatchCounts(e.AsPatch(), e.side);
    PatchCounts(e.AsPatch(), e.side.Opposite());
  }

  lemma {:induction false} PatchMoves(p: Patch, first: nat, last: nat, r: Alignment)
    requires p.Valid() && r == p.After()
    requires Count(Layout(p.a)[..p.at], p.side) == first
    requires Count(Layout(p.a)[..p.until], p.side) == last
    ensures p.a.WellFormed() && r.WellFormed() && first <= last
    ensures forall s: Side, k: nat :: k < p.at ==> r.RowAt(s, k) == p.a.RowAt(s, k)
    ensures forall k: nat :: p.at <= k < p.at + p.inserted ==> r.RowAt(p.side, k) == Some(first + k - p.at)
    ensures forall k: nat :: p.at <= k < p.at + p.inserted ==> r.RowAt(p.side.Opposite(), k) == None
    ensures forall k: nat :: p.at + p.inserted <= k < p.Resume() ==> r.RowAt(p.side, k) == None
    ensures forall k: nat :: p.until <= k && p.a.RowAt(p.side, k).Some? && p.a.RowAt(p.side, k).value >= last ==>
              r.RowAt(p.side, p.Resume() + (k - p.until))
                  == Some(p.a.RowAt(p.side, k).value - last + first + p.inserted)
    ensures forall k: nat :: p.until <= k ==>
              r.RowAt(p.side.Opposite(), p.Resume() + (k - p.until)) == p.a.RowAt(p.side.Opposite(), k)
  {
    hide Alignment.RowAt, Alignment.AlignedRow, Count, Flatten, Strip, Encode, Alignment.WellFormed;
    PatchLaysOut(p);
    PatchCounts(p, p.side);
    PatchCounts(p, p.side.Opposite());
    forall s: Side, k: nat | k < p.at ensures r.RowAt(s, k) == p.a.RowAt(s, k) {
      AboveIsKept(p, s, k);
    }
    forall k: nat | p.at <= k < p.at + p.inserted
      ensures r.RowAt(p.side, k) == Some(first + k - p.at) && r.RowAt(p.side.Opposite(), k) == None
    {
      AddedIsOneSided(p, k - p.at);
    }
    forall k: nat | p.at + p.inserted <= k < p.Resume() ensures r.RowAt(p.side, k) == None {
      RestIsFiller(p, k);
    }
    forall k: nat | p.until <= k
      ensures p.a.RowAt(p.side, k).Some? && p.a.RowAt(p.side, k).value >= last ==>
                r.RowAt(p.side, p.Resume() + (k - p.until))
                    == Some(p.a.RowAt(p.side, k).value - last + first + p.inserted)
      ensures r.RowAt(p.side.Opposite(), p.Resume() + (k - p.until)) == p.a.RowAt(p.side.Opposite(), k)
    {
      BelowIsKept(p, p.side, k);
      BelowIsKept(p, p.side.Opposite(), k);
    }
  }

  lemma {:induction false} SpliceMoves(e: Edit) returns (at: nat, until: nat, resume: nat)
    requires e.a.WellFormed()
    ensures Moves(e.a, e.Result(), e.side, at, until, resume, e.First(), e.Last(), e.inserted)
  {
    hide Alignment.RowAt, Alignment.AlignedRow, Count, Flatten, Strip, Encode, Alignment.WellFormed;
    PatchSeams(e);
    PatchFits(e);
    RowsBracket(e);
    var p := e.AsPatch();
    at, until, resume := p.at, p.until, p.Resume();
    PatchMoves(p, e.First(), e.Last(), e.Result());
  }

  // ------------------------------------------------------- correspondence

  lemma {:induction false} SurvivorMoves(a: Alignment, r: Alignment, side: Side, at: nat, until: nat, resume: nat,
                      first: nat, last: nat, added: nat, row: nat)
    requires Moves(a, r, side, at, until, resume, first, last, added)
    requires row < first || last <= row
    ensures var k := a.AlignedRow(side, row);
            var row' := if row < first then row else row - last + first + added;
            (k < at || until <= k) && r.AlignedRow(side, row') == if k < at then k else resume + (k - until)
  {
    hide Alignment.RowAt, Alignment.AlignedRow;
    var k := a.AlignedRow(side, row);
    EveryRowIsFoundAgain(a, side, row);
    EveryShownRowMapsBack(r, side, if k < at then k else resume + (k - until));
  }

  lemma {:induction false} OtherMoves(a: Alignment, r: Alignment, side: Side, at: nat, until: nat, resume: nat,
                   first: nat, last: nat, added: nat, other: nat)
    requires Moves(a, r, side, at, until, resume, first, last, added)
    ensures var k, k' := a.AlignedRow(side.Opposite(), other), r.AlignedRow(side.Opposite(), other);
            if k < at then k' == k
            else if until <= k then k' == resume + (k - until)
            else at + added <= k' < resume
  {
    hide Alignment.RowAt, Alignment.AlignedRow;
    var s := side.Opposite();
    var k, k' := a.AlignedRow(s, other), r.AlignedRow(s, other);
    EveryRowIsFoundAgain(a, s, other);
    EveryRowIsFoundAgain(r, s, other);
    if k < at {
      EveryShownRowMapsBack(r, s, k);
    } else if until <= k {
      EveryShownRowMapsBack(r, s, resume + (k - until));
    } else if k' < at {
      EveryShownRowMapsBack(a, s, k');
    } else if resume <= k' {
      var was := k' - resume + until;
      assert resume + (was - until) == k';
      assert a.RowAt(s, was) == r.RowAt(s, k');
      EveryShownRowMapsBack(a, s, was);
    }
  }

  /** Every surviving row is level with an opposite row after the splice
      exactly when it was before. */
  lemma {:induction false} SurvivorsStayLevel(e: Edit, row: nat, other: nat)
    requires e.a.WellFormed() && e.Survives(row)
    ensures e.Result().Level(e.side, e.Renumbered(row), other) <==> e.a.Level(e.side, row, other)
  {
    hide Alignment.RowAt, Alignment.AlignedRow, Spliced;
    var at, until, resume := SpliceMoves(e);
    SurvivorMoves(e.a, e.Result(), e.side, at, until, resume, e.First(), e.Last(), e.inserted, row);
    OtherMoves(e.a, e.Result(), e.side, at, until, resume, e.First(), e.Last(), e.inserted, other);
  }

  /** Inserted rows face only filler. */
  lemma {:induction false} InsertedFaceFiller(e: Edit, i: nat, other: nat)
    requires e.a.WellFormed() && i < e.inserted
    ensures !e.Result().Level(e.side, e.First() + i, other)
  {
    hide Alignment.RowAt, Alignment.AlignedRow, Spliced;
    var at, until, resume := SpliceMoves(e);
    OtherMoves(e.a, e.Result(), e.side, at, until, resume, e.First(), e.Last(), e.inserted, other);
    assert e.Result().RowAt(e.side, at + i) == Some(e.First() + i);
    EveryShownRowMapsBack(e.Result(), e.side, at + i);
  }

  /** A row that faced a removed row faces only filler afterwards. */
  lemma {:induction false} RemovedLeaveFiller(e: Edit, row: nat, other: nat, any: nat)
    requires e.a.WellFormed() && !e.Survives(row)
    requires e.a.Level(e.side, row, other)
    ensures !e.Result().Level(e.side, any, other)
  {
    hide Alignment.RowAt, Alignment.AlignedRow, Spliced;
    var at, until, resume := SpliceMoves(e);
    OtherMoves(e.a, e.Result(), e.side, at, until, resume, e.First(), e.Last(), e.inserted, other);
    EveryRowIsFoundAgain(e.Result(), e.side, any);
  }

  /** Inserted rows take the place in the aligned space where the first removed
      row was, in order, and what is above stays where it is on both sides. */
  lemma {:induction false} InsertedTakeThePlace(e: Edit, i: nat, other: nat)
    requires e.a.WellFormed()
    ensures i < e.inserted ==>
              e.Result().AlignedRow(e.side, e.First() + i)
              == (if e.a.Lines(e.side) == 0 then 0 else e.a.AlignedRow(e.side, e.First())) + i
    ensures i < e.First() ==> e.Result().AlignedRow(e.side, i) == e.a.AlignedRow(e.side, i)
    ensures other < e.a.Lines(e.side.Opposite()) && e.a.Lines(e.side) > 0
            && e.a.AlignedRow(e.side.Opposite(), other) < e.a.AlignedRow(e.side, e.First()) ==>
              e.Result().AlignedRow(e.side.Opposite(), other) == e.a.AlignedRow(e.side.Opposite(), other)
  {
    hide Alignment.RowAt, Alignment.AlignedRow, Spliced, Count, Flatten, Strip, Encode, Alignment.WellFormed;
    PatchSeams(e);
    PatchFits(e);
    RowsBracket(e);
    var p := e.AsPatch();
    PatchMoves(p, e.First(), e.Last(), e.Result());
    assert Moves(e.a, e.Result(), e.side, p.at, p.until, p.Resume(), e.First(), e.Last(), e.inserted);
    if i < e.inserted {
      EveryShownRowMapsBack(e.Result(), e.side, p.at + i);
    }
    if i < e.First() {
      SurvivorMoves(e.a, e.Result(), e.side, p.at, p.until, p.Resume(), e.First(), e.Last(), e.inserted, i);
    }
    OtherMoves(e.a, e.Result(), e.side, p.at, p.until, p.Resume(), e.First(), e.Last(), e.inserted, other);
  }
}
