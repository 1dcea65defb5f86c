/** What a pane shows of a document with folded and wrapped rows. */
module Viewports {
  import opened Wrappers

  /** A collapsed range: the row it hangs on, and the rows it takes away. */
  datatype Fold = Fold(anchor: nat, first: nat, end: nat) {
    predicate Hides(row: nat) {
      first <= row < end
    }

    /** The rows start right below the anchor. */
    predicate Resolved() {
      first == anchor + 1
    }

    function HiddenLines(): nat {
      if end <= first then 0 else end - first
    }

    /** Sooner anchors first, and of those the farther ends. */
    predicate Outranks(other: Fold) {
      anchor < other.anchor || (anchor == other.anchor && end > other.end)
    }
  }

  predicate Hidden(folds: seq<Fold>, row: nat) {
    exists i :: 0 <= i < |folds| && folds[i].Hides(row)
  }

  /** The outermost fold that hides a row. */
  function HidingFold(folds: seq<Fold>, row: nat): (fold: Option<Fold>)
    ensures fold.None? <==> !Hidden(folds, row)
    ensures fold.Some? ==> fold.value in folds && fold.value.Hides(row)
    ensures fold.Some? ==> forall i :: 0 <= i < |folds| && folds[i].Hides(row) ==> !folds[i].Outranks(fold.value)
  {
    if folds == [] then None
    else
      var last := folds[|folds| - 1];
      var others := HidingFold(folds[..|folds| - 1], row);
      if last.Hides(row) && (others.None? || last.Outranks(others.value)) then Some(last) else others
  }

  predicate AllResolved(folds: seq<Fold>) {
    forall i :: 0 <= i < |folds| ==> folds[i].Resolved()
  }

  // ------------------------------------------------------ the nearest rows

  /** The nearest shown row above, by looking at each; the first row is shown. */
  function ShownAbove(folds: seq<Fold>, row: nat): (above: nat)
    ensures above <= row && (row > 0 ==> above < row)
    ensures above > 0 ==> !Hidden(folds, above)
    ensures forall k :: above < k < row ==> Hidden(folds, k)
  {
    if row == 0 then 0
    else if !Hidden(folds, row - 1) || row == 1 then row - 1
    else ShownAbove(folds, row - 1)
  }

  /** The nearest shown row below, by looking at each. */
  function ShownBelow(folds: seq<Fold>, row: nat, last: nat): (below: Option<nat>)
    ensures below.Some? ==> row < below.value <= last && !Hidden(folds, below.value)
    ensures below.Some? ==> forall k :: row < k < below.value ==> Hidden(folds, k)
    ensures below.None? ==> forall k :: row < k <= last ==> Hidden(folds, k)
    decreases last - row
  {
    if row >= last then None
    else if !Hidden(folds, row + 1) then Some(row + 1)
    else ShownBelow(folds, row + 1, last)
  }

  method PreviousVisibleRow(folds: seq<Fold>, row: nat) returns (above: nat)
    requires AllResolved(folds)
    ensures above == ShownAbove(folds, row)
    ensures !Hidden(folds, above)
  {
    above := if row == 0 then 0 else row - 1;
    while true
      invariant above <= row && (row > 0 ==> above < row)
      invariant forall k :: above < k < row ==> Hidden(folds, k)
      decreases above
    {
      match HidingFold(folds, above) {
        case None => return;
        case Some(fold) =>
          assert fold.Resolved();
          above := fold.anchor;
      }
    }
  }

  method NextVisibleRow(folds: seq<Fold>, row: nat, last: nat) returns (below: nat)
    requires row <= last
    ensures below == match ShownBelow(folds, row, last) case Some(shown) => shown case None => row
  {
    below := if row + 1 <= last then row + 1 else last;
    while Hidden(folds, below)
      invariant row <= below <= last && (row < last ==> row < below)
      invariant forall k :: row < k < below ==> Hidden(folds, k)
      decreases last - below
    {
      var fold := HidingFold(folds, below).value;
      if fold.end > last {
        return row;
      }
      below := fold.end;
    }
  }

  // -------------------------------------------------------------- the view

  /** One screen row: a document row, and which of its segments. */
  datatype Spot = Spot(row: nat, segment: nat) {
    predicate Before(other: Spot) {
      row < other.row || (row == other.row && segment < other.segment)
    }
  }

  /** How many segments each row wraps into, and what is folded away. */
  datatype View = View(folds: seq<Fold>, segments: seq<nat>, softWrap: bool) {
    ghost predicate Sound() {
      AllResolved(folds) && segments != [] && forall row :: 0 <= row < |segments| ==> segments[row] >= 1
    }

    function LastRow(): nat {
      if segments == [] then 0 else |segments| - 1
    }

    function Count(row: nat): nat
      requires row < |segments|
    {
      if softWrap then segments[row] else 1
    }

    predicate Shows(spot: Spot) {
      spot.row < |segments| && !Hidden(folds, spot.row) && spot.segment < Count(spot.row)
    }

    function Below(row: nat): Option<Spot> {
      match ShownBelow(folds, row, LastRow())
      case Some(shown) => Some(Spot(shown, 0))
      case None => None
    }

    function Next(spot: Spot): Option<Spot>
      requires Shows(spot)
    {
      if spot.segment + 1 < Count(spot.row) then Some(Spot(spot.row, spot.segment + 1)) else Below(spot.row)
    }

    /** The spot one visual row back, also from a row that is hidden or a segment
        that is not there. */
    function Previous(spot: Spot): Option<Spot>
      requires spot.row < |segments|
    {
      if softWrap && spot.segment > 0 then Some(Spot(spot.row, spot.segment - 1))
      else if spot.row > 0 then
        var above := ShownAbove(folds, spot.row);
        Some(Spot(above, if Count(above) > 0 then Count(above) - 1 else 0))
      else None
    }

    /** The first spot shown from a segment of a row on, hidden or not. */
    function From(row: nat, segment: nat): Option<Spot> {
      if row >= |segments| then None
      else
        var first := if softWrap then segment else 0;
        if !Hidden(folds, row) && first < Count(row) then Some(Spot(row, first)) else Below(row)
    }

    /** Where a projection asked for `row` and `segment` begins: on the row, or
        on the anchor of the fold that hides it. */
    function Start(row: nat, segment: nat): Option<Spot> {
      var asked := if row <= LastRow() then row else LastRow();
      match HidingFold(folds, asked)
      case Some(fold) => From(fold.anchor, segment)
      case None => From(asked, segment)
    }
  }

  lemma {:induction false} FirstRowIsShown(folds: seq<Fold>)
    requires AllResolved(folds)
    ensures !Hidden(folds, 0)
  {
  }

  lemma {:induction false} NextIsShown(v: View, spot: Spot)
    requires v.Sound() && v.Shows(spot) && v.Next(spot).Some?
    ensures v.Shows(v.Next(spot).value) && spot.Before(v.Next(spot).value)
  {
  }

  /** Nothing that is shown lies between a spot and the next. */
  lemma {:induction false} NothingBetween(v: View, spot: Spot, other: Spot)
    requires v.Sound() && v.Shows(spot) && v.Shows(other) && spot.Before(other)
    ensures v.Next(spot).Some?
    ensures other == v.Next(spot).value || v.Next(spot).value.Before(other)
  {
  }

  /** Going one back and then one on ends where it began. */
  lemma {:induction false} PreviousThenNext(v: View, spot: Spot)
    requires v.Sound() && v.Shows(spot)
    ensures v.Previous(spot).None? <==> spot == Spot(0, 0)
    ensures v.Previous(spot).Some? ==> v.Shows(v.Previous(spot).value) && v.Next(v.Previous(spot).value) == Some(spot)
  {
  }

  // ------------------------------------------------------------- projecting

  /** The next `n` spots from `from` on. */
  function Forward(v: View, from: Option<Spot>, n: nat): (spots: seq<Spot>)
    requires v.Sound() && (from.Some? ==> v.Shows(from.value))
    ensures |spots| <= n
    ensures n > 0 && from.Some? ==> |spots| > 0 && spots[0] == from.value
    ensures forall i :: 0 <= i < |spots| ==> v.Shows(spots[i])
    decreases n
  {
    if n == 0 || from.None? then []
    else
      var next := v.Next(from.value);
      assert next.Some? ==> v.Shows(next.value) by {
        if next.Some? {
          NextIsShown(v, from.value);
        }
      }
      [from.value] + Forward(v, next, n - 1)
  }

  /** A projection shows every spot from where it begins until it is full. */
  lemma {:induction false} ForwardLeavesNothingOut(v: View, from: Spot, n: nat, other: Spot)
    requires v.Sound() && v.Shows(from) && v.Shows(other) && (other == from || from.Before(other))
    ensures other in Forward(v, Some(from), n)
            || (|Forward(v, Some(from), n)| == n && (n > 0 ==> Forward(v, Some(from), n)[n - 1].Before(other)))
    decreases n
  {
    if n > 0 && other != from {
      NothingBetween(v, from, other);
      var next := v.Next(from).value;
      NextIsShown(v, from);
      ForwardLeavesNothingOut(v, next, n - 1, other);
      assert Forward(v, Some(from), n) == [from] + Forward(v, Some(next), n - 1);
    }
  }

  /** Spots follow one another as they are shown. */
  lemma {:induction false} ForwardFollows(v: View, from: Spot, n: nat, i: nat)
    requires v.Sound() && v.Shows(from) && i < |Forward(v, Some(from), n)|
    ensures i + 1 < |Forward(v, Some(from), n)| ==>
      v.Next(Forward(v, Some(from), n)[i]) == Some(Forward(v, Some(from), n)[i + 1])
    ensures i + 1 == |Forward(v, Some(from), n)| < n ==> v.Next(Forward(v, Some(from), n)[i]) == None
    decreases n
  {
    var next := v.Next(from);
    if next.Some? {
      NextIsShown(v, from);
      assert Forward(v, Some(from), n) == [from] + Forward(v, next, n - 1);
      if i > 0 {
        ForwardFollows(v, next.value, n - 1, i - 1);
      }
    }
  }

  // ---------------------------------------------------------- moving back

  function Back(v: View, spot: Spot, n: nat): (start: Spot)
    requires v.Sound() && spot.row < |v.segments|
    ensures start.row <= spot.row
    decreases n
  {
    if n == 0 || v.Previous(spot).None? then spot else Back(v, v.Previous(spot).value, n - 1)
  }

  /** However hidden the row it began on, a viewport that has left it is at a
      spot that is shown. */
  lemma {:induction false} BackIsShown(v: View, spot: Spot, n: nat)
    requires v.Sound() && spot.row < |v.segments|
    ensures v.Shows(spot) || Back(v, spot, n).row < spot.row ==> v.Shows(Back(v, spot, n))
    decreases n
  {
    FirstRowIsShown(v.folds);
    if n > 0 && v.Previous(spot).Some? {
      BackIsShown(v, v.Previous(spot).value, n - 1);
    }
  }

  /** How many of `n` moves back are made before the top stops them. */
  function Moves(v: View, spot: Spot, n: nat): (moves: nat)
    requires v.Sound() && v.Shows(spot)
    ensures moves <= n
    decreases n
  {
    PreviousThenNext(v, spot);
    if n == 0 || v.Previous(spot).None? then 0 else 1 + Moves(v, v.Previous(spot).value, n - 1)
  }

  /** A viewport moved back `n` rows shows the row it began with at the end of
      `n + 1` rows; if the top stopped it after `k`, at index `k`. */
  lemma {:induction false} MovingBackShowsTheSpot(v: View, spot: Spot, n: nat)
    requires v.Sound() && v.Shows(spot)
    ensures v.Shows(Back(v, spot, n))
    ensures Moves(v, spot, n) < |Forward(v, Some(Back(v, spot, n)), n + 1)|
    ensures Forward(v, Some(Back(v, spot, n)), n + 1)[Moves(v, spot, n)] == spot
    ensures Moves(v, spot, n) < n ==> Back(v, spot, n) == Spot(0, 0)
    ensures Moves(v, spot, n) == n ==> |Forward(v, Some(Back(v, spot, n)), n + 1)| == n + 1
    decreases n
  {
    hide View.Next, View.Previous, View.Below, Forward, Hidden;
    PreviousThenNext(v, spot);
    if n == 0 || v.Previous(spot).None? {
      OneSpotForward(v, spot, n);
    } else {
      var previous := v.Previous(spot).value;
      MovingBackShowsTheSpot(v, previous, n - 1);
      var start, k := Back(v, previous, n - 1), Moves(v, previous, n - 1);
      LongerForward(v, Some(start), n);
      ForwardFollows(v, start, n + 1, k);
    }
  }

  lemma {:induction false} OneSpotForward(v: View, spot: Spot, n: nat)
    requires v.Sound() && v.Shows(spot)
    ensures |Forward(v, Some(spot), n + 1)| > 0 && Forward(v, Some(spot), n + 1)[0] == spot
    ensures n == 0 ==> |Forward(v, Some(spot), n + 1)| == 1
  {
  }

  lemma {:induction false} LongerForward(v: View, from: Option<Spot>, n: nat)
    requires v.Sound() && (from.Some? ==> v.Shows(from.value))
    ensures Forward(v, from, n) <= Forward(v, from, n + 1)
    decreases n
  {
    if n > 0 && from.Some? {
      if v.Next(from.value).Some? {
        NextIsShown(v, from.value);
      }
      LongerForward(v, v.Next(from.value), n - 1);
    }
  }

  // ------------------------------------------------------------ the methods

  /** One prepared screen row. A filler row has no document row. */
  datatype PreparedRow = PreparedRow(row: Option<nat>, segment: Option<nat>, continuation: bool, folded: bool,
                                     foldedLines: Option<nat>)

  /** How many lines the largest fold that hangs on a row takes away, if any. */
  function FoldedLines(folds: seq<Fold>, row: nat): (lines: Option<nat>)
    ensures lines.None? <==> forall i :: 0 <= i < |folds| && folds[i].anchor == row ==> folds[i].HiddenLines() == 0
    ensures lines.Some? ==>
      exists i :: 0 <= i < |folds| && folds[i].anchor == row && folds[i].HiddenLines() == lines.value
    ensures lines.Some? ==> forall i :: 0 <= i < |folds| && folds[i].anchor == row ==>
          folds[i].HiddenLines() <= lines.value
  {
    if folds == [] then None
    else
      var last, others := folds[|folds| - 1], FoldedLines(folds[..|folds| - 1], row);
      assert forall i :: 0 <= i < |folds| - 1 ==> folds[i] == folds[..|folds| - 1][i];
      if last.anchor == row && last.HiddenLines() > (if others.Some? then others.value else 0)
      then Some(last.HiddenLines()) else others
  }

  /** How a spot looks: only the last segment tells what is folded below it. */
  function Prepared(v: View, spot: Spot): PreparedRow
    requires v.Shows(spot)
  {
    var lines := FoldedLines(v.folds, spot.row);
    PreparedRow(Some(spot.row), if v.softWrap then Some(spot.segment) else None, spot.segment > 0, lines.Some?,
                if spot.segment + 1 == v.Count(spot.row) then lines else None)
  }

  function PreparedAll(v: View, spots: seq<Spot>): (rows: seq<PreparedRow>)
    requires forall i :: 0 <= i < |spots| ==> v.Shows(spots[i])
  {
    seq(|spots|, i requires 0 <= i < |spots| => Prepared(v, spots[i]))
  }

  /** A mark of `n` lines is on the last segment of a row, and the next `n` rows
      are hidden; a last segment without one is right above a row that is shown,
      unless it is the last row. */
  lemma {:induction false} MarksTellWhatIsHidden(v: View, spot: Spot)
    requires v.Sound() && v.Shows(spot)
    ensures var p := Prepared(v, spot);
            && (p.foldedLines.Some? ==>
                  && p.folded && p.foldedLines.value > 0 && spot.segment + 1 == v.Count(spot.row)
                  && forall row :: spot.row < row <= spot.row + p.foldedLines.value ==> Hidden(v.folds, row))
            && (p.foldedLines.None? && spot.segment + 1 == v.Count(spot.row) ==>
                  !p.folded && !Hidden(v.folds, spot.row + 1))
            && (p.folded <==> Hidden(v.folds, spot.row + 1))
            && (p.continuation <==> spot.segment > 0)
            && p.row == Some(spot.row) && p.segment == if v.softWrap then Some(spot.segment) else None
  {
    var lines := FoldedLines(v.folds, spot.row);
    forall i | 0 <= i < |v.folds| && v.folds[i].Hides(spot.row + 1)
      ensures v.folds[i].anchor == spot.row && v.folds[i].HiddenLines() > 0
    {
      assert v.folds[i].Resolved() && !v.folds[i].Hides(spot.row);
    }
    if lines.Some? {
      var i :| 0 <= i < |v.folds| && v.folds[i].anchor == spot.row && v.folds[i].HiddenLines() == lines.value;
      assert v.folds[i].Resolved();
      forall row | spot.row < row <= spot.row + lines.value ensures Hidden(v.folds, row) {
        assert v.folds[i].Hides(row);
      }
    }
  }

  /** Asked for a hidden row, a projection begins on the nearest shown row above,
      if the outermost fold that hides it hangs on a shown row. */
  lemma {:induction false} HiddenRowsStartAbove(v: View, row: nat, segment: nat)
    requires v.Sound() && row < |v.segments| && Hidden(v.folds, row)
    requires !Hidden(v.folds, HidingFold(v.folds, row).value.anchor)
    ensures HidingFold(v.folds, row).value.anchor == ShownAbove(v.folds, row)
    ensures v.Start(row, segment) == v.From(ShownAbove(v.folds, row), segment)
  {
    var fold := HidingFold(v.folds, row).value;
    assert fold.Resolved();
    forall k | fold.anchor < k < row ensures Hidden(v.folds, k) {
      assert fold.Hides(k);
    }
  }

  lemma {:induction false} StartIsShown(v: View, row: nat, segment: nat)
    requires v.Sound()
    ensures v.Start(row, segment).Some? ==> v.Shows(v.Start(row, segment).value)
    ensures v.Shows(Spot(row, segment)) ==> v.Start(row, segment) == Some(Spot(row, segment))
  {
  }

  /** Jumping past the fold that hides a row leaves out nothing that is shown. */
  lemma {:induction false} JumpLeavesNothingOut(v: View, row: nat, segment: nat, fold: Fold)
    requires v.Sound() && row < |v.segments| && fold in v.folds && fold.Hides(row)
    ensures v.From(row, segment) == v.From(fold.end, 0)
  {
  }

  /** What has been prepared so far, and where it goes on. */
  ghost predicate Projected(v: View, start: Option<Spot>, height: nat, rows: seq<PreparedRow>, spots: seq<Spot>,
                            from: Option<Spot>)
    requires v.Sound()
  {
    && (start.Some? ==> v.Shows(start.value)) && (from.Some? ==> v.Shows(from.value))
    && |spots| <= height && (forall i :: 0 <= i < |spots| ==> v.Shows(spots[i]))
    && rows == PreparedAll(v, spots)
    && spots + Forward(v, from, height - |spots|) == Forward(v, start, height)
  }

  lemma {:induction false} OneMoreSpot(v: View, start: Option<Spot>, height: nat, rows: seq<PreparedRow>,
                                       spots: seq<Spot>, spot: Spot)
    requires v.Sound() && Projected(v, start, height, rows, spots, Some(spot)) && |spots| < height
    ensures v.Shows(spot) && Projected(v, start, height, rows + [Prepared(v, spot)], spots + [spot], v.Next(spot))
  {
    if v.Next(spot).Some? {
      NextIsShown(v, spot);
    }
    var left := height - |spots|;
    assert Forward(v, Some(spot), left) == [spot] + Forward(v, v.Next(spot), left - 1);
    hide Forward, View.Next, Prepared, Hidden;
    assert spots + ([spot] + Forward(v, v.Next(spot), left - 1))
        == (spots + [spot]) + Forward(v, v.Next(spot), left - 1);
    assert PreparedAll(v, spots + [spot]) == PreparedAll(v, spots) + [Prepared(v, spot)];
  }

  lemma {:induction false} FullIsForward(v: View, start: Option<Spot>, height: nat, rows: seq<PreparedRow>,
                                         spots: seq<Spot>, from: Option<Spot>)
    requires v.Sound() && Projected(v, start, height, rows, spots, from)
    requires from.None? || |rows| == height
    ensures start.Some? ==> v.Shows(start.value)
    ensures rows == PreparedAll(v, Forward(v, start, height))
  {
  }

  lemma {:induction false} BelowIsFrom(v: View, row: nat)
    requires v.Sound() && row < |v.segments| && v.Below(row).Some?
    ensures v.Below(row) == v.From(v.Below(row).value.row, 0)
  {
  }

  lemma {:induction false} BelowIsNearest(v: View, row: nat)
    ensures v.Below(row) ==
      match ShownBelow(v.folds, row, v.LastRow()) case Some(shown) => Some(Spot(shown, 0)) case None => None
  {
  }

  lemma {:induction false} ProjectedFits(v: View, start: Option<Spot>, height: nat, rows: seq<PreparedRow>,
                                         spots: seq<Spot>, from: Option<Spot>)
    requires v.Sound() && Projected(v, start, height, rows, spots, from)
    ensures |rows| == |spots| <= height
    ensures from.Some? ==> v.Shows(from.value)
  {
  }

  /** Pushes the segments of one row, as far as they fit. */
  method ProjectRow(v: View, row: nat, initial: nat, height: nat, rows: seq<PreparedRow>,
                    ghost start: Option<Spot>, ghost spots: seq<Spot>)
      returns (rows': seq<PreparedRow>, ghost spots': seq<Spot>, ghost from: Option<Spot>)
    requires v.Sound() && row < |v.segments| && !Hidden(v.folds, row)
    requires Projected(v, start, height, rows, spots, v.From(row, initial)) && |rows| < height
    ensures Projected(v, start, height, rows', spots', from)
    ensures |rows'| < height ==> from == v.Below(row)
    ensures |rows'| <= height
  {
    hide Projected, Prepared, Hidden;
    ProjectedFits(v, start, height, rows, spots, v.From(row, initial));
    rows', spots', from := rows, spots, v.From(row, initial);
    var lines := FoldedLines(v.folds, row);
    if v.softWrap {
      var segment := initial;
      while segment < v.segments[row]
        invariant Projected(v, start, height, rows', spots', from)
        invariant |rows'| == |spots'| <= height
        invariant from == if segment < v.segments[row] then Some(Spot(row, segment)) else v.Below(row)
      {
        if |rows'| == height {
          break;
        }
        var shown := PreparedRow(Some(row), Some(segment), segment > 0, lines.Some?,
                                 if segment + 1 == v.segments[row] then lines else None);
        OneMoreSpot(v, start, height, rows', spots', Spot(row, segment));
        assert shown == Prepared(v, Spot(row, segment)) by { PreparedInFull(v, row, segment); }
        rows', spots', from := rows' + [shown], spots' + [Spot(row, segment)], v.Next(Spot(row, segment));
        segment := segment + 1;
        ProjectedFits(v, start, height, rows', spots', from);
      }
    } else {
      OneMoreSpot(v, start, height, rows, spots, Spot(row, 0));
      assert Prepared(v, Spot(row, 0))
          == PreparedRow(Some(row), None, false, lines.Some?, lines) by { PreparedInFull(v, row, 0); }
      rows' := rows + [PreparedRow(Some(row), None, false, lines.Some?, lines)];
      spots', from := spots + [Spot(row, 0)], v.Next(Spot(row, 0));
      ProjectedFits(v, start, height, rows', spots', from);
    }
  }

  lemma {:induction false} PreparedInFull(v: View, row: nat, segment: nat)
    requires v.Shows(Spot(row, segment))
    ensures Prepared(v, Spot(row, segment)) ==
            PreparedRow(Some(row), if v.softWrap then Some(segment) else None, segment > 0,
                        FoldedLines(v.folds, row).Some?,
                        if segment + 1 == v.Count(row) then FoldedLines(v.folds, row) else None)
  {
  }

  lemma {:induction false} NothingProjected(v: View, start: Option<Spot>, height: nat)
    requires v.Sound() && (start.Some? ==> v.Shows(start.value))
    ensures Projected(v, start, height, [], [], start)
  {
  }

  /** A viewport prepared from a row and a segment: the spots that are shown, one
      after another, until the height is filled. */
  method ProjectVisibleRows(v: View, startRow: nat, startSegment: nat, height: nat) returns (rows: seq<PreparedRow>)
    requires v.Sound()
    ensures v.Start(startRow, startSegment).Some? ==> v.Shows(v.Start(startRow, startSegment).value)
    ensures rows == PreparedAll(v, Forward(v, v.Start(startRow, startSegment), height))
  {
    StartIsShown(v, startRow, startSegment);
    ghost var start := v.Start(startRow, startSegment);
    ghost var spots: seq<Spot>, from := [], start;
    rows := [];
    var row, initial := if startRow <= v.LastRow() then startRow else v.LastRow(), startSegment;
    var fold := HidingFold(v.folds, row);
    if fold.Some? {
      row := fold.value.anchor;
    }
    NothingProjected(v, start, height);
    hide View.From, View.Start, Prepared, Projected, View.Below;
    while |rows| < height && row < |v.segments|
      invariant |rows| <= height
      invariant |rows| < height ==> from == v.From(row, initial)
      invariant Projected(v, start, height, rows, spots, from)
      decreases |v.segments| - row
    {
      fold := HidingFold(v.folds, row);
      if fold.Some? {
        JumpLeavesNothingOut(v, row, initial, fold.value);
        row, initial := fold.value.end, 0;
        continue;
      }
      rows, spots, from := ProjectRow(v, row, initial, height, rows, start, spots);
      var next := NextVisibleRow(v.folds, row, v.LastRow());
      if next == row {
        assert |rows| < height ==> from == None by { BelowIsNearest(v, row); }
        break;
      }
      BelowIsNearest(v, row);
      BelowIsFrom(v, row);
      row, initial := next, 0;
    }
    FullIsForward(v, start, height, rows, spots, from);
  }

  method MoveProjectedStartBackward(v: View, row: nat, segment: nat, amount: nat) returns (row': nat, segment': nat)
    requires v.Sound() && row < |v.segments|
    ensures Spot(row', segment') == Back(v, Spot(row, segment), amount)
  {
    row', segment' := row, segment;
    var left := amount;
    while left > 0
      invariant row' < |v.segments|
      invariant Back(v, Spot(row', segment'), left) == Back(v, Spot(row, segment), amount)
    {
      if v.softWrap && segment' > 0 {
        segment' := segment' - 1;
      } else if row' > 0 {
        var previous := PreviousVisibleRow(v.folds, row');
        row' := previous;
        segment' := if v.softWrap then v.segments[row'] - 1 else 0;
      } else {
        break;
      }
      left := left - 1;
    }
  }
}