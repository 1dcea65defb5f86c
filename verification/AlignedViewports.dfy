/** The screen rows of a live diff, and that both its panes keep them level. */
module AlignedViewports {
  import opened Wrappers
  import opened Alignments
  import V = Viewports

  /** Everything from an aligned row on, until the pane's last line or `height`. */
  function Stretch(a: Alignment, side: Side, lines: nat, start: nat, height: nat): (rows: seq<Option<nat>>)
    ensures |rows| <= height
    decreases height
  {
    if height == 0 || (a.RowAt(side, start).Some? && a.RowAt(side, start).value >= lines) then []
    else [a.RowAt(side, start)] + Stretch(a, side, lines, start + 1, height - 1)
  }

  /** Each screen row shows what its aligned row has on this side, and only the
      end of the text stops them. */
  lemma {:induction false} StretchShows(a: Alignment, side: Side, lines: nat, start: nat, height: nat, k: nat)
    requires k <= |Stretch(a, side, lines, start, height)|
    ensures k < |Stretch(a, side, lines, start, height)| ==>
      && Stretch(a, side, lines, start, height)[k] == a.RowAt(side, start + k)
      && (a.RowAt(side, start + k).Some? ==> a.RowAt(side, start + k).value < lines)
    ensures k == |Stretch(a, side, lines, start, height)| < height ==>
      a.RowAt(side, start + k).Some? && a.RowAt(side, start + k).value >= lines
    decreases height
  {
    hide Alignment.RowAt;
    if k > 0 {
      StretchShows(a, side, lines, start + 1, height - 1, k - 1);
      assert start + 1 + (k - 1) == start + k;
    }
  }

  function AsPrepared(row: Option<nat>): V.PreparedRow {
    V.PreparedRow(row, None, false, false, None)
  }

  method ProjectAlignedRows(a: Alignment, side: Side, lines: nat, start: nat, height: nat)
      returns (rows: seq<V.PreparedRow>)
    ensures |rows| <= height
    ensures |rows| == |Stretch(a, side, lines, start, height)|
    ensures forall k :: 0 <= k < |rows| ==> rows[k] == AsPrepared(Stretch(a, side, lines, start, height)[k])
  {
    hide Alignment.RowAt;
    rows := [];
    ghost var whole := Stretch(a, side, lines, start, height);
    var at := start;
    while |rows| < height
      invariant |rows| <= |whole| && at == start + |rows|
      invariant forall k :: 0 <= k < |rows| ==> rows[k] == AsPrepared(whole[k])
    {
      var row := a.RowAt(side, at);
      StretchShows(a, side, lines, start, height, |rows|);
      if row.Some? && row.value >= lines {
        break;
      }
      assert |rows| < |whole|;
      rows := rows + [AsPrepared(row)];
      at := at + 1;
    }
  }

  /** Every line of a pane is on screen exactly where its aligned row is. */
  lemma {:induction false} EveryLineIsInPlace(a: Alignment, side: Side, lines: nat, start: nat, height: nat, row: nat)
    requires a.WellFormed() && row < lines
    requires start <= a.AlignedRow(side, row) < start + height
    ensures a.AlignedRow(side, row) - start < |Stretch(a, side, lines, start, height)|
    ensures Stretch(a, side, lines, start, height)[a.AlignedRow(side, row) - start] == Some(row)
  {
    hide Alignment.RowAt, Alignment.AlignedRow, Alignment.WellFormed;
    var rows := Stretch(a, side, lines, start, height);
    EveryRowIsFoundAgain(a, side, row);
    if |rows| <= a.AlignedRow(side, row) - start {
      StretchShows(a, side, lines, start, height, |rows|);
      var stop := a.RowAt(side, start + |rows|).value;
      EveryShownRowMapsBack(a, side, start + |rows|);
      AlignedRowIncreases(a, side, row, stop);
    }
    StretchShows(a, side, lines, start, height, a.AlignedRow(side, row) - start);
  }

  /** Two panes handed the same start show level rows on the same screen row,
      and rows on the same screen row are level. */
  lemma {:induction false} PanesStayLevel(a: Alignment, lines: nat, others: nat, start: nat, height: nat, k: nat)
    requires a.WellFormed()
    requires k < |Stretch(a, Left, lines, start, height)| && k < |Stretch(a, Right, others, start, height)|
    requires Stretch(a, Left, lines, start, height)[k].Some? && Stretch(a, Right, others, start, height)[k].Some?
    ensures a.Level(Left, Stretch(a, Left, lines, start, height)[k].value,
                    Stretch(a, Right, others, start, height)[k].value)
  {
    hide Alignment.RowAt, Alignment.AlignedRow, Alignment.WellFormed;
    StretchShows(a, Left, lines, start, height, k);
    StretchShows(a, Right, others, start, height, k);
    EveryShownRowMapsBack(a, Left, start + k);
    EveryShownRowMapsBack(a, Right, start + k);
  }
}
