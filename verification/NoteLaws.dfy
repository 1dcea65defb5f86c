/** What carrying an edit through an alignment does to the rows it leaves alone. */
module NoteLaws {
  import opened Wrappers
  import opened Alignments
  import opened Splices
  import opened SpliceLaws
  import opened TextRows
  import opened DiffSessions
  import T = Texts

  /** No change reaches over the start of the row that starts at `start`: it ends
      by there or begins inside the row or below. */
  predicate StartIsKept(changes: T.Transaction, start: nat) {
    forall i :: 0 <= i < |changes| ==> changes[i].to <= start || start < changes[i].from
  }

  /** Line breaks a change adds, less those it removes. */
  function Net(chars: string, change: T.TextChange): int
    requires change.from <= change.to <= |chars|
  {
    Newlines(change.text) - Newlines(chars[change.from..change.to])
  }

  /** Line breaks the changes above `start` add, less those they remove. */
  function NetAbove(chars: string, changes: T.Transaction, start: nat): int
    requires T.Ordered(changes, |chars|)
    decreases |changes|
  {
    if changes == [] then 0
    else
      var n := |changes| - 1;
      T.OrderedFront(changes, |chars|);
      T.PrefixOrdered(changes, |chars|, n);
      (if changes[n].to <= start then Net(chars, changes[n]) else 0) + NetAbove(chars, changes[..n], start)
  }

  /** The change starts inside a row and swallows line breaks up to the very
      start of a row that is, by now, number `row`. */
  predicate Cuts(chars: string, change: T.TextChange, row: int)
    requires change.from <= change.to <= |chars|
  {
    && ColOf(chars, change.from) > 0
    && change.from < change.to
    && AtLineStart(chars, change.to)
    && row == RowOf(chars, change.to)
  }

  /** Reading the changes above `start` from the last one up, one of them cuts
      the row that starts at `start`; `row` is its number so far. */
  predicate Severed(chars: string, changes: T.Transaction, start: nat, row: int)
    requires T.Ordered(changes, |chars|)
    decreases |changes|
  {
    changes != [] &&
    var n := |changes| - 1;
    T.OrderedFront(changes, |chars|);
    T.PrefixOrdered(changes, |chars|, n);
    if changes[n].to <= start then
      Cuts(chars, changes[n], row) || Severed(chars, changes[..n], start, row + Net(chars, changes[n]))
    else Severed(chars, changes[..n], start, row)
  }

  /** No row of `side`, real or past the end, is level with `other`. */
  ghost predicate FacesNobody(a: Alignment, side: Side, other: nat) {
    forall row: nat :: !a.Level(side, row, other)
  }

  /** Row `row` of `a` is row `moved` of `r`, and level with `other` there
      exactly when it was. */
  ghost predicate StaysLevel(a: Alignment, r: Alignment, side: Side, row: nat, moved: int, other: nat) {
    0 <= moved < r.Lines(side) && (r.Level(side, moved, other) <==> a.Level(side, row, other))
  }

  /** If row `row` was level with `other`, nothing is any more. */
  ghost predicate Orphans(a: Alignment, r: Alignment, side: Side, row: nat, other: nat) {
    a.Level(side, row, other) ==> FacesNobody(r, side, other)
  }

  // ------------------------------------------------------------ one splice

  lemma {:induction false} NobodyStaysNobody(e: Edit, other: nat)
    requires e.a.WellFormed() && FacesNobody(e.a, e.side, other)
    ensures FacesNobody(e.Result(), e.side, other)
  {
    hide Spliced, Alignment.AlignedRow, Alignment.WellFormed;
    forall row: nat ensures !e.Result().Level(e.side, row, other) {
      if row < e.First() {
        SurvivorsStayLevel(e, row, other);
      } else if row < e.First() + e.inserted {
        InsertedFaceFiller(e, row - e.First(), other);
      } else {
        var was := row - e.inserted + (e.Last() - e.First());
        SurvivorsStayLevel(e, was, other);
      }
    }
  }

  lemma {:induction false} CarriedKeepsNobody(a: Alignment, side: Side, chars: string, changes: T.Transaction,
                                              other: nat)
    requires a.WellFormed() && T.Ordered(changes, |chars|) && FacesNobody(a, side, other)
    ensures FacesNobody(Carried(a, side, chars, changes), side, other)
    decreases |changes|
  {
    if changes != [] {
      var n := |changes| - 1;
      T.OrderedFront(changes, |chars|);
      T.PrefixOrdered(changes, |chars|, n);
      hide Spliced, Alignment.WellFormed, T.Ordered, FacesNobody;
      NobodyStaysNobody(EditOf(a, side, chars, changes[n]), other);
      CarriedKeepsNobody(CarriedOnce(a, side, chars, changes[n]), side, chars, changes[..n], other);
    }
  }

  /** The splice a change asks for. */
  function EditOf(a: Alignment, side: Side, chars: string, change: T.TextChange): Edit
    requires change.from <= change.to <= |chars|
  {
    Edit(a, side, FirstRowFrom(chars, change.from), Newlines(chars[change.from..change.to]), Newlines(change.text))
  }

  /** A change below the row leaves it and its number alone. */
  lemma {:induction false} BelowLeavesAlone(a: Alignment, side: Side, chars: string, change: T.TextChange,
                                            start: nat, row: nat, other: nat)
    requires a.WellFormed() && start < |chars| && row == RowOf(chars, start)
    requires start < change.from <= change.to <= |chars|
    requires row < a.Lines(side)
    ensures StaysLevel(a, CarriedOnce(a, side, chars, change), side, row, row, other)
  {
    var e := EditOf(a, side, chars, change);
    RowStartsBelow(chars, start, change.from);
    hide Spliced, Alignment.WellFormed, Alignment.AlignedRow, Newlines, ColOf;
    SurvivorsStayLevel(e, row, other);
    SpliceLineCounts(e);
  }

  /** The first row that starts at or after an offset further on is a later one. */
  lemma {:induction false} RowStartsBelow(chars: string, start: nat, from: nat)
    requires start < from <= |chars|
    ensures RowOf(chars, start) < FirstRowFrom(chars, from)
  {
    RowsBetween(chars, start, from);
    if AtLineStart(chars, from) {
      assert chars[start..from][from - 1 - start] == '\n';
      SomeNewline(chars[start..from], from - 1 - start);
    }
  }

  /** A row at or below the start of a splice moves with it or is removed. */
  lemma {:induction false} MovesOrVanishes(e: Edit, row: nat, other: nat)
    requires e.a.WellFormed() && e.start <= row < e.a.Lines(e.side)
    ensures e.start + e.removed <= row ==>
              StaysLevel(e.a, e.Result(), e.side, row, row - e.removed + e.inserted, other)
    ensures row < e.start + e.removed ==> Orphans(e.a, e.Result(), e.side, row, other)
  {
    hide Spliced, Alignment.WellFormed, Alignment.AlignedRow;
    SpliceLineCounts(e);
    if e.start + e.removed <= row {
      SurvivorsStayLevel(e, row, other);
    } else if e.a.Level(e.side, row, other) {
      forall any: nat ensures !e.Result().Level(e.side, any, other) {
        RemovedLeaveFiller(e, row, other, any);
      }
    }
  }

  /** A change above the row, ending by its start: the row moves by the
      change's net line breaks, unless the change cuts it. */
  lemma {:induction false} AboveMovesOrCuts(a: Alignment, side: Side, chars: string, change: T.TextChange,
                                            frontier: nat, row: nat, other: nat)
    requires a.WellFormed() && row < a.Lines(side)
    requires change.from <= change.to <= frontier <= |chars|
    requires FirstRowFrom(chars, frontier) <= row
    ensures !Cuts(chars, change, row) ==>
              && FirstRowFrom(chars, change.from) <= row + Net(chars, change)
              && StaysLevel(a, CarriedOnce(a, side, chars, change), side, row, row + Net(chars, change), other)
    ensures Cuts(chars, change, row) ==> Orphans(a, CarriedOnce(a, side, chars, change), side, row, other)
  {
    hide Spliced, Alignment.WellFormed, Alignment.Level, Newlines, ColOf, Cuts, RowOf, FirstRowFrom, FacesNobody;
    WhereTheChangeEnds(chars, change, frontier, row);
    MovesOrVanishes(EditOf(a, side, chars, change), row, other);
  }

  /** The row lies below the rows a change removes exactly when it is not cut. */
  lemma {:induction false} WhereTheChangeEnds(chars: string, change: T.TextChange, frontier: nat, row: nat)
    requires change.from <= change.to <= frontier <= |chars|
    requires FirstRowFrom(chars, frontier) <= row
    ensures var first, removed := FirstRowFrom(chars, change.from), Newlines(chars[change.from..change.to]);
            && first <= row
            && (Cuts(chars, change, row) <==> row < first + removed)
            && (Cuts(chars, change, row) ==> removed > 0)
  {
    FirstRowAscends(chars, change.to, frontier);
    FirstRowAscends(chars, change.from, frontier);
    RowsBetween(chars, change.from, change.to);
    if change.from < change.to && AtLineStart(chars, change.to) {
      assert chars[change.from..change.to][change.to - 1 - change.from] == '\n';
      SomeNewline(chars[change.from..change.to], change.to - 1 - change.from);
    }
    FirstRowAscends(chars, change.from, change.to);
  }

  // ------------------------------------------------------ a whole transaction

  /** The changes above the row, from the nearest up. `frontier` is where the
      nearest one still to come has to end; `row` is the row's number so far. */
  lemma {:induction false} AboveTracked(a: Alignment, side: Side, chars: string, changes: T.Transaction,
                                        start: nat, frontier: nat, row: nat, other: nat)
    requires a.WellFormed() && row < a.Lines(side)
    requires frontier <= start <= |chars| && T.Ordered(changes, frontier) && T.Ordered(changes, |chars|)
    requires FirstRowFrom(chars, frontier) <= row
    ensures !Severed(chars, changes, start, row) ==>
              StaysLevel(a, Carried(a, side, chars, changes), side, row, row + NetAbove(chars, changes, start), other)
    ensures Severed(chars, changes, start, row) ==> Orphans(a, Carried(a, side, chars, changes), side, row, other)
    decreases |changes|
  {
    hide CarriedOnce, Spliced, Alignment.WellFormed, Alignment.Level, T.Ordered, FirstRowFrom, Net, Cuts, FacesNobody;
    if changes != [] {
      var n := |changes| - 1;
      var change := changes[n];
      T.OrderedFront(changes, frontier);
      T.OrderedFront(changes, |chars|);
      T.PrefixOrdered(changes, |chars|, n);
      AboveMovesOrCuts(a, side, chars, change, frontier, row, other);
      var once := CarriedOnce(a, side, chars, change);
      if !Cuts(chars, change, row) {
        AboveTracked(once, side, chars, changes[..n], start, change.from, row + Net(chars, change), other);
      } else if a.Level(side, row, other) {
        CarriedKeepsNobody(once, side, chars, changes[..n], other);
      }
    }
  }

  /** All the changes: those below the row first, then those above it. */
  lemma {:induction false} RowTracked(a: Alignment, side: Side, chars: string, changes: T.Transaction, start: nat,
                                      other: nat)
    requires a.WellFormed() && start < |chars| && AtLineStart(chars, start) && RowOf(chars, start) < a.Lines(side)
    requires T.Ordered(changes, |chars|) && StartIsKept(changes, start)
    ensures !Severed(chars, changes, start, RowOf(chars, start)) ==>
              StaysLevel(a, Carried(a, side, chars, changes), side, RowOf(chars, start),
                         RowOf(chars, start) + NetAbove(chars, changes, start), other)
    ensures Severed(chars, changes, start, RowOf(chars, start)) ==>
              Orphans(a, Carried(a, side, chars, changes), side, RowOf(chars, start), other)
    decreases |changes|
  {
    hide CarriedOnce, Spliced, Alignment.WellFormed, Alignment.Level, T.Ordered, RowOf, FacesNobody, StartIsKept,
      AtLineStart, Net, Cuts;
    var n := |changes| - 1;
    if changes == [] {
    } else if changes[n].to <= start {
      EndsBy(changes, |chars|, start);
      AboveTracked(a, side, chars, changes, start, start, RowOf(chars, start), other);
    } else {
      T.OrderedFront(changes, |chars|);
      T.PrefixOrdered(changes, |chars|, n);
      KeptByTheFront(changes, start);
      BelowLeavesAlone(a, side, chars, changes[n], start, RowOf(chars, start), other);
      RowTracked(CarriedOnce(a, side, chars, changes[n]), side, chars, changes[..n], start, other);
    }
  }

  lemma {:induction false} KeptByTheFront(changes: T.Transaction, start: nat)
    requires StartIsKept(changes, start) && changes != []
    ensures StartIsKept(changes[..|changes| - 1], start)
    ensures changes[|changes| - 1].to <= start || start < changes[|changes| - 1].from
  {
  }

  lemma {:induction false} EndsBy(changes: T.Transaction, end: nat, start: nat)
    requires T.Ordered(changes, end) && changes != [] && changes[|changes| - 1].to <= start
    ensures T.Ordered(changes, start)
  {
  }

  // ------------------------------------------- the row in the text afterwards

  lemma {:induction false} NewlinesApplied(chars: string, changes: T.Transaction, start: nat)
    requires T.Ordered(changes, |chars|) && |chars| <= start
    ensures Newlines(T.Applied(chars, changes)) == Newlines(chars) + NetAbove(chars, changes, start)
    decreases |changes|
  {
    if changes != [] {
      var n := |changes| - 1;
      var last := changes[n];
      T.OrderedFront(changes, |chars|);
      T.AppliedSplits(chars, changes);
      var front := chars[..last.from];
      NewlinesApplied(front, changes[..n], start);
      NetAboveOfFront(chars, last.from, changes[..n], start);
      hide T.Ordered, T.Applied, Newlines;
      NewlinesConcat(T.Applied(front, changes[..n]), last.text + chars[last.to..]);
      NewlinesConcat(last.text, chars[last.to..]);
      assert chars == front + chars[last.from..last.to] + chars[last.to..];
      NewlinesConcat(front + chars[last.from..last.to], chars[last.to..]);
      NewlinesConcat(front, chars[last.from..last.to]);
    }
  }

  /** Net line breaks read only the text the changes lie in. */
  lemma {:induction false} NetAboveOfFront(chars: string, end: nat, changes: T.Transaction, start: nat)
    requires end <= |chars| && T.Ordered(changes, end)
    ensures T.Ordered(changes, |chars|)
    ensures NetAbove(chars, changes, start) == NetAbove(chars[..end], changes, start)
    decreases |changes|
  {
    Widened(changes, end, |chars|);
    if changes != [] {
      var n := |changes| - 1;
      T.OrderedFront(changes, end);
      T.PrefixOrdered(changes, end, n);
      NetAboveOfFront(chars, end, changes[..n], start);
      assert chars[..end][changes[n].from..changes[n].to] == chars[changes[n].from..changes[n].to];
    }
  }

  lemma {:induction false} Widened(changes: T.Transaction, end: nat, further: nat)
    requires T.Ordered(changes, end) && end <= further
    ensures T.Ordered(changes, further)
  {
  }

  /** Where the kept row starts afterwards: inside the new text, with the
      row number the changes above it account for. */
  lemma {:induction false} RowAfterwards(chars: string, changes: T.Transaction, start: nat) returns (moved: nat)
    requires T.Ordered(changes, |chars|) && start < |chars| && StartIsKept(changes, start)
    ensures moved < |T.Applied(chars, changes)|
    ensures RowOf(T.Applied(chars, changes), moved) == RowOf(chars, start) + NetAbove(chars, changes, start)
  {
    moved := RowAfterwardsIn(chars, changes, start);
  }

  lemma {:induction false} RowAfterwardsIn(chars: string, changes: T.Transaction, start: nat) returns (moved: nat)
    requires T.Ordered(changes, |chars|) && start < |chars|
    requires forall i :: 0 <= i < |changes| ==> changes[i].to <= start || start < changes[i].from
    ensures moved < |T.Applied(chars, changes)|
    ensures RowOf(T.Applied(chars, changes), moved) == RowOf(chars, start) + NetAbove(chars, changes, start)
    decreases |changes|
  {
    var n := |changes| - 1;
    if changes == [] {
      moved := start;
    } else if changes[n].to <= start {
      EndsBy(changes, |chars|, start);
      var front, back := chars[..start], chars[start..];
      assert chars == front + back;
      T.AppliedInFront(front, back, changes);
      NewlinesApplied(front, changes, start);
      NetAboveOfFront(chars, start, changes, start);
      moved := |T.Applied(front, changes)|;
      assert T.Applied(chars, changes)[..moved] == T.Applied(front, changes);
    } else {
      var front := chars[..changes[n].from];
      T.AppliedSplits(chars, changes);
      NetAboveOfFront(chars, changes[n].from, changes[..n], start);
      moved := RowAfterwardsIn(front, changes[..n], start);
      assert front[..start] == chars[..start];
      assert T.Applied(chars, changes)[..moved] == T.Applied(front, changes[..n])[..moved];
    }
  }

  // ------------------------------------------------------------ the theorem

  /** A session that knows where `before` was, and the edit it is told of. */
  ghost predicate Follows(s: Session, side: Side, buffer: nat, before: T.Text, after: T.Text, changes: T.Transaction) {
    && Sound(s)
    && s.SideOf(buffer) == Some(side)
    && s.geometry.On(side) == before.revision
    && s.alignment.Lines(side) == VisibleLines(before.chars)
    && T.Ordered(changes, |before.chars|)
    && after.chars == T.Applied(before.chars, changes)
  }

  lemma {:induction false} SettlingKeepsRow(a: Alignment, side: Side, actual: nat, row: nat, other: nat)
    requires a.WellFormed() && row < actual && row < a.Lines(side)
    ensures Settled(a, side, actual).Level(side, row, other) <==> a.Level(side, row, other)
  {
    hide Spliced, Alignment.WellFormed, Alignment.AlignedRow;
    var projected := a.Lines(side);
    if actual != projected {
      SurvivorsStayLevel(Edit(a, side, Min(actual, projected), Less(projected, actual), Less(actual, projected)),
                         row, other);
    }
  }

  lemma {:induction false} SettlingKeepsNobody(a: Alignment, side: Side, actual: nat, other: nat)
    requires a.WellFormed() && FacesNobody(a, side, other)
    ensures FacesNobody(Settled(a, side, actual), side, other)
  {
    hide Spliced, Alignment.WellFormed, Alignment.AlignedRow, FacesNobody;
    var projected := a.Lines(side);
    if actual != projected {
      NobodyStaysNobody(Edit(a, side, Min(actual, projected), Less(projected, actual), Less(actual, projected)), other);
    }
  }

  /** A visible row whose start no change reaches over, whatever is edited inside
      it, is moved by the net line breaks above it and is level with an opposite
      row exactly when it was, unless a change cuts it; then the row it was level
      with faces nothing. */
  lemma {:induction false} KeptRowStaysLevel(s: Session, side: Side, buffer: nat, before: T.Text, after: T.Text,
                                             changes: T.Transaction, start: nat, other: nat)
    requires Follows(s, side, buffer, before, after, changes)
    requires start < |before.chars| && AtLineStart(before.chars, start) && StartIsKept(changes, start)
    ensures 0 <= RowOf(before.chars, start) + NetAbove(before.chars, changes, start) < VisibleLines(after.chars)
    ensures !Severed(before.chars, changes, start, RowOf(before.chars, start)) ==>
              (Noted(s, buffer, before, after, changes).alignment
                 .Level(side, RowOf(before.chars, start) + NetAbove(before.chars, changes, start), other)
               <==> s.alignment.Level(side, RowOf(before.chars, start), other))
    ensures Severed(before.chars, changes, start, RowOf(before.chars, start)) ==>
              Orphans(s.alignment, Noted(s, buffer, before, after, changes).alignment, side,
                      RowOf(before.chars, start), other)
  {
    hide Carried, Settled, RowOf, StartIsKept, NetAbove, Severed, VisibleLines, T.Applied, T.Ordered, AtLineStart,
         FacesNobody, Alignment.AlignedRow, Alignment.WellFormed;
    var at := RowAfterwards(before.chars, changes, start);
    OffsetIsVisible(after.chars, at);
    OffsetIsVisible(before.chars, start);
    var a := s.alignment;
    RowTracked(a, side, before.chars, changes, start, other);
    var carried := Carried(a, side, before.chars, changes);
    var moved: nat := RowOf(before.chars, start) + NetAbove(before.chars, changes, start);
    if !Severed(before.chars, changes, start, RowOf(before.chars, start)) {
      SettlingKeepsRow(carried, side, VisibleLines(after.chars), moved, other);
    } else if a.Level(side, RowOf(before.chars, start), other) {
      SettlingKeepsNobody(carried, side, VisibleLines(after.chars), other);
    }
  }

  /** So a row that was level with `other` stays level with it if and only if
      no change cuts it. */
  lemma {:induction false} LevelIffNotSevered(s: Session, side: Side, buffer: nat, before: T.Text, after: T.Text,
                                              changes: T.Transaction, start: nat, other: nat)
    requires Follows(s, side, buffer, before, after, changes)
    requires start < |before.chars| && AtLineStart(before.chars, start) && StartIsKept(changes, start)
    requires s.alignment.Level(side, RowOf(before.chars, start), other)
    ensures 0 <= RowOf(before.chars, start) + NetAbove(before.chars, changes, start)
    ensures Noted(s, buffer, before, after, changes).alignment
              .Level(side, RowOf(before.chars, start) + NetAbove(before.chars, changes, start), other)
            <==> !Severed(before.chars, changes, start, RowOf(before.chars, start))
  {
    hide Noted, RowOf, StartIsKept, NetAbove, Severed, VisibleLines, AtLineStart, Alignment.AlignedRow, Follows,
         Alignment.Level;
    KeptRowStaysLevel(s, side, buffer, before, after, changes, start, other);
  }

  // ------------------------------------------------ rows that are taken away

  /** The row starts where the change does or later, and the change takes its
      line break away. */
  predicate Swallows(chars: string, change: T.TextChange, row: nat) {
    change.from <= change.to <= |chars| && FirstRowFrom(chars, change.from) <= row < RowOf(chars, change.to)
  }

  lemma {:induction false} SwallowedOnce(a: Alignment, side: Side, chars: string, change: T.TextChange, row: nat,
                                         other: nat)
    requires a.WellFormed() && Swallows(chars, change, row) && row < a.Lines(side)
    ensures Orphans(a, CarriedOnce(a, side, chars, change), side, row, other)
  {
    hide Spliced, Alignment.WellFormed, Alignment.Level, Newlines, ColOf, FacesNobody;
    RowsBetween(chars, change.from, change.to);
    MovesOrVanishes(EditOf(a, side, chars, change), row, other);
  }

  lemma {:induction false} EarlierRowStays(a: Alignment, side: Side, chars: string, change: T.TextChange, row: nat,
                                           other: nat)
    requires a.WellFormed() && change.from <= change.to <= |chars|
    requires row < FirstRowFrom(chars, change.from) && row < a.Lines(side)
    ensures StaysLevel(a, CarriedOnce(a, side, chars, change), side, row, row, other)
  {
    hide Spliced, Alignment.WellFormed, Alignment.AlignedRow, Newlines, ColOf;
    var e := EditOf(a, side, chars, change);
    SurvivorsStayLevel(e, row, other);
    SpliceLineCounts(e);
  }

  lemma {:induction false} SwallowedIsOrphaned(a: Alignment, side: Side, chars: string, changes: T.Transaction, i: nat,
                                               row: nat, other: nat)
    requires a.WellFormed() && T.Ordered(changes, |chars|) && i < |changes|
    requires Swallows(chars, changes[i], row) && row < a.Lines(side)
    ensures Orphans(a, Carried(a, side, chars, changes), side, row, other)
    decreases |changes|
  {
    hide CarriedOnce, Spliced, Alignment.WellFormed, Alignment.Level, T.Ordered, FacesNobody, RowOf, ColOf;
    var n := |changes| - 1;
    T.OrderedFront(changes, |chars|);
    T.PrefixOrdered(changes, |chars|, n);
    var once := CarriedOnce(a, side, chars, changes[n]);
    if i == n {
      SwallowedOnce(a, side, chars, changes[n], row, other);
      if a.Level(side, row, other) {
        CarriedKeepsNobody(once, side, chars, changes[..n], other);
      }
    } else {
      T.OrderedStops(changes[..n], changes[n].from, i);
      RowsBetween(chars, changes[i].to, changes[n].from);
      EarlierRowStays(a, side, chars, changes[n], row, other);
      SwallowedIsOrphaned(once, side, chars, changes[..n], i, row, other);
    }
  }

  /** A row that a change takes away, line break included, leaves the row it was
      level with facing nothing. */
  lemma {:induction false} SwallowedRowLeavesFiller(s: Session, side: Side, buffer: nat, before: T.Text, after: T.Text,
                                                    changes: T.Transaction, i: nat, row: nat, other: nat)
    requires Follows(s, side, buffer, before, after, changes)
    requires i < |changes| && Swallows(before.chars, changes[i], row)
    requires s.alignment.Level(side, row, other)
    ensures row < VisibleLines(before.chars)
    ensures FacesNobody(Noted(s, buffer, before, after, changes).alignment, side, other)
  {
    RowsBetween(before.chars, changes[i].to, |before.chars|);
    assert before.chars[..|before.chars|] == before.chars;
    hide Carried, Settled, RowOf, Swallows, T.Applied, T.Ordered, FacesNobody, Alignment.AlignedRow,
         Alignment.WellFormed, Newlines, ColOf;
    SwallowedIsOrphaned(s.alignment, side, before.chars, changes, i, row, other);
    SettlingKeepsNobody(Carried(s.alignment, side, before.chars, changes), side, VisibleLines(after.chars), other);
  }

  // -------------------------------------------------- edits without breaks

  /** No change adds or removes a line break. */
  predicate WithoutBreaks(chars: string, changes: T.Transaction) {
    forall i :: 0 <= i < |changes| && changes[i].from <= changes[i].to <= |chars| ==>
      Newlines(changes[i].text) == 0 && Newlines(chars[changes[i].from..changes[i].to]) == 0
  }

  lemma {:induction false} NothingIsCarried(a: Alignment, side: Side, chars: string, changes: T.Transaction)
    requires a.WellFormed() && T.Ordered(changes, |chars|) && WithoutBreaks(chars, changes)
    ensures Carried(a, side, chars, changes) == a
    decreases |changes|
  {
    if changes != [] {
      var n := |changes| - 1;
      T.OrderedFront(changes, |chars|);
      T.PrefixOrdered(changes, |chars|, n);
      NothingIsCarried(a, side, chars, changes[..n]);
    }
  }

  /** Editing inside rows moves nothing, as long as as many of them are visible. */
  lemma {:induction false} EditsInsideRowsMoveNothing(s: Session, side: Side, buffer: nat, before: T.Text,
                                                      after: T.Text, changes: T.Transaction)
    requires Follows(s, side, buffer, before, after, changes) && WithoutBreaks(before.chars, changes)
    requires VisibleLines(after.chars) == VisibleLines(before.chars)
    ensures Noted(s, buffer, before, after, changes).alignment == s.alignment
  {
    hide VisibleLines, T.Applied, T.Ordered, WithoutBreaks, Carried, Spliced, Alignment.WellFormed;
    NothingIsCarried(s.alignment, side, before.chars, changes);
  }

  /** No change is cut off at a row start unless one starts inside a row and
      ends at the start of another. */
  lemma {:induction false} CleanChangesNeverCut(chars: string, changes: T.Transaction, start: nat, row: int)
    requires T.Ordered(changes, |chars|)
    requires forall i :: 0 <= i < |changes| && changes[i].from <= changes[i].to <= |chars| && changes[i].to <= start ==>
               AtLineStart(chars, changes[i].from) || changes[i].from == changes[i].to
                   || !AtLineStart(chars, changes[i].to)
    ensures !Severed(chars, changes, start, row)
    decreases |changes|
  {
    if changes != [] {
      var n := |changes| - 1;
      T.OrderedFront(changes, |chars|);
      T.PrefixOrdered(changes, |chars|, n);
      CleanChangesNeverCut(chars, changes[..n], start,
                           if changes[n].to <= start then row + Net(chars, changes[n]) else row);
    }
  }

  /** Replacing the tail of the row above, line break included, by another tail
      cuts a row whose text the edit never touches and leaves as it was. */
  lemma {:induction false} ACutRow()
    ensures var before, change := "xab\nrow\n", T.TextChange(1, 4, "cd\n");
            && T.Ordered([change], |before|)
            && StartIsKept([change], 4)
            && T.Applied(before, [change]) == "xcd\nrow\n"
            && NetAbove(before, [change], 4) == 0
            && AtLineStart(before, 4)
            && RowOf(before, 4) == 1
            && Severed(before, [change], 4, RowOf(before, 4))
  {
    var before, change := "xab\nrow\n", T.TextChange(1, 4, "cd\n");
    assert [change][..0] == [];
    assert before[..4] == "xab\n" && before[1..4] == "ab\n";
    assert "xab\n"[..3] == "xab" && "xab"[..2] == "xa" && "xa"[..1] == "x" && "x"[..0] == "";
    assert Newlines("x") == 0 && Newlines("xa") == 0 && Newlines("xab") == 0;
    assert "ab\n"[..2] == "ab" && "ab"[..1] == "a" && "a"[..0] == "";
    assert Newlines("a") == 0 && Newlines("ab") == 0;
    assert "cd\n"[..2] == "cd" && "cd"[..1] == "c" && "c"[..0] == "";
    assert Newlines("c") == 0 && Newlines("cd") == 0;
  }

  /** The same edit in a session: two equal texts, and afterwards the unedited
      second row is level with nothing although it has not moved. */
  lemma {:induction false} ACutRowLosesItsPlace(s: Session, before: T.Text, after: T.Text)
    requires s == Session(0, 1, Pending(2, 2), Stamps(7, 8), None, Stamps(7, 8))
    requires before == T.Text("xab\nrow\n", 7) && after == T.Text("xcd\nrow\n", 9)
    ensures s.alignment.Level(Left, 1, 1)
    ensures T.Ordered([T.TextChange(1, 4, "cd\n")], |before.chars|)
    ensures Sound(s) && !Noted(s, 0, before, after, [T.TextChange(1, 4, "cd\n")]).alignment.Level(Left, 1, 1)
  {
    hide AtLineStart, Spliced, Noted, RowOf, StartIsKept, NetAbove, Severed, VisibleLines, Alignment.AlignedRow,
         Alignment.Level, Pending, T.Applied, Alignment.WellFormed, ColOf, T.Ordered, Newlines;
    TwoRows();
    ACutRow();
    PendingIsWellFormed(2, 2);
    PendingIsLevelByNumber(2, 2, Left, 1, 1);
    LevelIffNotSevered(s, Left, 0, before, after, [T.TextChange(1, 4, "cd\n")], 4, 1);
  }

  lemma {:induction false} TwoRows()
    ensures VisibleLines("xab\nrow\n") == 2
  {
    var text := "xab\nrow\n";
    ACutRow();
    RowsBetween(text, 4, 8);
    assert text[..8] == text && text[4..8] == "row\n" && text[..4] == "xab\n";
    assert "row\n"[..3] == "row" && "row"[..2] == "ro" && "ro"[..1] == "r" && "r"[..0] == "";
    assert Newlines("r") == 0 && Newlines("ro") == 0 && Newlines("row") == 0;
  }
}
