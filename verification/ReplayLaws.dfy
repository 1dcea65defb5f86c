/** What replaying an undo or a redo through an alignment does to the rows that
    none of its transactions touches. */
module ReplayLaws {
  import opened Wrappers
  import opened Alignments
  import opened Splices
  import opened TextRows
  import opened DiffSessions
  import opened NoteLaws
  import T = Texts

  // ------------------------------------------------------- along the replay

  /** The number a row has after `changes`, none of which touches it. */
  function RowAfter(chars: string, changes: T.Transaction, row: nat): (r: nat)
    requires T.Ordered(changes, |chars|) && row < VisibleLines(chars)
    requires row <= Newlines(chars) && StartIsKept(changes, RowStart(chars, row))
    ensures r < VisibleLines(T.Applied(chars, changes))
  {
    StartIsInside(chars, row);
    KeptIsVisible(chars, changes, RowStart(chars, row));
    row + NetAbove(chars, changes, RowStart(chars, row))
  }

  lemma {:induction false} KeptIsVisible(chars: string, changes: T.Transaction, start: nat)
    requires T.Ordered(changes, |chars|) && start < |chars| && StartIsKept(changes, start)
    ensures 0 <= RowOf(chars, start) + NetAbove(chars, changes, start) < VisibleLines(T.Applied(chars, changes))
  {
    hide NetAbove, T.Ordered, T.Applied, StartIsKept, VisibleLines;
    var moved := RowAfterwards(chars, changes, start);
    OffsetIsVisible(T.Applied(chars, changes), moved);
  }

  /** No transaction touches the row where it is by then. */
  predicate KeptAlong(chars: string, transactions: seq<T.Transaction>, row: nat)
    requires T.Applicable(chars, transactions) && row < VisibleLines(chars)
    decreases |transactions|
  {
    StartIsInside(chars, row);
    transactions == [] ||
    (StartIsKept(transactions[0], RowStart(chars, row))
     && KeptAlong(T.Applied(chars, transactions[0]), transactions[1..], RowAfter(chars, transactions[0], row)))
  }

  /** The number the row ends up with. */
  function RowAlong(chars: string, transactions: seq<T.Transaction>, row: nat): (r: nat)
    requires T.Applicable(chars, transactions) && row < VisibleLines(chars)
    requires KeptAlong(chars, transactions, row)
    ensures r < VisibleLines(T.AppliedAll(chars, transactions))
    decreases |transactions|
  {
    StartIsInside(chars, row);
    if transactions == [] then row
    else RowAlong(T.Applied(chars, transactions[0]), transactions[1..], RowAfter(chars, transactions[0], row))
  }

  /** Some transaction severs the row where it is by then. */
  predicate SeveredAlong(chars: string, transactions: seq<T.Transaction>, row: nat)
    requires T.Applicable(chars, transactions) && row < VisibleLines(chars)
    requires KeptAlong(chars, transactions, row)
    decreases |transactions|
  {
    StartIsInside(chars, row);
    transactions != [] &&
    (Severed(chars, transactions[0], RowStart(chars, row), row)
     || SeveredAlong(T.Applied(chars, transactions[0]), transactions[1..], RowAfter(chars, transactions[0], row)))
  }

  // -------------------------------------------------------- one transaction

  /** A session that knows where `text` is. */
  ghost predicate Knows(s: Session, side: Side, buffer: nat, text: T.Text) {
    && Sound(s)
    && s.SideOf(buffer) == Some(side)
    && s.geometry.On(side) == text.revision
    && s.alignment.Lines(side) == VisibleLines(text.chars)
  }

  lemma {:induction false} NotedKnows(s: Session, side: Side, buffer: nat, before: T.Text, after: T.Text,
                                      changes: T.Transaction)
    requires Knows(s, side, buffer, before) && T.Ordered(changes, |before.chars|)
    ensures Knows(Noted(s, buffer, before, after, changes), side, buffer, after)
  {
    hide Carried, Settled, VisibleLines, T.Ordered, Alignment.WellFormed;
    SettledCounts(Carried(s.alignment, side, before.chars, changes), side, VisibleLines(after.chars));
  }

  lemma {:induction false} NotedKeepsNobody(s: Session, side: Side, buffer: nat, before: T.Text, after: T.Text,
                                            changes: T.Transaction, other: nat)
    requires Knows(s, side, buffer, before) && T.Ordered(changes, |before.chars|)
    requires FacesNobody(s.alignment, side, other)
    ensures FacesNobody(Noted(s, buffer, before, after, changes).alignment, side, other)
  {
    hide Carried, Settled, VisibleLines, T.Ordered, Alignment.WellFormed, FacesNobody;
    CarriedKeepsNobody(s.alignment, side, before.chars, changes, other);
    SettlingKeepsNobody(Carried(s.alignment, side, before.chars, changes), side, VisibleLines(after.chars), other);
  }

  // ------------------------------------------------------- the whole replay

  lemma {:induction false} ReplayKeepsNobody(s: Session, side: Side, buffer: nat, text: T.Text,
                                             transactions: seq<T.Transaction>, stamp: nat, other: nat)
    requires Knows(s, side, buffer, text) && T.Applicable(text.chars, transactions)
    requires FacesNobody(s.alignment, side, other)
    ensures FacesNobody(Replayed(s, buffer, text, transactions, stamp).alignment, side, other)
    decreases |transactions|
  {
    hide Noted, T.Applied, T.Ordered, VisibleLines, Alignment.WellFormed, FacesNobody;
    if transactions != [] {
      var next := T.Text(T.Applied(text.chars, transactions[0]), stamp);
      NotedKnows(s, side, buffer, text, next, transactions[0]);
      NotedKeepsNobody(s, side, buffer, text, next, transactions[0], other);
      ReplayKeepsNobody(Noted(s, buffer, text, next, transactions[0]), side, buffer, next, transactions[1..],
                        stamp + 1, other);
    }
  }

  /** A row that no transaction touches is level with what it was level with,
      unless one of them severs it; then what it faced faces nothing. */
  lemma {:induction false} ReplayedRowStaysLevel(s: Session, side: Side, buffer: nat, text: T.Text,
                                                 transactions: seq<T.Transaction>, stamp: nat, row: nat, other: nat)
    requires Knows(s, side, buffer, text) && T.Applicable(text.chars, transactions)
    requires row < VisibleLines(text.chars) && KeptAlong(text.chars, transactions, row)
    ensures !SeveredAlong(text.chars, transactions, row) ==>
              (Replayed(s, buffer, text, transactions, stamp).alignment
                 .Level(side, RowAlong(text.chars, transactions, row), other)
               <==> s.alignment.Level(side, row, other))
    ensures SeveredAlong(text.chars, transactions, row) ==>
              Orphans(s.alignment, Replayed(s, buffer, text, transactions, stamp).alignment, side, row, other)
    decreases |transactions|
  {
    hide Noted, T.Applied, T.Ordered, VisibleLines, Alignment.WellFormed, Alignment.Level, FacesNobody, RowStart,
         StartIsKept, Severed, NetAbove, AtLineStart, RowOf;
    if transactions != [] {
      StartIsInside(text.chars, row);
      var changes := transactions[0];
      var next := T.Text(T.Applied(text.chars, changes), stamp);
      var noted := Noted(s, buffer, text, next, changes);
      KeptRowStaysLevel(s, side, buffer, text, next, changes, RowStart(text.chars, row), other);
      NotedKnows(s, side, buffer, text, next, changes);
      if !Severed(text.chars, changes, RowStart(text.chars, row), row) {
        ReplayedRowStaysLevel(noted, side, buffer, next, transactions[1..], stamp + 1,
                              RowAfter(text.chars, changes, row), other);
      } else if s.alignment.Level(side, row, other) {
        ReplayKeepsNobody(noted, side, buffer, next, transactions[1..], stamp + 1, other);
      }
    }
  }

  /** Undo and redo keep a level row they do not touch level, with the number
      they leave it, if and only if none of their transactions severs it where
      it is by then. */
  lemma {:induction false} HistoryLevelIffNotSevered(s: Session, side: Side, buffer: nat, before: T.Text,
                                                     after: T.Text, transactions: seq<T.Transaction>, stamp: nat,
                                                     row: nat, other: nat)
    requires Knows(s, side, buffer, before) && T.Applicable(before.chars, transactions)
    requires row < VisibleLines(before.chars) && KeptAlong(before.chars, transactions, row)
    requires s.alignment.Level(side, row, other)
    ensures NotedHistory(s, buffer, before, after, transactions, stamp).alignment
              .Level(side, RowAlong(before.chars, transactions, row), other)
            <==> !SeveredAlong(before.chars, transactions, row)
  {
    hide Replayed, Replay, T.Applicable, VisibleLines, Alignment.WellFormed, Alignment.Level, KeptAlong,
         RowAlong, SeveredAlong;
    ReplayedRowStaysLevel(s, side, buffer, before, transactions, stamp, row, other);
  }
}
