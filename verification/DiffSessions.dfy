/** Two buffers compared side by side: the alignment a session keeps, and the
    buffer revisions it belongs to. */
module DiffSessions {
  import opened Wrappers
  import opened Alignments
  import opened Splices
  import opened SpliceLaws
  import opened TextRows
  import Align
  import AlignLines
  import T = Texts

  /** The revision of a text no session has seen. */
  const UNSEEN: int := -1

  datatype Stamps = Stamps(left: int, right: int) {
    function On(side: Side): int {
      if side == Left then left else right
    }

    function With(side: Side, revision: int): Stamps {
      if side == Left then Stamps(revision, right) else Stamps(left, revision)
    }
  }

  /** What a session remembers about its two texts. */
  datatype Session = Session(
    leftBuffer: nat,
    rightBuffer: nat,
    alignment: Alignment,
    revisions: Stamps,
    pending: Option<Stamps>,
    geometry: Stamps)
  {
    predicate NeedsUpdate(live: Stamps) {
      revisions != live
    }

    function SideOf(buffer: nat): Option<Side> {
      if leftBuffer == buffer then Some(Left) else if rightBuffer == buffer then Some(Right) else None
    }
  }

  function Less(x: nat, y: nat): nat {
    if x >= y then x - y else 0
  }

  /** What stands in until two texts of these sizes have been compared: rows of
      equal number are paired, the rest is padded. */
  function Pending(left: nat, right: nat): Alignment {
    var shared := Min(left, right);
    var both := if shared > 0 then [Run(Equal, Rows(0, shared), Rows(0, shared), 0)] else [];
    var rest :=
      if left > shared then [Run(Deleted, Rows(shared, left), Rows(shared, shared), shared)]
      else if right > shared then [Run(Inserted, Rows(shared, shared), Rows(shared, right), shared)]
      else [];
    Alignment(both + rest, if left >= right then left else right, left, right)
  }

  lemma {:induction false} PendingIsWellFormed(left: nat, right: nat)
    ensures Pending(left, right).WellFormed()
    ensures Pending(left, right).leftLines == left
    ensures Pending(left, right).rightLines == right
  {
    var runs := Pending(left, right).runs;
    forall i | 0 <= i < |runs| ensures RunFits(runs, i) {
    }
  }

  /** Until the comparison is done, rows are level by number. */
  lemma {:induction false} PendingIsLevelByNumber(left: nat, right: nat, side: Side, row: nat, other: nat)
    requires row < Pending(left, right).Lines(side)
    requires other < Pending(left, right).Lines(side.Opposite())
    ensures Pending(left, right).Level(side, row, other) <==> row == other
  {
    hide PartitionPoint;
    var a := Pending(left, right);
    PendingIsWellFormed(left, right);
    var i := RunOfRow(a, side, row);
    var j := RunOfRow(a, side.Opposite(), other);
  }

  // ---------------------------------------------------- carrying geometry

  /** The alignment after one change of `side` has been carried through it. */
  function CarriedOnce(a: Alignment, side: Side, before: string, change: T.TextChange): (r: Alignment)
    requires a.WellFormed() && change.from <= change.to <= |before|
    ensures r.WellFormed()
  {
    var removed, inserted := Newlines(before[change.from..change.to]), Newlines(change.text);
    if removed == 0 && inserted == 0 then a
    else Spliced(a, side, FirstRowFrom(before, change.from), removed, inserted)
  }

  /** The changes carried from the last one up, each against the old text. */
  function Carried(a: Alignment, side: Side, before: string, changes: T.Transaction): (r: Alignment)
    requires a.WellFormed() && T.Ordered(changes, |before|)
    ensures r.WellFormed()
    decreases |changes|
  {
    if changes == [] then a
    else
      var n := |changes| - 1;
      T.OrderedFront(changes, |before|);
      T.PrefixOrdered(changes, |before|, n);
      Carried(CarriedOnce(a, side, before, changes[n]), side, before, changes[..n])
  }

  /** Rows added or removed at the bottom until `side` has `actual` lines. */
  function Settled(a: Alignment, side: Side, actual: nat): (r: Alignment)
    requires a.WellFormed()
    ensures r.WellFormed()
  {
    var projected := a.Lines(side);
    if actual == projected then a
    else Spliced(a, side, Min(actual, projected), Less(projected, actual), Less(actual, projected))
  }

  lemma {:induction false} SettledCounts(a: Alignment, side: Side, actual: nat)
    requires a.WellFormed()
    ensures Settled(a, side, actual).Lines(side) == actual
    ensures Settled(a, side, actual).Lines(side.Opposite()) == a.Lines(side.Opposite())
  {
    hide Spliced, Alignment.WellFormed;
    var projected := a.Lines(side);
    SpliceLineCounts(Edit(a, side, Min(actual, projected), Less(projected, actual), Less(actual, projected)));
  }

  lemma {:induction false} CarriedKeepsOtherLines(a: Alignment, side: Side, before: string, changes: T.Transaction)
    requires a.WellFormed() && T.Ordered(changes, |before|)
    ensures Carried(a, side, before, changes).Lines(side.Opposite()) == a.Lines(side.Opposite())
    decreases |changes|
  {
    if changes != [] {
      var n := |changes| - 1;
      T.OrderedFront(changes, |before|);
      T.PrefixOrdered(changes, |before|, n);
      hide Spliced, Alignment.WellFormed, T.Ordered;
      var change := changes[n];
      SpliceLineCounts(Edit(a, side, FirstRowFrom(before, change.from), Newlines(before[change.from..change.to]),
                            Newlines(change.text)));
      CarriedKeepsOtherLines(CarriedOnce(a, side, before, change), side, before, changes[..n]);
    }
  }

  // ------------------------------------------------------- what calls do

  ghost predicate Sound(s: Session) {
    s.alignment.WellFormed()
  }

  function Requested(s: Session, live: Stamps, left: nat, right: nat): Session {
    if s.revisions == live || s.pending == Some(live) then s
    else
      s.(pending := Some(live),
         alignment := if s.geometry != live then Pending(left, right) else s.alignment,
         geometry := live)
  }

  ghost predicate LevelByNumber(a: Alignment) {
    forall side: Side, row: nat, other: nat | row < a.Lines(side) && other < a.Lines(side.Opposite()) ::
      a.Level(side, row, other) <==> row == other
  }

  /** Asking about texts whose geometry is known keeps every row where edits have
      carried it; asking about others levels rows by number. */
  lemma {:induction false} AskingKeepsWhatIsCarried(s: Session, live: Stamps, left: nat, right: nat)
    requires s.NeedsUpdate(live) && s.pending != Some(live)
    ensures var r := Requested(s, live, left, right);
            && r.pending == Some(live) && r.geometry == live && r.revisions == s.revisions
            && (s.geometry == live ==> r.alignment == s.alignment)
            && (s.geometry != live ==>
                  && r.alignment.leftLines == left && r.alignment.rightLines == right
                  && LevelByNumber(r.alignment))
  {
    if s.geometry != live {
      var a := Pending(left, right);
      forall side: Side, row: nat, other: nat | row < a.Lines(side) && other < a.Lines(side.Opposite())
        ensures a.Level(side, row, other) <==> row == other
      {
        PendingIsLevelByNumber(left, right, side, row, other);
      }
    }
  }

  function Noted(s: Session, buffer: nat, before: T.Text, after: T.Text, changes: T.Transaction): (r: Session)
    requires Sound(s) && T.Ordered(changes, |before.chars|)
    ensures Sound(r)
  {
    match s.SideOf(buffer)
    case None => s
    case Some(side) =>
      if s.geometry.On(side) != before.revision then s
      else
        s.(alignment := Settled(Carried(s.alignment, side, before.chars, changes), side, VisibleLines(after.chars)),
           geometry := s.geometry.With(side, after.revision))
  }

  /** The text after each of some transactions, stamped from `stamp` on. */
  function Replay(text: T.Text, transactions: seq<T.Transaction>, stamp: nat): T.Text
    requires T.Applicable(text.chars, transactions)
    decreases |transactions|
  {
    if transactions == [] then text
    else Replay(T.Text(T.Applied(text.chars, transactions[0]), stamp), transactions[1..], stamp + 1)
  }

  function Replayed(s: Session, buffer: nat, text: T.Text, transactions: seq<T.Transaction>, stamp: nat): (r: Session)
    requires Sound(s) && T.Applicable(text.chars, transactions)
    ensures Sound(r)
    decreases |transactions|
  {
    if transactions == [] then s
    else
      var next := T.Text(T.Applied(text.chars, transactions[0]), stamp);
      Replayed(Noted(s, buffer, text, next, transactions[0]), buffer, next, transactions[1..], stamp + 1)
  }

  function NotedHistory(s: Session, buffer: nat, before: T.Text, after: T.Text, transactions: seq<T.Transaction>,
                        stamp: nat)
    : (r: Session)
    requires Sound(s) && T.Applicable(before.chars, transactions)
    ensures Sound(r)
  {
    match s.SideOf(buffer)
    case None => s
    case Some(side) =>
      if s.geometry.On(side) != before.revision then s
      else
        var r := Replayed(s, buffer, before, transactions, stamp);
        if r.geometry.On(side) == Replay(before, transactions, stamp).revision then
          r.(geometry := r.geometry.With(side, after.revision))
        else r
  }

  function Answered(s: Session, stamps: Stamps, result: Alignment): Session {
    if s.pending != Some(stamps) then s
    else s.(alignment := result, revisions := stamps, pending := None, geometry := stamps)
  }

  function Updated(s: Session, live: Stamps, left: string, right: string): (r: Session)
    ensures Sound(r)
  {
    Align.AlignedIsWellFormed(Lines(left), Lines(right));
    s.(alignment := Align.Aligned(Lines(left), Lines(right)), revisions := live, pending := None, geometry := live)
  }

  // ------------------------------------------------------------- the object

  class DiffSession {
    const leftBuffer: nat
    const rightBuffer: nat
    var alignment: Alignment
    var revisions: Stamps
    var pendingRevisions: Option<Stamps>
    var geometryRevisions: Stamps

    function State(): Session
      reads this
    {
      Session(leftBuffer, rightBuffer, alignment, revisions, pendingRevisions, geometryRevisions)
    }

    constructor (left: nat, right: nat, leftText: string, rightText: string)
      ensures State() == Session(left, right, Align.Aligned(Lines(leftText), Lines(rightText)),
                                 Stamps(UNSEEN, UNSEEN), None, Stamps(UNSEEN, UNSEEN))
      ensures Sound(State())
    {
      var aligned := AlignLines.AlignTexts(Lines(leftText), Lines(rightText));
      Align.AlignedIsWellFormed(Lines(leftText), Lines(rightText));
      leftBuffer, rightBuffer := left, right;
      alignment := aligned;
      revisions := Stamps(UNSEEN, UNSEEN);
      pendingRevisions := None;
      geometryRevisions := Stamps(UNSEEN, UNSEEN);
    }

    /** Records the revisions the first alignment was built from. */
    method WithRevisions(stamps: Stamps)
      modifies this
      ensures State() == old(State()).(revisions := stamps, geometry := stamps)
    {
      revisions := stamps;
      geometryRevisions := stamps;
    }

    method RequestUpdate(live: Stamps, left: nat, right: nat) returns (asked: bool)
      requires Sound(State())
      modifies this
      ensures Sound(State())
      ensures State() == Requested(old(State()), live, left, right)
      ensures asked <==> old(revisions) != live && old(pendingRevisions) != Some(live)
    {
      PendingIsWellFormed(left, right);
      if revisions == live || pendingRevisions == Some(live) {
        return false;
      }
      pendingRevisions := Some(live);
      if geometryRevisions != live {
        alignment := Pending(left, right);
      }
      geometryRevisions := live;
      asked := true;
    }

    method NoteTransaction(buffer: nat, before: T.Text, after: T.Text, changes: T.Transaction)
      requires Sound(State()) && T.Ordered(changes, |before.chars|)
      modifies this
      ensures Sound(State())
      ensures State() == Noted(old(State()), buffer, before, after, changes)
    {
      hide Spliced, Newlines, T.Ordered, Alignment.WellFormed;
      var side := Left;
      if leftBuffer == buffer {
      } else if rightBuffer == buffer {
        side := Right;
      } else {
        return;
      }
      if geometryRevisions.On(side) != before.revision {
        return;
      }
      ghost var was := alignment;
      WholePrefix(changes, |before.chars|);
      for i := |changes| downto 0
        invariant alignment.WellFormed()
        invariant T.Ordered(changes[..i], |before.chars|)
        invariant Carried(alignment, side, before.chars, changes[..i]) == Carried(was, side, before.chars, changes)
        invariant State() == old(State()).(alignment := alignment)
      {
        var change := changes[i];
        CarryStep(alignment, side, before.chars, changes, i);
        var removed := Newlines(before.chars[change.from..change.to]);
        var inserted := Newlines(change.text);
        if removed == 0 && inserted == 0 {
          continue;
        }
        var start := RowOf(before.chars, change.from) + if ColOf(before.chars, change.from) > 0 then 1 else 0;
        alignment := Splice(alignment, side, start, removed, inserted);
      }
      NothingToCarry(alignment, side, before.chars, changes);
      var actual := VisibleLines(after.chars);
      var projected := alignment.Lines(side);
      if actual != projected {
        alignment := Splice(alignment, side, if actual <= projected then actual else projected,
                            if projected >= actual then projected - actual else 0,
                            if actual >= projected then actual - projected else 0);
      }
      geometryRevisions := geometryRevisions.With(side, after.revision);
    }

    method NoteHistory(buffer: nat, before: T.Text, after: T.Text, transactions: seq<T.Transaction>, stamp: nat)
      requires Sound(State()) && T.Applicable(before.chars, transactions)
      modifies this
      ensures Sound(State())
      ensures State() == NotedHistory(old(State()), buffer, before, after, transactions, stamp)
    {
      hide Noted, T.Ordered;
      var side := Left;
      if leftBuffer == buffer {
      } else if rightBuffer == buffer {
        side := Right;
      } else {
        return;
      }
      if geometryRevisions.On(side) != before.revision {
        return;
      }
      var replay := before;
      ghost var was := State();
      for i := 0 to |transactions|
        invariant Sound(State())
        invariant T.Applicable(replay.chars, transactions[i..])
        invariant Replayed(State(), buffer, replay, transactions[i..], stamp + i)
               == Replayed(was, buffer, before, transactions, stamp)
        invariant Replay(replay, transactions[i..], stamp + i) == Replay(before, transactions, stamp)
      {
        var previous := replay;
        assert transactions[i..][0] == transactions[i] && transactions[i..][1..] == transactions[i + 1..];
        var inverse;
        replay, inverse := T.Apply(previous, transactions[i], stamp + i);
        NoteTransaction(buffer, previous, replay, transactions[i]);
      }
      if geometryRevisions.On(side) == replay.revision {
        geometryRevisions := geometryRevisions.With(side, after.revision);
      }
    }

    method ApplyAlignment(stamps: Stamps, result: Alignment) returns (taken: bool)
      modifies this
      ensures State() == Answered(old(State()), stamps, result)
      ensures taken <==> old(pendingRevisions) == Some(stamps)
    {
      if pendingRevisions != Some(stamps) {
        return false;
      }
      alignment := result;
      revisions := stamps;
      pendingRevisions := None;
      geometryRevisions := stamps;
      taken := true;
    }

    method Update(live: Stamps, left: string, right: string)
      modifies this
      ensures State() == Updated(old(State()), live, left, right)
    {
      alignment := AlignLines.AlignTexts(Lines(left), Lines(right));
      revisions := live;
      pendingRevisions := None;
      geometryRevisions := live;
    }
  }

  lemma {:induction false} WholePrefix(changes: T.Transaction, end: nat)
    requires T.Ordered(changes, end)
    ensures changes[..|changes|] == changes
    ensures T.Ordered(changes[..|changes|], end)
  {
    assert changes[..|changes|] == changes;
  }

  lemma {:induction false} CarryStep(a: Alignment, side: Side, before: string, changes: T.Transaction, i: nat)
    requires a.WellFormed() && i < |changes| && T.Ordered(changes[..i + 1], |before|)
    ensures changes[i].from <= changes[i].to <= |before|
    ensures T.Ordered(changes[..i], |before|)
    ensures Carried(a, side, before, changes[..i + 1])
         == Carried(CarriedOnce(a, side, before, changes[i]), side, before, changes[..i])
  {
    var front := changes[..i + 1];
    assert front[..i] == changes[..i] && front[i] == changes[i];
    T.OrderedFront(front, |before|);
    T.PrefixOrdered(front, |before|, i);
    hide T.Ordered, CarriedOnce, Alignment.WellFormed;
  }

  lemma {:induction false} NothingToCarry(a: Alignment, side: Side, before: string, changes: T.Transaction)
    requires a.WellFormed()
    ensures T.Ordered(changes[..0], |before|)
    ensures Carried(a, side, before, changes[..0]) == a
  {
  }
}
