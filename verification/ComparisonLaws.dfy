/** What the marks of a comparison say about the characters of two texts. */
module ComparisonLaws {
  import opened Wrappers
  import opened Alignments
  import opened TextRows
  import opened LineLaws
  import opened Scripts
  import opened DiffSessions
  import opened NoteLaws
  import Align
  import S = SessionRuns
  import T = Texts

  /** The comparison of two texts. */
  function Compared(left: string, right: string): Alignment {
    Align.Aligned(Lines(left), Lines(right))
  }

  lemma {:induction false} ComparedCoversRows(left: string, right: string)
    ensures Compared(left, right).WellFormed()
    ensures Compared(left, right).Lines(Left) == VisibleLines(left)
    ensures Compared(left, right).Lines(Right) == VisibleLines(right)
  {
    Align.AlignedIsWellFormed(Lines(left), Lines(right));
    LinesAreVisible(left);
    LinesAreVisible(right);
  }

  lemma {:induction false} SameLineByLine(run: Run, left: seq<string>, right: seq<string>, k: nat)
    requires SaysTheSame(run, left, right) && k < run.left.Len()
    ensures run.left.start + k < |left| && run.right.start + k < |right|
    ensures left[run.left.start + k] == right[run.right.start + k]
  {
    assert left[run.left.start..run.left.end][k] == right[run.right.start..run.right.end][k];
  }

  /** Rows side by side in one equal run have the same characters. */
  lemma {:induction false} EqualRowsSayTheSame(left: string, right: string, i: nat, k: nat)
    requires i < |Compared(left, right).runs| && Compared(left, right).runs[i].kind == Equal
    requires k < Compared(left, right).runs[i].left.Len()
    ensures var run := Compared(left, right).runs[i];
            && run.left.start + k < VisibleLines(left) && run.right.start + k < VisibleLines(right)
            && RowText(left, run.left.start + k) == RowText(right, run.right.start + k)
  {
    hide Lines, RowText, VisibleLines, Align.Aligned, Alternating, Scripts.Replay, SaysTheSame, Alignment.WellFormed;
    var run := Compared(left, right).runs[i];
    Align.AlignedReplays(Lines(left), Lines(right));
    SameLineByLine(run, Lines(left), Lines(right), k);
    LineIsRowText(left, run.left.start + k);
    LineIsRowText(right, run.right.start + k);
  }

  /** A visible row that is not marked is level with a row that says the same. */
  lemma {:induction false} UnmarkedRowsAgree(left: string, right: string, side: Side, row: nat) returns (other: nat)
    requires row < VisibleLines(if side == Left then left else right)
    requires Compared(left, right).ChangeAt(side, row).None?
    ensures other < VisibleLines(if side == Left then right else left)
    ensures Compared(left, right).Level(side, row, other)
    ensures RowText(if side == Left then left else right, row) == RowText(if side == Left then right else left, other)
  {
    hide Lines, RowText, VisibleLines, Align.Aligned, PartitionPoint, Alignment.ChangeAt, Alignment.WellFormed;
    var a := Compared(left, right);
    ComparedCoversRows(left, right);
    var i := RunOfRow(a, side, row);
    ChangeReadsTheRun(a, side, row);
    assert RunFits(a.runs, i) by { WellFormedFits(a, i); }
    var k := row - a.runs[i].On(side).start;
    EqualRowsSayTheSame(left, right, i, k);
    other := a.runs[i].On(side.Opposite()).start + k;
    RunAtIs(a, side.Opposite(), other, i);
  }

  lemma {:induction false} WellFormedFits(a: Alignment, i: nat)
    requires a.WellFormed() && i < |a.runs|
    ensures RunFits(a.runs, i)
  {
  }

  /** Level rows that say different things are both marked as changed. */
  lemma {:induction false} LevelDifferencesAreMarked(left: string, right: string, row: nat, other: nat)
    requires row < VisibleLines(left) && other < VisibleLines(right) && Compared(left, right).Level(Left, row, other)
    requires RowText(left, row) != RowText(right, other)
    ensures Compared(left, right).ChangeAt(Left, row) == Some(Changed)
    ensures Compared(left, right).ChangeAt(Right, other) == Some(Changed)
  {
    hide Lines, RowText, VisibleLines, Align.Aligned, PartitionPoint, Alignment.ChangeAt, Alignment.WellFormed;
    var a := Compared(left, right);
    ComparedCoversRows(left, right);
    var i := RunOfRow(a, Left, row);
    var j := RunOfRow(a, Right, other);
    ChangeReadsTheRun(a, Left, row);
    ChangeReadsTheRun(a, Right, other);
    WellFormedFits(a, i);
    WellFormedFits(a, j);
    LevelShareARun(a, i, j, row, other);
    if a.runs[i].kind == Equal {
      EqualRowsSayTheSame(left, right, i, row - a.runs[i].left.start);
    }
  }

  lemma {:induction false} LevelShareARun(a: Alignment, i: nat, j: nat, row: nat, other: nat)
    requires a.WellFormed() && i < |a.runs| && j < |a.runs| && a.Level(Left, row, other)
    requires a.runs[i].left.start <= row < a.runs[i].left.end
    requires a.runs[j].right.start <= other < a.runs[j].right.end
    ensures i == j && row - a.runs[i].left.start == other - a.runs[i].right.start
  {
    hide PartitionPoint;
    RunAtIs(a, Left, row, i);
    RunAtIs(a, Right, other, j);
    if i < j {
      RunsAscend(a.runs, i, j);
    } else if j < i {
      RunsAscend(a.runs, j, i);
    }
    WellFormedFits(a, i);
    WellFormedFits(a, j);
  }

  /** In every run from an opened session, whenever no update is needed, a
      visible row of either live text that is not marked is level with a row of
      the other that says the same. */
  lemma {:induction false} EveryRunMarksDifferences(leftBuffer: nat, rightBuffer: nat, left: T.Text, right: T.Text,
                                                    next: nat, recorded: bool, events: seq<S.Event>, side: Side,
                                                    row: nat)
      returns (other: nat)
    requires leftBuffer != rightBuffer && left.revision < next && right.revision < next
    requires left.revision == right.revision ==> left.chars == right.chars
    requires Sound(S.Opened(leftBuffer, rightBuffer, left, right, next, recorded).session)
    requires S.PossibleRun(S.Opened(leftBuffer, rightBuffer, left, right, next, recorded), events)
    requires var w := S.Run(S.Opened(leftBuffer, rightBuffer, left, right, next, recorded), events);
             && !w.session.NeedsUpdate(w.Live())
             && row < VisibleLines(w.On(side).chars) && w.session.alignment.ChangeAt(side, row).None?
    ensures var w := S.Run(S.Opened(leftBuffer, rightBuffer, left, right, next, recorded), events);
            && other < VisibleLines(w.On(side.Opposite()).chars)
            && w.session.alignment.Level(side, row, other)
            && RowText(w.On(side).chars, row) == RowText(w.On(side.Opposite()).chars, other)
  {
    hide S.Run, S.PossibleRun, S.Opened, VisibleLines, RowText, Lines, Align.Aligned, Alignment.ChangeAt,
         Alignment.Level;
    S.EveryRunIsFaithful(leftBuffer, rightBuffer, left, right, next, recorded, events);
    var w := S.Run(S.Opened(leftBuffer, rightBuffer, left, right, next, recorded), events);
    other := UnmarkedRowsAgree(w.left.chars, w.right.chars, side, row);
  }

  /** An update compares the two texts it is handed. */
  lemma {:induction false} UpdatedRowsAgree(s: Session, live: Stamps, left: string, right: string, i: nat, k: nat)
    requires i < |Updated(s, live, left, right).alignment.runs|
    requires Updated(s, live, left, right).alignment.runs[i].kind == Equal
    requires k < Updated(s, live, left, right).alignment.runs[i].left.Len()
    ensures var run := Updated(s, live, left, right).alignment.runs[i];
            && run.left.start + k < VisibleLines(left) && run.right.start + k < VisibleLines(right)
            && RowText(left, run.left.start + k) == RowText(right, run.right.start + k)
  {
    hide Lines, RowText, VisibleLines, Align.Aligned;
    EqualRowsSayTheSame(left, right, i, k);
  }

  /** An edit, and then a question about the texts. */
  function EditedAndAsked(w: S.World, side: Side, changes: T.Transaction): S.World
    requires Sound(w.session) && T.Ordered(changes, |w.On(side).chars|)
  {
    S.Step(S.Step(w, S.EditText(side, changes)), S.Request)
  }

  /** Right after an edit that a session follows on both sides, asking leaves the
      alignment as the edit was carried through it. */
  lemma {:induction false} EditThenAsk(w: S.World, side: Side, changes: T.Transaction)
    requires S.Inv(w) && S.Following(w, Left) && S.Following(w, Right)
    requires T.Ordered(changes, |w.On(side).chars|)
    ensures var after := T.Text(T.Applied(w.On(side).chars, changes), w.next);
            EditedAndAsked(w, side, changes).session.alignment
            == Noted(w.session, w.Buffer(side), w.On(side), after, changes).alignment
  {
    S.StepKeepsUp(w, S.EditText(side, changes), Left);
    S.StepKeepsUp(w, S.EditText(side, changes), Right);
    hide Noted, VisibleLines, Alignment.WellFormed, Pending, T.Applied, T.Ordered;
    var r := S.Step(w, S.EditText(side, changes));
    assert r.session.geometry == r.Live();
  }

  /** When an edit of a session that follows both texts is asked about, its rows
      stay where they were until the answer comes, but for those it severs. */
  lemma {:induction false} AskingAfterAnEditKeepsRows(w: S.World, side: Side, changes: T.Transaction, start: nat,
                                                      other: nat)
    requires S.Inv(w) && S.Following(w, Left) && S.Following(w, Right)
    requires T.Ordered(changes, |w.On(side).chars|)
    requires start < |w.On(side).chars| && AtLineStart(w.On(side).chars, start) && StartIsKept(changes, start)
    requires w.session.alignment.Level(side, RowOf(w.On(side).chars, start), other)
    ensures 0 <= RowOf(w.On(side).chars, start) + NetAbove(w.On(side).chars, changes, start)
    ensures EditedAndAsked(w, side, changes).session.alignment
              .Level(side, RowOf(w.On(side).chars, start) + NetAbove(w.On(side).chars, changes, start), other)
            <==> !Severed(w.On(side).chars, changes, start, RowOf(w.On(side).chars, start))
  {
    hide S.Inv, S.Step, S.Following, Follows, Noted, RowOf, NetAbove, Severed, VisibleLines, Alignment.Level,
         Alignment.WellFormed, T.Applied, T.Ordered, AtLineStart, StartIsKept, EditedAndAsked;
    var after := T.Text(T.Applied(w.On(side).chars, changes), w.next);
    FollowingFollows(w, side, changes, after);
    EditThenAsk(w, side, changes);
    LevelIffNotSevered(w.session, side, w.Buffer(side), w.On(side), after, changes, start, other);
  }

  lemma {:induction false} FollowingFollows(w: S.World, side: Side, changes: T.Transaction, after: T.Text)
    requires S.Inv(w) && S.Following(w, side) && T.Ordered(changes, |w.On(side).chars|)
    requires after.chars == T.Applied(w.On(side).chars, changes)
    ensures Follows(w.session, side, w.Buffer(side), w.On(side), after, changes)
  {
    hide VisibleLines, Alignment.WellFormed, T.Applied, T.Ordered;
    assert S.GeometryFits(w, side);
  }
}
