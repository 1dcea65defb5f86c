/** Every run of a comparison: edits, replacements, undo and redo, requests to
    a worker, its answers in any order, and direct updates. */
module SessionRuns {
  import opened Wrappers
  import opened Alignments
  import opened DiffSessions
  import opened TextRows
  import Align
  import T = Texts

  /** A session, the two live texts, the next revision stamp nobody has, what
      every revision ever stamped said, and the pairs a worker was asked for. */
  datatype World = World(
    session: Session,
    left: T.Text,
    right: T.Text,
    next: nat,
    known: map<int, string>,
    asked: set<Stamps>)
  {
    function On(side: Side): T.Text {
      if side == Left then left else right
    }

    function With(side: Side, text: T.Text): World {
      if side == Left then this.(left := text) else this.(right := text)
    }

    function Buffer(side: Side): nat {
      if side == Left then session.leftBuffer else session.rightBuffer
    }

    function Live(): Stamps {
      Stamps(left.revision, right.revision)
    }
  }

  datatype Event =
    | EditText(side: Side, changes: T.Transaction)
    | ReplaceText(side: Side, chars: string)
    | ReplayHistory(side: Side, transactions: seq<T.Transaction>)
    | Request
    | Answer(stamps: Stamps)
    | UpdateNow

  predicate Possible(w: World, event: Event) {
    match event
    case EditText(side, changes) => T.Ordered(changes, |w.On(side).chars|)
    case ReplayHistory(side, transactions) => T.Applicable(w.On(side).chars, transactions)
    case Answer(stamps) => stamps in w.asked && stamps.left in w.known && stamps.right in w.known
    case _ => true
  }

  /** What the texts on the way through some transactions said. */
  function Learned(known: map<int, string>, text: T.Text, transactions: seq<T.Transaction>, stamp: nat)
      : map<int, string>
    requires T.Applicable(text.chars, transactions)
    decreases |transactions|
  {
    if transactions == [] then known
    else
      var next := T.Text(T.Applied(text.chars, transactions[0]), stamp);
      Learned(known[stamp := next.chars], next, transactions[1..], stamp + 1)
  }

  /** What a worker asked for two revisions answers. */
  function Answering(w: World, stamps: Stamps): Alignment
    requires stamps.left in w.known && stamps.right in w.known
  {
    Align.Aligned(Lines(w.known[stamps.left]), Lines(w.known[stamps.right]))
  }

  /** The text moves on through each transaction, and the session follows. */
  function AfterReplay(w: World, side: Side, transactions: seq<T.Transaction>): (r: World)
    requires Sound(w.session) && T.Applicable(w.On(side).chars, transactions)
    ensures Sound(r.session)
  {
    var before, n := w.On(side), |transactions|;
    var after := Replay(before, transactions, w.next);
    w.With(side, after).(session := NotedHistory(w.session, w.Buffer(side), before, after, transactions, w.next + n),
                         next := w.next + n + n,
                         known := Learned(Learned(w.known, before, transactions, w.next), before, transactions,
                                          w.next + n))
  }

  function Step(w: World, event: Event): (r: World)
    requires Sound(w.session) && Possible(w, event)
    ensures Sound(r.session)
  {
    match event
    case EditText(side, changes) =>
      var before := w.On(side);
      var after := T.Text(T.Applied(before.chars, changes), w.next);
      w.With(side, after).(session := Noted(w.session, w.Buffer(side), before, after, changes),
                           next := w.next + 1,
                           known := w.known[w.next := after.chars])
    case ReplaceText(side, chars) =>
      w.With(side, T.Text(chars, w.next)).(next := w.next + 1, known := w.known[w.next := chars])
    case ReplayHistory(side, transactions) => AfterReplay(w, side, transactions)
    case Request =>
      PendingIsWellFormed(VisibleLines(w.left.chars), VisibleLines(w.right.chars));
      w.(session := Requested(w.session, w.Live(), VisibleLines(w.left.chars), VisibleLines(w.right.chars)),
         asked := w.asked + {w.Live()})
    case Answer(stamps) =>
      Align.AlignedIsWellFormed(Lines(w.known[stamps.left]), Lines(w.known[stamps.right]));
      w.(session := Answered(w.session, stamps, Answering(w, stamps)))
    case UpdateNow =>
      w.(session := Updated(w.session, w.Live(), w.left.chars, w.right.chars))
  }

  // -------------------------------------------------------------- invariant

  ghost predicate TextsKnown(w: World) {
    && w.left.revision in w.known && w.known[w.left.revision] == w.left.chars
    && w.right.revision in w.known && w.known[w.right.revision] == w.right.chars
    && (forall stamp :: stamp in w.known ==> 0 <= stamp < w.next)
    && (forall stamps :: stamps in w.asked ==>
          AtMost(stamps, w.Live()) && stamps.left in w.known && stamps.right in w.known)
    && (w.session.pending.Some? ==> w.session.pending.value in w.asked)
  }

  predicate AtMost(older: Stamps, newer: Stamps) {
    older.left <= newer.left && older.right <= newer.right
  }

  /** The geometry is of the revisions it is said to be of. */
  ghost predicate GeometryFits(w: World, side: Side) {
    var stamp := w.session.geometry.On(side);
    stamp == UNSEEN || (stamp in w.known && w.session.alignment.Lines(side) == VisibleLines(w.known[stamp]))
  }

  /** An alignment not carried past the revisions it was compared at is exact. */
  ghost predicate ExactWhereCompared(w: World) {
    var s := w.session;
    s.revisions == s.geometry && s.geometry.left in w.known && s.geometry.right in w.known ==>
      s.alignment == Answering(w, s.geometry)
  }

  ghost predicate Inv(w: World) {
    && Sound(w.session)
    && w.session.leftBuffer != w.session.rightBuffer
    && TextsKnown(w)
    && AtMost(w.session.revisions, w.session.geometry)
    && AtMost(w.session.geometry, w.Live())
    && GeometryFits(w, Left) && GeometryFits(w, Right)
    && ExactWhereCompared(w)
  }

  function Opened(leftBuffer: nat, rightBuffer: nat, left: T.Text, right: T.Text, next: nat, recorded: bool): World {
    var stamps := if recorded then Stamps(left.revision, right.revision) else Stamps(UNSEEN, UNSEEN);
    World(Session(leftBuffer, rightBuffer, Align.Aligned(Lines(left.chars), Lines(right.chars)), stamps, None, stamps),
          left, right, next, map[left.revision as int := left.chars, right.revision as int := right.chars], {})
  }

  /** A session opened on two distinct buffers, with or without recording the
      revisions it was opened at, satisfies the invariant. */
  lemma {:induction false} OpenedIsSound(leftBuffer: nat, rightBuffer: nat, left: T.Text, right: T.Text, next: nat,
                                         recorded: bool)
    requires leftBuffer != rightBuffer && left.revision < next && right.revision < next
    requires left.revision == right.revision ==> left.chars == right.chars
    ensures Inv(Opened(leftBuffer, rightBuffer, left, right, next, recorded))
  {
    Align.AlignedIsWellFormed(Lines(left.chars), Lines(right.chars));
    LinesAreVisible(left.chars);
    LinesAreVisible(right.chars);
    hide Lines, VisibleLines, Align.Aligned, Alignment.WellFormed;
    var w := Opened(leftBuffer, rightBuffer, left, right, next, recorded);
    assert GeometryFits(w, Left) && GeometryFits(w, Right);
  }

  // ---------------------------------------------------------- noting, once

  /** What noting one edit does to the numbers the invariant speaks of. */
  lemma {:induction false} NotedFollows(s: Session, side: Side, buffer: nat, before: T.Text, after: T.Text,
                                        changes: T.Transaction)
    requires Sound(s) && T.Ordered(changes, |before.chars|) && s.SideOf(buffer) == Some(side)
    ensures var r := Noted(s, buffer, before, after, changes);
            && r.revisions == s.revisions && r.pending == s.pending
            && r.leftBuffer == s.leftBuffer && r.rightBuffer == s.rightBuffer
            && r.alignment.Lines(side.Opposite()) == s.alignment.Lines(side.Opposite())
            && (s.geometry.On(side) != before.revision ==> r == s)
            && (s.geometry.On(side) == before.revision ==>
                  r.geometry == s.geometry.With(side, after.revision)
                  && r.alignment.Lines(side) == VisibleLines(after.chars))
  {
    hide Carried, Settled, VisibleLines, T.Ordered, Alignment.WellFormed;
    if s.geometry.On(side) == before.revision {
      CarriedKeepsOtherLines(s.alignment, side, before.chars, changes);
      SettledCounts(Carried(s.alignment, side, before.chars, changes), side, VisibleLines(after.chars));
    }
  }

  lemma {:induction false} ReplayedFollows(s: Session, side: Side, buffer: nat, text: T.Text,
                                           transactions: seq<T.Transaction>, stamp: nat)
    requires Sound(s) && T.Applicable(text.chars, transactions) && s.SideOf(buffer) == Some(side)
    requires s.geometry.On(side) == text.revision
    ensures var r, last := Replayed(s, buffer, text, transactions, stamp), Replay(text, transactions, stamp);
            && r.revisions == s.revisions && r.pending == s.pending
            && r.leftBuffer == s.leftBuffer && r.rightBuffer == s.rightBuffer
            && r.alignment.Lines(side.Opposite()) == s.alignment.Lines(side.Opposite())
            && r.geometry == s.geometry.With(side, last.revision)
            && (transactions == [] ==> r == s && last == text)
            && (transactions != [] ==> r.alignment.Lines(side) == VisibleLines(last.chars))
    decreases |transactions|
  {
    hide Noted, VisibleLines, T.Applied, T.Ordered, Alignment.WellFormed;
    if transactions != [] {
      var next := T.Text(T.Applied(text.chars, transactions[0]), stamp);
      NotedFollows(s, side, buffer, text, next, transactions[0]);
      ReplayedFollows(Noted(s, buffer, text, next, transactions[0]), side, buffer, next, transactions[1..], stamp + 1);
    }
  }

  lemma {:induction false} ReplayStamps(text: T.Text, transactions: seq<T.Transaction>, stamp: nat, other: nat)
    requires T.Applicable(text.chars, transactions)
    ensures Replay(text, transactions, stamp).chars == Replay(text, transactions, other).chars
    ensures transactions != [] ==> Replay(text, transactions, stamp).revision == stamp + |transactions| - 1
    ensures transactions == [] ==> Replay(text, transactions, stamp) == text
    decreases |transactions|
  {
    if transactions != [] {
      ReplayStampsFrom(T.Text(T.Applied(text.chars, transactions[0]), stamp),
                       T.Text(T.Applied(text.chars, transactions[0]), other), transactions[1..], stamp + 1, other + 1);
    }
  }

  lemma {:induction false} ReplayStampsFrom(text: T.Text, twin: T.Text, transactions: seq<T.Transaction>, stamp: nat,
                                            other: nat)
    requires text.chars == twin.chars && T.Applicable(text.chars, transactions)
    requires text.revision + 1 == stamp
    ensures Replay(text, transactions, stamp).chars == Replay(twin, transactions, other).chars
    ensures Replay(text, transactions, stamp).revision == stamp + |transactions| - 1
    decreases |transactions|
  {
    if transactions != [] {
      ReplayStampsFrom(T.Text(T.Applied(text.chars, transactions[0]), stamp),
                       T.Text(T.Applied(text.chars, transactions[0]), other), transactions[1..], stamp + 1, other + 1);
    }
  }

  lemma {:induction false} LearnedExtends(known: map<int, string>, text: T.Text, transactions: seq<T.Transaction>,
                                          stamp: nat)
    requires T.Applicable(text.chars, transactions)
    requires forall k :: k in known ==> 0 <= k < stamp
    ensures var r := Learned(known, text, transactions, stamp);
            && (forall k :: k in known ==> k in r && r[k] == known[k])
            && (forall k :: k in r ==> 0 <= k < stamp + |transactions|)
            && (transactions != [] ==>
                  var last := Replay(text, transactions, stamp);
                  last.revision in r && r[last.revision] == last.chars)
    decreases |transactions|
  {
    if transactions != [] {
      var next := T.Text(T.Applied(text.chars, transactions[0]), stamp);
      LearnedExtends(known[stamp := next.chars], next, transactions[1..], stamp + 1);
    }
  }

  // ----------------------------------------------------------- every step

  /** The live text of one side moves on to a fresh stamp, and so does the
      geometry if it was at the text it moved on from. */
  ghost predicate MovedOn(w: World, r: World, side: Side, after: T.Text) {
    && w.next <= after.revision < r.next
    && r.On(side) == after && r.On(side.Opposite()) == w.On(side.Opposite())
    && (forall k :: k in w.known ==> k in r.known && r.known[k] == w.known[k])
    && (forall k :: k in r.known ==> 0 <= k < r.next)
    && after.revision in r.known && r.known[after.revision] == after.chars
    && r.asked == w.asked
    && r.session.leftBuffer == w.session.leftBuffer && r.session.rightBuffer == w.session.rightBuffer
    && r.session.revisions == w.session.revisions && r.session.pending == w.session.pending
    && Sound(r.session)
    && (r.session == w.session
        || (r.session.geometry == w.session.geometry.With(side, after.revision)
            && r.session.alignment.Lines(side) == VisibleLines(after.chars)
            && r.session.alignment.Lines(side.Opposite()) == w.session.alignment.Lines(side.Opposite())))
  }

  lemma {:induction false} MovingOnKeepsInv(w: World, r: World, side: Side, after: T.Text)
    requires Inv(w) && MovedOn(w, r, side, after)
    ensures Inv(r)
  {
    hide VisibleLines, Align.Aligned, Lines, Alignment.WellFormed;
    assert GeometryFits(w, side) && GeometryFits(w, side.Opposite());
    if r.session == w.session {
      assert GeometryFits(r, side) && GeometryFits(r, side.Opposite());
      assert ExactWhereCompared(w);
    } else {
      assert r.session.revisions.On(side) <= w.session.geometry.On(side) < after.revision;
      assert r.session.revisions != r.session.geometry;
      assert GeometryFits(r, side) && GeometryFits(r, side.Opposite());
    }
  }

  lemma {:induction false} EditKeepsInv(w: World, side: Side, changes: T.Transaction)
    requires Inv(w) && Possible(w, EditText(side, changes))
    ensures Inv(Step(w, EditText(side, changes)))
  {
    hide Noted, VisibleLines, T.Ordered, T.Applied, Alignment.WellFormed;
    var after := T.Text(T.Applied(w.On(side).chars, changes), w.next);
    NotedFollows(w.session, side, w.Buffer(side), w.On(side), after, changes);
    MovingOnKeepsInv(w, Step(w, EditText(side, changes)), side, after);
  }

  lemma {:induction false} ReplaceKeepsInv(w: World, side: Side, chars: string)
    requires Inv(w)
    ensures Inv(Step(w, ReplaceText(side, chars)))
  {
    hide VisibleLines, Alignment.WellFormed;
    MovingOnKeepsInv(w, Step(w, ReplaceText(side, chars)), side, T.Text(chars, w.next));
  }

  lemma {:induction false} NotedHistoryFollows(s: Session, side: Side, buffer: nat, before: T.Text, after: T.Text,
                                               transactions: seq<T.Transaction>, stamp: nat)
    requires Sound(s) && T.Applicable(before.chars, transactions) && s.SideOf(buffer) == Some(side)
    requires transactions != [] && after.chars == Replay(before, transactions, stamp).chars
    ensures var r := NotedHistory(s, buffer, before, after, transactions, stamp);
            && r.revisions == s.revisions && r.pending == s.pending
            && r.leftBuffer == s.leftBuffer && r.rightBuffer == s.rightBuffer
            && (r == s
                || (r.geometry == s.geometry.With(side, after.revision)
                    && r.alignment.Lines(side) == VisibleLines(after.chars)
                    && r.alignment.Lines(side.Opposite()) == s.alignment.Lines(side.Opposite())))
  {
    hide Replayed, Replay, VisibleLines, Alignment.WellFormed, T.Applicable;
    if s.geometry.On(side) == before.revision {
      ReplayedFollows(s, side, buffer, before, transactions, stamp);
    }
  }

  lemma {:induction false} StepReplays(w: World, side: Side, transactions: seq<T.Transaction>)
    requires Sound(w.session) && Possible(w, ReplayHistory(side, transactions))
    ensures Step(w, ReplayHistory(side, transactions)) == AfterReplay(w, side, transactions)
    ensures Sound(AfterReplay(w, side, transactions).session)
  {
    hide Replay, NotedHistory, Learned;
  }

  lemma {:induction false} ReplayMovesOn(w: World, side: Side, transactions: seq<T.Transaction>)
      returns (r: World, after: T.Text)
    requires Inv(w) && Possible(w, ReplayHistory(side, transactions)) && transactions != []
    ensures r == Step(w, ReplayHistory(side, transactions)) && MovedOn(w, r, side, after)
  {
    var before := w.On(side);
    r := Step(w, ReplayHistory(side, transactions));
    hide Step, Replay, VisibleLines, Alignment.WellFormed, T.Applicable, NotedHistory, Learned, GeometryFits,
         ExactWhereCompared;
    StepReplays(w, side, transactions);
    var known;
    known, after := LearnedTwice(w, before, transactions);
    NotedHistoryFollows(w.session, side, w.Buffer(side), before, after, transactions, w.next + |transactions|);
  }

  lemma {:induction false} HistoryKeepsInv(w: World, side: Side, transactions: seq<T.Transaction>)
    requires Inv(w) && Possible(w, ReplayHistory(side, transactions))
    ensures Inv(Step(w, ReplayHistory(side, transactions)))
  {
    if transactions == [] {
      ReplayingNothing(w, side);
    } else {
      var r, after := ReplayMovesOn(w, side, transactions);
      hide Inv, MovedOn, Step;
      MovingOnKeepsInv(w, r, side, after);
    }
  }

  lemma {:induction false} ReplayingNothing(w: World, side: Side)
    requires Inv(w)
    ensures Step(w, ReplayHistory(side, [])) == w
  {
    var before := w.On(side);
    hide VisibleLines, Alignment.WellFormed, GeometryFits, ExactWhereCompared;
    if w.session.geometry.On(side) == before.revision {
      ReplayedFollows(w.session, side, w.Buffer(side), before, [], w.next);
    }
  }

  /** What a replay teaches about the texts it passes through. */
  lemma {:induction false} LearnedTwice(w: World, before: T.Text, transactions: seq<T.Transaction>)
      returns (known: map<int, string>, after: T.Text)
    requires T.Applicable(before.chars, transactions) && transactions != [] && before.revision < w.next
    requires forall stamp :: stamp in w.known ==> 0 <= stamp < w.next
    ensures known == Learned(Learned(w.known, before, transactions, w.next), before, transactions,
                             w.next + |transactions|)
    ensures after == Replay(before, transactions, w.next)
    ensures after.chars == Replay(before, transactions, w.next + |transactions|).chars
    ensures after.revision in known && known[after.revision] == after.chars
    ensures w.next <= after.revision < w.next + |transactions| + |transactions|
    ensures forall stamp :: stamp in w.known ==> stamp in known && known[stamp] == w.known[stamp]
    ensures forall stamp :: stamp in known ==> 0 <= stamp < w.next + |transactions| + |transactions|
  {
    var n := |transactions|;
    hide Replay, Learned, T.Applicable;
    ReplayStamps(before, transactions, w.next, w.next + n);
    LearnedExtends(w.known, before, transactions, w.next);
    LearnedExtends(Learned(w.known, before, transactions, w.next), before, transactions, w.next + n);
    known := Learned(Learned(w.known, before, transactions, w.next), before, transactions, w.next + n);
    after := Replay(before, transactions, w.next);
  }

  lemma {:induction false} RequestKeepsInv(w: World)
    requires Inv(w)
    ensures Inv(Step(w, Request))
  {
    hide VisibleLines, Alignment.WellFormed, Pending, Align.Aligned, Lines;
    PendingIsWellFormed(VisibleLines(w.left.chars), VisibleLines(w.right.chars));
    var r := Step(w, Request);
    assert GeometryFits(w, Left) && GeometryFits(w, Right);
    assert GeometryFits(r, Left) && GeometryFits(r, Right);
  }

  lemma {:induction false} AnswerKeepsInv(w: World, stamps: Stamps)
    requires Inv(w) && Possible(w, Answer(stamps))
    ensures Inv(Step(w, Answer(stamps)))
  {
    hide VisibleLines, Alignment.WellFormed, Align.Aligned, Lines;
    Align.AlignedIsWellFormed(Lines(w.known[stamps.left]), Lines(w.known[stamps.right]));
    LinesAreVisible(w.known[stamps.left]);
    LinesAreVisible(w.known[stamps.right]);
    var r := Step(w, Answer(stamps));
    assert GeometryFits(w, Left) && GeometryFits(w, Right);
    assert GeometryFits(r, Left) && GeometryFits(r, Right);
  }

  lemma {:induction false} UpdateKeepsInv(w: World)
    requires Inv(w)
    ensures Inv(Step(w, UpdateNow))
  {
    hide VisibleLines, Alignment.WellFormed, Align.Aligned, Lines;
    Align.AlignedIsWellFormed(Lines(w.left.chars), Lines(w.right.chars));
    LinesAreVisible(w.left.chars);
    LinesAreVisible(w.right.chars);
    var r := Step(w, UpdateNow);
    assert GeometryFits(r, Left) && GeometryFits(r, Right);
  }

  lemma {:induction false} StepKeepsInv(w: World, event: Event)
    requires Inv(w) && Possible(w, event)
    ensures Inv(Step(w, event))
  {
    hide Inv, Step;
    match event
    case EditText(side, changes) => EditKeepsInv(w, side, changes);
    case ReplaceText(side, chars) => ReplaceKeepsInv(w, side, chars);
    case ReplayHistory(side, transactions) => HistoryKeepsInv(w, side, transactions);
    case Request => RequestKeepsInv(w);
    case Answer(stamps) => AnswerKeepsInv(w, stamps);
    case UpdateNow => UpdateKeepsInv(w);
  }

  // ------------------------------------------------------------ every run

  /** A run that is possible at every step. */
  predicate PossibleRun(w: World, events: seq<Event>)
    requires Sound(w.session)
    decreases |events|
  {
    events == [] || (Possible(w, events[0]) && PossibleRun(Step(w, events[0]), events[1..]))
  }

  function Run(w: World, events: seq<Event>): World
    requires Sound(w.session) && PossibleRun(w, events)
    decreases |events|
  {
    if events == [] then w else Run(Step(w, events[0]), events[1..])
  }

  lemma {:induction false} RunKeepsInv(w: World, events: seq<Event>)
    requires Inv(w) && PossibleRun(w, events)
    ensures Inv(Run(w, events))
    decreases |events|
  {
    hide Inv, Step;
    assert Sound(w.session) by { SoundOfInv(w); }
    if events != [] {
      StepKeepsInv(w, events[0]);
      RunKeepsInv(Step(w, events[0]), events[1..]);
    }
  }

  lemma {:induction false} SoundOfInv(w: World)
    requires Inv(w)
    ensures Sound(w.session)
  {
  }

  /** In every run from an opened session, each side has exactly the visible
      lines of the text at its geometry revision, and an alignment that needs no
      update is the alignment of the live texts. */
  lemma {:induction false} EveryRunIsFaithful(leftBuffer: nat, rightBuffer: nat, left: T.Text, right: T.Text, next: nat,
                                              recorded: bool, events: seq<Event>)
    requires leftBuffer != rightBuffer && left.revision < next && right.revision < next
    requires left.revision == right.revision ==> left.chars == right.chars
    requires Sound(Opened(leftBuffer, rightBuffer, left, right, next, recorded).session)
    requires PossibleRun(Opened(leftBuffer, rightBuffer, left, right, next, recorded), events)
    ensures var w := Run(Opened(leftBuffer, rightBuffer, left, right, next, recorded), events);
            && (forall side: Side :: GeometryFits(w, side))
            && (!w.session.NeedsUpdate(w.Live()) ==>
                  w.session.alignment == Align.Aligned(Lines(w.left.chars), Lines(w.right.chars)))
  {
    hide Run, PossibleRun, Opened, VisibleLines, Align.Aligned, Lines, Alignment.WellFormed;
    var first := Opened(leftBuffer, rightBuffer, left, right, next, recorded);
    OpenedIsSound(leftBuffer, rightBuffer, left, right, next, recorded);
    RunKeepsInv(first, events);
    var w := Run(first, events);
    assert GeometryFits(w, Left) && GeometryFits(w, Right) && ExactWhereCompared(w);
  }

  /** What is asked for is newer than what was compared last. */
  predicate PendingIsNewer(s: Session) {
    s.pending.Some? ==> AtMost(s.revisions, s.pending.value) && s.revisions != s.pending.value
  }

  /** Nothing is asked for that is older than `floor`. */
  predicate PendingSince(s: Session, floor: Stamps) {
    s.pending.Some? ==> AtMost(floor, s.pending.value)
  }

  /** An answer for the pending revisions is taken, any other is not. */
  lemma {:induction false} OnlyThePendingAnswerCounts(w: World, stamps: Stamps)
    requires Inv(w) && Possible(w, Answer(stamps))
    ensures w.session.pending != Some(stamps) ==> Step(w, Answer(stamps)) == w
    ensures w.session.pending == Some(stamps) ==>
              Step(w, Answer(stamps)).session.alignment == Answering(w, stamps)
              && Step(w, Answer(stamps)).session.pending.None?
  {
  }

  lemma {:induction false} NotingLeavesPending(s: Session, buffer: nat, before: T.Text, after: T.Text,
                                               changes: T.Transaction)
    requires Sound(s) && T.Ordered(changes, |before.chars|)
    ensures Noted(s, buffer, before, after, changes).pending == s.pending
    ensures Noted(s, buffer, before, after, changes).revisions == s.revisions
  {
    hide Carried, VisibleLines;
  }

  /** A step asks for the live revisions, or leaves what is asked for, or drops
      it; and never asks for what has been compared. */
  lemma {:induction false} StepKeepsPending(w: World, event: Event, floor: Stamps)
    requires Inv(w) && Possible(w, event) && PendingIsNewer(w.session) && PendingSince(w.session, floor)
    requires AtMost(floor, w.Live())
    ensures PendingIsNewer(Step(w, event).session) && PendingSince(Step(w, event).session, floor)
    ensures AtMost(floor, Step(w, event).Live())
    ensures w.asked <= Step(w, event).asked
    ensures forall stamp :: stamp in w.known ==> stamp in Step(w, event).known
  {
    hide Noted, NotedHistory, Replayed, Replay, Learned, VisibleLines, Align.Aligned, Lines, Alignment.WellFormed,
         Pending;
    match event
    case EditText(side, changes) =>
      NotingLeavesPending(w.session, w.Buffer(side), w.On(side),
                          T.Text(T.Applied(w.On(side).chars, changes), w.next), changes);
    case ReplayHistory(side, transactions) => ReplayKeepsPending(w, side, transactions, floor);
    case _ =>
  }

  lemma {:induction false} ReplayKeepsPending(w: World, side: Side, transactions: seq<T.Transaction>, floor: Stamps)
    requires Inv(w) && Possible(w, ReplayHistory(side, transactions)) && AtMost(floor, w.Live())
    ensures var r := Step(w, ReplayHistory(side, transactions));
            && r.session.pending == w.session.pending && r.session.revisions == w.session.revisions
            && AtMost(floor, r.Live()) && r.asked == w.asked
            && forall stamp :: stamp in w.known ==> stamp in r.known
  {
    hide GeometryFits, ExactWhereCompared;
    if transactions == [] {
      ReplayingNothing(w, side);
    } else {
      var r, after := ReplayMovesOn(w, side, transactions);
    }
  }

  lemma {:induction false} RunKeepsPending(w: World, events: seq<Event>, floor: Stamps)
    requires Inv(w) && PossibleRun(w, events) && PendingIsNewer(w.session) && PendingSince(w.session, floor)
    requires AtMost(floor, w.Live())
    ensures Inv(Run(w, events)) && PendingIsNewer(Run(w, events).session) && PendingSince(Run(w, events).session, floor)
    ensures w.asked <= Run(w, events).asked
    ensures forall stamp :: stamp in w.known ==> stamp in Run(w, events).known
    decreases |events|
  {
    hide Inv, Step, PendingIsNewer, PendingSince, AtMost;
    if events != [] {
      SoundOfInv(w);
      StepKeepsInv(w, events[0]);
      StepKeepsPending(w, events[0], floor);
      RunKeepsPending(Step(w, events[0]), events[1..], floor);
    }
  }

  /** Once a session has asked again about texts that have moved on, an answer to
      an earlier question changes nothing, whenever it comes: not right away, and
      not after any further run. */
  lemma {:induction false} StaleAnswersAreRefused(leftBuffer: nat, rightBuffer: nat, left: T.Text, right: T.Text,
                                                  next: nat, recorded: bool, events: seq<Event>,
                                                  later: seq<Event>, stamps: Stamps)
    requires leftBuffer != rightBuffer && left.revision < next && right.revision < next
    requires left.revision == right.revision ==> left.chars == right.chars
    requires Sound(Opened(leftBuffer, rightBuffer, left, right, next, recorded).session)
    requires PossibleRun(Opened(leftBuffer, rightBuffer, left, right, next, recorded), events)
    requires var w := Run(Opened(leftBuffer, rightBuffer, left, right, next, recorded), events);
             stamps in w.asked && stamps != w.Live() && Sound(w.session) && PossibleRun(Step(w, Request), later)
    ensures var w := Run(Step(Run(Opened(leftBuffer, rightBuffer, left, right, next, recorded), events), Request),
                         later);
            Sound(w.session) && Possible(w, Answer(stamps)) && Step(w, Answer(stamps)) == w
  {
    var first := Opened(leftBuffer, rightBuffer, left, right, next, recorded);
    OpenedIsSound(leftBuffer, rightBuffer, left, right, next, recorded);
    RunKeepsPending(first, events, first.Live());
    RefusedFrom(Run(first, events), later, stamps);
  }

  lemma {:induction false} RefusedFrom(w: World, later: seq<Event>, stamps: Stamps)
    requires Inv(w) && PendingIsNewer(w.session) && stamps in w.asked && stamps != w.Live()
    requires PossibleRun(Step(w, Request), later)
    ensures Inv(Step(w, Request)) && Inv(Run(Step(w, Request), later))
    ensures Possible(Run(Step(w, Request), later), Answer(stamps))
    ensures Step(Run(Step(w, Request), later), Answer(stamps)) == Run(Step(w, Request), later)
  {
    hide VisibleLines, Align.Aligned, Lines, Alignment.WellFormed, Pending, Run, PossibleRun;
    RequestKeepsInv(w);
    var r := Step(w, Request);
    assert PendingSince(r.session, w.Live()) && PendingIsNewer(r.session);
    RunKeepsPending(r, later, w.Live());
    OnlyThePendingAnswerCounts(Run(r, later), stamps);
  }

  /** A session that asks about the live texts and is answered needs nothing
      more, and reads exactly. */
  lemma {:induction false} AskingSettles(w: World)
    requires Inv(w)
    ensures Possible(Step(w, Request), Answer(w.Live()))
    ensures !Step(Step(w, Request), Answer(w.Live())).session.NeedsUpdate(w.Live())
    ensures Inv(Step(Step(w, Request), Answer(w.Live())))
  {
    RequestKeepsInv(w);
    hide VisibleLines, Align.Aligned, Lines, Pending, Alignment.WellFormed;
    AnswerKeepsInv(Step(w, Request), w.Live());
  }

  // ------------------------------------------------------------- following

  /** The geometry is that of the live text of a side, so the next edit of it
      will be carried through. */
  predicate Following(w: World, side: Side) {
    w.session.geometry.On(side) == w.On(side).revision
  }

  /** All but replacing the text unheard, and hearing about an older one. */
  predicate KeepsUp(w: World, event: Event, side: Side) {
    match event
    case ReplaceText(replaced, _) => replaced != side
    case Answer(stamps) => stamps.On(side) == w.On(side).revision
    case _ => true
  }

  lemma {:induction false} StepKeepsUp(w: World, event: Event, side: Side)
    requires Inv(w) && Possible(w, event) && Following(w, side) && KeepsUp(w, event, side)
    ensures Following(Step(w, event), side)
  {
    hide Noted, NotedHistory, Replay, Learned, VisibleLines, Align.Aligned, Lines, Alignment.WellFormed, Pending,
         GeometryFits, ExactWhereCompared;
    match event
    case EditText(edited, changes) =>
      EditIsFollowed(w.session, edited, w.Buffer(edited), w.On(edited),
                     T.Text(T.Applied(w.On(edited).chars, changes), w.next), changes);
    case ReplayHistory(edited, transactions) =>
      StepReplays(w, edited, transactions);
      HistoryIsFollowed(w, edited, transactions);
    case _ =>
  }

  lemma {:induction false} EditIsFollowed(s: Session, edited: Side, buffer: nat, before: T.Text, after: T.Text,
                                          changes: T.Transaction)
    requires Sound(s) && T.Ordered(changes, |before.chars|) && s.SideOf(buffer) == Some(edited)
    ensures Noted(s, buffer, before, after, changes).geometry
         == if s.geometry.On(edited) == before.revision then s.geometry.With(edited, after.revision) else s.geometry
  {
    hide Carried, VisibleLines;
  }

  lemma {:induction false} HistoryIsFollowed(w: World, edited: Side, transactions: seq<T.Transaction>)
    requires Inv(w) && Possible(w, ReplayHistory(edited, transactions))
    ensures var r := AfterReplay(w, edited, transactions);
            r.session.geometry == if Following(w, edited) then w.session.geometry.With(edited, r.On(edited).revision)
                                  else w.session.geometry
  {
    hide Replay, Learned, VisibleLines, Alignment.WellFormed, GeometryFits, ExactWhereCompared, Noted, T.Applicable;
    var before := w.On(edited);
    if Following(w, edited) {
      ReplayIsFollowed(w.session, edited, w.Buffer(edited), before, transactions, w.next + |transactions|);
    }
  }

  lemma {:induction false} ReplayIsFollowed(s: Session, edited: Side, buffer: nat, text: T.Text,
                                            transactions: seq<T.Transaction>, stamp: nat)
    requires Sound(s) && T.Applicable(text.chars, transactions) && s.SideOf(buffer) == Some(edited)
    requires s.geometry.On(edited) == text.revision
    ensures var r := Replayed(s, buffer, text, transactions, stamp);
            r.geometry == s.geometry.With(edited, Replay(text, transactions, stamp).revision)
            && r.leftBuffer == s.leftBuffer && r.rightBuffer == s.rightBuffer
    decreases |transactions|
  {
    hide Noted, T.Applied, T.Ordered, VisibleLines;
    if transactions != [] {
      var next := T.Text(T.Applied(text.chars, transactions[0]), stamp);
      EditIsFollowed(s, edited, buffer, text, next, transactions[0]);
      NotingKeepsBuffers(s, buffer, text, next, transactions[0]);
      ReplayIsFollowed(Noted(s, buffer, text, next, transactions[0]), edited, buffer, next, transactions[1..],
                       stamp + 1);
    }
  }

  lemma {:induction false} NotingKeepsBuffers(s: Session, buffer: nat, before: T.Text, after: T.Text,
                                              changes: T.Transaction)
    requires Sound(s) && T.Ordered(changes, |before.chars|)
    ensures Noted(s, buffer, before, after, changes).leftBuffer == s.leftBuffer
    ensures Noted(s, buffer, before, after, changes).rightBuffer == s.rightBuffer
  {
    hide Carried, VisibleLines;
  }

  predicate AllKeepUp(w: World, events: seq<Event>, side: Side)
    requires Sound(w.session) && PossibleRun(w, events)
    decreases |events|
  {
    events == [] || (KeepsUp(w, events[0], side) && AllKeepUp(Step(w, events[0]), events[1..], side))
  }

  /** Once a session follows a side it goes on following it: edits, undo, redo,
      questions and updates never leave its geometry behind. */
  lemma {:induction false} FollowingGoesOn(w: World, events: seq<Event>, side: Side)
    requires Inv(w) && PossibleRun(w, events) && Following(w, side) && AllKeepUp(w, events, side)
    ensures Following(Run(w, events), side)
    decreases |events|
  {
    hide Inv, Step, Following, KeepsUp;
    if events != [] {
      SoundOfInv(w);
      StepKeepsInv(w, events[0]);
      StepKeepsUp(w, events[0], side);
      FollowingGoesOn(Step(w, events[0]), events[1..], side);
    }
  }
}
