/** Undo and redo: two stacks of checkpoints around one timeline of texts. */
module Histories {
  import opened Wrappers
  import opened Texts
  import opened Checkpoints

  const HISTORY_LIMIT: nat := 1000

  /** The current characters, the two stacks with their tops last, and the
      inverses of the edits of an open undo group, latest last. */
  datatype History = History(
    text: string,
    undo: seq<Checkpoint>,
    redo: seq<Checkpoint>,
    group: Option<seq<Transaction>>)

  datatype Op = Apply(changes: Transaction) | Begin | Commit | Undo | Redo

  function Capped(undo: seq<Checkpoint>): seq<Checkpoint> {
    if |undo| > HISTORY_LIMIT then undo[1..] else undo
  }

  function Edited(h: History, changes: Transaction): History
    requires Ordered(changes, |h.text|)
  {
    if IsEmpty(changes) then h
    else
      var inverse := Inverse(h.text, changes);
      match h.group
      case Some(group) => History(Applied(h.text, changes), h.undo, [], Some(group + [inverse]))
      case None => History(Applied(h.text, changes), Capped(h.undo + [[inverse]]), [], None)
  }

  function Begun(h: History): History {
    if h.group.Some? then h else h.(group := Some([]))
  }

  function Committed(h: History): History {
    match h.group
    case None => h
    case Some(group) =>
      if group == [] then h.(group := None)
      else h.(group := None, undo := Capped(h.undo + [Reversed(group)]))
  }

  /** The top checkpoint of the undo stack, once an open group is closed. */
  predicate CanUndo(h: History) {
    var c := Committed(h);
    c.undo == [] || Applicable(c.text, c.undo[|c.undo| - 1])
  }

  predicate CanRedo(h: History) {
    var c := Committed(h);
    c.redo == [] || Applicable(c.text, c.redo[|c.redo| - 1])
  }

  function Undone(h: History): History
    requires CanUndo(h)
  {
    var c := Committed(h);
    if c.undo == [] then c
    else
      var n := |c.undo| - 1;
      c.(text := AppliedAll(c.text, c.undo[n]), undo := c.undo[..n], redo := c.redo + [TakingBack(c.text, c.undo[n])])
  }

  function Redone(h: History): History
    requires CanRedo(h)
  {
    var c := Committed(h);
    if c.redo == [] then c
    else
      var n := |c.redo| - 1;
      c.(text := AppliedAll(c.text, c.redo[n]), redo := c.redo[..n], undo := c.undo + [TakingBack(c.text, c.redo[n])])
  }

  // -------------------------------------------------------------- timeline

  /** The states the stacks connect, oldest first: each undo entry takes a state
      to the one before it, each redo entry takes one to the next. The cursor
      is at the last committed state, which an open group takes the text back
      to; nothing can be redone while that group holds an edit. */
  ghost predicate Timeline(h: History, states: seq<string>) {
    && |states| == |h.undo| + 1 + |h.redo|
    && (forall i :: 0 <= i < |h.undo| ==> UndoLink(h, states, i))
    && (forall i :: 0 <= i < |h.redo| ==> RedoLink(h, states, i))
    && match h.group
       case None => h.text == states[|h.undo|]
       case Some(group) => Takes(h.text, Reversed(group), states[|h.undo|]) && (group != [] ==> h.redo == [])
  }

  ghost predicate UndoLink(h: History, states: seq<string>, i: nat)
    requires i < |h.undo| < |states|
  {
    Takes(states[i + 1], h.undo[i], states[i])
  }

  /** Entry `i` of the redo stack, counted from the top. */
  ghost predicate RedoLink(h: History, states: seq<string>, i: nat)
    requires i < |h.redo| && |states| == |h.undo| + 1 + |h.redo|
  {
    Takes(states[|h.undo| + i], h.redo[|h.redo| - 1 - i], states[|h.undo| + i + 1])
  }

  /** Neither stack outgrows the limit, even taken together. */
  predicate Bounded(h: History) {
    |h.undo| + |h.redo| <= HISTORY_LIMIT
  }

  predicate Allowed(h: History, op: Op) {
    op.Apply? ==> Ordered(op.changes, |h.text|)
  }

  /** The timeline once the oldest states beyond the limit are dropped. */
  function Kept(states: seq<string>, undo: nat): seq<string> {
    if undo > HISTORY_LIMIT && states != [] then states[1..] else states
  }

  function CommittedStates(h: History, states: seq<string>): seq<string> {
    match h.group
    case Some(group) => if group == [] then states else Kept(states + [h.text], |h.undo| + 1)
    case None => states
  }

  function StatesAfter(h: History, states: seq<string>, op: Op): seq<string>
    requires Allowed(h, op)
  {
    match op
    case Apply(changes) =>
      if IsEmpty(changes) then states
      else
        var past := if |h.undo| < |states| then states[..|h.undo| + 1] else states;
        if h.group.Some? then past else Kept(past + [Applied(h.text, changes)], |h.undo| + 1)
    case Begin => states
    case _ => CommittedStates(h, states)
  }

  function After(h: History, op: Op): History
    requires Allowed(h, op)
  {
    match op
    case Apply(changes) => Edited(h, changes)
    case Begin => Begun(h)
    case Commit => Committed(h)
    case Undo => if CanUndo(h) then Undone(h) else h
    case Redo => if CanRedo(h) then Redone(h) else h
  }

  /** Whether a group is open after an operation: from a beginning to whatever
      is not an edit. */
  predicate StaysOpen(open: bool, op: Op) {
    op.Begin? || (op.Apply? && open)
  }

  predicate OpenAfter(open: bool, ops: seq<Op>)
    decreases |ops|
  {
    if ops == [] then open else OpenAfter(StaysOpen(open, ops[0]), ops[1..])
  }

  // ------------------------------------------------------------- every step

  /** Pushing a checkpoint that takes the text back to the cursor. */
  lemma {:induction false} PushKeepsTimeline(h: History, states: seq<string>, text: string, checkpoint: Checkpoint)
    requires |states| == |h.undo| + 1
    requires forall i :: 0 <= i < |h.undo| ==> UndoLink(h, states, i)
    requires Takes(text, checkpoint, states[|h.undo|])
    ensures Timeline(History(text, Capped(h.undo + [checkpoint]), [], None), Kept(states + [text], |h.undo| + 1))
  {
    hide Takes;
    var n := |h.undo|;
    var r := History(text, Capped(h.undo + [checkpoint]), [], None);
    var later := Kept(states + [text], n + 1);
    forall i | 0 <= i < |r.undo| ensures UndoLink(r, later, i) {
      var k := if n + 1 > HISTORY_LIMIT then i + 1 else i;
      assert k < n ==> UndoLink(h, states, k);
    }
  }

  /** One more edit in an open group. */
  lemma {:induction false} GroupGrows(h: History, states: seq<string>, group: seq<Transaction>, text: string,
                                      inverse: Transaction)
    requires Timeline(h, states) && h.group == Some(group)
    requires Takes(text, [inverse], h.text)
    ensures Timeline(History(text, h.undo, [], Some(group + [inverse])), states[..|h.undo| + 1])
  {
    hide Takes, Reversed;
    var r, past := History(text, h.undo, [], Some(group + [inverse])), states[..|h.undo| + 1];
    ReversedLast(group, inverse);
    TakesConcat(text, [inverse], h.text, Reversed(group), states[|h.undo|]);
    forall i | 0 <= i < |r.undo| ensures UndoLink(r, past, i) { assert UndoLink(h, states, i); }
  }

  lemma {:induction false} EditKeepsTimeline(h: History, states: seq<string>, changes: Transaction)
    requires Timeline(h, states) && Ordered(changes, |h.text|)
    ensures Timeline(Edited(h, changes), StatesAfter(h, states, Apply(changes)))
  {
    hide Ordered, Applied, Inverse, Reversed, Takes, Capped, Kept, IsEmpty;
    if !IsEmpty(changes) {
      var text, inverse, past := Applied(h.text, changes), Inverse(h.text, changes), states[..|h.undo| + 1];
      InverseRestores(h.text, changes);
      OneTakes(text, inverse);
      match h.group
      case Some(group) => GroupGrows(h, states, group, text, inverse);
      case None =>
        forall i | 0 <= i < |h.undo| ensures UndoLink(h.(redo := []), past, i) { assert UndoLink(h, states, i); }
        PushKeepsTimeline(h.(redo := []), past, text, [inverse]);
    }
  }

  lemma {:induction false} CommitKeepsTimeline(h: History, states: seq<string>)
    requires Timeline(h, states)
    ensures Timeline(Committed(h), CommittedStates(h, states))
  {
    match h.group
    case None =>
    case Some(group) =>
      if group == [] {
        assert Reversed<Transaction>([]) == [];
        var r := h.(group := None);
        forall i | 0 <= i < |h.undo| ensures UndoLink(r, states, i) { assert UndoLink(h, states, i); }
        forall i | 0 <= i < |h.redo| ensures RedoLink(r, states, i) { assert RedoLink(h, states, i); }
      } else {
        hide Takes, Reversed;
        PushKeepsTimeline(h, states, h.text, Reversed(group));
      }
  }

  lemma {:induction false} TimelineAllowsBoth(h: History, states: seq<string>)
    requires Timeline(h, states)
    ensures CanUndo(h) && CanRedo(h)
  {
    CommitKeepsTimeline(h, states);
    var c, later := Committed(h), CommittedStates(h, states);
    hide Applicable, AppliedAll, Committed, CommittedStates;
    if c.undo != [] { assert UndoLink(c, later, |c.undo| - 1); }
    if c.redo != [] { assert RedoLink(c, later, 0); }
  }

  lemma {:induction false} UndoKeepsTimeline(h: History, states: seq<string>)
    requires Timeline(h, states) && CanUndo(h)
    ensures Timeline(Undone(h), CommittedStates(h, states))
  {
    CommitKeepsTimeline(h, states);
    var c, later, r := Committed(h), CommittedStates(h, states), Undone(h);
    if c.undo != [] {
      var n := |c.undo| - 1;
      assert UndoLink(c, later, n);
      TakingBackRestores(c.text, c.undo[n], later[n]);
      forall i | 0 <= i < |r.undo| ensures UndoLink(r, later, i) { assert UndoLink(c, later, i); }
      forall i | 0 <= i < |r.redo| ensures RedoLink(r, later, i) { assert i > 0 ==> RedoLink(c, later, i - 1); }
    }
  }

  lemma {:induction false} RedoKeepsTimeline(h: History, states: seq<string>)
    requires Timeline(h, states) && CanRedo(h)
    ensures Timeline(Redone(h), CommittedStates(h, states))
  {
    CommitKeepsTimeline(h, states);
    var c, later, r := Committed(h), CommittedStates(h, states), Redone(h);
    if c.redo != [] {
      assert RedoLink(c, later, 0);
      var n := |c.redo| - 1;
      TakingBackRestores(c.text, c.redo[n], later[|c.undo| + 1]);
      forall i | 0 <= i < |r.undo| ensures UndoLink(r, later, i) { assert i < |c.undo| ==> UndoLink(c, later, i); }
      forall i | 0 <= i < |r.redo| ensures RedoLink(r, later, i) { assert RedoLink(c, later, i + 1); }
    }
  }

  // ------------------------------------------------------------- every run

  lemma {:induction false} StepKeepsTimeline(h: History, states: seq<string>, op: Op)
    requires Timeline(h, states) && Bounded(h) && Allowed(h, op)
    ensures CanUndo(h) && CanRedo(h)
    ensures Timeline(After(h, op), StatesAfter(h, states, op))
    ensures Bounded(After(h, op))
    ensures After(h, op).group.Some? <==> StaysOpen(h.group.Some?, op)
  {
    TimelineAllowsBoth(h, states);
    match op
    case Apply(changes) => EditKeepsTimeline(h, states, changes);
    case Begin =>
      if h.group.None? {
        assert Reversed<Transaction>([]) == [];
        forall i | 0 <= i < |h.undo| ensures UndoLink(Begun(h), states, i) { assert UndoLink(h, states, i); }
        forall i | 0 <= i < |h.redo| ensures RedoLink(Begun(h), states, i) { assert RedoLink(h, states, i); }
      }
    case Commit => CommitKeepsTimeline(h, states);
    case Undo => UndoKeepsTimeline(h, states);
    case Redo => RedoKeepsTimeline(h, states);
  }

  /** A run each edit of which fits the text it is made to. */
  predicate AllowedRun(h: History, ops: seq<Op>)
    decreases |ops|
  {
    ops == [] || (Allowed(h, ops[0]) && AllowedRun(After(h, ops[0]), ops[1..]))
  }

  function AfterRun(h: History, ops: seq<Op>): History
    requires AllowedRun(h, ops)
    decreases |ops|
  {
    if ops == [] then h else AfterRun(After(h, ops[0]), ops[1..])
  }

  /** The texts a run leaves on the timeline: each edit outside a group, and each
      group as it is closed, drops what could be redone and adds the text it
      leads to; nothing else changes them. */
  function StatesAfterRun(h: History, states: seq<string>, ops: seq<Op>): seq<string>
    requires AllowedRun(h, ops)
    decreases |ops|
  {
    if ops == [] then states else StatesAfterRun(After(h, ops[0]), StatesAfter(h, states, ops[0]), ops[1..])
  }

  /** Every run of edits, groups, undo and redo keeps one timeline of the texts
      it passed through, with a group open exactly from its beginning to its end.
      Undo and redo are always possible on it, and the two stacks together never
      outgrow the limit, though redo never drops an entry. */
  lemma {:induction false} EveryRunKeepsATimeline(h: History, states: seq<string>, ops: seq<Op>)
    requires Timeline(h, states) && Bounded(h) && AllowedRun(h, ops)
    ensures Timeline(AfterRun(h, ops), StatesAfterRun(h, states, ops))
    ensures CanUndo(AfterRun(h, ops)) && CanRedo(AfterRun(h, ops))
    ensures Bounded(AfterRun(h, ops))
    ensures AfterRun(h, ops).group.Some? <==> OpenAfter(h.group.Some?, ops)
    decreases |ops|
  {
    hide Timeline, After, StatesAfter, Bounded, CanUndo, CanRedo, StaysOpen;
    if ops == [] {
      TimelineAllowsBoth(h, states);
    } else {
      StepKeepsTimeline(h, states, ops[0]);
      EveryRunKeepsATimeline(After(h, ops[0]), StatesAfter(h, states, ops[0]), ops[1..]);
    }
  }

  /** A new document has the one state it was opened with. */
  lemma {:induction false} FreshTimeline(text: string)
    ensures Timeline(History(text, [], [], None), [text]) && Bounded(History(text, [], [], None))
  {
  }

  // ----------------------------------------------------- undo against redo

  /** Undoing a checkpoint and redoing it changes nothing at all. */
  lemma {:induction false} RedoUndoesUndo(h: History, states: seq<string>)
    requires Timeline(h, states) && h.group.None? && h.undo != []
    ensures CanUndo(h) && CanRedo(Undone(h)) && Redone(Undone(h)) == h
    ensures Undone(h).text == states[|h.undo| - 1]
  {
    TimelineAllowsBoth(h, states);
    UndoKeepsTimeline(h, states);
    TimelineAllowsBoth(Undone(h), states);
    var n := |h.undo| - 1;
    assert UndoLink(h, states, n);
    TakingBackRestores(h.text, h.undo[n], states[n]);
    assert h.undo == h.undo[..n] + [h.undo[n]];
  }

  /** And the other way round. */
  lemma {:induction false} UndoUndoesRedo(h: History, states: seq<string>)
    requires Timeline(h, states) && h.group.None? && h.redo != []
    ensures CanRedo(h) && CanUndo(Redone(h)) && Undone(Redone(h)) == h
    ensures Redone(h).text == states[|h.undo| + 1]
  {
    TimelineAllowsBoth(h, states);
    RedoKeepsTimeline(h, states);
    TimelineAllowsBoth(Redone(h), states);
    var n := |h.redo| - 1;
    assert RedoLink(h, states, 0);
    TakingBackRestores(h.text, h.redo[n], states[|h.undo| + 1]);
    assert h.redo == h.redo[..n] + [h.redo[n]];
  }

  ghost predicate UndoesTo(h: History, k: nat, r: History)
    decreases k
  {
    if k == 0 then r == h else CanUndo(h) && UndoesTo(Undone(h), k - 1, r)
  }

  ghost predicate RedoesTo(h: History, k: nat, r: History)
    decreases k
  {
    if k == 0 then r == h else exists before :: RedoesTo(h, k - 1, before) && CanRedo(before) && r == Redone(before)
  }

  /** Undoing `k` checkpoints, grouped edits among them, lands `k` states back,
      and redoing `k` restores the text and both stacks exactly. */
  lemma {:induction false} UndoThenRedo(h: History, states: seq<string>, k: nat) returns (back: History)
    requires Timeline(h, states) && h.group.None? && k <= |h.undo|
    ensures UndoesTo(h, k, back)
    ensures back.text == states[|h.undo| - k]
    ensures RedoesTo(back, k, h)
    decreases k
  {
    hide Takes, Undone, Redone, CanUndo, CanRedo;
    if k == 0 {
      back := h;
    } else {
      RedoUndoesUndo(h, states);
      UndoKeepsTimeline(h, states);
      UndoPops(h);
      back := UndoThenRedo(Undone(h), states, k - 1);
    }
  }

  lemma {:induction false} UndoPops(h: History)
    requires CanUndo(h) && h.group.None? && h.undo != []
    ensures Undone(h).group.None? && |Undone(h).undo| == |h.undo| - 1
    ensures CommittedStates(h, []) == []
  {
  }
}
