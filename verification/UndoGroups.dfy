/** A group of edits is one checkpoint: it is undone and redone as a whole. */
module UndoGroups {
  import opened Wrappers
  import opened Texts
  import opened Checkpoints
  import opened Histories

  /** What happens while a group is open: edits, and groups begun in vain. */
  predicate InsideAGroup(ops: seq<Op>) {
    forall i :: 0 <= i < |ops| ==> ops[i].Apply? || ops[i].Begin?
  }

  /** Some edit replaces or inserts something. */
  predicate ChangesAnything(ops: seq<Op>) {
    exists i :: 0 <= i < |ops| && ops[i].Apply? && !IsEmpty(ops[i].changes)
  }

  /** The text after some edits made one after another. */
  function TextAfter(text: string, ops: seq<Op>): string
    requires Fitting(text, ops)
    decreases |ops|
  {
    if ops == [] then text
    else TextAfter(if ops[0].Apply? then Applied(text, ops[0].changes) else text, ops[1..])
  }

  /** Each edit fits the text the ones before it leave. */
  predicate Fitting(text: string, ops: seq<Op>)
    decreases |ops|
  {
    ops == [] ||
    ((ops[0].Apply? ==> Ordered(ops[0].changes, |text|))
     && Fitting(if ops[0].Apply? then Applied(text, ops[0].changes) else text, ops[1..]))
  }

  lemma {:induction false} EmptyChangesNothing(text: string, changes: Transaction)
    requires Ordered(changes, |text|) && IsEmpty(changes)
    ensures Applied(text, changes) == text
    decreases |changes|
  {
    if changes != [] {
      var n := |changes| - 1;
      OrderedFront(changes, |text|);
      AppliedSplits(text, changes);
      EmptyChangesNothing(text[..changes[n].from], changes[..n]);
    }
  }

  /** `g` is `h` with a group open since the text was `start`. */
  ghost predicate Grown(h: History, g: History, start: string, changed: bool) {
    && g.group.Some? && g.undo == h.undo
    && g.redo == (if changed then [] else h.redo)
    && (g.group.value == [] <==> !changed)
    && Takes(g.text, Reversed(g.group.value), start)
  }

  lemma {:induction false} GroupStepGrows(h: History, g: History, start: string, changed: bool, op: Op)
    requires Grown(h, g, start, changed) && Allowed(g, op) && (op.Apply? || op.Begin?)
    ensures Grown(h, After(g, op), start, changed || (op.Apply? && !IsEmpty(op.changes)))
    ensures After(g, op).text == if op.Apply? then Applied(g.text, op.changes) else g.text
    ensures (op.Apply? ==> IsEmpty(op.changes)) ==> After(g, op) == g
  {
    if op.Apply? {
      if IsEmpty(op.changes) {
        EmptyChangesNothing(g.text, op.changes);
      } else {
        var text, inverse := Applied(g.text, op.changes), Inverse(g.text, op.changes);
        InverseRestores(g.text, op.changes);
        OneTakes(text, inverse);
        hide Takes, Reversed, Ordered, Applied, Inverse, IsEmpty;
        ReversedLast(g.group.value, inverse);
        TakesConcat(text, [inverse], g.text, Reversed(g.group.value), start);
      }
    }
  }

  lemma {:induction false} GroupGrowsAlong(h: History, g: History, start: string, changed: bool, ops: seq<Op>)
    requires Grown(h, g, start, changed) && InsideAGroup(ops) && Fitting(g.text, ops)
    ensures AllowedRun(g, ops)
    ensures Grown(h, AfterRun(g, ops), start, changed || ChangesAnything(ops))
    ensures AfterRun(g, ops).text == TextAfter(g.text, ops)
    ensures !ChangesAnything(ops) ==> AfterRun(g, ops) == g
    decreases |ops|
  {
    hide Grown, After, IsEmpty, Ordered, Applied;
    if ops != [] {
      GroupStepGrows(h, g, start, changed, ops[0]);
      var sooner := ops[0].Apply? && !IsEmpty(ops[0].changes);
      assert ChangesAnything(ops) <==> sooner || ChangesAnything(ops[1..]) by { FirstOrRest(ops); }
      GroupGrowsAlong(h, After(g, ops[0]), start, changed || sooner, ops[1..]);
    }
  }

  lemma {:induction false} FirstOrRest(ops: seq<Op>)
    requires ops != []
    ensures ChangesAnything(ops)
       <==> (ops[0].Apply? && !IsEmpty(ops[0].changes)) || ChangesAnything(ops[1..])
  {
    hide IsEmpty;
    if ChangesAnything(ops) {
      var i :| 0 <= i < |ops| && ops[i].Apply? && !IsEmpty(ops[i].changes);
      assert i > 0 ==> ops[1..][i - 1] == ops[i];
    }
    if ChangesAnything(ops[1..]) {
      var i :| 0 <= i < |ops[1..]| && ops[1..][i].Apply? && !IsEmpty(ops[1..][i].changes);
      assert ops[i + 1] == ops[1..][i];
    }
  }

  /** A group that is begun and edited, and what undoing and redoing it does: if
      some edit changed anything, the whole of it is one more checkpoint, which
      undo takes back to where the group began and redo brings back to where it
      ended; if none did, closing it leaves everything as it was. */
  lemma {:induction false} AGroupIsOneCheckpoint(h: History, ops: seq<Op>)
    requires h.group.None? && InsideAGroup(ops) && Fitting(h.text, ops)
    ensures AllowedRun(h, [Begin] + ops)
    ensures var g := AfterRun(h, [Begin] + ops);
            var c := Committed(g);
            && g.text == c.text == TextAfter(h.text, ops) && g.undo == h.undo && c.group.None?
            && (!ChangesAnything(ops) ==> c == h)
            && (ChangesAnything(ops) ==>
                  && c.undo != [] && c.undo == Capped(h.undo + [c.undo[|c.undo| - 1]]) && c.redo == []
                  && CanUndo(g) && Undone(g) == Undone(c) && CanRedo(Undone(g))
                  && Undone(g).text == h.text && Undone(g).undo == c.undo[..|c.undo| - 1]
                  && Redone(Undone(g)) == c)
  {
    var b := Begun(h);
    assert ([Begin] + ops)[1..] == ops;
    assert Grown(h, b, h.text, false) by { assert Reversed<Transaction>([]) == []; }
    GroupGrowsAlong(h, b, h.text, false, ops);
    var g := AfterRun(b, ops);
    assert AfterRun(h, [Begin] + ops) == g;
    hide AfterRun, AllowedRun, TextAfter, Fitting;
    if ChangesAnything(ops) {
      ClosedGroup(h, g, h.text);
    }
  }

  lemma {:induction false} ClosedGroup(h: History, g: History, start: string)
    requires Grown(h, g, start, true)
    ensures var c := Committed(g);
            && c.undo != [] && c.undo == Capped(h.undo + [c.undo[|c.undo| - 1]]) && c.redo == []
            && CanUndo(g) && Undone(g) == Undone(c) && CanRedo(Undone(g))
            && Undone(g).text == start && Undone(g).undo == c.undo[..|c.undo| - 1]
            && Redone(Undone(g)) == c
  {
    hide Applicable, AppliedAll, Reversed, TakingBack;
    var group := g.group.value;
    var c := Committed(g);
    var n := |c.undo| - 1;
    assert c.undo[n] == Reversed(group);
    assert Takes(g.text, Reversed(group), start);
    TakesTells(g.text, Reversed(group), start);
    TakingBackRestores(g.text, Reversed(group), start);
    TakesTells(start, TakingBack(g.text, Reversed(group)), g.text);
    assert c.undo == c.undo[..n] + [c.undo[n]];
    assert ([] + [TakingBack(c.text, c.undo[n])])[..0] == [];
  }

  lemma {:induction false} TakesTells(chars: string, checkpoint: Checkpoint, result: string)
    requires Takes(chars, checkpoint, result)
    ensures Applicable(chars, checkpoint) && AppliedAll(chars, checkpoint) == result
  {
  }
}
