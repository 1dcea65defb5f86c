/** Undo checkpoints: transactions applied in order, and taken back in order. */
module Checkpoints {
  import opened Texts

  /** One entry of an undo or redo stack, in the order it is applied. */
  type Checkpoint = seq<Transaction>

  /** Applying `checkpoint` to `chars` gives `result`. */
  predicate Takes(chars: string, checkpoint: Checkpoint, result: string) {
    Applicable(chars, checkpoint) && AppliedAll(chars, checkpoint) == result
  }

  function Reversed<X>(xs: seq<X>): (r: seq<X>)
    ensures |r| == |xs|
  {
    if xs == [] then [] else Reversed(xs[1..]) + [xs[0]]
  }

  /** The inverses collected while a checkpoint is applied, in that order. */
  function Reverts(chars: string, checkpoint: Checkpoint): (r: seq<Transaction>)
    requires Applicable(chars, checkpoint)
    ensures |r| == |checkpoint|
    decreases |checkpoint|
  {
    if checkpoint == [] then []
    else [Inverse(chars, checkpoint[0])] + Reverts(Applied(chars, checkpoint[0]), checkpoint[1..])
  }

  /** The checkpoint that takes `checkpoint` back. */
  function TakingBack(chars: string, checkpoint: Checkpoint): Checkpoint
    requires Applicable(chars, checkpoint)
  {
    Reversed(Reverts(chars, checkpoint))
  }

  lemma {:induction false} ReversedConcat<X>(xs: seq<X>, ys: seq<X>)
    ensures Reversed(xs + ys) == Reversed(ys) + Reversed(xs)
  {
    if xs == [] {
      assert xs + ys == ys;
    } else {
      assert (xs + ys)[1..] == xs[1..] + ys;
      ReversedConcat(xs[1..], ys);
    }
  }

  lemma {:induction false} TakesConcat(chars: string, first: Checkpoint, middle: string, second: Checkpoint,
                                       last: string)
    requires Takes(chars, first, middle) && Takes(middle, second, last)
    ensures Takes(chars, first + second, last)
    decreases |first|
  {
    hide Ordered, Applied;
    if first == [] {
      assert first + second == second;
    } else {
      assert (first + second)[1..] == first[1..] + second;
      TakesConcat(Applied(chars, first[0]), first[1..], middle, second, last);
    }
  }

  lemma {:induction false} RevertsConcat(chars: string, first: Checkpoint, middle: string, second: Checkpoint)
    requires Takes(chars, first, middle) && Applicable(middle, second)
    ensures Applicable(chars, first + second)
    ensures Reverts(chars, first + second) == Reverts(chars, first) + Reverts(middle, second)
    decreases |first|
  {
    hide Ordered, Applied, Inverse;
    if first == [] {
      assert first + second == second;
    } else {
      assert (first + second)[1..] == first[1..] + second;
      RevertsConcat(Applied(chars, first[0]), first[1..], middle, second);
    }
  }

  lemma {:induction false} OneTakes(chars: string, changes: Transaction)
    requires Ordered(changes, |chars|)
    ensures Takes(chars, [changes], Applied(chars, changes))
    ensures Reverts(chars, [changes]) == [Inverse(chars, changes)]
  {
  }

  /** Taking a checkpoint back restores the text it was applied to, and taking
      that back in turn is the checkpoint itself. */
  lemma {:induction false} TakingBackRestores(chars: string, checkpoint: Checkpoint, result: string)
    requires Takes(chars, checkpoint, result)
    ensures Takes(result, TakingBack(chars, checkpoint), chars)
    ensures TakingBack(result, TakingBack(chars, checkpoint)) == checkpoint
    decreases |checkpoint|
  {
    hide Ordered, Applied, Inverse, Reversed;
    if checkpoint == [] {
      assert Reversed<Transaction>([]) == [];
    } else {
      var first, rest := checkpoint[0], checkpoint[1..];
      var middle, undo := Applied(chars, first), Inverse(chars, first);
      TakingBackRestores(middle, rest, result);
      InverseRestores(chars, first);
      InverseOfInverse(chars, first);
      OneTakes(middle, undo);
      ReversedFirst(undo, Reverts(middle, rest));
      TakesConcat(result, TakingBack(middle, rest), middle, [undo], chars);
      RevertsConcat(result, TakingBack(middle, rest), middle, [undo]);
      ReversedLast(Reverts(result, TakingBack(middle, rest)), first);
      assert checkpoint == [first] + rest;
    }
  }

  lemma {:induction false} ReversedFirst<X>(x: X, xs: seq<X>)
    ensures Reversed([x] + xs) == Reversed(xs) + [x]
  {
  }

  lemma {:induction false} ReversedLast<X>(xs: seq<X>, x: X)
    ensures Reversed(xs + [x]) == [x] + Reversed(xs)
  {
    ReversedConcat(xs, [x]);
    assert [x][1..] == [];
    assert Reversed([x]) == [x];
  }
}
