/** Documents, their rows, and the transactions that edit them. */
module Texts {

  /** A document: its characters, and a stamp that changes whenever they do. */
  datatype Text = Text(chars: string, revision: nat)

  /** Cuts the characters from `from` up to `to` and puts `text` there. */
  datatype TextChange = TextChange(from: nat, to: nat, text: string)

  type Transaction = seq<TextChange>

  /** Changes in ascending order that do not overlap and end by `end`. They may
      touch, and several may insert at one place. */
  predicate Ordered(changes: Transaction, end: nat) {
    forall i :: 0 <= i < |changes| ==> changes[i].from <= changes[i].to <= Limit(changes, i, end)
  }

  /** Where change `i` has to stop: at the next one, or at the end. */
  function Limit(changes: Transaction, i: nat, end: nat): nat
    requires i < |changes|
  {
    if i + 1 < |changes| then changes[i + 1].from else end
  }

  lemma {:induction false} OrderedStops(changes: Transaction, end: nat, j: nat)
    requires Ordered(changes, end) && j < |changes|
    ensures changes[j].to <= end
    decreases |changes| - j
  {
    if j + 1 < |changes| {
      OrderedStops(changes, end, j + 1);
    }
  }

  /** No change replaces or inserts anything. */
  predicate IsEmpty(changes: Transaction) {
    forall i :: 0 <= i < |changes| ==> changes[i].from == changes[i].to && changes[i].text == []
  }

  lemma {:induction false} OrderedFront(changes: Transaction, end: nat)
    requires Ordered(changes, end) && changes != []
    ensures Ordered(changes[..|changes| - 1], changes[|changes| - 1].from)
    ensures changes[|changes| - 1].from <= changes[|changes| - 1].to <= end
  {
  }

  function Replaced(chars: string, change: TextChange): string
    requires change.from <= change.to <= |chars|
  {
    chars[..change.from] + change.text + chars[change.to..]
  }

  /** The characters after a transaction, applied from its last change up. */
  function Applied(chars: string, changes: Transaction): string
    requires Ordered(changes, |chars|)
    decreases |changes|
  {
    if changes == [] then chars
    else
      var n := |changes| - 1;
      Applied(Replaced(chars, changes[n]), changes[..n])
  }

  /** How many characters the changes add, less those they remove. */
  function Growth(changes: Transaction): int {
    if changes == [] then 0
    else
      var last := changes[|changes| - 1];
      Growth(changes[..|changes| - 1]) + |last.text| - (last.to - last.from)
  }

  /** The change that takes `change` back once its text sits at `at`. */
  function TakenBack(chars: string, change: TextChange, at: nat): TextChange
    requires change.from <= change.to <= |chars|
  {
    TextChange(at, at + |change.text|, chars[change.from..change.to])
  }

  /** The transaction that takes `changes` back, in the coordinates after them. */
  function Inverse(chars: string, changes: Transaction): (inverse: Transaction)
    requires Ordered(changes, |chars|)
    ensures |inverse| == |changes|
  {
    if changes == [] then []
    else
      var n := |changes| - 1;
      var last := changes[n];
      GrowthBound(changes[..n], last.from);
      Inverse(chars, changes[..n]) + [TakenBack(chars, last, last.from + Growth(changes[..n]))]
  }

  lemma {:induction false} GrowthBound(changes: Transaction, end: nat)
    requires Ordered(changes, end)
    ensures 0 <= end + Growth(changes)
  {
    if changes != [] {
      var n := |changes| - 1;
      GrowthBound(changes[..n], changes[n].from);
    }
  }

  /** Transactions that can be applied one after another. */
  predicate Applicable(chars: string, transactions: seq<Transaction>)
    decreases |transactions|
  {
    transactions == [] ||
    (Ordered(transactions[0], |chars|) && Applicable(Applied(chars, transactions[0]), transactions[1..]))
  }

  /** The characters after transactions applied one after another. */
  function AppliedAll(chars: string, transactions: seq<Transaction>): string
    requires Applicable(chars, transactions)
    decreases |transactions|
  {
    if transactions == [] then chars else AppliedAll(Applied(chars, transactions[0]), transactions[1..])
  }

  // ------------------------------------------------------------ inverse law

  /** Changes that end by `|front|` leave what comes after alone. */
  lemma {:induction false} AppliedInFront(front: string, back: string, changes: Transaction)
    requires Ordered(changes, |front|)
    ensures Applied(front + back, changes) == Applied(front, changes) + back
    decreases |changes|
  {
    if changes != [] {
      var n := |changes| - 1;
      var last := changes[n];
      assert Replaced(front + back, last) == Replaced(front, last) + back;
      AppliedInFront(Replaced(front, last), back, changes[..n]);
    }
  }

  /** A transaction is its earlier changes on what precedes the last one, then
      the last one's text, then what follows. */
  lemma {:induction false} AppliedSplits(chars: string, changes: Transaction)
    requires Ordered(changes, |chars|) && changes != []
    ensures Ordered(changes[..|changes| - 1], changes[|changes| - 1].from)
    ensures changes[|changes| - 1].from <= changes[|changes| - 1].to <= |chars|
    ensures Applied(chars, changes)
         == Applied(chars[..changes[|changes| - 1].from], changes[..|changes| - 1])
            + (changes[|changes| - 1].text + chars[changes[|changes| - 1].to..])
  {
    var last := changes[|changes| - 1];
    OrderedFront(changes, |chars|);
    ReplacedParts(chars, last);
    hide Ordered, Replaced;
    AppliedInFront(chars[..last.from], last.text + chars[last.to..], changes[..|changes| - 1]);
  }

  lemma {:induction false} ReplacedParts(chars: string, change: TextChange)
    requires change.from <= change.to <= |chars|
    ensures Replaced(chars, change) == chars[..change.from] + (change.text + chars[change.to..])
  {
  }

  lemma {:induction false} AppliedLength(chars: string, changes: Transaction)
    requires Ordered(changes, |chars|)
    ensures |Applied(chars, changes)| == |chars| + Growth(changes)
    decreases |changes|
  {
    if changes != [] {
      var n := |changes| - 1;
      AppliedSplits(chars, changes);
      AppliedLength(chars[..changes[n].from], changes[..n]);
    }
  }

  lemma {:induction false} StretchOfFront(chars: string, end: nat, lo: nat, hi: nat)
    requires lo <= hi <= end <= |chars|
    ensures chars[..end][lo..hi] == chars[lo..hi]
  {
  }

  /** The inverse reads only what lies before the changes end. */
  lemma {:induction false} InverseInFront(chars: string, end: nat, changes: Transaction)
    requires end <= |chars| && Ordered(changes, end)
    ensures Inverse(chars, changes) == Inverse(chars[..end], changes)
  {
    if changes != [] {
      var n := |changes| - 1;
      OrderedFront(changes, end);
      InverseInFront(chars, end, changes[..n]);
      StretchOfFront(chars, end, changes[n].from, changes[n].to);
    }
  }

  lemma {:induction false} InverseUnfolds(chars: string, changes: Transaction)
    requires Ordered(changes, |chars|) && changes != []
    ensures Ordered(changes[..|changes| - 1], changes[|changes| - 1].from)
    ensures Ordered(changes[..|changes| - 1], |chars|)
    ensures changes[|changes| - 1].from <= changes[|changes| - 1].to <= |chars|
    ensures 0 <= changes[|changes| - 1].from + Growth(changes[..|changes| - 1])
    ensures Inverse(chars, changes)
         == Inverse(chars, changes[..|changes| - 1])
            + [TakenBack(chars, changes[|changes| - 1], changes[|changes| - 1].from + Growth(changes[..|changes| - 1]))]
  {
    OrderedFront(changes, |chars|);
    GrowthBound(changes[..|changes| - 1], changes[|changes| - 1].from);
    PrefixOrdered(changes, |chars|, |changes| - 1);
    hide Ordered, Growth, TakenBack;
  }

  /** The inverse of a transaction, split the way the transaction is. */
  lemma {:induction false} InverseSplits(chars: string, changes: Transaction)
    requires Ordered(changes, |chars|) && changes != []
    ensures Ordered(changes[..|changes| - 1], changes[|changes| - 1].from)
    ensures changes[|changes| - 1].from <= changes[|changes| - 1].to <= |chars|
    ensures Inverse(chars, changes)
         == Inverse(chars[..changes[|changes| - 1].from], changes[..|changes| - 1])
            + [TakenBack(chars, changes[|changes| - 1],
                         |Applied(chars[..changes[|changes| - 1].from], changes[..|changes| - 1])|)]
  {
    var n := |changes| - 1;
    OrderedFront(changes, |chars|);
    InverseInFront(chars, changes[n].from, changes[..n]);
    AppliedLength(chars[..changes[n].from], changes[..n]);
    InverseUnfolds(chars, changes);
    hide Ordered, Inverse, Applied, Growth, TakenBack;
  }

  /** Replacing a middle stretch by another. */
  lemma {:induction false} ReplacedMiddle(done: string, text: string, back: string, other: string)
    ensures Replaced(done + (text + back), TextChange(|done|, |done| + |text|, other)) == done + (other + back)
  {
  }

  /** The inverse is ordered over the new text, and applying it restores the
      old one exactly, whatever touches or coincides. */
  lemma {:induction false} InverseRestores(chars: string, changes: Transaction)
    requires Ordered(changes, |chars|)
    ensures Ordered(Inverse(chars, changes), |Applied(chars, changes)|)
    ensures Applied(Applied(chars, changes), Inverse(chars, changes)) == chars
    decreases |changes|
  {
    hide Ordered, Applied, Inverse, Growth;
    if changes == [] {
      NothingToInvert(chars);
    } else {
      var n := |changes| - 1;
      var last := changes[n];
      OrderedFront(changes, |chars|);
      var front, earlier := chars[..last.from], changes[..n];
      AppliedSplits(chars, changes);
      InverseSplits(chars, changes);
      InverseRestores(front, earlier);
      UndoInFront(Applied(front, earlier), last.text, chars[last.to..], chars[last.from..last.to],
                  Inverse(front, earlier));
      assert front + (chars[last.from..last.to] + chars[last.to..]) == chars;
    }
  }

  lemma {:induction false} NothingToInvert(chars: string)
    ensures Inverse(chars, []) == [] && Applied(chars, []) == chars && Ordered([], |chars|)
  {
  }

  /** Undoing the last change first and the earlier ones after it. */
  lemma {:induction false} UndoInFront(done: string, text: string, back: string, other: string, undo: Transaction)
    requires Ordered(undo, |done|)
    ensures var all := undo + [TextChange(|done|, |done| + |text|, other)];
            && Ordered(all, |done + (text + back)|)
            && Applied(done + (text + back), all) == Applied(done, undo) + (other + back)
  {
    var last := TextChange(|done|, |done| + |text|, other);
    assert (undo + [last])[..|undo|] == undo;
    ReplacedMiddle(done, text, back, other);
    AppliedInFront(done, other + back, undo);
  }

  /** Taking the inverse back is the transaction itself. */
  lemma {:induction false} InverseOfInverse(chars: string, changes: Transaction)
    requires Ordered(changes, |chars|)
    ensures Ordered(Inverse(chars, changes), |Applied(chars, changes)|)
    ensures Inverse(Applied(chars, changes), Inverse(chars, changes)) == changes
    decreases |changes|
  {
    InverseRestores(chars, changes);
    if changes == [] {
      assert Inverse(chars, changes) == [];
    } else {
      var n := |changes| - 1;
      OrderedFront(changes, |chars|);
      AppliedSplits(chars, changes);
      InverseSplits(chars, changes);
      InverseOfInverse(chars[..changes[n].from], changes[..n]);
      InverseRestores(chars[..changes[n].from], changes[..n]);
      InverseStep(chars, changes, chars[..changes[n].from], changes[..n], changes[n]);
    }
  }

  lemma {:induction false} InverseStep(chars: string, changes: Transaction, front: string, earlier: Transaction,
                                       last: TextChange)
    requires Ordered(changes, |chars|) && changes != []
    requires earlier == changes[..|changes| - 1] && last == changes[|changes| - 1]
    requires last.from <= last.to <= |chars| && front == chars[..last.from]
    requires Ordered(earlier, |front|)
    requires Ordered(Inverse(front, earlier), |Applied(front, earlier)|)
    requires Inverse(Applied(front, earlier), Inverse(front, earlier)) == earlier
    requires Applied(Applied(front, earlier), Inverse(front, earlier)) == front
    requires Ordered(Inverse(chars, changes), |Applied(chars, changes)|)
    ensures Inverse(Applied(chars, changes), Inverse(chars, changes)) == changes
  {
    hide Ordered, Applied, Growth, Inverse;
    var n := |changes| - 1;
    AppliedSplits(chars, changes);
    InverseSplits(chars, changes);
    var done, undo, after := Applied(front, earlier), Inverse(front, earlier), Applied(chars, changes);
    var inverse := Inverse(chars, changes);
    var back := inverse[n];
    assert inverse[..n] == undo;
    assert back == TextChange(|done|, |done| + |last.text|, chars[last.from..last.to]);
    InverseSplits(after, inverse);
    assert after[..back.from] == done;
    assert after[back.from..back.to] == last.text;
    assert changes == earlier + [last];
  }

  // --------------------------------------------------------- as carried out

  /** Applies a transaction and returns its inverse: the inverse is collected
      going forwards, the text is edited going backwards. */
  method Apply(text: Text, changes: Transaction, stamp: nat) returns (after: Text, inverse: Transaction)
    requires Ordered(changes, |text.chars|)
    ensures after == Text(Applied(text.chars, changes), stamp)
    ensures inverse == Inverse(text.chars, changes)
  {
    hide Replaced, Ordered, Applied, Growth, Inverse;
    inverse := [];
    var delta := 0;
    NoChanges(text.chars, changes);
    for i := 0 to |changes|
      invariant Ordered(changes[..i], |text.chars|)
      invariant inverse == Inverse(text.chars, changes[..i])
      invariant delta == Growth(changes[..i])
    {
      var change := changes[i];
      OneMoreChange(text.chars, changes, i);
      var newFrom: nat := change.from + delta;
      inverse := inverse + [TextChange(newFrom, newFrom + |change.text|, text.chars[change.from..change.to])];
      delta := delta + |change.text| - (change.to - change.from);
    }
    assert changes[..|changes|] == changes;
    var rope := text.chars;
    for i := |changes| downto 0
      invariant Ordered(changes[..i], |rope|)
      invariant Applied(rope, changes[..i]) == Applied(text.chars, changes)
    {
      var change := changes[i];
      LastChange(rope, changes, i);
      ghost var before := rope;
      rope := rope[..change.from] + rope[change.to..];
      rope := rope[..change.from] + change.text + rope[change.from..];
      assert rope == Replaced(before, change) by { ReplacedParts(before, change); }
    }
    NoChanges(rope, changes);
    after := Text(rope, stamp);
  }

  lemma {:induction false} NoChanges(chars: string, changes: Transaction)
    ensures Ordered(changes[..0], |chars|)
    ensures Inverse(chars, changes[..0]) == [] && Growth(changes[..0]) == 0
    ensures Applied(chars, changes[..0]) == chars
  {
  }

  lemma {:induction false} PrefixOrdered(changes: Transaction, end: nat, i: nat)
    requires Ordered(changes, end) && i <= |changes|
    ensures Ordered(changes[..i], end)
    ensures i < |changes| ==> Ordered(changes[..i], changes[i].from) && changes[i].from <= changes[i].to <= end
  {
    if i < |changes| {
      OrderedStops(changes, end, i);
      forall k | 0 <= k < i
        ensures changes[k].from <= changes[k].to <= Limit(changes[..i], k, changes[i].from)
      {
        assert Limit(changes[..i], k, changes[i].from) == Limit(changes, k, end);
      }
    } else {
      assert changes[..i] == changes;
    }
  }

  lemma {:induction false} OneMoreChange(chars: string, changes: Transaction, i: nat)
    requires Ordered(changes, |chars|) && i < |changes|
    ensures Ordered(changes[..i], |chars|) && Ordered(changes[..i + 1], |chars|)
    ensures changes[i].from <= changes[i].to <= |chars|
    ensures 0 <= changes[i].from + Growth(changes[..i])
    ensures Inverse(chars, changes[..i + 1])
         == Inverse(chars, changes[..i]) + [TakenBack(chars, changes[i], changes[i].from + Growth(changes[..i]))]
    ensures Growth(changes[..i + 1]) == Growth(changes[..i]) + |changes[i].text| - (changes[i].to - changes[i].from)
  {
    PrefixOrdered(changes, |chars|, i);
    PrefixOrdered(changes, |chars|, i + 1);
    GrowthBound(changes[..i], changes[i].from);
    assert changes[..i + 1][..i] == changes[..i];
    InverseUnfolds(chars, changes[..i + 1]);
    hide Ordered, Inverse, TakenBack;
  }

  lemma {:induction false} LastChange(rope: string, changes: Transaction, i: nat)
    requires i < |changes| && Ordered(changes[..i + 1], |rope|)
    ensures changes[i].from <= changes[i].to <= |rope|
    ensures Ordered(changes[..i], |Replaced(rope, changes[i])|)
    ensures Applied(rope, changes[..i + 1]) == Applied(Replaced(rope, changes[i]), changes[..i])
  {
    assert changes[..i + 1][..i] == changes[..i];
    OrderedFront(changes[..i + 1], |rope|);
  }
}
