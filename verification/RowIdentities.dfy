/** What reconciling gives each row, said of the rows alone: which of the old
    rows, entries and waiting transfers is whose. */
module RowIdentities {
  import opened Wrappers
  import opened Directories
  import opened DirectoryPasses

  // ----------------------------------------------------------- the k-th copy

  /** How many of the first `n` lines say `text`. */
  function Said(lines: seq<string>, text: string, n: nat): (count: nat)
    requires n <= |lines|
    ensures count <= n
  {
    if n == 0 then 0 else Said(lines, text, n - 1) + if lines[n - 1] == text then 1 else 0
  }

  function Copies(lines: seq<string>, text: string): nat {
    Said(lines, text, |lines|)
  }

  lemma {:induction false} SaidAscends(lines: seq<string>, text: string, lower: nat, upper: nat)
    requires lower <= upper <= |lines|
    ensures Said(lines, text, lower) <= Said(lines, text, upper)
    ensures lower < upper && lines[lower] == text ==> Said(lines, text, lower) < Said(lines, text, upper)
    decreases upper
  {
    if lower < upper {
      SaidAscends(lines, text, lower, upper - 1);
    }
  }

  /** The row that says `text` for the `k`-th time, counted from 0. */
  function Copy(lines: seq<string>, text: string, k: nat): (row: nat)
    requires k < Copies(lines, text)
    ensures row < |lines| && lines[row] == text && Said(lines, text, row) == k
  {
    CopyIn(lines, text, k, |lines|)
  }

  function CopyIn(lines: seq<string>, text: string, k: nat, n: nat): (row: nat)
    requires n <= |lines| && k < Said(lines, text, n)
    ensures row < n && lines[row] == text && Said(lines, text, row) == k
  {
    if k < Said(lines, text, n - 1) then CopyIn(lines, text, k, n - 1) else n - 1
  }

  lemma {:induction false} OneCopy(lines: seq<string>, text: string, one: nat, other: nat)
    requires one < |lines| && other < |lines| && lines[one] == lines[other] == text
    requires Said(lines, text, one) == Said(lines, text, other)
    ensures one == other
  {
    if one < other {
      SaidAscends(lines, text, one, other);
    } else if other < one {
      SaidAscends(lines, text, other, one);
    }
  }

  lemma {:induction false} SaidBySome(lines: seq<string>, text: string, n: nat)
    requires n <= |lines|
    ensures Said(lines, text, n) > 0 <==> exists i :: 0 <= i < n && lines[i] == text
  {
    if n > 0 {
      SaidBySome(lines, text, n - 1);
    }
  }

  // ---------------------------------------------------- whose is which, said

  /** The row says a label for a time for which an old row says it, too. */
  predicate Moved(e: Edit, row: nat)
    requires row < |e.after|
  {
    e.after[row] != "" && Said(e.after, e.after[row], row) < Copies(e.before, e.after[row])
  }

  /** Rows have been added, and all old rows with the label stand for one thing. */
  predicate Shared(e: Edit, row: nat)
    requires e.Fits() && row < |e.after|
  {
    && e.after[row] != "" && |e.after| > |e.before| && Copies(e.before, e.after[row]) > 0
    && e.previous[Copy(e.before, e.after[row], 0)].Some?
    && forall r :: 0 <= r < |e.before| && e.before[r] == e.after[row] ==>
         e.previous[r] == e.previous[Copy(e.before, e.after[row], 0)]
  }

  /** The label is the name of an entry no old row stands for. */
  predicate Restorable(e: Edit, row: nat)
    requires row < |e.after|
  {
    LabelId(e.baseline, e.after[row]).Some? && !e.Carries(LabelId(e.baseline, e.after[row]).value)
  }

  predicate Early(e: Edit, row: nat)
    requires e.Fits() && row < |e.after|
  {
    Moved(e, row) || Shared(e, row) || Restorable(e, row)
  }

  /** Something has been put aside under the label. */
  predicate Awaited(e: Edit, detached: Detached, row: nat)
    requires row < |e.after|
  {
    e.after[row] != "" && e.after[row] in detached
  }

  predicate Labelled(e: Edit, detached: Detached, row: nat)
    requires e.Fits() && row < |e.after|
  {
    Early(e, row) || Awaited(e, detached, row)
  }

  /** The old row's label is said again often enough. */
  predicate Claimable(e: Edit, r: nat)
    requires r < |e.before|
  {
    e.before[r] != "" && Said(e.before, e.before[r], r) < Copies(e.after, e.before[r])
  }

  /** With as many rows as before: no label speaks for the row, and none took
      what it stood for elsewhere. */
  predicate Stays(e: Edit, detached: Detached, row: nat)
    requires e.Fits() && row < |e.after|
  {
    e.SameSize() && !Labelled(e, detached, row) && !Claimable(e, row)
  }

  /** A row that says something and has to take what is left. */
  predicate Open(e: Edit, detached: Detached, row: nat)
    requires e.Fits() && row < |e.after|
  {
    e.after[row] != "" && !Labelled(e, detached, row) && !Stays(e, detached, row)
  }

  function OpenAbove(e: Edit, detached: Detached, n: nat): (count: nat)
    requires e.Fits() && n <= |e.after|
  {
    if n == 0 then 0 else OpenAbove(e, detached, n - 1) + if Open(e, detached, n - 1) then 1 else 0
  }

  /** Rows above `n` that say `text` and look for it among what waits. */
  function TakersAbove(e: Edit, text: string, n: nat): (count: nat)
    requires e.Fits() && n <= |e.after|
  {
    if n == 0 then 0
    else TakersAbove(e, text, n - 1) + if e.after[n - 1] == text && !Early(e, n - 1) then 1 else 0
  }

  /** The old rows whose identity a label or the place has taken. */
  function Taken(e: Edit, detached: Detached): (flags: seq<bool>)
    requires e.Fits()
    ensures |flags| == |e.previous|
  {
    seq(|e.previous|, r requires 0 <= r < |e.previous| =>
      Claimable(e, r) || (e.SameSize() && !Labelled(e, detached, r)))
  }

  /** The old rows whose identity is still to be had, in order. */
  function Left(e: Edit, detached: Detached): (rows: seq<nat>)
    requires e.Fits()
    ensures forall k :: 0 <= k < |rows| ==> rows[k] < |e.previous| && !Taken(e, detached)[rows[k]]
  {
    LeftOver(e, Taken(e, detached), 0)
  }

  /** What a row stands for after an edit. */
  function IdentityOf(e: Edit, detached: Detached, row: nat): Option<Origin>
    requires e.Fits() && row < |e.after|
  {
    var text := e.after[row];
    if Moved(e, row) then e.previous[Copy(e.before, text, Said(e.after, text, row))]
    else if Shared(e, row) then e.previous[Copy(e.before, text, 0)]
    else if Restorable(e, row) then Some(Snapshot(LabelId(e.baseline, text).value))
    else if Awaited(e, detached, row) then
      var kept, k := detached[text], TakersAbove(e, text, row);
      if k < |kept| then Some(kept[|kept| - 1 - k]) else None
    else if Stays(e, detached, row) then e.previous[row]
    else if text == "" then None
    else
      var left, k := Left(e, detached), OpenAbove(e, detached, row);
      if k < |left| then e.previous[left[k]] else None
  }

  /** What is left once every open row has had its turn. */
  function Unused(e: Edit, detached: Detached): (rows: seq<nat>)
    requires e.Fits()
    ensures forall k :: 0 <= k < |rows| ==> rows[k] < |e.previous|
  {
    var left, open := Left(e, detached), OpenAbove(e, detached, |e.after|);
    if open <= |left| then left[open..] else []
  }

  // ------------------------------------------------------------ first labels

  /** The first pass has come to row `n`. */
  ghost predicate LabelsTo(e: Edit, detached: Detached, m: Matching, n: nat) {
    && m.Fits(e) && n <= |e.after| && m.detached == detached
    && (forall r :: 0 <= r < |e.before| ==> (m.matched[r] <==> ClaimedBy(e, r, n)))
    && (forall row :: 0 <= row < n ==> LabelDone(e, detached, m, row))
    && (forall row :: n <= row < |e.after| ==> !m.resolved[row] && m.origins[row].None?)
  }

  predicate ClaimedBy(e: Edit, r: nat, n: nat)
    requires r < |e.before| && n <= |e.after|
  {
    e.before[r] != "" && Said(e.before, e.before[r], r) < Said(e.after, e.before[r], n)
  }

  ghost predicate LabelDone(e: Edit, detached: Detached, m: Matching, row: nat)
    requires m.Fits(e) && row < |e.after|
  {
    && (m.resolved[row] <==> Moved(e, row) || Shared(e, row))
    && m.origins[row] == if m.resolved[row] then IdentityOf(e, detached, row) else None
  }

  /** The first row of a label that is not claimed yet is its next copy. */
  lemma {:induction false} NextCopy(e: Edit, m: Matching, row: nat)
    requires m.Fits(e) && row < |e.after| && e.after[row] != ""
    requires forall r :: 0 <= r < |e.before| ==> (m.matched[r] <==> ClaimedBy(e, r, row))
    ensures var text := e.after[row];
            var k := Said(e.after, text, row);
            Unclaimed(e.before, m.matched, text, 0)
            == if k < Copies(e.before, text) then Some(Copy(e.before, text, k)) else None
  {
    var text := e.after[row];
    var k := Said(e.after, text, row);
    var source := Unclaimed(e.before, m.matched, text, 0);
    if k < Copies(e.before, text) {
      var copy := Copy(e.before, text, k);
      assert !m.matched[copy];
      if source.value < copy {
        SaidAscends(e.before, text, source.value, copy);
      }
    } else if source.Some? {
      SaidAscends(e.before, text, source.value, |e.before|);
    }
  }

  lemma {:induction false} FirstIsCopy(lines: seq<string>, text: string)
    ensures FirstSaying(lines, text, 0) == if Copies(lines, text) > 0 then Some(Copy(lines, text, 0)) else None
  {
    SaidBySome(lines, text, |lines|);
    if Copies(lines, text) > 0 {
      var first, copy := FirstSaying(lines, text, 0).value, Copy(lines, text, 0);
      SaidBySome(lines, text, first);
      OneCopy(lines, text, first, copy);
    }
  }

  lemma {:induction false} LabelStep(e: Edit, detached: Detached, m: Matching, row: nat)
    requires row < |e.after| && LabelsTo(e, detached, m, row)
    ensures LabelsTo(e, detached, ByLabel(e, m, row), row + 1)
  {
    hide FirstSaying, Unclaimed, Copy, Restorable, Awaited, Stays, Left, OpenAbove, TakersAbove;
    var text := e.after[row];
    var r := ByLabel(e, m, row);
    FirstIsCopy(e.before, text);
    if text != "" {
      NextCopy(e, m, row);
      SaidAscends(e.after, text, row, row + 1);
    }
    var k := Said(e.after, text, row);
    forall s | 0 <= s < |e.before| ensures r.matched[s] <==> ClaimedBy(e, s, row + 1) {
      if e.before[s] == text != "" && Said(e.before, text, s) == k {
        SaidAscends(e.before, text, s, |e.before|);
        OneCopy(e.before, text, s, Copy(e.before, text, k));
      }
    }
    forall other | 0 <= other < row + 1 ensures LabelDone(e, detached, r, other) {
      if other < row {
        assert LabelDone(e, detached, m, other);
      }
    }
  }

  lemma {:induction false} LabelsDone(e: Edit, detached: Detached, n: nat)
    requires e.Fits() && n <= |e.after|
    ensures LabelsTo(e, detached, LabelPass(e, Fresh(e, detached), n), n)
  {
    hide LabelsTo, ByLabel;
    if n == 0 {
      NothingLabelled(e, detached);
    } else {
      LabelsDone(e, detached, n - 1);
      LabelStep(e, detached, LabelPass(e, Fresh(e, detached), n - 1), n - 1);
    }
  }

  lemma {:induction false} NothingLabelled(e: Edit, detached: Detached)
    requires e.Fits()
    ensures LabelsTo(e, detached, Fresh(e, detached), 0)
  {
  }

  // -------------------------------------------------- entries coming back

  ghost predicate RestoredTo(e: Edit, detached: Detached, m: Matching, n: nat) {
    && m.Fits(e) && n <= |e.after| && m.detached == detached
    && (forall r :: 0 <= r < |e.before| ==> (m.matched[r] <==> Claimable(e, r)))
    && (forall row :: 0 <= row < |e.after| ==> RestoredDone(e, detached, m, n, row))
  }

  ghost predicate RestoredDone(e: Edit, detached: Detached, m: Matching, n: nat, row: nat)
    requires m.Fits(e) && row < |e.after|
  {
    && (m.resolved[row] <==> Moved(e, row) || Shared(e, row) || (row < n && Restorable(e, row)))
    && m.origins[row] == if m.resolved[row] then IdentityOf(e, detached, row) else None
  }

  lemma {:induction false} RestoreBegins(e: Edit, detached: Detached, m: Matching)
    requires LabelsTo(e, detached, m, |e.after|)
    ensures RestoredTo(e, detached, m, 0)
  {
    hide Moved, Shared, IdentityOf;
    forall row | 0 <= row < |e.after| ensures RestoredDone(e, detached, m, 0, row) {
      assert LabelDone(e, detached, m, row);
    }
  }

  lemma {:induction false} RestoreStep(e: Edit, detached: Detached, m: Matching, row: nat)
    requires row < |e.after| && RestoredTo(e, detached, m, row)
    ensures RestoredTo(e, detached, ByBaseline(e, m, row), row + 1)
  {
    hide Moved, Shared, Copy, Awaited, Stays, Left, OpenAbove, TakersAbove, Claimable;
    var r := ByBaseline(e, m, row);
    var n := row + 1;
    forall other | 0 <= other < |e.after| ensures RestoredDone(e, detached, r, n, other) {
      assert RestoredDone(e, detached, m, row, other);
    }
  }

  lemma {:induction false} RestoresDone(e: Edit, detached: Detached, m: Matching, n: nat)
    requires m.Fits(e) && RestoredTo(e, detached, m, 0) && n <= |e.after|
    ensures RestoredTo(e, detached, BaselinePass(e, m, n), n)
  {
    hide RestoredTo, ByBaseline;
    if n > 0 {
      RestoresDone(e, detached, m, n - 1);
      RestoreStep(e, detached, BaselinePass(e, m, n - 1), n - 1);
    }
  }

  // ---------------------------------------------------- transfers that wait

  /** What still waits under a label after `taken` rows have looked there. */
  function Remaining(kept: seq<Origin>, taken: nat): seq<Origin> {
    if taken <= |kept| then kept[..|kept| - taken] else []
  }

  ghost predicate TakenTo(e: Edit, detached: Detached, m: Matching, n: nat) {
    && m.Fits(e) && n <= |e.after| && m.detached.Keys == detached.Keys
    && (forall text :: text in detached && text != "" ==>
          m.detached[text] == Remaining(detached[text], TakersAbove(e, text, n)))
    && ("" in detached ==> m.detached[""] == detached[""])
    && (forall r :: 0 <= r < |e.before| ==> (m.matched[r] <==> Claimable(e, r)))
    && (forall row :: 0 <= row < |e.after| ==> TakenDone(e, detached, m, n, row))
  }

  ghost predicate TakenDone(e: Edit, detached: Detached, m: Matching, n: nat, row: nat)
    requires m.Fits(e) && row < |e.after|
  {
    && (m.resolved[row] <==> Early(e, row) || (row < n && Awaited(e, detached, row)))
    && m.origins[row] == if m.resolved[row] then IdentityOf(e, detached, row) else None
  }

  lemma {:induction false} TakingBegins(e: Edit, detached: Detached, m: Matching)
    requires RestoredTo(e, detached, m, |e.after|)
    ensures TakenTo(e, detached, m, 0)
  {
    hide Moved, Shared, IdentityOf, Restorable, Claimable;
    forall row | 0 <= row < |e.after| ensures TakenDone(e, detached, m, 0, row) {
      assert RestoredDone(e, detached, m, |e.after|, row);
    }
  }

  lemma {:induction false} AwaitedIdentity(e: Edit, detached: Detached, row: nat)
    requires e.Fits() && row < |e.after|
    ensures var text := e.after[row];
            !Early(e, row) && Awaited(e, detached, row) ==>
              var waiting := Remaining(detached[text], TakersAbove(e, text, row));
              IdentityOf(e, detached, row) == if waiting == [] then None else Some(waiting[|waiting| - 1])
    ensures forall text :: TakersAbove(e, text, row + 1)
                        == TakersAbove(e, text, row) + if text == e.after[row] && !Early(e, row) then 1 else 0
  {
  }

  lemma {:induction false} TakingMovesStacks(e: Edit, detached: Detached, m: Matching, row: nat, text: string)
    requires row < |e.after| && TakenTo(e, detached, m, row) && text in detached
    ensures text in ByDetached(e, m, row).detached
    ensures ByDetached(e, m, row).detached[text]
         == if text == "" then detached[text] else Remaining(detached[text], TakersAbove(e, text, row + 1))
  {
    hide Early, IdentityOf, TakersAbove, Claimable;
    AwaitedIdentity(e, detached, row);
    assert TakenDone(e, detached, m, row, row);
  }

  lemma {:induction false} TakingMovesRows(e: Edit, detached: Detached, m: Matching, row: nat, n: nat, other: nat)
    requires row < |e.after| && TakenTo(e, detached, m, row) && n == row + 1 && other < |e.after|
    ensures TakenDone(e, detached, ByDetached(e, m, row), n, other)
  {
    hide Early, IdentityOf, TakersAbove, Claimable;
    AwaitedIdentity(e, detached, row);
    assert TakenDone(e, detached, m, row, other);
  }

  lemma {:induction false} TakingStep(e: Edit, detached: Detached, m: Matching, row: nat)
    requires row < |e.after| && TakenTo(e, detached, m, row)
    ensures TakenTo(e, detached, ByDetached(e, m, row), row + 1)
  {
    hide Early, IdentityOf, TakersAbove, Claimable, TakenDone, Remaining;
    var r, n := ByDetached(e, m, row), row + 1;
    forall other | 0 <= other < |e.after| ensures TakenDone(e, detached, r, n, other) {
      TakingMovesRows(e, detached, m, row, n, other);
    }
    forall text | text in detached
      ensures text in r.detached
      ensures r.detached[text]
           == if text == "" then detached[text] else Remaining(detached[text], TakersAbove(e, text, n))
    {
      TakingMovesStacks(e, detached, m, row, text);
    }
  }

  lemma {:induction false} TakingDone(e: Edit, detached: Detached, m: Matching, n: nat)
    requires m.Fits(e) && TakenTo(e, detached, m, 0) && n <= |e.after|
    ensures TakenTo(e, detached, DetachedPass(e, m, n), n)
  {
    hide TakenTo, ByDetached;
    if n > 0 {
      TakingDone(e, detached, m, n - 1);
      TakingStep(e, detached, DetachedPass(e, m, n - 1), n - 1);
    }
  }

  // --------------------------------------------------------------- in place

  ghost predicate PlacedTo(e: Edit, detached: Detached, m: Matching, n: nat) {
    && m.Fits(e) && n <= |e.after|
    && (forall r :: 0 <= r < |e.before| ==> (m.matched[r] <==> Claimable(e, r) || StoodBy(e, detached, r, n)))
    && (forall row :: 0 <= row < |e.after| ==> PlacedDone(e, detached, m, n, row))
  }

  predicate StoodBy(e: Edit, detached: Detached, r: nat, n: nat)
    requires e.Fits() && n <= |e.after|
  {
    r < n && e.SameSize() && !Labelled(e, detached, r)
  }

  ghost predicate PlacedDone(e: Edit, detached: Detached, m: Matching, n: nat, row: nat)
    requires m.Fits(e) && row < |e.after|
  {
    && (m.resolved[row] <==> Labelled(e, detached, row) || (row < n && Stays(e, detached, row)))
    && m.origins[row] == if m.resolved[row] then IdentityOf(e, detached, row) else None
  }

  lemma {:induction false} PlacingBegins(e: Edit, detached: Detached, m: Matching, aside: Detached)
    requires TakenTo(e, detached, m, |e.after|)
    ensures PlacedTo(e, detached, m.(detached := aside), 0)
  {
    hide Early, IdentityOf, Awaited, Claimable;
    forall row | 0 <= row < |e.after| ensures PlacedDone(e, detached, m.(detached := aside), 0, row) {
      assert TakenDone(e, detached, m, |e.after|, row);
    }
  }

  lemma {:induction false} PlacingStep(e: Edit, detached: Detached, m: Matching, row: nat)
    requires row < |e.after| && PlacedTo(e, detached, m, row)
    ensures PlacedTo(e, detached, InPlace(e, m, row), row + 1)
    ensures InPlace(e, m, row).detached == m.detached
  {
    var r := InPlace(e, m, row);
    assert PlacedDone(e, detached, m, row, row);
    StayingIs(e, detached, row);
    hide Moved, Shared, Restorable, Awaited, Early, Labelled, IdentityOf, Claimable;
    var n := row + 1;
    forall other | 0 <= other < |e.after| ensures PlacedDone(e, detached, r, n, other) {
      assert PlacedDone(e, detached, m, row, other);
    }
  }

  lemma {:induction false} StayingIs(e: Edit, detached: Detached, row: nat)
    requires e.Fits() && row < |e.after|
    ensures Stays(e, detached, row) ==> IdentityOf(e, detached, row) == e.previous[row]
  {
  }

  lemma {:induction false} PlacingDone(e: Edit, detached: Detached, m: Matching, n: nat)
    requires m.Fits(e) && PlacedTo(e, detached, m, 0) && n <= |e.after|
    ensures PlacedTo(e, detached, InPlacePass(e, m, n), n)
    ensures InPlacePass(e, m, n).detached == m.detached
  {
    hide PlacedTo, InPlace;
    if n > 0 {
      PlacingDone(e, detached, m, n - 1);
      PlacingStep(e, detached, InPlacePass(e, m, n - 1), n - 1);
    }
  }

  // --------------------------------------------------------------- the rest

  function From(rows: seq<nat>, k: nat): seq<nat> {
    if k <= |rows| then rows[k..] else []
  }

  ghost predicate FilledTo(e: Edit, detached: Detached, m: Matching, rest: seq<nat>, n: nat) {
    && m.Fits(e) && n <= |e.after|
    && (forall row :: 0 <= row < |e.after| ==> FilledDone(e, detached, m, n, row))
    && rest == From(Left(e, detached), OpenAbove(e, detached, n))
  }

  ghost predicate FilledDone(e: Edit, detached: Detached, m: Matching, n: nat, row: nat)
    requires m.Fits(e) && row < |e.after|
  {
    && (m.resolved[row] <==> Labelled(e, detached, row) || Stays(e, detached, row))
    && m.origins[row] == if m.resolved[row] || row < n then IdentityOf(e, detached, row) else None
  }

  lemma {:induction false} FillingBegins(e: Edit, detached: Detached, m: Matching)
    requires PlacedTo(e, detached, m, |e.after|)
    ensures FilledTo(e, detached, m, LeftOver(e, m.matched, 0), 0)
  {
    hide Labelled, IdentityOf, Claimable, Stays, LeftOver;
    assert m.matched == Taken(e, detached);
    forall row | 0 <= row < |e.after| ensures FilledDone(e, detached, m, 0, row) {
      assert PlacedDone(e, detached, m, |e.after|, row);
    }
  }

  lemma {:induction false} OpenIdentity(e: Edit, detached: Detached, row: nat)
    requires e.Fits() && row < |e.after|
    ensures var taken := Labelled(e, detached, row) || Stays(e, detached, row);
            && OpenAbove(e, detached, row + 1)
               == OpenAbove(e, detached, row) + (if e.after[row] == "" || taken then 0 else 1)
            && (!taken ==>
                  var rest := From(Left(e, detached), OpenAbove(e, detached, row));
                  IdentityOf(e, detached, row)
                  == if e.after[row] == "" || rest == [] then None else e.previous[rest[0]])
  {
  }

  lemma {:induction false} FillingStep(e: Edit, detached: Detached, m: Matching, rest: seq<nat>, row: nat)
    requires row < |e.after| && FilledTo(e, detached, m, rest, row)
    ensures forall k :: 0 <= k < |rest| ==> rest[k] < |e.previous|
    ensures FilledTo(e, detached, InOrder(e, m, rest, row).0, InOrder(e, m, rest, row).1, row + 1)
    ensures InOrder(e, m, rest, row).0.detached == m.detached
  {
    hide Labelled, IdentityOf, Stays, Left, OpenAbove;
    assert FilledDone(e, detached, m, row, row);
    OpenIdentity(e, detached, row);
    var r, n := InOrder(e, m, rest, row).0, row + 1;
    forall other | 0 <= other < |e.after| ensures FilledDone(e, detached, r, n, other) {
      assert FilledDone(e, detached, m, row, other);
    }
  }

  lemma {:induction false} FillingDone(e: Edit, detached: Detached, m: Matching, all: seq<nat>, n: nat)
    requires m.Fits(e) && FilledTo(e, detached, m, all, 0) && n <= |e.after|
    ensures forall k :: 0 <= k < |all| ==> all[k] < |e.previous|
    ensures FilledTo(e, detached, InOrderPass(e, m, all, n).0, InOrderPass(e, m, all, n).1, n)
    ensures InOrderPass(e, m, all, n).0.detached == m.detached
  {
    hide FilledTo, InOrder, InOrderPass;
    AllAreOld(e, detached, m, all);
    if n == 0 {
      NothingFilled(e, m, all);
    } else {
      FillingDone(e, detached, m, all, n - 1);
      var m', rest := InOrderPass(e, m, all, n - 1).0, InOrderPass(e, m, all, n - 1).1;
      FillingStep(e, detached, m', rest, n - 1);
      OneMoreRow(e, m, all, n);
    }
  }

  lemma {:induction false} NothingFilled(e: Edit, m: Matching, all: seq<nat>)
    requires m.Fits(e) && OldRows(e, all)
    ensures InOrderPass(e, m, all, 0) == (m, all)
  {
  }

  lemma {:induction false} AllAreOld(e: Edit, detached: Detached, m: Matching, all: seq<nat>)
    requires m.Fits(e) && FilledTo(e, detached, m, all, 0)
    ensures forall k :: 0 <= k < |all| ==> all[k] < |e.previous|
  {
  }

  // ------------------------------------------------------------ the theorem

  /** How the four claiming passes end. */
  lemma {:induction false} ClaimedIs(e: Edit, detached: Detached)
    requires e.Fits()
    ensures PlacedTo(e, detached, Claimed(e, detached), |e.after|)
    ensures exists m :: TakenTo(e, detached, m, |e.after|)
                        && Claimed(e, detached).detached == WithoutEmpty(m.detached)
  {
    hide LabelPass, BaselinePass, DetachedPass, InPlacePass, LabelsTo, RestoredTo, TakenTo, PlacedTo, WithoutEmpty;
    var n := |e.after|;
    LabelsDone(e, detached, n);
    var l := LabelPass(e, Fresh(e, detached), n);
    RestoreBegins(e, detached, l);
    RestoresDone(e, detached, l, n);
    var b := BaselinePass(e, l, n);
    TakingBegins(e, detached, b);
    TakingDone(e, detached, b, n);
    var d := DetachedPass(e, b, n);
    PlacingBegins(e, detached, d, WithoutEmpty(d.detached));
    PlacingDone(e, detached, d.(detached := WithoutEmpty(d.detached)), n);
    assert TakenTo(e, detached, d, n);
  }

  lemma {:induction false} FilledIs(e: Edit, detached: Detached)
    requires e.Fits()
    ensures FilledTo(e, detached, Filled(e, detached).0, Filled(e, detached).1, |e.after|)
    ensures Filled(e, detached).0.detached == Claimed(e, detached).detached
  {
    hide PlacedTo, FilledTo, Claimed, LeftOver, InOrderPass;
    ClaimedIs(e, detached);
    var c := Claimed(e, detached);
    FillingBegins(e, detached, c);
    FillingDone(e, detached, c, LeftOver(e, c.matched, 0), |e.after|);
  }

  /** After an edit every row stands for exactly what the labels, the places and
      what was put aside say it stands for. */
  lemma {:induction false} ReconciledIs(e: Edit, detached: Detached, row: nat)
    requires e.Fits() && row < |e.after|
    ensures Reconciled(e, detached).0[row] == IdentityOf(e, detached, row)
  {
    hide Filled, IdentityOf;
    FilledIs(e, detached);
    assert FilledDone(e, detached, Filled(e, detached).0, |e.after|, row);
  }

  // ------------------------------------------------------ what is put aside

  /** What one row has to put aside under `text`. */
  function TransferUnder(e: Edit, r: nat, text: string): seq<Origin>
    requires e.Fits() && r < |e.previous|
  {
    if e.before[r] == text != "" && e.previous[r].Some? && e.previous[r].value.Transfer? then [e.previous[r].value]
    else []
  }

  /** The transfers of some rows that said `text`, in the order of the rows. */
  function TransfersUnder(e: Edit, rows: seq<nat>, text: string): seq<Origin>
    requires e.Fits() && forall k :: 0 <= k < |rows| ==> rows[k] < |e.previous|
  {
    if rows == [] then []
    else TransfersUnder(e, rows[..|rows| - 1], text) + TransferUnder(e, rows[|rows| - 1], text)
  }

  function StackUnder(detached: Detached, text: string): seq<Origin> {
    if text in detached then detached[text] else []
  }

  lemma {:induction false} PuttingOneAside(e: Edit, detached: Detached, r: nat, text: string)
    requires e.Fits() && r < |e.previous| && (text in detached <==> StackUnder(detached, text) != [])
    ensures StackUnder(PutAside(e, detached, r), text) == StackUnder(detached, text) + TransferUnder(e, r, text)
    ensures text in PutAside(e, detached, r) <==> StackUnder(PutAside(e, detached, r), text) != []
  {
    assert StackUnder(detached, text) + [] == StackUnder(detached, text);
  }

  lemma {:induction false} PuttingAside(e: Edit, detached: Detached, rows: seq<nat>, text: string)
    requires e.Fits() && forall k :: 0 <= k < |rows| ==> rows[k] < |e.previous|
    requires text in detached <==> StackUnder(detached, text) != []
    ensures StackUnder(PutAsideAll(e, detached, rows), text)
         == StackUnder(detached, text) + TransfersUnder(e, rows, text)
    ensures text in PutAsideAll(e, detached, rows) <==> StackUnder(PutAsideAll(e, detached, rows), text) != []
  {
    hide StackUnder, PutAside, TransferUnder;
    if rows == [] {
      assert StackUnder(detached, text) + [] == StackUnder(detached, text);
    } else {
      var n := |rows| - 1;
      PuttingAside(e, detached, rows[..n], text);
      PuttingOneAside(e, PutAsideAll(e, detached, rows[..n]), rows[n], text);
      assert (StackUnder(detached, text) + TransfersUnder(e, rows[..n], text)) + TransferUnder(e, rows[n], text)
          == StackUnder(detached, text) + (TransfersUnder(e, rows[..n], text) + TransferUnder(e, rows[n], text));
    }
  }

  lemma {:induction false} StacksTaken(e: Edit, detached: Detached, m: Matching, text: string)
    requires TakenTo(e, detached, m, |e.after|)
    ensures StackUnder(WithoutEmpty(m.detached), text)
         == if text == "" then StackUnder(detached, "")
            else Remaining(StackUnder(detached, text), TakersAbove(e, text, |e.after|))
    ensures text in WithoutEmpty(m.detached) <==> StackUnder(WithoutEmpty(m.detached), text) != []
  {
  }

  /** What waits under a label after an edit: what waited there before, less what
      rows have taken up from the end, and then the transfers nobody used. */
  lemma {:induction false} PutAsideIs(e: Edit, detached: Detached, text: string)
    requires e.Fits() && text != ""
    ensures StackUnder(Reconciled(e, detached).1, text)
         == Remaining(StackUnder(detached, text), TakersAbove(e, text, |e.after|))
            + TransfersUnder(e, Unused(e, detached), text)
    ensures text in Reconciled(e, detached).1 <==> StackUnder(Reconciled(e, detached).1, text) != []
  {
    hide Claimed, TakenTo, PlacedTo, TakersAbove, WithoutEmpty, Filled, Left, OpenAbove, FilledDone, TransfersUnder,
         StackUnder, Remaining;
    ClaimedIs(e, detached);
    var m :| TakenTo(e, detached, m, |e.after|) && Claimed(e, detached).detached == WithoutEmpty(m.detached);
    StacksTaken(e, detached, m, text);
    FilledIs(e, detached);
    PuttingAside(e, WithoutEmpty(m.detached), Filled(e, detached).1, text);
  }
}
