/** Moving, deleting and bringing back the rows of a listing, any number of times. */
module DirectoryRuns {
  import opened Wrappers
  import opened Directories
  import opened DirectoryLaws
  import opened DirectoryPasses

  // ----------------------------------------------- transfers already put aside

  ghost predicate TakenUp(m: Matching, origin: Origin) {
    && |m.resolved| == |m.origins|
    && exists row :: 0 <= row < |m.origins| && m.resolved[row] && m.origins[row] == Some(origin)
  }

  /** The transfer waits under `text`, or a row has taken it up. */
  ghost predicate Accounted(m: Matching, text: string, origin: Origin) {
    PutUnder(m.detached, text, origin) || TakenUp(m, origin)
  }

  lemma {:induction false} ResolvingKeepsTaken(e: Edit, m: Matching, row: nat, origin: Option<Origin>, how: Via,
                                               taken: Origin)
    requires m.Fits(e) && row < |e.after| && !m.resolved[row] && TakenUp(m, taken)
    ensures TakenUp(m.Resolve(row, origin, how), taken)
  {
    var k :| 0 <= k < |m.origins| && m.resolved[k] && m.origins[k] == Some(taken);
    var r := m.Resolve(row, origin, how);
    assert r.resolved[k] && r.origins[k] == Some(taken);
  }

  lemma {:induction false} DetachedStepAccounts(e: Edit, m: Matching, row: nat, text: string, origin: Origin)
    requires m.Fits(e) && row < |e.after| && Accounted(m, text, origin)
    ensures Accounted(ByDetached(e, m, row), text, origin)
  {
    var says := e.after[row];
    if !m.resolved[row] && says != "" && says in m.detached {
      var kept := m.detached[says];
      var r := ByDetached(e, m, row);
      if TakenUp(m, origin) {
        var k :| 0 <= k < |m.origins| && m.resolved[k] && m.origins[k] == Some(origin);
        assert r.resolved[k] && r.origins[k] == Some(origin);
      } else if says == text {
        var k :| 0 <= k < |kept| && kept[k] == origin;
        if k == |kept| - 1 {
          assert r.resolved[row] && r.origins[row] == Some(origin);
        } else {
          assert r.detached[text][k] == origin;
        }
      }
    }
  }

  lemma {:induction false} DetachedPassAccounts(e: Edit, m: Matching, n: nat, text: string, origin: Origin)
    requires m.Fits(e) && n <= |e.after| && Accounted(m, text, origin)
    ensures Accounted(DetachedPass(e, m, n), text, origin)
  {
    hide Accounted, ByDetached;
    if n > 0 {
      DetachedPassAccounts(e, m, n - 1, text, origin);
      DetachedStepAccounts(e, DetachedPass(e, m, n - 1), n - 1, text, origin);
    }
  }

  lemma {:induction false} InPlacePassAccounts(e: Edit, m: Matching, n: nat, text: string, origin: Origin)
    requires m.Fits(e) && n <= |e.after| && Accounted(m, text, origin)
    ensures Accounted(InPlacePass(e, m, n), text, origin)
  {
    if n > 0 {
      InPlacePassAccounts(e, m, n - 1, text, origin);
      var m', row := InPlacePass(e, m, n - 1), n - 1;
      if e.SameSize() && !m'.resolved[row] && !m'.matched[row] && TakenUp(m', origin) {
        ResolvingKeepsTaken(e, m'.Match(row), row, e.previous[row], FromRow(row), origin);
      }
    }
  }

  lemma {:induction false} InOrderStepAccounts(e: Edit, m: Matching, rest: seq<nat>, row: nat, text: string,
                                               origin: Origin)
    requires m.Fits(e) && row < |e.after| && (forall k :: 0 <= k < |rest| ==> rest[k] < |e.previous|)
    requires Accounted(m, text, origin)
    ensures Accounted(InOrder(e, m, rest, row).0, text, origin)
  {
    var r := InOrder(e, m, rest, row).0;
    if TakenUp(m, origin) {
      var k :| 0 <= k < |m.origins| && m.resolved[k] && m.origins[k] == Some(origin);
      assert r.resolved[k] && r.origins[k] == Some(origin);
    }
  }

  lemma {:induction false} InOrderPassAccounts(e: Edit, m: Matching, all: seq<nat>, n: nat, text: string,
                                               origin: Origin)
    requires m.Fits(e) && n <= |e.after| && (forall k :: 0 <= k < |all| ==> all[k] < |e.previous|)
    requires Accounted(m, text, origin)
    ensures Accounted(InOrderPass(e, m, all, n).0, text, origin)
  {
    hide Accounted, InOrder;
    if n > 0 {
      InOrderPassAccounts(e, m, all, n - 1, text, origin);
      var r := InOrderPass(e, m, all, n - 1);
      InOrderStepAccounts(e, r.0, r.1, n - 1, text, origin);
    }
  }

  /** A transfer that waited under a label is taken up by some row or waits there
      still. */
  lemma {:induction false} PutAsideIsKept(e: Edit, detached: Detached, text: string, origin: Origin)
    requires e.Fits() && PutUnder(detached, text, origin)
    ensures Some(origin) in Reconciled(e, detached).0 || PutUnder(Reconciled(e, detached).1, text, origin)
  {
    var n := |e.after|;
    var b := BaselinePass(e, LabelPass(e, Fresh(e, detached), n), n);
    EarlyPassesLeaveAside(e, detached, n);
    DetachedPassAccounts(e, b, n, text, origin);
    var d := DetachedPass(e, b, n);
    var w := d.(detached := WithoutEmpty(d.detached));
    assert Accounted(w, text, origin);
    hide DetachedPass, BaselinePass, LabelPass, InPlacePass, InOrderPass, LeftOver, WithoutEmpty;
    InPlacePassAccounts(e, w, n, text, origin);
    var c := Claimed(e, detached);
    InOrderPassAccounts(e, c, LeftOver(e, c.matched, 0), n, text, origin);
    var (m, rest) := Filled(e, detached);
    if PutUnder(m.detached, text, origin) {
      PutAsideKeeps(e, m.detached, rest, text, origin);
    }
  }

  lemma {:induction false} LabelPassLeavesAside(e: Edit, detached: Detached, n: nat)
    requires e.Fits() && n <= |e.after|
    ensures LabelPass(e, Fresh(e, detached), n).detached == detached
  {
    if n > 0 {
      LabelPassLeavesAside(e, detached, n - 1);
    }
  }

  lemma {:induction false} BaselinePassLeavesAside(e: Edit, m: Matching, n: nat)
    requires m.Fits(e) && n <= |e.after|
    ensures BaselinePass(e, m, n).detached == m.detached
  {
    if n > 0 {
      BaselinePassLeavesAside(e, m, n - 1);
    }
  }

  lemma {:induction false} EarlyPassesLeaveAside(e: Edit, detached: Detached, n: nat)
    requires e.Fits() && n == |e.after|
    ensures BaselinePass(e, LabelPass(e, Fresh(e, detached), n), n).detached == detached
  {
    LabelPassLeavesAside(e, detached, n);
    BaselinePassLeavesAside(e, LabelPass(e, Fresh(e, detached), n), n);
  }

  // ------------------------------------------------------ labels keep entries

  /** Every label is bound to the entry it names, and empty rows to nothing. */
  ghost predicate Bound(origins: seq<Option<Origin>>, lines: seq<string>, baseline: seq<Entry>) {
    && |origins| == |lines|
    && DistinctLabels(lines)
    && (forall i :: 0 <= i < |lines| ==>
          origins[i] == if lines[i] == "" then None else BoundTo(baseline, lines[i]))
    && (forall i :: 0 <= i < |lines| && lines[i] != "" ==> LabelId(baseline, lines[i]).Some?)
  }

  function BoundTo(baseline: seq<Entry>, text: string): Option<Origin> {
    match LabelId(baseline, text)
    case None => None
    case Some(id) => Some(Snapshot(id))
  }

  /** The new lines name entries of the snapshot, each at most once. */
  predicate NamesEntries(lines: seq<string>, baseline: seq<Entry>) {
    DistinctLabels(lines) && forall i :: 0 <= i < |lines| && lines[i] != "" ==> LabelId(baseline, lines[i]).Some?
  }

  /** No row is emptied where it stands: a row that becomes empty was empty, or
      what it said is said elsewhere now. */
  predicate NothingCleared(before: seq<string>, after: seq<string>) {
    |before| == |after| ==>
      forall i :: 0 <= i < |after| && after[i] == "" ==> before[i] == "" || before[i] in after
  }

  /** The labels that moved have been claimed. */
  predicate MovedClaimed(e: Edit, m: Matching)
    requires m.Fits(e)
  {
    forall r :: 0 <= r < |e.before| && e.before[r] != "" && e.before[r] in e.after ==> m.matched[r]
  }

  /** What is resolved so far is right, and empty rows have nothing. */
  predicate RightSoFar(e: Edit, m: Matching, done: nat)
    requires m.Fits(e)
  {
    && (forall row :: 0 <= row < |e.after| && e.after[row] != "" && m.resolved[row] ==>
          m.origins[row] == BoundTo(e.baseline, e.after[row]))
    && (forall row :: 0 <= row < |e.after| && e.after[row] == "" ==> m.origins[row].None?)
    && (forall row :: 0 <= row < done && row < |e.after| && e.after[row] != "" ==> m.resolved[row])
  }

  ghost predicate Settling(e: Edit) {
    && e.Fits() && SoundBaseline(e.baseline)
    && Bound(e.previous, e.before, e.baseline)
    && NamesEntries(e.after, e.baseline) && NothingCleared(e.before, e.after)
  }

  /** The first pass gives every label that was there its own row. */
  ghost predicate LabelsFound(e: Edit, m: Matching, n: nat) {
    && m.Fits(e) && n <= |e.after|
    && RightSoFar(e, m, 0)
    && (forall row :: n <= row < |e.after| ==> !m.resolved[row])
    && (forall row :: 0 <= row < n ==> (m.resolved[row] <==> e.after[row] != "" && e.after[row] in e.before))
    && (forall r :: 0 <= r < |e.before| ==> (m.matched[r] <==> e.before[r] != "" && e.before[r] in e.after[..n]))
  }

  lemma {:induction false} LabelStepFinds(e: Edit, m: Matching, row: nat)
    requires Settling(e) && row < |e.after| && LabelsFound(e, m, row)
    ensures LabelsFound(e, ByLabel(e, m, row), row + 1)
  {
    var text := e.after[row];
    var first := FirstSaying(e.before, text, 0);
    var r := ByLabel(e, m, row);
    assert e.after[..row + 1] == e.after[..row] + [text];
    if text != "" && first.Some? {
      assert text !in e.after[..row];
      assert !m.matched[first.value];
      var source := Unclaimed(e.before, m.matched, text, 0);
      assert source.Some? && e.before[source.value] == text;
      assert forall s :: 0 <= s < |e.before| && e.before[s] == text ==> s == source.value;
    }
  }

  lemma {:induction false} LabelPassFinds(e: Edit, detached: Detached, n: nat)
    requires Settling(e) && n <= |e.after|
    ensures LabelsFound(e, LabelPass(e, Fresh(e, detached), n), n)
  {
    hide Settling, LabelsFound, ByLabel;
    assert e.Fits() by { SettlingFits(e); }
    if n == 0 {
      NothingFoundYet(e, detached);
    } else {
      LabelPassFinds(e, detached, n - 1);
      LabelStepFinds(e, LabelPass(e, Fresh(e, detached), n - 1), n - 1);
    }
  }

  lemma {:induction false} NothingFoundYet(e: Edit, detached: Detached)
    requires e.Fits()
    ensures LabelsFound(e, Fresh(e, detached), 0)
  {
    assert e.after[..0] == [];
  }

  lemma {:induction false} SettlingFits(e: Edit)
    requires Settling(e)
    ensures e.Fits()
  {
  }

  /** The second pass brings every other label back to its entry. */
  ghost predicate LabelsBack(e: Edit, m: Matching, n: nat) {
    && m.Fits(e) && n <= |e.after|
    && RightSoFar(e, m, n)
    && MovedClaimed(e, m)
    && (forall row :: 0 <= row < |e.after| && e.after[row] != "" && e.after[row] in e.before ==> m.resolved[row])
  }

  lemma {:induction false} BaselineStepBrings(e: Edit, m: Matching, row: nat)
    requires Settling(e) && row < |e.after| && LabelsBack(e, m, row)
    ensures LabelsBack(e, ByBaseline(e, m, row), row + 1)
  {
    var text := e.after[row];
    if text == "" {
      EmptyNamesNothing(e.baseline);
    } else if text !in e.before {
      NewLabelIsFree(e, text);
    }
  }

  lemma {:induction false} EmptyNamesNothing(baseline: seq<Entry>)
    requires SoundBaseline(baseline)
    ensures LabelId(baseline, "").None?
  {
  }

  /** A label no old row says names an identity no old row carries. */
  lemma {:induction false} NewLabelIsFree(e: Edit, text: string)
    requires Settling(e) && text !in e.before && LabelId(e.baseline, text).Some?
    ensures !e.Carries(LabelId(e.baseline, text).value)
  {
    forall r | 0 <= r < |e.previous| ensures e.previous[r] != Some(Snapshot(LabelId(e.baseline, text).value)) {
      if e.before[r] != "" && LabelId(e.baseline, e.before[r]) == LabelId(e.baseline, text) {
        LabelIdTells(e.baseline, e.before[r], text);
      }
    }
  }

  lemma {:induction false} BaselinePassBrings(e: Edit, m: Matching, n: nat)
    requires Settling(e) && n <= |e.after| && LabelsBack(e, m, 0)
    ensures LabelsBack(e, BaselinePass(e, m, n), n)
  {
    hide Settling, LabelsBack, ByBaseline;
    assert m.Fits(e) by { LabelsBackFits(e, m, 0); }
    if n > 0 {
      BaselinePassBrings(e, m, n - 1);
      BaselineStepBrings(e, BaselinePass(e, m, n - 1), n - 1);
    }
  }

  lemma {:induction false} LabelsBackFits(e: Edit, m: Matching, n: nat)
    requires LabelsBack(e, m, n)
    ensures m.Fits(e)
  {
  }

  lemma {:induction false} LaterStepsRest(e: Edit, m: Matching, row: nat)
    requires Settling(e) && row < |e.after| && LabelsBack(e, m, |e.after|)
    ensures ByDetached(e, m, row) == m
    ensures LabelsBack(e, InPlace(e, m, row), |e.after|)
    ensures InPlace(e, m, row).detached == m.detached
  {
    if e.SameSize() && !m.resolved[row] && !m.matched[row] {
      assert e.after[row] == "";
      assert e.before[row] == "";
    }
  }

  /** From then on nothing changes: every row that says anything is resolved,
      and an empty row has nothing to inherit. */
  lemma {:induction false} LaterPassesRest(e: Edit, m: Matching, n: nat)
    requires Settling(e) && n <= |e.after| && LabelsBack(e, m, |e.after|)
    ensures m.Fits(e)
    ensures DetachedPass(e, m, n) == m
    ensures LabelsBack(e, InPlacePass(e, m, n), |e.after|)
    ensures InPlacePass(e, m, n).detached == m.detached
  {
    hide Settling, LabelsBack, ByDetached, InPlace;
    LabelsBackFits(e, m, |e.after|);
    if n > 0 {
      LaterPassesRest(e, m, n - 1);
      LaterStepsRest(e, m, n - 1);
      LaterStepsRest(e, InPlacePass(e, m, n - 1), n - 1);
    }
  }

  lemma {:induction false} FillingStepRests(e: Edit, m: Matching, all: seq<nat>, row: nat)
    requires m.Fits(e) && row < |e.after| && (forall k :: 0 <= k < |all| ==> all[k] < |e.previous|)
    requires e.after[row] != "" ==> m.resolved[row]
    ensures InOrder(e, m, all, row) == (m, all)
  {
  }

  predicate AllResolved(e: Edit, m: Matching)
    requires m.Fits(e)
  {
    forall row :: 0 <= row < |e.after| && e.after[row] != "" ==> m.resolved[row]
  }

  lemma {:induction false} FillingRests(e: Edit, m: Matching, all: seq<nat>, n: nat)
    requires m.Fits(e) && n <= |e.after| && OldRows(e, all) && AllResolved(e, m)
    ensures InOrderPass(e, m, all, n) == (m, all)
  {
    if n > 0 {
      FillingStepRests(e, m, all, n - 1);
      OneMoreRow(e, m, all, n);
      hide *;
      FillingRests(e, m, all, n - 1);
    }
  }

  lemma {:induction false} ClaimedIsRight(e: Edit, detached: Detached)
    requires Settling(e)
    ensures e.Fits() && LabelsBack(e, Claimed(e, detached), |e.after|)
    ensures Claimed(e, detached).detached == WithoutEmpty(detached)
  {
    var n := |e.after|;
    LabelPassFinds(e, detached, n);
    var l := LabelPass(e, Fresh(e, detached), n);
    assert e.after[..n] == e.after;
    assert LabelsBack(e, l, 0);
    hide Settling, LabelPass, BaselinePass, DetachedPass, InPlacePass, LabelsFound;
    BaselinePassBrings(e, l, n);
    var b := BaselinePass(e, l, n);
    LaterPassesRest(e, b, n);
    EarlyPassesLeaveAside(e, detached, n);
    var w := b.(detached := WithoutEmpty(b.detached));
    assert LabelsBack(e, w, n);
    LaterPassesRest(e, w, n);
  }

  lemma {:induction false} RightIsBound(e: Edit, m: Matching)
    requires NamesEntries(e.after, e.baseline) && LabelsBack(e, m, |e.after|)
    ensures Bound(m.origins, e.after, e.baseline)
  {
  }

  /** Rows that were bound to their own entries stay bound to them however the
      labels are moved, taken away and brought back. */
  lemma {:induction false} MovingKeepsEntries(e: Edit, detached: Detached)
    requires Settling(e)
    ensures e.Fits() && Bound(Reconciled(e, detached).0, e.after, e.baseline)
  {
    ClaimedIsRight(e, detached);
    SettlingNames(e);
    var c := Claimed(e, detached);
    RightIsBound(e, c);
    assert forall row :: 0 <= row < |e.after| && e.after[row] != "" ==> c.resolved[row];
    hide Settling, Claimed, LeftOver, LabelsBack, Bound, NamesEntries;
    FillingRests(e, c, LeftOver(e, c.matched, 0), |e.after|);
  }

  lemma {:induction false} SettlingNames(e: Edit)
    requires Settling(e)
    ensures NamesEntries(e.after, e.baseline)
  {
  }

  // -------------------------------------------------------------- every run

  /** The identities and the transfers put aside after a run of edits, each
      given as the new lines. */
  function AfterEdits(origins: seq<Option<Origin>>, lines: seq<string>, detached: Detached, baseline: seq<Entry>,
                      edits: seq<seq<string>>): (seq<Option<Origin>>, Detached)
    decreases |edits|
  {
    if edits == [] then (origins, detached)
    else
      var e := Edit(Resized(origins, |lines|), lines, edits[0], baseline);
      var (next, aside) := Reconciled(e, detached);
      AfterEdits(next, edits[0], aside, baseline, edits[1..])
  }

  /** Every text of a run names entries, and no step empties a row in place. */
  predicate OnlyMoves(lines: seq<string>, baseline: seq<Entry>, edits: seq<seq<string>>)
    decreases |edits|
  {
    edits == [] ||
    (NamesEntries(edits[0], baseline) && NothingCleared(lines, edits[0]) && OnlyMoves(edits[0], baseline, edits[1..]))
  }

  /** However often the rows of a listing are reordered, deleted and brought
      back, each visible label stays bound to the entry it names. */
  lemma {:induction false} EveryRunKeepsEntries(origins: seq<Option<Origin>>, lines: seq<string>, detached: Detached,
                                                baseline: seq<Entry>, edits: seq<seq<string>>)
    requires SoundBaseline(baseline) && Bound(Resized(origins, |lines|), lines, baseline)
    requires OnlyMoves(lines, baseline, edits) && edits != []
    ensures Bound(AfterEdits(origins, lines, detached, baseline, edits).0, edits[|edits| - 1], baseline)
    decreases |edits|
  {
    var e := Edit(Resized(origins, |lines|), lines, edits[0], baseline);
    assert Settling(e);
    MovingKeepsEntries(e, detached);
    var next := Reconciled(e, detached).0;
    if |edits| > 1 {
      assert Resized(next, |edits[0]|) == next;
      hide Reconciled, Bound, NamesEntries, NothingCleared, SoundBaseline, Settling;
      EveryRunKeepsEntries(next, edits[0], Reconciled(e, detached).1, baseline, edits[1..]);
    }
  }

  // ----------------------------------------------------------- whole listings

  /** `entries` is the snapshot in some order, nothing twice. */
  ghost predicate Arranges(entries: seq<Entry>, snapshot: seq<Entry>) {
    && (forall i, j :: 0 <= i < j < |entries| ==> entries[i] != entries[j])
    && (forall i :: 0 <= i < |entries| ==> entries[i] in snapshot)
    && (forall i :: 0 <= i < |snapshot| ==> snapshot[i] in entries)
  }

  predicate AllNamed(entries: seq<Entry>) {
    forall i :: 0 <= i < |entries| ==> entries[i].name.Some?
  }

  /** One row an entry, and a last one that is empty. */
  function ListedLines(entries: seq<Entry>): seq<string>
    requires AllNamed(entries)
  {
    seq(|entries|, i requires 0 <= i < |entries| => entries[i].name.value) + [""]
  }

  function ListedOrigins(entries: seq<Entry>): seq<Option<Origin>> {
    if entries == [] then []
    else seq(|entries|, i requires 0 <= i < |entries| => Some(Snapshot(entries[i].id))) + [None]
  }

  predicate DistinctNames(baseline: seq<Entry>) {
    forall i, j :: 0 <= i < j < |baseline| && baseline[i].name.Some? ==> baseline[i].name != baseline[j].name
  }

  lemma {:induction false} ListedNameNames(entries: seq<Entry>, baseline: seq<Entry>, i: nat)
    requires SoundBaseline(baseline) && DistinctNames(baseline) && Arranges(entries, baseline)
    requires i < |entries| && entries[i].name.Some?
    ensures entries[i].name != Some("") && LabelId(baseline, entries[i].name.value) == Some(entries[i].id)
  {
    assert entries[i] in baseline;
  }

  lemma {:induction false} ListedNamesDiffer(entries: seq<Entry>, baseline: seq<Entry>, i: nat, j: nat)
    requires DistinctNames(baseline) && Arranges(entries, baseline)
    requires i < j < |entries| && entries[i].name.Some?
    ensures entries[i].name != entries[j].name
  {
    assert entries[i] in baseline && entries[j] in baseline && entries[i] != entries[j];
  }

  /** However a snapshot is laid out, its rows are bound to its entries. */
  lemma {:induction false} ListingIsBound(entries: seq<Entry>, baseline: seq<Entry>)
    requires SoundBaseline(baseline) && DistinctNames(baseline) && Arranges(entries, baseline) && AllNamed(entries)
    ensures Bound(Resized(ListedOrigins(entries), |ListedLines(entries)|), ListedLines(entries), baseline)
  {
    hide SoundBaseline, DistinctNames, Arranges, LabelId;
    var lines := ListedLines(entries);
    forall i | 0 <= i < |entries|
      ensures lines[i] != "" && LabelId(baseline, lines[i]) == Some(entries[i].id)
    {
      ListedNameNames(entries, baseline, i);
    }
    forall i, j | 0 <= i < j < |lines| && lines[i] != "" ensures lines[i] != lines[j] {
      if j < |entries| {
        ListedNamesDiffer(entries, baseline, i, j);
      }
    }
  }

  /** A listing that has just been laid out, and then any number of edits that
      reorder its rows, delete them and bring them back. */
  lemma {:induction false} FreshListingsKeepEntries(entries: seq<Entry>, baseline: seq<Entry>, edits: seq<seq<string>>)
    requires SoundBaseline(baseline) && DistinctNames(baseline) && Arranges(entries, baseline) && AllNamed(entries)
    requires OnlyMoves(ListedLines(entries), baseline, edits) && edits != []
    ensures Bound(AfterEdits(ListedOrigins(entries), ListedLines(entries), map[], baseline, edits).0,
                  edits[|edits| - 1], baseline)
  {
    ListingIsBound(entries, baseline);
    EveryRunKeepsEntries(ListedOrigins(entries), ListedLines(entries), map[], baseline, edits);
  }
}
