/** Transfers on their way through any number of edits of a listing. */
module TransferRuns {
  import opened Wrappers
  import opened Directories
  import opened DirectoryLaws
  import opened DirectoryPasses
  import opened DirectoryRuns

  ghost predicate Waiting(detached: Detached, origin: Origin) {
    exists text :: PutUnder(detached, text, origin)
  }

  predicate OnNamedRow(origins: seq<Option<Origin>>, lines: seq<string>, origin: Origin) {
    exists r :: 0 <= r < |lines| && r < |origins| && lines[r] != "" && origins[r] == Some(origin)
  }

  /** The listing still has the transfer: some row stands for it, or it waits
      under a label. */
  ghost predicate Held(origins: seq<Option<Origin>>, detached: Detached, origin: Origin) {
    Some(origin) in origins || Waiting(detached, origin)
  }

  /** The next edit can tell where the transfer belongs: a label names it. */
  ghost predicate Labelled(origins: seq<Option<Origin>>, lines: seq<string>, detached: Detached, origin: Origin) {
    OnNamedRow(origins, lines, origin) || Waiting(detached, origin)
  }

  /** The transfer is there, but only rows that say nothing stand for it. */
  ghost predicate Stranded(origins: seq<Option<Origin>>, lines: seq<string>, detached: Detached, origin: Origin) {
    Held(origins, detached, origin) && !Labelled(origins, lines, detached, origin)
  }

  lemma {:induction false} StepKeepsTransfer(e: Edit, detached: Detached, origin: Origin)
    requires e.Fits() && OnlyTransfers(detached) && origin.Transfer?
    requires Labelled(e.previous, e.before, detached, origin)
    ensures Held(Reconciled(e, detached).0, Reconciled(e, detached).1, origin)
  {
    hide Reconciled, OnlyTransfers, PutUnder;
    if OnNamedRow(e.previous, e.before, origin) {
      var r :| 0 <= r < |e.before| && e.before[r] != "" && e.previous[r] == Some(origin);
      NoTransferIsLost(e, detached, r);
    } else {
      var text :| PutUnder(detached, text, origin);
      PutAsideIsKept(e, detached, text, origin);
    }
  }

  // ------------------------------------------------------------- every run

  /** No edit of a run finds the transfer stranded. */
  ghost predicate NeverStranded(origins: seq<Option<Origin>>, lines: seq<string>, detached: Detached,
                                baseline: seq<Entry>, edits: seq<seq<string>>, origin: Origin)
    decreases |edits|
  {
    edits == [] ||
    (!Stranded(origins, lines, detached, origin)
     && var (next, aside) := Reconciled(Edit(Resized(origins, |lines|), lines, edits[0], baseline), detached);
        NeverStranded(next, edits[0], aside, baseline, edits[1..], origin))
  }

  /** However a listing is edited, a transfer it has stays with it, on some row
      or put aside, unless an edit finds it stranded. */
  lemma {:induction false} EveryRunKeepsTransfers(origins: seq<Option<Origin>>, lines: seq<string>,
                                                  detached: Detached, baseline: seq<Entry>,
                                                  edits: seq<seq<string>>, origin: Origin)
    requires OnlyTransfers(detached) && origin.Transfer? && Held(origins, detached, origin)
    requires NeverStranded(origins, lines, detached, baseline, edits, origin)
    ensures var (after, aside) := AfterEdits(origins, lines, detached, baseline, edits);
            Held(after, aside, origin)
    decreases |edits|
  {
    hide Reconciled, OnlyTransfers, Held, Waiting;
    if edits != [] {
      var e := Edit(Resized(origins, |lines|), lines, edits[0], baseline);
      var (next, aside) := Reconciled(e, detached);
      StepKeepsTransfer(e, detached, origin);
      ReconciledAside(e, detached);
      EveryRunKeepsTransfers(next, edits[0], aside, baseline, edits[1..], origin);
    }
  }

  // ------------------------------------------------ edits that strand nothing

  predicate IsTransfer(origin: Option<Origin>) {
    origin.Some? && origin.value.Transfer?
  }

  /** Rows that say nothing stand for no transfer. */
  predicate EmptyRowsBare(origins: seq<Option<Origin>>, lines: seq<string>) {
    forall r :: 0 <= r < |lines| && r < |origins| && lines[r] == "" ==> !IsTransfer(origins[r])
  }

  /** With as many rows as before, no row is emptied. */
  predicate EmptiesNothing(before: seq<string>, after: seq<string>) {
    |before| == |after| ==> forall r :: 0 <= r < |after| && after[r] == "" ==> before[r] == ""
  }

  predicate NoneEmptied(lines: seq<string>, edits: seq<seq<string>>)
    decreases |edits|
  {
    edits == [] || (EmptiesNothing(lines, edits[0]) && NoneEmptied(edits[0], edits[1..]))
  }

  predicate Sparing(e: Edit) {
    e.Fits() && EmptyRowsBare(e.previous, e.before) && EmptiesNothing(e.before, e.after)
  }

  lemma {:induction false} EarlyPassesSpare(e: Edit, detached: Detached, n: nat)
    requires Sparing(e) && n <= |e.after|
    ensures EmptyRowsBare(LabelPass(e, Fresh(e, detached), n).origins, e.after)
  {
    if n > 0 {
      EarlyPassesSpare(e, detached, n - 1);
    }
  }

  lemma {:induction false} BaselinePassSpares(e: Edit, m: Matching, n: nat)
    requires m.Fits(e) && n <= |e.after| && EmptyRowsBare(m.origins, e.after)
    ensures EmptyRowsBare(BaselinePass(e, m, n).origins, e.after)
  {
    if n > 0 {
      BaselinePassSpares(e, m, n - 1);
    }
  }

  lemma {:induction false} DetachedPassSpares(e: Edit, m: Matching, n: nat)
    requires m.Fits(e) && n <= |e.after| && EmptyRowsBare(m.origins, e.after)
    ensures EmptyRowsBare(DetachedPass(e, m, n).origins, e.after)
  {
    if n > 0 {
      DetachedPassSpares(e, m, n - 1);
    }
  }

  lemma {:induction false} InPlacePassSpares(e: Edit, m: Matching, n: nat)
    requires Sparing(e) && m.Fits(e) && n <= |e.after| && EmptyRowsBare(m.origins, e.after)
    ensures EmptyRowsBare(InPlacePass(e, m, n).origins, e.after)
  {
    if n > 0 {
      InPlacePassSpares(e, m, n - 1);
    }
  }

  lemma {:induction false} InOrderPassSpares(e: Edit, m: Matching, rest: seq<nat>, n: nat)
    requires m.Fits(e) && n <= |e.after| && EmptyRowsBare(m.origins, e.after) && OldRows(e, rest)
    ensures EmptyRowsBare(InOrderPass(e, m, rest, n).0.origins, e.after)
  {
    if n > 0 {
      InOrderPassSpares(e, m, rest, n - 1);
    }
  }

  lemma {:induction false} ReconcilingSpares(e: Edit, detached: Detached)
    requires Sparing(e)
    ensures EmptyRowsBare(Reconciled(e, detached).0, e.after)
  {
    hide EmptyRowsBare, LabelPass, BaselinePass, DetachedPass, InPlacePass, InOrderPass, LeftOver, WithoutEmpty,
         PutAsideAll, EmptiesNothing;
    var n := |e.after|;
    EarlyPassesSpare(e, detached, n);
    var l := LabelPass(e, Fresh(e, detached), n);
    BaselinePassSpares(e, l, n);
    var b := BaselinePass(e, l, n);
    DetachedPassSpares(e, b, n);
    var d := DetachedPass(e, b, n);
    InPlacePassSpares(e, d.(detached := WithoutEmpty(d.detached)), n);
    var c := Claimed(e, detached);
    InOrderPassSpares(e, c, LeftOver(e, c.matched, 0), n);
  }

  /** If no edit empties a row where it stands, every transfer a label names
      keeps a label through the whole run. */
  lemma {:induction false} SparingRunsKeepLabels(origins: seq<Option<Origin>>, lines: seq<string>, detached: Detached,
                                                 baseline: seq<Entry>, edits: seq<seq<string>>, origin: Origin)
    requires OnlyTransfers(detached) && origin.Transfer? && Labelled(origins, lines, detached, origin)
    requires EmptyRowsBare(origins, lines) && NoneEmptied(lines, edits)
    ensures var (after, aside) := AfterEdits(origins, lines, detached, baseline, edits);
            Labelled(after, if edits == [] then lines else edits[|edits| - 1], aside, origin)
    decreases |edits|
  {
    hide Reconciled, OnlyTransfers, Waiting, EmptiesNothing;
    if edits != [] {
      var e := Edit(Resized(origins, |lines|), lines, edits[0], baseline);
      var (next, aside) := Reconciled(e, detached);
      StepKeepsTransfer(e, detached, origin);
      ReconciledAside(e, detached);
      ReconcilingSpares(e, detached);
      BareIsLabelled(next, edits[0], aside, origin);
      SparingRunsKeepLabels(next, edits[0], aside, baseline, edits[1..], origin);
    }
  }

  lemma {:induction false} BareIsLabelled(origins: seq<Option<Origin>>, lines: seq<string>, detached: Detached,
                                          origin: Origin)
    requires |origins| == |lines| && EmptyRowsBare(origins, lines) && origin.Transfer?
    requires Held(origins, detached, origin)
    ensures Labelled(origins, lines, detached, origin)
  {
    if Some(origin) in origins {
      var r :| 0 <= r < |origins| && origins[r] == Some(origin);
      assert lines[r] != "";
    }
  }

  predicate AllBlank(e: Edit) {
    e.Fits() && e.baseline == [] && forall r :: 0 <= r < |e.after| ==> e.after[r] == ""
  }

  /** Rows that say nothing are passed over, except where they stand. */
  lemma {:induction false} BlankRowsRest(e: Edit, m: Matching, rest: seq<nat>, n: nat)
    requires AllBlank(e) && m.Fits(e) && n <= |e.after| && OldRows(e, rest)
    ensures LabelPass(e, m, n) == BaselinePass(e, m, n) == DetachedPass(e, m, n) == m
    ensures !e.SameSize() ==> InPlacePass(e, m, n) == m
    ensures InOrderPass(e, m, rest, n) == (m, rest)
  {
    if n > 0 {
      BlankRowsRest(e, m, rest, n - 1);
    }
  }

  /** Emptying the only row leaves its transfer there. */
  lemma {:induction false} EmptiedStays(origin: Origin)
    ensures Reconciled(Edit([Some(origin)], ["a"], [""], []), map[]) == ([Some(origin)], map[])
  {
    hide LabelPass, BaselinePass, DetachedPass, InOrderPass;
    var e := Edit([Some(origin)], ["a"], [""], []);
    var blank := Fresh(e, map[]);
    BlankRowsRest(e, blank, [], 1);
    assert WithoutEmpty(map[]) == map[];
    var c := InPlace(e, blank, 0);
    assert InPlacePass(e, blank, 0) == blank;
    assert InPlacePass(e, blank, 1) == c;
    assert c.origins == [Some(origin)];
    assert LeftOver(e, c.matched, 0) == [];
    BlankRowsRest(e, c, [], 1);
  }

  /** Adding an empty row to an empty row drops its transfer. */
  lemma {:induction false} EmptyIsDropped(origin: Origin)
    ensures Reconciled(Edit([Some(origin)], [""], ["", ""], []), map[]) == ([None, None], map[])
  {
    hide LabelPass, BaselinePass, DetachedPass, InPlacePass, InOrderPass;
    var e := Edit([Some(origin)], [""], ["", ""], []);
    var blank := Fresh(e, map[]);
    BlankRowsRest(e, blank, [], 2);
    assert WithoutEmpty(map[]) == map[];
    assert LeftOver(e, blank.matched, 1) == [];
    assert LeftOver(e, blank.matched, 0) == [0];
    BlankRowsRest(e, blank, [0], 2);
    assert Filled(e, map[]) == (blank, [0]);
    assert [0][..0] == [] && PutAsideAll(e, map[], []) == map[];
    assert PutAsideAll(e, map[], [0]) == map[];
    assert blank.origins == [None, None];
  }

  /** A row that is emptied where it stands keeps its transfer for one more
      edit; if that one adds a row elsewhere, the transfer is gone. */
  lemma {:induction false} AnEmptiedTransferIsLost(origin: Origin)
    requires origin.Transfer?
    ensures var (after, aside) := AfterEdits([Some(origin)], ["a"], map[], [], [[""], ["", ""]]);
            !Held(after, aside, origin)
  {
    hide Reconciled, Resized;
    EmptiedStays(origin);
    EmptyIsDropped(origin);
    assert Resized([Some(origin)], 1) == [Some(origin)];
    var edits := [[""], ["", ""]];
    assert edits[1..][0] == ["", ""] && edits[1..][1..] == [];
    assert AfterEdits([Some(origin)], [""], map[], [], edits[1..]) == ([None, None], map[]);
  }
}
