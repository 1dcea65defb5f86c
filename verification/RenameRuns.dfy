/** Rows renamed where they stand, any number of times. */
module RenameRuns {
  import opened Wrappers
  import opened Directories
  import opened DirectoryRuns
  import opened RowIdentities

  /** A row is given another text: what it said is said nowhere any more, and
      what it says now was said nowhere, names no entry that has no row, and
      nothing waits for it. */
  predicate Renamed(e: Edit, detached: Detached, r: nat)
    requires e.Fits() && e.SameSize() && r < |e.after|
  {
    && (e.before[r] == "" || e.before[r] !in e.after)
    && (e.after[r] == "" || (e.after[r] !in e.before && e.after[r] !in detached))
    && (LabelId(e.baseline, e.after[r]).Some? ==> e.Carries(LabelId(e.baseline, e.after[r]).value))
  }

  /** A row says what it said, and as many rows above it say so as did. */
  predicate Unchanged(e: Edit, r: nat)
    requires e.Fits() && e.SameSize() && r < |e.after|
  {
    e.after[r] == e.before[r] != "" && Said(e.after, e.after[r], r) == Said(e.before, e.after[r], r)
  }

  lemma {:induction false} NotSaid(lines: seq<string>, text: string, n: nat)
    requires n <= |lines| && text !in lines
    ensures Said(lines, text, n) == 0
  {
    SaidBySome(lines, text, n);
  }

  lemma {:induction false} RenamedStays(e: Edit, detached: Detached, r: nat)
    requires e.Fits() && e.SameSize() && r < |e.after| && Renamed(e, detached, r)
    ensures !Labelled(e, detached, r) && Stays(e, detached, r)
  {
    if e.after[r] != "" {
      NotSaid(e.before, e.after[r], |e.before|);
    }
    if e.before[r] != "" {
      NotSaid(e.after, e.before[r], |e.after|);
    }
  }

  lemma {:induction false} UnchangedMoves(e: Edit, r: nat)
    requires e.Fits() && e.SameSize() && r < |e.after| && Unchanged(e, r)
    ensures Moved(e, r) && Claimable(e, r) && Copy(e.before, e.after[r], Said(e.after, e.after[r], r)) == r
  {
    var text := e.after[r];
    SaidAscends(e.before, text, r, |e.before|);
    SaidAscends(e.after, text, r, |e.after|);
    OneCopy(e.before, text, r, Copy(e.before, text, Said(e.after, text, r)));
  }

  /** With as many rows as before, a row that is renamed where it stands keeps
      what it stood for, nothing included; so does one that is left alone. */
  lemma {:induction false} RenamedRowKeepsItsIdentity(e: Edit, detached: Detached, r: nat)
    requires e.Fits() && e.SameSize() && r < |e.after|
    requires Renamed(e, detached, r) || Unchanged(e, r)
    ensures Reconciled(e, detached).0[r] == e.previous[r]
  {
    hide Reconciled, Renamed, Unchanged, Labelled, Stays, Moved, Copy;
    ReconciledIs(e, detached, r);
    if Renamed(e, detached, r) {
      RenamedStays(e, detached, r);
      StayingIs(e, detached, r);
    } else {
      UnchangedMoves(e, r);
    }
  }

  // ------------------------------------------------------------- every run

  /** In every edit of a run row `r` is renamed where it stands, or left alone. */
  predicate RowRenamedAlong(origins: seq<Option<Origin>>, lines: seq<string>, detached: Detached,
                            baseline: seq<Entry>, edits: seq<seq<string>>, r: nat)
    requires r < |lines|
    decreases |edits|
  {
    edits == [] ||
    var e := Edit(Resized(origins, |lines|), lines, edits[0], baseline);
    && e.SameSize() && (Renamed(e, detached, r) || Unchanged(e, r))
    && var (next, aside) := Reconciled(e, detached);
       RowRenamedAlong(next, edits[0], aside, baseline, edits[1..], r)
  }

  /** However often a row is renamed where it stands, and whatever happens to the
      others meanwhile, it stands for what it stood for at first. */
  lemma {:induction false} RenamedRowKeepsItsIdentityAlong(origins: seq<Option<Origin>>, lines: seq<string>,
                                                           detached: Detached, baseline: seq<Entry>,
                                                           edits: seq<seq<string>>, r: nat)
    requires r < |lines| && RowRenamedAlong(origins, lines, detached, baseline, edits, r)
    ensures edits != [] ==>
              var after := AfterEdits(origins, lines, detached, baseline, edits).0;
              r < |after| && after[r] == Resized(origins, |lines|)[r]
    decreases |edits|
  {
    hide Reconciled, Renamed, Unchanged;
    if edits != [] {
      var e := Edit(Resized(origins, |lines|), lines, edits[0], baseline);
      var (next, aside) := Reconciled(e, detached);
      RenamedRowKeepsItsIdentity(e, detached, r);
      RenamedRowKeepsItsIdentityAlong(next, edits[0], aside, baseline, edits[1..], r);
    }
  }

  /** Every edit renames rows where they stand or leaves them alone: no new text
      is said elsewhere, waited for, or the name of an entry without a row. All
      of it is said of the listing the run begins with. */
  predicate OnlyRenames(origins: seq<Option<Origin>>, lines: seq<string>, detached: Detached, baseline: seq<Entry>,
                        edits: seq<seq<string>>)
    requires |origins| == |lines|
    decreases |edits|
  {
    edits == [] ||
    var e := Edit(origins, lines, edits[0], baseline);
    && e.SameSize() && (forall r :: 0 <= r < |lines| ==> Renamed(e, detached, r) || Unchanged(e, r))
    && OnlyRenames(origins, edits[0], detached, baseline, edits[1..])
  }

  lemma {:induction false} NothingLeftOver(e: Edit, matched: seq<bool>, from: nat)
    requires e.Fits() && |matched| == |e.previous| && from <= |e.previous|
    requires forall r :: 0 <= r < |matched| ==> matched[r]
    ensures LeftOver(e, matched, from) == []
    decreases |e.previous| - from
  {
    if from < |e.previous| {
      NothingLeftOver(e, matched, from + 1);
    }
  }

  /** When all rows keep their places nothing is left over, and nothing is put
      aside. */
  lemma {:induction false} NothingIsLeft(e: Edit, detached: Detached)
    requires e.Fits() && e.SameSize()
    requires forall r :: 0 <= r < |e.after| ==> Renamed(e, detached, r) || Unchanged(e, r)
    ensures Left(e, detached) == []
  {
    hide Renamed, Unchanged, Labelled, Claimable, Moved, Stays;
    forall r | 0 <= r < |e.after| ensures Taken(e, detached)[r] {
      if Renamed(e, detached, r) {
        RenamedStays(e, detached, r);
      } else {
        UnchangedMoves(e, r);
      }
    }
    NothingLeftOver(e, Taken(e, detached), 0);
  }

  lemma {:induction false} NothingIsPutAside(e: Edit, detached: Detached, text: string)
    requires e.Fits() && e.SameSize() && text != "" && text !in detached
    requires forall r :: 0 <= r < |e.after| ==> Renamed(e, detached, r) || Unchanged(e, r)
    ensures text !in Reconciled(e, detached).1
  {
    hide Reconciled, Renamed, Unchanged, Left, OpenAbove, TakersAbove;
    NothingIsLeft(e, detached);
    PutAsideIs(e, detached, text);
  }

  lemma {:induction false} LessWaitsStillRenames(origins: seq<Option<Origin>>, lines: seq<string>, detached: Detached,
                                                 fewer: Detached, baseline: seq<Entry>, edits: seq<seq<string>>)
    requires |origins| == |lines| && OnlyRenames(origins, lines, detached, baseline, edits)
    requires forall text :: text != "" && text in fewer ==> text in detached
    ensures OnlyRenames(origins, lines, fewer, baseline, edits)
    decreases |edits|
  {
    hide Unchanged;
    if edits != [] {
      var e := Edit(origins, lines, edits[0], baseline);
      assert forall r :: 0 <= r < |lines| && Renamed(e, detached, r) ==> Renamed(e, fewer, r);
      LessWaitsStillRenames(origins, edits[0], detached, fewer, baseline, edits[1..]);
    }
  }

  /** A run of renames where the rows stand, however often, changes no identity
      at all. */
  lemma {:induction false} RenamingKeepsEveryIdentity(origins: seq<Option<Origin>>, lines: seq<string>,
                                                      detached: Detached, baseline: seq<Entry>,
                                                      edits: seq<seq<string>>)
    requires |origins| == |lines| && OnlyRenames(origins, lines, detached, baseline, edits)
    ensures AfterEdits(origins, lines, detached, baseline, edits).0 == origins
    decreases |edits|
  {
    hide Reconciled, Renamed, Unchanged;
    if edits != [] {
      var e := Edit(origins, lines, edits[0], baseline);
      assert Resized(origins, |lines|) == origins;
      var (next, aside) := Reconciled(e, detached);
      forall r | 0 <= r < |lines| ensures next[r] == origins[r] {
        RenamedRowKeepsItsIdentity(e, detached, r);
      }
      assert next == origins;
      forall text | text != "" && text in aside ensures text in detached {
        if text !in detached {
          NothingIsPutAside(e, detached, text);
        }
      }
      LessWaitsStillRenames(origins, edits[0], detached, aside, baseline, edits[1..]);
      RenamingKeepsEveryIdentity(origins, edits[0], aside, baseline, edits[1..]);
    }
  }
}
