/** The editable explorer: a directory's entries as rows of text, each with the
    identity it stands for hidden behind it. */
module DirectoryBuffers {
  import opened Wrappers
  import opened Directories
  import Laws = DirectoryLaws
  import Passes = DirectoryPasses
  import Rows = RowIdentities
  import Runs = DirectoryRuns

  /** What one line of the text says; how a line is read is not modelled. */
  datatype Line = Blank | Unreadable | Names(path: string)

  datatype Outcome = Refused | Unaffected | Advanced

  // ----------------------------------------------------------- specification

  /** A snapshot gives every entry its own path, too. */
  ghost predicate SoundSnapshot(entries: seq<Entry>) {
    && Laws.SoundBaseline(entries)
    && (forall i, j :: 0 <= i < j < |entries| ==> entries[i].path != entries[j].path)
  }

  function FirstNaming(lines: seq<Line>, path: string): (r: Option<nat>)
    ensures r.Some? ==> r.value < |lines| && lines[r.value] == Names(path)
    ensures r.Some? ==> forall k :: 0 <= k < r.value ==> lines[k] != Names(path)
    ensures r.None? ==> forall k :: 0 <= k < |lines| ==> lines[k] != Names(path)
  {
    if lines == [] then None
    else if FirstNaming(lines[..|lines| - 1], path).Some? then FirstNaming(lines[..|lines| - 1], path)
    else if lines[|lines| - 1] == Names(path) then Some(|lines| - 1)
    else None
  }

  /** Where an entry belongs: at the line that names it first, or after all of
      them in the snapshot's own order. */
  function Rank(lines: seq<Line>, latest: seq<Entry>, index: nat): nat
    requires index < |latest|
  {
    match FirstNaming(lines, latest[index].path)
    case Some(row) => row
    case None => |lines| + index
  }

  /** `picked` are the snapshot's entries that rank below `bound`, by rank. */
  ghost predicate RankedBelow(lines: seq<Line>, latest: seq<Entry>, picked: seq<nat>, bound: nat) {
    && (forall k :: 0 <= k < |picked| ==> picked[k] < |latest| && Rank(lines, latest, picked[k]) < bound)
    && (forall k, l :: 0 <= k < l < |picked| ==> Rank(lines, latest, picked[k]) < Rank(lines, latest, picked[l]))
    && (forall i :: 0 <= i < |latest| && Rank(lines, latest, i) < bound ==> i in picked)
  }

  function Pick(latest: seq<Entry>, picked: seq<nat>): seq<Entry>
    requires forall k :: 0 <= k < |picked| ==> picked[k] < |latest|
  {
    seq(|picked|, k requires 0 <= k < |picked| => latest[picked[k]])
  }

  /** The entries in the order the text gives them, and then the others. */
  ghost predicate OrderedBy(lines: seq<Line>, latest: seq<Entry>, entries: seq<Entry>) {
    exists picked: seq<nat> ::
      RankedBelow(lines, latest, picked, |lines| + |latest|) && entries == Pick(latest, picked)
  }

  /** Every row that stands for an entry stands for one of the snapshot's. */
  ghost predicate Known(origins: seq<Option<Origin>>, baseline: seq<Entry>) {
    forall r :: 0 <= r < |origins| && origins[r].Some? && origins[r].value.Snapshot? ==>
      PathOf(baseline, origins[r].value.id).Some?
  }

  function PathOf(baseline: seq<Entry>, id: nat): (path: Option<string>)
    ensures path.Some? ==> exists i :: 0 <= i < |baseline| && baseline[i].id == id && baseline[i].path == path.value
    ensures path.None? ==> forall i :: 0 <= i < |baseline| ==> baseline[i].id != id
  {
    if baseline == [] then None
    else
      var last := baseline[|baseline| - 1];
      if last.id == id then Some(last.path) else PathOf(baseline[..|baseline| - 1], id)
  }

  function IdOf(baseline: seq<Entry>, path: string): (id: Option<nat>)
    ensures id.Some? ==> exists i :: 0 <= i < |baseline| && baseline[i].path == path && baseline[i].id == id.value
    ensures id.None? ==> forall i :: 0 <= i < |baseline| ==> baseline[i].path != path
  {
    if baseline == [] then None
    else
      var last := baseline[|baseline| - 1];
      if last.path == path then Some(last.id) else IdOf(baseline[..|baseline| - 1], path)
  }

  function Listed(entries: seq<Entry>): seq<(string, EntryKind)> {
    seq(|entries|, i requires 0 <= i < |entries| => (entries[i].path, entries[i].kind))
  }

  function Surviving(entries: seq<Entry>, removed: set<string>): (r: seq<Entry>)
    ensures forall e :: e in r <==> e in entries && e.path !in removed
  {
    if entries == [] then []
    else
      Surviving(entries[..|entries| - 1], removed) +
      if entries[|entries| - 1].path in removed then [] else [entries[|entries| - 1]]
  }

  /** A removed entry some row still stands for. */
  ghost predicate Pending(origins: seq<Option<Origin>>, baseline: seq<Entry>, removed: set<string>) {
    exists r, i :: 0 <= r < |origins| && 0 <= i < |baseline| && baseline[i].path in removed
                   && origins[r] == Some(Snapshot(baseline[i].id))
  }

  /** What a row stands for is the same file, under the new snapshot's id. */
  ghost predicate SameEntry(was: Option<Origin>, baseline: seq<Entry>, now: Option<Origin>, latest: seq<Entry>) {
    if was.Some? && was.value.Snapshot? then
      && now.Some? && now.value.Snapshot?
      && PathOf(latest, now.value.id) == PathOf(baseline, was.value.id) != None
    else now == was
  }

  ghost predicate SameEntries(before: seq<Option<Origin>>, baseline: seq<Entry>, after: seq<Option<Origin>>,
                              latest: seq<Entry>) {
    |after| == |before| && forall r :: 0 <= r < |before| ==> SameEntry(before[r], baseline, after[r], latest)
  }

  // ------------------------------------------------------------------ lemmas

  lemma {:induction false} LineNamesNothing(lines: seq<Line>, latest: seq<Entry>, picked: seq<nat>, row: nat)
    requires row < |lines| && RankedBelow(lines, latest, picked, row)
    requires forall i :: 0 <= i < |latest| ==> lines[row] != Names(latest[i].path)
    ensures RankedBelow(lines, latest, picked, row + 1)
  {
    forall i | 0 <= i < |latest| && Rank(lines, latest, i) < row + 1 ensures i in picked {
      assert Rank(lines, latest, i) != row;
    }
  }

  /** A line that names an entry either names it again or puts it next. */
  lemma {:induction false} LineNames(lines: seq<Line>, latest: seq<Entry>, picked: seq<nat>, row: nat, index: nat)
    requires row < |lines| && index < |latest| && RankedBelow(lines, latest, picked, row)
    requires SoundSnapshot(latest) && lines[row] == Names(latest[index].path)
    ensures RankedBelow(lines, latest, if index in picked then picked else picked + [index], row + 1)
  {
    NamedFirst(lines, latest, row, index);
    hide Rank, SoundSnapshot, FirstNaming;
    assert index !in picked ==> Rank(lines, latest, index) == row;
  }

  /** No other entry ranks at a line that names this one, and this one ranks there
      or sooner. */
  lemma {:induction false} NamedFirst(lines: seq<Line>, latest: seq<Entry>, row: nat, index: nat)
    requires row < |lines| && index < |latest| && SoundSnapshot(latest) && lines[row] == Names(latest[index].path)
    ensures Rank(lines, latest, index) <= row
    ensures forall i :: 0 <= i < |latest| && Rank(lines, latest, i) == row ==> i == index
  {
    hide Laws.SoundBaseline;
    forall i | 0 <= i < |latest| && Rank(lines, latest, i) == row ensures i == index {
      assert lines[row] == Names(latest[i].path);
    }
  }

  lemma {:induction false} OneMoreEntry(lines: seq<Line>, latest: seq<Entry>, picked: seq<nat>, index: nat)
    requires index < |latest| && RankedBelow(lines, latest, picked, |lines| + index)
    ensures RankedBelow(lines, latest, if index in picked then picked else picked + [index], |lines| + index + 1)
  {
    if index !in picked {
      assert Rank(lines, latest, index) == |lines| + index;
    }
    forall i | 0 <= i < |latest| && Rank(lines, latest, i) == |lines| + index ensures i == index {
    }
  }

  lemma {:induction false} RankIsBelow(lines: seq<Line>, latest: seq<Entry>, index: nat)
    requires index < |latest|
    ensures Rank(lines, latest, index) < |lines| + |latest|
  {
  }

  lemma {:induction false} PickedOnce(lines: seq<Line>, latest: seq<Entry>, picked: seq<nat>, i: nat, j: nat)
    requires SoundSnapshot(latest) && RankedBelow(lines, latest, picked, |lines| + |latest|) && i < j < |picked|
    ensures latest[picked[i]] != latest[picked[j]]
  {
    hide Rank, Laws.SoundBaseline;
    assert Rank(lines, latest, picked[i]) < Rank(lines, latest, picked[j]);
  }

  lemma {:induction false} OrderedArranges(lines: seq<Line>, latest: seq<Entry>, entries: seq<Entry>)
    requires SoundSnapshot(latest) && OrderedBy(lines, latest, entries)
    ensures Runs.Arranges(entries, latest)
  {
    hide Rank, SoundSnapshot;
    var picked: seq<nat> :| RankedBelow(lines, latest, picked, |lines| + |latest|) && entries == Pick(latest, picked);
    forall i, j | 0 <= i < j < |entries| ensures entries[i] != entries[j] {
      PickedOnce(lines, latest, picked, i, j);
    }
    forall i | 0 <= i < |latest| ensures latest[i] in entries {
      RankIsBelow(lines, latest, i);
      var k :| 0 <= k < |picked| && picked[k] == i;
      assert entries[k] == latest[i];
    }
  }

  /** After a refresh every row is bound to the entry it names, so the listing
      keeps its entries from there on like one that was just opened. */
  lemma {:induction false} RefreshedIsBound(lines: seq<Line>, latest: seq<Entry>, entries: seq<Entry>)
    requires SoundSnapshot(latest) && Runs.DistinctNames(latest) && OrderedBy(lines, latest, entries)
    requires Runs.AllNamed(latest)
    ensures Runs.AllNamed(entries)
    ensures Runs.Bound(Resized(Runs.ListedOrigins(entries), |Runs.ListedLines(entries)|), Runs.ListedLines(entries),
                       latest)
  {
    OrderedArranges(lines, latest, entries);
    Runs.ListingIsBound(entries, latest);
  }

  lemma {:induction false} RowIsKnown(e: Edit, m: Matching, row: nat)
    requires Laws.Told(e, m) && Known(e.previous, e.baseline) && row < |e.after|
    requires m.origins[row].Some? && m.origins[row].value.Snapshot?
    ensures PathOf(e.baseline, m.origins[row].value.id).Some?
  {
    assert Laws.RowTold(e, m, row);
  }

  /** Every identity a reconciliation leaves on a row was on a row before, or is
      one of the snapshot's. */
  lemma {:induction false} ReconciledIsKnown(e: Edit, detached: Detached)
    requires e.Fits() && Laws.OnlyTransfers(detached) && Known(e.previous, e.baseline)
    ensures Known(Reconciled(e, detached).0, e.baseline)
  {
    var m, rest := Laws.FilledIsTold(e, detached);
    hide Filled, PutAsideAll, Laws.Told, PathOf, Laws.OnlyTransfers, Laws.Used;
    assert m.Fits(e) && Reconciled(e, detached).0 == m.origins;
    forall r | 0 <= r < |m.origins| && m.origins[r].Some? && m.origins[r].value.Snapshot?
      ensures PathOf(e.baseline, m.origins[r].value.id).Some?
    {
      RowIsKnown(e, m, r);
    }
  }

  lemma {:induction false} ResizedIsKnown(origins: seq<Option<Origin>>, n: nat, baseline: seq<Entry>)
    requires Known(origins, baseline)
    ensures Known(Resized(origins, n), baseline)
  {
  }

  lemma {:induction false} ListedIsKnown(entries: seq<Entry>, baseline: seq<Entry>)
    requires forall i :: 0 <= i < |entries| ==> entries[i] in baseline
    ensures Known(Runs.ListedOrigins(entries), baseline)
  {
    forall i | 0 <= i < |entries| ensures PathOf(baseline, entries[i].id).Some? {
      assert entries[i] in baseline;
    }
  }

  lemma {:induction false} PathOfEntry(baseline: seq<Entry>, entry: Entry)
    requires SoundSnapshot(baseline) && entry in baseline
    ensures PathOf(baseline, entry.id) == Some(entry.path) && IdOf(baseline, entry.path) == Some(entry.id)
  {
  }

  /** A row that does not stand for a removed entry finds its entry again. */
  lemma {:induction false} SurvivorIsListed(baseline: seq<Entry>, removed: set<string>, latest: seq<Entry>, id: nat)
    requires SoundSnapshot(baseline) && SoundSnapshot(latest)
    requires Listed(Surviving(baseline, removed)) == Listed(latest)
    requires PathOf(baseline, id).Some? && PathOf(baseline, id).value !in removed
    ensures IdOf(latest, PathOf(baseline, id).value).Some?
    ensures PathOf(latest, IdOf(latest, PathOf(baseline, id).value).value) == PathOf(baseline, id)
  {
    var path := PathOf(baseline, id).value;
    var i :| 0 <= i < |baseline| && baseline[i].id == id && baseline[i].path == path;
    var kept := Surviving(baseline, removed);
    assert baseline[i] in kept;
    var k :| 0 <= k < |kept| && kept[k] == baseline[i];
    assert Listed(kept)[k] == Listed(latest)[k];
    assert latest[k].path == path;
    PathOfEntry(latest, latest[k]);
  }

  lemma {:induction false} SameEntriesAreKnown(before: seq<Option<Origin>>, baseline: seq<Entry>,
                                               after: seq<Option<Origin>>, latest: seq<Entry>)
    requires SameEntries(before, baseline, after, latest)
    ensures Known(after, latest)
  {
  }

  // -------------------------------------------------------------- the object

  /** Which entries the lines show, first those they name, then the others. */
  method PickRows(lines: seq<Line>, latest: seq<Entry>) returns (r: Option<seq<nat>>)
    requires SoundSnapshot(latest)
    ensures r.None? <==> Unreadable in lines
    ensures r.Some? ==> RankedBelow(lines, latest, r.value, |lines| + |latest|)
  {
    var picked: seq<nat>, seen: set<nat> := [], {};
    NothingPicked(lines, latest);
    hide RankedBelow, SoundSnapshot, SeenIs;
    for row := 0 to |lines|
      invariant RankedBelow(lines, latest, picked, row)
      invariant SeenIs(latest, picked, seen)
      invariant Unreadable !in lines[..row]
    {
      if lines[row].Unreadable? {
        return None;
      }
      picked, seen := PickNamed(lines, latest, picked, seen, row);
    }
    for index := 0 to |latest|
      invariant RankedBelow(lines, latest, picked, |lines| + index)
      invariant SeenIs(latest, picked, seen)
    {
      OneMoreEntry(lines, latest, picked, index);
      SeenIsPicked(latest, picked, seen, index);
      if latest[index].id !in seen {
        picked, seen := picked + [index], seen + {latest[index].id};
      }
    }
    return Some(picked);
  }

  /** Picks the entry a line names, if there is one and no earlier line did. */
  method PickNamed(lines: seq<Line>, latest: seq<Entry>, picked: seq<nat>, seen: set<nat>, row: nat)
      returns (picked': seq<nat>, seen': set<nat>)
    requires SoundSnapshot(latest) && row < |lines| && !lines[row].Unreadable?
    requires RankedBelow(lines, latest, picked, row) && SeenIs(latest, picked, seen)
    ensures RankedBelow(lines, latest, picked', row + 1) && SeenIs(latest, picked', seen')
  {
    hide RankedBelow, SoundSnapshot, SeenIs;
    picked', seen' := picked, seen;
    var index := |latest|;
    if lines[row].Names? {
      index := IndexOf(latest, lines[row].path);
    }
    if index == |latest| {
      LineNamesNothing(lines, latest, picked, row);
      return;
    }
    LineNames(lines, latest, picked, row, index);
    SeenIsPicked(latest, picked, seen, index);
    if latest[index].id !in seen {
      picked', seen' := picked + [index], seen + {latest[index].id};
    }
  }

  ghost predicate SeenIs(latest: seq<Entry>, picked: seq<nat>, seen: set<nat>) {
    && (forall k :: 0 <= k < |picked| ==> picked[k] < |latest| && latest[picked[k]].id in seen)
    && (forall id :: id in seen ==> exists k :: 0 <= k < |picked| && picked[k] < |latest| && latest[picked[k]].id == id)
  }

  lemma {:induction false} NothingPicked(lines: seq<Line>, latest: seq<Entry>)
    ensures RankedBelow(lines, latest, [], 0) && SeenIs(latest, [], {})
  {
  }

  /** A row stands for one of `ids`. */
  method AnyStandsFor(origins: seq<Option<Origin>>, ids: set<nat>) returns (found: bool)
    ensures found <==>
      exists r :: 0 <= r < |origins| && origins[r].Some? && origins[r].value.Snapshot? && origins[r].value.id in ids
  {
    for row := 0 to |origins|
      invariant forall r :: 0 <= r < row && origins[r].Some? && origins[r].value.Snapshot? ==>
          origins[r].value.id !in ids
    {
      if origins[row].Some? && origins[row].value.Snapshot? && origins[row].value.id in ids {
        return true;
      }
    }
    return false;
  }

  lemma {:induction false} PendingIsGone(origins: seq<Option<Origin>>, baseline: seq<Entry>, removed: set<string>,
                                         gone: set<nat>)
    requires gone == set i | 0 <= i < |baseline| && baseline[i].path in removed :: baseline[i].id
    ensures Pending(origins, baseline, removed)
       <==> (exists r :: 0 <= r < |origins| && origins[r].Some? && origins[r].value.Snapshot?
                         && origins[r].value.id in gone)
  {
    if r :| 0 <= r < |origins| && origins[r].Some? && origins[r].value.Snapshot? && origins[r].value.id in gone {
      var i :| 0 <= i < |baseline| && baseline[i].path in removed && baseline[i].id == origins[r].value.id;
      assert origins[r] == Some(Snapshot(baseline[i].id));
    }
    if Pending(origins, baseline, removed) {
      var r, i :| 0 <= r < |origins| && 0 <= i < |baseline| && baseline[i].path in removed
                  && origins[r] == Some(Snapshot(baseline[i].id));
      assert origins[r].value.id in gone;
    }
  }

  lemma {:induction false} NotPending(origins: seq<Option<Origin>>, baseline: seq<Entry>, removed: set<string>,
                                      row: nat)
    requires !Pending(origins, baseline, removed) && Known(origins, baseline) && row < |origins|
    requires origins[row].Some? && origins[row].value.Snapshot?
    ensures PathOf(baseline, origins[row].value.id).Some? && PathOf(baseline, origins[row].value.id).value !in removed
  {
    var id := origins[row].value.id;
    var i :| 0 <= i < |baseline| && baseline[i].id == id && baseline[i].path == PathOf(baseline, id).value;
    assert origins[row] == Some(Snapshot(baseline[i].id));
  }

  /** The same entry, as the new snapshot counts it. */
  method Renumber(origins: seq<Option<Origin>>, baseline: seq<Entry>, removed: set<string>, latest: seq<Entry>)
      returns (r: seq<Option<Origin>>)
    requires SoundSnapshot(baseline) && SoundSnapshot(latest) && Known(origins, baseline)
    requires !Pending(origins, baseline, removed) && Listed(Surviving(baseline, removed)) == Listed(latest)
    ensures SameEntries(origins, baseline, r, latest)
  {
    hide SoundSnapshot, Known, Pending, PathOf, IdOf, Listed, Surviving;
    r := origins;
    for row := 0 to |origins|
      invariant |r| == |origins|
      invariant forall k :: row <= k < |r| ==> r[k] == origins[k]
      invariant forall k :: 0 <= k < row ==> SameEntry(origins[k], baseline, r[k], latest)
    {
      var origin := origins[row];
      if origin.Some? && origin.value.Snapshot? {
        NotPending(origins, baseline, removed, row);
        SurvivorIsListed(baseline, removed, latest, origin.value.id);
        var path := PathOf(baseline, origin.value.id);
        r := r[row := Some(Snapshot(IdOf(latest, path.value).value))];
      }
    }
  }

  class DirectoryBuffer {
    var baseline: seq<Entry>
    var rowOrigins: seq<Option<Origin>>
    var detached: Detached

    ghost predicate Valid()
      reads this
    {
      SoundSnapshot(baseline) && Known(rowOrigins, baseline) && Laws.OnlyTransfers(detached)
    }

    constructor Laid(snapshot: seq<Entry>, entries: seq<Entry>)
      requires SoundSnapshot(snapshot) && forall i :: 0 <= i < |entries| ==> entries[i] in snapshot
      ensures Valid() && baseline == snapshot && detached == map[]
      ensures rowOrigins == Runs.ListedOrigins(entries)
    {
      baseline, detached := snapshot, map[];
      rowOrigins := Runs.ListedOrigins(entries);
      new;
      ListedIsKnown(entries, snapshot);
    }

    /** Lays a snapshot out in `order` as lines and the identities behind them. A
        name that cannot be shown refuses the whole listing. */
    static method FromSnapshot(snapshot: seq<Entry>, order: seq<nat>)
        returns (directory: DirectoryBuffer?, shown: Option<seq<string>>)
      requires SoundSnapshot(snapshot) && forall k :: 0 <= k < |order| ==> order[k] < |snapshot|
      ensures directory == null <==> shown.None?
      ensures shown.None? <==> !Runs.AllNamed(Pick(snapshot, order))
      ensures shown.Some? ==> shown.value == Runs.ListedLines(Pick(snapshot, order))
      ensures directory != null ==>
        && fresh(directory) && directory.Valid() && directory.baseline == snapshot && directory.detached == map[]
        && directory.rowOrigins == Runs.ListedOrigins(Pick(snapshot, order))
    {
      var entries := Pick(snapshot, order);
      var labels := Labels(entries);
      if labels.None? {
        return null, None;
      }
      directory := new DirectoryBuffer.Laid(snapshot, entries);
      shown := Some(labels.value + [""]);
    }

    method Reconcile(before: seq<string>, after: seq<string>)
      requires Valid()
      modifies this`rowOrigins, this`detached
      ensures Valid()
      ensures (rowOrigins, detached)
           == Reconciled(Edit(Resized(old(rowOrigins), |before|), before, after, baseline), old(detached))
      ensures |rowOrigins| == |after| && forall r :: 0 <= r < |after| ==>
        rowOrigins[r] == Rows.IdentityOf(Edit(Resized(old(rowOrigins), |before|), before, after, baseline),
                                         old(detached), r)
    {
      var e := Edit(Resized(rowOrigins, |before|), before, after, baseline);
      ResizedIsKnown(rowOrigins, |before|, baseline);
      ReconciledIsKnown(e, detached);
      Laws.ReconciledAside(e, detached);
      forall r | 0 <= r < |after| ensures Reconciled(e, detached).0[r] == Rows.IdentityOf(e, detached, r) {
        Rows.ReconciledIs(e, detached, r);
      }
      hide Rows.IdentityOf;
      hide LabelPass, BaselinePass, DetachedPass, InPlacePass, InOrderPass, PutAsideAll, LeftOver, Known,
           Laws.OnlyTransfers, SoundSnapshot;
      var origins, resolved, matched;
      ghost var via;
      origins, resolved, matched, via := Passes.ClaimByLabel(e, detached);
      ghost var m := Matching(origins, resolved, matched, detached, via);
      origins, resolved, via := Passes.RestoreFromBaseline(e, m, origins, resolved);
      m := m.(origins := origins, resolved := resolved, via := via);
      var aside;
      origins, resolved, aside, via := Passes.TakeUpDetached(e, m, origins, resolved, detached);
      m := m.(origins := origins, resolved := resolved, detached := aside, via := via);
      aside := map text | text in aside && aside[text] != [] :: aside[text];
      m := m.(detached := aside);
      origins, resolved, matched, via := Passes.KeepInPlace(e, m, origins, resolved, matched);
      m := m.(origins := origins, resolved := resolved, matched := matched, via := via);
      assert m == Claimed(e, detached);
      var rest := Passes.Unclaimeds(e, matched);
      origins, rest, via := Passes.HandOut(e, m, origins, resolved, rest);
      aside := Passes.SetAside(e, aside, rest);
      rowOrigins, detached := origins, aside;
    }

    /** Accepts the rows as they stand: the snapshot is read again, and the rows
        keep their order. */
    method RefreshBaselinePreservingOrder(lines: seq<Line>, latest: seq<Entry>)
        returns (shown: Option<seq<string>>, ghost entries: seq<Entry>)
      requires Valid() && SoundSnapshot(latest)
      modifies this
      ensures Valid()
      ensures shown.None? <==> Unreadable in lines || !Runs.AllNamed(latest)
      ensures shown.None? ==> unchanged(this)
      ensures shown.Some? ==>
        && OrderedBy(lines, latest, entries) && Runs.AllNamed(entries) && shown.value == Runs.ListedLines(entries)
        && rowOrigins == Runs.ListedOrigins(entries) && baseline == latest && detached == map[]
    {
      shown, entries := None, [];
      var picked := PickRows(lines, latest);
      if picked.None? {
        return;
      }
      hide RankedBelow, SoundSnapshot, Known;
      var rows := Pick(latest, picked.value);
      entries := rows;
      assert OrderedBy(lines, latest, entries);
      OrderedArranges(lines, latest, entries);
      var labels := Labels(rows);
      if labels.None? {
        return;
      }
      shown := Some(labels.value + [""]);
      baseline, detached := latest, map[];
      rowOrigins := Runs.ListedOrigins(rows);
      ListedIsKnown(rows, latest);
    }

    /** Moves the listing past removals that another explorer has completed. */
    method RebaseAfterExternalRemovals(removed: set<string>, latest: seq<Entry>) returns (r: Outcome)
      requires Valid() && SoundSnapshot(latest)
      modifies this`baseline, this`rowOrigins
      ensures Valid()
      ensures r == Unaffected <==> forall i :: 0 <= i < |old(baseline)| ==> old(baseline)[i].path !in removed
      ensures r == Refused <==>
        && (exists i :: 0 <= i < |old(baseline)| && old(baseline)[i].path in removed)
        && (Pending(old(rowOrigins), old(baseline), removed)
            || Listed(Surviving(old(baseline), removed)) != Listed(latest))
      ensures r != Advanced ==> baseline == old(baseline) && rowOrigins == old(rowOrigins)
      ensures r == Advanced ==> baseline == latest && SameEntries(old(rowOrigins), old(baseline), rowOrigins, latest)
    {
      var gone := set i | 0 <= i < |baseline| && baseline[i].path in removed :: baseline[i].id;
      if gone == {} {
        assert forall i :: 0 <= i < |baseline| && baseline[i].path in removed ==> baseline[i].id in gone;
        return Unaffected;
      }
      var pending := AnyStandsFor(rowOrigins, gone);
      assert pending <==> Pending(rowOrigins, baseline, removed) by {
        PendingIsGone(rowOrigins, baseline, removed, gone);
      }
      if pending {
        return Refused;
      }
      if Listed(Surviving(baseline, removed)) != Listed(latest) {
        return Refused;
      }
      rowOrigins := Renumber(rowOrigins, baseline, removed, latest);
      SameEntriesAreKnown(old(rowOrigins), baseline, rowOrigins, latest);
      baseline := latest;
      r := Advanced;
    }
  }

  method IndexOf(latest: seq<Entry>, path: string) returns (index: nat)
    ensures index <= |latest|
    ensures index < |latest| ==> latest[index].path == path
    ensures index == |latest| ==> forall i :: 0 <= i < |latest| ==> latest[i].path != path
  {
    index := 0;
    while index < |latest| && latest[index].path != path
      invariant index <= |latest|
      invariant forall i :: 0 <= i < index ==> latest[i].path != path
    {
      index := index + 1;
    }
  }

  method Labels(entries: seq<Entry>) returns (labels: Option<seq<string>>)
    ensures labels.None? <==> !Runs.AllNamed(entries)
    ensures labels.Some? ==> labels.value + [""] == Runs.ListedLines(entries)
  {
    var names: seq<string> := [];
    for i := 0 to |entries|
      invariant |names| == i && Runs.AllNamed(entries[..i])
      invariant forall k :: 0 <= k < i ==> entries[k].name == Some(names[k])
    {
      if entries[i].name.None? {
        return None;
      }
      names := names + [entries[i].name.value];
    }
    return Some(names);
  }

  lemma {:induction false} SeenIsPicked(latest: seq<Entry>, picked: seq<nat>, seen: set<nat>, index: nat)
    requires SoundSnapshot(latest) && index < |latest| && SeenIs(latest, picked, seen)
    ensures latest[index].id in seen <==> index in picked
    ensures SeenIs(latest, picked + [index], seen + {latest[index].id})
  {
    var more, all := picked + [index], seen + {latest[index].id};
    forall id | id in all ensures exists k :: 0 <= k < |more| && more[k] < |latest| && latest[more[k]].id == id {
      if id in seen {
        var k :| 0 <= k < |picked| && picked[k] < |latest| && latest[picked[k]].id == id;
        assert more[k] == picked[k];
      } else {
        assert more[|picked|] == index;
      }
    }
  }
}
