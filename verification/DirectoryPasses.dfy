/** The passes of a reconciliation, row by row over the new lines. */
module DirectoryPasses {
  import opened Wrappers
  import opened Directories

  /** Exact labels claim the rows that said them. */
  method ClaimByLabel(e: Edit, ghost aside: Detached)
      returns (origins: seq<Option<Origin>>, resolved: seq<bool>, matched: seq<bool>, ghost via: seq<Via>)
    requires e.Fits()
    ensures origins == LabelPass(e, Fresh(e, aside), |e.after|).origins
    ensures resolved == LabelPass(e, Fresh(e, aside), |e.after|).resolved
    ensures matched == LabelPass(e, Fresh(e, aside), |e.after|).matched
    ensures Matching(origins, resolved, matched, aside, via) == LabelPass(e, Fresh(e, aside), |e.after|)
  {
    hide ByLabel;
    origins, resolved := seq(|e.after|, _ => None), seq(|e.after|, _ => false);
    matched := seq(|e.previous|, _ => false);
    via := seq(|e.after|, _ => Unset);
    for row := 0 to |e.after|
      invariant Matching(origins, resolved, matched, aside, via) == LabelPass(e, Fresh(e, aside), row)
    {
      origins, resolved, matched, via := ClaimRow(e, aside, origins, resolved, matched, via, row);
    }
  }

  method ClaimRow(e: Edit, ghost aside: Detached, origins: seq<Option<Origin>>, resolved: seq<bool>, matched: seq<bool>,
                  ghost via: seq<Via>, row: nat)
      returns (origins': seq<Option<Origin>>, resolved': seq<bool>, matched': seq<bool>, ghost via': seq<Via>)
    requires Matching(origins, resolved, matched, aside, via).Fits(e) && row < |e.after|
    ensures origins' == ByLabel(e, Matching(origins, resolved, matched, aside, via), row).origins
    ensures resolved' == ByLabel(e, Matching(origins, resolved, matched, aside, via), row).resolved
    ensures matched' == ByLabel(e, Matching(origins, resolved, matched, aside, via), row).matched
    ensures Matching(origins', resolved', matched', aside, via')
         == ByLabel(e, Matching(origins, resolved, matched, aside, via), row)
  {
    origins', resolved', matched', via' := origins, resolved, matched, via;
    var text := e.after[row];
    if text == "" {
      return;
    }
    var free := NextSaying(e.before, matched, text);
    if free < |e.before| {
      matched' := matched[free := true];
      origins' := origins[row := e.previous[free]];
      resolved' := resolved[row := true];
      via' := via[row := FromRow(free)];
      return;
    }
    var first := NextSaying(e.before, seq(|e.before|, _ => false), text);
    if first < |e.before| && |e.after| > |e.before| && e.previous[first].Some? {
      var alike := AllAlike(e, text, first);
      if alike {
        origins' := origins[row := e.previous[first]];
        resolved' := resolved[row := true];
        via' := via[row := Copied(first)];
      }
    }
  }

  /** The first old row that says `text` and is not taken, or the end. */
  method NextSaying(before: seq<string>, taken: seq<bool>, text: string) returns (r: nat)
    requires |taken| == |before|
    ensures r <= |before|
    ensures r < |before| ==> Unclaimed(before, taken, text, 0) == Some(r)
    ensures r == |before| ==> Unclaimed(before, taken, text, 0) == None
    ensures r < |before| && (forall i :: 0 <= i < |taken| ==> !taken[i]) ==> FirstSaying(before, text, 0) == Some(r)
    ensures r == |before| && (forall i :: 0 <= i < |taken| ==> !taken[i]) ==> FirstSaying(before, text, 0) == None
  {
    r := 0;
    while r < |before| && (before[r] != text || taken[r])
      invariant r <= |before|
      invariant forall i :: 0 <= i < r ==> before[i] != text || taken[i]
    {
      r := r + 1;
    }
  }

  method AllAlike(e: Edit, text: string, first: nat) returns (alike: bool)
    requires e.Fits() && first < |e.previous|
    ensures alike <==> SayAlike(e, text, first)
  {
    for r := 0 to |e.before|
      invariant forall k :: 0 <= k < r && e.before[k] == text ==> e.previous[k] == e.previous[first]
    {
      if e.before[r] == text && e.previous[r] != e.previous[first] {
        return false;
      }
    }
    return true;
  }

  /** Labels of the snapshot that no row carries come back to their entries. */
  method RestoreFromBaseline(e: Edit, ghost m: Matching, origins: seq<Option<Origin>>, resolved: seq<bool>)
      returns (origins': seq<Option<Origin>>, resolved': seq<bool>, ghost via: seq<Via>)
    requires m.Fits(e) && m.origins == origins && m.resolved == resolved
    ensures origins' == BaselinePass(e, m, |e.after|).origins && resolved' == BaselinePass(e, m, |e.after|).resolved
    ensures m.(origins := origins', resolved := resolved', via := via) == BaselinePass(e, m, |e.after|)
  {
    var carried :=
      set r | 0 <= r < |e.previous| && e.previous[r].Some? && e.previous[r].value.Snapshot? :: e.previous[r].value.id;
    origins', resolved', via := origins, resolved, m.via;
    for row := 0 to |e.after|
      invariant m.(origins := origins', resolved := resolved', via := via) == BaselinePass(e, m, row)
    {
      ghost var now := m.(origins := origins', resolved := resolved', via := via);
      if !resolved'[row] {
        var id := LabelId(e.baseline, e.after[row]);
        if id.Some? && id.value !in carried {
          assert !e.Carries(id.value);
          origins' := origins'[row := Some(Snapshot(id.value))];
          resolved' := resolved'[row := true];
          via := via[row := Restored(id.value)];
        }
      }
      assert m.(origins := origins', resolved := resolved', via := via) == ByBaseline(e, now, row);
    }
  }

  /** Transfers that were cut away are taken up where their label comes back. */
  method TakeUpDetached(e: Edit, ghost m: Matching, origins: seq<Option<Origin>>, resolved: seq<bool>,
                        detached: Detached)
      returns (origins': seq<Option<Origin>>, resolved': seq<bool>, detached': Detached, ghost via: seq<Via>)
    requires m.Fits(e) && m.origins == origins && m.resolved == resolved && m.detached == detached
    ensures origins' == DetachedPass(e, m, |e.after|).origins && resolved' == DetachedPass(e, m, |e.after|).resolved
    ensures detached' == DetachedPass(e, m, |e.after|).detached
    ensures m.(origins := origins', resolved := resolved', detached := detached', via := via)
            == DetachedPass(e, m, |e.after|)
  {
    origins', resolved', detached', via := origins, resolved, detached, m.via;
    for row := 0 to |e.after|
      invariant m.(origins := origins', resolved := resolved', detached := detached', via := via)
          == DetachedPass(e, m, row)
    {
      var text := e.after[row];
      if !resolved'[row] && text != "" && text in detached' {
        var kept := detached'[text];
        if kept == [] {
          origins' := origins'[row := None];
        } else {
          origins' := origins'[row := Some(kept[|kept| - 1])];
          detached' := detached'[text := kept[..|kept| - 1]];
        }
        resolved' := resolved'[row := true];
        via := via[row := Popped];
      }
    }
  }

  /** An in-place edit keeps each unclaimed row's own identity. */
  method KeepInPlace(e: Edit, ghost m: Matching, origins: seq<Option<Origin>>, resolved: seq<bool>, matched: seq<bool>)
      returns (origins': seq<Option<Origin>>, resolved': seq<bool>, matched': seq<bool>, ghost via: seq<Via>)
    requires m.Fits(e) && m.origins == origins && m.resolved == resolved && m.matched == matched
    ensures origins' == InPlacePass(e, m, |e.after|).origins && resolved' == InPlacePass(e, m, |e.after|).resolved
    ensures matched' == InPlacePass(e, m, |e.after|).matched
    ensures m.(origins := origins', resolved := resolved', matched := matched', via := via)
            == InPlacePass(e, m, |e.after|)
  {
    origins', resolved', matched', via := origins, resolved, matched, m.via;
    if |e.before| != |e.after| {
      NotInPlace(e, m, |e.after|);
      return;
    }
    for row := 0 to |e.after|
      invariant m.(origins := origins', resolved := resolved', matched := matched', via := via)
          == InPlacePass(e, m, row)
    {
      if !resolved'[row] && !matched'[row] {
        origins' := origins'[row := e.previous[row]];
        matched' := matched'[row := true];
        resolved' := resolved'[row := true];
        via := via[row := FromRow(row)];
      }
    }
  }

  lemma {:induction false} NotInPlace(e: Edit, m: Matching, n: nat)
    requires m.Fits(e) && n <= |e.after| && !e.SameSize()
    ensures InPlacePass(e, m, n) == m
  {
    if n > 0 {
      NotInPlace(e, m, n - 1);
    }
  }

  /** The old rows nobody has claimed, as far as they stand for something. */
  method Unclaimeds(e: Edit, matched: seq<bool>) returns (rows: seq<nat>)
    requires e.Fits() && |matched| == |e.previous|
    ensures rows == LeftOver(e, matched, 0)
  {
    hide LeftOver;
    rows := [];
    NothingLeftOver(e, matched);
    for row := 0 to |e.previous|
      invariant rows + LeftOver(e, matched, row) == LeftOver(e, matched, 0)
    {
      LeaveOver(e, matched, rows, row);
      if !matched[row] && e.previous[row].Some? {
        rows := rows + [row];
      }
    }
  }

  lemma {:induction false} NothingLeftOver(e: Edit, matched: seq<bool>)
    requires e.Fits() && |matched| == |e.previous|
    ensures LeftOver(e, matched, |e.previous|) == []
  {
  }

  lemma {:induction false} LeaveOver(e: Edit, matched: seq<bool>, rows: seq<nat>, row: nat)
    requires e.Fits() && |matched| == |e.previous| && row < |e.previous|
    ensures rows + LeftOver(e, matched, row)
         == (if !matched[row] && e.previous[row].Some? then rows + [row] else rows) + LeftOver(e, matched, row + 1)
  {
  }

  /** Every old row named in `rows` exists. */
  predicate OldRows(e: Edit, rows: seq<nat>) {
    forall k :: 0 <= k < |rows| ==> rows[k] < |e.previous|
  }

  lemma {:induction false} OneMoreRow(e: Edit, m: Matching, all: seq<nat>, n: nat)
    requires m.Fits(e) && 0 < n <= |e.after| && OldRows(e, all)
    ensures InOrderPass(e, m, all, n)
         == InOrder(e, InOrderPass(e, m, all, n - 1).0, InOrderPass(e, m, all, n - 1).1, n - 1)
  {
  }

  /** The leftovers go to the remaining changed rows, in order. */
  method HandOut(e: Edit, ghost m: Matching, origins: seq<Option<Origin>>, resolved: seq<bool>, all: seq<nat>)
      returns (origins': seq<Option<Origin>>, rest: seq<nat>, ghost via: seq<Via>)
    requires m.Fits(e) && m.origins == origins && m.resolved == resolved
    requires forall k :: 0 <= k < |all| ==> all[k] < |e.previous|
    ensures m.(origins := origins', via := via) == InOrderPass(e, m, all, |e.after|).0
    ensures rest == InOrderPass(e, m, all, |e.after|).1
  {
    origins', rest, via := origins, all, m.via;
    assert OldRows(e, all);
    NoRowsYet(e, m, all);
    ghost var now := m;
    hide InOrderPass, InOrder, OldRows;
    for row := 0 to |e.after|
      invariant OldRows(e, rest)
      invariant now.Fits(e) && now.origins == origins' && now.resolved == resolved
      invariant now == m.(origins := origins', via := via)
      invariant now == InOrderPass(e, m, all, row).0 && rest == InOrderPass(e, m, all, row).1
    {
      OneMoreRow(e, m, all, row + 1);
      origins', rest, via := HandRow(e, now, origins', resolved[row], rest, row);
      now := m.(origins := origins', via := via);
    }
  }

  method HandRow(e: Edit, ghost m: Matching, origins: seq<Option<Origin>>, resolved: bool, rest: seq<nat>, row: nat)
      returns (origins': seq<Option<Origin>>, rest': seq<nat>, ghost via: seq<Via>)
    requires m.Fits(e) && row < |e.after| && m.origins == origins && m.resolved[row] == resolved && OldRows(e, rest)
    ensures OldRows(e, rest')
    ensures m.(origins := origins', via := via) == InOrder(e, m, rest, row).0 && rest' == InOrder(e, m, rest, row).1
    ensures |origins'| == |via| == |e.after|
  {
    origins', rest', via := origins, rest, m.via;
    if !resolved && e.after[row] != "" {
      if rest == [] {
        origins' := origins[row := None];
      } else {
        origins' := origins[row := e.previous[rest[0]]];
        via := via[row := FromRow(rest[0])];
        rest' := rest[1..];
      }
    }
  }

  lemma {:induction false} NoRowsYet(e: Edit, m: Matching, all: seq<nat>)
    requires m.Fits(e) && OldRows(e, all)
    ensures InOrderPass(e, m, all, 0).0 == m && InOrderPass(e, m, all, 0).1 == all
  {
  }

  /** Transfers still in hand are put aside under what their rows said. */
  method SetAside(e: Edit, detached: Detached, rest: seq<nat>) returns (detached': Detached)
    requires e.Fits() && (forall k :: 0 <= k < |rest| ==> rest[k] < |e.previous|)
    ensures detached' == PutAsideAll(e, detached, rest)
  {
    detached' := detached;
    for k := 0 to |rest|
      invariant detached' == PutAsideAll(e, detached, rest[..k])
    {
      assert rest[..k + 1][..k] == rest[..k];
      var text, origin := e.before[rest[k]], e.previous[rest[k]];
      if origin.Some? && origin.value.Transfer? && text != "" {
        detached' := detached'[text := (if text in detached' then detached'[text] else []) + [origin.value]];
      }
    }
    assert rest[..|rest|] == rest;
  }
}
