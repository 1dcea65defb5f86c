/** What reconciling keeps: no identity is shared, no transfer is lost, and
    labels that only moved keep their own entries. */
module DirectoryLaws {
  import opened Wrappers
  import opened Directories

  /** Where the identity of one row comes from. */
  ghost predicate RowTold(e: Edit, m: Matching, row: nat)
    requires m.Fits(e) && row < |e.after|
  {
    match m.via[row]
    case Unset => m.origins[row].None?
    case FromRow(r) => r < |e.previous| && m.origins[row] == e.previous[r]
    case Copied(r) =>
      && r < |e.previous| && e.before[r] == e.after[row] != "" && m.origins[row] == e.previous[r]
      && Repeats(e.after, row)
    case Restored(id) =>
      m.origins[row] == Some(Snapshot(id)) && !e.Carries(id) && LabelId(e.baseline, e.after[row]) == Some(id)
    case Popped => m.origins[row].None? || m.origins[row].value.Transfer?
  }

  /** Another row says the same. */
  ghost predicate Repeats(lines: seq<string>, row: nat)
    requires row < |lines|
  {
    exists k :: 0 <= k < |lines| && k != row && lines[k] == lines[row]
  }

  /** Every identity is accounted for, and no old row is used twice. */
  ghost predicate Told(e: Edit, m: Matching) {
    && m.Fits(e)
    && (forall row :: 0 <= row < |e.after| ==> RowTold(e, m, row))
    && (forall i, j :: 0 <= i < j < |e.after| && m.via[i].FromRow? ==> m.via[i] != m.via[j])
  }

  /** While rows are claimed: the flags say what has been claimed, and by whom. */
  ghost predicate Claiming(e: Edit, m: Matching) {
    && Told(e, m)
    && (forall row :: 0 <= row < |e.after| ==> (m.resolved[row] <==> m.via[row] != Unset))
    && (forall row :: 0 <= row < |e.after| && m.via[row].FromRow? ==>
          m.via[row].row < |m.matched| && m.matched[m.via[row].row])
    && (forall r :: 0 <= r < |e.previous| && m.matched[r] ==> Used(e, m, r))
  }

  ghost predicate Used(e: Edit, m: Matching, r: nat)
    requires m.Fits(e)
  {
    exists row :: 0 <= row < |e.after| && m.via[row] == FromRow(r)
  }

  predicate OnlyTransfers(detached: Detached) {
    forall text, k :: text in detached && 0 <= k < |detached[text]| ==> detached[text][k].Transfer?
  }

  // --------------------------------------------------------- single claims

  lemma {:induction false} ClaimKeeps(e: Edit, m: Matching, row: nat, source: nat)
    requires Claiming(e, m) && row < |e.after| && source < |e.previous|
    requires !m.resolved[row] && !m.matched[source]
    ensures Claiming(e, m.Match(source).Resolve(row, e.previous[source], FromRow(source)))
  {
    var r := m.Match(source).Resolve(row, e.previous[source], FromRow(source));
    forall k | 0 <= k < |e.after| ensures RowTold(e, r, k) { assert RowTold(e, m, k); }
    forall i, j | 0 <= i < j < |e.after| && r.via[i].FromRow? ensures r.via[i] != r.via[j] {
      if i == row || j == row {
        assert m.via[i] != FromRow(source) && m.via[j] != FromRow(source);
      }
    }
    forall s | 0 <= s < |e.previous| && r.matched[s] ensures Used(e, r, s) {
      if s == source {
        assert r.via[row] == FromRow(source);
      } else {
        assert Used(e, m, s);
        var k :| 0 <= k < |e.after| && m.via[k] == FromRow(s);
        assert r.via[k] == FromRow(s);
      }
    }
  }

  lemma {:induction false} ResolveKeeps(e: Edit, m: Matching, row: nat, origin: Option<Origin>, how: Via)
    requires Claiming(e, m) && row < |e.after| && !m.resolved[row] && !how.Unset? && !how.FromRow?
    requires RowTold(e, m.Resolve(row, origin, how), row)
    ensures Claiming(e, m.Resolve(row, origin, how))
  {
    var r := m.Resolve(row, origin, how);
    forall k | 0 <= k < |e.after| ensures RowTold(e, r, k) { assert RowTold(e, m, k); }
    forall s | 0 <= s < |e.previous| && r.matched[s] ensures Used(e, r, s) {
      assert Used(e, m, s);
      var k :| 0 <= k < |e.after| && m.via[k] == FromRow(s);
      assert r.via[k] == FromRow(s);
    }
  }

  lemma {:induction false} DetachedIsApart(e: Edit, m: Matching, detached: Detached)
    requires Claiming(e, m)
    ensures Claiming(e, m.(detached := detached))
  {
    var r := m.(detached := detached);
    forall k | 0 <= k < |e.after| ensures RowTold(e, r, k) { assert RowTold(e, m, k); }
    forall s | 0 <= s < |e.previous| && r.matched[s] ensures Used(e, r, s) { assert Used(e, m, s); }
  }

  // ----------------------------------------------------------------- passes

  /** Labels of new rows that name anything are pairwise distinct. */
  predicate DistinctLabels(lines: seq<string>) {
    forall i, j :: 0 <= i < j < |lines| && lines[i] != "" ==> lines[i] != lines[j]
  }

  /** In the first pass only equal labels have been claimed so far. */
  ghost predicate ByLabelOnly(e: Edit, m: Matching, n: nat) {
    && Claiming(e, m)
    && n <= |e.after|
    && (forall row :: n <= row < |e.after| ==> m.via[row] == Unset)
    && (forall row :: 0 <= row < n ==> m.via[row].Unset? || m.via[row].FromRow? || m.via[row].Copied?)
    && (forall row :: 0 <= row < n && m.via[row].FromRow? ==>
          m.via[row].row < |e.before| && e.before[m.via[row].row] == e.after[row] != "")
  }

  lemma {:induction false} FreshIsClaiming(e: Edit, detached: Detached)
    requires e.Fits()
    ensures ByLabelOnly(e, Fresh(e, detached), 0)
  {
  }

  lemma {:induction false} LabelPassClaims(e: Edit, detached: Detached, n: nat)
    requires e.Fits() && n <= |e.after|
    ensures ByLabelOnly(e, LabelPass(e, Fresh(e, detached), n), n)
    ensures LabelPass(e, Fresh(e, detached), n).detached == detached
  {
    if n == 0 {
      FreshIsClaiming(e, detached);
    } else {
      LabelPassClaims(e, detached, n - 1);
      ByLabelClaims(e, LabelPass(e, Fresh(e, detached), n - 1), n - 1);
    }
  }

  lemma {:induction false} ByLabelClaims(e: Edit, m: Matching, row: nat)
    requires row < |e.after| && ByLabelOnly(e, m, row)
    ensures ByLabelOnly(e, ByLabel(e, m, row), row + 1)
    ensures ByLabel(e, m, row).detached == m.detached
  {
    var text := e.after[row];
    var first := FirstSaying(e.before, text, 0);
    if text != "" && first.Some? {
      var source := Unclaimed(e.before, m.matched, text, 0);
      hide Claiming, Told, FirstSaying, Unclaimed;
      assert !m.resolved[row] by { UnsetIsUnresolved(e, m, row); }
      if source.None? {
        ClaimedElsewhere(e, m, row);
      }
      if source.Some? {
        ClaimKeeps(e, m, row, source.value);
      } else if |e.after| > |e.before| && e.previous[first.value].Some? && SayAlike(e, text, first.value) {
        ResolveKeeps(e, m, row, e.previous[first.value], Copied(first.value));
      }
    }
  }

  /** A label none of whose old rows is free has been claimed by another row. */
  lemma {:induction false} ClaimedElsewhere(e: Edit, m: Matching, row: nat)
    requires row < |e.after| && ByLabelOnly(e, m, row)
    requires e.after[row] != "" && FirstSaying(e.before, e.after[row], 0).Some?
    requires Unclaimed(e.before, m.matched, e.after[row], 0).None?
    ensures Repeats(e.after, row)
  {
    var first := FirstSaying(e.before, e.after[row], 0).value;
    assert m.matched[first];
    assert Used(e, m, first);
    var k :| 0 <= k < |e.after| && m.via[k] == FromRow(first);
    assert k < row && e.after[k] == e.after[row];
  }

  lemma {:induction false} UnsetIsUnresolved(e: Edit, m: Matching, row: nat)
    requires Claiming(e, m) && row < |e.after| && m.via[row] == Unset
    ensures !m.resolved[row]
  {
  }

  lemma {:induction false} ByBaselineClaims(e: Edit, m: Matching, row: nat)
    requires row < |e.after| && Claiming(e, m)
    ensures Claiming(e, ByBaseline(e, m, row))
    ensures ByBaseline(e, m, row).detached == m.detached
  {
    var id := LabelId(e.baseline, e.after[row]);
    hide Claiming, Told;
    if id.Some? && !m.resolved[row] && !e.Carries(id.value) {
      ResolveKeeps(e, m, row, Some(Snapshot(id.value)), Restored(id.value));
    }
  }

  lemma {:induction false} ByDetachedClaims(e: Edit, m: Matching, row: nat)
    requires row < |e.after| && Claiming(e, m) && OnlyTransfers(m.detached)
    ensures Claiming(e, ByDetached(e, m, row)) && OnlyTransfers(ByDetached(e, m, row).detached)
  {
    var text := e.after[row];
    if !m.resolved[row] && text != "" && text in m.detached {
      var kept := m.detached[text];
      if kept == [] {
        ResolveKeeps(e, m, row, None, Popped);
      } else {
        DetachedIsApart(e, m, m.detached[text := kept[..|kept| - 1]]);
        ResolveKeeps(e, m.(detached := m.detached[text := kept[..|kept| - 1]]), row, Some(kept[|kept| - 1]), Popped);
      }
    }
  }

  lemma {:induction false} InPlaceClaims(e: Edit, m: Matching, row: nat)
    requires row < |e.after| && Claiming(e, m)
    ensures Claiming(e, InPlace(e, m, row))
    ensures InPlace(e, m, row).detached == m.detached
  {
    if e.SameSize() && !m.resolved[row] && !m.matched[row] {
      ClaimKeeps(e, m, row, row);
    }
  }

  lemma {:induction false} BaselinePassClaims(e: Edit, m: Matching, n: nat)
    requires n <= |e.after| && Claiming(e, m)
    ensures Claiming(e, BaselinePass(e, m, n)) && BaselinePass(e, m, n).detached == m.detached
  {
    hide Claiming, ByBaseline;
    if n > 0 {
      assert m.Fits(e) by { ClaimingFits(e, m); }
      BaselinePassClaims(e, m, n - 1);
      ByBaselineClaims(e, BaselinePass(e, m, n - 1), n - 1);
    }
  }

  lemma {:induction false} ClaimingFits(e: Edit, m: Matching)
    requires Claiming(e, m)
    ensures m.Fits(e)
  {
  }

  lemma {:induction false} DetachedPassClaims(e: Edit, m: Matching, n: nat)
    requires n <= |e.after| && Claiming(e, m) && OnlyTransfers(m.detached)
    ensures Claiming(e, DetachedPass(e, m, n)) && OnlyTransfers(DetachedPass(e, m, n).detached)
  {
    hide Claiming, ByDetached, OnlyTransfers;
    if n > 0 {
      assert m.Fits(e) by { ClaimingFits(e, m); }
      DetachedPassClaims(e, m, n - 1);
      ByDetachedClaims(e, DetachedPass(e, m, n - 1), n - 1);
    }
  }

  lemma {:induction false} InPlacePassClaims(e: Edit, m: Matching, n: nat)
    requires n <= |e.after| && Claiming(e, m)
    ensures Claiming(e, InPlacePass(e, m, n)) && InPlacePass(e, m, n).detached == m.detached
  {
    hide Claiming, InPlace;
    if n > 0 {
      assert m.Fits(e) by { ClaimingFits(e, m); }
      InPlacePassClaims(e, m, n - 1);
      InPlaceClaims(e, InPlacePass(e, m, n - 1), n - 1);
    }
  }

  lemma {:induction false} ClaimedIsClaiming(e: Edit, detached: Detached)
    requires e.Fits() && OnlyTransfers(detached)
    ensures Claiming(e, Claimed(e, detached)) && OnlyTransfers(Claimed(e, detached).detached)
  {
    var n := |e.after|;
    LabelPassClaims(e, detached, n);
    var m := LabelPass(e, Fresh(e, detached), n);
    hide Claiming, OnlyTransfers, LabelPass, BaselinePass, DetachedPass, InPlacePass;
    assert Claiming(e, m);
    BaselinePassClaims(e, m, n);
    DetachedPassClaims(e, BaselinePass(e, m, n), n);
    var d := DetachedPass(e, BaselinePass(e, m, n), n);
    DetachedIsApart(e, d, WithoutEmpty(d.detached));
    InPlacePassClaims(e, d.(detached := WithoutEmpty(d.detached)), n);
    WithoutEmptyKeeps(d.detached);
  }

  lemma {:induction false} WithoutEmptyKeeps(detached: Detached)
    requires OnlyTransfers(detached)
    ensures OnlyTransfers(WithoutEmpty(detached))
  {
  }

  // --------------------------------------------------------------- the rest

  /** While the rest is handed out: what is still in hand is used nowhere. */
  ghost predicate HandingOut(e: Edit, m: Matching, all: seq<nat>, rest: seq<nat>) {
    && Told(e, m)
    && (forall k :: 0 <= k < |all| ==> all[k] < |e.previous|)
    && (forall k, l :: 0 <= k < l < |all| ==> all[k] < all[l])
    && |rest| <= |all| && (forall k :: 0 <= k < |rest| ==> rest[k] == all[|all| - |rest| + k])
    && (forall k :: 0 <= k < |rest| ==> !Used(e, m, rest[k]))
    && (forall k :: 0 <= k < |all| - |rest| ==> Used(e, m, all[k]))
  }

  lemma {:induction false} InOrderHandsOut(e: Edit, m: Matching, all: seq<nat>, rest: seq<nat>, row: nat)
    requires row < |e.after| && HandingOut(e, m, all, rest)
    requires !m.resolved[row] ==> m.via[row] == Unset
    ensures HandingOut(e, InOrder(e, m, rest, row).0, all, InOrder(e, m, rest, row).1)
    ensures forall r :: Used(e, m, r) ==> Used(e, InOrder(e, m, rest, row).0, r)
    ensures InOrder(e, m, rest, row).0.detached == m.detached
    ensures InOrder(e, m, rest, row).0.resolved == m.resolved
    ensures forall k :: 0 <= k < |e.after| && k != row ==> InOrder(e, m, rest, row).0.via[k] == m.via[k]
  {
    var (r, rest') := InOrder(e, m, rest, row);
    forall k | 0 <= k < |e.after| ensures RowTold(e, r, k) { assert RowTold(e, m, k); }
    forall s | Used(e, m, s) ensures Used(e, r, s) {
      var k :| 0 <= k < |e.after| && m.via[k] == FromRow(s);
      assert r.via[k] == FromRow(s);
    }
    if rest' != rest {
      assert !Used(e, m, rest[0]);
      assert r.via[row] == FromRow(rest[0]);
      assert Used(e, r, rest[0]);
      forall k | 0 <= k < |rest'| ensures !Used(e, r, rest'[k]) {
        assert rest'[k] == rest[k + 1] && rest[0] < rest[k + 1];
        assert !Used(e, m, rest[k + 1]);
      }
      forall k | 0 <= k < |all| - |rest'| ensures Used(e, r, all[k]) {
        assert k == |all| - |rest| ==> all[k] == rest[0];
      }
    } else {
      assert r.via == m.via;
      forall k | 0 <= k < |rest'| ensures !Used(e, r, rest'[k]) { assert !Used(e, m, rest[k]); }
    }
  }

  lemma {:induction false} HandingOutFits(e: Edit, m: Matching, all: seq<nat>, rest: seq<nat>)
    requires HandingOut(e, m, all, rest)
    ensures m.Fits(e)
    ensures forall k :: 0 <= k < |all| ==> all[k] < |e.previous|
    ensures forall k :: 0 <= k < |rest| ==> rest[k] < |e.previous|
  {
  }

  lemma {:induction false} InOrderPassHandsOut(e: Edit, m: Matching, all: seq<nat>, n: nat)
      returns (r: Matching, rest: seq<nat>)
    requires n <= |e.after| && HandingOut(e, m, all, all)
    requires forall row :: 0 <= row < |e.after| && !m.resolved[row] ==> m.via[row] == Unset
    ensures (r, rest) == InOrderPass(e, m, all, n)
    ensures HandingOut(e, r, all, rest)
    ensures forall s :: Used(e, m, s) ==> Used(e, r, s)
    ensures r.detached == m.detached && r.resolved == m.resolved
    ensures forall row :: n <= row < |e.after| ==> r.via[row] == m.via[row]
  {
    hide HandingOut, InOrder, Told, Used;
    HandingOutFits(e, m, all, all);
    r, rest := m, all;
    if n > 0 {
      var r', rest' := InOrderPassHandsOut(e, m, all, n - 1);
      InOrderHandsOut(e, r', all, rest', n - 1);
      HandingOutFits(e, r', all, rest');
      r, rest := InOrder(e, r', rest', n - 1).0, InOrder(e, r', rest', n - 1).1;
      forall s | Used(e, m, s) ensures Used(e, r, s) {
        assert Used(e, r', s);
      }
    }
  }

  lemma {:induction false} ClaimingHandsOut(e: Edit, c: Matching)
    requires Claiming(e, c)
    ensures HandingOut(e, c, LeftOver(e, c.matched, 0), LeftOver(e, c.matched, 0))
    ensures forall row :: 0 <= row < |e.after| && !c.resolved[row] ==> c.via[row] == Unset
  {
  }

  /** How a whole reconciliation ends. */
  lemma {:induction false} FilledIsTold(e: Edit, detached: Detached) returns (m: Matching, rest: seq<nat>)
    requires e.Fits() && OnlyTransfers(detached)
    ensures (m, rest) == Filled(e, detached)
    ensures Told(e, m)
    ensures OnlyTransfers(m.detached)
    ensures forall r :: 0 <= r < |e.previous| && e.previous[r].Some? ==> Used(e, m, r) || r in rest
    ensures forall r :: r in rest ==> r < |e.previous| && !Used(e, m, r)
  {
    ClaimedIsClaiming(e, detached);
    var c := Claimed(e, detached);
    var all := LeftOver(e, c.matched, 0);
    ClaimingHandsOut(e, c);
    hide Claimed, LeftOver, InOrder, OnlyTransfers, Told;
    m, rest := InOrderPassHandsOut(e, c, all, |e.after|);
    forall r | 0 <= r < |e.previous| && e.previous[r].Some? ensures Used(e, m, r) || r in rest {
      if c.matched[r] {
        assert Used(e, c, r);
      } else {
        assert r in all;
        var k :| 0 <= k < |all| && all[k] == r;
        if k >= |all| - |rest| {
          assert rest[k - (|all| - |rest|)] == r;
        }
      }
    }
  }

  // ------------------------------------------------- distinct identities

  predicate DistinctIds(origins: seq<Option<Origin>>) {
    forall i, j :: 0 <= i < j < |origins| && origins[i].Some? && origins[i].value.Snapshot? ==> origins[i] != origins[j]
  }

  /** A snapshot gives every entry its own identity and a name, if any. */
  predicate SoundBaseline(baseline: seq<Entry>) {
    && (forall i, j :: 0 <= i < j < |baseline| ==> baseline[i].id != baseline[j].id)
    && (forall i :: 0 <= i < |baseline| ==> baseline[i].name != Some(""))
  }

  lemma {:induction false} LabelIdTells(baseline: seq<Entry>, one: string, other: string)
    requires SoundBaseline(baseline)
    requires LabelId(baseline, one).Some? && LabelId(baseline, one) == LabelId(baseline, other)
    ensures one == other != ""
  {
  }

  /** If no identity was shared and no new label is repeated, no identity is
      shared afterwards: nothing is copied, and nothing is claimed twice. */
  lemma {:induction false} IdentitiesStayDistinct(e: Edit, detached: Detached)
    requires e.Fits() && OnlyTransfers(detached)
    requires DistinctIds(e.previous) && DistinctLabels(e.after) && SoundBaseline(e.baseline)
    ensures DistinctIds(Reconciled(e, detached).0)
  {
    var m, rest := FilledIsTold(e, detached);
    forall i, j | 0 <= i < j < |e.after| && m.origins[i].Some? && m.origins[i].value.Snapshot?
      ensures m.origins[i] != m.origins[j]
    {
      hide Filled;
      TwoRowsTwoIds(e, m, i, j);
    }
  }

  lemma {:induction false} TwoRowsTwoIds(e: Edit, m: Matching, i: nat, j: nat)
    requires Told(e, m) && i < j < |e.after|
    requires DistinctIds(e.previous) && DistinctLabels(e.after) && SoundBaseline(e.baseline)
    requires m.origins[i].Some? && m.origins[i].value.Snapshot?
    ensures m.origins[i] != m.origins[j]
  {
    assert RowTold(e, m, i) && RowTold(e, m, j);
    NeverRepeats(e.after, i);
    NeverRepeats(e.after, j);
    if m.via[i].Restored? && m.via[j].Restored? {
      RestoredApart(e, i, j);
    }
  }

  lemma {:induction false} NeverRepeats(lines: seq<string>, row: nat)
    requires DistinctLabels(lines) && row < |lines|
    ensures lines[row] != "" ==> !Repeats(lines, row)
  {
  }

  lemma {:induction false} RestoredApart(e: Edit, i: nat, j: nat)
    requires SoundBaseline(e.baseline) && DistinctLabels(e.after) && i < j < |e.after|
    requires LabelId(e.baseline, e.after[i]).Some?
    ensures LabelId(e.baseline, e.after[i]) != LabelId(e.baseline, e.after[j])
  {
    if LabelId(e.baseline, e.after[j]).Some? && e.after[i] == "" {
      LabelIdTells(e.baseline, e.after[i], e.after[i]);
    }
  }

  // ------------------------------------------------------- no lost transfer

  predicate PutUnder(detached: Detached, text: string, origin: Origin) {
    text in detached && origin in detached[text]
  }

  lemma {:induction false} PutAsideKeeps(e: Edit, detached: Detached, rest: seq<nat>, text: string, origin: Origin)
    requires e.Fits() && (forall k :: 0 <= k < |rest| ==> rest[k] < |e.previous|)
    requires PutUnder(detached, text, origin)
    ensures PutUnder(PutAsideAll(e, detached, rest), text, origin)
  {
    if rest != [] {
      PutAsideKeeps(e, detached, rest[..|rest| - 1], text, origin);
    }
  }

  lemma {:induction false} PutAsideTakes(e: Edit, detached: Detached, rest: seq<nat>, k: nat)
    requires e.Fits() && (forall k :: 0 <= k < |rest| ==> rest[k] < |e.previous|)
    requires k < |rest| && e.previous[rest[k]].Some? && e.previous[rest[k]].value.Transfer? && e.before[rest[k]] != ""
    ensures PutUnder(PutAsideAll(e, detached, rest), e.before[rest[k]], e.previous[rest[k]].value)
  {
    var n := |rest| - 1;
    if k < n {
      PutAsideTakes(e, detached, rest[..n], k);
    }
  }

  /** A transfer on a row that says something ends up on some row, or is put
      aside under what its row said. */
  lemma {:induction false} NoTransferIsLost(e: Edit, detached: Detached, r: nat)
    requires e.Fits() && OnlyTransfers(detached)
    requires r < |e.previous| && e.previous[r].Some? && e.previous[r].value.Transfer? && e.before[r] != ""
    ensures e.previous[r] in Reconciled(e, detached).0
            || PutUnder(Reconciled(e, detached).1, e.before[r], e.previous[r].value)
  {
    var m, rest := FilledIsTold(e, detached);
    if Used(e, m, r) {
      var row :| 0 <= row < |e.after| && m.via[row] == FromRow(r);
      assert RowTold(e, m, row);
    } else {
      var k :| 0 <= k < |rest| && rest[k] == r;
      PutAsideTakes(e, m.detached, rest, k);
    }
  }

  lemma {:induction false} OnlyTransfersAside(e: Edit, detached: Detached, rest: seq<nat>)
    requires e.Fits() && (forall k :: 0 <= k < |rest| ==> rest[k] < |e.previous|)
    requires OnlyTransfers(detached)
    ensures OnlyTransfers(PutAsideAll(e, detached, rest))
  {
    if rest != [] {
      OnlyTransfersAside(e, detached, rest[..|rest| - 1]);
    }
  }

  /** Nothing but transfers is ever put aside. */
  lemma {:induction false} ReconciledAside(e: Edit, detached: Detached)
    requires e.Fits() && OnlyTransfers(detached)
    ensures OnlyTransfers(Reconciled(e, detached).1)
  {
    var m, rest := FilledIsTold(e, detached);
    hide Filled;
    OnlyTransfersAside(e, m.detached, rest);
  }
}
