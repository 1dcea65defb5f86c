/** What a save loses while other programs change the destination between its
    operations: every step of the run it takes part in is looked at. */
module Interference {
  import opened Wrappers
  import opened Disks
  import opened Documents

  predicate IsBaseline(v: DiskState, baseline: Option<DiskState>) {
    baseline.Some? && v.MatchesDisplaced(baseline.value)
  }

  /** What a save may do away with: the recorded version, and a draft of its own
      that it could not finish. */
  predicate Expendable(v: DiskState, baseline: Option<DiskState>, draft: Option<DiskState>) {
    IsBaseline(v, baseline) || (draft.Some? && SameVersion(v, draft.value))
  }

  /** A version that is at neither path after a step, but was before, is
      expendable. */
  ghost predicate LosesOnly(disk: Disk, step: Step, baseline: Option<DiskState>, draft: Option<DiskState>) {
    forall v: DiskState :: Holds(disk, v) && !Holds(Took(disk, step), v) ==> Expendable(v, baseline, draft)
  }

  /** A version a step takes from the destination is the recorded one, or it is
      at one of the two paths in the end. */
  ghost predicate KeepsDisplaced(disk: Disk, step: Step, baseline: Option<DiskState>, end: Disk) {
    disk.destination.Some? ==>
      var v, now := disk.destination.value, Took(disk, step).destination;
      (now.Some? && SameVersion(now.value, v)) || IsBaseline(v, baseline) || Holds(end, v)
  }

  /** Each of the save's own steps is possible where it is taken, and loses and
      displaces no more than it may. Nothing is asked of the others' steps. */
  ghost predicate Careful(disk: Disk, step: Step, baseline: Option<DiskState>, draft: Option<DiskState>, end: Disk) {
    step.Own? ==>
      && Possible(disk, step.operation)
      && LosesOnly(disk, step, baseline, draft) && KeepsDisplaced(disk, step, baseline, end)
  }

  ghost predicate Harmless(disk: Disk, steps: seq<Step>, baseline: Option<DiskState>, draft: Option<DiskState>,
                           end: Disk)
    decreases |steps|
  {
    steps == [] ||
    (Careful(disk, steps[0], baseline, draft, end) && Harmless(Took(disk, steps[0]), steps[1..], baseline, draft, end))
  }

  // ---------------------------------------------------------- runs of steps

  lemma {:induction false} HarmlessJoins(disk: Disk, front: seq<Step>, back: seq<Step>, baseline: Option<DiskState>,
                                         draft: Option<DiskState>, end: Disk)
    requires Harmless(disk, front, baseline, draft, end) && Harmless(Ran(disk, front), back, baseline, draft, end)
    ensures Harmless(disk, front + back, baseline, draft, end)
    decreases |front|
  {
    hide Careful;
    if front == [] {
      assert front + back == back;
    } else {
      assert (front + back)[1..] == front[1..] + back;
      HarmlessJoins(Took(disk, front[0]), front[1..], back, baseline, draft, end);
    }
  }

  lemma {:induction false} OthersAreHarmless(disk: Disk, acts: seq<Outside>, baseline: Option<DiskState>,
                                             draft: Option<DiskState>, end: Disk)
    ensures Harmless(disk, Others(acts), baseline, draft, end)
    decreases |acts|
  {
    if acts != [] {
      assert Others(acts)[1..] == Others(acts[1..]);
      OthersAreHarmless(MeddledOnce(disk, acts[0]), acts[1..], baseline, draft, end);
    }
  }

  lemma {:induction false} OneStep(disk: Disk, step: Step, baseline: Option<DiskState>, draft: Option<DiskState>,
                                   end: Disk)
    requires Careful(disk, step, baseline, draft, end)
    ensures Harmless(disk, [step], baseline, draft, end) && Ran(disk, [step]) == Took(disk, step)
  {
    assert [step][1..] == [];
  }

  lemma {:induction false} HarmlessAt(disk: Disk, steps: seq<Step>, baseline: Option<DiskState>,
                                      draft: Option<DiskState>, end: Disk, i: nat)
    requires Harmless(disk, steps, baseline, draft, end) && i < |steps|
    ensures Careful(Ran(disk, steps[..i]), steps[i], baseline, draft, end)
    ensures Ran(disk, steps[..i + 1]) == Took(Ran(disk, steps[..i]), steps[i])
    decreases |steps|
  {
    hide Careful;
    assert steps[..i + 1] == steps[..i] + [steps[i]];
    RanJoins(disk, steps[..i], [steps[i]]);
    assert [steps[i]][1..] == [];
    if i > 0 {
      HarmlessAt(Took(disk, steps[0]), steps[1..], baseline, draft, end, i - 1);
      assert steps[1..][..i - 1] == steps[..i][1..];
    }
  }

  /** A write accounts for itself from a state: its steps lead where it ends, and
      they are harmless on the way. A write that fails may lose nothing but a
      draft. */
  ghost predicate Accounts(disk: Disk, w: Write, baseline: Option<DiskState>, draft: Option<DiskState>, end: Disk) {
    && Ran(disk, w.steps) == w.disk
    && Harmless(disk, w.steps, if w.written then baseline else None, draft, end)
  }

  lemma {:induction false} AccountsAfterOthers(disk: Disk, acts: seq<Outside>, w: Write, baseline: Option<DiskState>,
                                               draft: Option<DiskState>, end: Disk)
    requires Accounts(Meddled(disk, acts), w, baseline, draft, end)
    ensures Accounts(disk, w.After(Others(acts)), baseline, draft, end)
  {
    var may := if w.written then baseline else None;
    OthersMeddle(disk, acts);
    RanJoins(disk, Others(acts), w.steps);
    OthersAreHarmless(disk, acts, may, draft, end);
    HarmlessJoins(disk, Others(acts), w.steps, may, draft, end);
  }

  lemma {:induction false} AccountsAfterStep(disk: Disk, step: Step, w: Write, baseline: Option<DiskState>,
                                             draft: Option<DiskState>, end: Disk)
    requires Careful(disk, step, if w.written then baseline else None, draft, end)
    requires Accounts(Took(disk, step), w, baseline, draft, end)
    ensures Accounts(disk, w.After([step]), baseline, draft, end)
  {
    var may := if w.written then baseline else None;
    OneStep(disk, step, may, draft, end);
    RanJoins(disk, [step], w.steps);
    HarmlessJoins(disk, [step], w.steps, may, draft, end);
  }

  lemma {:induction false} DoingNothingAccounts(disk: Disk, written: bool, warned: bool, baseline: Option<DiskState>,
                                                draft: Option<DiskState>, end: Disk)
    ensures Accounts(disk, Write([], disk, written, warned), baseline, draft, end)
  {
  }

  lemma {:induction false} OneStepAccounts(disk: Disk, step: Step, written: bool, warned: bool,
                                           baseline: Option<DiskState>, draft: Option<DiskState>, end: Disk)
    requires Careful(disk, step, if written then baseline else None, draft, end)
    ensures Accounts(disk, Write([step], Took(disk, step), written, warned), baseline, draft, end)
  {
    OneStep(disk, step, if written then baseline else None, draft, end);
  }

  // ------------------------------------------------------- what each one does

  lemma {:induction false} RenamingIsCareful(disk: Disk, tick: nat, baseline: Option<DiskState>,
                                             draft: Option<DiskState>, end: Disk)
    requires disk.temporary.Some? && disk.destination.None?
    ensures Careful(disk, Own(RenameNew(tick)), baseline, draft, end)
  {
  }

  lemma {:induction false} SwappingIsCareful(disk: Disk, tick: nat, baseline: Option<DiskState>,
                                             draft: Option<DiskState>, end: Disk)
    requires Possible(disk, Swap(tick))
    requires IsBaseline(disk.destination.value, baseline) || Holds(end, disk.destination.value)
    ensures Careful(disk, Own(Swap(tick)), baseline, draft, end)
  {
  }

  lemma {:induction false} UnlinkingIsCareful(disk: Disk, baseline: Option<DiskState>, draft: Option<DiskState>,
                                              end: Disk)
    requires disk.temporary.Some? && Expendable(disk.temporary.value, baseline, draft)
    ensures Careful(disk, Own(Unlink), baseline, draft, end)
  {
  }

  /** Were it to remove any other version, it would not be harmless. */
  lemma {:induction false} UnlinkingAnotherIsNot(disk: Disk, baseline: Option<DiskState>, draft: Option<DiskState>,
                                                 end: Disk)
    requires disk.temporary.Some? && !Expendable(disk.temporary.value, baseline, draft)
    requires disk.destination.None? || !SameVersion(disk.destination.value, disk.temporary.value)
    ensures !Harmless(disk, [Own(Unlink)], baseline, draft, end)
  {
    assert Holds(disk, disk.temporary.value) && !Holds(Took(disk, Own(Unlink)), disk.temporary.value);
  }

  /** Nor would it be if it renamed over a version that is not the recorded one. */
  lemma {:induction false} RenamingOverAnotherIsNot(disk: Disk, tick: nat, baseline: Option<DiskState>, end: Disk)
    requires disk.temporary.Some? && disk.destination.Some? && !IsBaseline(disk.destination.value, baseline)
    requires !SameVersion(disk.destination.value, disk.temporary.value)
    ensures !Harmless(disk, [Own(RenameOver(tick))], baseline, None, end)
  {
    assert Holds(disk, disk.destination.value) && !Holds(Took(disk, Own(RenameOver(tick))), disk.destination.value);
  }

  // --------------------------------------------------------------- the write

  lemma {:induction false} GuardingAccounts(disk: Disk, around: Around, written: bool, baseline: Option<DiskState>,
                                            draft: Option<DiskState>, end: Disk)
    requires disk.temporary.Some? && Expendable(disk.temporary.value, if written then baseline else None, draft)
    ensures Accounts(disk, Guarded(disk, around, written), baseline, draft, end)
  {
    var d := Meddled(disk, around.beforeGuard);
    hide Meddled, Harmless, Careful, Ran;
    var w :=
      if around.guardFails then Write([], d, written, written)
      else Write([Own(Unlink)], Took(d, Own(Unlink)), written, written);
    if around.guardFails {
      DoingNothingAccounts(d, written, written, baseline, draft, end);
      assert Others(around.beforeGuard) + [] == Others(around.beforeGuard);
    } else {
      UnlinkingIsCareful(d, if written then baseline else None, draft, end);
      OneStepAccounts(d, Own(Unlink), written, written, baseline, draft, end);
    }
    AccountsAfterOthers(disk, around.beforeGuard, w, baseline, draft, end);
  }

  lemma {:induction false} RecreatingAccounts(disk: Disk, around: Around, baseline: Option<DiskState>, end: Disk)
    requires disk.temporary.Some?
    ensures Accounts(disk, Recreated(disk, around), baseline, None, end)
  {
    var d := Meddled(disk, around.beforeRecreate);
    hide Meddled, Harmless, Careful, Ran;
    var step := Own(RenameNew(around.tick));
    var w :=
      if around.recreateFails || d.destination.Some? then Write([], d, false, false)
      else Write([step], Took(d, step), true, false);
    if around.recreateFails || d.destination.Some? {
      DoingNothingAccounts(d, false, false, baseline, None, end);
    } else {
      RenamingIsCareful(d, around.tick, baseline, None, end);
      OneStepAccounts(d, step, true, false, baseline, None, end);
    }
    AccountsAfterOthers(disk, around.beforeRecreate, w, baseline, None, end);
  }

  /** From the swap on: what was displaced is expendable, or at one of the paths
      in the end. */
  lemma {:induction false} SettlingAccounts(disk: Disk, state: DiskState, around: Around)
    requires disk.temporary.Some?
    ensures var w := Settled(disk, state, around);
            && Accounts(disk, w, Some(state), None, w.disk)
            && (Holds(w.disk, disk.temporary.value) || (w.written && disk.temporary.value.MatchesDisplaced(state)))
  {
    var d := Meddled(disk, around.beforeSettle);
    var end := Settled(disk, state, around).disk;
    hide Meddled, Harmless, Careful, Ran, Guarded;
    var found := disk.temporary.value;
    if !around.inspectFails && found.MatchesDisplaced(state) {
      if around.settleFails {
        GuardingAccounts(d, around, true, Some(state), None, end);
        AccountsAfterOthers(disk, around.beforeSettle, Guarded(d, around, true), Some(state), None, end);
      } else {
        UnlinkingIsCareful(d, Some(state), None, end);
        OneStepAccounts(d, Own(Unlink), true, false, Some(state), None, end);
        AccountsAfterOthers(disk, around.beforeSettle, Write([Own(Unlink)], Took(d, Own(Unlink)), true, false),
                            Some(state), None, end);
      }
    } else if around.settleFails || d.destination.None? {
      DoingNothingAccounts(d, false, false, Some(state), None, end);
      AccountsAfterOthers(disk, around.beforeSettle, Refused(d), Some(state), None, end);
    } else {
      var step := Own(Swap(around.tick));
      assert end == Took(d, step);
      SwappingIsCareful(d, around.tick, None, None, end);
      OneStepAccounts(d, step, false, false, Some(state), None, end);
      AccountsAfterOthers(disk, around.beforeSettle, Write([step], Took(d, step), false, false), Some(state), None,
                          end);
    }
  }

  function BaselineOf(policy: Policy): Option<DiskState> {
    if policy.Expected? then Some(policy.state) else None
  }

  lemma {:induction false} SwappedAccounts(d: Disk, state: DiskState, around: Around)
    requires Possible(d, Swap(around.tick))
    ensures var settled := Settled(Meddled(Performed(d, Swap(around.tick)), around.beforeInspect), state, around);
            Accounts(d, settled.After(Others(around.beforeInspect)).After([Own(Swap(around.tick))]), Some(state), None,
                     settled.disk)
  {
    var step := Own(Swap(around.tick));
    var inspected := Meddled(Took(d, step), around.beforeInspect);
    hide Meddled, Harmless, Careful, Ran, Settled, DiskState.MatchesDisplaced;
    var settled := Settled(inspected, state, around);
    SettlingAccounts(inspected, state, around);
    AccountsAfterOthers(Took(d, step), around.beforeInspect, settled, Some(state), None, settled.disk);
    DisplacedIsFound(d.destination.value, inspected.temporary.value, state, settled);
    SwappingIsCareful(d, around.tick, if settled.written then Some(state) else None, None, settled.disk);
    AccountsAfterStep(d, step, settled.After(Others(around.beforeInspect)), Some(state), None, settled.disk);
  }

  lemma {:induction false} DisplacedIsFound(displaced: DiskState, found: DiskState, state: DiskState, w: Write)
    requires SameVersion(displaced, found)
    requires Holds(w.disk, found) || (w.written && found.MatchesDisplaced(state))
    ensures IsBaseline(displaced, if w.written then Some(state) else None) || Holds(w.disk, displaced)
  {
  }

  lemma {:induction false} ReplacingAccounts(disk: Disk, policy: Policy, around: Around)
    requires disk.temporary.Some? && !policy.Force?
    ensures Accounts(disk, Replaced(disk, policy, around), BaselineOf(policy), None,
                     Replaced(disk, policy, around).disk)
  {
    var d := Meddled(disk, around.beforeInstall);
    var end := Replaced(disk, policy, around).disk;
    hide Meddled, Harmless, Careful, Ran, Settled, Recreated;
    var baseline := BaselineOf(policy);
    if around.installFails || (policy.NoReplace? && d.destination.Some?) {
      DoingNothingAccounts(d, false, false, baseline, None, end);
      AccountsAfterOthers(disk, around.beforeInstall, Refused(d), baseline, None, end);
    } else if policy.NoReplace? {
      var step := Own(RenameNew(around.tick));
      RenamingIsCareful(d, around.tick, baseline, None, end);
      OneStepAccounts(d, step, true, false, baseline, None, end);
      AccountsAfterOthers(disk, around.beforeInstall, Write([step], Took(d, step), true, false), baseline, None, end);
    } else if d.destination.None? {
      RecreatingAccounts(d, around, baseline, end);
      AccountsAfterOthers(disk, around.beforeInstall, Recreated(d, around), baseline, None, end);
    } else {
      var step := Own(Swap(around.tick));
      var settled := Settled(Meddled(Took(d, step), around.beforeInspect), policy.state, around);
      SwappedAccounts(d, policy.state, around);
      assert [step] + (Others(around.beforeInspect) + settled.steps)
          == ([step] + Others(around.beforeInspect)) + settled.steps;
      AccountsAfterOthers(disk, around.beforeInstall, settled.After([step] + Others(around.beforeInspect)), baseline,
                          None, end);
    }
  }

  /** The draft a write gives up when it cannot finish preparing it. */
  function DraftOf(own: DiskState, around: Around): Option<DiskState> {
    if around.prepareFails then Some(own) else None
  }

  /** Under every interleaving with outside steps, a write that is not forced
      ends where its steps lead, and the steps are harmless. */
  lemma {:induction false} WritingAccounts(disk: Disk, own: DiskState, policy: Policy, around: Around)
    requires disk.temporary.None? && !policy.Force?
    ensures var w := Written(disk, own, policy, around);
            Accounts(disk, w, BaselineOf(policy), DraftOf(own, around), w.disk)
  {
    var d := Meddled(disk, around.beforePrepare);
    var placed := d.(temporary := Some(own));
    var baseline, draft, end := BaselineOf(policy), DraftOf(own, around), Written(disk, own, policy, around).disk;
    hide Meddled, Harmless, Careful, Ran, Replaced, Guarded;
    var w := if around.prepareFails then Guarded(placed, around, false) else Replaced(placed, policy, around);
    if around.prepareFails {
      GuardingAccounts(placed, around, false, baseline, draft, end);
    } else {
      ReplacingAccounts(placed, policy, around);
    }
    PlacingIsCareful(d, own, if w.written then baseline else None, draft, end);
    AccountsAfterStep(d, Own(Place(own)), w, baseline, draft, end);
    AccountsAfterOthers(disk, around.beforePrepare, w.After([Own(Place(own))]), baseline, draft, end);
    assert Others(around.beforePrepare) + ([Own(Place(own))] + w.steps)
        == (Others(around.beforePrepare) + [Own(Place(own))]) + w.steps;
  }

  lemma {:induction false} PlacingIsCareful(disk: Disk, own: DiskState, baseline: Option<DiskState>,
                                            draft: Option<DiskState>, end: Disk)
    requires disk.temporary.None?
    ensures Careful(disk, Own(Place(own)), baseline, draft, end)
  {
  }

  // ------------------------------------------------------------- what is lost

  /** Where a write is when it takes a step, and right after. */
  function At(disk: Disk, w: Write, i: nat): Disk
    requires i <= |w.steps|
  {
    Ran(disk, w.steps[..i])
  }

  /** Whatever one of the write's own steps takes off both paths is the recorded
      version, and then the write has gone through; or it is a draft that could
      not be finished. */
  lemma {:induction false} OnlyTheBaselineIsDestroyed(disk: Disk, own: DiskState, policy: Policy, around: Around,
                                                      i: nat, v: DiskState)
    requires disk.temporary.None? && !policy.Force?
    requires i < |Written(disk, own, policy, around).steps| && Written(disk, own, policy, around).steps[i].Own?
    requires Holds(At(disk, Written(disk, own, policy, around), i), v)
    requires !Holds(At(disk, Written(disk, own, policy, around), i + 1), v)
    ensures
      || (policy.Expected? && v.MatchesDisplaced(policy.state) && Written(disk, own, policy, around).written)
      || (around.prepareFails && SameVersion(v, own))
  {
    WritingAccounts(disk, own, policy, around);
    hide Written, Harmless, Ran;
    var w := Written(disk, own, policy, around);
    HarmlessAt(disk, w.steps, if w.written then BaselineOf(policy) else None, DraftOf(own, around), w.disk, i);
  }

  /** Whatever one of the write's own steps takes from the destination is the
      recorded version, and then the write has gone through; or it is at one of
      the two paths when the write returns. */
  lemma {:induction false} AnyOtherVersionIsKept(disk: Disk, own: DiskState, policy: Policy, around: Around, i: nat)
    requires disk.temporary.None? && !policy.Force?
    requires i < |Written(disk, own, policy, around).steps| && Written(disk, own, policy, around).steps[i].Own?
    requires At(disk, Written(disk, own, policy, around), i).destination.Some?
    ensures var w := Written(disk, own, policy, around);
            var v, now := At(disk, w, i).destination.value, At(disk, w, i + 1).destination;
            || (now.Some? && SameVersion(now.value, v))
            || (policy.Expected? && v.MatchesDisplaced(policy.state) && w.written)
            || Holds(w.disk, v)
  {
    WritingAccounts(disk, own, policy, around);
    hide Written, Harmless, Ran;
    var w := Written(disk, own, policy, around);
    HarmlessAt(disk, w.steps, if w.written then BaselineOf(policy) else None, DraftOf(own, around), w.disk, i);
  }

  /** The two paths as the write of a save leaves them. */
  function DiskLeft(d: Document, disk: Disk, own: DiskState, around: Around): Disk {
    Written(Meddled(disk, around.beforeCheck), own, PolicyFor(d, false), around).disk
  }

  /** A whole save that is not forced: its steps lead from the folder it found to
      the folder it leaves and lose at most the recorded version; one that fails
      loses nothing but a draft, keeps at one of the paths whatever it displaced,
      and leaves the document alone. */
  lemma {:induction false} SavingIsHarmless(d: Document, disk: Disk, own: DiskState, around: Around)
    requires disk.temporary.None?
    ensures var r, left := Saved(d, disk, false, own, around), DiskLeft(d, disk, own, around);
            && Ran(disk, r.steps) == r.disk
            && (r.saved ==> r.disk == Meddled(left, around.beforeVerify)
                            && Harmless(disk, r.steps, d.diskState, DraftOf(own, around), left))
            && (!r.saved ==> r.document == d && Harmless(disk, r.steps, None, DraftOf(own, around), r.disk))
  {
    var checked := Meddled(disk, around.beforeCheck);
    var policy, draft := PolicyFor(d, false), DraftOf(own, around);
    var r := Saved(d, disk, false, own, around);
    hide Meddled, Harmless, Ran, Written;
    if d.diskState.Some? && (around.checkFails || Conflicts(d, checked, false)) {
      OthersMeddle(disk, around.beforeCheck);
      OthersAreHarmless(disk, around.beforeCheck, None, draft, r.disk);
    } else {
      var w := Written(checked, own, policy, around);
      WritingAccounts(checked, own, policy, around);
      AccountsAfterOthers(disk, around.beforeCheck, w, BaselineOf(policy), draft, w.disk);
      if w.written {
        var steps := w.After(Others(around.beforeCheck)).steps;
        OthersMeddle(w.disk, around.beforeVerify);
        RanJoins(disk, steps, Others(around.beforeVerify));
        OthersAreHarmless(w.disk, around.beforeVerify, d.diskState, draft, w.disk);
        HarmlessJoins(disk, steps, Others(around.beforeVerify), d.diskState, draft, w.disk);
      }
    }
  }
}
