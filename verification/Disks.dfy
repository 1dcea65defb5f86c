/** A destination path and the temporary beside it, the few atomic operations a
    save performs on them, and what other programs may do in between. */
module Disks {
  import opened Wrappers

  /** Everything an inspection tells about the file at a path. The digest is
      taken to determine the contents. */
  datatype DiskState = DiskState(
    contents: string,
    modified: nat,
    identity: nat,
    access: nat,
    links: nat,
    changed: nat)
  {
    /** The same file as was recorded, moved or linked though it may have been. */
    predicate MatchesDisplaced(expected: DiskState) {
      && |contents| == |expected.contents|
      && modified == expected.modified
      && contents == expected.contents
      && identity == expected.identity
      && access == expected.access
    }

    predicate SameContents(other: DiskState) {
      |contents| == |other.contents| && contents == other.contents
    }

    /** Renaming a file changes nothing about it but its change time. */
    function Renamed(tick: nat): DiskState {
      this.(changed := tick)
    }
  }

  /** The same version of the same file, whenever it was last renamed. */
  predicate SameVersion(v: DiskState, w: DiskState) {
    v.Renamed(0) == w.Renamed(0)
  }

  /** The same version at both, or nothing. */
  predicate SameFile(one: Option<DiskState>, other: Option<DiskState>) {
    match (one, other)
    case (Some(v), Some(w)) => SameVersion(v, w)
    case (None, None) => true
    case _ => false
  }

  /** What another program does to the destination path in one atomic step. */
  datatype Outside =
    | Create(version: DiskState)
    | Overwrite(contents: string, modified: nat, changed: nat)
    | Replace(version: DiskState)
    | Delete

  /** The two paths. Nobody else knows the temporary's name. */
  datatype Disk = Disk(destination: Option<DiskState>, temporary: Option<DiskState>)

  function MeddledOnce(disk: Disk, act: Outside): Disk {
    match act
    case Create(version) => if disk.destination.None? then disk.(destination := Some(version)) else disk
    case Overwrite(contents, modified, changed) =>
      if disk.destination.None? then disk
      else
        var v := disk.destination.value;
        disk.(destination := Some(v.(contents := contents, modified := modified, changed := changed)))
    case Replace(version) => disk.(destination := Some(version))
    case Delete => disk.(destination := None)
  }

  /** Any number of outside steps. */
  function Meddled(disk: Disk, acts: seq<Outside>): (r: Disk)
    ensures r.temporary == disk.temporary
    decreases |acts|
  {
    if acts == [] then disk else Meddled(MeddledOnce(disk, acts[0]), acts[1..])
  }

  // ----------------------------------------------------------- operations

  /** What a save does to the two paths, each in one atomic step: put a file at
      the temporary, swap the two, rename the temporary where nothing is, rename
      it over whatever is there, remove it. */
  datatype Operation =
    | Place(version: DiskState)
    | Swap(tick: nat)
    | RenameNew(tick: nat)
    | RenameOver(tick: nat)
    | Unlink

  predicate Possible(disk: Disk, op: Operation) {
    match op
    case Place(_) => disk.temporary.None?
    case Swap(_) => disk.destination.Some? && disk.temporary.Some?
    case RenameNew(_) => disk.destination.None? && disk.temporary.Some?
    case RenameOver(_) => disk.temporary.Some?
    case Unlink => disk.temporary.Some?
  }

  function Performed(disk: Disk, op: Operation): Disk
    requires Possible(disk, op)
  {
    match op
    case Place(version) => disk.(temporary := Some(version))
    case Swap(tick) => Disk(Some(disk.temporary.value.Renamed(tick)), Some(disk.destination.value.Renamed(tick)))
    case RenameNew(tick) => Disk(Some(disk.temporary.value.Renamed(tick)), None)
    case RenameOver(tick) => Disk(Some(disk.temporary.value.Renamed(tick)), None)
    case Unlink => disk.(temporary := None)
  }

  /** One step of a run: someone else's, or the save's own. */
  datatype Step = Other(act: Outside) | Own(operation: Operation)

  function Took(disk: Disk, step: Step): Disk {
    match step
    case Other(act) => MeddledOnce(disk, act)
    case Own(op) => if Possible(disk, op) then Performed(disk, op) else disk
  }

  /** Where the two paths are after some steps. */
  function Ran(disk: Disk, steps: seq<Step>): Disk
    decreases |steps|
  {
    if steps == [] then disk else Ran(Took(disk, steps[0]), steps[1..])
  }

  function Others(acts: seq<Outside>): (steps: seq<Step>)
    ensures |steps| == |acts|
  {
    seq(|acts|, i requires 0 <= i < |acts| => Other(acts[i]))
  }

  lemma {:induction false} RanJoins(disk: Disk, front: seq<Step>, back: seq<Step>)
    ensures Ran(disk, front + back) == Ran(Ran(disk, front), back)
    decreases |front|
  {
    if front == [] {
      assert front + back == back;
    } else {
      assert (front + back)[1..] == front[1..] + back;
      RanJoins(Took(disk, front[0]), front[1..], back);
    }
  }

  lemma {:induction false} OthersMeddle(disk: Disk, acts: seq<Outside>)
    ensures Ran(disk, Others(acts)) == Meddled(disk, acts)
    decreases |acts|
  {
    if acts != [] {
      assert Others(acts)[1..] == Others(acts[1..]);
      OthersMeddle(MeddledOnce(disk, acts[0]), acts[1..]);
    }
  }

  /** `v` is still under one of the two names. */
  predicate Holds(disk: Disk, v: DiskState) {
    || (disk.destination.Some? && SameVersion(disk.destination.value, v))
    || (disk.temporary.Some? && SameVersion(disk.temporary.value, v))
  }

  // ------------------------------------------------------------ replacing

  datatype Policy = Expected(state: DiskState) | NoReplace | Force

  /** What happens around a save: outside steps before each of its operations,
      and which operations fail of themselves. */
  datatype Around = Around(
    beforeCheck: seq<Outside>,
    beforePrepare: seq<Outside>,
    beforeInstall: seq<Outside>,
    beforeInspect: seq<Outside>,
    beforeSettle: seq<Outside>,
    beforeRecreate: seq<Outside>,
    beforeGuard: seq<Outside>,
    beforeVerify: seq<Outside>,
    checkFails: bool,
    prepareFails: bool,
    installFails: bool,
    inspectFails: bool,
    settleFails: bool,
    recreateFails: bool,
    guardFails: bool,
    verifyFails: bool,
    tick: nat)

  /** How a write ends: the steps taken, its own and others', the two paths, and
      whether it went through and with a warning. */
  datatype Write = Write(steps: seq<Step>, disk: Disk, written: bool, warned: bool) {
    /** The same write with something before it. */
    function After(earlier: seq<Step>): Write {
      this.(steps := earlier + steps)
    }
  }

  function Refused(disk: Disk): Write {
    Write([], disk, false, false)
  }

  /** The guard of the temporary removes whatever is still there. */
  function Guarded(disk: Disk, around: Around, written: bool): Write
    requires disk.temporary.Some?
  {
    var d := Meddled(disk, around.beforeGuard);
    if around.guardFails then Write(Others(around.beforeGuard), d, written, written)
    else Write(Others(around.beforeGuard) + [Own(Unlink)], d.(temporary := None), written, written)
  }

  /** Replaces the destination by the prepared temporary under a policy. */
  function Replaced(disk: Disk, policy: Policy, around: Around): Write
    requires disk.temporary.Some?
  {
    var d := Meddled(disk, around.beforeInstall);
    var tick := around.tick;
    var w :=
      match policy
      case Force =>
        if around.installFails then Refused(d)
        else Write([Own(RenameOver(tick))], Performed(d, RenameOver(tick)), true, false)
      case NoReplace =>
        if around.installFails || d.destination.Some? then Refused(d)
        else Write([Own(RenameNew(tick))], Performed(d, RenameNew(tick)), true, false)
      case Expected(state) =>
        if around.installFails then Refused(d)
        else if d.destination.None? then Recreated(d, around)
        else
          var swapped := Performed(d, Swap(tick));
          Settled(Meddled(swapped, around.beforeInspect), state, around)
            .After([Own(Swap(tick))] + Others(around.beforeInspect));
    w.After(Others(around.beforeInstall))
  }

  /** Nothing is at the destination any more: rename the temporary there, unless
      something has come up meanwhile. */
  function Recreated(disk: Disk, around: Around): Write
    requires disk.temporary.Some?
  {
    var d := Meddled(disk, around.beforeRecreate);
    var w :=
      if around.recreateFails || d.destination.Some? then Refused(d)
      else Write([Own(RenameNew(around.tick))], Performed(d, RenameNew(around.tick)), true, false);
    w.After(Others(around.beforeRecreate))
  }

  /** After the swap: remove the displaced file if it is the recorded one, and
      leave it to the guard if that fails; otherwise put it back. */
  function Settled(disk: Disk, state: DiskState, around: Around): Write
    requires disk.temporary.Some?
  {
    var found := disk.temporary.value;
    var d := Meddled(disk, around.beforeSettle);
    var w :=
      if !around.inspectFails && found.MatchesDisplaced(state) then
        if around.settleFails then Guarded(d, around, true)
        else Write([Own(Unlink)], d.(temporary := None), true, false)
      else if around.settleFails || d.destination.None? then Refused(d)
      else Write([Own(Swap(around.tick))], Performed(d, Swap(around.tick)), false, false);
    w.After(Others(around.beforeSettle))
  }

  /** The whole write: prepare a temporary holding `own`, then replace. If the
      temporary cannot be made ready its guard removes it again. */
  function Written(disk: Disk, own: DiskState, policy: Policy, around: Around): Write {
    var d := Meddled(disk, around.beforePrepare).(temporary := Some(own));
    var w := if around.prepareFails then Guarded(d, around, false) else Replaced(d, policy, around);
    w.After(Others(around.beforePrepare) + [Own(Place(own))])
  }

  // ---------------------------------------------------------- what is kept

  /** A write that failed after preparing keeps a file at the temporary: the
      prepared one, unless it swapped that for one from the destination. */
  lemma {:induction false} FailureKeepsTheTemporary(disk: Disk, own: DiskState, policy: Policy, around: Around)
    requires !Written(disk, own, policy, around).written && !around.prepareFails
    ensures Written(disk, own, policy, around).disk.temporary.Some?
    ensures (forall step :: step in Written(disk, own, policy, around).steps && step.Own? ==> !step.operation.Swap?) ==>
              Written(disk, own, policy, around).disk.temporary == Some(own)
  {
    var prepared := Meddled(disk, around.beforePrepare).(temporary := Some(own));
    var d := Meddled(prepared, around.beforeInstall);
    if policy.Expected? && !around.installFails && d.destination.Some? {
      var w := Replaced(prepared, policy, around);
      assert w.steps[|around.beforeInstall|] == Own(Swap(around.tick));
      assert Own(Swap(around.tick)) in Written(disk, own, policy, around).steps;
    }
  }

  /** A recovery swap puts the displaced file back at the destination, and what
      it finds there at the temporary; where it cannot be made both stay where
      they are. */
  lemma {:induction false} RestoringKeepsBoth(disk: Disk, state: DiskState, around: Around)
    requires disk.temporary.Some? && !Settled(disk, state, around).written
    ensures var d, r := Meddled(disk, around.beforeSettle), Settled(disk, state, around).disk;
            && (!around.settleFails && d.destination.Some? ==>
                  SameFile(r.destination, disk.temporary) && SameFile(r.temporary, d.destination))
            && (around.settleFails || d.destination.None? ==> r == Disk(d.destination, disk.temporary))
            && Holds(r, disk.temporary.value) && (d.destination.Some? ==> Holds(r, d.destination.value))
  {
    hide Meddled;
  }

  /** What the other programs did in a run of steps. */
  function ActsOf(steps: seq<Step>): seq<Outside> {
    if steps == [] then [] else (if steps[0].Other? then [steps[0].act] else []) + ActsOf(steps[1..])
  }

  lemma {:induction false} ActsOfBoth(front: seq<Step>, back: seq<Step>)
    ensures ActsOf(front + back) == ActsOf(front) + ActsOf(back)
  {
    if front == [] {
      assert front + back == back;
    } else {
      var first := if front[0].Other? then [front[0].act] else [];
      assert (front + back)[1..] == front[1..] + back;
      ActsOfBoth(front[1..], back);
      assert first + (ActsOf(front[1..]) + ActsOf(back)) == (first + ActsOf(front[1..])) + ActsOf(back);
    }
  }

  lemma {:induction false} ActsOfOthers(acts: seq<Outside>)
    ensures ActsOf(Others(acts)) == acts
    decreases |acts|
  {
    if acts != [] {
      assert Others(acts)[1..] == Others(acts[1..]);
      ActsOfOthers(acts[1..]);
    }
  }

  lemma {:induction false} ActsOfOwn(operation: Operation)
    ensures ActsOf([Own(operation)]) == [] == ActsOf([])
  {
  }

  lemma {:induction false} NobodyActs(disk: Disk)
    ensures Meddled(disk, []) == disk && Others([]) == []
  {
  }

  /** Other programs do the same at the destination whatever the temporary is. */
  lemma {:induction false} MeddlingGoesOn(disk: Disk, acts: seq<Outside>, temporary: Option<DiskState>,
                                          more: seq<Outside>)
    ensures Meddled(disk, acts + more).destination
         == Meddled(Meddled(disk, acts).(temporary := temporary), more).destination
    decreases |acts| + |more|
  {
    if acts != [] {
      assert (acts + more)[1..] == acts[1..] + more;
      MeddlingGoesOn(MeddledOnce(disk, acts[0]), acts[1..], temporary, more);
    } else if more != [] {
      assert acts + more == more;
      MeddlingGoesOn(MeddledOnce(disk, more[0]), [], temporary, more[1..]);
      assert [] + more[1..] == more[1..];
    }
  }

  /** What a replacement makes of the destination if it fails: left alone after
      its swap and able to swap back, it leaves what the others alone would. */
  lemma {:induction false} RefusedReplacementPutsBack(disk: Disk, policy: Policy, around: Around)
    requires disk.temporary.Some? && !Replaced(disk, policy, around).written
    requires around.beforeInspect == [] && around.beforeSettle == [] && !around.settleFails
    ensures var w := Replaced(disk, policy, around);
            && SameFile(w.disk.destination, Meddled(disk, ActsOf(w.steps)).destination)
            && SameFile(w.disk.temporary, disk.temporary)
  {
    hide Meddled, ActsOf, DiskState.MatchesDisplaced;
    var d := Meddled(disk, around.beforeInstall);
    var w := Replaced(disk, policy, around);
    var before, again := Others(around.beforeInstall), Others(around.beforeRecreate);
    ActsOfOthers(around.beforeInstall);
    ActsOfOthers(around.beforeRecreate);
    ActsOfOwn(Swap(around.tick));
    if policy.Expected? && !around.installFails && d.destination.Some? {
      var swap := [Own(Swap(around.tick))];
      var swapped := Performed(d, Swap(around.tick));
      NobodyActs(swapped);
      assert Settled(swapped, policy.state, around).steps == [] + swap;
      assert swap + [] == swap == [] + swap;
      assert w.steps == before + (swap + swap);
      ActsOfBoth(swap, swap);
      ActsOfBoth(before, swap + swap);
      assert around.beforeInstall + ([] + []) == around.beforeInstall;
    } else if policy.Expected? && !around.installFails {
      assert w.steps == before + again by { assert again + [] == again; }
      ActsOfBoth(before, again);
      MeddlingGoesOn(disk, around.beforeInstall, disk.temporary, around.beforeRecreate);
    } else {
      assert w.steps == before + [] == before;
    }
  }

  /** A write that fails, is left alone after its swap and can swap back, leaves
      the destination as the others alone would have left it; and if it was
      prepared, its own file at the temporary. */
  lemma {:induction false} RefusedWritePutsBack(disk: Disk, own: DiskState, policy: Policy, around: Around)
    requires !Written(disk, own, policy, around).written
    requires around.beforeInspect == [] && around.beforeSettle == [] && !around.settleFails
    ensures var w := Written(disk, own, policy, around);
            && SameFile(w.disk.destination, Meddled(disk, ActsOf(w.steps)).destination)
            && (!around.prepareFails ==> SameFile(w.disk.temporary, Some(own)))
  {
    hide Meddled, ActsOf, Replaced;
    var d := Meddled(disk, around.beforePrepare).(temporary := Some(own));
    var front := Others(around.beforePrepare) + [Own(Place(own))];
    ActsOfOthers(around.beforePrepare);
    ActsOfOwn(Place(own));
    ActsOfBoth(Others(around.beforePrepare), [Own(Place(own))]);
    assert around.beforePrepare + [] == around.beforePrepare;
    if around.prepareFails {
      var guard := Guarded(d, around, false);
      ActsOfOthers(around.beforeGuard);
      ActsOfOwn(Unlink);
      ActsOfBoth(Others(around.beforeGuard), [Own(Unlink)]);
      assert around.beforeGuard + [] == around.beforeGuard;
      ActsOfBoth(front, guard.steps);
      MeddlingGoesOn(disk, around.beforePrepare, Some(own), around.beforeGuard);
    } else {
      RefusedReplacementPutsBack(d, policy, around);
      var w := Replaced(d, policy, around);
      ActsOfBoth(front, w.steps);
      MeddlingGoesOn(disk, around.beforePrepare, Some(own), ActsOf(w.steps));
    }
  }

  /** A write leaves nothing at the temporary unless removing it failed twice, and
      says so whenever the removal failed once; one that was not prepared leaves
      nothing unless its guard failed. */
  lemma {:induction false} LeavingTheTemporaryWarns(disk: Disk, own: DiskState, policy: Policy, around: Around)
    ensures var w := Written(disk, own, policy, around);
            && (w.written && w.disk.temporary.Some? ==> w.warned && around.settleFails && around.guardFails)
            && (w.warned ==> w.written && policy.Expected? && around.settleFails)
            && (w.written && Own(Swap(around.tick)) in w.steps && around.settleFails ==> w.warned)
            && (around.prepareFails ==> !w.written && (w.disk.temporary.Some? <==> around.guardFails))
  {
    hide Meddled, DiskState.MatchesDisplaced;
  }

  /** A write whose replacement fails before anything is moved does nothing but
      prepare its temporary, and one that could not prepare it nothing but clean
      up. */
  lemma {:induction false} FailingEarlyMovesNothing(disk: Disk, own: DiskState, policy: Policy, around: Around)
    requires around.prepareFails || around.installFails
    ensures var w := Written(disk, own, policy, around);
            && !w.written
            && forall step :: step in w.steps && step.Own? ==>
                 step.operation == Place(own) || (around.prepareFails && step.operation == Unlink)
  {
    hide Meddled, DiskState.MatchesDisplaced;
  }

  predicate Undisturbed(around: Around) {
    && around.beforeCheck == [] && around.beforePrepare == []
    && around.beforeInstall == [] && around.beforeInspect == []
    && around.beforeSettle == [] && around.beforeRecreate == [] && around.beforeGuard == [] && around.beforeVerify == []
    && !around.checkFails && !around.prepareFails && !around.installFails && !around.inspectFails
    && !around.settleFails && !around.recreateFails && !around.guardFails && !around.verifyFails
  }

  /** Left alone, a write goes through exactly when its policy allows what is
      there, and then leaves the new contents and no temporary. */
  lemma {:induction false} UndisturbedWrite(disk: Disk, own: DiskState, policy: Policy, around: Around)
    requires Undisturbed(around)
    ensures var w := Written(disk, own, policy, around);
            && (w.written <==>
                  match policy
                  case Force => true
                  case NoReplace => disk.destination.None?
                  case Expected(state) => disk.destination.None? || disk.destination.value.MatchesDisplaced(state))
            && (w.written ==>
                  w.disk.temporary.None? && w.disk.destination == Some(own.Renamed(around.tick)) && !w.warned)
            && (!w.written ==> disk.destination.Some? && Holds(w.disk, disk.destination.value))
  {
  }

  // --------------------------------------------------------- as carried out

  /** The folder a save works in, and every step taken in it since it was looked
      at first. */
  class Folder {
    var destination: Option<DiskState>
    var temporary: Option<DiskState>
    ghost const start: Disk
    ghost var steps: seq<Step>

    function State(): Disk
      reads this
    {
      Disk(destination, temporary)
    }

    /** The steps recorded lead to where the two paths are. */
    ghost predicate Traced()
      reads this
    {
      Ran(start, steps) == State()
    }

    constructor (found: Option<DiskState>)
      ensures State() == start == Disk(found, None) && steps == [] && Traced()
    {
      destination, temporary := found, None;
      start, steps := Disk(found, None), [];
    }

    /** Other programs get their turn. */
    method Meddle(acts: seq<Outside>)
      requires Traced()
      modifies this
      ensures Traced() && steps == old(steps) + Others(acts)
      ensures State() == Meddled(old(State()), acts)
    {
      RanJoins(start, steps, Others(acts));
      OthersMeddle(State(), acts);
      for i := 0 to |acts|
        invariant Meddled(State(), acts[i..]) == Meddled(old(State()), acts)
        invariant steps == old(steps)
      {
        assert acts[i..][0] == acts[i] && acts[i..][1..] == acts[i + 1..];
        match acts[i]
        case Create(version) =>
          if destination.None? {
            destination := Some(version);
          }
        case Overwrite(contents, modified, changed) =>
          if destination.Some? {
            destination := Some(destination.value.(contents := contents, modified := modified, changed := changed));
          }
        case Replace(version) => destination := Some(version);
        case Delete => destination := None;
      }
      steps := steps + Others(acts);
    }

    /** Carries out one operation of the save, if it is possible. */
    method Perform(op: Operation, fails: bool) returns (ok: bool)
      requires Traced()
      modifies this
      ensures ok <==> !fails && Possible(old(State()), op)
      ensures Traced() && steps == old(steps) + if ok then [Own(op)] else []
      ensures State() == if ok then Performed(old(State()), op) else old(State())
    {
      assert steps + [] == steps;
      if fails || !Possible(State(), op) {
        return false;
      }
      RanJoins(start, steps, [Own(op)]);
      match op {
        case Place(version) => temporary := Some(version);
        case Swap(tick) =>
          destination, temporary := Some(temporary.value.Renamed(tick)), Some(destination.value.Renamed(tick));
        case RenameNew(tick) => destination, temporary := Some(temporary.value.Renamed(tick)), None;
        case RenameOver(tick) => destination, temporary := Some(temporary.value.Renamed(tick)), None;
        case Unlink => temporary := None;
      }
      steps := steps + [Own(op)];
      ok := true;
    }

    /** What the guard of the temporary does when it is dropped. */
    method DropGuard(around: Around, written: bool) returns (warned: bool)
      requires Traced() && temporary.Some?
      modifies this
      ensures Traced()
      ensures Write(steps, State(), written, warned) == Guarded(old(State()), around, written).After(old(steps))
    {
      Meddle(around.beforeGuard);
      var removed := Perform(Unlink, around.guardFails);
      warned := written;
    }

    /** Looks at what a swap displaced, and removes it or puts it back. */
    method Settle(state: DiskState, around: Around) returns (ok: bool, warned: bool)
      requires Traced() && temporary.Some?
      modifies this
      ensures Traced()
      ensures Write(steps, State(), ok, warned) == Settled(old(State()), state, around).After(old(steps))
    {
      hide Meddled, Ran, DiskState.MatchesDisplaced;
      warned := false;
      var found := temporary.value;
      Meddle(around.beforeSettle);
      if !around.inspectFails && found.MatchesDisplaced(state) {
        var removed := Perform(Unlink, around.settleFails);
        if !removed {
          warned := DropGuard(around, true);
        }
        return true, warned;
      }
      // Put the displaced file back; on every failure the temporary stays.
      var restored := Perform(Swap(around.tick), around.settleFails);
      ok := false;
    }

    /** Replaces the destination by the temporary, under a policy. */
    method ReplaceFile(policy: Policy, around: Around) returns (ok: bool, warned: bool)
      requires Traced() && temporary.Some?
      modifies this
      ensures Traced()
      ensures Write(steps, State(), ok, warned) == Replaced(old(State()), policy, around).After(old(steps))
    {
      hide Meddled, Ran, Settled, Others;
      warned := false;
      Meddle(around.beforeInstall);
      ghost var before := steps;
      if policy.Force? {
        ok := Perform(RenameOver(around.tick), around.installFails);
        return;
      }
      if policy.NoReplace? {
        ok := Perform(RenameNew(around.tick), around.installFails);
        return;
      }
      var swapped := Perform(Swap(around.tick), around.installFails);
      if swapped {
        Meddle(around.beforeInspect);
        assert steps == before + ([Own(Swap(around.tick))] + Others(around.beforeInspect));
        ok, warned := Settle(policy.state, around);
        return;
      }
      assert before + [] == before;
      if around.installFails {
        return false, false;
      }
      Meddle(around.beforeRecreate);
      ok := Perform(RenameNew(around.tick), around.recreateFails);
    }

    /** Prepares a temporary that holds `own` and replaces the destination. */
    method AtomicWrite(own: DiskState, policy: Policy, around: Around) returns (ok: bool, warned: bool)
      requires Traced() && temporary.None?
      modifies this
      ensures Traced()
      ensures Write(steps, State(), ok, warned) == Written(old(State()), own, policy, around).After(old(steps))
    {
      hide Replaced, Guarded, Ran, Meddled, Others;
      Meddle(around.beforePrepare);
      var placed := Perform(Place(own), false);
      if around.prepareFails {
        warned := DropGuard(around, false);
        return false, warned;
      }
      ok, warned := ReplaceFile(policy, around);
    }
  }
}
