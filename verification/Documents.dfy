/** What an open file knows about its copy on disk: the saved text, the recorded
    disk state, and whether the two still agree with the buffer. */
module Documents {
  import opened Wrappers
  import opened Disks

  /** One complete observation of a path. */
  datatype Observation =
    | TextSeen(text: string, state: DiskState)
    | DirectorySeen
    | DeletedSeen
    | BinarySeen(digest: string)
    | UnreadableSeen(message: string)

  datatype Status = Synchronized | Changed | Deleted | Binary | Unreadable

  datatype ObservationEvent = ObservationEvent(path: string, generation: nat, observation: Observation)

  datatype Outcome = Ignored | InStep | Converged | Stale(notify: bool)

  /** A save carried out elsewhere, reporting back. */
  datatype SavedDocument = SavedDocument(path: string, text: string, state: Option<DiskState>, generation: nat)

  datatype Document = Document(
    path: string,
    text: string,
    savedText: Option<string>,
    dirty: bool,
    writeUncertain: bool,
    diskState: Option<DiskState>,
    generation: nat,
    status: Status,
    observation: Option<Observation>,
    reported: Option<Observation>)
  {
    /** The buffer holds something the disk is not known to hold. */
    predicate Differs() {
      writeUncertain || savedText.None? || savedText.value != text
    }

    predicate DirtyIsExact() {
      dirty <==> Differs()
    }

    function DirtyUpdated(): Document {
      this.(dirty := Differs())
    }

    function Cleared(): Document {
      this.(status := Synchronized, observation := None, reported := None)
    }

    function MarkedSaved(): Document {
      this.(writeUncertain := false, savedText := Some(text), dirty := false)
    }

    function MarkedUncertain(): Document {
      this.(writeUncertain := true, dirty := true)
    }

    /** The current text becomes the baseline; observations in flight retire. */
    function BaselineAccepted(): Document {
      MarkedSaved().(generation := generation + 1).Cleared()
    }

    function SaveAccepted(saved: SavedDocument): Document {
      if path != saved.path || generation != saved.generation || saved.state.None? then this
      else
        this.(diskState := saved.state, savedText := Some(saved.text), writeUncertain := false,
              generation := generation + 1)
            .Cleared().DirtyUpdated()
    }

    function StatusOf(seen: Observation): Status {
      match seen
      case TextSeen(_, _) => Changed
      case DeletedSeen => Deleted
      case BinarySeen(_) => Binary
      case DirectorySeen => Unreadable
      case UnreadableSeen(_) => Unreadable
    }

    function Reported(seen: Observation): (Document, Outcome) {
      var notify := reported != Some(seen);
      (this.(status := StatusOf(seen), observation := Some(seen), reported := if notify then Some(seen) else reported),
       Stale(notify))
    }

    /** What an observation of this file's own path and generation does. */
    function Noticed(seen: Observation): (Document, Outcome) {
      if seen.TextSeen? && !writeUncertain then
        if diskState == Some(seen.state) then (Cleared(), InStep)
        else if text == seen.text then
          (this.(diskState := Some(seen.state), generation := generation + 1, savedText := Some(text),
                 dirty := false).Cleared(),
           Converged)
        else Reported(seen)
      else Reported(seen)
    }

    function Observed(event: ObservationEvent): (Document, Outcome) {
      if path != event.path || generation != event.generation then (this, Ignored) else Noticed(event.observation)
    }

    function Reloaded(contents: string, state: DiskState): Document {
      this.(diskState := Some(state), text := contents).BaselineAccepted()
    }
  }

  /** A save of the document: what became of it and of the folder, step by step,
      and whether it went through and was verified. */
  datatype SaveRun = SaveRun(document: Document, steps: seq<Step>, disk: Disk, saved: bool, verified: bool)

  function PolicyFor(d: Document, replace: bool): Policy {
    if replace then Force else if d.diskState.Some? then Expected(d.diskState.value) else NoReplace
  }

  /** The file is there and is not exactly the one recorded. */
  predicate Conflicts(d: Document, disk: Disk, replace: bool) {
    !replace && d.diskState.Some? && disk.destination.Some? && disk.destination.value != d.diskState.value
  }

  /** Saving: compare, write and replace, then inspect what is there. */
  function Saved(d: Document, disk: Disk, replace: bool, own: DiskState, around: Around): SaveRun {
    var checked := Meddled(disk, around.beforeCheck);
    if !replace && d.diskState.Some? && (around.checkFails || Conflicts(d, checked, replace)) then
      SaveRun(d, Others(around.beforeCheck), checked, false, false)
    else
      var w := Written(checked, own, PolicyFor(d, replace), around).After(Others(around.beforeCheck));
      if !w.written then SaveRun(d, w.steps, w.disk, false, false) else Verified(d, own, around, w)
  }

  /** After a write: what is at the destination becomes the baseline if it holds
      the contents written. */
  function Verified(d: Document, own: DiskState, around: Around, w: Write): SaveRun {
    var seen := Meddled(w.disk, around.beforeVerify);
    var steps := w.steps + Others(around.beforeVerify);
    if !around.verifyFails && seen.destination.Some? && seen.destination.value.SameContents(own) then
      SaveRun(d.(diskState := seen.destination).BaselineAccepted(), steps, seen, true, true)
    else
      SaveRun(d, steps, seen, true, false)
  }

  // ------------------------------------------------------------- properties

  /** A failed save leaves the document exactly as it was. */
  lemma {:induction false} FailedSaveChangesNothing(d: Document, disk: Disk, replace: bool, own: DiskState,
                                                    around: Around)
    ensures !Saved(d, disk, replace, own, around).saved ==> Saved(d, disk, replace, own, around).document == d
  {
  }

  /** A save marks the document clean exactly when the contents found at the
      destination afterwards are the document's text. */
  lemma {:induction false} CleanOnlyIfVerified(d: Document, disk: Disk, replace: bool, own: DiskState, around: Around)
    requires own.contents == d.text && d.DirtyIsExact()
    ensures var r := Saved(d, disk, replace, own, around);
            && r.document.DirtyIsExact()
            && r.document.text == d.text
            && (r.verified ==> r.disk.destination.Some? && r.disk.destination.value.contents == d.text
                               && r.document.diskState == r.disk.destination && !r.document.dirty
                               && r.document.generation == d.generation + 1)
            && (!r.verified ==> r.document == d)
            && (r.verified <==>
                  r.saved && !around.verifyFails && r.disk.destination.Some?
                  && r.disk.destination.value.contents == d.text)
  {
  }

  /** Left alone, a save that is not forced goes through exactly when the file
      is gone or is the one recorded, and then the disk holds the text. */
  lemma {:induction false} UndisturbedSave(d: Document, disk: Disk, own: DiskState, around: Around)
    requires Undisturbed(around) && own.contents == d.text
    ensures var r := Saved(d, disk, false, own, around);
            && (r.saved <==> disk.destination.None? || disk.destination == d.diskState)
            && (r.saved ==> r.verified && !r.document.dirty && r.disk.temporary.None?
                            && r.disk.destination == Some(own.Renamed(around.tick)))
            && (!r.saved ==> Holds(r.disk, disk.destination.value))
  {
    hide Written;
    UndisturbedWrite(disk, own, PolicyFor(d, false), around);
  }

  /** A save that is not forced and finds the file other than recorded, or cannot
      tell, takes no step of its own. */
  lemma {:induction false} ConflictStopsTheSave(d: Document, disk: Disk, own: DiskState, around: Around)
    requires d.diskState.Some?
    requires var found := Meddled(disk, around.beforeCheck).destination;
             around.checkFails || (found.Some? && found != d.diskState)
    ensures var r := Saved(d, disk, false, own, around);
            !r.saved && r.document == d && forall step :: step in r.steps ==> step.Other?
  {
    hide Written, Meddled;
  }

  /** Left alone, a save that is forced always goes through. */
  lemma {:induction false} UndisturbedForcedSave(d: Document, disk: Disk, own: DiskState, around: Around)
    requires Undisturbed(around)
    ensures var r := Saved(d, disk, true, own, around);
            && r.saved && r.verified && r.disk.temporary.None? && r.disk.destination == Some(own.Renamed(around.tick))
  {
    hide Written;
    UndisturbedWrite(disk, own, Force, around);
  }

  /** A save that fails, is left alone after its swap and can swap back, leaves
      the destination as the others alone would have left it; and its own file
      at the temporary, if it came to preparing it. */
  lemma {:induction false} RefusedSavePutsBack(d: Document, disk: Disk, replace: bool, own: DiskState, around: Around)
    requires !Saved(d, disk, replace, own, around).saved
    requires around.beforeInspect == [] && around.beforeSettle == [] && !around.settleFails
    ensures var r := Saved(d, disk, replace, own, around);
            && SameFile(r.disk.destination, Meddled(disk, ActsOf(r.steps)).destination)
            && (Own(Place(own)) in r.steps && !around.prepareFails ==> SameFile(r.disk.temporary, Some(own)))
  {
    hide Written, Meddled, ActsOf, Conflicts;
    var checked := Meddled(disk, around.beforeCheck);
    ActsOfOthers(around.beforeCheck);
    if replace || d.diskState.None? || !(around.checkFails || Conflicts(d, checked, replace)) {
      var policy := PolicyFor(d, replace);
      var w := Written(checked, own, policy, around);
      RefusedWritePutsBack(checked, own, policy, around);
      ActsOfBoth(Others(around.beforeCheck), w.steps);
      MeddlingGoesOn(disk, around.beforeCheck, checked.temporary, ActsOf(w.steps));
    }
  }

  // ------------------------------------------------------------- every run

  datatype DocumentEvent =
    | Edit(text: string)
    | Uncertain
    | AcceptSave(saved: SavedDocument)
    | Observe(event: ObservationEvent)
    | Reload(contents: string, state: DiskState)
    | Save(disk: Disk, replace: bool, modified: nat, identity: nat, access: nat, around: Around)

  function Next(d: Document, event: DocumentEvent): Document {
    match event
    case Edit(text) => d.(text := text).DirtyUpdated()
    case Uncertain => d.MarkedUncertain()
    case AcceptSave(saved) => d.SaveAccepted(saved)
    case Observe(seen) => d.Observed(seen).0
    case Reload(contents, state) => d.Reloaded(contents, state)
    case Save(disk, replace, modified, identity, access, around) =>
      Saved(d, disk, replace, DiskState(d.text, modified, identity, access, 1, 0), around).document
  }

  function AfterAll(d: Document, events: seq<DocumentEvent>): Document
    decreases |events|
  {
    if events == [] then d else AfterAll(Next(d, events[0]), events[1..])
  }

  /** The event makes something the new disk baseline: a save reported back in
      time, an observation that the text already agrees with, a reload, or a save
      that was verified. */
  predicate Accepts(d: Document, event: DocumentEvent) {
    match event
    case Edit(_) => false
    case Uncertain => false
    case AcceptSave(saved) => saved.path == d.path && saved.generation == d.generation && saved.state.Some?
    case Observe(seen) =>
      && seen.path == d.path && seen.generation == d.generation
      && seen.observation.TextSeen? && !d.writeUncertain
      && d.diskState != Some(seen.observation.state) && d.text == seen.observation.text
    case Reload(_, _) => true
    case Save(disk, replace, modified, identity, access, around) =>
      Saved(d, disk, replace, DiskState(d.text, modified, identity, access, 1, 0), around).verified
  }

  /** How many baselines a run accepts. */
  function Accepted(d: Document, events: seq<DocumentEvent>): nat
    decreases |events|
  {
    if events == [] then 0
    else (if Accepts(d, events[0]) then 1 else 0) + Accepted(Next(d, events[0]), events[1..])
  }

  /** One step: dirty stays exact, and the generation counts the baselines that
      are accepted; without one, what the disk is taken to hold stays the same. */
  lemma {:induction false} StepIsSound(d: Document, event: DocumentEvent)
    requires d.DirtyIsExact()
    ensures Next(d, event).DirtyIsExact()
    ensures Next(d, event).generation == d.generation + if Accepts(d, event) then 1 else 0
    ensures Next(d, event).path == d.path
    ensures !Accepts(d, event) ==> Next(d, event).diskState == d.diskState && Next(d, event).savedText == d.savedText
  {
    if event.Save? {
      var own := DiskState(d.text, event.modified, event.identity, event.access, 1, 0);
      CleanOnlyIfVerified(d, event.disk, event.replace, own, event.around);
      SavingKeepsThePath(d, event.disk, event.replace, own, event.around);
      hide Saved;
    }
  }

  lemma {:induction false} SavingKeepsThePath(d: Document, disk: Disk, replace: bool, own: DiskState, around: Around)
    ensures Saved(d, disk, replace, own, around).document.path == d.path
  {
    hide Written, Meddled;
  }

  /** In every reachable state the document is dirty exactly when a write is
      uncertain, nothing was saved, or the text differs from what was; and its
      generation is the number of baselines accepted since. */
  lemma {:induction false} EveryRunIsExact(d: Document, events: seq<DocumentEvent>)
    requires d.DirtyIsExact()
    ensures AfterAll(d, events).DirtyIsExact()
    ensures AfterAll(d, events).path == d.path
    ensures AfterAll(d, events).generation == d.generation + Accepted(d, events)
    ensures Accepted(d, events) == 0 ==>
              AfterAll(d, events).diskState == d.diskState && AfterAll(d, events).savedText == d.savedText
    decreases |events|
  {
    hide Next, Document.DirtyIsExact, Accepts;
    if events != [] {
      StepIsSound(d, events[0]);
      EveryRunIsExact(Next(d, events[0]), events[1..]);
    }
  }

  /** An observation asked for before some baseline was accepted, be it one with
      the same contents, changes nothing however the run went on. */
  lemma {:induction false} OldObservationsAreIgnored(d: Document, events: seq<DocumentEvent>, seen: ObservationEvent)
    requires d.DirtyIsExact() && seen.generation <= d.generation && Accepted(d, events) > 0
    ensures AfterAll(d, events).Observed(seen) == (AfterAll(d, events), Ignored)
  {
    EveryRunIsExact(d, events);
  }
}
