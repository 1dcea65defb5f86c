/** The open file as an object: its text, its history, and its disk baseline. */
module Buffers {
  import opened Wrappers
  import opened Checkpoints
  import opened Documents
  import opened Disks
  import H = Histories
  import T = Texts

  class Buffer {
    const path: string
    const readOnly: bool
    var text: string
    var undo: seq<Checkpoint>
    var redo: seq<Checkpoint>
    var undoGroup: Option<seq<T.Transaction>>
    var savedText: Option<string>
    var dirty: bool
    var writeUncertain: bool
    var diskState: Option<DiskState>
    var diskGeneration: nat
    var status: Status
    var observation: Option<Observation>
    var reported: Option<Observation>
    /** The states the two stacks connect, oldest first. */
    ghost var timeline: seq<string>

    function History(): H.History
      reads this
    {
      H.History(text, undo, redo, undoGroup)
    }

    function Record(): Document
      reads this
    {
      Document.Document(path, text, savedText, dirty, writeUncertain, diskState, diskGeneration, status, observation,
                        reported)
    }

    ghost predicate Valid()
      reads this
    {
      H.Timeline(History(), timeline) && H.Bounded(History()) && Record().DirtyIsExact()
    }

    constructor (path: string, readOnly: bool, contents: string, state: Option<DiskState>)
      ensures Valid()
      ensures History() == H.History(contents, [], [], None) && timeline == [contents]
      ensures Record() == Document.Document(path, contents, Some(contents), false, false, state, 0, Synchronized,
                                            None, None)
    {
      this.path, this.readOnly := path, readOnly;
      text, undo, redo, undoGroup := contents, [], [], None;
      savedText, dirty, writeUncertain := Some(contents), false, false;
      diskState, diskGeneration, status, observation, reported := state, 0, Synchronized, None, None;
      timeline := [contents];
      new;
      H.FreshTimeline(contents);
    }

    // ------------------------------------------------------------- history

    method UpdateDirty()
      modifies this`dirty
      ensures Record() == old(Record()).DirtyUpdated()
    {
      dirty := writeUncertain || (match savedText case None => true case Some(saved) => text != saved);
    }

    /** Edits the text and puts the inverse on the group, or on the undo stack. */
    method Apply(changes: T.Transaction) returns (done: bool)
      requires Valid() && T.Ordered(changes, |text|)
      modifies this
      ensures Valid()
      ensures done <==> !readOnly && !T.IsEmpty(changes)
      ensures History() == if done then H.Edited(old(History()), changes) else old(History())
      ensures timeline == if done then H.StatesAfter(old(History()), old(timeline), H.Apply(changes)) else old(timeline)
      ensures Record() == old(Record()).(text := text, dirty := dirty)
    {
      hide T.Applied, T.Inverse, H.Timeline, H.StatesAfter, H.Bounded, T.Ordered;
      if readOnly || T.IsEmpty(changes) {
        return false;
      }
      H.StepKeepsTimeline(History(), timeline, H.Apply(changes));
      ghost var states := H.StatesAfter(History(), timeline, H.Apply(changes));
      var after, inverse := T.Apply(T.Text(text, 0), changes, 0);
      text := after.chars;
      if undoGroup.Some? {
        undoGroup := Some(undoGroup.value + [inverse]);
      } else {
        undo := undo + [[inverse]];
        if |undo| > H.HISTORY_LIMIT {
          undo := undo[1..];
        }
      }
      redo := [];
      UpdateDirty();
      timeline := states;
      done := true;
    }

    /** Opens a group, unless one is open already. */
    method BeginUndoGroup()
      requires Valid()
      modifies this
      ensures Valid()
      ensures History() == H.Begun(old(History())) && timeline == old(timeline)
      ensures Record() == old(Record())
    {
      H.StepKeepsTimeline(History(), timeline, H.Begin);
      if undoGroup.None? {
        undoGroup := Some([]);
      }
    }

    /** Ends the group; one with edits becomes the top of the undo stack. */
    method CommitUndoGroup()
      requires Valid()
      modifies this
      ensures Valid()
      ensures History() == H.Committed(old(History()))
      ensures timeline == H.CommittedStates(old(History()), old(timeline))
      ensures Record() == old(Record())
    {
      H.StepKeepsTimeline(History(), timeline, H.Commit);
      ghost var states := H.CommittedStates(History(), timeline);
      if undoGroup.None? {
        return;
      }
      var group := undoGroup.value;
      undoGroup := None;
      timeline := states;
      if group == [] {
        return;
      }
      undo := undo + [Reversed(group)];
      if |undo| > H.HISTORY_LIMIT {
        undo := undo[1..];
      }
    }

    /** Applies a checkpoint, collecting the one that takes it back. */
    method Replay(checkpoint: Checkpoint) returns (back: Checkpoint)
      requires T.Applicable(text, checkpoint)
      modifies this`text
      ensures text == T.AppliedAll(old(text), checkpoint)
      ensures back == TakingBack(old(text), checkpoint)
    {
      hide T.Applied, T.Inverse, T.Ordered;
      var reverts: seq<T.Transaction> := [];
      for i := 0 to |checkpoint|
        invariant T.Applicable(text, checkpoint[i..])
        invariant T.AppliedAll(text, checkpoint[i..]) == T.AppliedAll(old(text), checkpoint)
        invariant reverts + Reverts(text, checkpoint[i..]) == Reverts(old(text), checkpoint)
      {
        assert checkpoint[i..][0] == checkpoint[i] && checkpoint[i..][1..] == checkpoint[i + 1..];
        var after, inverse := T.Apply(T.Text(text, 0), checkpoint[i], 0);
        assert reverts + ([inverse] + Reverts(after.chars, checkpoint[i + 1..]))
            == (reverts + [inverse]) + Reverts(after.chars, checkpoint[i + 1..]);
        text := after.chars;
        reverts := reverts + [inverse];
      }
      assert reverts + [] == reverts;
      back := Reversed(reverts);
    }

    /** Takes the top of the undo stack back, and puts what redoes it on the other. */
    method Undo() returns (applied: Option<Checkpoint>)
      requires Valid()
      modifies this
      ensures Valid() && H.CanUndo(old(History()))
      ensures readOnly ==> applied == None && History() == old(History()) && timeline == old(timeline)
      ensures !readOnly ==> History() == H.Undone(old(History()))
      ensures !readOnly ==> timeline == H.CommittedStates(old(History()), old(timeline))
      ensures !readOnly ==> (applied.Some? <==> H.Committed(old(History())).undo != [])
      ensures Record() == old(Record()).(text := text, dirty := dirty)
    {
      hide TakingBack, H.Timeline, H.Bounded, T.Applicable, T.AppliedAll;
      H.StepKeepsTimeline(History(), timeline, H.Undo);
      ghost var was := History();
      if readOnly {
        return None;
      }
      CommitUndoGroup();
      if |undo| == 0 {
        return None;
      }
      var top := undo[|undo| - 1];
      undo := undo[..|undo| - 1];
      var back := Replay(top);
      redo := redo + [back];
      UpdateDirty();
      applied := Some(top);
    }

    /** The same with the two stacks changed about. */
    method Redo() returns (applied: Option<Checkpoint>)
      requires Valid()
      modifies this
      ensures Valid() && H.CanRedo(old(History()))
      ensures readOnly ==> applied == None && History() == old(History()) && timeline == old(timeline)
      ensures !readOnly ==> History() == H.Redone(old(History()))
      ensures !readOnly ==> timeline == H.CommittedStates(old(History()), old(timeline))
      ensures !readOnly ==> (applied.Some? <==> H.Committed(old(History())).redo != [])
      ensures Record() == old(Record()).(text := text, dirty := dirty)
    {
      hide TakingBack, H.Timeline, H.Bounded, T.Applicable, T.AppliedAll;
      H.StepKeepsTimeline(History(), timeline, H.Redo);
      if readOnly {
        return None;
      }
      CommitUndoGroup();
      if |redo| == 0 {
        return None;
      }
      var top := redo[|redo| - 1];
      redo := redo[..|redo| - 1];
      var back := Replay(top);
      undo := undo + [back];
      UpdateDirty();
      applied := Some(top);
    }

    // ------------------------------------------------------- disk baseline

    method MarkWriteUncertain()
      requires Valid()
      modifies this
      ensures Valid() && Record() == old(Record()).MarkedUncertain()
      ensures History() == old(History()) && timeline == old(timeline)
    {
      writeUncertain, dirty := true, true;
    }

    method MarkSaved()
      modifies this`writeUncertain, this`savedText, this`dirty
      ensures Record() == old(Record()).MarkedSaved()
      ensures old(Valid()) ==> Valid()
    {
      writeUncertain, savedText, dirty := false, Some(text), false;
    }

    method ClearExternalFileState()
      modifies this`status, this`observation, this`reported
      ensures Record() == old(Record()).Cleared()
    {
      status, observation, reported := Synchronized, None, None;
    }

    method AcceptDocumentSave(saved: SavedDocument) returns (taken: bool)
      requires Valid()
      modifies this
      ensures Valid() && Record() == old(Record()).SaveAccepted(saved)
      ensures taken <==> path == saved.path && old(diskGeneration) == saved.generation && saved.state.Some?
      ensures taken ==> savedText == Some(saved.text) && (dirty <==> text != saved.text)
      ensures History() == old(History()) && timeline == old(timeline)
    {
      hide H.Timeline, H.Bounded;
      if path != saved.path || diskGeneration != saved.generation {
        return false;
      }
      if saved.state.None? {
        return false;
      }
      diskState := saved.state;
      savedText := Some(saved.text);
      writeUncertain := false;
      diskGeneration := diskGeneration + 1;
      ClearExternalFileState();
      UpdateDirty();
      taken := true;
    }

    method ApplyFileObservation(event: ObservationEvent) returns (outcome: Outcome)
      requires Valid()
      modifies this
      ensures Valid() && (Record(), outcome) == old(Record()).Observed(event)
      ensures History() == old(History()) && timeline == old(timeline)
    {
      hide H.Timeline, H.Bounded;
      if path != event.path || diskGeneration != event.generation {
        return Ignored;
      }
      var seen := event.observation;
      if seen.TextSeen? && !writeUncertain {
        if diskState == Some(seen.state) {
          ClearExternalFileState();
          return InStep;
        }
        if text == seen.text {
          diskState := Some(seen.state);
          diskGeneration := diskGeneration + 1;
          savedText := Some(text);
          dirty := false;
          ClearExternalFileState();
          return Converged;
        }
      }
      status :=
        match seen
        case TextSeen(_, _) => Changed
        case DeletedSeen => Deleted
        case BinarySeen(_) => Binary
        case DirectorySeen => Unreadable
        case UnreadableSeen(_) => Unreadable;
      var notify := reported != Some(seen);
      observation := Some(seen);
      if notify {
        reported := Some(seen);
      }
      outcome := Stale(notify);
    }

    method Reload(contents: string, state: DiskState)
      requires Valid()
      modifies this
      ensures Valid() && Record() == old(Record()).Reloaded(contents, state)
      ensures History() == H.History(contents, [], [], None) && timeline == [contents]
    {
      hide H.Bounded;
      diskState := Some(state);
      text := contents;
      undo, redo, undoGroup := [], [], None;
      timeline := [contents];
      H.FreshTimeline(contents);
      AcceptCurrentAsDiskBaseline();
    }

    /** The current text becomes the disk baseline; observations in flight retire. */
    method AcceptCurrentAsDiskBaseline()
      modifies this`writeUncertain, this`savedText, this`dirty, this`diskGeneration, this`status, this`observation,
          this`reported
      ensures Record() == old(Record()).BaselineAccepted()
      ensures Record().DirtyIsExact()
    {
      MarkSaved();
      diskGeneration := diskGeneration + 1;
      ClearExternalFileState();
    }

    /** Inspects what a write left, and accepts it as the baseline if it is the
        contents written. */
    method VerifySave(folder: Folder, own: DiskState, around: Around, ghost write: Write) returns (verified: bool)
      requires Record().DirtyIsExact() && folder.Traced()
      requires write.steps == folder.steps && write.disk == folder.State()
      modifies this`writeUncertain, this`savedText, this`dirty, this`diskGeneration, this`status, this`observation,
               this`reported, this`diskState, folder
      ensures Record().DirtyIsExact() && folder.Traced()
      ensures SaveRun(Record(), folder.steps, folder.State(), true, verified)
              == Verified(old(Record()), own, around, write)
    {
      folder.Meddle(around.beforeVerify);
      verified := !around.verifyFails && folder.destination.Some? && folder.destination.value.SameContents(own);
      if verified {
        diskState := folder.destination;
        AcceptCurrentAsDiskBaseline();
      }
    }

    /** Saves to the file's own path; what is there must be what was recorded,
        unless `replace` is set. */
    method SaveWith(folder: Folder, replace: bool, own: DiskState, around: Around) returns (saved: bool, verified: bool)
      requires Valid() && own.contents == text
      requires folder.Traced() && folder.steps == [] && folder.temporary.None?
      modifies this, folder
      ensures Valid() && folder.Traced()
      ensures History() == old(History()) && timeline == old(timeline)
      ensures SaveRun(Record(), folder.steps, folder.State(), saved, verified)
           == if readOnly then SaveRun(old(Record()), [], old(folder.State()), false, false)
              else Saved(old(Record()), old(folder.State()), replace, own, around)
    {
      hide Meddled, Written, H.Timeline, Verified, Document.DirtyIsExact, Others, Folder.Traced;
      if readOnly {
        return false, false;
      }
      folder.Meddle(around.beforeCheck);
      assert folder.steps == Others(around.beforeCheck);
      if !replace && diskState.Some? {
        if around.checkFails || (folder.destination.Some? && folder.destination.value != diskState.value) {
          return false, false;
        }
      }
      var policy := if replace then Force else if diskState.Some? then Expected(diskState.value) else NoReplace;
      var warned;
      saved, warned := folder.AtomicWrite(own, policy, around);
      if saved {
        verified := VerifySave(folder, own, around, Write(folder.steps, folder.State(), saved, warned));
      } else {
        verified := false;
      }
    }
  }
}
