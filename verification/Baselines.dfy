/** Which text a document is compared with, and what its status tells, in every
    run of edits, saves, reports, observations and reloads. */
module Baselines {
  import opened Wrappers
  import opened Disks
  import opened Documents

  // ----------------------------------------------------- what counts as saved

  /** What the disk is taken to hold once an event makes a baseline: the text a
      save reported, the text seen, the contents reloaded, or what a verified
      save found at the destination. */
  function Accepting(d: Document, event: DocumentEvent): (string, Option<DiskState>)
    requires Accepts(d, event)
  {
    match event
    case AcceptSave(saved) => (saved.text, saved.state)
    case Observe(seen) => (seen.observation.text, Some(seen.observation.state))
    case Reload(contents, state) => (contents, Some(state))
    case Save(disk, replace, modified, identity, access, around) =>
      var r := Saved(d, disk, replace, DiskState(d.text, modified, identity, access, 1, 0), around);
      (if r.disk.destination.Some? then r.disk.destination.value.contents else "", r.disk.destination)
  }

  /** What the disk is taken to hold, and whether a write has made that uncertain
      since. */
  datatype Belief = Belief(contents: Option<string>, state: Option<DiskState>, uncertain: bool)

  function BeliefAfter(b: Belief, d: Document, events: seq<DocumentEvent>): Belief
    decreases |events|
  {
    if events == [] then b
    else
      BeliefAfter(
        if Accepts(d, events[0]) then
          Belief(Some(Accepting(d, events[0]).0), Accepting(d, events[0]).1, false)
        else if events[0].Uncertain? then b.(uncertain := true)
        else b,
        Next(d, events[0]), events[1..])
  }

  /** A save reported back in time leaves the reported text as the saved one, and
      the document dirty exactly if it has moved on from it. */
  lemma {:induction false} AcceptedSaveIsTheBaseline(d: Document, saved: SavedDocument)
    requires saved.path == d.path && saved.generation == d.generation && saved.state.Some?
    ensures var r := d.SaveAccepted(saved);
            && r.savedText == Some(saved.text) && r.diskState == saved.state && r.text == d.text
            && (r.dirty <==> d.text != saved.text)
            && !r.writeUncertain && r.status == Synchronized && r.generation == d.generation + 1
  {
  }

  lemma {:induction false} StepKeepsBelief(d: Document, event: DocumentEvent)
    requires d.DirtyIsExact()
    ensures var r := Next(d, event);
            if Accepts(d, event) then
              && r.savedText == Some(Accepting(d, event).0) && r.diskState == Accepting(d, event).1
              && !r.writeUncertain
            else
              && r.savedText == d.savedText && r.diskState == d.diskState
              && r.writeUncertain == (d.writeUncertain || event.Uncertain?)
  {
    if event.Save? {
      var own := DiskState(d.text, event.modified, event.identity, event.access, 1, 0);
      CleanOnlyIfVerified(d, event.disk, event.replace, own, event.around);
      hide Written, Meddled;
    }
  }

  /** In every reachable state the document is dirty exactly if a write has been
      uncertain since the last baseline, there has been none, or its text is not
      the one that baseline brought. */
  lemma {:induction false} EveryRunComparesWithTheLastBaseline(d: Document, events: seq<DocumentEvent>)
    requires d.DirtyIsExact()
    ensures var r := AfterAll(d, events);
            var b := BeliefAfter(Belief(d.savedText, d.diskState, d.writeUncertain), d, events);
            && (r.dirty <==> b.uncertain || b.contents != Some(r.text))
            && r.diskState == b.state
  {
    BeliefIsKept(d, events);
    EveryRunIsExact(d, events);
  }

  lemma {:induction false} BeliefIsKept(d: Document, events: seq<DocumentEvent>)
    requires d.DirtyIsExact()
    ensures var r := AfterAll(d, events);
            BeliefAfter(Belief(d.savedText, d.diskState, d.writeUncertain), d, events)
            == Belief(r.savedText, r.diskState, r.writeUncertain)
    decreases |events|
  {
    hide Next, Accepts, Accepting, Document.DirtyIsExact;
    if events != [] {
      StepKeepsBelief(d, events[0]);
      StepIsSound(d, events[0]);
      BeliefIsKept(Next(d, events[0]), events[1..]);
    }
  }

  /** After an accepted report and any further events, as long as none of them
      makes another baseline or leaves a write uncertain, the document is dirty
      exactly if its text is not the reported one. */
  lemma {:induction false} ReportedTextStaysTheBaseline(d: Document, saved: SavedDocument, events: seq<DocumentEvent>)
    requires d.DirtyIsExact()
    requires saved.path == d.path && saved.generation == d.generation && saved.state.Some?
    requires Accepted(d.SaveAccepted(saved), events) == 0
    requires forall i :: 0 <= i < |events| ==> !events[i].Uncertain?
    ensures AfterAll(d.SaveAccepted(saved), events).dirty
       <==> AfterAll(d.SaveAccepted(saved), events).text != saved.text
  {
    AcceptedSaveIsTheBaseline(d, saved);
    hide Document.SaveAccepted;
    EveryRunComparesWithTheLastBaseline(d.SaveAccepted(saved), events);
    NoNewsKeepsTheBelief(Belief(Some(saved.text), saved.state, false), d.SaveAccepted(saved), events);
  }

  lemma {:induction false} NoNewsKeepsTheBelief(b: Belief, d: Document, events: seq<DocumentEvent>)
    requires Accepted(d, events) == 0 && forall i :: 0 <= i < |events| ==> !events[i].Uncertain?
    ensures BeliefAfter(b, d, events) == b
    decreases |events|
  {
    hide Next, Accepts, Accepting;
    if events != [] {
      NoNewsKeepsTheBelief(b, Next(d, events[0]), events[1..]);
    }
  }

  // ------------------------------------------------- what the status tells

  /** The status is that of the observation it stands for; synchronized if there
      is none. */
  predicate StatusTells(d: Document) {
    match d.status
    case Synchronized => d.observation.None?
    case Changed => d.observation.Some? && d.observation.value.TextSeen?
    case Deleted => d.observation == Some(DeletedSeen)
    case Binary => d.observation.Some? && d.observation.value.BinarySeen?
    case Unreadable =>
      d.observation.Some? && (d.observation.value.DirectorySeen? || d.observation.value.UnreadableSeen?)
  }

  /** The last observation of this very file in a run that has not been overtaken
      by a baseline, and was not in step with one. */
  function Outstanding(seen: Option<Observation>, d: Document, events: seq<DocumentEvent>): Option<Observation>
    decreases |events|
  {
    if events == [] then seen
    else
      var event := events[0];
      Outstanding(
        if Accepts(d, event) then None
        else if event.Observe? && event.event.path == d.path && event.event.generation == d.generation then
          if InStepWith(d, event.event.observation) then None else Some(event.event.observation)
        else seen,
        Next(d, event), events[1..])
  }

  predicate InStepWith(d: Document, seen: Observation) {
    seen.TextSeen? && !d.writeUncertain && d.diskState == Some(seen.state)
  }

  lemma {:induction false} StepKeepsOutstanding(d: Document, event: DocumentEvent)
    requires StatusTells(d) && d.DirtyIsExact()
    ensures StatusTells(Next(d, event))
    ensures Next(d, event).observation ==
            if Accepts(d, event) then None
            else if event.Observe? && event.event.path == d.path && event.event.generation == d.generation then
              if InStepWith(d, event.event.observation) then None else Some(event.event.observation)
            else d.observation
  {
    if event.Save? {
      var own := DiskState(d.text, event.modified, event.identity, event.access, 1, 0);
      CleanOnlyIfVerified(d, event.disk, event.replace, own, event.around);
      hide Written, Meddled;
    }
  }

  /** In every run the status is that of the last observation of the file that
      found something else than the baseline, and synchronized if there is none
      since the last baseline. */
  lemma {:induction false} EveryRunTellsTheLastObservation(d: Document, events: seq<DocumentEvent>)
    requires StatusTells(d) && d.DirtyIsExact()
    ensures StatusTells(AfterAll(d, events))
    ensures AfterAll(d, events).observation == Outstanding(d.observation, d, events)
    decreases |events|
  {
    hide Next, Accepts, StatusTells, Document.DirtyIsExact, InStepWith;
    if events != [] {
      StepKeepsOutstanding(d, events[0]);
      StepIsSound(d, events[0]);
      EveryRunTellsTheLastObservation(Next(d, events[0]), events[1..]);
    }
  }

  /** A stale observation is told once: again only after something else was. */
  lemma {:induction false} ToldOnce(d: Document, seen: ObservationEvent)
    requires d.Observed(seen).1.Stale?
    ensures d.Observed(seen).1.notify <==> d.reported != Some(seen.observation)
    ensures var r := d.Observed(seen).0;
            r.Observed(seen).1 == Stale(false) && r.text == d.text && r.dirty == d.dirty
  {
  }
}
