/** The hidden identities behind the rows of an editable directory listing. */
module Directories {
  import opened Wrappers

  datatype EntryKind = File | Directory | Symlink | Other

  /** One entry of a directory snapshot; its display name may be unprintable. */
  datatype Entry = Entry(id: nat, path: string, kind: EntryKind, name: Option<string>)

  /** What a row stands for: an entry of the snapshot, or one on its way in. */
  datatype Origin =
    | Snapshot(id: nat)
    | Transfer(source: string, kind: EntryKind, moves: bool, expected: nat)

  type Detached = map<string, seq<Origin>>

  /** The id a text names in the baseline; the last entry wins. */
  function LabelId(baseline: seq<Entry>, text: string): (id: Option<nat>)
    ensures id.Some? ==>
      exists i :: 0 <= i < |baseline| && baseline[i].name == Some(text) && baseline[i].id == id.value
                  && forall j :: i < j < |baseline| ==> baseline[j].name != Some(text)
    ensures id.None? ==> forall i :: 0 <= i < |baseline| ==> baseline[i].name != Some(text)
  {
    if baseline == [] then None
    else
      var front, last := baseline[..|baseline| - 1], baseline[|baseline| - 1];
      assert forall i :: 0 <= i < |front| ==> front[i] == baseline[i];
      if last.name == Some(text) then Some(last.id) else LabelId(front, text)
  }

  /** What one reconciliation works from. */
  datatype Edit = Edit(previous: seq<Option<Origin>>, before: seq<string>, after: seq<string>, baseline: seq<Entry>) {
    predicate Fits() {
      |previous| == |before|
    }

    /** A snapshot identity some row already carries. */
    predicate Carries(id: nat) {
      exists r :: 0 <= r < |previous| && previous[r] == Some(Snapshot(id))
    }

    predicate SameSize() {
      |before| == |after|
    }
  }

  /** How a row came by its identity. */
  datatype Via = Unset | FromRow(row: nat) | Copied(row: nat) | Restored(id: nat) | Popped

  /** The state of a reconciliation on its way through its passes. */
  datatype Matching = Matching(
    origins: seq<Option<Origin>>,
    resolved: seq<bool>,
    matched: seq<bool>,
    detached: Detached,
    via: seq<Via>)
  {
    predicate Fits(e: Edit) {
      && e.Fits()
      && |origins| == |resolved| == |via| == |e.after|
      && |matched| == |e.previous|
    }

    function Resolve(row: nat, origin: Option<Origin>, how: Via): Matching
      requires row < |origins| && row < |resolved| && row < |via|
    {
      this.(origins := origins[row := origin], resolved := resolved[row := true], via := via[row := how])
    }

    function Match(source: nat): Matching
      requires source < |matched|
    {
      this.(matched := matched[source := true])
    }
  }

  function Fresh(e: Edit, detached: Detached): Matching {
    Matching(seq(|e.after|, _ => None), seq(|e.after|, _ => false), seq(|e.previous|, _ => false), detached,
             seq(|e.after|, _ => Unset))
  }

  // ------------------------------------------------------------- the passes

  /** The first unmatched old row that says `text`, from `from` on. */
  function Unclaimed(before: seq<string>, matched: seq<bool>, text: string, from: nat): (r: Option<nat>)
    requires |matched| == |before| && from <= |before|
    ensures r.Some? ==> from <= r.value < |before| && before[r.value] == text && !matched[r.value]
    ensures r.Some? ==> forall i :: from <= i < r.value ==> before[i] != text || matched[i]
    ensures r.None? ==> forall i :: from <= i < |before| ==> before[i] != text || matched[i]
    decreases |before| - from
  {
    if from == |before| then None
    else if before[from] == text && !matched[from] then Some(from)
    else Unclaimed(before, matched, text, from + 1)
  }

  /** The first old row that says `text`. */
  function FirstSaying(before: seq<string>, text: string, from: nat): (r: Option<nat>)
    requires from <= |before|
    ensures r.Some? ==> from <= r.value < |before| && before[r.value] == text
    ensures r.Some? ==> forall i :: from <= i < r.value ==> before[i] != text
    ensures r.None? ==> forall i :: from <= i < |before| ==> before[i] != text
    decreases |before| - from
  {
    if from == |before| then None
    else if before[from] == text then Some(from)
    else FirstSaying(before, text, from + 1)
  }

  /** All old rows that say `text` stand for the same thing as row `first`. */
  predicate SayAlike(e: Edit, text: string, first: nat)
    requires e.Fits() && first < |e.previous|
  {
    forall r :: 0 <= r < |e.before| && e.before[r] == text ==> e.previous[r] == e.previous[first]
  }

  /** Exact labels claim their rows first; a pasted copy shares its source's. */
  function ByLabel(e: Edit, m: Matching, row: nat): (r: Matching)
    requires m.Fits(e) && row < |e.after|
    ensures r.Fits(e)
  {
    var text := e.after[row];
    var first := FirstSaying(e.before, text, 0);
    if text == "" || first.None? then m
    else
      match Unclaimed(e.before, m.matched, text, 0)
      case Some(source) => m.Match(source).Resolve(row, e.previous[source], FromRow(source))
      case None =>
        if |e.after| > |e.before| && e.previous[first.value].Some? && SayAlike(e, text, first.value) then
          m.Resolve(row, e.previous[first.value], Copied(first.value))
        else m
  }

  /** A text of the snapshot that no row carries comes back to its entry. */
  function ByBaseline(e: Edit, m: Matching, row: nat): (r: Matching)
    requires m.Fits(e) && row < |e.after|
    ensures r.Fits(e)
  {
    match LabelId(e.baseline, e.after[row])
    case Some(id) =>
      if !m.resolved[row] && !e.Carries(id) then m.Resolve(row, Some(Snapshot(id)), Restored(id)) else m
    case None => m
  }

  /** A text that was cut away with a transfer takes it up again. */
  function ByDetached(e: Edit, m: Matching, row: nat): (r: Matching)
    requires m.Fits(e) && row < |e.after|
    ensures r.Fits(e)
  {
    var text := e.after[row];
    if m.resolved[row] || text == "" || text !in m.detached then m
    else
      var kept := m.detached[text];
      if kept == [] then m.Resolve(row, None, Popped)
      else
        m.(detached := m.detached[text := kept[..|kept| - 1]]).Resolve(row, Some(kept[|kept| - 1]), Popped)
  }

  /** With as many rows as before, an unclaimed row keeps its own identity. */
  function InPlace(e: Edit, m: Matching, row: nat): (r: Matching)
    requires m.Fits(e) && row < |e.after|
    ensures r.Fits(e)
  {
    if e.SameSize() && !m.resolved[row] && !m.matched[row] then
      m.Match(row).Resolve(row, e.previous[row], FromRow(row))
    else m
  }

  /** The old rows from `from` on that are unclaimed and stand for something. */
  function LeftOver(e: Edit, matched: seq<bool>, from: nat): (rows: seq<nat>)
    requires e.Fits() && |matched| == |e.previous| && from <= |e.previous|
    ensures forall k :: 0 <= k < |rows| ==>
              from <= rows[k] < |e.previous| && !matched[rows[k]] && e.previous[rows[k]].Some?
    ensures forall k, l :: 0 <= k < l < |rows| ==> rows[k] < rows[l]
    ensures forall r :: from <= r < |e.previous| && !matched[r] && e.previous[r].Some? ==> r in rows
    decreases |e.previous| - from
  {
    if from == |e.previous| then []
    else
      (if !matched[from] && e.previous[from].Some? then [from] else []) + LeftOver(e, matched, from + 1)
  }

  /** A row that says something and has not been resolved takes the next identity
      left over, or none when they run out. */
  function InOrder(e: Edit, m: Matching, rest: seq<nat>, row: nat): (r: (Matching, seq<nat>))
    requires m.Fits(e) && row < |e.after|
    requires forall k :: 0 <= k < |rest| ==> rest[k] < |e.previous|
    ensures r.0.Fits(e)
    ensures r.1 == rest || (rest != [] && r.1 == rest[1..])
  {
    if m.resolved[row] || e.after[row] == "" then (m, rest)
    else if rest == [] then (m.(origins := m.origins[row := None]), rest)
    else
      (m.(origins := m.origins[row := e.previous[rest[0]]], via := m.via[row := FromRow(rest[0])]), rest[1..])
  }

  /** What is left of a transfer is put aside under its row's old text. */
  function PutAside(e: Edit, detached: Detached, r: nat): Detached
    requires e.Fits() && r < |e.previous|
  {
    var text := e.before[r];
    if e.previous[r].Some? && e.previous[r].value.Transfer? && text != "" then
      detached[text := (if text in detached then detached[text] else []) + [e.previous[r].value]]
    else detached
  }

  function WithoutEmpty(detached: Detached): Detached {
    map text | text in detached && detached[text] != [] :: detached[text]
  }

  // -------------------------------------------------------- passes over rows

  function LabelPass(e: Edit, m: Matching, n: nat): (r: Matching)
    requires m.Fits(e) && n <= |e.after|
    ensures r.Fits(e)
  {
    if n == 0 then m else ByLabel(e, LabelPass(e, m, n - 1), n - 1)
  }

  function BaselinePass(e: Edit, m: Matching, n: nat): (r: Matching)
    requires m.Fits(e) && n <= |e.after|
    ensures r.Fits(e)
  {
    if n == 0 then m else ByBaseline(e, BaselinePass(e, m, n - 1), n - 1)
  }

  function DetachedPass(e: Edit, m: Matching, n: nat): (r: Matching)
    requires m.Fits(e) && n <= |e.after|
    ensures r.Fits(e)
  {
    if n == 0 then m else ByDetached(e, DetachedPass(e, m, n - 1), n - 1)
  }

  function InPlacePass(e: Edit, m: Matching, n: nat): (r: Matching)
    requires m.Fits(e) && n <= |e.after|
    ensures r.Fits(e)
  {
    if n == 0 then m else InPlace(e, InPlacePass(e, m, n - 1), n - 1)
  }

  function InOrderPass(e: Edit, m: Matching, rest: seq<nat>, n: nat): (r: (Matching, seq<nat>))
    requires m.Fits(e) && n <= |e.after|
    requires forall k :: 0 <= k < |rest| ==> rest[k] < |e.previous|
    ensures r.0.Fits(e)
    ensures forall k :: 0 <= k < |r.1| ==> r.1[k] < |e.previous|
  {
    if n == 0 then (m, rest)
    else
      var (m', rest') := InOrderPass(e, m, rest, n - 1);
      InOrder(e, m', rest', n - 1)
  }

  function PutAsideAll(e: Edit, detached: Detached, rest: seq<nat>): Detached
    requires e.Fits()
    requires forall k :: 0 <= k < |rest| ==> rest[k] < |e.previous|
  {
    if rest == [] then detached
    else PutAside(e, PutAsideAll(e, detached, rest[..|rest| - 1]), rest[|rest| - 1])
  }

  /** Everything after the four claiming passes. */
  function Claimed(e: Edit, detached: Detached): (r: Matching)
    requires e.Fits()
    ensures r.Fits(e)
  {
    var n := |e.after|;
    var m := DetachedPass(e, BaselinePass(e, LabelPass(e, Fresh(e, detached), n), n), n);
    InPlacePass(e, m.(detached := WithoutEmpty(m.detached)), n)
  }

  function Filled(e: Edit, detached: Detached): (r: (Matching, seq<nat>))
    requires e.Fits()
    ensures r.0.Fits(e)
    ensures forall k :: 0 <= k < |r.1| ==> r.1[k] < |e.previous|
  {
    var m := Claimed(e, detached);
    InOrderPass(e, m, LeftOver(e, m.matched, 0), |e.after|)
  }

  /** The identities of the new rows, and the transfers put aside. */
  function Reconciled(e: Edit, detached: Detached): (r: (seq<Option<Origin>>, Detached))
    requires e.Fits()
    ensures |r.0| == |e.after|
  {
    var (m, rest) := Filled(e, detached);
    (m.origins, PutAsideAll(e, m.detached, rest))
  }

  // --------------------------------------------------------------- resizing

  /** Rows added without an identity, or dropped. */
  function Resized(origins: seq<Option<Origin>>, n: nat): (r: seq<Option<Origin>>)
    ensures |r| == n
    ensures forall i :: 0 <= i < n ==> r[i] == if i < |origins| then origins[i] else None
  {
    seq(n, i requires 0 <= i < n => if i < |origins| then origins[i] else None)
  }
}
