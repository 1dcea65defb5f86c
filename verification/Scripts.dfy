/** Edit scripts between two sequences of lines, and the runs they draw. */
module Scripts {
  import opened Alignments

  /** One step of reading two texts side by side. */
  datatype Step = Keep | Drop | Add

  /** Lines of one side a script reads. */
  function Reads(script: seq<Step>, side: Side): (n: nat)
    ensures n <= |script|
  {
    if script == [] then 0
    else
      var last := script[|script| - 1];
      Reads(script[..|script| - 1], side)
      + (if last == Keep || last == (if side == Left then Drop else Add) then 1 else 0)
  }

  /** Lines a script keeps. */
  function Keeps(script: seq<Step>): (n: nat)
    ensures n <= |script|
  {
    if script == [] then 0
    else Keeps(script[..|script| - 1]) + (if script[|script| - 1] == Keep then 1 else 0)
  }

  function Repeated(step: Step, n: nat): (steps: seq<Step>)
    ensures |steps| == n
    ensures forall i :: 0 <= i < n ==> steps[i] == step
  {
    seq(n, i => step)
  }

  /** Every line a script keeps is the same on both sides. */
  predicate Faithful(script: seq<Step>, left: seq<string>, right: seq<string>) {
    && Reads(script, Left) <= |left|
    && Reads(script, Right) <= |right|
    && (script == [] ||
        var front := script[..|script| - 1];
        Reads(front, Left) <= |left| && Reads(front, Right) <= |right|
        && Faithful(front, left, right)
        && (script[|script| - 1] == Keep ==> left[Reads(front, Left)] == right[Reads(front, Right)]))
  }

  function ChangedKind(left: Rows, right: Rows): RunKind {
    if left.Len() == 0 then Inserted else if right.Len() == 0 then Deleted else Replaced
  }

  /** The runs after one more step: a kept line joins an equal run, any other
      line joins a changed run. */
  function Drawn(runs: seq<Run>, step: Step): seq<Run> {
    var n := |runs|;
    var l, r := (if step == Add then 0 else 1), (if step == Drop then 0 else 1);
    if n > 0 && (runs[n - 1].kind == Equal <==> step == Keep) then
      var last := runs[n - 1];
      var left, right := Rows(last.left.start, last.left.end + l), Rows(last.right.start, last.right.end + r);
      runs[..n - 1] + [Run(if step == Keep then Equal else ChangedKind(left, right), left, right, last.aligned)]
    else
      var left := Rows(SideAt(runs, Left, n), SideAt(runs, Left, n) + l);
      var right := Rows(SideAt(runs, Right, n), SideAt(runs, Right, n) + r);
      runs + [Run(if step == Keep then Equal else ChangedKind(left, right), left, right, AlignedAt(runs, n))]
  }

  /** The runs a script draws. */
  function Draw(script: seq<Step>): seq<Run> {
    if script == [] then [] else Drawn(Draw(script[..|script| - 1]), script[|script| - 1])
  }

  /** Neighbouring runs are never both equal nor both changed. */
  predicate Alternating(runs: seq<Run>) {
    forall i {:trigger runs[i]} :: 0 < i < |runs| ==> (runs[i].kind == Equal <==> runs[i - 1].kind != Equal)
  }

  /** A run of rows that says the same thing on both sides. */
  predicate SaysTheSame(run: Run, left: seq<string>, right: seq<string>) {
    && run.left.end <= |left| && run.right.end <= |right|
    && run.left.start <= run.left.end && run.right.start <= run.right.end
    && left[run.left.start..run.left.end] == right[run.right.start..run.right.end]
  }

  /** Every equal run says the same thing on both sides, line for line. */
  predicate Matching(runs: seq<Run>, left: seq<string>, right: seq<string>) {
    forall i :: 0 <= i < |runs| && runs[i].kind == Equal ==> SaysTheSame(runs[i], left, right)
  }

  /** Lines in equal runs. */
  function EqualLines(runs: seq<Run>): nat {
    if runs == [] then 0
    else
      var last := runs[|runs| - 1];
      EqualLines(runs[..|runs| - 1]) + (if last.kind == Equal then last.left.Len() else 0)
  }

  /** One side's rows in equal runs, in order. */
  function EqualRows(runs: seq<Run>, side: Side): seq<nat> {
    if runs == [] then []
    else
      var last := runs[|runs| - 1];
      EqualRows(runs[..|runs| - 1], side) + (if last.kind == Equal then RowsOf(last.On(side)) else [])
  }

  function RowsOf(rows: Rows): (all: seq<nat>)
    ensures |all| == rows.Len()
  {
    seq(rows.Len(), i requires 0 <= i < rows.Len() => rows.start + i)
  }

  // ----------------------------------------------------------- what is drawn

  /** One more step keeps runs chained and alternating and reads one line. */
  lemma {:induction false} DrawnFits(runs: seq<Run>, step: Step)
    requires Chained(runs)
    ensures var longer := Drawn(runs, step);
            && Chained(longer)
            && SideAt(longer, Left, |longer|) == SideAt(runs, Left, |runs|) + (if step == Add then 0 else 1)
            && SideAt(longer, Right, |longer|) == SideAt(runs, Right, |runs|) + (if step == Drop then 0 else 1)
  {
    var n := |runs|;
    var longer := Drawn(runs, step);
    assert n > 0 ==> RunFits(runs, n - 1);
    forall i | 0 <= i < |longer| ensures RunFits(longer, i) {
      assert i < n ==> RunFits(runs, i);
    }
  }

  lemma {:induction false} DrawnAlternates(runs: seq<Run>, step: Step)
    requires Alternating(runs)
    ensures Alternating(Drawn(runs, step))
  {
  }

  lemma {:induction false} DrawnEqualLines(runs: seq<Run>, step: Step)
    requires Chained(runs)
    ensures EqualLines(Drawn(runs, step)) == EqualLines(runs) + if step == Keep then 1 else 0
  {
    var n := |runs|;
    var longer := Drawn(runs, step);
    assert n > 0 ==> RunFits(runs, n - 1);
    if n > 0 && (runs[n - 1].kind == Equal <==> step == Keep) {
      assert longer[..n - 1] == runs[..n - 1];
    } else {
      assert longer[..n] == runs;
    }
  }

  lemma {:induction false} DrawFits(script: seq<Step>)
    ensures Chained(Draw(script))
    ensures Alternating(Draw(script))
    ensures SideAt(Draw(script), Left, |Draw(script)|) == Reads(script, Left)
    ensures SideAt(Draw(script), Right, |Draw(script)|) == Reads(script, Right)
    ensures EqualLines(Draw(script)) == Keeps(script)
  {
    hide Drawn, EqualLines, Alternating, Chained;
    if script == [] {
      DrawNothing();
    } else {
      var front, step := script[..|script| - 1], script[|script| - 1];
      DrawFits(front);
      DrawnFits(Draw(front), step);
      DrawnAlternates(Draw(front), step);
      DrawnEqualLines(Draw(front), step);
    }
  }

  lemma {:induction false} DrawNothing()
    ensures Chained([]) && Alternating([]) && EqualLines([]) == 0
  {
  }

  lemma {:induction false} OneMoreLine(run: Run, longer: Run, left: seq<string>, right: seq<string>)
    requires SaysTheSame(run, left, right) && run.left.end < |left| && run.right.end < |right|
    requires left[run.left.end] == right[run.right.end]
    requires longer.left == Rows(run.left.start, run.left.end + 1)
    requires longer.right == Rows(run.right.start, run.right.end + 1)
    ensures SaysTheSame(longer, left, right)
  {
    var l, r := longer.left, longer.right;
    assert left[l.start..l.end] == left[l.start..l.end - 1] + [left[l.end - 1]];
    assert right[r.start..r.end] == right[r.start..r.end - 1] + [right[r.end - 1]];
  }

  lemma {:induction false} OneLine(run: Run, left: seq<string>, right: seq<string>)
    requires run.left.start < |left| && run.right.start < |right| && left[run.left.start] == right[run.right.start]
    requires run.left.end == run.left.start + 1 && run.right.end == run.right.start + 1
    ensures SaysTheSame(run, left, right)
  {
  }

  lemma {:induction false} DrawnMatches(runs: seq<Run>, step: Step, left: seq<string>, right: seq<string>)
    requires Chained(runs) && Matching(runs, left, right)
    requires SideAt(runs, Left, |runs|) <= |left| && SideAt(runs, Right, |runs|) <= |right|
    requires step == Keep ==>
      && SideAt(runs, Left, |runs|) < |left| && SideAt(runs, Right, |runs|) < |right|
      && left[SideAt(runs, Left, |runs|)] == right[SideAt(runs, Right, |runs|)]
    ensures Matching(Drawn(runs, step), left, right)
  {
    hide SaysTheSame, KindMatches;
    var n := |runs|;
    var longer := Drawn(runs, step);
    assert n > 0 ==> RunFits(runs, n - 1);
    if step == Keep {
      if n > 0 && runs[n - 1].kind == Equal {
        OneMoreLine(runs[n - 1], longer[n - 1], left, right);
      } else {
        OneLine(longer[n], left, right);
      }
    }
    var same := |longer| - 1;
    forall i | 0 <= i < same && longer[i].kind == Equal ensures SaysTheSame(longer[i], left, right) {
      assert longer[i] == runs[i];
    }
  }

  /** A faithful script draws runs whose equal runs match line for line. */
  lemma {:induction false} DrawMatches(script: seq<Step>, left: seq<string>, right: seq<string>)
    requires Faithful(script, left, right)
    ensures Matching(Draw(script), left, right)
  {
    if script != [] {
      var front := script[..|script| - 1];
      DrawMatches(front, left, right);
      DrawFits(front);
      DrawnMatches(Draw(front), script[|script| - 1], left, right);
    }
  }

  // ------------------------------------------------------------- replaying

  /** Reads the right text out of the left one: equal runs are copied from the
      left, every other run supplies its own right lines. */
  function Replay(runs: seq<Run>, left: seq<string>, right: seq<string>): seq<string>
    requires Chained(runs)
    requires SideAt(runs, Left, |runs|) <= |left| && SideAt(runs, Right, |runs|) <= |right|
  {
    if runs == [] then []
    else
      var n := |runs| - 1;
      var last := runs[n];
      ChainedFront(runs);
      Replay(runs[..n], left, right)
      + (if last.kind == Equal then left[last.left.start..last.left.end] else right[last.right.start..last.right.end])
  }

  lemma {:induction false} ChainedFront(runs: seq<Run>)
    requires Chained(runs) && runs != []
    ensures var n := |runs| - 1;
            && Chained(runs[..n])
            && SideAt(runs[..n], Left, n) == runs[n].left.start <= runs[n].left.end
            && SideAt(runs[..n], Right, n) == runs[n].right.start <= runs[n].right.end
  {
    var n := |runs| - 1;
    assert RunFits(runs, n);
    forall i | 0 <= i < n ensures RunFits(runs[..n], i) { assert RunFits(runs, i); }
  }

  /** Replaying the runs turns left into right, as far as they reach. */
  lemma {:induction false} ReplayGivesRight(runs: seq<Run>, left: seq<string>, right: seq<string>)
    requires Chained(runs) && Matching(runs, left, right)
    requires SideAt(runs, Left, |runs|) <= |left| && SideAt(runs, Right, |runs|) <= |right|
    ensures Replay(runs, left, right) == right[..SideAt(runs, Right, |runs|)]
  {
    hide RunFits, Chained;
    if runs != [] {
      var n := |runs| - 1;
      ChainedFront(runs);
      ReplayGivesRight(runs[..n], left, right);
      assert right[..runs[n].right.end] == right[..runs[n].right.start] + right[runs[n].right.start..runs[n].right.end];
    }
  }
}
