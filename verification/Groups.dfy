/** Groups of changed lines, and the runs they are laid out into. */
module Groups {
  import opened Alignments
  import opened Scripts
  import Lcs

  /** One change: how many lines go and how many come, and where on each side. */
  datatype Group = Group(leftAt: nat, rightAt: nat, deleted: nat, inserted: nat) {
    function LeftEnd(): nat {
      leftAt + deleted
    }

    function RightEnd(): nat {
      rightAt + inserted
    }
  }

  function LeftEnd(groups: seq<Group>): nat {
    if groups == [] then 0 else groups[|groups| - 1].LeftEnd()
  }

  function RightEnd(groups: seq<Group>): nat {
    if groups == [] then 0 else groups[|groups| - 1].RightEnd()
  }

  /** The groups after one more dropped or added line at row `i`, `j`. */
  function Grouped(groups: seq<Group>, i: nat, j: nat, deletes: bool): seq<Group> {
    var n := |groups|;
    var joins := n > 0 && RightEnd(groups) == j && LeftEnd(groups) == i;
    var last := if joins then groups[n - 1] else Group(i, j, 0, 0);
    (if joins then groups[..n - 1] else groups)
    + [if deletes then last.(deleted := last.deleted + 1) else last.(inserted := last.inserted + 1)]
  }

  /** The groups a script makes. */
  function GroupsOf(script: seq<Step>): seq<Group> {
    if script == [] then []
    else
      var front, step := script[..|script| - 1], script[|script| - 1];
      if step == Keep then GroupsOf(front)
      else Grouped(GroupsOf(front), Reads(front, Left), Reads(front, Right), step == Drop)
  }

  /** Appends a run unless it is empty on both sides. */
  function WithRun(runs: seq<Run>, kind: RunKind, left: Rows, right: Rows): seq<Run> {
    if left.Len() == 0 && right.Len() == 0 then runs
    else runs + [Run(kind, left, right, AlignedAt(runs, |runs|))]
  }

  /** Closes the runs with an equal run up to row `l` and `r`. */
  function WithTail(runs: seq<Run>, l: nat, r: nat): seq<Run> {
    WithRun(runs, Equal, Rows(SideAt(runs, Left, |runs|), l), Rows(SideAt(runs, Right, |runs|), r))
  }

  function GroupKind(group: Group): RunKind {
    if group.deleted == 0 then Inserted else if group.inserted == 0 then Deleted else Replaced
  }

  function WithGroup(runs: seq<Run>, group: Group, prefix: nat): seq<Run> {
    var l, r := prefix + group.leftAt, prefix + group.rightAt;
    WithRun(WithTail(runs, l, r), GroupKind(group), Rows(l, l + group.deleted), Rows(r, r + group.inserted))
  }

  /** The runs the groups of a region that starts at `prefix` are laid out into. */
  function RunsOf(groups: seq<Group>, prefix: nat): seq<Run> {
    if groups == [] then []
    else WithGroup(RunsOf(groups[..|groups| - 1], prefix), groups[|groups| - 1], prefix)
  }

  /** Groups ascend, are never empty, and lie between equally long gaps. */
  predicate Ordered(groups: seq<Group>) {
    forall k :: 0 <= k < |groups| ==> GroupFits(groups, k)
  }

  predicate GroupFits(groups: seq<Group>, k: nat)
    requires k < |groups|
  {
    var l, r := (if k == 0 then 0 else groups[k - 1].LeftEnd()), (if k == 0 then 0 else groups[k - 1].RightEnd());
    && groups[k].deleted + groups[k].inserted > 0
    && l <= groups[k].leftAt && r <= groups[k].rightAt
    && groups[k].leftAt - l == groups[k].rightAt - r
  }

  // ------------------------------------------------- groups tell the script

  /** What relates the groups of a script to the rows it has read. */
  predicate Reached(groups: seq<Group>, i: nat, j: nat) {
    LeftEnd(groups) <= i && RightEnd(groups) <= j && i - LeftEnd(groups) == j - RightEnd(groups)
  }

  /** Where the runs of some groups end. */
  lemma {:induction false} RunsOfEnds(groups: seq<Group>, prefix: nat)
    requires Ordered(groups) && groups != []
    ensures var runs := RunsOf(groups, prefix);
            && runs != []
            && SideAt(runs, Left, |runs|) == prefix + LeftEnd(groups)
            && SideAt(runs, Right, |runs|) == prefix + RightEnd(groups)
            && runs[|runs| - 1].kind == GroupKind(groups[|groups| - 1])
            && runs[|runs| - 1].left == Rows(prefix + groups[|groups| - 1].leftAt, prefix + LeftEnd(groups))
            && runs[|runs| - 1].right == Rows(prefix + groups[|groups| - 1].rightAt, prefix + RightEnd(groups))
  {
    assert GroupFits(groups, |groups| - 1);
  }

  lemma {:induction false} GroupedIsOrdered(groups: seq<Group>, i: nat, j: nat, deletes: bool)
    requires Ordered(groups) && Reached(groups, i, j)
    ensures Ordered(Grouped(groups, i, j, deletes))
    ensures Reached(Grouped(groups, i, j, deletes), i + (if deletes then 1 else 0), j + (if deletes then 0 else 1))
  {
    var more := Grouped(groups, i, j, deletes);
    forall k | 0 <= k < |more| ensures GroupFits(more, k) {
      assert k < |groups| ==> GroupFits(groups, k);
    }
  }

  lemma {:induction false} GroupsOfReach(script: seq<Step>)
    ensures Ordered(GroupsOf(script))
    ensures Reached(GroupsOf(script), Reads(script, Left), Reads(script, Right))
  {
    hide Ordered, Grouped;
    if script == [] {
      NoGroupsOrdered();
    } else {
      var front, step := script[..|script| - 1], script[|script| - 1];
      GroupsOfReach(front);
      if step != Keep {
        GroupedIsOrdered(GroupsOf(front), Reads(front, Left), Reads(front, Right), step == Drop);
      }
    }
  }

  lemma {:induction false} NoGroupsOrdered()
    ensures Ordered([])
  {
  }

  // ----------------------------------------- laying groups out is drawing

  /** Runs that end where some groups do, in a changed run or not at all. */
  predicate EndsChanged(runs: seq<Run>, l: nat, r: nat) {
    && SideAt(runs, Left, |runs|) <= l && SideAt(runs, Right, |runs|) <= r
    && l - SideAt(runs, Left, |runs|) == r - SideAt(runs, Right, |runs|)
    && (runs != [] ==> runs[|runs| - 1].kind != Equal)
  }

  lemma {:induction false} RunsOfEndChanged(groups: seq<Group>, prefix: nat, i: nat, j: nat)
    requires Ordered(groups) && Reached(groups, i, j)
    ensures EndsChanged(RunsOf(groups, prefix), prefix + i, prefix + j)
  {
    if groups != [] {
      RunsOfEnds(groups, prefix);
    }
  }

  lemma {:induction false} TailGrows(runs: seq<Run>, l: nat, r: nat)
    requires EndsChanged(runs, l, r)
    ensures WithTail(runs, l + 1, r + 1) == Drawn(WithTail(runs, l, r), Keep)
  {
  }

  lemma {:induction false} DrawnOpens(runs: seq<Run>, deletes: bool)
    requires runs == [] || runs[|runs| - 1].kind == Equal
    ensures Drawn(runs, if deletes then Drop else Add)
         == var l, r, n := SideAt(runs, Left, |runs|), SideAt(runs, Right, |runs|), AlignedAt(runs, |runs|);
            runs + [if deletes then Run(Deleted, Rows(l, l + 1), Rows(r, r), n)
                    else Run(Inserted, Rows(l, l), Rows(r, r + 1), n)]
  {
  }

  lemma {:induction false} TailEnds(runs: seq<Run>, l: nat, r: nat)
    requires EndsChanged(runs, l, r)
    requires runs == [] || SideAt(runs, Left, |runs|) < l
    ensures var tailed := WithTail(runs, l, r);
            && SideAt(tailed, Left, |tailed|) == l && SideAt(tailed, Right, |tailed|) == r
            && (tailed == [] || tailed[|tailed| - 1].kind == Equal)
  {
  }

  function Opened(i: nat, j: nat, deletes: bool): Group {
    if deletes then Group(i, j, 1, 0) else Group(i, j, 0, 1)
  }

  /** A changed line opens a new changed run where the last group has ended. */
  lemma {:induction false} GroupOpens(runs: seq<Run>, i: nat, j: nat, prefix: nat, deletes: bool)
    requires EndsChanged(runs, prefix + i, prefix + j)
    requires runs == [] || SideAt(runs, Left, |runs|) < prefix + i
    ensures WithGroup(runs, Opened(i, j, deletes), prefix)
         == Drawn(WithTail(runs, prefix + i, prefix + j), if deletes then Drop else Add)
  {
    TailEnds(runs, prefix + i, prefix + j);
    DrawnOpens(WithTail(runs, prefix + i, prefix + j), deletes);
    hide WithTail, Drawn, EndsChanged;
  }

  lemma {:induction false} RunJoins(runs: seq<Run>, group: Group, prefix: nat, deletes: bool)
    requires group.deleted + group.inserted > 0
    ensures WithGroup(runs,
                      if deletes then group.(deleted := group.deleted + 1) else group.(inserted := group.inserted + 1),
                      prefix)
         == Drawn(WithGroup(runs, group, prefix), if deletes then Drop else Add)
  {
    hide WithTail;
    var tailed := WithTail(runs, prefix + group.leftAt, prefix + group.rightAt);
    assert WithGroup(runs, group, prefix)[..|tailed|] == tailed;
  }

  /** A changed line next to the last group joins its run. */
  lemma {:induction false} GroupJoins(groups: seq<Group>, prefix: nat, deletes: bool)
    requires Ordered(groups) && groups != []
    ensures var i, j := LeftEnd(groups), RightEnd(groups);
            RunsOf(Grouped(groups, i, j, deletes), prefix)
                == Drawn(RunsOf(groups, prefix), if deletes then Drop else Add)
  {
    hide Drawn, WithGroup;
    var i, j := LeftEnd(groups), RightEnd(groups);
    var n := |groups| - 1;
    assert GroupFits(groups, n);
    assert Grouped(groups, i, j, deletes)[..n] == groups[..n];
    RunJoins(RunsOf(groups[..n], prefix), groups[n], prefix, deletes);
  }

  lemma {:induction false} GroupedDraws(groups: seq<Group>, prefix: nat, i: nat, j: nat, deletes: bool)
    requires Ordered(groups) && Reached(groups, i, j)
    ensures RunsOf(Grouped(groups, i, j, deletes), prefix)
         == Drawn(WithTail(RunsOf(groups, prefix), prefix + i, prefix + j), if deletes then Drop else Add)
  {
    hide Drawn, WithGroup, WithRun;
    var n := |groups|;
    RunsOfEndChanged(groups, prefix, i, j);
    if n > 0 && RightEnd(groups) == j && LeftEnd(groups) == i {
      RunsOfEnds(groups, prefix);
      NoTail(RunsOf(groups, prefix));
      GroupJoins(groups, prefix, deletes);
    } else {
      if n > 0 {
        RunsOfEnds(groups, prefix);
      }
      GroupOpens(RunsOf(groups, prefix), i, j, prefix, deletes);
      var more := Grouped(groups, i, j, deletes);
      assert more[..n] == groups;
      assert more[n] == Opened(i, j, deletes);
    }
  }

  lemma {:induction false} NoTail(runs: seq<Run>)
    ensures WithTail(runs, SideAt(runs, Left, |runs|), SideAt(runs, Right, |runs|)) == runs
  {
  }

  lemma {:induction false} StepDraws(groups: seq<Group>, prefix: nat, i: nat, j: nat, step: Step)
    requires Ordered(groups) && Reached(groups, i, j)
    ensures WithTail(RunsOf(if step == Keep then groups else Grouped(groups, i, j, step == Drop), prefix),
                     prefix + i + (if step == Add then 0 else 1), prefix + j + (if step == Drop then 0 else 1))
         == Drawn(WithTail(RunsOf(groups, prefix), prefix + i, prefix + j), step)
  {
    hide Drawn, WithTail, RunsOf, Grouped;
    if step == Keep {
      RunsOfEndChanged(groups, prefix, i, j);
      TailGrows(RunsOf(groups, prefix), prefix + i, prefix + j);
    } else {
      var more := Grouped(groups, i, j, step == Drop);
      GroupedDraws(groups, prefix, i, j, step == Drop);
      GroupedIsOrdered(groups, i, j, step == Drop);
      GroupedEndsHere(groups, i, j, step == Drop);
      RunsOfEnds(more, prefix);
      NoTail(RunsOf(more, prefix));
    }
  }

  /** The groups of a script are laid out into the runs the script draws. */
  lemma {:induction false} LaidOutAsDrawn(script: seq<Step>, prefix: nat)
    ensures WithTail(RunsOf(GroupsOf(script), prefix), prefix + Reads(script, Left), prefix + Reads(script, Right))
         == Draw(Repeated(Keep, prefix) + script)
  {
    hide Drawn, WithTail, RunsOf, Grouped, Ordered, Reached;
    if script == [] {
      KeepingDraws(prefix);
      assert Repeated(Keep, prefix) + script == Repeated(Keep, prefix);
    } else {
      var front, step := script[..|script| - 1], script[|script| - 1];
      var whole := Repeated(Keep, prefix) + script;
      assert whole[..|whole| - 1] == Repeated(Keep, prefix) + front;
      LaidOutAsDrawn(front, prefix);
      GroupsOfReach(front);
      StepDraws(GroupsOf(front), prefix, Reads(front, Left), Reads(front, Right), step);
    }
  }

  lemma {:induction false} GroupedEndsHere(groups: seq<Group>, i: nat, j: nat, deletes: bool)
    ensures Grouped(groups, i, j, deletes) != []
    ensures LeftEnd(Grouped(groups, i, j, deletes)) == i + if deletes then 1 else 0
    ensures RightEnd(Grouped(groups, i, j, deletes)) == j + if deletes then 0 else 1
  {
  }

  lemma {:induction false} KeepingDraws(n: nat)
    ensures WithTail(RunsOf([], n), n, n) == Draw(Repeated(Keep, n))
  {
    if n > 0 {
      KeepingDraws(n - 1);
      assert Repeated(Keep, n)[..n - 1] == Repeated(Keep, n - 1);
      TailGrows([], n - 1, n - 1);
    }
  }
}
