/** The comparison as it is carried out: a table filled from the end, a walk
    over it that collects groups, and the groups laid out as runs. */
module AlignLines {
  import opened Alignments
  import opened Scripts
  import opened Groups
  import Align
  import Lcs

  newtype u32 = x: int | 0 <= x < 0x1_0000_0000

  /** Where the table keeps the entry for row `i`, column `j`. */
  function At(width: nat, i: nat, j: nat): nat {
    i * width + j
  }

  lemma {:induction false} AtFits(width: nat, height: nat, i: nat, j: nat)
    requires i < height && j < width
    ensures At(width, i, j) < height * width
  {
    assert (i + 1) * width <= height * width;
  }

  lemma {:induction false} AtIsInjective(width: nat, i: nat, j: nat, k: nat, l: nat)
    requires j < width && l < width && (i != k || j != l)
    ensures At(width, i, j) != At(width, k, l)
  {
    if i < k {
      assert (i + 1) * width <= k * width;
    } else if k < i {
      assert (k + 1) * width <= i * width;
    }
  }

  /** Entry `i`, `j` is `Length` of the tails that start there. */
  predicate Entry(lengths: seq<u32>, left: seq<string>, right: seq<string>, i: nat, j: nat)
    requires i <= |left| && j <= |right|
  {
    var at := At(|right| + 1, i, j);
    at < |lengths| && lengths[at] as nat == Lcs.Length(left, right, i, j)
  }

  /** Every entry after `i`, `j` in filling order, and the last row and column. */
  predicate Filled(lengths: seq<u32>, left: seq<string>, right: seq<string>, i: nat, j: nat) {
    forall k: nat, l: nat | k <= |left| && l <= |right| ::
      (k > i || (k == i && l >= j) || k == |left| || l == |right|) ==> Entry(lengths, left, right, k, l)
  }

  predicate Complete(lengths: seq<u32>, left: seq<string>, right: seq<string>) {
    forall i: nat, j: nat | i <= |left| && j <= |right| :: Entry(lengths, left, right, i, j)
  }

  lemma {:induction false} WritingFills(before: seq<u32>, after: seq<u32>, left: seq<string>, right: seq<string>,
                                        i: nat, j: nat, value: u32)
    requires i < |left| && j < |right|
    requires Filled(before, left, right, i, j + 1)
    requires At(|right| + 1, i, j) < |before|
    requires after == before[At(|right| + 1, i, j) := value]
    requires value as nat == Lcs.Length(left, right, i, j)
    ensures Filled(after, left, right, i, j)
  {
    forall k: nat, l: nat | k <= |left| && l <= |right|
                            && (k > i || (k == i && l >= j) || k == |left| || l == |right|)
      ensures Entry(after, left, right, k, l)
    {
      if k != i || l != j {
        AtIsInjective(|right| + 1, i, j, k, l);
        assert Entry(before, left, right, k, l);
      }
    }
  }

  /** Fills the table from the end. */
  method FillTable(left: seq<string>, right: seq<string>) returns (lengths: array<u32>)
    requires |left| < 0xFFFF_FFFF
    ensures fresh(lengths)
    ensures Complete(lengths[..], left, right)
  {
    var width := |right| + 1;
    lengths := new u32[(|left| + 1) * width](_ => 0);
    forall k: nat, l: nat | k <= |left| && l <= |right|
      ensures At(width, k, l) < lengths.Length
    {
      AtFits(width, |left| + 1, k, l);
    }
    for i := |left| downto 0
      invariant Filled(lengths[..], left, right, i, 0)
    {
      assert Filled(lengths[..], left, right, i, |right|);
      for j := |right| downto 0
        invariant Filled(lengths[..], left, right, i, j)
      {
        assert Entry(lengths[..], left, right, i + 1, j + 1);
        assert Entry(lengths[..], left, right, i + 1, j);
        assert Entry(lengths[..], left, right, i, j + 1);
        ghost var before := lengths[..];
        var value: u32;
        if left[i] == right[j] {
          value := lengths[At(width, i + 1, j + 1)] + 1;
        } else {
          var below, beside := lengths[At(width, i + 1, j)], lengths[At(width, i, j + 1)];
          value := if below >= beside then below else beside;
        }
        lengths[At(width, i, j)] := value;
        WritingFills(before, lengths[..], left, right, i, j, value);
      }
    }
  }

  /** `done` is what has been walked of the whole walk on reaching `i`, `j`. */
  predicate Walked(left: seq<string>, right: seq<string>, i: nat, j: nat, done: seq<Step>)
    requires i <= |left| && j <= |right|
  {
    && done + Lcs.Walk(left, right, i, j) == Lcs.Walk(left, right, 0, 0)
    && Reads(done, Left) == i
    && Reads(done, Right) == j
  }

  lemma {:induction false} WalkTurns(left: seq<string>, right: seq<string>, i: nat, j: nat, done: seq<Step>)
    requires i <= |left| && j <= |right| && (i < |left| || j < |right|)
    requires Walked(left, right, i, j, done)
    ensures var step := Lcs.StepAt(left, right, i, j);
            var i', j' := i + (if step == Add then 0 else 1), j + (if step == Drop then 0 else 1);
            i' <= |left| && j' <= |right| && Walked(left, right, i', j', done + [step])
  {
    hide Lcs.Walk, Lcs.StepAt, Lcs.Length, Reads, Keeps;
    var step := Lcs.StepAt(left, right, i, j);
    var i', j' := i + (if step == Add then 0 else 1), j + (if step == Drop then 0 else 1);
    Lcs.WalkOnce(left, right, i, j);
    var rest := Lcs.Walk(left, right, i', j');
    assert (done + [step]) + rest == done + ([step] + rest);
    Lcs.ReadsConcat(done, [step]);
    Lcs.ReadsOne(step);
  }

  lemma {:induction false} GroupsOfSnoc(done: seq<Step>, step: Step)
    ensures GroupsOf(done + [step])
         == if step == Keep then GroupsOf(done)
            else Grouped(GroupsOf(done), Reads(done, Left), Reads(done, Right), step == Drop)
  {
    assert (done + [step])[..|done|] == done;
  }

  /** Whether the walk drops a left line at `i`, `j`, read off the table. */
  method ChooseDelete(lengths: array<u32>, left: seq<string>, right: seq<string>, i: nat, j: nat)
      returns (deletes: bool)
    requires Complete(lengths[..], left, right)
    requires i <= |left| && j <= |right| && (i < |left| || j < |right|)
    ensures deletes == Lcs.Deletes(left, right, i, j)
  {
    hide Lcs.Length;
    var width := |right| + 1;
    if j == |right| {
      return true;
    }
    if i == |left| {
      return false;
    }
    assert Entry(lengths[..], left, right, i + 1, j);
    assert Entry(lengths[..], left, right, i, j + 1);
    deletes := lengths[At(width, i + 1, j)] >= lengths[At(width, i, j + 1)];
  }

  /** Adds one changed line: to the last group if that ends at `i` and `j`,
      otherwise to a new one. */
  method AddLine(groups: seq<Group>, i: nat, j: nat, deletes: bool) returns (groups': seq<Group>)
    ensures groups' == Grouped(groups, i, j, deletes)
  {
    var n := |groups|;
    var group := Group(i, j, 0, 0);
    groups' := groups;
    if n > 0 && groups[n - 1].RightEnd() == j && groups[n - 1].LeftEnd() == i {
      group := groups[n - 1];
      groups' := groups[..n - 1];
    }
    if deletes {
      group := group.(deleted := group.deleted + 1);
    } else {
      group := group.(inserted := group.inserted + 1);
    }
    groups' := groups' + [group];
  }

  /** Walks the filled table and gathers the groups of the greedy script. */
  method AlignedGroups(left: seq<string>, right: seq<string>) returns (groups: seq<Group>)
    requires left != [] && right != [] && |left| * |right| <= Align.MAX_REGION_CELLS
    ensures groups == GroupsOf(Lcs.Walk(left, right, 0, 0))
  {
    assert |left| <= |left| * |right|;
    var lengths := FillTable(left, right);
    groups := [];
    var i, j := 0, 0;
    ghost var done: seq<Step> := [];
    NothingWalked(left, right);
    hide GroupsOf, Lcs.Length, Lcs.Walk, Lcs.StepAt, Grouped, Complete, Lcs.Deletes, Walked, Reads;
    while i < |left| || j < |right|
      invariant i <= |left| && j <= |right|
      invariant Complete(lengths[..], left, right)
      invariant Walked(left, right, i, j, done)
      invariant groups == GroupsOf(done)
      decreases |left| - i + |right| - j
    {
      done := OneMoreStep(left, right, i, j, done);
      if i < |left| && j < |right| && left[i] == right[j] {
        i, j := i + 1, j + 1;
        continue;
      }
      var deletes := ChooseDelete(lengths, left, right, i, j);
      groups := AddLine(groups, i, j, deletes);
      if deletes {
        i := i + 1;
      } else {
        j := j + 1;
      }
    }
    AllWalked(left, right, done);
  }

  lemma {:induction false} NothingWalked(left: seq<string>, right: seq<string>)
    ensures Walked(left, right, 0, 0, []) && GroupsOf([]) == []
  {
    assert [] + Lcs.Walk(left, right, 0, 0) == Lcs.Walk(left, right, 0, 0);
  }

  lemma {:induction false} AllWalked(left: seq<string>, right: seq<string>, done: seq<Step>)
    requires Walked(left, right, |left|, |right|, done)
    ensures done == Lcs.Walk(left, right, 0, 0)
  {
    assert done + [] == done;
  }

  lemma {:induction false} WalkedReads(left: seq<string>, right: seq<string>, i: nat, j: nat, done: seq<Step>)
    requires i <= |left| && j <= |right| && Walked(left, right, i, j, done)
    ensures Reads(done, Left) == i && Reads(done, Right) == j
  {
  }

  /** The walk's next step, and what it makes of the groups. */
  lemma {:induction false} OneMoreStep(left: seq<string>, right: seq<string>, i: nat, j: nat, done: seq<Step>)
      returns (further: seq<Step>)
    requires i <= |left| && j <= |right| && (i < |left| || j < |right|) && Walked(left, right, i, j, done)
    ensures var keeps := i < |left| && j < |right| && left[i] == right[j];
            var deletes := Lcs.Deletes(left, right, i, j);
            var i', j' := i + (if keeps || deletes then 1 else 0), j + (if keeps || !deletes then 1 else 0);
            && i' <= |left| && j' <= |right| && Walked(left, right, i', j', further)
            && GroupsOf(further) == if keeps then GroupsOf(done) else Grouped(GroupsOf(done), i, j, deletes)
  {
    hide GroupsOf, Lcs.Length, Lcs.Walk, Grouped, Walked, Reads;
    var step := Lcs.StepAt(left, right, i, j);
    StepIs(left, right, i, j);
    WalkedReads(left, right, i, j, done);
    WalkTurns(left, right, i, j, done);
    GroupsOfSnoc(done, step);
    further := done + [step];
  }

  lemma {:induction false} StepIs(left: seq<string>, right: seq<string>, i: nat, j: nat)
    requires i <= |left| && j <= |right| && (i < |left| || j < |right|)
    ensures Lcs.StepAt(left, right, i, j) == Keep <==> i < |left| && j < |right| && left[i] == right[j]
    ensures Lcs.StepAt(left, right, i, j) == Drop <==>
              !(i < |left| && j < |right| && left[i] == right[j]) && Lcs.Deletes(left, right, i, j)
  {
  }

  /** A region with nothing to compare, or too much, is one group. */
  method GroupsFor(left: seq<string>, right: seq<string>) returns (groups: seq<Group>)
    ensures groups == GroupsOf(Align.RegionScript(left, right))
  {
    if left == [] && right == [] {
      return [];
    }
    if left == [] || right == [] {
      WholeIsOneGroup(left, right);
      return [Group(0, 0, |left|, |right|)];
    }
    if |left| * |right| <= Align.MAX_REGION_CELLS {
      groups := AlignedGroups(left, right);
    } else {
      WholeIsOneGroup(left, right);
      groups := [Group(0, 0, |left|, |right|)];
    }
  }

  lemma {:induction false} ChangeJoins(drops: nat, adds: nat, step: Step)
    requires step != Keep
    ensures Grouped(OneGroup(drops, adds), drops, adds, step == Drop)
         == if step == Drop then OneGroup(drops + 1, adds) else OneGroup(drops, adds + 1)
  {
  }

  function DropsAndAdds(drops: nat, adds: nat): seq<Step> {
    Repeated(Drop, drops) + Repeated(Add, adds)
  }

  lemma {:induction false} DropsAndAddsEnd(drops: nat, adds: nat)
    ensures adds > 0 ==> DropsAndAdds(drops, adds) == DropsAndAdds(drops, adds - 1) + [Add]
    ensures adds == 0 && drops > 0 ==> DropsAndAdds(drops, 0) == DropsAndAdds(drops - 1, 0) + [Drop]
    ensures Reads(DropsAndAdds(drops, adds), Left) == drops
    ensures Reads(DropsAndAdds(drops, adds), Right) == adds
  {
    Lcs.ReadsRepeated(Drop, drops);
    Lcs.ReadsRepeated(Add, adds);
    Lcs.ReadsConcat(Repeated(Drop, drops), Repeated(Add, adds));
    hide Reads, Keeps;
  }

  function OneGroup(drops: nat, adds: nat): seq<Group> {
    if drops + adds == 0 then [] else [Group(0, 0, drops, adds)]
  }

  lemma {:induction false} NothingToGroup()
    ensures GroupsOf(DropsAndAdds(0, 0)) == OneGroup(0, 0)
  {
    assert DropsAndAdds(0, 0) == [];
  }

  lemma {:induction false} DropsAndAddsGroup(drops: nat, adds: nat)
    ensures GroupsOf(DropsAndAdds(drops, adds)) == OneGroup(drops, adds)
    decreases drops + adds
  {
    hide Reads, Keeps, GroupsOf, Grouped, DropsAndAdds;
    if drops + adds == 0 {
      NothingToGroup();
    } else {
      var d, a := if adds > 0 then drops else drops - 1, if adds > 0 then adds - 1 else 0;
      DropsAndAddsGroup(d, a);
      DropsAndAddsEnd(drops, adds);
      DropsAndAddsEnd(d, a);
      GroupsOfSnoc(DropsAndAdds(d, a), if adds > 0 then Add else Drop);
      ChangeJoins(d, a, if adds > 0 then Add else Drop);
    }
  }

  lemma {:induction false} WholeIsOneGroup(left: seq<string>, right: seq<string>)
    requires left != [] || right != []
    ensures GroupsOf(Align.Whole(left, right)) == [Group(0, 0, |left|, |right|)]
  {
    DropsAndAddsGroup(|left|, |right|);
  }

  // --------------------------------------------------------------- align

  /** Appends a run unless it is empty on both sides. */
  method PushRun(runs: seq<Run>, aligned: nat, kind: RunKind, left: Rows, right: Rows)
    returns (runs': seq<Run>, aligned': nat)
    requires aligned == AlignedAt(runs, |runs|)
    ensures runs' == WithRun(runs, kind, left, right)
    ensures aligned' == AlignedAt(runs', |runs'|)
  {
    if left.Len() == 0 && right.Len() == 0 {
      return runs, aligned;
    }
    var run := Run(kind, left, right, aligned);
    aligned' := aligned + run.Height();
    runs' := runs + [run];
  }

  lemma {:induction false} PrefixSteps(left: seq<string>, right: seq<string>, k: nat)
    requires k <= |left| && k <= |right|
    ensures Align.PrefixFrom(left, right, k)
         == if k < |left| && k < |right| && left[k] == right[k] then Align.PrefixFrom(left, right, k + 1) else k
  {
  }

  lemma {:induction false} SuffixSteps(left: seq<string>, right: seq<string>, prefix: nat, k: nat)
    requires prefix + k <= |left| && prefix + k <= |right|
    ensures Align.SuffixFrom(left, right, prefix, k)
         == if prefix + k < |left| && prefix + k < |right| && left[|left| - 1 - k] == right[|right| - 1 - k]
            then Align.SuffixFrom(left, right, prefix, k + 1) else k
  {
  }

  /** Counts the lines both texts start and then end with. */
  method TrimEnds(left: seq<string>, right: seq<string>) returns (prefix: nat, suffix: nat)
    ensures prefix == Align.PrefixFrom(left, right, 0)
    ensures prefix + suffix <= |left| && prefix + suffix <= |right|
    ensures suffix == Align.SuffixFrom(left, right, prefix, 0)
  {
    hide Align.PrefixFrom, Align.SuffixFrom;
    prefix := 0;
    while prefix < |left| && prefix < |right| && left[prefix] == right[prefix]
      invariant prefix <= |left| && prefix <= |right|
      invariant Align.PrefixFrom(left, right, prefix) == Align.PrefixFrom(left, right, 0)
    {
      PrefixSteps(left, right, prefix);
      prefix := prefix + 1;
    }
    PrefixSteps(left, right, prefix);
    suffix := TrimSuffix(left, right, prefix);
  }

  method TrimSuffix(left: seq<string>, right: seq<string>, prefix: nat) returns (suffix: nat)
    requires prefix <= |left| && prefix <= |right|
    ensures prefix + suffix <= |left| && prefix + suffix <= |right|
    ensures suffix == Align.SuffixFrom(left, right, prefix, 0)
  {
    hide Align.PrefixFrom, Align.SuffixFrom;
    suffix := 0;
    while prefix + suffix < |left| && prefix + suffix < |right|
        && left[|left| - 1 - suffix] == right[|right| - 1 - suffix]
      invariant prefix + suffix <= |left| && prefix + suffix <= |right|
      invariant Align.SuffixFrom(left, right, prefix, suffix) == Align.SuffixFrom(left, right, prefix, 0)
    {
      SuffixSteps(left, right, prefix, suffix);
      suffix := suffix + 1;
    }
    SuffixSteps(left, right, prefix, suffix);
  }

  /** Lays out the groups of a region that starts at `prefix`, and closes with
      the lines the last group left behind. */
  method LayOut(groups: seq<Group>, prefix: nat, left: nat, right: nat) returns (runs: seq<Run>, aligned: nat)
    requires Ordered(groups)
    ensures runs == WithTail(RunsOf(groups, prefix), left, right)
    ensures aligned == AlignedAt(runs, |runs|)
  {
    hide RunsOf, Ordered;
    runs, aligned := [], 0;
    var leftAt, rightAt := 0, 0;
    NoGroupsNoRuns(groups, prefix);
    for k := 0 to |groups|
      invariant runs == RunsOf(groups[..k], prefix)
      invariant aligned == AlignedAt(runs, |runs|)
      invariant leftAt == SideAt(runs, Left, |runs|) && rightAt == SideAt(runs, Right, |runs|)
    {
      var group := groups[k];
      var leftStart, rightStart := prefix + group.leftAt, prefix + group.rightAt;
      OneMoreGroup(groups, k, prefix);
      runs, aligned := PushRun(runs, aligned, Equal, Rows(leftAt, leftStart), Rows(rightAt, rightStart));
      var leftEnd, rightEnd := leftStart + group.deleted, rightStart + group.inserted;
      var kind := if group.deleted == 0 then Inserted else if group.inserted == 0 then Deleted else Replaced;
      runs, aligned := PushRun(runs, aligned, kind, Rows(leftStart, leftEnd), Rows(rightStart, rightEnd));
      leftAt, rightAt := leftEnd, rightEnd;
    }
    assert groups[..|groups|] == groups;
    runs, aligned := PushRun(runs, aligned, Equal, Rows(leftAt, left), Rows(rightAt, right));
  }

  /** Computes `Aligned`: trims, groups what is left, lays the groups out. */
  method AlignTexts(left: seq<string>, right: seq<string>) returns (a: Alignment)
    ensures a == Align.Aligned(left, right)
  {
    hide Align.PrefixFrom, Align.SuffixFrom, GroupsOf, RunsOf, Ordered, WithTail, Draw, Reads;
    var prefix, suffix := TrimEnds(left, right);
    var leftRegion, rightRegion := left[prefix..|left| - suffix], right[prefix..|right| - suffix];
    assert Align.Trimmed(left, right) == Align.Trim(prefix, suffix, leftRegion, rightRegion);
    var groups := GroupsFor(leftRegion, rightRegion);
    GroupsOfReach(Align.RegionScript(leftRegion, rightRegion));
    AllGroupsDraw(left, right, groups);
    var runs, aligned := LayOut(groups, prefix, |left|, |right|);
    a := Alignment(runs, aligned, |left|, |right|);
  }

  lemma {:induction false} NoGroupsNoRuns(groups: seq<Group>, prefix: nat)
    ensures RunsOf(groups[..0], prefix) == []
  {
  }

  lemma {:induction false} OneMoreGroup(groups: seq<Group>, k: nat, prefix: nat)
    requires k < |groups| && Ordered(groups)
    ensures var runs, l, r := RunsOf(groups[..k], prefix), prefix + groups[k].leftAt, prefix + groups[k].rightAt;
            var tailed := WithRun(runs, Equal, Rows(SideAt(runs, Left, |runs|), l),
                                  Rows(SideAt(runs, Right, |runs|), r));
            RunsOf(groups[..k + 1], prefix)
            == WithRun(tailed, GroupKind(groups[k]), Rows(l, l + groups[k].deleted), Rows(r, r + groups[k].inserted))
    ensures groups[k].deleted + groups[k].inserted > 0
  {
    hide WithRun;
    assert groups[..k + 1][..k] == groups[..k];
    assert GroupFits(groups, k);
  }

  /** Keeping lines adds no group. */
  lemma {:induction false} KeepingAddsNoGroup(script: seq<Step>, n: nat)
    ensures GroupsOf(script + Repeated(Keep, n)) == GroupsOf(script)
  {
    if n == 0 {
      assert script + Repeated(Keep, 0) == script;
    } else {
      KeepingAddsNoGroup(script, n - 1);
      assert (script + Repeated(Keep, n))[..|script| + n - 1] == script + Repeated(Keep, n - 1);
    }
  }

  /** Closing the laid-out groups with an equal run gives the drawn script. */
  lemma {:induction false} AllGroupsDraw(left: seq<string>, right: seq<string>, groups: seq<Group>)
    requires var t := Align.Trimmed(left, right); groups == GroupsOf(Align.RegionScript(t.left, t.right))
    ensures WithTail(RunsOf(groups, Align.Trimmed(left, right).prefix), |left|, |right|)
            == Draw(Align.Script(left, right))
  {
    hide GroupsOf, RunsOf, Draw, WithTail, Align.Trimmed, Align.RegionScript, Reads, Keeps;
    var t := Align.Trimmed(left, right);
    var region := Align.RegionScript(t.left, t.right);
    var script := region + Repeated(Keep, t.suffix);
    KeepingAddsNoGroup(region, t.suffix);
    LaidOutAsDrawn(script, t.prefix);
    Align.RegionReads(t.left, t.right);
    Lcs.ReadsRepeated(Keep, t.suffix);
    Lcs.ReadsConcat(region, Repeated(Keep, t.suffix));
    assert Repeated(Keep, t.prefix) + script == Align.Script(left, right);
  }
}
