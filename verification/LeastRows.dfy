/** Which of the longest common subsequences an alignment keeps: the one whose
    right rows come first. */
module LeastRows {
  import opened Alignments
  import opened Scripts
  import opened Lcs
  import Align

  /** The rows of `side` the walk keeps from `i` and `j` on. */
  function WalkRows(left: seq<string>, right: seq<string>, i: nat, j: nat, side: Side): seq<nat>
    requires i <= |left| && j <= |right|
    decreases |left| - i + |right| - j
  {
    if i == |left| && j == |right| then []
    else if i < |left| && j < |right| && left[i] == right[j] then
      [if side == Left then i else j] + WalkRows(left, right, i + 1, j + 1, side)
    else if Deletes(left, right, i, j) then WalkRows(left, right, i + 1, j, side)
    else WalkRows(left, right, i, j + 1, side)
  }

  /** A common subsequence of the tails from `i` and `j` on. */
  predicate CommonFrom(left: seq<string>, right: seq<string>, i: nat, j: nat, ls: seq<nat>, rs: seq<nat>) {
    Common(left, right, ls, rs) && forall k :: 0 <= k < |ls| ==> i <= ls[k] && j <= rs[k]
  }

  /** Row for row, `first` comes no later than `second`. */
  predicate NoLater(first: seq<nat>, second: seq<nat>) {
    |first| == |second| && forall k :: 0 <= k < |first| ==> first[k] <= second[k]
  }

  /** What the walk's next step adds to the rows kept. */
  lemma {:induction false} WalkRowsOnce(left: seq<string>, right: seq<string>, i: nat, j: nat, side: Side)
    requires i <= |left| && j <= |right| && (i < |left| || j < |right|)
    ensures var step := StepAt(left, right, i, j);
            var i', j' := i + (if step == Add then 0 else 1), j + (if step == Drop then 0 else 1);
            && i' <= |left| && j' <= |right|
            && (step == Keep ==> i < |left| && j < |right| && left[i] == right[j])
            && WalkRows(left, right, i, j, side)
               == (if step == Keep then [if side == Left then i else j] else [])
                  + WalkRows(left, right, i', j', side)
  {
  }

  lemma {:induction false} Prepended(left: seq<string>, right: seq<string>, i: nat, j: nat, ls: seq<nat>, rs: seq<nat>)
    requires i < |left| && j < |right| && left[i] == right[j] && CommonFrom(left, right, i + 1, j + 1, ls, rs)
    ensures CommonFrom(left, right, i, j, [i] + ls, [j] + rs)
  {
  }

  lemma {:induction false} OfLongerTails(left: seq<string>, right: seq<string>, i: nat, j: nat, i': nat, j': nat,
                                         ls: seq<nat>, rs: seq<nat>)
    requires CommonFrom(left, right, i', j', ls, rs) && i <= i' && j <= j'
    ensures CommonFrom(left, right, i, j, ls, rs)
  {
  }

  lemma {:induction false} WalkRowsAreLongest(left: seq<string>, right: seq<string>, i: nat, j: nat)
    requires i <= |left| && j <= |right|
    ensures var ls, rs := WalkRows(left, right, i, j, Left), WalkRows(left, right, i, j, Right);
            CommonFrom(left, right, i, j, ls, rs) && |ls| == Length(left, right, i, j)
    decreases |left| - i + |right| - j
  {
    if i == |left| && j == |right| {
    } else {
      hide CommonFrom, WalkRows, Length, Deletes, Walk;
      var step := StepAt(left, right, i, j);
      var i', j' := i + (if step == Add then 0 else 1), j + (if step == Drop then 0 else 1);
      WalkOnce(left, right, i, j);
      WalkRowsOnce(left, right, i, j, Left);
      WalkRowsOnce(left, right, i, j, Right);
      WalkRowsAreLongest(left, right, i', j');
      var ls, rs := WalkRows(left, right, i', j', Left), WalkRows(left, right, i', j', Right);
      if step == Keep {
        Prepended(left, right, i, j, ls, rs);
      } else {
        assert [] + ls == ls && [] + rs == rs;
        OfLongerTails(left, right, i, j, i', j', ls, rs);
      }
    }
  }

  predicate Increasing(rows: seq<nat>) {
    forall k, l :: 0 <= k < l < |rows| ==> rows[k] < rows[l]
  }

  lemma {:induction false} JoinIncreases(front: seq<nat>, s: nat, back: seq<nat>, t: nat)
    requires Increasing(front) && s <= |front| && Increasing(back) && t <= |back|
    requires s > 0 && t < |back| ==> front[s - 1] < back[t]
    ensures Increasing(front[..s] + back[t..])
  {
    var rows := front[..s] + back[t..];
    forall k, l | 0 <= k < l < |rows| ensures rows[k] < rows[l] {
      if k < s <= l {
        assert front[k] <= front[s - 1] && back[t] <= back[l - s + t];
      }
    }
  }

  lemma {:induction false} PairsIncrease(left: seq<string>, right: seq<string>, ls: seq<nat>, rs: seq<nat>)
    requires |ls| == |rs|
    requires forall k :: 0 <= k < |ls| ==> ls[k] < |left| && rs[k] < |right| && left[ls[k]] == right[rs[k]]
    ensures Common(left, right, ls, rs) <==> Increasing(ls) && Increasing(rs)
  {
  }

  /** Two common subsequences joined where both indices grow. */
  lemma {:induction false} CommonJoins(left: seq<string>, right: seq<string>, i: nat, j: nat,
                                       ls: seq<nat>, rs: seq<nat>, s: nat, ls': seq<nat>, rs': seq<nat>, t: nat)
    requires CommonFrom(left, right, i, j, ls, rs) && s <= |ls|
    requires CommonFrom(left, right, i, j, ls', rs') && t <= |ls'|
    requires s > 0 && t < |ls'| ==> ls[s - 1] < ls'[t] && rs[s - 1] < rs'[t]
    ensures CommonFrom(left, right, i, j, ls[..s] + ls'[t..], rs[..s] + rs'[t..])
  {
    PairsIncrease(left, right, ls, rs);
    PairsIncrease(left, right, ls', rs');
    hide Increasing;
    JoinIncreases(ls, s, ls', t);
    JoinIncreases(rs, s, rs', t);
    var l, r := ls[..s] + ls'[t..], rs[..s] + rs'[t..];
    forall k | 0 <= k < |l|
      ensures i <= l[k] < |left| && j <= r[k] < |right| && left[l[k]] == right[r[k]]
    {
      var pair := if k < s then (ls[k], rs[k]) else (ls'[k - s + t], rs'[k - s + t]);
      assert (l[k], r[k]) == pair;
    }
    PairsIncrease(left, right, l, r);
  }

  /** A longest common subsequence that begins in row `i` can be traded for one
      that does not, with no right row later, if there is any. */
  lemma {:induction false} Traded(left: seq<string>, right: seq<string>, i: nat, j: nat, ls: seq<nat>, rs: seq<nat>,
                                  ms: seq<nat>, bs: seq<nat>)
      returns (cs: seq<nat>, ds: seq<nat>)
    requires i < |left| && j <= |right|
    requires CommonFrom(left, right, i, j, ls, rs) && |ls| == Length(left, right, i, j) > 0 && ls[0] == i
    requires CommonFrom(left, right, i + 1, j, ms, bs) && |ms| == |ls|
    ensures CommonFrom(left, right, i + 1, j, cs, ds) && NoLater(ds, rs)
  {
    hide Length;
    if NoLater(bs, rs) {
      cs, ds := ms, bs;
    } else {
      var t := FirstLater(bs, rs);
      if ms[t] > ls[t] {
        CommonJoins(left, right, i, j, ls, rs, t + 1, ms, bs, t);
        NoneIsLonger(left, right, ls[..t + 1] + ms[t..], rs[..t + 1] + bs[t..], i, j);
      }
      var s := FirstNotBelow(ms, ls, t);
      CommonJoins(left, right, i, j, ms, bs, s, ls, rs, s);
      cs, ds := ms[..s] + ls[s..], bs[..s] + rs[s..];
      assert forall k :: s <= k < |ls| ==> ls[0] < ls[k];
    }
  }

  lemma {:induction false} FirstLater(bs: seq<nat>, rs: seq<nat>) returns (t: nat)
    requires |bs| == |rs| && !NoLater(bs, rs)
    ensures t < |bs| && bs[t] > rs[t] && forall k :: 0 <= k < t ==> bs[k] <= rs[k]
  {
    t := 0;
    while bs[t] <= rs[t]
      invariant t < |bs| && forall k :: 0 <= k < t ==> bs[k] <= rs[k]
      decreases |bs| - t
    {
      t := t + 1;
    }
  }

  lemma {:induction false} FirstNotBelow(ms: seq<nat>, ls: seq<nat>, t: nat) returns (s: nat)
    requires t < |ms| == |ls| && ms[t] <= ls[t] && ms[0] > ls[0]
    ensures 0 < s <= t && ms[s] <= ls[s] && ms[s - 1] > ls[s - 1]
  {
    s := t;
    while ms[s - 1] <= ls[s - 1]
      invariant 0 < s <= t && ms[s] <= ls[s]
      decreases s
    {
      s := s - 1;
    }
  }

  /** Of all longest common subsequences the walk keeps the one whose right
      rows come first, each of them. */
  lemma {:induction false} WalkKeepsTheFirst(left: seq<string>, right: seq<string>, i: nat, j: nat, ls: seq<nat>,
                                             rs: seq<nat>)
    requires i <= |left| && j <= |right|
    requires CommonFrom(left, right, i, j, ls, rs) && |ls| == Length(left, right, i, j)
    ensures NoLater(WalkRows(left, right, i, j, Right), rs)
    decreases |left| - i + |right| - j
  {
    hide Common, WalkRows, Length, Walk, NoLater;
    SameLengths(left, right, ls, rs);
    if i == |left| && j == |right| {
      NothingToWalk(left, right);
      WalkingNowhere(left, right, [], Right);
      NothingIsNoLater();
      return;
    }
    WalkOnce(left, right, i, j);
    WalkRowsOnce(left, right, i, j, Right);
    var step := StepAt(left, right, i, j);
    var i', j' := i + (if step == Add then 0 else 1), j + (if step == Drop then 0 else 1);
    assert [] + WalkRows(left, right, i', j', Right) == WalkRows(left, right, i', j', Right);
    if step == Keep {
      RestIsCommon(left, right, i, j, ls, rs);
      WalkKeepsTheFirst(left, right, i + 1, j + 1, ls[1..], rs[1..]);
      OneMoreNoLater(j, WalkRows(left, right, i + 1, j + 1, Right), rs);
    } else if step == Drop {
      if ls != [] && ls[0] == i {
        WalkRowsAreLongest(left, right, i + 1, j);
        var cs, ds := Traded(left, right, i, j, ls, rs, WalkRows(left, right, i + 1, j, Left),
                             WalkRows(left, right, i + 1, j, Right));
        SameLengths(left, right, cs, ds);
        NoLaterIsAsLong(ds, rs);
        WalkKeepsTheFirst(left, right, i + 1, j, cs, ds);
        NoLaterThrough(WalkRows(left, right, i + 1, j, Right), ds, rs);
      } else {
        BeginsLater(left, right, i, j, ls, rs);
        WalkKeepsTheFirst(left, right, i + 1, j, ls, rs);
      }
    } else {
      if rs != [] && rs[0] == j {
        BeginsOnTheRight(left, right, i, j, ls, rs);
        NoneIsLonger(left, right, ls, rs, i + 1, j);
        assert false;
      }
      BeginsLater(left, right, i, j, ls, rs);
      WalkKeepsTheFirst(left, right, i, j + 1, ls, rs);
    }
  }

  lemma {:induction false} NothingIsNoLater()
    ensures NoLater([], [])
  {
  }

  lemma {:induction false} OneMoreNoLater(row: nat, first: seq<nat>, second: seq<nat>)
    requires second != [] && row <= second[0] && NoLater(first, second[1..])
    ensures NoLater([row] + first, second)
  {
    assert second == [second[0]] + second[1..];
  }

  lemma {:induction false} NoLaterIsAsLong(first: seq<nat>, second: seq<nat>)
    requires NoLater(first, second)
    ensures |first| == |second|
  {
  }

  lemma {:induction false} NoLaterThrough(first: seq<nat>, second: seq<nat>, third: seq<nat>)
    requires NoLater(first, second) && NoLater(second, third)
    ensures NoLater(first, third)
  {
  }

  lemma {:induction false} SameLengths(left: seq<string>, right: seq<string>, ls: seq<nat>, rs: seq<nat>)
    requires Common(left, right, ls, rs)
    ensures |ls| == |rs|
  {
  }

  lemma {:induction false} RestIsCommon(left: seq<string>, right: seq<string>, i: nat, j: nat, ls: seq<nat>,
                                        rs: seq<nat>)
    requires CommonFrom(left, right, i, j, ls, rs) && ls != []
    ensures rs != [] && j <= rs[0] && CommonFrom(left, right, i + 1, j + 1, ls[1..], rs[1..])
  {
  }

  /** Without row `i` in front, a common subsequence is one of the later tails. */
  lemma {:induction false} BeginsLater(left: seq<string>, right: seq<string>, i: nat, j: nat, ls: seq<nat>,
                                       rs: seq<nat>)
    requires CommonFrom(left, right, i, j, ls, rs)
    ensures ls == [] || ls[0] != i ==> CommonFrom(left, right, i + 1, j, ls, rs)
    ensures |rs| == |ls| && (rs == [] || rs[0] != j ==> CommonFrom(left, right, i, j + 1, ls, rs))
  {
  }

  lemma {:induction false} BeginsOnTheRight(left: seq<string>, right: seq<string>, i: nat, j: nat, ls: seq<nat>,
                                            rs: seq<nat>)
    requires CommonFrom(left, right, i, j, ls, rs) && rs != [] && rs[0] == j
    requires i < |left| && j < |right| ==> left[i] != right[j]
    ensures |ls| == |rs| && i < |left| && CommonFrom(left, right, i + 1, j, ls, rs)
  {
    assert i <= ls[0] < |left|;
  }

  // ------------------------------------------------------ in the alignment

  lemma {:induction false} KeptRowsSnoc(script: seq<Step>, step: Step, side: Side)
    ensures KeptRows(script + [step], side)
         == KeptRows(script, side) + if step == Keep then [Reads(script, side)] else []
  {
    assert (script + [step])[..|script|] == script;
  }

  lemma {:induction false} KeptRowsConcat(front: seq<Step>, back: seq<Step>, side: Side, k: nat)
    requires k < Keeps(back)
    ensures |KeptRows(front + back, side)| == Keeps(front) + Keeps(back) && |KeptRows(back, side)| == Keeps(back)
    ensures KeptRows(front + back, side)[Keeps(front) + k] == Reads(front, side) + KeptRows(back, side)[k]
  {
    hide Reads, Keeps;
    KeptCounts(back, side);
    KeptCounts(front + back, side);
    ReadsConcat(front, back);
    var n := |back| - 1;
    assert (front + back)[..|front| + n] == front + back[..n];
    KeptCounts(back[..n], side);
    KeptCounts(front + back[..n], side);
    ReadsConcat(front, back[..n]);
    if k < Keeps(back[..n]) {
      KeptRowsConcat(front, back[..n], side, k);
    }
  }

  lemma {:induction false} KeptCounts(script: seq<Step>, side: Side)
    ensures |KeptRows(script, side)| == Keeps(script)
  {
    if script != [] {
      KeptCounts(script[..|script| - 1], side);
    }
  }

  lemma {:induction false} WalkingNowhere(left: seq<string>, right: seq<string>, front: seq<Step>, side: Side)
    ensures front + Walk(left, right, |left|, |right|) == front
    ensures WalkRows(left, right, |left|, |right|, side) == []
  {
  }

  lemma {:induction false} WalkKeepsItsRows(left: seq<string>, right: seq<string>, i: nat, j: nat, front: seq<Step>,
                                            side: Side)
    requires i <= |left| && j <= |right| && Reads(front, Left) == i && Reads(front, Right) == j
    ensures KeptRows(front + Walk(left, right, i, j), side)
         == KeptRows(front, side) + WalkRows(left, right, i, j, side)
    decreases |left| - i + |right| - j
  {
    hide KeptRows, Reads, Walk, WalkRows, Length, Deletes, Keeps;
    if i == |left| && j == |right| {
      WalkingNowhere(left, right, front, side);
    } else {
      var step := StepAt(left, right, i, j);
      var i', j' := i + (if step == Add then 0 else 1), j + (if step == Drop then 0 else 1);
      WalkOnce(left, right, i, j);
      WalkRowsOnce(left, right, i, j, side);
      ReadsOne(step);
      ReadsConcat(front, [step]);
      KeptRowsSnoc(front, step, side);
      WalkKeepsItsRows(left, right, i', j', front + [step], side);
      assert front + ([step] + Walk(left, right, i', j')) == (front + [step]) + Walk(left, right, i', j');
    }
  }

  /** Between the common ends an alignment keeps, of all longest common
      subsequences, the one whose right rows come first. */
  lemma {:induction false} AlignedKeepsTheFirst(left: seq<string>, right: seq<string>, ls: seq<nat>, rs: seq<nat>,
                                                k: nat)
    requires Align.Comparable(left, right) && k < |rs|
    requires var t := Align.Trimmed(left, right);
             Common(t.left, t.right, ls, rs) && |ls| == Length(t.left, t.right, 0, 0)
    ensures var prefix := Align.Trimmed(left, right).prefix;
            && prefix + k < |EqualRows(Align.Aligned(left, right).runs, Right)|
            && EqualRows(Align.Aligned(left, right).runs, Right)[prefix + k] <= prefix + rs[k]
  {
    hide Length, Align.Trimmed, Walk, WalkRows, Reads, Keeps, EqualRows, Draw, Common, KeptRows;
    var t := Align.Trimmed(left, right);
    var head, middle, tail :=
      Repeated(Keep, t.prefix), Align.RegionScript(t.left, t.right), Repeated(Keep, t.suffix);
    SameLengths(t.left, t.right, ls, rs);
    NoLongerThanTheSides(t.left, t.right, ls, rs);
    WalkKeepsTheFirst(t.left, t.right, 0, 0, ls, rs);
    NothingRead();
    WalkKeepsItsRows(t.left, t.right, 0, 0, [], Right);
    assert [] + Walk(t.left, t.right, 0, 0) == Walk(t.left, t.right, 0, 0);
    WalkAttains(t.left, t.right, 0, 0);
    ReadsRepeated(Keep, t.prefix);
    KeptRowsConcat(head, middle, Right, k);
    ReadsConcat(head, middle);
    KeptRowsFront(head + middle, tail, Right, t.prefix + k);
    EqualRowsAreKept(Align.Script(left, right), Right);
  }

  lemma {:induction false} NoLongerThanTheSides(left: seq<string>, right: seq<string>, ls: seq<nat>, rs: seq<nat>)
    requires Common(left, right, ls, rs) && ls != []
    ensures left != [] && right != []
    ensures CommonFrom(left, right, 0, 0, ls, rs)
  {
    assert ls[0] < |left| && rs[0] < |right|;
  }

  lemma {:induction false} NothingRead()
    ensures Reads([], Left) == Reads([], Right) == 0 && KeptRows([], Right) == []
  {
  }

  lemma {:induction false} KeptRowsFront(front: seq<Step>, back: seq<Step>, side: Side, k: nat)
    requires k < |KeptRows(front, side)|
    ensures k < |KeptRows(front + back, side)| && KeptRows(front + back, side)[k] == KeptRows(front, side)[k]
  {
    if back == [] {
      assert front + back == front;
    } else {
      var n := |back| - 1;
      assert (front + back)[..|front| + n] == front + back[..n];
      KeptRowsFront(front, back[..n], side, k);
    }
  }
}
