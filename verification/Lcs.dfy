/** The longest common subsequence of two sequences of lines, and the greedy
    walk that attains it. */
module Lcs {
  import opened Alignments
  import opened Scripts

  /** The recurrence the table is filled by, for the tails from `i` and `j` on. */
  function Length(left: seq<string>, right: seq<string>, i: nat, j: nat): (n: nat)
    requires i <= |left| && j <= |right|
    ensures n <= |left| - i && n <= |right| - j
    decreases |left| - i + |right| - j
  {
    if i == |left| || j == |right| then 0
    else if left[i] == right[j] then Length(left, right, i + 1, j + 1) + 1
    else
      var below, beside := Length(left, right, i + 1, j), Length(left, right, i, j + 1);
      if below >= beside then below else beside
  }

  /** The walk: keep a line wherever both sides agree, otherwise drop a left
      line unless adding a right one leaves more to keep. */
  function Walk(left: seq<string>, right: seq<string>, i: nat, j: nat): seq<Step>
    requires i <= |left| && j <= |right|
    decreases |left| - i + |right| - j
  {
    if i == |left| && j == |right| then []
    else if i < |left| && j < |right| && left[i] == right[j] then [Keep] + Walk(left, right, i + 1, j + 1)
    else if Deletes(left, right, i, j) then [Drop] + Walk(left, right, i + 1, j)
    else [Add] + Walk(left, right, i, j + 1)
  }

  /** The step the walk takes from `i` and `j`. */
  function StepAt(left: seq<string>, right: seq<string>, i: nat, j: nat): Step
    requires i <= |left| && j <= |right| && (i < |left| || j < |right|)
  {
    if i < |left| && j < |right| && left[i] == right[j] then Keep
    else if Deletes(left, right, i, j) then Drop
    else Add
  }

  predicate Deletes(left: seq<string>, right: seq<string>, i: nat, j: nat)
    requires i <= |left| && j <= |right|
    requires i < |left| || j < |right|
  {
    j == |right| || (i < |left| && Length(left, right, i + 1, j) >= Length(left, right, i, j + 1))
  }

  /** Two equally long increasing index sequences that pick equal lines. */
  predicate Common(left: seq<string>, right: seq<string>, ls: seq<nat>, rs: seq<nat>) {
    && |ls| == |rs|
    && (forall k :: 0 <= k < |ls| ==> ls[k] < |left| && rs[k] < |right| && left[ls[k]] == right[rs[k]])
    && (forall k, l :: 0 <= k < l < |ls| ==> ls[k] < ls[l])
    && (forall k, l :: 0 <= k < l < |rs| ==> rs[k] < rs[l])
  }

  // ------------------------------------------------------- the upper bound

  /** No common subsequence of the two tails is longer than `Length`. */
  lemma {:induction false} NoneIsLonger(left: seq<string>, right: seq<string>, ls: seq<nat>, rs: seq<nat>,
                                        i: nat, j: nat)
    requires i <= |left| && j <= |right|
    requires Common(left, right, ls, rs)
    requires forall k :: 0 <= k < |ls| ==> i <= ls[k] && j <= rs[k]
    ensures |ls| <= Length(left, right, i, j)
    decreases |left| - i + |right| - j
  {
    if ls == [] {
      return;
    }
    assert i <= ls[0] < |left| && j <= rs[0] < |right|;
    if left[i] == right[j] {
      if ls[0] == i || rs[0] == j {
        NoneIsLonger(left, right, ls[1..], rs[1..], i + 1, j + 1);
      } else {
        NoneIsLonger(left, right, ls, rs, i + 1, j + 1);
      }
    } else if ls[0] == i {
      NoneIsLonger(left, right, ls, rs, i, j + 1);
    } else {
      NoneIsLonger(left, right, ls, rs, i + 1, j);
    }
  }

  /** One more line at the end of both texts adds exactly one. */
  lemma {:induction false} LastLineAddsOne(left: seq<string>, right: seq<string>, line: string, i: nat, j: nat)
    requires i <= |left| && j <= |right|
    ensures Length(left + [line], right + [line], i, j) == Length(left, right, i, j) + 1
    decreases |left| - i + |right| - j
  {
    var l, r := left + [line], right + [line];
    if i == |left| && j == |right| {
    } else if i == |left| {
      if l[i] != r[j] {
        LastLineAddsOne(left, right, line, i, j + 1);
      }
    } else if j == |right| {
      if l[i] != r[j] {
        LastLineAddsOne(left, right, line, i + 1, j);
      }
    } else if left[i] == right[j] {
      LastLineAddsOne(left, right, line, i + 1, j + 1);
    } else {
      LastLineAddsOne(left, right, line, i + 1, j);
      LastLineAddsOne(left, right, line, i, j + 1);
    }
  }

  /** A common suffix adds exactly its own length. */
  lemma {:induction false} SuffixAddsItsLength(left: seq<string>, right: seq<string>, i: nat, j: nat, suffix: nat)
    requires i + suffix <= |left| && j + suffix <= |right|
    requires left[|left| - suffix..] == right[|right| - suffix..]
    ensures Length(left, right, i, j) == Length(left[..|left| - suffix], right[..|right| - suffix], i, j) + suffix
    decreases suffix
  {
    if suffix == 0 {
      assert left[..|left|] == left && right[..|right|] == right;
    } else {
      var l, r, line := left[..|left| - 1], right[..|right| - 1], left[|left| - 1];
      assert line == left[|left| - suffix..][suffix - 1] == right[|right| - suffix..][suffix - 1];
      assert left == l + [line] && right == r + [line];
      assert l[|l| - (suffix - 1)..] == left[|left| - suffix..][..suffix - 1];
      assert r[|r| - (suffix - 1)..] == right[|right| - suffix..][..suffix - 1];
      assert l[..|l| - (suffix - 1)] == left[..|left| - suffix];
      assert r[..|r| - (suffix - 1)] == right[..|right| - suffix];
      hide Length;
      LastLineAddsOne(l, r, line, i, j);
      SuffixAddsItsLength(l, r, i, j, suffix - 1);
    }
  }

  /** So does a common stretch read from the start. */
  lemma {:induction false} PrefixAddsItsLength(left: seq<string>, right: seq<string>, at: nat, prefix: nat)
    requires at <= prefix <= |left| && prefix <= |right|
    requires left[..prefix] == right[..prefix]
    ensures Length(left, right, at, at) == (prefix - at) + Length(left, right, prefix, prefix)
    decreases prefix - at
  {
    if at < prefix {
      assert left[at] == left[..prefix][at] == right[..prefix][at] == right[at];
      PrefixAddsItsLength(left, right, at + 1, prefix);
    }
  }

  // -------------------------------------------------------- it is attained

  lemma {:induction false} ReadsConcat(front: seq<Step>, back: seq<Step>)
    ensures Reads(front + back, Left) == Reads(front, Left) + Reads(back, Left)
    ensures Reads(front + back, Right) == Reads(front, Right) + Reads(back, Right)
    ensures Keeps(front + back) == Keeps(front) + Keeps(back)
  {
    if back == [] {
      assert front + back == front;
    } else {
      var n := |back| - 1;
      assert (front + back)[..|front| + n] == front + back[..n];
      ReadsConcat(front, back[..n]);
    }
  }

  lemma {:induction false} ReadsOne(step: Step)
    ensures Reads([step], Left) == if step == Add then 0 else 1
    ensures Reads([step], Right) == if step == Drop then 0 else 1
    ensures Keeps([step]) == if step == Keep then 1 else 0
  {
    assert [step][..0] == [];
  }

  lemma {:induction false} ReadsRepeated(step: Step, n: nat)
    ensures Reads(Repeated(step, n), Left) == if step == Add then 0 else n
    ensures Reads(Repeated(step, n), Right) == if step == Drop then 0 else n
    ensures Keeps(Repeated(step, n)) == if step == Keep then n else 0
  {
    if n > 0 {
      ReadsRepeated(step, n - 1);
      assert Repeated(step, n)[..n - 1] == Repeated(step, n - 1);
    }
  }

  /** The walk reads both tails to the end and keeps as many lines as any
      common subsequence has. */
  lemma {:induction false} WalkAttains(left: seq<string>, right: seq<string>, i: nat, j: nat)
    requires i <= |left| && j <= |right|
    ensures Reads(Walk(left, right, i, j), Left) == |left| - i
    ensures Reads(Walk(left, right, i, j), Right) == |right| - j
    ensures Keeps(Walk(left, right, i, j)) == Length(left, right, i, j)
    decreases |left| - i + |right| - j
  {
    hide Reads, Keeps, Walk, Length;
    if i == |left| && j == |right| {
      NothingToWalk(left, right);
    } else {
      var step := StepAt(left, right, i, j);
      var i', j' := i + (if step == Add then 0 else 1), j + (if step == Drop then 0 else 1);
      WalkOnce(left, right, i, j);
      WalkAttains(left, right, i', j');
      ReadsOne(step);
      ReadsConcat([step], Walk(left, right, i', j'));
    }
  }

  lemma {:induction false} NothingToWalk(left: seq<string>, right: seq<string>)
    ensures Walk(left, right, |left|, |right|) == [] && Length(left, right, |left|, |right|) == 0
    ensures Reads([], Left) == 0 && Reads([], Right) == 0 && Keeps([]) == 0
  {
  }

  /** The walk's next step, and what it leaves of the length. */
  lemma {:induction false} WalkOnce(left: seq<string>, right: seq<string>, i: nat, j: nat)
    requires i <= |left| && j <= |right| && (i < |left| || j < |right|)
    ensures var step := StepAt(left, right, i, j);
            var i', j' := i + (if step == Add then 0 else 1), j + (if step == Drop then 0 else 1);
            && i' <= |left| && j' <= |right|
            && Walk(left, right, i, j) == [step] + Walk(left, right, i', j')
            && Length(left, right, i, j) == Length(left, right, i', j') + if step == Keep then 1 else 0
  {
  }

  /** Faithfulness of a script continued from `i`, `j`. */
  predicate FaithfulFrom(script: seq<Step>, left: seq<string>, right: seq<string>, i: nat, j: nat)
    decreases |script|
  {
    script == [] ||
    match script[0]
    case Keep =>
      i < |left| && j < |right| && left[i] == right[j] && FaithfulFrom(script[1..], left, right, i + 1, j + 1)
    case Drop => i < |left| && FaithfulFrom(script[1..], left, right, i + 1, j)
    case Add => j < |right| && FaithfulFrom(script[1..], left, right, i, j + 1)
  }

  lemma {:induction false} FaithfulJoins(front: seq<Step>, back: seq<Step>, left: seq<string>, right: seq<string>)
    requires Faithful(front, left, right)
    requires FaithfulFrom(back, left, right, Reads(front, Left), Reads(front, Right))
    ensures Faithful(front + back, left, right)
    decreases |back|
  {
    if back == [] {
      assert front + back == front;
    } else {
      var further := front + [back[0]];
      assert further[..|front|] == front;
      ReadsOne(back[0]);
      ReadsConcat(front, [back[0]]);
      FaithfulJoins(further, back[1..], left, right);
      assert further + back[1..] == front + back;
    }
  }

  lemma {:induction false} WalkIsFaithful(left: seq<string>, right: seq<string>, i: nat, j: nat)
    requires i <= |left| && j <= |right|
    ensures FaithfulFrom(Walk(left, right, i, j), left, right, i, j)
    decreases |left| - i + |right| - j
  {
    if i == |left| && j == |right| {
    } else if i < |left| && j < |right| && left[i] == right[j] {
      WalkIsFaithful(left, right, i + 1, j + 1);
    } else if Deletes(left, right, i, j) {
      WalkIsFaithful(left, right, i + 1, j);
    } else {
      WalkIsFaithful(left, right, i, j + 1);
    }
  }

  /** The lines a script keeps, by row. */
  function KeptRows(script: seq<Step>, side: Side): seq<nat> {
    if script == [] then []
    else
      var front := script[..|script| - 1];
      KeptRows(front, side) + if script[|script| - 1] == Keep then [Reads(front, side)] else []
  }

  /** The lines a faithful script keeps are a common subsequence. */
  lemma {:induction false} KeptIsCommon(script: seq<Step>, left: seq<string>, right: seq<string>)
    requires Faithful(script, left, right)
    ensures |KeptRows(script, Left)| == Keeps(script)
    ensures Common(left, right, KeptRows(script, Left), KeptRows(script, Right))
    ensures forall k :: 0 <= k < |KeptRows(script, Left)| ==> KeptRows(script, Left)[k] < Reads(script, Left)
    ensures forall k :: 0 <= k < |KeptRows(script, Right)| ==> KeptRows(script, Right)[k] < Reads(script, Right)
  {
    if script != [] {
      KeptIsCommon(script[..|script| - 1], left, right);
    }
  }

  lemma {:induction false} DrawnEqualRows(runs: seq<Run>, step: Step, side: Side)
    requires Chained(runs)
    ensures EqualRows(Drawn(runs, step), side)
         == EqualRows(runs, side) + if step == Keep then [SideAt(runs, side, |runs|)] else []
  {
    var n := |runs|;
    var longer := Drawn(runs, step);
    assert n > 0 ==> RunFits(runs, n - 1);
    if n > 0 && (runs[n - 1].kind == Equal <==> step == Keep) {
      assert longer[..n - 1] == runs[..n - 1];
      if step == Keep {
        var before := EqualRows(runs[..n - 1], side);
        var rows := RowsOf(runs[n - 1].On(side));
        assert RowsOf(longer[n - 1].On(side)) == rows + [runs[n - 1].On(side).end];
        assert before + (rows + [runs[n - 1].On(side).end]) == (before + rows) + [runs[n - 1].On(side).end];
      }
    } else {
      assert longer[..n] == runs;
    }
  }

  /** The rows of the equal runs a script draws are the rows it keeps. */
  lemma {:induction false} EqualRowsAreKept(script: seq<Step>, side: Side)
    ensures EqualRows(Draw(script), side) == KeptRows(script, side)
  {
    if script != [] {
      var front := script[..|script| - 1];
      EqualRowsAreKept(front, side);
      DrawFits(front);
      hide Drawn, EqualRows, Chained;
      DrawnEqualRows(Draw(front), script[|script| - 1], side);
    }
  }
}
