/** Aligning two texts: the edit script chosen, the runs it draws, and why no
    other would keep more lines. */
module Align {
  import opened Alignments
  import opened Scripts
  import Lcs

  /** Pairs of lines a region may have and still be worth a table. */
  const MAX_REGION_CELLS: nat := 0x10_0000

  /** Lines both texts start with, counted on from `k`. */
  function PrefixFrom(left: seq<string>, right: seq<string>, k: nat): (n: nat)
    requires k <= |left| && k <= |right|
    ensures k <= n <= |left| && n <= |right|
    ensures forall i :: k <= i < n ==> left[i] == right[i]
    ensures n < |left| && n < |right| ==> left[n] != right[n]
    decreases |left| - k
  {
    if k < |left| && k < |right| && left[k] == right[k] then PrefixFrom(left, right, k + 1) else k
  }

  /** Lines both texts end with below `prefix`, counted on from `k`. */
  function SuffixFrom(left: seq<string>, right: seq<string>, prefix: nat, k: nat): (n: nat)
    requires prefix + k <= |left| && prefix + k <= |right|
    ensures k <= n && prefix + n <= |left| && prefix + n <= |right|
    ensures forall row :: |left| - n <= row < |left| - k ==> left[row] == right[row + |right| - |left|]
    ensures prefix + n < |left| && prefix + n < |right| ==> left[|left| - 1 - n] != right[|right| - 1 - n]
    decreases |left| - k
  {
    if prefix + k < |left| && prefix + k < |right| && left[|left| - 1 - k] == right[|right| - 1 - k] then
      SuffixFrom(left, right, prefix, k + 1)
    else k
  }

  function Whole(left: seq<string>, right: seq<string>): seq<Step> {
    Repeated(Drop, |left|) + Repeated(Add, |right|)
  }

  /** The script for what lies between the common ends: the walk if both sides
      have lines and the table is small enough, otherwise all of it changed. */
  function RegionScript(left: seq<string>, right: seq<string>): seq<Step> {
    if |left| * |right| <= MAX_REGION_CELLS && left != [] && right != [] then Lcs.Walk(left, right, 0, 0)
    else Whole(left, right)
  }

  /** The two texts with their common ends trimmed away. */
  datatype Trim = Trim(prefix: nat, suffix: nat, left: seq<string>, right: seq<string>)

  function Trimmed(left: seq<string>, right: seq<string>): (t: Trim)
    ensures |left| == t.prefix + |t.left| + t.suffix
    ensures |right| == t.prefix + |t.right| + t.suffix
    ensures t.left == left[t.prefix..|left| - t.suffix]
    ensures t.right == right[t.prefix..|right| - t.suffix]
  {
    var prefix := PrefixFrom(left, right, 0);
    var suffix := SuffixFrom(left, right, prefix, 0);
    Trim(prefix, suffix, left[prefix..|left| - suffix], right[prefix..|right| - suffix])
  }

  /** What is trimmed is the same on both sides. */
  lemma {:induction false} TrimmedEndsAgree(left: seq<string>, right: seq<string>)
    ensures var t := Trimmed(left, right);
            && left[..t.prefix] == right[..t.prefix]
            && left[|left| - t.suffix..] == right[|right| - t.suffix..]
  {
  }

  function Script(left: seq<string>, right: seq<string>): seq<Step> {
    var t := Trimmed(left, right);
    Repeated(Keep, t.prefix) + RegionScript(t.left, t.right) + Repeated(Keep, t.suffix)
  }

  /** The alignment of two texts. */
  function Aligned(left: seq<string>, right: seq<string>): Alignment {
    var runs := Draw(Script(left, right));
    Alignment(runs, AlignedAt(runs, |runs|), |left|, |right|)
  }

  // --------------------------------------------------- the script is right

  lemma {:induction false} WholeReads(left: seq<string>, right: seq<string>)
    ensures Reads(Whole(left, right), Left) == |left|
    ensures Reads(Whole(left, right), Right) == |right|
    ensures Keeps(Whole(left, right)) == 0
  {
    Lcs.ReadsRepeated(Drop, |left|);
    Lcs.ReadsRepeated(Add, |right|);
    Lcs.ReadsConcat(Repeated(Drop, |left|), Repeated(Add, |right|));
  }

  lemma {:induction false} RegionReads(left: seq<string>, right: seq<string>)
    ensures Reads(RegionScript(left, right), Left) == |left|
    ensures Reads(RegionScript(left, right), Right) == |right|
    ensures |left| * |right| <= MAX_REGION_CELLS ==> Keeps(RegionScript(left, right)) == Lcs.Length(left, right, 0, 0)
  {
    if |left| * |right| <= MAX_REGION_CELLS && left != [] && right != [] {
      Lcs.WalkAttains(left, right, 0, 0);
    } else {
      WholeReads(left, right);
    }
  }

  lemma {:induction false} ScriptReads(left: seq<string>, right: seq<string>)
    ensures var t := Trimmed(left, right);
            && Reads(Script(left, right), Left) == |left|
            && Reads(Script(left, right), Right) == |right|
            && Keeps(Script(left, right)) == t.prefix + Keeps(RegionScript(t.left, t.right)) + t.suffix
  {
    var t := Trimmed(left, right);
    var head, middle, tail := Repeated(Keep, t.prefix), RegionScript(t.left, t.right), Repeated(Keep, t.suffix);
    RegionReads(t.left, t.right);
    Lcs.ReadsRepeated(Keep, t.prefix);
    Lcs.ReadsRepeated(Keep, t.suffix);
    Lcs.ReadsConcat(head, middle);
    Lcs.ReadsConcat(head + middle, tail);
  }

  /** A stretch both texts share may be kept line by line. */
  lemma {:induction false} KeepingIsFaithful(left: seq<string>, right: seq<string>, i: nat, j: nat, n: nat)
    requires i + n <= |left| && j + n <= |right|
    requires left[i..i + n] == right[j..j + n]
    ensures Lcs.FaithfulFrom(Repeated(Keep, n), left, right, i, j)
    decreases n
  {
    if n > 0 {
      assert left[i] == left[i..i + n][0] == right[j..j + n][0] == right[j];
      assert left[i + 1..i + n] == left[i..i + n][1..];
      assert right[j + 1..j + n] == right[j..j + n][1..];
      KeepingIsFaithful(left, right, i + 1, j + 1, n - 1);
      assert Repeated(Keep, n)[1..] == Repeated(Keep, n - 1);
    }
  }

  lemma {:induction false} WholeIsFaithful(left: seq<string>, right: seq<string>, i: nat, j: nat)
    requires i <= |left| && j <= |right|
    ensures Lcs.FaithfulFrom(Repeated(Drop, |left| - i) + Repeated(Add, |right| - j), left, right, i, j)
    decreases |left| - i + |right| - j
  {
    var script := Repeated(Drop, |left| - i) + Repeated(Add, |right| - j);
    if i < |left| {
      WholeIsFaithful(left, right, i + 1, j);
      assert script[1..] == Repeated(Drop, |left| - i - 1) + Repeated(Add, |right| - j);
    } else if j < |right| {
      WholeIsFaithful(left, right, i, j + 1);
      assert script[1..] == Repeated(Drop, |left| - i) + Repeated(Add, |right| - j - 1);
    }
  }

  /** A script faithful to two regions is faithful to the texts they lie in. */
  lemma {:induction false} FaithfulInside(script: seq<Step>, l: seq<string>, r: seq<string>, i: nat, j: nat,
                                          left: seq<string>, right: seq<string>, prefix: nat)
    requires prefix + |l| <= |left| && left[prefix..prefix + |l|] == l
    requires prefix + |r| <= |right| && right[prefix..prefix + |r|] == r
    requires Lcs.FaithfulFrom(script, l, r, i, j)
    ensures Lcs.FaithfulFrom(script, left, right, prefix + i, prefix + j)
    decreases |script|
  {
    if script != [] {
      match script[0]
      case Keep =>
        FaithfulInside(script[1..], l, r, i + 1, j + 1, left, right, prefix);
        assert l[i] == left[prefix + i] && r[j] == right[prefix + j];
      case Drop => FaithfulInside(script[1..], l, r, i + 1, j, left, right, prefix);
      case Add => FaithfulInside(script[1..], l, r, i, j + 1, left, right, prefix);
    }
  }

  lemma {:induction false} RegionIsFaithful(left: seq<string>, right: seq<string>)
    ensures Lcs.FaithfulFrom(RegionScript(left, right), left, right, 0, 0)
  {
    if |left| * |right| <= MAX_REGION_CELLS && left != [] && right != [] {
      Lcs.WalkIsFaithful(left, right, 0, 0);
    } else {
      WholeIsFaithful(left, right, 0, 0);
    }
  }

  /** What the ends leave between them, and the common start before it. */
  lemma {:induction false} FrontIsFaithful(left: seq<string>, right: seq<string>)
    ensures var t := Trimmed(left, right);
            && Faithful(Repeated(Keep, t.prefix) + RegionScript(t.left, t.right), left, right)
            && Reads(Repeated(Keep, t.prefix) + RegionScript(t.left, t.right), Left) == t.prefix + |t.left|
            && Reads(Repeated(Keep, t.prefix) + RegionScript(t.left, t.right), Right) == t.prefix + |t.right|
  {
    hide Faithful, Lcs.FaithfulFrom, Reads, Keeps, Trimmed, RegionScript, Repeated;
    var t := Trimmed(left, right);
    var head, middle := Repeated(Keep, t.prefix), RegionScript(t.left, t.right);
    TrimmedEndsAgree(left, right);
    assert left[0..0 + t.prefix] == left[..t.prefix] == right[..t.prefix] == right[0..0 + t.prefix];
    NothingIsFaithful(left, right);
    RegionReads(t.left, t.right);
    Lcs.ReadsRepeated(Keep, t.prefix);
    KeepingIsFaithful(left, right, 0, 0, t.prefix);
    Lcs.FaithfulJoins([], head, left, right);
    assert [] + head == head;
    RegionIsFaithful(t.left, t.right);
    FaithfulInside(middle, t.left, t.right, 0, 0, left, right, t.prefix);
    Lcs.FaithfulJoins(head, middle, left, right);
    Lcs.ReadsConcat(head, middle);
  }

  lemma {:induction false} ScriptIsFaithful(left: seq<string>, right: seq<string>)
    ensures Faithful(Script(left, right), left, right)
  {
    hide Faithful, Lcs.FaithfulFrom, Reads, Keeps, Trimmed, RegionScript, Repeated;
    var t := Trimmed(left, right);
    var front := Repeated(Keep, t.prefix) + RegionScript(t.left, t.right);
    FrontIsFaithful(left, right);
    TrimmedEndsAgree(left, right);
    var l, r := t.prefix + |t.left|, t.prefix + |t.right|;
    assert left[l..l + t.suffix] == left[|left| - t.suffix..] == right[|right| - t.suffix..] == right[r..r + t.suffix];
    KeepingIsFaithful(left, right, l, r, t.suffix);
    Lcs.FaithfulJoins(front, Repeated(Keep, t.suffix), left, right);
  }

  lemma {:induction false} NothingIsFaithful(left: seq<string>, right: seq<string>)
    ensures Faithful([], left, right) && Reads([], Left) == 0 && Reads([], Right) == 0
  {
  }

  // ----------------------------------------------------------- the theorems

  /** The alignment covers both texts exactly in contiguous ascending runs. */
  lemma {:induction false} AlignedIsWellFormed(left: seq<string>, right: seq<string>)
    ensures Aligned(left, right).WellFormed()
    ensures Aligned(left, right).leftLines == |left|
    ensures Aligned(left, right).rightLines == |right|
  {
    ScriptReads(left, right);
    DrawFits(Script(left, right));
  }

  /** Equal runs match line for line and alternate with changed ones, so
      replaying the runs turns left into right. */
  lemma {:induction false} AlignedReplays(left: seq<string>, right: seq<string>)
    ensures Aligned(left, right).WellFormed()
    ensures Matching(Aligned(left, right).runs, left, right)
    ensures Alternating(Aligned(left, right).runs)
    ensures SideAt(Aligned(left, right).runs, Left, |Aligned(left, right).runs|) == |left|
    ensures SideAt(Aligned(left, right).runs, Right, |Aligned(left, right).runs|) == |right|
    ensures Replay(Aligned(left, right).runs, left, right) == right
  {
    AlignedIsWellFormed(left, right);
    ScriptIsFaithful(left, right);
    DrawFits(Script(left, right));
    hide Script, Faithful, Alternating, Replay, SideAt, Draw, Matching;
    DrawMatches(Script(left, right), left, right);
    ReplayGivesRight(Aligned(left, right).runs, left, right);
    assert right[..|right|] == right;
  }

  /** `Length` of two tails is `Length` of the tails taken as texts. */
  lemma {:induction false} LengthOfTails(left: seq<string>, right: seq<string>, lo: nat, i: nat, j: nat)
    requires lo + i <= |left| && lo + j <= |right|
    ensures Lcs.Length(left, right, lo + i, lo + j) == Lcs.Length(left[lo..], right[lo..], i, j)
    decreases |left| - lo - i + |right| - lo - j
  {
    if lo + i == |left| || lo + j == |right| {
    } else if left[lo + i] == right[lo + j] {
      LengthOfTails(left, right, lo, i + 1, j + 1);
    } else {
      LengthOfTails(left, right, lo, i + 1, j);
      LengthOfTails(left, right, lo, i, j + 1);
    }
  }

  /** Whether the trimmed region is small enough to be aligned line by line. */
  predicate Comparable(left: seq<string>, right: seq<string>) {
    var t := Trimmed(left, right);
    |t.left| * |t.right| <= MAX_REGION_CELLS
  }

  /** Trimming the common ends takes exactly their lines off the longest common
      subsequence of the whole texts. */
  lemma {:induction false} TrimmingLosesNothing(left: seq<string>, right: seq<string>)
    ensures var t := Trimmed(left, right);
            Lcs.Length(left, right, 0, 0) == t.prefix + Lcs.Length(t.left, t.right, 0, 0) + t.suffix
  {
    hide Trimmed, Lcs.Length;
    var t := Trimmed(left, right);
    TrimmedEndsAgree(left, right);
    Lcs.PrefixAddsItsLength(left, right, 0, t.prefix);
    Lcs.SuffixAddsItsLength(left, right, t.prefix, t.prefix, t.suffix);
    var l, r := left[..|left| - t.suffix], right[..|right| - t.suffix];
    assert l[t.prefix..] == t.left && r[t.prefix..] == t.right;
    LengthOfTails(l, r, t.prefix, 0, 0);
  }

  /** The lines in equal runs are a longest common subsequence of the two
      whole texts: they are one, and none is longer. */
  lemma {:induction false} EqualRunsAreLongest(left: seq<string>, right: seq<string>, ls: seq<nat>, rs: seq<nat>)
    requires Comparable(left, right)
    requires Lcs.Common(left, right, ls, rs)
    ensures |ls| <= EqualLines(Aligned(left, right).runs)
  {
    hide Trimmed, Lcs.Length, RegionScript, Script, Draw, EqualLines, Reads, Keeps;
    var t := Trimmed(left, right);
    Lcs.NoneIsLonger(left, right, ls, rs, 0, 0);
    TrimmingLosesNothing(left, right);
    RegionReads(t.left, t.right);
    ScriptReads(left, right);
    DrawFits(Script(left, right));
  }

  /** The rows of the equal runs, side by side, are a common subsequence, whatever
      the size of the texts. */
  lemma {:induction false} EqualRunsAreCommon(left: seq<string>, right: seq<string>)
    ensures Lcs.Common(left, right,
                       EqualRows(Aligned(left, right).runs, Left),
                       EqualRows(Aligned(left, right).runs, Right))
    ensures |EqualRows(Aligned(left, right).runs, Left)| == EqualLines(Aligned(left, right).runs)
  {
    var script := Script(left, right);
    ScriptIsFaithful(left, right);
    hide Script, Lcs.Common;
    Lcs.KeptIsCommon(script, left, right);
    DrawFits(script);
    Lcs.EqualRowsAreKept(script, Left);
    Lcs.EqualRowsAreKept(script, Right);
  }

  /** Over the limit everything between the common ends is one change: nothing
      but the ends is kept. */
  lemma {:induction false} OversizedKeepsTheEnds(left: seq<string>, right: seq<string>)
    requires !Comparable(left, right)
    ensures var t := Trimmed(left, right);
            EqualLines(Aligned(left, right).runs) == t.prefix + t.suffix
  {
    hide Trimmed, Draw, EqualLines, Reads, Keeps;
    var t := Trimmed(left, right);
    WholeReads(t.left, t.right);
    ScriptReads(left, right);
    DrawFits(Script(left, right));
  }
}
