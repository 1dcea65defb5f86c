/** Naming a row of a patch so that it can be found again. */
module DiffRows {
  import opened Wrappers

  /** The hunk header above a row, the row's text, and which of the equal rows
      of its hunk it is. */
  datatype Identity = Identity(hunk: string, line: string, occurrence: nat)

  predicate IsHeader(line: string) {
    |line| >= 2 && line[0] == '@' && line[1] == '@'
  }

  /** Where the hunk around a row begins: its header, or the first row. */
  function HunkStart(lines: seq<string>, row: nat): (start: nat)
    requires row < |lines|
    ensures start <= row
    ensures start > 0 ==> IsHeader(lines[start])
    ensures forall k :: start < k <= row ==> !IsHeader(lines[k])
  {
    if row == 0 || IsHeader(lines[row]) then row else HunkStart(lines, row - 1)
  }

  function Header(lines: seq<string>, row: nat): string
    requires row < |lines|
  {
    var start := HunkStart(lines, row);
    if IsHeader(lines[start]) then lines[start] else ""
  }

  /** How many rows of a stretch say `line`. */
  function Saying(lines: seq<string>, line: string, start: nat, end: nat): (n: nat)
    requires start <= end <= |lines|
    ensures n > 0 <==> exists k :: start <= k < end && lines[k] == line
    decreases end
  {
    if start == end then 0 else Saying(lines, line, start, end - 1) + if lines[end - 1] == line then 1 else 0
  }

  function IdentityOf(lines: seq<string>, row: nat): Identity
    requires row < |lines|
  {
    Identity(Header(lines, row), lines[row], Saying(lines, lines[row], HunkStart(lines, row), row + 1))
  }

  predicate Alike(lines: seq<string>, row: nat, hunk: string, line: string)
    requires row < |lines|
  {
    Header(lines, row) == hunk && lines[row] == line
  }

  /** How many of the first `n` rows say `line` under a header `hunk`. */
  function AlikeBefore(lines: seq<string>, hunk: string, line: string, n: nat): nat
    requires n <= |lines|
  {
    if n == 0 then 0 else AlikeBefore(lines, hunk, line, n - 1) + if Alike(lines, n - 1, hunk, line) then 1 else 0
  }

  /** The row an identity names, if any: the one that makes up the count. */
  ghost predicate Named(lines: seq<string>, identity: Identity, row: nat) {
    && row < |lines| && Alike(lines, row, identity.hunk, identity.line)
    && AlikeBefore(lines, identity.hunk, identity.line, row + 1) == identity.occurrence
  }

  // ---------------------------------------------------------------- methods

  method DiffRowIdentity(lines: seq<string>, target: nat) returns (identity: Option<Identity>)
    ensures identity == if target < |lines| then Some(IdentityOf(lines, target)) else None
  {
    if target >= |lines| {
      return None;
    }
    var line := lines[target];
    var hunk, occurrence := "", 0;
    for row := 0 to target + 1
      invariant row > 0 ==> hunk == Header(lines, row - 1)
      invariant row > 0 ==> occurrence == Saying(lines, line, HunkStart(lines, row - 1), row)
      invariant row == 0 ==> hunk == "" && occurrence == 0
    {
      if IsHeader(lines[row]) {
        hunk, occurrence := lines[row], 0;
      }
      if lines[row] == line {
        occurrence := occurrence + 1;
      }
    }
    return Some(Identity(hunk, line, occurrence));
  }

  method DiffRowForIdentity(lines: seq<string>, identity: Identity) returns (found: Option<nat>)
    ensures found.Some? ==> Named(lines, identity, found.value)
    ensures found.None? ==> forall row :: !Named(lines, identity, row)
  {
    var hunk, occurrence := "", 0;
    for row := 0 to |lines|
      invariant hunk == if row == 0 then "" else Header(lines, row - 1)
      invariant occurrence == AlikeBefore(lines, identity.hunk, identity.line, row)
      invariant forall k :: 0 <= k < row ==> !Named(lines, identity, k)
    {
      if IsHeader(lines[row]) {
        hunk := lines[row];
      }
      if hunk == identity.hunk && lines[row] == identity.line {
        occurrence := occurrence + 1;
        if occurrence == identity.occurrence {
          return Some(row);
        }
      }
    }
    return None;
  }

  // ----------------------------------------------------------------- lemmas

  lemma {:induction false} AlikeAscends(lines: seq<string>, hunk: string, line: string, lower: nat, upper: nat)
    requires lower <= upper <= |lines|
    ensures AlikeBefore(lines, hunk, line, lower) <= AlikeBefore(lines, hunk, line, upper)
    decreases upper
  {
    if lower < upper {
      AlikeAscends(lines, hunk, line, lower, upper - 1);
    }
  }

  /** No two rows go by one name. */
  lemma {:induction false} NamedOnce(lines: seq<string>, identity: Identity, one: nat, other: nat)
    requires Named(lines, identity, one) && Named(lines, identity, other)
    ensures one == other
  {
    if one < other {
      AlikeAscends(lines, identity.hunk, identity.line, one + 1, other);
    } else if other < one {
      AlikeAscends(lines, identity.hunk, identity.line, other + 1, one);
    }
  }

  /** Every count up to the last is made up by some row. */
  lemma {:induction false} SomeRowIsNamed(lines: seq<string>, identity: Identity, n: nat) returns (row: nat)
    requires n <= |lines| && 0 < identity.occurrence <= AlikeBefore(lines, identity.hunk, identity.line, n)
    ensures row < n && Named(lines, identity, row)
  {
    if identity.occurrence <= AlikeBefore(lines, identity.hunk, identity.line, n - 1) {
      row := SomeRowIsNamed(lines, identity, n - 1);
    } else {
      row := n - 1;
    }
  }

  lemma {:induction false} SameHunk(lines: seq<string>, row: nat, k: nat)
    requires row < |lines| && HunkStart(lines, row) <= k <= row
    ensures HunkStart(lines, k) == HunkStart(lines, row)
    decreases row
  {
  }

  /** In the hunk around a row, what is alike is what says the same. */
  lemma {:induction false} AlikeInTheHunk(lines: seq<string>, row: nat, n: nat)
    requires row < |lines| && HunkStart(lines, row) <= n <= row + 1
    ensures AlikeBefore(lines, Header(lines, row), lines[row], n)
         == AlikeBefore(lines, Header(lines, row), lines[row], HunkStart(lines, row))
            + Saying(lines, lines[row], HunkStart(lines, row), n)
    decreases n
  {
    if HunkStart(lines, row) < n {
      AlikeInTheHunk(lines, row, n - 1);
      SameHunk(lines, row, n - 1);
    }
  }

  lemma {:induction false} NoneAlike(lines: seq<string>, hunk: string, line: string, n: nat)
    requires n <= |lines|
    ensures AlikeBefore(lines, hunk, line, n) == 0 <==> forall k :: 0 <= k < n ==> !Alike(lines, k, hunk, line)
  {
    if n > 0 {
      NoneAlike(lines, hunk, line, n - 1);
    }
  }

  /** A row's own name always names a row at or above it with the same header
      and text; and it names that very row exactly if no earlier hunk with the
      same header says the same. */
  lemma {:induction false} OwnNameNames(lines: seq<string>, row: nat) returns (named: nat)
    requires row < |lines|
    ensures named <= row && Named(lines, IdentityOf(lines, row), named)
    ensures Alike(lines, named, Header(lines, row), lines[row])
    ensures named == row <==>
      forall k :: 0 <= k < HunkStart(lines, row) ==> !Alike(lines, k, Header(lines, row), lines[row])
  {
    var id, start := IdentityOf(lines, row), HunkStart(lines, row);
    AlikeInTheHunk(lines, row, row + 1);
    NoneAlike(lines, id.hunk, id.line, start);
    assert Saying(lines, lines[row], start, row + 1) > 0;
    named := SomeRowIsNamed(lines, id, row + 1);
    if AlikeBefore(lines, id.hunk, id.line, start) == 0 {
      assert Named(lines, id, row);
      NamedOnce(lines, id, named, row);
    }
  }

  /** In particular when the header occurs once. */
  lemma {:induction false} LoneHeaderNamesTheRow(lines: seq<string>, row: nat)
    requires row < |lines|
    requires forall k :: 0 <= k < HunkStart(lines, row) ==> lines[k] != Header(lines, row)
    requires IsHeader(lines[HunkStart(lines, row)])
    ensures forall named :: Named(lines, IdentityOf(lines, row), named) <==> named == row
  {
    forall k | 0 <= k < HunkStart(lines, row) ensures !Alike(lines, k, Header(lines, row), lines[row]) {
      HeaderIsAbove(lines, k);
    }
    var named := OwnNameNames(lines, row);
    forall other | Named(lines, IdentityOf(lines, row), other) ensures other == row {
      NamedOnce(lines, IdentityOf(lines, row), other, named);
    }
  }

  lemma {:induction false} HeaderIsAbove(lines: seq<string>, k: nat)
    requires k < |lines|
    ensures Header(lines, k) != "" ==> exists j :: 0 <= j <= k && lines[j] == Header(lines, k)
  {
  }
}
