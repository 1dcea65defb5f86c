/** Searching inside selections: one pass over the matches and the regions. */
module SearchSweeps {
  import opened Wrappers

  /** A match as the matcher reports it, in bytes of the encoded text. */
  datatype Found = Found(start: nat, end: nat)

  /** A half-open span of characters. */
  datatype Region = Region(from: nat, to: nat)

  /** A selection: its anchor, and its head on the last character selected. */
  datatype Range = Range(anchor: nat, head: nat)

  // -------------------------------------------------------- bytes and chars

  /** How many bytes a character takes in UTF-8. */
  function Width(c: char): (n: nat)
    ensures 1 <= n <= 4
  {
    if c as int < 0x80 then 1 else if c as int < 0x800 then 2 else if c as int < 0x1_0000 then 3 else 4
  }

  function ByteLen(text: string): (n: nat)
    ensures n >= |text|
  {
    if text == [] then 0 else ByteLen(text[..|text| - 1]) + Width(text[|text| - 1])
  }

  /** How many characters start between two byte offsets. */
  function CharCount(text: string, from: nat, to: nat): (n: nat)
    ensures n <= |text|
  {
    if text == [] then 0
    else
      var front := text[..|text| - 1];
      CharCount(front, from, to) + if from <= ByteLen(front) < to then 1 else 0
  }

  predicate Boundary(text: string, byte: nat) {
    exists k :: 0 <= k <= |text| && ByteLen(text[..k]) == byte
  }

  lemma {:induction false} CountsAdd(text: string, from: nat, mid: nat, to: nat)
    requires from <= mid <= to
    ensures CharCount(text, from, to) == CharCount(text, from, mid) + CharCount(text, mid, to)
  {
    if text != [] {
      CountsAdd(text[..|text| - 1], from, mid, to);
    }
  }

  lemma {:induction false} PrefixIsShorter(text: string, k: nat)
    requires k <= |text|
    ensures ByteLen(text[..k]) <= ByteLen(text) && (k < |text| ==> ByteLen(text[..k]) < ByteLen(text))
  {
    if k < |text| {
      PrefixIsShorter(text[..|text| - 1], k);
      assert text[..|text| - 1][..k] == text[..k];
    } else {
      assert text[..k] == text;
    }
  }

  /** Counting the prefix tells which character a byte offset stands before. */
  lemma {:induction false} PrefixCountsChars(text: string, k: nat)
    requires k <= |text|
    ensures CharCount(text, 0, ByteLen(text[..k])) == k
  {
    if text != [] {
      var front := text[..|text| - 1];
      if k < |text| {
        assert front[..k] == text[..k];
        PrefixCountsChars(front, k);
        PrefixIsShorter(front, k);
      } else {
        assert text[..k] == text;
        AllCounted(front, ByteLen(text));
      }
    }
  }

  lemma {:induction false} AllCounted(text: string, to: nat)
    requires ByteLen(text) <= to
    ensures CharCount(text, 0, to) == |text|
  {
    if text != [] {
      AllCounted(text[..|text| - 1], to);
    }
  }

  // -------------------------------------------------- what is to be found

  /** Each match starts where the one before it ends, or later, and all of them
      lie between characters. */
  predicate InOrder(text: string, found: seq<Found>) {
    && (forall k :: 0 <= k < |found| ==> found[k].start <= found[k].end)
    && (forall k :: 0 <= k < |found| ==> Boundary(text, found[k].start) && Boundary(text, found[k].end))
    && (forall k, l :: 0 <= k < l < |found| ==> found[k].end <= found[l].start)
  }

  /** Some one region contains the match. */
  predicate Contained(start: nat, end: nat, regions: seq<Region>) {
    exists i :: 0 <= i < |regions| && regions[i].from <= start && end <= regions[i].to
  }

  function RangeOf(start: nat, end: nat): Range
    requires start <= end
  {
    if end == start then Range(start, start) else Range(start, end - 1)
  }

  lemma {:induction false} CountAscends(text: string, one: nat, other: nat)
    requires one <= other
    ensures CharCount(text, 0, one) <= CharCount(text, 0, other)
  {
    CountsAdd(text, 0, one, other);
  }

  /** The matches each region is asked about, every prefix counted anew. */
  function Kept(text: string, found: seq<Found>, regions: Option<seq<Region>>): seq<Range>
    requires forall k :: 0 <= k < |found| ==> found[k].start <= found[k].end
  {
    if found == [] then []
    else
      var last := found[|found| - 1];
      var start, end := CharCount(text, 0, last.start), CharCount(text, 0, last.end);
      CountAscends(text, last.start, last.end);
      Kept(text, found[..|found| - 1], regions) +
      if regions.None? || Contained(start, end, regions.value) then [RangeOf(start, end)] else []
  }

  lemma {:induction false} KeptAreCounted(text: string, found: seq<Found>, regions: seq<Region>, range: Range)
    requires forall k :: 0 <= k < |found| ==> found[k].start <= found[k].end
    ensures range in Kept(text, found, Some(regions)) <==>
      exists k :: 0 <= k < |found|
        && Contained(CharCount(text, 0, found[k].start), CharCount(text, 0, found[k].end), regions)
        && CharCount(text, 0, found[k].start) <= CharCount(text, 0, found[k].end)
        && range == RangeOf(CharCount(text, 0, found[k].start), CharCount(text, 0, found[k].end))
  {
    hide Contained, CharCount;
    if found != [] {
      var front := found[..|found| - 1];
      KeptAreCounted(text, front, regions, range);
      CountAscends(text, found[|found| - 1].start, found[|found| - 1].end);
    }
  }

  /** The characters a match covers. */
  predicate Covers(text: string, m: Found, from: nat, to: nat) {
    from <= to <= |text| && ByteLen(text[..from]) == m.start && ByteLen(text[..to]) == m.end
  }

  lemma {:induction false} CoveredCharacters(text: string, m: Found) returns (from: nat, to: nat)
    requires m.start <= m.end && Boundary(text, m.start) && Boundary(text, m.end)
    ensures Covers(text, m, from, to)
    ensures from == CharCount(text, 0, m.start) && to == CharCount(text, 0, m.end)
  {
    from :| 0 <= from <= |text| && ByteLen(text[..from]) == m.start;
    to :| 0 <= to <= |text| && ByteLen(text[..to]) == m.end;
    PrefixCountsChars(text, from);
    PrefixCountsChars(text, to);
    CountAscends(text, m.start, m.end);
  }

  /** A range is kept exactly when it is the characters of a match that some one
      region contains. */
  lemma {:induction false} KeptAreContained(text: string, found: seq<Found>, regions: seq<Region>, range: Range)
    requires InOrder(text, found)
    ensures range in Kept(text, found, Some(regions)) <==>
      exists k, from, to :: 0 <= k < |found| && Covers(text, found[k], from, to) && Contained(from, to, regions)
                            && range == RangeOf(from, to)
  {
    KeptAreCounted(text, found, regions, range);
    hide Kept, CharCount, ByteLen, Contained;
    if range in Kept(text, found, Some(regions)) {
      var k :| 0 <= k < |found|
        && Contained(CharCount(text, 0, found[k].start), CharCount(text, 0, found[k].end), regions)
        && CharCount(text, 0, found[k].start) <= CharCount(text, 0, found[k].end)
        && range == RangeOf(CharCount(text, 0, found[k].start), CharCount(text, 0, found[k].end));
      var from, to := CoveredCharacters(text, found[k]);
      assert Covers(text, found[k], from, to);
    }
    if k, from, to :| 0 <= k < |found| && Covers(text, found[k], from, to) && Contained(from, to, regions)
                      && range == RangeOf(from, to) {
      PrefixCountsChars(text, from);
      PrefixCountsChars(text, to);
      assert from == CharCount(text, 0, found[k].start) && to == CharCount(text, 0, found[k].end);
    }
  }

  // ---------------------------------------------------------------- sorting

  predicate Before(a: Region, b: Region) {
    a.from < b.from || (a.from == b.from && a.to <= b.to)
  }

  predicate Sorted(regions: seq<Region>) {
    forall i, j :: 0 <= i < j < |regions| ==> Before(regions[i], regions[j])
  }

  predicate SameRegions(a: seq<Region>, b: seq<Region>) {
    multiset(a) == multiset(b)
  }

  method SortRegions(regions: seq<Region>) returns (sorted: seq<Region>)
    ensures Sorted(sorted) && SameRegions(sorted, regions)
  {
    sorted := [];
    for i := 0 to |regions|
      invariant Sorted(sorted) && SameRegions(sorted, regions[..i])
    {
      assert regions[..i + 1] == regions[..i] + [regions[i]];
      sorted := Insert(sorted, regions[i]);
    }
    assert regions[..|regions|] == regions;
  }

  method Insert(sorted: seq<Region>, region: Region) returns (r: seq<Region>)
    requires Sorted(sorted)
    ensures Sorted(r) && SameRegions(r, sorted + [region])
  {
    var at := 0;
    while at < |sorted| && Before(sorted[at], region)
      invariant at <= |sorted|
      invariant forall k :: 0 <= k < at ==> Before(sorted[k], region)
    {
      at := at + 1;
    }
    InsertedIsSorted(sorted, region, at);
    InsertedIsAllOfThem(sorted, region, at);
    r := sorted[..at] + [region] + sorted[at..];
  }

  lemma {:induction false} InsertedIsSorted(sorted: seq<Region>, region: Region, at: nat)
    requires Sorted(sorted) && at <= |sorted| && (forall k :: 0 <= k < at ==> Before(sorted[k], region))
    requires at < |sorted| ==> !Before(sorted[at], region)
    ensures Sorted(sorted[..at] + [region] + sorted[at..])
  {
    var r := sorted[..at] + [region] + sorted[at..];
    forall i, j | 0 <= i < j < |r| ensures Before(r[i], r[j]) {
      var left, right := if i <= at then i else i - 1, if j <= at then j else j - 1;
      if i != at && j != at {
        assert r[i] == sorted[left] && r[j] == sorted[right] && left < right;
      } else if i == at {
        assert r[j] == sorted[j - 1] && (j - 1 == at || Before(sorted[at], sorted[j - 1]));
      }
    }
  }

  lemma {:induction false} InsertedIsAllOfThem(sorted: seq<Region>, region: Region, at: nat)
    requires at <= |sorted|
    ensures SameRegions(sorted[..at] + [region] + sorted[at..], sorted + [region])
  {
    assert sorted == sorted[..at] + sorted[at..];
    assert multiset(sorted) == multiset(sorted[..at]) + multiset(sorted[at..]);
  }

  lemma {:induction false} SameRegionsContain(a: seq<Region>, b: seq<Region>, start: nat, end: nat)
    requires SameRegions(a, b)
    ensures Contained(start, end, a) <==> Contained(start, end, b)
  {
    if Contained(start, end, a) {
      ContainedThere(a, b, start, end);
    }
    if Contained(start, end, b) {
      ContainedThere(b, a, start, end);
    }
  }

  lemma {:induction false} ContainedThere(a: seq<Region>, b: seq<Region>, start: nat, end: nat)
    requires SameRegions(a, b) && Contained(start, end, a)
    ensures Contained(start, end, b)
  {
    var i :| 0 <= i < |a| && a[i].from <= start && end <= a[i].to;
    assert a[i] in multiset(b);
    var j :| 0 <= j < |b| && b[j] == a[i];
  }

  // -------------------------------------------------------------- the sweep

  /** How far the regions passed so far reach, each on its own. */
  ghost predicate Reach(regions: seq<Region>, passed: nat, until: Option<nat>)
    requires passed <= |regions|
  {
    && (forall i :: 0 <= i < passed ==> until.Some? && regions[i].to <= until.value)
    && (until.Some? ==> exists i :: 0 <= i < passed && regions[i].to == until.value)
  }

  /** Once every region that starts by a match is passed, one of them contains
      it exactly when the farthest does. */
  lemma {:induction false} FarthestContains(regions: seq<Region>, passed: nat, until: Option<nat>, start: nat, end: nat)
    requires passed <= |regions| && Reach(regions, passed, until)
    requires forall i :: 0 <= i < passed ==> regions[i].from <= start
    requires forall i :: passed <= i < |regions| ==> start < regions[i].from
    ensures Contained(start, end, regions) <==> until.Some? && end <= until.value
  {
  }

  method TextMatches(text: string, found: seq<Found>, region: Option<seq<Region>>) returns (ranges: seq<Range>)
    requires InOrder(text, found)
    ensures ranges == Kept(text, found, region)
  {
    ranges := [];
    NothingKept(text, found, region);
    NothingReached();
    hide CharCount, Contained, Reach, Boundary, KeptOf, Kept, SameRegions;
    var regions: seq<Region> := [];
    if region.Some? {
      regions := SortRegions(region.value);
    }
    var passed: nat, until: Option<nat> := 0, None;
    var byteCursor: nat, charCursor: nat := 0, 0;
    NothingCounted(text);
    for i := 0 to |found|
      invariant passed <= |regions| && Reach(regions, passed, until)
      invariant charCursor == CharCount(text, 0, byteCursor)
      invariant forall k :: 0 <= k < passed ==> regions[k].from <= charCursor
      invariant i < |found| ==> byteCursor <= found[i].start
      invariant ranges == KeptOf(text, found, region, i)
    {
      var end;
      charCursor, end := CountOn(text, byteCursor, charCursor, found[i]);
      byteCursor := found[i].start;
      var start := charCursor;
      KeptOneMore(text, found, region, i);
      if region.Some? {
        passed, until := PassRegions(regions, passed, until, start);
        FarthestContains(regions, passed, until, start, end);
        SameRegionsContain(regions, region.value, start, end);
        if until.None? || end > until.value {
          continue;
        }
      }
      ranges := ranges + [if end == start then Range(start, start) else Range(start, end - 1)];
    }
    AllKept(text, found, region);
  }

  ghost function KeptOf(text: string, found: seq<Found>, region: Option<seq<Region>>, n: nat): seq<Range>
    requires n <= |found| && InOrder(text, found)
  {
    Kept(text, found[..n], region)
  }

  lemma {:induction false} NothingKept(text: string, found: seq<Found>, region: Option<seq<Region>>)
    requires InOrder(text, found)
    ensures KeptOf(text, found, region, 0) == []
  {
  }

  lemma {:induction false} NothingReached()
    ensures forall regions: seq<Region> :: Reach(regions, 0, None)
  {
  }

  lemma {:induction false} AllKept(text: string, found: seq<Found>, region: Option<seq<Region>>)
    requires InOrder(text, found)
    ensures KeptOf(text, found, region, |found|) == Kept(text, found, region)
  {
    assert found[..|found|] == found;
  }

  lemma {:induction false} KeptOneMore(text: string, found: seq<Found>, region: Option<seq<Region>>, i: nat)
    requires InOrder(text, found) && i < |found|
    ensures CharCount(text, 0, found[i].start) <= CharCount(text, 0, found[i].end)
    ensures KeptOf(text, found, region, i + 1) == KeptOf(text, found, region, i) +
      if region.None? || Contained(CharCount(text, 0, found[i].start), CharCount(text, 0, found[i].end), region.value)
      then [RangeOf(CharCount(text, 0, found[i].start), CharCount(text, 0, found[i].end))] else []
  {
    hide Contained, Boundary, CharCount;
    assert found[..i + 1][..i] == found[..i];
    CountAscends(text, found[i].start, found[i].end);
  }

  /** Counts on from the cursor to where a match starts and ends. */
  method CountOn(text: string, byteCursor: nat, charCursor: nat, m: Found) returns (start: nat, end: nat)
    requires byteCursor <= m.start <= m.end && charCursor == CharCount(text, 0, byteCursor)
    ensures start == CharCount(text, 0, m.start) && end == CharCount(text, 0, m.end)
    ensures charCursor <= start <= end
  {
    hide CharCount;
    CountsAdd(text, 0, byteCursor, m.start);
    CountsAdd(text, 0, m.start, m.end);
    start := charCursor + CharCount(text, byteCursor, m.start);
    end := start + CharCount(text, m.start, m.end);
  }

  /** Passes every further region that starts by `start`. */
  method PassRegions(regions: seq<Region>, passed: nat, until: Option<nat>, start: nat)
      returns (passed': nat, until': Option<nat>)
    requires Sorted(regions) && passed <= |regions| && Reach(regions, passed, until)
    requires forall k :: 0 <= k < passed ==> regions[k].from <= start
    ensures passed' <= |regions| && Reach(regions, passed', until')
    ensures forall k :: 0 <= k < passed' ==> regions[k].from <= start
    ensures forall k :: passed' <= k < |regions| ==> start < regions[k].from
  {
    passed', until' := passed, until;
    while passed' < |regions| && regions[passed'].from <= start
      invariant passed' <= |regions| && Reach(regions, passed', until')
      invariant forall k :: 0 <= k < passed' ==> regions[k].from <= start
    {
      var to := regions[passed'].to;
      until' := if until'.None? || until'.value < to then Some(to) else until';
      passed' := passed' + 1;
    }
  }

  lemma {:induction false} NothingCounted(text: string)
    ensures CharCount(text, 0, 0) == 0
  {
    if text != [] {
      NothingCounted(text[..|text| - 1]);
    }
  }
}
