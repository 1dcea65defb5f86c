/** The cache of directory listings: what is kept, and when it is used again. */
module Listings {
  import opened Wrappers

  /** How long a directory must have been left alone to vouch for itself, and
      how long a listing is used without that, in nanoseconds. */
  const SETTLED := 2_000_000_000
  const VOLATILE := SETTLED

  const DIRECTORIES := 4
  const ENTRIES := 250_000

  datatype Entry = Entry(name: string, isDirectory: bool)

  /** An entry as the directory holds it; its name may be unprintable. */
  datatype Raw = Plain(name: Option<string>, isDirectory: bool) | Link(name: Option<string>)

  /** The names of links that lead to directories, each with its directory. */
  type Leads = set<(string, string)>

  datatype Cached = Cached(
    directory: string,
    identity: Option<nat>,
    modified: Option<int>,
    settled: bool,
    readAt: int,
    symlinks: seq<nat>,
    entries: seq<Entry>)

  /** What the system tells about a directory, as far as it does. */
  datatype Metadata = Metadata(identity: Option<nat>, modified: Option<int>)

  // ----------------------------------------------------------- one listing

  function EntryOf(raw: Raw, directory: string, leads: Leads): Entry
    requires raw.name.Some?
  {
    Entry(raw.name.value, if raw.Link? then (directory, raw.name.value) in leads else raw.isDirectory)
  }

  /** What a directory offers: the entries that have a name. */
  function Listing(raw: seq<Raw>, directory: string, leads: Leads): (entries: seq<Entry>)
    ensures |entries| <= |raw|
  {
    if raw == [] then []
    else
      var last := raw[|raw| - 1];
      Listing(raw[..|raw| - 1], directory, leads) + if last.name.Some? then [EntryOf(last, directory, leads)] else []
  }

  /** Which of them are links. */
  function Links(raw: seq<Raw>): (positions: seq<nat>)
  {
    if raw == [] then []
    else
      var last, front := raw[|raw| - 1], raw[..|raw| - 1];
      Links(front) + if last.Link? && last.name.Some? then [|Listing(front, "", {})|] else []
  }

  function Asked(entry: Entry, directory: string, leads: Leads): Entry {
    entry.(isDirectory := (directory, entry.name) in leads)
  }

  /** The same entries with every link asked again. */
  function Refreshed(entries: seq<Entry>, symlinks: seq<nat>, directory: string, leads: Leads): (r: seq<Entry>)
    ensures |r| == |entries|
  {
    seq(|entries|, i requires 0 <= i < |entries| =>
      if i in symlinks then Asked(entries[i], directory, leads) else entries[i])
  }

  lemma {:induction false} ListingsAreAsLong(raw: seq<Raw>, directory: string, leads: Leads)
    ensures |Listing(raw, directory, leads)| == |Listing(raw, "", {})|
    ensures forall i :: 0 <= i < |Links(raw)| ==> Links(raw)[i] < |Listing(raw, "", {})|
  {
    if raw != [] {
      ListingsAreAsLong(raw[..|raw| - 1], directory, leads);
    }
  }

  /** Every entry with a name is listed, in order, under that name, as what it is
      or, for a link, where it leads; and nothing else is. */
  lemma {:induction false} NamedEntriesAreListed(raw: seq<Raw>, directory: string, leads: Leads, i: nat)
    requires i < |raw|
    ensures var k, listing := |Listing(raw[..i], directory, leads)|, Listing(raw, directory, leads);
            if raw[i].name.None? then |Listing(raw[..i + 1], directory, leads)| == k
            else
              && |Listing(raw[..i + 1], directory, leads)| == k + 1 <= |listing|
              && listing[k] == Entry(raw[i].name.value, if raw[i].Link? then (directory, raw[i].name.value) in leads
                                                        else raw[i].isDirectory)
              && (k in Links(raw) <==> raw[i].Link?)
  {
    var n := |raw| - 1;
    if i < n {
      NamedEntriesAreListed(raw[..n], directory, leads, i);
      assert raw[..n][..i] == raw[..i] && raw[..n][..i + 1] == raw[..i + 1];
      LaterEntriesLeaveIt(raw, directory, leads);
    } else {
      assert raw[..n + 1] == raw;
      ListingsAreAsLong(raw[..n], directory, leads);
    }
  }

  lemma {:induction false} LaterEntriesLeaveIt(raw: seq<Raw>, directory: string, leads: Leads)
    requires raw != []
    ensures var n := |raw| - 1;
            && Listing(raw[..n], directory, leads) <= Listing(raw, directory, leads)
            && forall k :: 0 <= k < |Listing(raw[..n], directory, leads)| ==>
                 (k in Links(raw) <==> k in Links(raw[..n]))
  {
    ListingsAreAsLong(raw[..|raw| - 1], directory, leads);
  }

  /** Asking only the links again brings a listing up to date with where they
      lead now. */
  lemma {:induction false} RefreshingReadsAgain(raw: seq<Raw>, directory: string, before: Leads, now: Leads)
    ensures Refreshed(Listing(raw, directory, before), Links(raw), directory, now) == Listing(raw, directory, now)
  {
    if raw != [] {
      var front, last := raw[..|raw| - 1], raw[|raw| - 1];
      RefreshingReadsAgain(front, directory, before, now);
      ListingsAreAsLong(front, directory, before);
      var was, links := Listing(front, directory, before), Links(front);
      var added := if last.name.Some? then [EntryOf(last, directory, before)] else [];
      var more := if last.Link? && last.name.Some? then [|was|] else [];
      assert |Listing(front, "", {})| == |was|;
      RefreshInParts(was, links, added, more, directory, now);
    }
  }

  lemma {:induction false} RefreshInParts(was: seq<Entry>, links: seq<nat>, added: seq<Entry>, more: seq<nat>,
                                          directory: string, leads: Leads)
    requires |added| <= 1 && (more == [] || (more == [|was|] && |added| == 1))
    requires forall i :: 0 <= i < |links| ==> links[i] < |was|
    ensures Refreshed(was + added, links + more, directory, leads)
         == Refreshed(was, links, directory, leads)
            + if more == [] then added else [Asked(added[0], directory, leads)]
  {
    forall i | 0 <= i < |was| ensures i in links + more <==> i in links {
    }
    if |added| == 1 {
      assert |was| in links + more <==> more != [];
    }
  }

  // ------------------------------------------------------------- the cache

  /** Where a directory is kept, if it is. */
  function Find(cached: seq<Cached>, directory: string): (index: nat)
    ensures index <= |cached|
    ensures index < |cached| ==> cached[index].directory == directory
    ensures forall i :: 0 <= i < index ==> cached[i].directory != directory
  {
    if cached == [] then 0
    else if cached[0].directory == directory then 0
    else
      var rest := Find(cached[1..], directory);
      assert forall i :: 0 < i < rest + 1 ==> cached[i] == cached[1..][i - 1];
      rest + 1
  }

  /** A kept listing may be used: nothing says it changed, and its time vouches
      for it or it is recent. */
  predicate Usable(c: Cached, meta: Metadata, now: int) {
    && c.modified == meta.modified && c.identity == meta.identity
    && (c.settled || 0 <= now - c.readAt < VOLATILE)
  }

  predicate VouchedFor(meta: Metadata, now: int) {
    meta.identity.Some? && meta.modified.Some? && now - meta.modified.value >= SETTLED
  }

  function Without(cached: seq<Cached>, index: nat): (rest: seq<Cached>)
    requires index <= |cached|
    ensures |rest| == if index < |cached| then |cached| - 1 else |cached|
    ensures forall c :: c in rest ==> c in cached
  {
    if index == |cached| then cached else cached[..index] + cached[index + 1..]
  }

  function Total(cached: seq<Cached>): nat {
    if cached == [] then 0 else |cached[0].entries| + Total(cached[1..])
  }

  predicate TooMuch(cached: seq<Cached>) {
    |cached| > DIRECTORIES || (|cached| > 1 && Total(cached) > ENTRIES)
  }

  /** How many of the oldest listings have to go, `n` of which have gone. */
  function Surplus(cached: seq<Cached>, n: nat): (k: nat)
    requires n <= |cached|
    ensures n <= k <= |cached| && !TooMuch(cached[k..])
    ensures forall j :: n <= j < k ==> TooMuch(cached[j..])
    decreases |cached| - n
  {
    if n < |cached| && TooMuch(cached[n..]) then Surplus(cached, n + 1) else n
  }

  function Evicted(cached: seq<Cached>): seq<Cached> {
    cached[Surplus(cached, 0)..]
  }

  /** Eviction keeps the most recent listings, as many as the bounds allow, and
      the last one whatever its size. */
  lemma {:induction false} EvictingKeepsTheLatest(cached: seq<Cached>)
    ensures !TooMuch(Evicted(cached))
    ensures forall j :: 0 <= j < Surplus(cached, 0) ==> TooMuch(cached[j..])
    ensures cached != [] ==> Evicted(cached) != [] && Evicted(cached)[|Evicted(cached)| - 1] == cached[|cached| - 1]
  {
    if cached != [] {
      assert !TooMuch(cached[|cached| - 1..]);
    }
  }

  /** What one question to the cache is answered from. */
  datatype Question = Question(
    directory: Option<string>,
    meta: Metadata,
    now: int,
    raw: Option<seq<Raw>>,
    leads: Leads)

  /** The kept listing that answers a question, if one does. */
  function HitFor(cached: seq<Cached>, q: Question): Option<Cached> {
    if q.directory.None? then None
    else
      var index := Find(cached, q.directory.value);
      if index < |cached| && Usable(cached[index], q.meta, q.now) then Some(cached[index]) else None
  }

  function Renewed(c: Cached, leads: Leads): Cached {
    c.(entries := Refreshed(c.entries, c.symlinks, c.directory, leads))
  }

  function ReadNow(q: Question): Cached
    requires q.directory.Some? && q.raw.Some?
  {
    Cached(q.directory.value, q.meta.identity, q.meta.modified, VouchedFor(q.meta, q.now), q.now, Links(q.raw.value),
           Listing(q.raw.value, q.directory.value, q.leads))
  }

  function AnswerTo(cached: seq<Cached>, q: Question): Option<seq<Entry>> {
    if q.directory.None? then None
    else if HitFor(cached, q).Some? then Some(Renewed(HitFor(cached, q).value, q.leads).entries)
    else if q.raw.None? then None
    else Some(ReadNow(q).entries)
  }

  function CacheAfter(cached: seq<Cached>, q: Question): seq<Cached> {
    if q.directory.None? then cached
    else
      var rest := Without(cached, Find(cached, q.directory.value));
      if HitFor(cached, q).Some? then rest + [Renewed(HitFor(cached, q).value, q.leads)]
      else if q.raw.None? then rest
      else Evicted(rest + [ReadNow(q)])
  }

  // ---------------------------------------------------------- what is kept

  predicate OneEach(cached: seq<Cached>) {
    forall i, j :: 0 <= i < j < |cached| ==> cached[i].directory != cached[j].directory
  }

  lemma {:induction false} TotalSplits(front: seq<Cached>, back: seq<Cached>)
    ensures Total(front + back) == Total(front) + Total(back)
  {
    if front == [] {
      assert front + back == back;
    } else {
      assert (front + back)[1..] == front[1..] + back;
      TotalSplits(front[1..], back);
    }
  }

  lemma {:induction false} FoundOnce(cached: seq<Cached>, directory: string)
    requires OneEach(cached)
    ensures OneEach(Without(cached, Find(cached, directory)))
    ensures forall c :: c in Without(cached, Find(cached, directory)) ==> c.directory != directory
  {
    var at := Find(cached, directory);
    if at < |cached| {
      forall c | c in Without(cached, at) ensures c.directory != directory {
        var i :| 0 <= i < |cached| && i != at && cached[i] == c;
      }
    }
  }

  /** Moving a kept listing to the end leaves the cache as large as it was. */
  lemma {:induction false} UsingKeepsTheSize(cached: seq<Cached>, q: Question)
    requires HitFor(cached, q).Some?
    ensures |CacheAfter(cached, q)| == |cached| && Total(CacheAfter(cached, q)) == Total(cached)
  {
    var at := Find(cached, q.directory.value);
    var c := Renewed(cached[at], q.leads);
    TotalSplits(cached[..at], cached[at..]);
    assert cached == cached[..at] + cached[at..];
    TotalSplits(cached[..at], cached[at + 1..]);
    TotalSplits(Without(cached, at), [c]);
    assert Total([c]) == |cached[at].entries|;
  }

  /** Leaving one listing out makes the cache no larger. */
  lemma {:induction false} LeavingOutIsNotTooMuch(cached: seq<Cached>, at: nat)
    requires !TooMuch(cached) && at <= |cached|
    ensures !TooMuch(Without(cached, at))
  {
    if at < |cached| {
      TotalSplits(cached[..at], cached[at..]);
      assert cached == cached[..at] + cached[at..];
      TotalSplits(cached[..at], cached[at + 1..]);
    }
  }

  lemma {:induction false} OneMoreDirectory(rest: seq<Cached>, c: Cached, n: nat)
    requires OneEach(rest) && (forall other :: other in rest ==> other.directory != c.directory)
    requires n <= |rest| + 1
    ensures OneEach((rest + [c])[n..])
  {
    var all := rest + [c];
    forall i, j | n <= i < j < |all| ensures all[i].directory != all[j].directory {
      if j == |rest| {
        assert all[i] in rest;
      }
    }
  }

  /** Whatever is asked, one listing a directory is kept, within the bounds. */
  lemma {:induction false} CacheStaysBounded(cached: seq<Cached>, q: Question)
    requires OneEach(cached) && !TooMuch(cached)
    ensures OneEach(CacheAfter(cached, q)) && !TooMuch(CacheAfter(cached, q))
  {
    hide TooMuch, Total, OneEach, Without, Usable, Renewed, ReadNow, Find;
    if q.directory.Some? {
      var at := Find(cached, q.directory.value);
      var rest := Without(cached, at);
      FoundOnce(cached, q.directory.value);
      LeavingOutIsNotTooMuch(cached, at);
      var hit := HitFor(cached, q);
      if hit.Some? {
        var c := Renewed(hit.value, q.leads);
        KeepsItsDirectory(hit.value, q);
        UsingKeepsTheSize(cached, q);
        SameSizeIsNotTooMuch(cached, CacheAfter(cached, q));
        OneMoreDirectory(rest, c, 0);
        assert (rest + [c])[0..] == rest + [c];
      } else if q.raw.Some? {
        var all := rest + [ReadNow(q)];
        KeepsItsDirectory(ReadNow(q), q);
        EvictingKeepsTheLatest(all);
        OneMoreDirectory(rest, ReadNow(q), Surplus(all, 0));
      }
    }
  }

  lemma {:induction false} KeepsItsDirectory(c: Cached, q: Question)
    ensures Renewed(c, q.leads).directory == c.directory
    ensures q.directory.Some? && q.raw.Some? ==> ReadNow(q).directory == q.directory.value
  {
  }

  lemma {:induction false} SameSizeIsNotTooMuch(cached: seq<Cached>, other: seq<Cached>)
    requires !TooMuch(cached) && |cached| == |other| && Total(cached) == Total(other)
    ensures !TooMuch(other)
  {
  }

  /** Whoever was answered last is kept, and last in line to go. */
  lemma {:induction false} AnswerIsKeptLast(cached: seq<Cached>, q: Question)
    requires AnswerTo(cached, q).Some?
    ensures CacheAfter(cached, q) != []
    ensures CacheAfter(cached, q)[|CacheAfter(cached, q)| - 1].directory == q.directory.value
    ensures CacheAfter(cached, q)[|CacheAfter(cached, q)| - 1].entries == AnswerTo(cached, q).value
  {
    if HitFor(cached, q).None? {
      EvictingKeepsTheLatest(Without(cached, Find(cached, q.directory.value)) + [ReadNow(q)]);
    }
  }

  lemma {:induction false} LastIsFound(cached: seq<Cached>, directory: string)
    requires OneEach(cached) && cached != [] && cached[|cached| - 1].directory == directory
    ensures Find(cached, directory) == |cached| - 1
  {
  }

  /** Whoever was answered is answered from what is kept, without reading, exactly
      as long as that may be used. */
  lemma {:induction false} AnswersAreUsedAgain(cached: seq<Cached>, q: Question, later: Question)
    requires OneEach(cached) && !TooMuch(cached) && AnswerTo(cached, q).Some? && later.directory == q.directory
    ensures var after := CacheAfter(cached, q);
            && after != []
            && var kept := after[|after| - 1];
               HitFor(after, later) == if Usable(kept, later.meta, later.now) then Some(kept) else None
  {
    hide TooMuch, Usable, CacheAfter, OneEach, Find;
    AnswerIsKeptLast(cached, q);
    CacheStaysBounded(cached, q);
    LastIsFound(CacheAfter(cached, q), q.directory.value);
  }

  lemma {:induction false} ReadingIsKeptLast(cached: seq<Cached>, q: Question)
    requires AnswerTo(cached, q).Some? && HitFor(cached, q).None?
    ensures CacheAfter(cached, q) != [] && CacheAfter(cached, q)[|CacheAfter(cached, q)| - 1] == ReadNow(q)
  {
    hide HitFor, ReadNow, Without, Evicted, TooMuch;
    EvictingKeepsTheLatest(Without(cached, Find(cached, q.directory.value)) + [ReadNow(q)]);
  }

  /** A directory that has just been read is read again only once the system tells
      something else about it, or, if its time did not vouch for it, once the
      reading is VOLATILE old or the clock has run backwards. */
  lemma {:induction false} ReadingIsUsedWhileItHolds(cached: seq<Cached>, q: Question, later: Question)
    requires OneEach(cached) && !TooMuch(cached) && AnswerTo(cached, q).Some? && HitFor(cached, q).None?
    requires later.directory == q.directory
    ensures HitFor(CacheAfter(cached, q), later).Some?
       <==> && later.meta.modified == q.meta.modified && later.meta.identity == q.meta.identity
            && (VouchedFor(q.meta, q.now) || 0 <= later.now - q.now < VOLATILE)
  {
    hide TooMuch, OneEach, HitFor, CacheAfter, AnswerTo, VouchedFor;
    AnswersAreUsedAgain(cached, q, later);
    ReadingIsKeptLast(cached, q);
    AnswerIsRead(cached, q);
  }

  lemma {:induction false} AnswerIsRead(cached: seq<Cached>, q: Question)
    requires AnswerTo(cached, q).Some? && HitFor(cached, q).None?
    ensures q.directory.Some? && q.raw.Some?
  {
  }

  /** Nothing is kept of a directory that failed to be read. */
  lemma {:induction false} UnreadIsForgotten(cached: seq<Cached>, q: Question)
    requires OneEach(cached) && q.directory.Some? && AnswerTo(cached, q).None?
    ensures forall c :: c in CacheAfter(cached, q) ==> c.directory != q.directory.value && c in cached
    ensures forall c :: c in cached && c.directory != q.directory.value ==> c in CacheAfter(cached, q)
  {
    var at := Find(cached, q.directory.value);
    FoundOnce(cached, q.directory.value);
    forall c | c in cached && c.directory != q.directory.value ensures c in Without(cached, at) {
      var i :| 0 <= i < |cached| && cached[i] == c;
      if at < |cached| {
        assert i < at ==> Without(cached, at)[i] == c;
        assert i > at ==> Without(cached, at)[i - 1] == c;
      }
    }
  }

  // -------------------------------------------------------------- the object

  method ReadEntries(raw: seq<Raw>, directory: string, leads: Leads) returns (entries: seq<Entry>, symlinks: seq<nat>)
    ensures entries == Listing(raw, directory, leads) && symlinks == Links(raw)
  {
    entries, symlinks := [], [];
    for i := 0 to |raw|
      invariant entries == Listing(raw[..i], directory, leads) && symlinks == Links(raw[..i])
    {
      assert raw[..i + 1][..i] == raw[..i];
      ListingsAreAsLong(raw[..i], directory, leads);
      if raw[i].name.None? {
        continue;
      }
      if raw[i].Link? {
        symlinks := symlinks + [|entries|];
      }
      entries := entries + [EntryOf(raw[i], directory, leads)];
    }
    assert raw[..|raw|] == raw;
  }

  /** Asks each link again, and replaces the listing only if one says something
      else now. */
  method RefreshSymlinks(c: Cached, leads: Leads) returns (r: Cached)
    ensures r == Renewed(c, leads)
  {
    var changed: seq<nat> := [];
    for k := 0 to |c.symlinks|
      invariant forall i :: i in changed <==>
        i in c.symlinks[..k] && i < |c.entries| && Asked(c.entries[i], c.directory, leads) != c.entries[i]
    {
      assert c.symlinks[..k + 1] == c.symlinks[..k] + [c.symlinks[k]];
      var index := c.symlinks[k];
      if index < |c.entries| && ((c.directory, c.entries[index].name) in leads) != c.entries[index].isDirectory {
        changed := changed + [index];
      }
    }
    assert c.symlinks[..|c.symlinks|] == c.symlinks;
    if changed == [] {
      assert Refreshed(c.entries, c.symlinks, c.directory, leads) == c.entries;
      return c;
    }
    var entries := c.entries;
    for k := 0 to |changed|
      invariant |entries| == |c.entries|
      invariant forall i :: 0 <= i < |entries| ==>
        entries[i] == if i in changed[..k] then Asked(c.entries[i], c.directory, leads) else c.entries[i]
    {
      assert changed[..k + 1] == changed[..k] + [changed[k]] && changed[k] in changed;
      entries := entries[changed[k] := Asked(c.entries[changed[k]], c.directory, leads)];
    }
    assert changed[..|changed|] == changed;
    r := c.(entries := entries);
    assert entries == Refreshed(c.entries, c.symlinks, c.directory, leads);
  }

  method Evict(cached: seq<Cached>) returns (r: seq<Cached>)
    ensures r == Evicted(cached)
  {
    hide TooMuch;
    r := cached;
    ghost var k := 0;
    while TooMuch(r)
      invariant k <= |cached| && r == cached[k..] && Surplus(cached, k) == Surplus(cached, 0)
      decreases |r|
    {
      NothingIsNotTooMuch(r);
      assert cached[k..][1..] == cached[k + 1..];
      r := r[1..];
      k := k + 1;
    }
  }

  lemma {:induction false} NothingIsNotTooMuch(cached: seq<Cached>)
    requires TooMuch(cached)
    ensures cached != []
  {
  }

  class DirectoryListings {
    var cached: seq<Cached>

    ghost predicate Valid()
      reads this
    {
      OneEach(cached) && !TooMuch(cached)
    }

    constructor ()
      ensures Valid() && cached == []
    {
      cached := [];
    }

    /** The entries of a directory, read only when no kept listing will do. */
    method ReadAt(q: Question) returns (answer: Option<seq<Entry>>)
      requires Valid()
      modifies this
      ensures Valid()
      ensures answer == AnswerTo(old(cached), q) && cached == CacheAfter(old(cached), q)
    {
      CacheStaysBounded(cached, q);
      hide TooMuch, OneEach, Refreshed, Evicted;
      if q.directory.None? {
        return None;
      }
      var index := Find(cached, q.directory.value);
      if index < |cached| {
        var kept := cached[index];
        cached := cached[..index] + cached[index + 1..];
        var changed := kept.modified != q.meta.modified || kept.identity != q.meta.identity;
        var within := q.now >= kept.readAt && q.now - kept.readAt < VOLATILE;
        if !changed && (kept.settled || within) {
          kept := RefreshSymlinks(kept, q.leads);
          cached := cached + [kept];
          return Some(kept.entries);
        }
      }
      if q.raw.None? {
        return None;
      }
      var entries, symlinks := ReadEntries(q.raw.value, q.directory.value, q.leads);
      var settled := q.meta.identity.Some? && q.meta.modified.Some? && q.now - q.meta.modified.value >= SETTLED;
      cached := cached + [Cached(q.directory.value, q.meta.identity, q.meta.modified, settled, q.now, symlinks,
                                 entries)];
      cached := Evict(cached);
      answer := Some(entries);
    }
  }
}
