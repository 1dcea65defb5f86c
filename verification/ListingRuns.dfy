/** When a kept listing is as good as reading the directory again. */
module ListingRuns {
  import opened Wrappers
  import opened Listings

  /** A directory on disk: when it was last written to, and what it holds. */
  datatype Directory = Directory(modified: int, raw: seq<Raw>)

  /** The file system at one moment: what each path names, and what each
      directory holds, by its identity. */
  datatype Moment = Moment(time: int, paths: map<string, nat>, directories: map<nat, Directory>)

  /** From one moment to the next anything may be renamed, linked and removed.
      But a directory that is written to, or made anew, is stamped with a time
      less than SETTLED behind the clock. */
  ghost predicate Tick(m: Moment, next: Moment) {
    && m.time <= next.time
    && forall id :: id in next.directories ==>
         || (id in m.directories && m.directories[id] == next.directories[id])
         || m.time - next.directories[id].modified < SETTLED
  }

  ghost predicate Runs(h: seq<Moment>) {
    forall i :: 0 <= i < |h| - 1 ==> Tick(h[i], h[i + 1])
  }

  lemma {:induction false} TimeRuns(h: seq<Moment>, i: nat, j: nat)
    requires Runs(h) && i <= j < |h|
    ensures h[i].time <= h[j].time
    decreases j - i
  {
    if i < j {
      TimeRuns(h, i, j - 1);
      assert Tick(h[j - 1], h[j - 1 + 1]);
    }
  }

  /** A directory is still as it was, or else it is stamped later than any time
      that could vouch for it, or gone. */
  lemma {:induction false} LeftAloneOrStamped(h: seq<Moment>, i: nat, j: nat, id: nat)
    requires Runs(h) && i <= j < |h| && id in h[i].directories && id in h[j].directories
    ensures h[j].directories[id] == h[i].directories[id] || h[i].time - h[j].directories[id].modified < SETTLED
    decreases j - i
  {
    if i < j {
      assert Tick(h[j - 1], h[j - 1 + 1]);
      TimeRuns(h, i, j - 1);
      if id in h[j - 1].directories && h[j - 1].directories[id] == h[j].directories[id] {
        LeftAloneOrStamped(h, i, j - 1, id);
      }
    }
  }

  /** Once it is another, it does not become the same again: between two
      moments at which a vouched-for time reads the same, nothing changed. */
  lemma {:induction false} LeftAloneBetween(h: seq<Moment>, i: nat, k: nat, j: nat, id: nat)
    requires Runs(h) && i <= k <= j < |h|
    requires id in h[i].directories && id in h[k].directories && id in h[j].directories
    requires h[i].time - h[i].directories[id].modified >= SETTLED
    requires h[j].directories[id].modified == h[i].directories[id].modified
    ensures h[k].directories[id] == h[i].directories[id] == h[j].directories[id]
  {
    LeftAloneOrStamped(h, i, j, id);
    LeftAloneOrStamped(h, i, k, id);
    LeftAloneOrStamped(h, k, j, id);
    TimeRuns(h, i, k);
  }

  // --------------------------------------------------------------- answers

  /** What the system told about a directory was so, as far as it told it. */
  ghost predicate Truthful(m: Moment, directory: string, meta: Metadata) {
    && (meta.identity.Some? ==> directory in m.paths && m.paths[directory] == meta.identity.value
                                && m.paths[directory] in m.directories)
    && (meta.identity.Some? && meta.modified.Some? ==>
        m.directories[m.paths[directory]].modified == meta.modified.value)
  }

  /** The directory a path names, and what it holds. */
  ghost predicate Holds(m: Moment, directory: string, raw: seq<Raw>) {
    directory in m.paths && m.paths[directory] in m.directories && m.directories[m.paths[directory]].raw == raw
  }

  /** The entries are what reading the directory at a moment gives. */
  ghost predicate FreshAt(h: seq<Moment>, at: nat, directory: string, leads: Leads, entries: seq<Entry>) {
    at < |h| && exists raw :: Holds(h[at], directory, raw) && entries == Listing(raw, directory, leads)
  }

  // -------------------------------------------------------------- questions

  /** One question: the directory's times are asked for at one moment, and if it
      has to be read that happens at the same moment or a later one. */
  datatype Asking = Asking(q: Question, at: nat, read: nat)

  ghost predicate Put(a: Asking, h: seq<Moment>) {
    && a.at <= a.read < |h| && a.q.now <= h[a.at].time
    && (a.q.directory.Some? ==>
          && Truthful(h[a.at], a.q.directory.value, a.q.meta)
          && (a.q.raw.Some? ==> Holds(h[a.read], a.q.directory.value, a.q.raw.value)))
  }

  /** Between asking for its times and reading it, the path was given to another
      directory. */
  ghost predicate Swapped(a: Asking, h: seq<Moment>) {
    && a.read < |h| && a.q.directory.Some? && a.q.directory.value in h[a.read].paths
    && a.q.meta.identity.Some? && h[a.read].paths[a.q.directory.value] != a.q.meta.identity.value
  }

  /** Questions put one after another. */
  ghost predicate AllPut(asked: seq<Asking>, h: seq<Moment>) {
    && (forall i :: 0 <= i < |asked| ==> Put(asked[i], h))
    && (forall i, j :: 0 <= i < j < |asked| ==> asked[i].read <= asked[j].at)
  }

  function CacheAfterAll(asked: seq<Asking>): seq<Cached> {
    if asked == [] then [] else CacheAfter(CacheAfterAll(asked[..|asked| - 1]), asked[|asked| - 1].q)
  }

  // ----------------------------------------------------- what is remembered

  /** A kept listing is one that was read, with its links asked again since. */
  ghost predicate KeptFrom(c: Cached, a: Asking) {
    && a.q.directory.Some? && a.q.raw.Some?
    && exists leads :: c == ReadNow(a.q).(entries := Listing(a.q.raw.value, a.q.directory.value, leads))
  }

  ghost predicate IsKeptFrom(c: Cached, asked: seq<Asking>) {
    exists i :: 0 <= i < |asked| && KeptFrom(c, asked[i])
  }

  lemma {:induction false} RenewedIsKept(c: Cached, leads: Leads, a: Asking)
    requires KeptFrom(c, a)
    ensures KeptFrom(Renewed(c, leads), a)
    ensures Renewed(c, leads).entries == Listing(a.q.raw.value, a.q.directory.value, leads)
  {
    var before :| c == ReadNow(a.q).(entries := Listing(a.q.raw.value, a.q.directory.value, before));
    RefreshingReadsAgain(a.q.raw.value, a.q.directory.value, before, leads);
    assert Renewed(c, leads) == ReadNow(a.q).(entries := Listing(a.q.raw.value, a.q.directory.value, leads));
  }

  lemma {:induction false} ReadIsKept(a: Asking)
    requires a.q.directory.Some? && a.q.raw.Some?
    ensures KeptFrom(ReadNow(a.q), a)
  {
    assert ReadNow(a.q) == ReadNow(a.q).(entries := Listing(a.q.raw.value, a.q.directory.value, a.q.leads));
  }

  /** What is kept was kept, or is what has just been answered. */
  lemma {:induction false} WhereFrom(cached: seq<Cached>, q: Question, c: Cached)
    requires c in CacheAfter(cached, q)
    ensures HitFor(cached, q).Some? ==> HitFor(cached, q).value in cached
    ensures c in cached
            || (HitFor(cached, q).Some? && c == Renewed(HitFor(cached, q).value, q.leads))
            || (HitFor(cached, q).None? && q.directory.Some? && q.raw.Some? && c == ReadNow(q))
  {
  }

  /** Everything kept after some questions was read for one of them. */
  lemma {:induction false} AllAreKept(asked: seq<Asking>, c: Cached)
    requires c in CacheAfterAll(asked)
    ensures IsKeptFrom(c, asked)
  {
    var front, last := asked[..|asked| - 1], asked[|asked| - 1];
    var cached := CacheAfterAll(front);
    hide KeptFrom, HitFor, CacheAfter, Renewed, ReadNow;
    WhereFrom(cached, last.q, c);
    var hit := HitFor(cached, last.q);
    if c in cached {
      AllAreKept(front, c);
      var i :| 0 <= i < |front| && KeptFrom(c, front[i]);
      assert KeptFrom(c, asked[i]);
    } else if hit.Some? {
      AllAreKept(front, hit.value);
      var i :| 0 <= i < |front| && KeptFrom(hit.value, front[i]);
      RenewedIsKept(hit.value, last.q.leads, asked[i]);
    } else {
      ReadIsKept(last);
    }
  }

  // ---------------------------------------------------------------- the hits

  /** When a settled listing is used again, the directory still holds what it held
      when its times were first asked for. So the answer is what reading it now
      would give exactly if the listing was read from that content; which it was,
      unless the path had been given to another directory by the time it was
      read. */
  lemma {:induction false} SettledHitIsFresh(c: Cached, first: Asking, a: Asking, h: seq<Moment>)
      returns (held: seq<Raw>)
    requires Runs(h) && Put(first, h) && Put(a, h) && first.read <= a.at && KeptFrom(c, first)
    requires a.q.directory == Some(c.directory) && Usable(c, a.q.meta, a.q.now) && c.settled
    ensures Holds(h[first.at], c.directory, held) && Holds(h[a.at], c.directory, held)
    ensures Renewed(c, a.q.leads).entries == Listing(first.q.raw.value, c.directory, a.q.leads)
    ensures FreshAt(h, a.at, c.directory, a.q.leads, Renewed(c, a.q.leads).entries)
       <==> Listing(first.q.raw.value, c.directory, a.q.leads) == Listing(held, c.directory, a.q.leads)
    ensures !Swapped(first, h) ==> held == first.q.raw.value
  {
    var id := c.identity.value;
    held := h[first.at].directories[id].raw;
    RenewedIsKept(c, a.q.leads, first);
    LeftAloneBetween(h, first.at, first.at, a.at, id);
    if !Swapped(first, h) {
      LeftAloneBetween(h, first.at, first.read, a.at, id);
    }
  }

  /** Any other kept listing is used only while it is young: it is what reading
      gave at a moment less than VOLATILE ago, with the links asked again. */
  ghost predicate Recent(h: seq<Moment>, a: Asking, entries: seq<Entry>) {
    exists when :: 0 <= when <= a.at < |h| && a.q.now - h[when].time < VOLATILE
                   && a.q.directory.Some? && FreshAt(h, when, a.q.directory.value, a.q.leads, entries)
  }

  lemma {:induction false} YoungHitIsRecent(c: Cached, first: Asking, a: Asking, h: seq<Moment>)
    requires Runs(h) && Put(first, h) && Put(a, h) && first.read <= a.at && KeptFrom(c, first)
    requires a.q.directory == Some(c.directory) && Usable(c, a.q.meta, a.q.now) && !c.settled
    ensures Recent(h, a, Renewed(c, a.q.leads).entries)
  {
    RenewedIsKept(c, a.q.leads, first);
    TimeRuns(h, first.at, first.read);
    assert FreshAt(h, first.read, c.directory, a.q.leads, Renewed(c, a.q.leads).entries);
  }

  // ------------------------------------------------------------ every run

  /** An answer is what the directory holds, as it was asked or read; or else it
      is younger than VOLATILE. */
  ghost predicate True(h: seq<Moment>, a: Asking, answer: Option<seq<Entry>>) {
    match answer
    case None => true
    case Some(entries) =>
      && a.q.directory.Some?
      && (|| FreshAt(h, a.at, a.q.directory.value, a.q.leads, entries)
          || FreshAt(h, a.read, a.q.directory.value, a.q.leads, entries)
          || Recent(h, a, entries))
  }

  /** The answer comes from an earlier reading of the path that found another
      directory there than the one whose times it was kept under. */
  ghost predicate FromASwap(h: seq<Moment>, earlier: seq<Asking>, a: Asking, answer: Option<seq<Entry>>) {
    exists i :: 0 <= i < |earlier| && Swapped(earlier[i], h) && earlier[i].q.directory == a.q.directory
      && a.q.directory.Some? && earlier[i].q.raw.Some?
      && answer == Some(Listing(earlier[i].q.raw.value, a.q.directory.value, a.q.leads))
  }

  /** In every run of questions against a changing file system, starting from an
      empty cache, each answer is true, or it comes from a swapped reading. */
  lemma {:induction false} EveryAnswerIsTrue(h: seq<Moment>, asked: seq<Asking>, k: nat)
    requires Runs(h) && AllPut(asked, h) && k < |asked|
    ensures var answer := AnswerTo(CacheAfterAll(asked[..k]), asked[k].q);
            True(h, asked[k], answer) || FromASwap(h, asked[..k], asked[k], answer)
  {
    var cached, a := CacheAfterAll(asked[..k]), asked[k];
    var hit := HitFor(cached, a.q);
    hide CacheAfterAll, FreshAt, Recent, Runs;
    if AnswerTo(cached, a.q).Some? {
      if hit.None? {
        ReadingIsFresh(a, h);
      } else {
        AllAreKept(asked[..k], hit.value);
        var i :| 0 <= i < k && KeptFrom(hit.value, asked[..k][i]);
        HitIsTrue(hit.value, asked[i], a, h);
      }
    }
  }

  lemma {:induction false} ReadingIsFresh(a: Asking, h: seq<Moment>)
    requires Put(a, h) && a.q.directory.Some? && a.q.raw.Some?
    ensures FreshAt(h, a.read, a.q.directory.value, a.q.leads, ReadNow(a.q).entries)
  {
    assert Holds(h[a.read], a.q.directory.value, a.q.raw.value);
  }

  lemma {:induction false} HitIsTrue(c: Cached, first: Asking, a: Asking, h: seq<Moment>)
    requires Runs(h) && Put(first, h) && Put(a, h) && first.read <= a.at && KeptFrom(c, first)
    requires a.q.directory == Some(c.directory) && Usable(c, a.q.meta, a.q.now)
    ensures c.directory == first.q.directory.value
    ensures Renewed(c, a.q.leads).entries == Listing(first.q.raw.value, c.directory, a.q.leads)
    ensures !Swapped(first, h) || !c.settled ==>
              FreshAt(h, a.at, c.directory, a.q.leads, Renewed(c, a.q.leads).entries)
              || Recent(h, a, Renewed(c, a.q.leads).entries)
  {
    RenewedIsKept(c, a.q.leads, first);
    if c.settled {
      var was := SettledHitIsFresh(c, first, a, h);
    } else {
      YoungHitIsRecent(c, first, a, h);
    }
  }

  /** If no path is given to another directory while it is asked about, every
      answer is true. */
  lemma {:induction false} WithoutSwapsAllIsTrue(h: seq<Moment>, asked: seq<Asking>, k: nat)
    requires Runs(h) && AllPut(asked, h) && k < |asked|
    requires forall i :: 0 <= i < k ==> !Swapped(asked[i], h)
    ensures True(h, asked[k], AnswerTo(CacheAfterAll(asked[..k]), asked[k].q))
  {
    hide True, AnswerTo, CacheAfterAll, Swapped, Runs, AllPut;
    EveryAnswerIsTrue(h, asked, k);
  }

  // ---------------------------------------------------- a swap that is served

  /** Two directories take turns under one path, and nobody writes to them. */
  function TakingTurns(): seq<Moment> {
    var both := map[1 := Directory(0, [Plain(Some("one"), false)]), 2 := Directory(0, [Plain(Some("two"), false)])];
    [Moment(SETTLED, map["d" := 1], both), Moment(SETTLED, map["d" := 2], both),
     Moment(SETTLED + VOLATILE, map["d" := 1], both)]
  }

  function AskedWhile(now: int, name: string, at: nat, read: nat): Asking {
    Asking(Question(Some("d"), Metadata(Some(1), Some(0)), now, Some([Plain(Some(name), false)]), {}), at, read)
  }

  lemma {:induction false} OneIsListed(name: string)
    ensures Listing([Plain(Some(name), false)], "d", {}) == [Entry(name, false)]
    ensures Links([Plain(Some(name), false)]) == []
  {
    assert Listing([], "d", {}) == [];
  }

  function First(): Asking {
    AskedWhile(SETTLED, "two", 0, 1)
  }

  function Second(): Asking {
    AskedWhile(SETTLED + VOLATILE, "one", 2, 2)
  }

  lemma {:induction false} TheyArePut()
    ensures Runs(TakingTurns()) && AllPut([First(), Second()], TakingTurns()) && Swapped(First(), TakingTurns())
  {
    hide Listing;
    var h := TakingTurns();
    assert Holds(h[1], "d", First().q.raw.value) && Holds(h[2], "d", Second().q.raw.value);
    assert Put(First(), h) && Put(Second(), h);
  }

  lemma {:induction false} TheOtherIsKept()
    ensures CacheAfterAll([First()]) == [ReadNow(First().q)]
  {
    hide Listing, Links;
    assert [First()][..0] == [];
    assert CacheAfterAll([]) == [];
    assert CacheAfterAll([First()]) == CacheAfter([], First().q);
    assert !TooMuch([ReadNow(First().q)]);
  }

  lemma {:induction false} TheOtherIsServed()
    ensures AnswerTo([ReadNow(First().q)], Second().q) == Some([Entry("two", false)])
  {
    OneIsListed("two");
    hide Listing, Links;
    var kept := ReadNow(First().q);
    assert HitFor([kept], Second().q) == Some(kept);
    assert Renewed(kept, {}).entries == kept.entries;
  }

  lemma {:induction false} TheOtherIsWrong()
    ensures !True(TakingTurns(), Second(), Some([Entry("two", false)]))
  {
    OneIsListed("one");
    hide Listing, Links;
    var h := TakingTurns();
    assert forall raw :: Holds(h[2], "d", raw) ==> raw == [Plain(Some("one"), false)];
    assert !FreshAt(h, 2, "d", {}, [Entry("two", false)]);
  }

  /** The first question asks the one directory for its times and reads the other;
      from then on the other's entries are served as the one's, however late. */
  lemma {:induction false} ASwapIsServed()
    ensures var h, answer := TakingTurns(), AnswerTo(CacheAfterAll([First()]), Second().q);
            && Runs(h) && AllPut([First(), Second()], h) && Swapped(First(), h)
            && answer == Some([Entry("two", false)]) && !True(h, Second(), answer)
  {
    TheyArePut();
    TheOtherIsKept();
    TheOtherIsServed();
    TheOtherIsWrong();
    hide *;
  }
}
