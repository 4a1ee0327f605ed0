/** What the static-file cache guarantees over every sequence of stores and lookups. */
module FileCacheRuns {
  import opened Common
  import opened FileCache

  /** One call; `gotMemory` says whether its allocation succeeded. */
  datatype Call =
    | StoreCall(path: string, mtime: int, data: seq<Byte>, now: int, gotMemory: bool)
    | LookupCall(path: string, mtime: int, size: int, now: int, gotMemory: bool)

  function Perform(s: Shard, call: Call): (r: Shard)
    ensures |r.entries| == |s.entries| && |r.candidates| == |s.candidates|
  {
    match call
    case StoreCall(path, mtime, data, now, ok) => Store(s, path, mtime, data, now, ok)
    case LookupCall(path, mtime, size, now, ok) => Lookup(s, path, mtime, size, now, ok).0
  }

  // ----- transparency --------------------------------------------------------------------------

  ghost predicate CandidatesShort(cs: seq<Candidate>) {
    forall i :: 0 <= i < |cs| ==> |cs[i].path| <= PATH_LIMIT
  }

  /** Every entry holds the content of its own path and modification time, and satisfies `home`. */
  ghost predicate EntriesFaithful(es: seq<Entry>, content: (string, int) -> seq<Byte>, home: string -> bool) {
    forall i :: 0 <= i < |es| && es[i].path != "" ==>
      es[i].data == content(es[i].path, es[i].mtime) && home(es[i].path)
  }

  ghost predicate Faithful(s: Shard, content: (string, int) -> seq<Byte>, home: string -> bool) {
    CandidatesShort(s.candidates) && EntriesFaithful(s.entries, content, home)
  }

  lemma OpenedFaithful(s: Shard, now: int, content: (string, int) -> seq<Byte>, home: string -> bool)
    requires Faithful(s, content, home)
    ensures Faithful(Opened(s, now), content, home)
  {
  }

  /** A path longer than the candidate field can never match a candidate, so it is never admitted. */
  lemma OnlyShortPathsAdmitted(cs: seq<Candidate>, path: string, now: int)
    requires CandidatesShort(cs)
    ensures CandidatesShort(Admit(cs, path, now).0)
    ensures Admit(cs, path, now).1 ==> |path| <= PATH_LIMIT
  {
  }

  lemma StoreFaithful(s: Shard, call: Call, content: (string, int) -> seq<Byte>, home: string -> bool)
    requires Faithful(s, content, home) && call.StoreCall?
    requires call.data == content(call.path, call.mtime) && home(call.path)
    ensures Faithful(Perform(s, call), content, home)
  {
    OpenedFaithful(s, call.now, content, home);
    OnlyShortPathsAdmitted(Opened(s, call.now).candidates, call.path, call.now);
  }

  lemma LookupFaithful(s: Shard, call: Call, content: (string, int) -> seq<Byte>, home: string -> bool)
    requires Faithful(s, content, home) && call.LookupCall?
    ensures Faithful(Perform(s, call), content, home)
    ensures var r := Lookup(s, call.path, call.mtime, call.size, call.now, call.gotMemory);
      r.1.Some? ==> r.1.value == content(call.path, call.mtime)
  {
    OpenedFaithful(s, call.now, content, home);
  }

  /** The whole cache: shards and the hash that routes a path to one of them. */
  datatype Cache = Cache(shards: seq<Shard>, hash: string -> nat)
  {
    function Home(path: string): (k: nat)
      requires shards != []
      ensures k < |shards|
    {
      hash(path) % |shards|
    }
  }

  function Dispatch(c: Cache, call: Call): (r: Cache)
    requires c.shards != []
    ensures |r.shards| == |c.shards| && r.hash == c.hash
  {
    var k := c.Home(call.path);
    c.(shards := c.shards[k := Perform(c.shards[k], call)])
  }

  function Replay(c: Cache, calls: seq<Call>): (r: Cache)
    requires c.shards != []
    ensures |r.shards| == |c.shards| && r.hash == c.hash
    decreases |calls|
  {
    if calls == [] then c else Replay(Dispatch(c, calls[0]), calls[1..])
  }

  function EmptyShard(slots: nat): Shard {
    Shard(seq(slots, _ => NO_ENTRY), seq(2 * slots, _ => NO_CANDIDATE), FILE_CACHE_INSERTS_PER_SEC, 0)
  }

  ghost predicate HonestStores(calls: seq<Call>, content: (string, int) -> seq<Byte>) {
    forall i :: 0 <= i < |calls| && calls[i].StoreCall? ==> calls[i].data == content(calls[i].path, calls[i].mtime)
  }

  function HomeTest(c: Cache, k: int): string -> bool
    requires c.shards != []
  {
    var n, hash := |c.shards|, c.hash;
    path => hash(path) % n == k
  }

  ghost predicate CacheFaithful(c: Cache, content: (string, int) -> seq<Byte>)
    requires c.shards != []
  {
    forall k :: 0 <= k < |c.shards| ==> Faithful(c.shards[k], content, HomeTest(c, k))
  }

  lemma DispatchFaithful(c: Cache, call: Call, content: (string, int) -> seq<Byte>)
    requires c.shards != [] && CacheFaithful(c, content)
    requires call.StoreCall? ==> call.data == content(call.path, call.mtime)
    ensures CacheFaithful(Dispatch(c, call), content)
  {
    var h := c.Home(call.path);
    var c' := Dispatch(c, call);
    forall k | 0 <= k < |c'.shards| ensures Faithful(c'.shards[k], content, HomeTest(c', k)) {
      assert Faithful(c.shards[k], content, HomeTest(c, k));
      if k == h {
        if call.StoreCall? { StoreFaithful(c.shards[k], call, content, HomeTest(c, k)); }
        else { LookupFaithful(c.shards[k], call, content, HomeTest(c, k)); }
        assert Faithful(c'.shards[k], content, HomeTest(c, k));
      }
      assert EntriesFaithful(c'.shards[k].entries, content, HomeTest(c', k));
    }
  }

  lemma {:induction false} ReplayFaithful(c: Cache, calls: seq<Call>, content: (string, int) -> seq<Byte>)
    requires c.shards != [] && CacheFaithful(c, content) && HonestStores(calls, content)
    ensures CacheFaithful(Replay(c, calls), content)
    decreases |calls|
  {
    if calls != [] {
      DispatchFaithful(c, calls[0], content);
      ReplayFaithful(Dispatch(c, calls[0]), calls[1..], content);
    }
  }

  /**
   Cache transparency over whole runs, for paths of any length: when every store passes the
   content of its path and modification time, every hit returns exactly that content, and every
   cached entry lies in the shard its path hashes to, so the shard a lookup searches is the only
   one that could answer.
   */
  lemma CacheTransparent(c: Cache, slots: nat, calls: seq<Call>, content: (string, int) -> seq<Byte>,
                         path: string, mtime: int, size: int, now: int, ok: bool)
    requires c.shards != [] && HonestStores(calls, content)
    requires forall k :: 0 <= k < |c.shards| ==> c.shards[k] == EmptyShard(slots)
    ensures var r := Replay(c, calls);
      var answer := Lookup(r.shards[r.Home(path)], path, mtime, size, now, ok).1;
      && (answer.Some? ==> answer.value == content(path, mtime))
      && (path != "" ==> forall k, i :: 0 <= k < |r.shards| && 0 <= i < |r.shards[k].entries| ==>
            r.shards[k].entries[i].path == path ==> k == r.Home(path))
  {
    assert CacheFaithful(c, content);
    ReplayFaithful(c, calls, content);
    var r := Replay(c, calls);
    var k := r.Home(path);
    LookupFaithful(r.shards[k], LookupCall(path, mtime, size, now, ok), content, HomeTest(r, k));
    forall k, i | 0 <= k < |r.shards| && 0 <= i < |r.shards[k].entries| && r.shards[k].entries[i].path == path != ""
      ensures k == r.Home(path)
    {
      assert Faithful(r.shards[k], content, HomeTest(r, k));
      assert HomeTest(r, k)(path);
    }
  }

  /** An insertion is visible: the next lookup within the age limit hits and returns these bytes. */
  lemma InsertedIsFound(s: Shard, path: string, mtime: int, data: seq<Byte>, now: int, size: int, later: int,
                        content: (string, int) -> seq<Byte>, home: string -> bool)
    requires Faithful(s, content, home) && data == content(path, mtime) && home(path)
    requires Inserts(s, path, data, now) && s.entries != [] && path != ""
    requires 0 < size <= FILE_CACHE_MAX_BYTES && now <= later <= now + FILE_CACHE_MAX_AGE_SEC
    ensures Lookup(Store(s, path, mtime, data, now, true), path, mtime, size, later, true).1 == Some(data)
  {
    var call := StoreCall(path, mtime, data, now, true);
    var t := Store(s, path, mtime, data, now, true);
    StoreFaithful(s, call, content, home);
    OpenedFaithful(s, now, content, home);
    OnlyShortPathsAdmitted(Opened(s, now).candidates, path, now);
    var v := Victim(Opened(s, now).entries);
    assert t.entries[v] == Entry(path, data, mtime, now);
    var u := Opened(t, later);
    assert u.entries[v] == t.entries[v];
    OpenedFaithful(t, later, content, home);
  }

  lemma FirstHitIs(es: seq<Entry>, path: string, mtime: int, k: nat)
    requires k < |es| && es[k].path != "" && es[k].path == path && es[k].mtime == mtime
    requires forall j :: 0 <= j < k ==> !(es[j].path != "" && es[j].path == path && es[j].mtime == mtime)
    ensures FirstHit(es, path, mtime) == k
  {
  }

  /** The age limit counts idle time: a hit keeps its entry for another full limit, with the same bytes. */
  lemma HitKeepsEntryAlive(s: Shard, path: string, mtime: int, size: int, now: int, later: int)
    requires Lookup(s, path, mtime, size, now, true).1.Some?
    requires now <= later <= now + FILE_CACHE_MAX_AGE_SEC
    ensures Lookup(Lookup(s, path, mtime, size, now, true).0, path, mtime, size, later, true).1
         == Lookup(s, path, mtime, size, now, true).1
  {
    hide FirstHit;
    var es := Opened(s, now).entries;
    var k := FirstHit(es, path, mtime);
    var t := Lookup(s, path, mtime, size, now, true).0;
    assert t.entries == es[k := es[k].(atime := now)];
    var kept := Opened(t, later).entries;
    assert forall i :: 0 <= i < |kept| ==> kept[i] == KeepEntry(t.entries[i], later);
    FirstHitIs(kept, path, mtime, k);
  }

  // ----- admission ------------------------------------------------------------------------------

  function Share(c: Candidate, path: string): nat { if c.path == path then c.hits else 0 }

  /** The hits of a path summed over all candidate slots that hold it. */
  function HitsOf(cs: seq<Candidate>, path: string): nat {
    if cs == [] then 0 else Share(cs[0], path) + HitsOf(cs[1..], path)
  }

  lemma {:induction false} HitsUpdated(cs: seq<Candidate>, k: int, c: Candidate, path: string)
    requires 0 <= k < |cs|
    ensures HitsOf(cs[k := c], path) + Share(cs[k], path) == HitsOf(cs, path) + Share(c, path)
    ensures Share(cs[k], path) <= HitsOf(cs, path)
  {
    if k == 0 {
      assert cs[k := c][1..] == cs[1..];
    } else {
      assert cs[k := c][1..] == cs[1..][k - 1 := c];
      HitsUpdated(cs[1..], k - 1, c, path);
    }
  }

  lemma {:induction false} HitsShrink(cs: seq<Candidate>, cs': seq<Candidate>, path: string)
    requires |cs| == |cs'| && forall i :: 0 <= i < |cs| ==> Share(cs'[i], path) <= Share(cs[i], path)
    ensures HitsOf(cs', path) <= HitsOf(cs, path)
  {
    if cs != [] { HitsShrink(cs[1..], cs'[1..], path); }
  }

  lemma AdmitHits(cs: seq<Candidate>, offered: string, now: int, path: string)
    requires CandidatesShort(cs)
    ensures HitsOf(Admit(cs, offered, now).0, path)
         <= HitsOf(cs, path) + (if Truncated(offered) == path then 1 else 0)
  {
    var k := FirstStop(cs, offered);
    if k < |cs| && cs[k].path != "" {
      HitsUpdated(cs, k, Candidate(cs[k].path, (cs[k].hits + 1) % UINT_MODULUS, now), path);
    } else if cs != [] {
      var slot := if k < |cs| then k else Oldest(CandidateTimes(cs));
      HitsUpdated(cs, slot, Candidate(Truncated(offered), 1, now), path);
    }
  }

  function IsOffer(call: Call, path: string): bool { call.StoreCall? && Truncated(call.path) == path }

  /** How many stores a path, as the candidate field records it, was offered by. */
  function Offers(calls: seq<Call>, path: string): nat {
    if calls == [] then 0 else (if IsOffer(calls[0], path) then 1 else 0) + Offers(calls[1..], path)
  }

  function ReplayShard(s: Shard, calls: seq<Call>): Shard
    decreases |calls|
  {
    if calls == [] then s else ReplayShard(Perform(s, calls[0]), calls[1..])
  }

  lemma OpenedHits(s: Shard, now: int, path: string)
    requires CandidatesShort(s.candidates)
    ensures CandidatesShort(Opened(s, now).candidates)
    ensures HitsOf(Opened(s, now).candidates, path) <= HitsOf(s.candidates, path)
  {
    var cs' := Opened(s, now).candidates;
    forall i | 0 <= i < |s.candidates| ensures cs'[i] == KeepCandidate(s.candidates[i], now) {
      assert Refill(s, now).candidates == s.candidates;
    }
    HitsShrink(s.candidates, cs', path);
  }

  lemma PerformHits(s: Shard, call: Call, path: string)
    requires CandidatesShort(s.candidates)
    ensures CandidatesShort(Perform(s, call).candidates)
    ensures HitsOf(Perform(s, call).candidates, path)
         <= HitsOf(s.candidates, path) + (if IsOffer(call, path) then 1 else 0)
  {
    OpenedHits(s, call.now, path);
    if call.StoreCall? {
      var cs := Opened(s, call.now).candidates;
      AdmitHits(cs, call.path, call.now, path);
      OnlyShortPathsAdmitted(cs, call.path, call.now);
    }
  }

  /** The summed hits of a path never exceed the number of times it was offered. */
  lemma {:induction false} HitsBoundedByOffers(s: Shard, calls: seq<Call>, path: string)
    requires CandidatesShort(s.candidates)
    ensures CandidatesShort(ReplayShard(s, calls).candidates)
    ensures HitsOf(ReplayShard(s, calls).candidates, path) <= HitsOf(s.candidates, path) + Offers(calls, path)
    decreases |calls|
  {
    if calls != [] {
      PerformHits(s, calls[0], path);
      HitsBoundedByOffers(Perform(s, calls[0]), calls[1..], path);
    }
  }

  lemma {:induction false} NoHitsYet(n: nat, path: string)
    ensures HitsOf(seq(n, _ => NO_CANDIDATE), path) == 0
  {
    if n > 0 {
      assert seq(n, _ => NO_CANDIDATE)[1..] == seq(n - 1, _ => NO_CANDIDATE);
      NoHitsYet(n - 1, path);
    }
  }

  lemma {:induction false} SomeOffer(calls: seq<Call>, path: string) returns (i: nat)
    requires Offers(calls, path) > 0
    ensures i < |calls| && IsOffer(calls[i], path)
  {
    if IsOffer(calls[0], path) { i := 0; }
    else {
      i := SomeOffer(calls[1..], path);
      i := i + 1;
    }
  }

  lemma AdmittedWasHit(cs: seq<Candidate>, path: string, now: int)
    requires Admit(cs, path, now).1
    ensures HitsOf(cs, path) >= 1
  {
    hide FirstStop, HitsOf;
    var k := FirstStop(cs, path);
    assert (cs[k].hits + 1) % UINT_MODULUS >= 2;
    HitsUpdated(cs, k, cs[k], path);
  }

  /**
   Two-stage admission over whole runs: whatever happened before, a path shorter than the
   candidate field is inserted only if an earlier store had already offered that very path.
   */
  lemma InsertedOnlyAfterAnEarlierOffer(slots: nat, calls: seq<Call>, path: string, data: seq<Byte>, now: int)
    requires Inserts(ReplayShard(EmptyShard(slots), calls), path, data, now)
    ensures Offers(calls, path) >= 1
    ensures |path| < PATH_LIMIT ==> exists i :: 0 <= i < |calls| && calls[i].StoreCall? && calls[i].path == path
  {
    var s := ReplayShard(EmptyShard(slots), calls);
    NoHitsYet(2 * slots, path);
    HitsBoundedByOffers(EmptyShard(slots), calls, path);
    OpenedHits(s, now, path);
    AdmittedWasHit(Opened(s, now).candidates, path, now);
    var i := SomeOffer(calls, path);
    assert |calls[i].path| <= PATH_LIMIT ==> calls[i].path == path;
  }

  /** An offer leaves a record of the path where the next scan stops. */
  lemma OfferIsRecorded(cs: seq<Candidate>, path: string, now: int)
    requires cs != [] && 0 < |path| <= PATH_LIMIT
    requires forall i :: 0 <= i < |cs| ==> cs[i].hits + 2 < UINT_MODULUS
    ensures var cs' := Admit(cs, path, now).0;
      var k := FirstStop(cs', path);
      k < |cs'| && cs'[k].path == path && 1 <= cs'[k].hits < UINT_MODULUS - 1 && cs'[k].atime == now
  {
    hide FirstStop, CandidateTimes, Oldest;
    FirstStopIs(Admit(cs, path, now).0, path, ScanSlot(cs, path));
  }

  /** Eviction leaves the record where the scan finds it, or the scan stops at a hole. */
  lemma RecordSurvives(t: Shard, path: string, later: int)
    requires path != "" && FirstStop(t.candidates, path) < |t.candidates|
    requires t.candidates[FirstStop(t.candidates, path)].path == path
    ensures var k, cs := FirstStop(t.candidates, path), Opened(t, later).candidates;
      if forall j :: 0 <= j <= k ==> later - t.candidates[j].atime <= 240
      then FirstStop(cs, path) == k && cs[k] == t.candidates[k]
      else !ScanMatches(cs, path)
  {
    hide FirstStop;
    var k, cs := FirstStop(t.candidates, path), Opened(t, later).candidates;
    assert forall j :: 0 <= j < |cs| ==> cs[j] == KeepCandidate(t.candidates[j], later);
    if j :| 0 <= j <= k && later - t.candidates[j].atime > 240 {
      assert cs[j].path == "";
      assert FirstStop(cs, path) <= j;
    } else {
      FirstStopIs(cs, path, k);
    }
  }

  /**
   When a second offer is enough: after an offer, the path is inserted at its next offer if and
   only if there is budget left then and no candidate up to and including its own record has
   expired in between.
   */
  lemma SecondOfferIsInserted(s: Shard, path: string, mtime: int, data: seq<Byte>, now: int, ok: bool, later: int)
    requires 0 < |path| <= PATH_LIMIT && Storable(data) && s.candidates != [] && Opened(s, now).tokens > 0
    requires forall i :: 0 <= i < |s.candidates| ==> s.candidates[i].hits + 2 < UINT_MODULUS
    ensures var t := Store(s, path, mtime, data, now, ok);
      var k := FirstStop(t.candidates, path);
      && k < |t.candidates| && t.candidates[k].path == path && t.candidates[k].atime == now
      && (Inserts(t, path, data, later) <==>
            Opened(t, later).tokens > 0 && forall j :: 0 <= j <= k ==> later - t.candidates[j].atime <= 240)
  {
    hide FirstStop, Oldest, Victim, CandidateTimes;
    var cs := Opened(s, now).candidates;
    OfferIsRecorded(cs, path, now);
    var t := Store(s, path, mtime, data, now, ok);
    assert t.candidates == Admit(cs, path, now).0;
    hide Store;
    RecordSurvives(t, path, later);
  }

  // ----- whose offer counts ----------------------------------------------------------------------

  /** On one shard: the record of a longer path is mistaken for its 511-byte prefix. */
  lemma LongerOfferCounts(slots: nat, path: string, more: string, mtime: int, data: seq<Byte>, now: int, ok: bool)
    requires slots > 0 && |path| == PATH_LIMIT && more != "" && Storable(data)
    ensures Inserts(Store(EmptyShard(slots), path + more, mtime, data, now, ok), path, data, now)
  {
    hide FirstStop, Oldest;
    var long := path + more;
    assert Truncated(long) == path;
    var cs := Opened(EmptyShard(slots), now).candidates;
    assert cs[0] == NO_CANDIDATE;
    FirstStopIs(cs, long, 0);
    var t := Store(EmptyShard(slots), long, mtime, data, now, ok);
    assert t.candidates == cs[0 := Candidate(path, 1, now)];
    var cs' := Opened(t, now).candidates;
    assert cs'[0] == KeepCandidate(t.candidates[0], now);
    assert cs'[0] == Candidate(path, 1, now);
    FirstStopIs(cs', path, 0);
  }

  lemma InsertedIsShort(s: Shard, path: string, data: seq<Byte>, now: int)
    requires CandidatesShort(s.candidates) && Inserts(s, path, data, now)
    ensures |path| <= PATH_LIMIT
  {
    var t := Opened(s, now);
    assert CandidatesShort(t.candidates) by {
      assert forall i ::
        0 <= i < |t.candidates| ==> t.candidates[i] == KeepCandidate(Refill(s, now).candidates[i], now);
    }
    OnlyShortPathsAdmitted(t.candidates, path, now);
  }

  /** The calls that the hash routes to shard `k`. */
  function Routed(c: Cache, calls: seq<Call>, k: nat): seq<Call>
    requires c.shards != []
  {
    if calls == [] then []
    else (if c.Home(calls[0].path) == k then [calls[0]] else []) + Routed(c, calls[1..], k)
  }

  lemma {:induction false} RoutedIsHome(c: Cache, calls: seq<Call>, k: nat, i: nat)
    requires c.shards != [] && i < |Routed(c, calls, k)|
    ensures c.Home(Routed(c, calls, k)[i].path) == k && Routed(c, calls, k)[i] in calls
    decreases |calls|
  {
    if c.Home(calls[0].path) != k {
      RoutedIsHome(c, calls[1..], k, i);
    } else if i > 0 {
      RoutedIsHome(c, calls[1..], k, i - 1);
    }
  }

  /** A shard sees exactly the calls routed to it. */
  lemma {:induction false} ShardSeesItsCalls(c: Cache, calls: seq<Call>, k: nat)
    requires c.shards != [] && k < |c.shards|
    ensures Replay(c, calls).shards[k] == ReplayShard(c.shards[k], Routed(c, calls, k))
    decreases |calls|
  {
    if calls != [] {
      var next := Dispatch(c, calls[0]);
      ShardSeesItsCalls(next, calls[1..], k);
      RoutedSame(c, next, calls[1..], k);
      hide Perform;
      var rest := Routed(c, calls[1..], k);
      if c.Home(calls[0].path) == k {
        assert ([calls[0]] + rest)[1..] == rest;
      } else {
        assert [] + rest == rest && next.shards[k] == c.shards[k];
      }
    }
  }

  /** Routing depends on the hash and the number of shards alone. */
  lemma {:induction false} RoutedSame(c: Cache, d: Cache, calls: seq<Call>, k: nat)
    requires c.shards != [] && |d.shards| == |c.shards| && d.hash == c.hash
    ensures Routed(d, calls, k) == Routed(c, calls, k)
  {
    if calls != [] { RoutedSame(c, d, calls[1..], k); }
  }

  function EmptyCache(hash: string -> nat, shards: nat, slots: nat): (c: Cache)
    ensures |c.shards| == shards && c.hash == hash
    ensures forall k :: 0 <= k < shards ==> c.shards[k] == EmptyShard(slots)
  {
    Cache(seq(shards, _ => EmptyShard(slots)), hash)
  }

  /** The next offer of `path` after these calls inserts it. */
  predicate InsertsNext(c: Cache, path: string, data: seq<Byte>, now: int)
    requires c.shards != []
  {
    Inserts(c.shards[c.Home(path)], path, data, now)
  }

  ghost predicate StoredBefore(calls: seq<Call>, path: string) {
    exists i :: 0 <= i < |calls| && calls[i].StoreCall? && calls[i].path == path
  }

  /** In this run, `path` is inserted only if it was itself offered before. */
  ghost predicate OwnOfferFirst(hash: string -> nat, shards: nat, slots: nat, calls: seq<Call>, path: string,
                                data: seq<Byte>, now: int)
    requires shards > 0
  {
    InsertsNext(Replay(EmptyCache(hash, shards, slots), calls), path, data, now) ==> StoredBefore(calls, path)
  }

  /** A longer path that starts with `path` is routed to the same shard. */
  predicate Vouches(hash: string -> nat, shards: nat, path: string, more: string)
    requires shards > 0
  {
    more != "" && hash(path + more) % shards == hash(path) % shards
  }

  /**
   At exactly 511 bytes the record of a longer path is mistaken for the path itself: one store of
   a longer path that starts with it and is routed to the same shard makes the path insertable at
   its own first offer.
   */
  lemma LongPathVouchesForItsPrefix(hash: string -> nat, shards: nat, slots: nat, path: string, more: string,
                                    mtime: int, data: seq<Byte>, now: int, ok: bool)
    requires shards > 0 && slots > 0 && |path| == PATH_LIMIT && Vouches(hash, shards, path, more) && Storable(data)
    ensures InsertsNext(Dispatch(EmptyCache(hash, shards, slots), StoreCall(path + more, mtime, data, now, ok)),
                        path, data, now)
  {
    hide Inserts;
    LongerOfferCounts(slots, path, more, mtime, data, now, ok);
  }

  lemma OwnOfferUnlessVouched(hash: string -> nat, shards: nat, slots: nat, calls: seq<Call>, path: string,
                              data: seq<Byte>, now: int)
    requires shards > 0
    requires |path| != PATH_LIMIT || forall more :: !Vouches(hash, shards, path, more)
    ensures OwnOfferFirst(hash, shards, slots, calls, path, data, now)
  {
    hide Inserts, ReplayShard, Offers, Replay;
    var c := EmptyCache(hash, shards, slots);
    var k := c.Home(path);
    var routed := Routed(c, calls, k);
    ShardSeesItsCalls(c, calls, k);
    if InsertsNext(Replay(c, calls), path, data, now) {
      var s := ReplayShard(EmptyShard(slots), routed);
      HitsBoundedByOffers(EmptyShard(slots), routed, path);
      InsertedIsShort(s, path, data, now);
      InsertedOnlyAfterAnEarlierOffer(slots, routed, path, data, now);
      var i := SomeOffer(routed, path);
      RoutedIsHome(c, calls, k, i);
      OfferIsOwn(hash, shards, path, routed[i].path);
    }
  }

  /** An offer that the candidate field records alike is of the path itself, unless one is vouched for. */
  lemma OfferIsOwn(hash: string -> nat, shards: nat, path: string, offered: string)
    requires shards > 0 && |path| <= PATH_LIMIT && Truncated(offered) == path
    requires hash(offered) % shards == hash(path) % shards
    requires |path| != PATH_LIMIT || forall more :: !Vouches(hash, shards, path, more)
    ensures offered == path
  {
    if |offered| > PATH_LIMIT {
      var more := offered[PATH_LIMIT..];
      assert path + more == offered;
      assert Vouches(hash, shards, path, more);
    }
  }

  /**
   Exactly for which paths the two-stage rule holds, for every hash and number of shards: in every
   run an insertion of the path comes after an earlier store of that very path, if and only if the
   path is not exactly 511 bytes long or no longer path that starts with it shares its shard.
   */
  lemma OwnOfferFirstExactly(hash: string -> nat, shards: nat, path: string)
    requires shards > 0
    ensures (forall slots: nat, calls, data, now :: OwnOfferFirst(hash, shards, slots, calls, path, data, now))
       <==> (|path| != PATH_LIMIT || forall more :: !Vouches(hash, shards, path, more))
  {
    hide InsertsNext;
    if |path| != PATH_LIMIT || forall more :: !Vouches(hash, shards, path, more) {
      forall slots: nat, calls, data, now ensures OwnOfferFirst(hash, shards, slots, calls, path, data, now) {
        OwnOfferUnlessVouched(hash, shards, slots, calls, path, data, now);
      }
    } else {
      var more :| Vouches(hash, shards, path, more);
      var c, call := EmptyCache(hash, shards, 1), StoreCall(path + more, 0, [1], 1, true);
      LongPathVouchesForItsPrefix(hash, shards, 1, path, more, 0, [1], 1, true);
      assert [call][1..] == [];
      assert Replay(c, [call]) == Dispatch(c, call);
      assert !StoredBefore([call], path);
      assert !OwnOfferFirst(hash, shards, 1, [call], path, [1], 1);
    }
  }

  // ----- the insert budget -----------------------------------------------------------------------

  /** A shard together with the times of its insertions. */
  datatype Logged = Logged(shard: Shard, inserts: seq<int>)

  function PerformLogged(l: Logged, call: Call): Logged {
    Logged(Perform(l.shard, call),
           if call.StoreCall? && l.shard.entries != [] && Inserts(l.shard, call.path, call.data, call.now)
           then l.inserts + [call.now] else l.inserts)
  }

  function ReplayLogged(l: Logged, calls: seq<Call>): Logged
    decreases |calls|
  {
    if calls == [] then l else ReplayLogged(PerformLogged(l, calls[0]), calls[1..])
  }

  /** The clock readings are positive and never go back. */
  ghost predicate ClockRuns(calls: seq<Call>, from: int)
    decreases |calls|
  {
    calls == [] || (calls[0].now > 0 && calls[0].now >= from && ClockRuns(calls[1..], calls[0].now))
  }

  ghost predicate BudgetInv(l: Logged, last: int) {
    && l.shard.tokens >= 0
    && 0 <= l.shard.window <= last
    && (l.shard.window == 0 ==> l.inserts == [])
    && (forall i :: 0 <= i < |l.inserts| ==> l.inserts[i] <= l.shard.window)
    && Occurrences(l.inserts, l.shard.window) + l.shard.tokens == 8
    && (forall t :: Occurrences(l.inserts, t) <= 8)
  }

  /** Opening the shard starts a fresh budget exactly when a new second begins. */
  lemma OpenedBudget(l: Logged, now: int, last: int)
    requires BudgetInv(l, last) && now > 0 && now >= last
    ensures BudgetInv(l.(shard := Opened(l.shard, now)), now) && Opened(l.shard, now).window == now
  {
    if l.shard.window == 0 || now != l.shard.window { OccurrencesAbsent(l.inserts, now); }
  }

  lemma InsertBudget(l: Logged, now: int)
    requires BudgetInv(l, now) && l.shard.tokens > 0 && l.shard.window == now > 0
    ensures BudgetInv(Logged(l.shard.(tokens := l.shard.tokens - 1), l.inserts + [now]), now)
  {
    forall t ensures Occurrences(l.inserts + [now], t) == Occurrences(l.inserts, t) + (if now == t then 1 else 0) {
      OccurrencesAppended(l.inserts, now, t);
    }
  }

  lemma PerformBudget(l: Logged, call: Call, last: int)
    requires BudgetInv(l, last) && call.now > 0 && call.now >= last
    ensures BudgetInv(PerformLogged(l, call), call.now)
  {
    OpenedBudget(l, call.now, last);
    var o := l.(shard := Opened(l.shard, call.now));
    if call.StoreCall? && l.shard.entries != [] && Inserts(l.shard, call.path, call.data, call.now) {
      InsertBudget(o, call.now);
      var next := Logged(o.shard.(tokens := o.shard.tokens - 1), o.inserts + [call.now]);
      var r := PerformLogged(l, call);
      assert r.inserts == next.inserts && r.shard.tokens == next.shard.tokens && r.shard.window == next.shard.window;
    } else {
      var r := PerformLogged(l, call);
      assert r.inserts == l.inserts;
      assert (r.shard.tokens == l.shard.tokens && r.shard.window == l.shard.window) ||
             (r.shard.tokens == o.shard.tokens && r.shard.window == o.shard.window);
    }
  }

  function LastNow(calls: seq<Call>, from: int): int {
    if calls == [] then from else LastNow(calls[1..], calls[0].now)
  }

  lemma {:induction false} ReplayBudget(l: Logged, calls: seq<Call>, last: int)
    requires BudgetInv(l, last) && ClockRuns(calls, last)
    ensures BudgetInv(ReplayLogged(l, calls), LastNow(calls, last))
    decreases |calls|
  {
    if calls != [] {
      PerformBudget(l, calls[0], last);
      ReplayBudget(PerformLogged(l, calls[0]), calls[1..], calls[0].now);
    }
  }

  lemma NothingInserted(slots: nat)
    ensures BudgetInv(Logged(EmptyShard(slots), []), 0)
  {
  }

  /** With a positive clock that never goes back, a shard inserts at most 8 entries in any one second. */
  lemma AtMostEightInsertsPerSecond(slots: nat, calls: seq<Call>, second: int)
    requires ClockRuns(calls, 0)
    ensures Occurrences(ReplayLogged(Logged(EmptyShard(slots), []), calls).inserts, second) <= 8
  {
    NothingInserted(slots);
    ReplayBudget(Logged(EmptyShard(slots), []), calls, 0);
  }

  /**
   The budget refuses nothing else: on the same clock, the next store finds budget left if and only
   if fewer than 8 entries have been inserted in its second.
   */
  lemma BudgetLeftExactly(slots: nat, calls: seq<Call>, now: int)
    requires ClockRuns(calls, 0) && now > 0 && now >= LastNow(calls, 0)
    ensures var l := ReplayLogged(Logged(EmptyShard(slots), []), calls);
      Opened(l.shard, now).tokens > 0 <==> Occurrences(l.inserts, now) < 8
  {
    NothingInserted(slots);
    ReplayBudget(Logged(EmptyShard(slots), []), calls, 0);
    var l := ReplayLogged(Logged(EmptyShard(slots), []), calls);
    OpenedBudget(l, now, LastNow(calls, 0));
  }
}
