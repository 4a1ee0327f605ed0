/**
 One shard of the static-file cache of src/http/response_file_cache.c: an admission filter,
 an insert budget per second, eviction by age and replacement of the least recently used
 entry.  An empty path marks an unused slot, as in the source; the diagnostic counters that
 only feed the debug log are not modelled.
 */
module FileCache {
  import opened Common

  const FILE_CACHE_MAX_BYTES := 256 * 1024
  const FILE_CACHE_INSERTS_PER_SEC := 8
  const FILE_CACHE_MAX_AGE_SEC := 240
  const PATH_LIMIT := 511

  datatype Entry = Entry(path: string, data: seq<Byte>, mtime: int, atime: int)
  datatype Candidate = Candidate(path: string, hits: nat, atime: int)

  const NO_ENTRY := Entry("", [], 0, 0)
  const NO_CANDIDATE := Candidate("", 0, 0)

  datatype Shard = Shard(entries: seq<Entry>, candidates: seq<Candidate>, tokens: int, window: int)

  /** What strlcpy keeps of a path in a 512-byte field. */
  function Truncated(path: string): (r: string)
    ensures |r| <= PATH_LIMIT && r <= path
    ensures |path| <= PATH_LIMIT ==> r == path
  {
    if |path| <= PATH_LIMIT then path else path[..PATH_LIMIT]
  }

  // ----- choosing a slot --------------------------------------------------------------------

  function EntryTimes(es: seq<Entry>): (r: seq<int>)
    ensures |r| == |es| && forall i :: 0 <= i < |es| ==> r[i] == es[i].atime
  {
    seq(|es|, i requires 0 <= i < |es| => es[i].atime)
  }

  function CandidateTimes(cs: seq<Candidate>): (r: seq<int>)
    ensures |r| == |cs| && forall i :: 0 <= i < |cs| ==> r[i] == cs[i].atime
  {
    seq(|cs|, i requires 0 <= i < |cs| => cs[i].atime)
  }

  function FirstEmpty(es: seq<Entry>): (k: nat)
    ensures k <= |es|
    ensures k < |es| ==> es[k].path == ""
    ensures forall j :: 0 <= j < k ==> es[j].path != ""
  {
    if es == [] then 0 else if es[0].path == "" then 0 else 1 + FirstEmpty(es[1..])
  }

  /** The slot an insertion replaces: an empty one if there is one, else the least recently used. */
  function Victim(es: seq<Entry>): (k: nat)
    requires es != []
    ensures k < |es|
    ensures (exists j :: 0 <= j < |es| && es[j].path == "") ==> es[k].path == ""
    ensures es[k].path != "" ==> forall j :: 0 <= j < |es| ==> es[k].atime <= es[j].atime
  {
    if FirstEmpty(es) < |es| then FirstEmpty(es) else Oldest(EntryTimes(es))
  }

  /** Where the admission scan stops: an unused slot or the path itself. */
  function FirstStop(cs: seq<Candidate>, path: string): (k: nat)
    ensures k <= |cs|
    ensures k < |cs| ==> cs[k].path == "" || cs[k].path == path
    ensures forall j :: 0 <= j < k ==> cs[j].path != "" && cs[j].path != path
  {
    if cs == [] then 0
    else if cs[0].path == "" || cs[0].path == path then 0
    else 1 + FirstStop(cs[1..], path)
  }

  lemma FirstStopIs(cs: seq<Candidate>, path: string, k: nat)
    requires k <= |cs| && forall j :: 0 <= j < k ==> cs[j].path != "" && cs[j].path != path
    requires k < |cs| ==> cs[k].path == "" || cs[k].path == path
    ensures FirstStop(cs, path) == k
  {
  }

  /** The first entry a lookup accepts. */
  function FirstHit(es: seq<Entry>, path: string, mtime: int): (k: nat)
    ensures k <= |es|
    ensures k < |es| ==> es[k].path != "" && es[k].path == path && es[k].mtime == mtime
    ensures forall j :: 0 <= j < k ==> !(es[j].path != "" && es[j].path == path && es[j].mtime == mtime)
  {
    if es == [] then 0
    else if es[0].path != "" && es[0].path == path && es[0].mtime == mtime then 0
    else 1 + FirstHit(es[1..], path, mtime)
  }

  // ----- the shard operations ---------------------------------------------------------------

  function Refill(s: Shard, now: int): Shard {
    if s.window == 0 || now != s.window then s.(window := now, tokens := FILE_CACHE_INSERTS_PER_SEC) else s
  }

  predicate TooOld(now: int, atime: int) { now - atime > FILE_CACHE_MAX_AGE_SEC }

  function KeepEntry(e: Entry, now: int): Entry {
    if e.path != "" && TooOld(now, e.atime) then NO_ENTRY else e
  }

  function KeepCandidate(c: Candidate, now: int): Candidate {
    if c.path != "" && TooOld(now, c.atime) then NO_CANDIDATE else c
  }

  function Evict(s: Shard, now: int): (r: Shard)
    ensures |r.entries| == |s.entries| && |r.candidates| == |s.candidates|
    ensures r.tokens == s.tokens && r.window == s.window
    ensures forall i :: 0 <= i < |s.entries| ==> r.entries[i] == KeepEntry(s.entries[i], now)
    ensures forall i :: 0 <= i < |s.candidates| ==> r.candidates[i] == KeepCandidate(s.candidates[i], now)
  {
    s.(entries := seq(|s.entries|, i requires 0 <= i < |s.entries| => KeepEntry(s.entries[i], now)),
       candidates := seq(|s.candidates|, i requires 0 <= i < |s.candidates| => KeepCandidate(s.candidates[i], now)))
  }

  /** What every access does first. */
  function Opened(s: Shard, now: int): (r: Shard)
    ensures |r.entries| == |s.entries| && |r.candidates| == |s.candidates|
  {
    Evict(Refill(s, now), now)
  }

  /** The slot the admission scan settles on: where it stops, else the least recently used one. */
  function ScanSlot(cs: seq<Candidate>, path: string): (slot: int)
    ensures -1 <= slot < |cs| && (slot == -1 ==> cs == [])
    ensures slot >= 0 && (cs[slot].path == "" || cs[slot].path == path) ==>
      forall j :: 0 <= j < slot ==> cs[j].path != "" && cs[j].path != path
    ensures slot >= 0 && cs[slot].path != "" && cs[slot].path != path ==>
      forall j :: 0 <= j < |cs| ==> cs[j].path != "" && cs[j].path != path && cs[slot].atime <= cs[j].atime
  {
    assert forall j :: 0 <= j < |cs| ==> CandidateTimes(cs)[j] == cs[j].atime;
    if FirstStop(cs, path) < |cs| then FirstStop(cs, path)
    else if cs == [] then -1 else Oldest(CandidateTimes(cs))
  }

  predicate ScanMatches(cs: seq<Candidate>, path: string) {
    FirstStop(cs, path) < |cs| && cs[FirstStop(cs, path)].path != ""
  }

  /** The admission filter: the new candidate table, and whether the path may be inserted. */
  function Admit(cs: seq<Candidate>, path: string, now: int): (r: (seq<Candidate>, bool))
    ensures |r.0| == |cs|
  {
    var slot := ScanSlot(cs, path);
    if ScanMatches(cs, path) then
      var hits := (cs[slot].hits + 1) % UINT_MODULUS;
      (cs[slot := Candidate(cs[slot].path, hits, now)], hits >= 2)
    else if slot < 0 then (cs, false)
    else (cs[slot := Candidate(Truncated(path), 1, now)], false)
  }

  /** Put an entry into the victim slot, or empty that slot when memory runs out. */
  function Insert(s: Shard, path: string, mtime: int, data: seq<Byte>, now: int, gotMemory: bool): (r: Shard)
    ensures |r.entries| == |s.entries| && |r.candidates| == |s.candidates|
  {
    if s.entries == [] then s
    else
      s.(tokens := s.tokens - 1,
         entries := s.entries[Victim(s.entries) :=
           if gotMemory then Entry(Truncated(path), data, mtime, now) else NO_ENTRY])
  }

  predicate Storable(data: seq<Byte>) { 0 < |data| <= FILE_CACHE_MAX_BYTES }

  /** The store gets past the budget and the admission filter. */
  predicate Inserts(s: Shard, path: string, data: seq<Byte>, now: int) {
    var t := Opened(s, now);
    Storable(data) && t.tokens > 0 && Admit(t.candidates, path, now).1
  }

  function Store(s: Shard, path: string, mtime: int, data: seq<Byte>, now: int, gotMemory: bool): (r: Shard)
    ensures |r.entries| == |s.entries| && |r.candidates| == |s.candidates|
  {
    if !Storable(data) then s
    else
      var t := Opened(s, now);
      if t.tokens <= 0 then t
      else
        var (cs, admitted) := Admit(t.candidates, path, now);
        var u := t.(candidates := cs);
        if admitted then Insert(u, path, mtime, data, now, gotMemory) else u
  }

  /** The shard after a lookup and the copy it hands out; `size` is the file size from stat(2). */
  function Lookup(s: Shard, path: string, mtime: int, size: int, now: int, gotMemory: bool)
    : (r: (Shard, Option<seq<Byte>>))
    ensures |r.0.entries| == |s.entries| && |r.0.candidates| == |s.candidates|
  {
    if size <= 0 || size > FILE_CACHE_MAX_BYTES then (s, None)
    else
      var t := Opened(s, now);
      var k := FirstHit(t.entries, path, mtime);
      if k == |t.entries| || !gotMemory then (t, None)
      else (t.(entries := t.entries[k := t.entries[k].(atime := now)]), Some(t.entries[k].data))
  }

  // ----- the object ------------------------------------------------------------------------------

  class CacheShard {
    const entries: array<Entry>
    const candidates: array<Candidate>
    var tokens: int
    var window: int

    ghost function View(): Shard
      reads this, entries, candidates
    {
      Shard(entries[..], candidates[..], tokens, window)
    }

    constructor (slots: nat)
      ensures fresh(entries) && fresh(candidates)
      ensures View()
           == Shard(seq(slots, _ => NO_ENTRY), seq(2 * slots, _ => NO_CANDIDATE), FILE_CACHE_INSERTS_PER_SEC, 0)
    {
      entries := new Entry[slots](_ => NO_ENTRY);
      candidates := new Candidate[2 * slots](_ => NO_CANDIDATE);
      tokens, window := FILE_CACHE_INSERTS_PER_SEC, 0;
      new;
      assert entries[..] == seq(slots, _ => NO_ENTRY);
      assert candidates[..] == seq(2 * slots, _ => NO_CANDIDATE);
    }

    method RefillBudget(now: int)
      modifies this
      ensures View() == Refill(old(View()), now)
    {
      if window == 0 || now != window {
        window := now;
        tokens := FILE_CACHE_INSERTS_PER_SEC;
      }
    }

    method EvictStale(now: int)
      modifies entries, candidates
      ensures View() == Evict(old(View()), now)
      ensures forall i :: 0 <= i < entries.Length ==>
        var e := old(entries[i]);
        entries[i] == if e.path != "" && now - e.atime > 240 then NO_ENTRY else e
      ensures forall i :: 0 <= i < candidates.Length ==>
        var c := old(candidates[i]);
        candidates[i] == if c.path != "" && now - c.atime > 240 then NO_CANDIDATE else c
    {
      for i := 0 to entries.Length
        invariant forall j :: 0 <= j < i ==> entries[j] == KeepEntry(old(entries[j]), now)
        invariant forall j :: i <= j < entries.Length ==> entries[j] == old(entries[j])
        invariant candidates[..] == old(candidates[..])
      {
        if entries[i].path != "" && now - entries[i].atime > FILE_CACHE_MAX_AGE_SEC { entries[i] := NO_ENTRY; }
      }
      for i := 0 to candidates.Length
        invariant forall j :: 0 <= j < entries.Length ==> entries[j] == KeepEntry(old(entries[j]), now)
        invariant forall j :: 0 <= j < i ==> candidates[j] == KeepCandidate(old(candidates[j]), now)
        invariant forall j :: i <= j < candidates.Length ==> candidates[j] == old(candidates[j])
      {
        if candidates[i].path != "" && now - candidates[i].atime > FILE_CACHE_MAX_AGE_SEC {
          candidates[i] := NO_CANDIDATE;
        }
      }
      assert entries[..] == Evict(old(View()), now).entries;
      assert candidates[..] == Evict(old(View()), now).candidates;
    }

    /** The scan of the admission filter: the slot to count or to take over, -1 without slots. */
    method ScanCandidates(path: string) returns (slot: int, matched: bool)
      ensures slot == ScanSlot(candidates[..], path)
      ensures matched == ScanMatches(candidates[..], path)
    {
      hide Oldest, FirstStop;
      ghost var cs := candidates[..];
      slot := -1;
      var oldest, i := 0, 0;
      while i < candidates.Length
        invariant 0 <= i <= candidates.Length
        invariant forall j :: 0 <= j < i ==> cs[j].path != "" && cs[j].path != path
        invariant i == 0 ==> slot == -1
        invariant i > 0 ==> slot == Oldest(CandidateTimes(cs)[..i]) && oldest == cs[slot].atime
      {
        if candidates[i].path == "" || candidates[i].path == path {
          FirstStopIs(cs, path, i);
          return i, candidates[i].path != "";
        }
        OldestStep(CandidateTimes(cs), i);
        if slot == -1 || candidates[i].atime < oldest {
          oldest := candidates[i].atime;
          slot := i;
        }
        i := i + 1;
      }
      assert CandidateTimes(cs)[..|cs|] == CandidateTimes(cs);
      FirstStopIs(cs, path, |cs|);
      return slot, false;
    }

    method AdmitPath(path: string, now: int) returns (admitted: bool)
      modifies candidates
      ensures (candidates[..], admitted) == Admit(old(candidates[..]), path, now)
    {
      var slot, matched := ScanCandidates(path);
      if matched {
        var hits := (candidates[slot].hits + 1) % UINT_MODULUS;
        candidates[slot] := Candidate(candidates[slot].path, hits, now);
        return hits >= 2;
      }
      if slot < 0 { return false; }
      candidates[slot] := Candidate(Truncated(path), 1, now);
      return false;
    }

    method FindVictim() returns (slot: int)
      ensures slot == if entries.Length == 0 then -1 else Victim(entries[..])
    {
      hide Oldest;
      ghost var es := entries[..];
      slot := -1;
      var oldest, i := 0, 0;
      while i < entries.Length
        invariant 0 <= i <= entries.Length
        invariant forall j :: 0 <= j < i ==> es[j].path != ""
        invariant i == 0 ==> slot == -1
        invariant i > 0 ==> slot == Oldest(EntryTimes(es)[..i]) && oldest == es[slot].atime
      {
        if entries[i].path == "" { return i; }
        OldestStep(EntryTimes(es), i);
        if slot == -1 || entries[i].atime < oldest {
          oldest := entries[i].atime;
          slot := i;
        }
        i := i + 1;
      }
      assert EntryTimes(es)[..|es|] == EntryTimes(es);
    }

    /** http_file_cache_store on the shard the path hashes to. */
    method StoreFile(path: string, mtime: int, data: seq<Byte>, now: int, gotMemory: bool)
      modifies this, entries, candidates
      ensures View() == Store(old(View()), path, mtime, data, now, gotMemory)
    {
      if |data| == 0 || |data| > FILE_CACHE_MAX_BYTES { return; }
      RefillBudget(now);
      EvictStale(now);
      if tokens <= 0 { return; }
      var admitted := AdmitPath(path, now);
      if !admitted { return; }
      var slot := FindVictim();
      if slot >= 0 {
        tokens := tokens - 1;
        entries[slot] := if gotMemory then Entry(Truncated(path), data, mtime, now) else NO_ENTRY;
      }
    }

    /** http_file_cache_lookup on the shard the path hashes to. */
    method LookupFile(path: string, mtime: int, size: int, now: int, gotMemory: bool)
      returns (copy: Option<seq<Byte>>)
      modifies this, entries, candidates
      ensures (View(), copy) == Lookup(old(View()), path, mtime, size, now, gotMemory)
    {
      if size <= 0 || size > FILE_CACHE_MAX_BYTES { return None; }
      RefillBudget(now);
      EvictStale(now);
      ghost var es := entries[..];
      var i := 0;
      while i < entries.Length
        invariant 0 <= i <= entries.Length && View() == Opened(old(View()), now)
        invariant forall j :: 0 <= j < i ==>
          !(es[j].path != "" && es[j].path == path && es[j].mtime == mtime)
      {
        if entries[i].path != "" && entries[i].path == path && entries[i].mtime == mtime {
          if gotMemory {
            copy := Some(entries[i].data);
            entries[i] := entries[i].(atime := now);
            return;
          }
          return None;
        }
        i := i + 1;
      }
      return None;
    }
  }
}
