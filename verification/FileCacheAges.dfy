/**
 How long and how much the static-file cache keeps: the age limit of 240 idle seconds from both
 sides, the size limit of 256 KiB, and what a store changes.
 */
module FileCacheAges {
  import opened Common
  import opened FileCache
  import opened FileCacheRuns

  // ----- the age limit --------------------------------------------------------------------------

  /**
   What every access does first: a used slot is cleared if and only if it has been idle for more
   than 240 seconds, and every other slot stays as it was.
   */
  lemma OpeningClearsExactly(s: Shard, now: int)
    ensures var t := Opened(s, now);
      && (forall i :: 0 <= i < |s.entries| ==>
            t.entries[i] ==
              if s.entries[i].path != "" && now - s.entries[i].atime > 240 then NO_ENTRY else s.entries[i])
      && (forall i :: 0 <= i < |s.candidates| ==>
            t.candidates[i] ==
              if s.candidates[i].path != "" && now - s.candidates[i].atime > 240 then NO_CANDIDATE
              else s.candidates[i])
  {
    var r := Refill(s, now);
    assert forall i :: 0 <= i < |s.entries| ==> Opened(s, now).entries[i] == KeepEntry(r.entries[i], now);
    assert forall i :: 0 <= i < |s.candidates| ==> Opened(s, now).candidates[i] == KeepCandidate(r.candidates[i], now);
  }

  /** No used slot has been idle for more than 240 seconds. */
  ghost predicate NothingIdle(s: Shard, now: int) {
    && (forall i :: 0 <= i < |s.entries| && s.entries[i].path != "" ==> now - s.entries[i].atime <= 240)
    && (forall i :: 0 <= i < |s.candidates| && s.candidates[i].path != "" ==> now - s.candidates[i].atime <= 240)
  }

  /** After any access to a shard that passes the size test, nothing in it is idle beyond the limit. */
  lemma NothingIdleTooLong(s: Shard, call: Call)
    requires call.StoreCall? ==> 0 < |call.data| <= 262144
    requires call.LookupCall? ==> 0 < call.size <= 262144
    ensures NothingIdle(Perform(s, call), call.now)
  {
    hide Opened, Victim, FirstStop, FirstHit, Oldest;
    OpeningClearsExactly(s, call.now);
  }

  /** The call stores the path or hits it. */
  predicate Touches(s: Shard, call: Call, path: string) {
    call.path == path &&
    match call
    case StoreCall(_, _, data, now, ok) => Inserts(s, path, data, now) && ok
    case LookupCall(_, mtime, size, now, ok) => Lookup(s, path, mtime, size, now, ok).1.Some?
  }

  /** When the calls have stored or hit the path. */
  function TouchTimes(s: Shard, calls: seq<Call>, path: string): seq<int>
    decreases |calls|
  {
    if calls == [] then []
    else
      (if Touches(s, calls[0], path) then [calls[0].now] else []) + TouchTimes(Perform(s, calls[0]), calls[1..], path)
  }

  /** Every entry for the path has its access time from one of these times. */
  ghost predicate TimesAmong(es: seq<Entry>, path: string, times: set<int>) {
    forall i :: 0 <= i < |es| && es[i].path == path ==> es[i].atime in times
  }

  lemma TouchStep(s: Shard, call: Call, path: string, times: set<int>)
    requires path != "" && CandidatesShort(s.candidates) && TimesAmong(s.entries, path, times)
    ensures CandidatesShort(Perform(s, call).candidates)
    ensures TimesAmong(Perform(s, call).entries, path, times + (if Touches(s, call, path) then {call.now} else {}))
  {
    hide FirstStop, Victim, Oldest, FirstHit;
    OpeningClearsExactly(s, call.now);
    var t := Opened(s, call.now);
    assert CandidatesShort(t.candidates) && TimesAmong(t.entries, path, times);
    if call.StoreCall? {
      OnlyShortPathsAdmitted(t.candidates, call.path, call.now);
    }
  }

  lemma {:induction false} TouchRun(s: Shard, calls: seq<Call>, path: string, times: set<int>)
    requires path != "" && CandidatesShort(s.candidates) && TimesAmong(s.entries, path, times)
    ensures TimesAmong(ReplayShard(s, calls).entries, path, times + (set t | t in TouchTimes(s, calls, path)))
    decreases |calls|
  {
    if calls != [] {
      var now := if Touches(s, calls[0], path) then {calls[0].now} else {};
      TouchStep(s, calls[0], path, times);
      hide Perform, Touches, CandidatesShort, TimesAmong;
      TouchRun(Perform(s, calls[0]), calls[1..], path, times + now);
      var rest := TouchTimes(Perform(s, calls[0]), calls[1..], path);
      assert times + (set t | t in TouchTimes(s, calls, path)) == (times + now) + (set t | t in rest);
    }
  }

  /**
   An idle file is not served: over every run, a lookup more than 240 seconds after every store and
   every hit of its path misses.
   */
  lemma IdleFileIsMissed(slots: nat, calls: seq<Call>, path: string, mtime: int, size: int, later: int, ok: bool)
    requires forall t :: t in TouchTimes(EmptyShard(slots), calls, path) ==> later - t > 240
    ensures Lookup(ReplayShard(EmptyShard(slots), calls), path, mtime, size, later, ok).1.None?
  {
    if path != "" {
      TouchRun(EmptyShard(slots), calls, path, {});
      MissesIdle(ReplayShard(EmptyShard(slots), calls), path, mtime, size, later, ok);
    }
  }

  lemma MissesIdle(s: Shard, path: string, mtime: int, size: int, later: int, ok: bool)
    requires path != ""
    requires forall i :: 0 <= i < |s.entries| && s.entries[i].path == path ==> later - s.entries[i].atime > 240
    ensures Lookup(s, path, mtime, size, later, ok).1.None?
  {
    OpeningClearsExactly(s, later);
  }

  // ----- the size limit ----------------------------------------------------------------------------

  /** Every used entry holds between one byte and 256 KiB. */
  ghost predicate SizesOk(es: seq<Entry>) {
    forall i :: 0 <= i < |es| && es[i].path != "" ==> 0 < |es[i].data| <= 262144
  }

  lemma SizeStep(s: Shard, call: Call)
    requires SizesOk(s.entries)
    ensures SizesOk(Perform(s, call).entries)
  {
    hide FirstStop, Victim, Oldest, FirstHit;
    OpeningClearsExactly(s, call.now);
  }

  /** Over every run nothing empty and nothing over 256 KiB is kept. */
  lemma {:induction false} OnlySmallFilesKept(s: Shard, calls: seq<Call>)
    requires SizesOk(s.entries)
    ensures SizesOk(ReplayShard(s, calls).entries)
    decreases |calls|
  {
    if calls != [] {
      SizeStep(s, calls[0]);
      OnlySmallFilesKept(Perform(s, calls[0]), calls[1..]);
    }
  }

  /** A store or lookup outside the size limits leaves the shard as it was. */
  lemma OutsizeChangesNothing(s: Shard, call: Call)
    requires var size := if call.StoreCall? then |call.data| else call.size; size <= 0 || size > 262144
    ensures Perform(s, call) == s
  {
  }

  // ----- what a store changes -------------------------------------------------------------------------

  /**
   A store that is inserted changes one entry, the victim: it becomes the file, or is left empty
   when memory runs out, and either way costs one of the budget.  A store that is not inserted
   changes no entry.
   */
  lemma StoreChangesOneEntry(s: Shard, path: string, mtime: int, data: seq<Byte>, now: int, ok: bool)
    requires s.entries != [] && CandidatesShort(s.candidates) && 0 < |data| <= 262144
    ensures var o, t := Opened(s, now), Store(s, path, mtime, data, now, ok);
      if Inserts(s, path, data, now) then
        && t.entries == o.entries[Victim(o.entries) := if ok then Entry(path, data, mtime, now) else NO_ENTRY]
        && t.tokens == o.tokens - 1
      else t.entries == o.entries && t.tokens == o.tokens
  {
    hide FirstStop, Victim, Oldest;
    OpeningClearsExactly(s, now);
    assert CandidatesShort(Opened(s, now).candidates);
    OnlyShortPathsAdmitted(Opened(s, now).candidates, path, now);
  }
}
