/**
 The in-memory cache of rendered manual pages, src/modules/man/man_render.c: one shard with
 get and put, and the key that names a page variant.
 */
module ManCache {
  import opened Common

  const MAN_RENDER_CACHE_TTL := 600

  /** A slot is in use when it has a body; the key and time of an unused slot are left over. */
  datatype Slot = Slot(key: string, body: Option<seq<Byte>>, inserted: int)
  {
    predicate Holds(k: string) { body.Some? && key == k }
  }

  const UNUSED_SLOT := Slot("", None, 0)

  predicate Expired(inserted: int, now: int) { now - inserted > MAN_RENDER_CACHE_TTL }

  // ----- the scans ----------------------------------------------------------------------------

  /** The first slot that holds the key, or the table size. */
  function FirstHolder(slots: seq<Slot>, key: string): (k: nat)
    ensures k <= |slots|
    ensures k < |slots| ==> slots[k].Holds(key)
    ensures forall j :: 0 <= j < k ==> !slots[j].Holds(key)
  {
    if slots == [] then 0 else if slots[0].Holds(key) then 0 else 1 + FirstHolder(slots[1..], key)
  }

  /** Where the scan of put stops: the key itself or an unused slot. */
  function FirstStop(slots: seq<Slot>, key: string): (k: nat)
    ensures k <= |slots|
    ensures k < |slots| ==> slots[k].Holds(key) || slots[k].body.None?
    ensures forall j :: 0 <= j < k ==> slots[j].body.Some? && slots[j].key != key
  {
    if slots == [] then 0
    else if slots[0].Holds(key) || slots[0].body.None? then 0
    else 1 + FirstStop(slots[1..], key)
  }

  lemma FirstStopIs(slots: seq<Slot>, key: string, k: nat)
    requires k <= |slots| && forall j :: 0 <= j < k ==> slots[j].body.Some? && slots[j].key != key
    requires k < |slots| ==> slots[k].Holds(key) || slots[k].body.None?
    ensures FirstStop(slots, key) == k
  {
  }

  function InsertTimes(slots: seq<Slot>): (r: seq<int>)
    ensures |r| == |slots| && forall i :: 0 <= i < |slots| ==> r[i] == slots[i].inserted
  {
    seq(|slots|, i requires 0 <= i < |slots| => slots[i].inserted)
  }

  /** The oldest of some insertion times, if it is not later than `now`; -1 otherwise. */
  function OldestUpTo(ts: seq<int>, now: int): (k: int)
    ensures -1 <= k < |ts|
  {
    if ts == [] then -1 else if ts[Oldest(ts)] <= now then Oldest(ts) else -1
  }

  /** The slot a put writes to, or -1. */
  function Target(slots: seq<Slot>, key: string, now: int): (k: int)
    ensures -1 <= k < |slots|
  {
    if FirstStop(slots, key) < |slots| then FirstStop(slots, key) else OldestUpTo(InsertTimes(slots), now)
  }

  // ----- get and put ---------------------------------------------------------------------------

  /** man_render_cache_get: a stale first copy is dropped, a live one is copied out. */
  function Get(slots: seq<Slot>, key: string, now: int, gotMemory: bool): (r: (seq<Slot>, Option<seq<Byte>>))
    ensures |r.0| == |slots|
  {
    var k := FirstHolder(slots, key);
    if k == |slots| then (slots, None)
    else if Expired(slots[k].inserted, now) then (slots[k := slots[k].(body := None)], None)
    else (slots, if gotMemory then slots[k].body else None)
  }

  /** man_render_cache_put: when memory runs out the slot it chose is left without a body. */
  function Put(slots: seq<Slot>, key: string, body: seq<Byte>, now: int, gotMemory: bool): (r: seq<Slot>)
    ensures |r| == |slots|
  {
    var k := Target(slots, key, now);
    if body == [] || k < 0 then slots
    else if gotMemory then slots[k := Slot(key, Some(body), now)]
    else slots[k := slots[k].(body := None)]
  }

  class CacheShard {
    const slots: array<Slot>

    constructor (n: nat)
      ensures fresh(slots) && slots.Length == n && forall i :: 0 <= i < n ==> slots[i] == UNUSED_SLOT
    {
      slots := new Slot[n](_ => UNUSED_SLOT);
    }

    method GetBody(key: string, now: int, gotMemory: bool) returns (copy: Option<seq<Byte>>)
      modifies slots
      ensures (slots[..], copy) == Get(old(slots[..]), key, now, gotMemory)
    {
      for i := 0 to slots.Length
        invariant slots[..] == old(slots[..])
        invariant forall j :: 0 <= j < i ==> !slots[j].Holds(key)
      {
        if slots[i].body.None? || slots[i].key != key { continue; }
        assert FirstHolder(slots[..], key) == i;
        if now - slots[i].inserted > MAN_RENDER_CACHE_TTL {
          slots[i] := slots[i].(body := None);
          return None;
        }
        return if gotMemory then slots[i].body else None;
      }
      return None;
    }

    /** The scan of put; the running minimum starts at now + 1, as in the source. */
    method FindTarget(key: string, now: int) returns (target: int)
      ensures target == Target(slots[..], key, now)
    {
      hide Oldest, FirstStop;
      ghost var ts := InsertTimes(slots[..]);
      target := -1;
      var oldest, i := now + 1, 0;
      while i < slots.Length
        invariant 0 <= i <= slots.Length
        invariant forall j :: 0 <= j < i ==> slots[j].body.Some? && slots[j].key != key
        invariant target == OldestUpTo(ts[..i], now)
        invariant oldest == if target < 0 then now + 1 else ts[target]
      {
        if slots[i].body.None? || slots[i].key == key {
          FirstStopIs(slots[..], key, i);
          return i;
        }
        OldestStep(ts, i);
        if slots[i].inserted < oldest {
          oldest := slots[i].inserted;
          target := i;
        }
        i := i + 1;
      }
      assert ts[..|ts|] == ts;
      FirstStopIs(slots[..], key, slots.Length);
    }

    method PutBody(key: string, body: seq<Byte>, now: int, gotMemory: bool)
      modifies slots
      ensures slots[..] == Put(old(slots[..]), key, body, now, gotMemory)
    {
      if body == [] { return; }
      var target := FindTarget(key, now);
      if target >= 0 {
        slots[target] := if gotMemory then Slot(key, Some(body), now) else slots[target].(body := None);
      }
    }
  }

  // ----- runs -------------------------------------------------------------------------------------

  datatype Call =
    | GetCall(key: string, now: int, gotMemory: bool)
    | PutCall(key: string, body: seq<Byte>, now: int, gotMemory: bool)

  /** One put that was asked for, whether or not it could be stored. */
  datatype PutRecord = PutRecord(key: string, body: seq<Byte>, time: int)

  datatype State = State(slots: seq<Slot>, log: seq<PutRecord>)

  function Perform(s: State, call: Call): (r: State)
    ensures |r.slots| == |s.slots|
  {
    match call
    case GetCall(key, now, ok) => s.(slots := Get(s.slots, key, now, ok).0)
    case PutCall(key, body, now, ok) =>
      if body == [] then s
      else State(Put(s.slots, key, body, now, ok), s.log + [PutRecord(key, body, now)])
  }

  function Replay(s: State, calls: seq<Call>): (r: State)
    ensures |r.slots| == |s.slots|
    decreases |calls|
  {
    if calls == [] then s else Replay(Perform(s, calls[0]), calls[1..])
  }

  ghost predicate ClockRuns(calls: seq<Call>, from: int)
    decreases |calls|
  {
    calls == [] || (calls[0].now >= from && ClockRuns(calls[1..], calls[0].now))
  }

  function ClockAfter(calls: seq<Call>, from: int): int
    decreases |calls|
  {
    if calls == [] then from else ClockAfter(calls[1..], calls[0].now)
  }

  /** Copies of one key are ordered: a later slot never holds a newer copy. */
  ghost predicate Ordered(slots: seq<Slot>) {
    forall i, j :: 0 <= i < j < |slots| && slots[i].body.Some? && slots[j].Holds(slots[i].key) ==>
      slots[i].inserted >= slots[j].inserted
  }

  ghost predicate NotFromTheFuture(slots: seq<Slot>, now: int) {
    forall i :: 0 <= i < |slots| && slots[i].body.Some? ==> slots[i].inserted <= now
  }

  /** Every body in the table was put under its key at its insertion time. */
  ghost predicate Logged(s: State) {
    forall i :: 0 <= i < |s.slots| && s.slots[i].body.Some? ==>
      PutRecord(s.slots[i].key, s.slots[i].body.value, s.slots[i].inserted) in s.log
  }

  ghost predicate Inv(s: State, now: int) {
    Ordered(s.slots) && NotFromTheFuture(s.slots, now) && Logged(s)
  }

  lemma PutKeepsInv(s: State, call: Call, last: int)
    requires Inv(s, last) && call.PutCall? && call.now >= last
    ensures Inv(Perform(s, call), call.now)
  {
    var k := Target(s.slots, call.key, call.now);
    var slots' := Perform(s, call).slots;
    if call.body != [] && k >= 0 && call.gotMemory {
      assert forall i :: 0 <= i < k && s.slots[i].Holds(call.key) ==> k != FirstStop(s.slots, call.key);
      assert forall i :: 0 <= i < |slots'| ==> slots'[i].inserted <= call.now || slots'[i].body.None?;
    }
  }

  lemma GetKeepsInv(s: State, call: Call, last: int)
    requires Inv(s, last) && call.GetCall? && call.now >= last
    ensures Inv(Perform(s, call), call.now)
  {
  }

  lemma {:induction false} ReplayKeepsInv(s: State, calls: seq<Call>, last: int)
    requires Inv(s, last) && ClockRuns(calls, last)
    ensures Inv(Replay(s, calls), ClockAfter(calls, last))
    decreases |calls|
  {
    if calls != [] {
      if calls[0].PutCall? { PutKeepsInv(s, calls[0], last); } else { GetKeepsInv(s, calls[0], last); }
      ReplayKeepsInv(Perform(s, calls[0]), calls[1..], calls[0].now);
    }
  }

  function Unused(n: nat): State { State(seq(n, _ => UNUSED_SLOT), []) }

  /**
   Over every run with a clock that never goes back, whatever allocations fail: a hit hands
   out the newest copy the shard holds, one that was put under this key at most 600 seconds
   ago; and when memory was available, a miss means that no copy is held or that every copy
   has expired.
   */
  lemma HitIsNewestCopy(n: nat, calls: seq<Call>, key: string, now: int, ok: bool)
    requires ClockRuns(calls, 0) && now >= ClockAfter(calls, 0)
    ensures var s := Replay(Unused(n), calls);
      var answer := Get(s.slots, key, now, ok).1;
      var k := FirstHolder(s.slots, key);
      && (answer.Some? ==>
            && k < n && answer == s.slots[k].body
            && now - s.slots[k].inserted <= 600
            && PutRecord(key, answer.value, s.slots[k].inserted) in s.log
            && forall j :: 0 <= j < n && s.slots[j].Holds(key) ==> s.slots[j].inserted <= s.slots[k].inserted)
      && (answer.None? && ok ==>
            forall j :: 0 <= j < n && s.slots[j].Holds(key) ==> Expired(s.slots[j].inserted, now))
  {
    ReplayKeepsInv(Unused(n), calls, 0);
    hide Inv, Replay, Get;
    NewestCopyAnswers(Replay(Unused(n), calls), ClockAfter(calls, 0), key, now, ok);
  }

  lemma NewestCopyAnswers(s: State, last: int, key: string, now: int, ok: bool)
    requires Inv(s, last) && now >= last
    ensures var answer := Get(s.slots, key, now, ok).1;
      var k := FirstHolder(s.slots, key);
      && (answer.Some? ==>
            && k < |s.slots| && answer == s.slots[k].body
            && now - s.slots[k].inserted <= 600
            && PutRecord(key, answer.value, s.slots[k].inserted) in s.log
            && forall j :: 0 <= j < |s.slots| && s.slots[j].Holds(key) ==> s.slots[j].inserted <= s.slots[k].inserted)
      && (answer.None? && ok ==>
            forall j :: 0 <= j < |s.slots| && s.slots[j].Holds(key) ==> Expired(s.slots[j].inserted, now))
  {
    hide FirstHolder;
    var k := FirstHolder(s.slots, key);
    forall j | 0 <= j < |s.slots| && s.slots[j].Holds(key)
      ensures k < |s.slots| && s.slots[j].inserted <= s.slots[k].inserted
    {
      assert k <= j;
    }
  }

  // ----- the copy is as recent as the last put ---------------------------------------------------

  /** The time of the last put of a key. */
  function LastPut(log: seq<PutRecord>, key: string): Option<int> {
    if log == [] then None
    else if log[|log| - 1].key == key then Some(log[|log| - 1].time)
    else LastPut(log[..|log| - 1], key)
  }

  lemma LastPutAppended(log: seq<PutRecord>, r: PutRecord, key: string)
    ensures LastPut(log + [r], key) == if r.key == key then Some(r.time) else LastPut(log, key)
  {
    assert (log + [r])[..|log|] == log;
  }

  /** The first copy of a key is of the second of its last put, or it has expired. */
  ghost predicate Current(s: State, now: int, key: string) {
    var k := FirstHolder(s.slots, key);
    k < |s.slots| ==> Expired(s.slots[k].inserted, now) || LastPut(s.log, key) == Some(s.slots[k].inserted)
  }

  ghost predicate NoFailedPut(calls: seq<Call>) {
    forall i :: 0 <= i < |calls| && calls[i].PutCall? ==> calls[i].gotMemory
  }

  lemma FirstHolderIs(slots: seq<Slot>, key: string, k: nat)
    requires k <= |slots| && (k < |slots| ==> slots[k].Holds(key))
    requires forall j :: 0 <= j < k ==> !slots[j].Holds(key)
    ensures FirstHolder(slots, key) == k
  {
  }

  /** Dropping the expired first copy leaves only copies that have expired as well. */
  lemma GetKeepsCurrent(s: State, call: Call, last: int, key: string)
    requires Inv(s, last) && call.GetCall? && call.now >= last && Current(s, last, key)
    ensures Current(Perform(s, call), call.now, key)
  {
    var s' := Perform(s, call);
    var k, k' := FirstHolder(s.slots, key), FirstHolder(s'.slots, key);
    if k' < |s.slots| {
      assert s.slots[k'].Holds(key) && k <= k';
      if k < k' {
        assert !s'.slots[k].Holds(key) && s.slots[k].Holds(key);
        assert s.slots[k].inserted >= s.slots[k'].inserted;
      }
    }
  }

  /** Replacing the oldest slot never leaves an older copy of its key in charge. */
  lemma PutKeepsCurrent(s: State, call: Call, last: int, key: string)
    requires Inv(s, last) && call.PutCall? && call.gotMemory && call.now >= last && Current(s, last, key)
    ensures Current(Perform(s, call), call.now, key)
  {
    var s' := Perform(s, call);
    hide Oldest, OldestUpTo, InsertTimes, LastPut, Target, FirstStop;
    if call.body != [] {
      LastPutAppended(s.log, PutRecord(call.key, call.body, call.now), key);
      var t := Target(s.slots, call.key, call.now);
      PutHasTarget(s, call.key, call.now, last);
      if |s.slots| > 0 && key == call.key {
        FirstHolderIs(s'.slots, key, t);
      } else if |s.slots| > 0 {
        TakesOldest(s, call.key, call.now, last);
        OtherKeyCurrent(s, s', call.now, last, key, t);
      }
    }
  }

  /** A put that takes the slot of another key takes the oldest. */
  lemma TakesOldest(s: State, key: string, now: int, last: int)
    requires Inv(s, last) && now >= last && |s.slots| > 0
    ensures var t := Target(s.slots, key, now);
      t >= 0 && s.slots[t].body.Some? && s.slots[t].key != key ==>
        forall j :: 0 <= j < |s.slots| ==> s.slots[t].inserted <= s.slots[j].inserted
  {
    hide Oldest, FirstStop;
    var ts := InsertTimes(s.slots);
    assert forall j :: 0 <= j < |s.slots| ==> ts[j] == s.slots[j].inserted;
  }

  /** The oldest slot is never from the future, so a put into a nonempty shard always has a slot. */
  lemma PutHasTarget(s: State, key: string, now: int, last: int)
    requires Inv(s, last) && now >= last
    ensures |s.slots| > 0 ==> Target(s.slots, key, now) >= 0
    ensures |s.slots| > 0 ==> forall j :: 0 <= j < Target(s.slots, key, now) ==> !s.slots[j].Holds(key)
  {
    if |s.slots| > 0 && FirstStop(s.slots, key) == |s.slots| {
      var k := Oldest(InsertTimes(s.slots));
      assert s.slots[k].body.Some?;
    }
  }

  /** A stored page is found again for 600 seconds, whatever the shard held before. */
  lemma PutIsFound(s: State, last: int, key: string, body: seq<Byte>, now: int, later: int)
    requires Inv(s, last) && last <= now <= later <= now + MAN_RENDER_CACHE_TTL && body != [] && |s.slots| > 0
    ensures Get(Put(s.slots, key, body, now, true), key, later, true).1 == Some(body)
  {
    PutHasTarget(s, key, now, last);
    FirstHolderIs(Put(s.slots, key, body, now, true), key, Target(s.slots, key, now));
  }

  lemma OtherKeyCurrent(s: State, s': State, now: int, last: int, key: string, t: int)
    requires Inv(s, last) && now >= last && Current(s, last, key) && 0 <= t < |s.slots|
    requires |s'.slots| == |s.slots| && s'.slots == s.slots[t := s'.slots[t]] && !s'.slots[t].Holds(key)
    requires LastPut(s'.log, key) == LastPut(s.log, key)
    requires s.slots[t].Holds(key) ==>
      forall j :: 0 <= j < |s.slots| ==> s.slots[t].inserted <= s.slots[j].inserted
    ensures Current(s', now, key)
  {
    var k, k' := FirstHolder(s.slots, key), FirstHolder(s'.slots, key);
    if k' < |s.slots| {
      assert s.slots[k'].Holds(key) && k <= k';
      if k < k' {
        assert !s'.slots[k].Holds(key);
        assert k == t;
        assert s.slots[k].inserted >= s.slots[k'].inserted;
      }
    }
  }

  lemma {:induction false} ReplayKeepsCurrent(s: State, calls: seq<Call>, last: int, key: string)
    requires Inv(s, last) && ClockRuns(calls, last) && NoFailedPut(calls) && Current(s, last, key)
    ensures Current(Replay(s, calls), ClockAfter(calls, last), key)
    decreases |calls|
  {
    if calls != [] {
      if calls[0].PutCall? {
        PutKeepsInv(s, calls[0], last);
        PutKeepsCurrent(s, calls[0], last, key);
      } else {
        GetKeepsInv(s, calls[0], last);
        GetKeepsCurrent(s, calls[0], last, key);
      }
      ReplayKeepsCurrent(Perform(s, calls[0]), calls[1..], calls[0].now, key);
    }
  }

  /**
   When no put runs out of memory, a hit is never older than the last put of its key: although
   duplicates of a key arise, the copy handed out was inserted in the same second as that put.
   */
  lemma HitIsAsRecentAsLastPut(n: nat, calls: seq<Call>, key: string, now: int, ok: bool)
    requires ClockRuns(calls, 0) && now >= ClockAfter(calls, 0) && NoFailedPut(calls)
    ensures var s := Replay(Unused(n), calls);
      Get(s.slots, key, now, ok).1.Some? ==>
        && FirstHolder(s.slots, key) < n
        && LastPut(s.log, key) == Some(s.slots[FirstHolder(s.slots, key)].inserted)
  {
    FirstHolderIs(Unused(n).slots, key, n);
    ReplayKeepsCurrent(Unused(n), calls, 0, key);
  }

  /** The puts a sequence of calls asks for, in order. */
  function PutsOf(calls: seq<Call>): seq<PutRecord> {
    if calls == [] then []
    else
      var c := calls[0];
      (if c.PutCall? && c.body != [] then [PutRecord(c.key, c.body, c.now)] else []) + PutsOf(calls[1..])
  }

  lemma PutsOfFirst(calls: seq<Call>, rest: seq<Call>)
    requires calls != [] && rest == calls[1..]
    ensures var c := calls[0];
      PutsOf(calls) == (if c.PutCall? && c.body != [] then [PutRecord(c.key, c.body, c.now)] else []) + PutsOf(rest)
    ensures rest == [] ==> PutsOf(rest) == []
  {
  }

  lemma PerformLogs(s: State, c: Call)
    ensures Perform(s, c).log
         == s.log + (if c.PutCall? && c.body != [] then [PutRecord(c.key, c.body, c.now)] else [])
  {
  }

  lemma {:induction false} LogIsPuts(s: State, calls: seq<Call>)
    ensures Replay(s, calls).log == s.log + PutsOf(calls)
    decreases |calls|
  {
    hide Perform;
    if calls != [] {
      hide PutsOf;
      PerformLogs(s, calls[0]);
      PutsOfFirst(calls, calls[1..]);
      LogIsPuts(Perform(s, calls[0]), calls[1..]);
    }
  }

  /** No two puts of one key fall in the same second. */
  ghost predicate OnePerSecond(puts: seq<PutRecord>) {
    forall i, j :: 0 <= i < j < |puts| && puts[i].key == puts[j].key ==> puts[i].time != puts[j].time
  }

  /** The bytes of the last put of a key. */
  function LastBody(puts: seq<PutRecord>, key: string): Option<seq<Byte>> {
    if puts == [] then None
    else if puts[|puts| - 1].key == key then Some(puts[|puts| - 1].body)
    else LastBody(puts[..|puts| - 1], key)
  }

  lemma {:induction false} TimeTellsTheBody(puts: seq<PutRecord>, r: PutRecord)
    requires OnePerSecond(puts) && r in puts && LastPut(puts, r.key) == Some(r.time)
    ensures LastBody(puts, r.key) == Some(r.body)
  {
    var n := |puts| - 1;
    var i :| 0 <= i <= n && puts[i] == r;
    if puts[n].key != r.key {
      assert puts[..n][i] == r;
      TimeTellsTheBody(puts[..n], r);
    }
  }

  /**
   When no put runs out of memory and no two puts of a key fall in the same second, a hit is the
   very page that was put last.
   */
  lemma HitIsTheLastPut(n: nat, calls: seq<Call>, key: string, now: int, ok: bool)
    requires ClockRuns(calls, 0) && now >= ClockAfter(calls, 0) && NoFailedPut(calls) && OnePerSecond(PutsOf(calls))
    ensures var answer := Get(Replay(Unused(n), calls).slots, key, now, ok).1;
      answer.Some? ==> answer == LastBody(PutsOf(calls), key)
  {
    var s := Replay(Unused(n), calls);
    LogIsPuts(Unused(n), calls);
    assert s.log == PutsOf(calls);
    HitIsNewestCopy(n, calls, key, now, ok);
    HitIsAsRecentAsLastPut(n, calls, key, now, ok);
    var answer := Get(s.slots, key, now, ok).1;
    if answer.Some? {
      TimeTellsTheBody(s.log, PutRecord(key, answer.value, s.slots[FirstHolder(s.slots, key)].inserted));
    }
  }

  // ----- when the order of puts is lost -------------------------------------------------------------

  /**
   Exactly when the put of another key changes what a key answers: while a key answers, after a
   put of another key a later get answers with different bytes if and only if the put takes the
   slot of the key's first copy, and the key's next copy has not expired by then and differs.  The
   two copies are then of the same second.
   */
  lemma OtherPutChangesAnswerExactly(s: State, last: int, key: string, other: string, body: seq<Byte>,
                                     now: int, later: int)
    requires Inv(s, last) && last <= now <= later && body != [] && other != key
    requires Get(s.slots, key, now, true).1.Some?
    ensures var k := FirstHolder(s.slots, key);
      var next := FirstHolder(s.slots[k := s.slots[k].(body := None)], key);
      var answer := Get(Put(s.slots, other, body, now, true), key, later, true).1;
      && (answer.Some? && answer != s.slots[k].body <==>
            && Target(s.slots, other, now) == k
            && next < |s.slots| && !Expired(s.slots[next].inserted, later) && s.slots[next].body != s.slots[k].body)
      && (answer.Some? && answer != s.slots[k].body ==> s.slots[next].inserted == s.slots[k].inserted)
  {
    var k := FirstHolder(s.slots, key);
    var without := s.slots[k := s.slots[k].(body := None)];
    var next := FirstHolder(without, key);
    PutHasTarget(s, other, now, last);
    var t := Target(s.slots, other, now);
    var after := Put(s.slots, other, body, now, true);
    assert after == s.slots[t := Slot(other, Some(body), now)];
    hide Put;
    if t == k {
      forall j | 0 <= j < |after| ensures after[j].Holds(key) == without[j].Holds(key) {}
      FirstHolderIs(after, key, next);
      assert FirstStop(s.slots, other) != k;
      assert next < |s.slots| ==> s.slots[next].Holds(key);
    } else {
      FirstHolderIs(after, key, k);
    }
  }

  /** The calls lead from an unused shard of `n` slots to `s`, with the clock at `last`. */
  ghost predicate Reached(n: nat, calls: seq<Call>, s: State, last: int) {
    s == Replay(Unused(n), calls) && ClockRuns(calls, 0) && ClockAfter(calls, 0) == last
  }

  lemma {:induction false} CallAppended(s: State, calls: seq<Call>, call: Call, from: int)
    requires ClockRuns(calls, from) && call.now >= ClockAfter(calls, from)
    ensures Replay(s, calls + [call]) == Perform(Replay(s, calls), call)
    ensures ClockRuns(calls + [call], from) && ClockAfter(calls + [call], from) == call.now
    decreases |calls|
  {
    if calls == [] {
      assert calls + [call] == [call];
    } else {
      assert (calls + [call])[1..] == calls[1..] + [call];
      CallAppended(Perform(s, calls[0]), calls[1..], call, calls[0].now);
    }
  }

  lemma Add(n: nat, calls: seq<Call>, s: State, last: int, call: Call) returns (more: seq<Call>)
    requires Reached(n, calls, s, last) && call.now >= last
    ensures more == calls + [call] && Reached(n, more, Perform(s, call), call.now)
    ensures NoFailedPut(calls) && (call.PutCall? ==> call.gotMemory) ==> NoFailedPut(more)
  {
    CallAppended(Unused(n), calls, call, 0);
    more := calls + [call];
  }

  /** A put whose scan stops at slot `k`. */
  lemma PutAt(slots: seq<Slot>, key: string, body: seq<Byte>, now: int, ok: bool, k: nat)
    requires k < |slots| && (slots[k].Holds(key) || slots[k].body.None?) && body != []
    requires forall j :: 0 <= j < k ==> slots[j].body.Some? && slots[j].key != key
    ensures Put(slots, key, body, now, ok)
         == slots[k := if ok then Slot(key, Some(body), now) else slots[k].(body := None)]
  {
    assert FirstStop(slots, key) == k;
  }

  /** Two copies of a key: the newer one, of time `t`, in slot 0 and an older one in slot 1. */
  ghost predicate TwoCopies(s: State, key: string, old1: seq<Byte>, t1: int, new0: seq<Byte>, t: int) {
    && |s.slots| >= 2 && s.slots[0] == Slot(key, Some(new0), t) && s.slots[1] == Slot(key, Some(old1), t1)
    && LastBody(s.log, key) == Some(new0) && LastPut(s.log, key) == Some(t)
  }

  lemma LastAppended(log: seq<PutRecord>, r: PutRecord, key: string)
    ensures LastBody(log + [r], key) == if r.key == key then Some(r.body) else LastBody(log, key)
    ensures LastPut(log + [r], key) == if r.key == key then Some(r.time) else LastPut(log, key)
  {
    assert (log + [r])[..|log|] == log;
  }

  /**
   How duplicates arise: another page in the first slot expires and is dropped after the key has
   been put into the second, and the next put of the key takes the first slot.
   */
  lemma Duplicated(n: nat, key: string, a: string, old1: seq<Byte>, t1: int, new0: seq<Byte>, t: int)
    returns (calls: seq<Call>, s: State)
    requires n >= 2 && a != key && old1 != [] && new0 != [] && 0 <= t1 <= t && t > MAN_RENDER_CACHE_TTL
    ensures Reached(n, calls, s, t) && NoFailedPut(calls) && |s.slots| == n
    ensures TwoCopies(s, key, old1, t1, new0, t) && forall j :: 2 <= j < n ==> s.slots[j] == UNUSED_SLOT
  {
    hide Put, FirstHolder, FirstStop, Target, Replay, ClockRuns, ClockAfter;
    var s0 := Unused(n);
    NothingCalled(n);
    PutAt(s0.slots, a, old1, 0, true, 0);
    calls := Add(n, [], s0, 0, PutCall(a, old1, 0, true));
    var s1 := Perform(s0, PutCall(a, old1, 0, true));
    PutAt(s1.slots, key, old1, t1, true, 1);
    calls := Add(n, calls, s1, 0, PutCall(key, old1, t1, true));
    var s2 := Perform(s1, PutCall(key, old1, t1, true));
    calls, s := Redone(n, calls, s2, key, a, old1, t1, new0, t);
  }

  lemma NothingCalled(n: nat)
    ensures Reached(n, [], Unused(n), 0)
  {
  }

  lemma Redone(n: nat, calls: seq<Call>, s2: State, key: string, a: string, old1: seq<Byte>, t1: int,
               new0: seq<Byte>, t: int)
    returns (more: seq<Call>, s: State)
    requires Reached(n, calls, s2, t1) && NoFailedPut(calls) && |s2.slots| == n >= 2
    requires a != key && new0 != [] && t1 <= t && t > MAN_RENDER_CACHE_TTL
    requires s2.slots[0] == Slot(a, Some(old1), 0) && s2.slots[1] == Slot(key, Some(old1), t1)
    requires forall j :: 2 <= j < n ==> s2.slots[j] == UNUSED_SLOT
    ensures Reached(n, more, s, t) && NoFailedPut(more) && |s.slots| == n
    ensures TwoCopies(s, key, old1, t1, new0, t) && forall j :: 2 <= j < n ==> s.slots[j] == UNUSED_SLOT
  {
    hide Put, FirstStop, Target, Replay, ClockRuns, ClockAfter;
    FirstHolderIs(s2.slots, a, 0);
    more := Add(n, calls, s2, t1, GetCall(a, t, true));
    var s3 := Perform(s2, GetCall(a, t, true));
    PutAt(s3.slots, key, new0, t, true, 0);
    more := Add(n, more, s3, t, PutCall(key, new0, t, true));
    s := Perform(s3, PutCall(key, new0, t, true));
    LastAppended(s3.log, PutRecord(key, new0, t), key);
  }

  /** Names longer than the two given ones, one for each number. */
  function Filler(key: string, b: string, i: nat): (r: string)
    ensures r != key && r != b && |r| == |key| + |b| + 1 + i
  {
    seq(|key| + |b| + 1 + i, _ => 'x')
  }

  /** The unused slots from the third on are filled with other pages in the same second. */
  lemma {:induction false} Fills(n: nat, calls: seq<Call>, s: State, key: string, b: string, old1: seq<Byte>,
                                 new0: seq<Byte>, t: int, m: nat)
    returns (more: seq<Call>, u: State)
    requires Reached(n, calls, s, t) && NoFailedPut(calls) && |s.slots| == n && 2 <= m <= n && old1 != []
    requires TwoCopies(s, key, old1, t, new0, t) && forall j :: 2 <= j < n ==> s.slots[j] == UNUSED_SLOT
    ensures Reached(n, more, u, t) && NoFailedPut(more) && |u.slots| == n && TwoCopies(u, key, old1, t, new0, t)
    ensures forall j :: 2 <= j < m ==> u.slots[j] == Slot(Filler(key, b, j), Some(old1), t)
    ensures forall j :: m <= j < n ==> u.slots[j] == UNUSED_SLOT
  {
    if m == 2 {
      more, u := calls, s;
    } else {
      hide Put, FirstStop, Target, Replay, ClockRuns, ClockAfter, Filler;
      var v;
      more, v := Fills(n, calls, s, key, b, old1, new0, t, m - 1);
      var f := Filler(key, b, m - 1);
      PutAt(v.slots, f, old1, t, true, m - 1);
      more := Add(n, more, v, t, PutCall(f, old1, t, true));
      u := Perform(v, PutCall(f, old1, t, true));
      LastAppended(v.log, PutRecord(f, old1, t), key);
    }
  }

  /**
   The proviso on seconds is needed, whatever the pages and the size of the shard: two puts of a
   key in one second after the first ten minutes can end in two copies, and when the slot of the
   newer one is taken for another key, a get hands out the earlier page.
   */
  lemma SameSecondCanReturnEarlierPage(n: nat, key: string, a: string, b: string, first: seq<Byte>,
                                       second: seq<Byte>, t: int) returns (calls: seq<Call>)
    requires n >= 2 && a != key && b != key && first != [] && second != [] && t > MAN_RENDER_CACHE_TTL
    ensures ClockRuns(calls, 0) && NoFailedPut(calls) && ClockAfter(calls, 0) == t + 1
    ensures LastBody(PutsOf(calls), key) == Some(second)
    ensures Get(Replay(Unused(n), calls).slots, key, t + 2, true).1 == Some(first)
  {
    hide Put, FirstStop, Target, Replay, ClockRuns, ClockAfter, PutsOf, LastBody;
    var s, u;
    calls, s := Duplicated(n, key, a, first, t, second, t);
    calls, s := Fills(n, calls, s, key, b, first, second, t, n);
    EvictsFirst(s.slots, b, first, t);
    calls := Add(n, calls, s, t, PutCall(b, first, t + 1, true));
    u := Perform(s, PutCall(b, first, t + 1, true));
    LastAppended(s.log, PutRecord(b, first, t + 1), key);
    FirstHolderIs(u.slots, key, 1);
    LogIsPuts(Unused(n), calls);
    assert u.log == PutsOf(calls);
  }

  /** A full shard of pages of one second gives its first slot to a new key. */
  lemma EvictsFirst(slots: seq<Slot>, b: string, body: seq<Byte>, t: int)
    requires slots != [] && body != []
    requires forall j :: 0 <= j < |slots| ==> slots[j].body.Some? && slots[j].key != b && slots[j].inserted == t
    ensures Put(slots, b, body, t + 1, true) == slots[0 := Slot(b, Some(body), t + 1)]
  {
    assert FirstStop(slots, b) == |slots|;
    var k := Oldest(InsertTimes(slots));
    assert InsertTimes(slots)[0] == t;
  }

  /**
   The proviso on memory is needed, whatever the pages and the size of the shard: a put that runs
   out of memory drops the newest copy but not an older duplicate, and the next get hands that
   older copy out although newer ones had been put.
   */
  lemma FailedPutExposesOlderCopy(n: nat, key: string, a: string, first: seq<Byte>, second: seq<Byte>,
                                  third: seq<Byte>, t1: int, t: int) returns (calls: seq<Call>)
    requires n >= 2 && a != key && first != [] && second != [] && third != []
    requires 0 <= t1 <= t && t > MAN_RENDER_CACHE_TTL && t + 2 - t1 <= MAN_RENDER_CACHE_TTL
    ensures ClockRuns(calls, 0) && LastPut(PutsOf(calls), key) == Some(t + 1)
    ensures Get(Replay(Unused(n), calls).slots, key, t + 2, true).1 == Some(first)
  {
    hide Put, FirstStop, Target, Replay, ClockRuns, ClockAfter, PutsOf;
    var s, u;
    calls, s := Duplicated(n, key, a, first, t1, second, t);
    PutAt(s.slots, key, third, t + 1, false, 0);
    calls := Add(n, calls, s, t, PutCall(key, third, t + 1, false));
    u := Perform(s, PutCall(key, third, t + 1, false));
    LastAppended(s.log, PutRecord(key, third, t + 1), key);
    FirstHolderIs(u.slots, key, 1);
    LogIsPuts(Unused(n), calls);
  }

  /**
   Exactly when that happens: after a failed put at `now`, a later get answers from an older
   copy if and only if some slot other than the one the put chose holds a copy that has not
   expired by then.
   */
  lemma FailedPutExposesExactly(s: State, last: int, key: string, body: seq<Byte>, now: int, later: int)
    requires Inv(s, last) && last <= now <= later && body != [] && |s.slots| > 0
    ensures Get(Put(s.slots, key, body, now, false), key, later, true).1.Some? <==>
      exists j :: 0 <= j < |s.slots| && j != Target(s.slots, key, now) && s.slots[j].Holds(key)
        && !Expired(s.slots[j].inserted, later)
  {
    PutHasTarget(s, key, now, last);
    var t := Target(s.slots, key, now);
    var after := Put(s.slots, key, body, now, false);
    assert after == s.slots[t := s.slots[t].(body := None)];
    var k := FirstHolder(after, key);
    if j :| 0 <= j < |s.slots| && j != t && s.slots[j].Holds(key) && !Expired(s.slots[j].inserted, later) {
      assert after[j].Holds(key);
      assert k <= j && s.slots[k].Holds(key);
    }
  }
}

/** Names of rendered page variants: validation (src/modules/man/man_query.c) and the cache key. */
module ManKey {
  const KEY_LIMIT := 191

  predicate IsDigit(c: char) { '0' <= c <= '9' }

  predicate IsLower(c: char) { 'a' <= c <= 'z' }

  predicate IsAlnum(c: char) { IsDigit(c) || IsLower(c) || 'A' <= c <= 'Z' }

  predicate TokenChar(c: char) { IsAlnum(c) || c == '.' || c == '_' || c == '-' || c == '+' }

  predicate IsValidToken(s: string) {
    s != "" && forall i :: 0 <= i < |s| ==> TokenChar(s[i])
  }

  predicate IsValidSection(s: string) {
    && 0 < |s| <= 8 && IsDigit(s[0])
    && forall i :: 0 < i < |s| ==> IsLower(s[i])
  }

  predicate IsFormat(s: string) { s in {"html", "pdf", "ps", "md", "txt"} }

  datatype Variant = Variant(area: string, section: string, page: string, format: string)

  /** What the render handler guarantees before it builds a key. */
  predicate Validated(v: Variant) {
    && |v.area| <= 31 && '/' !in v.area
    && IsValidSection(v.section)
    && |v.page| <= 63 && IsValidToken(v.page)
    && IsFormat(v.format)
  }

  /** The text snprintf prints, before the 192-byte buffer cuts it. */
  function FullKey(v: Variant): string {
    v.area + "/" + v.section + "/" + v.page + "." + v.format
  }

  function CacheKey(v: Variant): string {
    if |FullKey(v)| <= KEY_LIMIT then FullKey(v) else FullKey(v)[..KEY_LIMIT]
  }

  /** Splitting at the first separator is unambiguous. */
  lemma SplitFirst(a: string, x: string, b: string, y: string, c: char)
    requires a + [c] + x == b + [c] + y && c !in a && c !in b
    ensures a == b && x == y
  {
    var s := a + [c] + x;
    assert s[|a|] == c && forall i :: 0 <= i < |a| ==> s[i] == a[i];
    assert s[|b|] == c && forall i :: 0 <= i < |b| ==> s[i] == b[i];
    assert a == s[..|a|] && b == s[..|b|];
    assert x == s[|a| + 1..] && y == s[|b| + 1..];
  }

  /** Splitting at the last separator is unambiguous. */
  lemma SplitLast(a: string, x: string, b: string, y: string, c: char)
    requires a + [c] + x == b + [c] + y && c !in x && c !in y
    ensures a == b && x == y
  {
    var s := a + [c] + x;
    assert s[|a|] == c && forall i :: |a| < i < |s| ==> s[i] == x[i - |a| - 1];
    assert s[|b|] == c && forall i :: |b| < i < |s| ==> s[i] == y[i - |b| - 1];
    assert a == s[..|a|] && b == s[..|b|];
    assert x == s[|a| + 1..] && y == s[|b| + 1..];
  }

  lemma FormatFacts(f: string)
    requires IsFormat(f)
    ensures |f| <= 4 && '.' !in f
  {
  }

  /** Validated names always fit the key buffer, so nothing is cut off. */
  lemma KeyFits(v: Variant)
    requires Validated(v)
    ensures CacheKey(v) == FullKey(v)
  {
    FormatFacts(v.format);
  }

  /** The printed text can be taken apart at its separators. */
  lemma PartsAreDetermined(v: Variant, w: Variant)
    requires FullKey(v) == FullKey(w)
    requires '/' !in v.area && '/' !in w.area && '/' !in v.section && '/' !in w.section
    requires '.' !in v.format && '.' !in w.format
    ensures v == w
  {
    var v2, w2 := v.page + ['.'] + v.format, w.page + ['.'] + w.format;
    var v1, w1 := v.section + ['/'] + v2, w.section + ['/'] + w2;
    assert FullKey(v) == v.area + ['/'] + v1 && FullKey(w) == w.area + ['/'] + w1;
    SplitFirst(v.area, v1, w.area, w1, '/');
    SplitFirst(v.section, v2, w.section, w2, '/');
    SplitLast(v.page, v.format, w.page, w.format, '.');
  }

  /** The key names the page variant: two validated variants share a key only if they are equal. */
  lemma KeyIsInjective(v: Variant, w: Variant)
    requires Validated(v) && Validated(w) && CacheKey(v) == CacheKey(w)
    ensures v == w
  {
    KeyFits(v);
    KeyFits(w);
    FormatFacts(v.format);
    FormatFacts(w.format);
    PartsAreDetermined(v, w);
  }
}

/** The cache of rendered pages seen from its callers, who name pages and not keys. */
module ManPages {
  import opened Common
  import opened ManCache
  import opened ManKey

  datatype PageCall =
    | GetPage(page: Variant, now: int, gotMemory: bool)
    | PutPage(page: Variant, body: seq<Byte>, now: int, gotMemory: bool)

  function KeyCall(c: PageCall): Call {
    match c
    case GetPage(page, now, ok) => GetCall(CacheKey(page), now, ok)
    case PutPage(page, body, now, ok) => PutCall(CacheKey(page), body, now, ok)
  }

  function KeyCalls(cs: seq<PageCall>): (r: seq<Call>)
    ensures |r| == |cs| && forall i :: 0 <= i < |cs| ==> r[i] == KeyCall(cs[i])
  {
    seq(|cs|, i requires 0 <= i < |cs| => KeyCall(cs[i]))
  }

  /** The put stored these bytes no more than 600 seconds before `now`. */
  predicate IsPut(c: PageCall, body: seq<Byte>, now: int)
    requires c.PutPage?
  {
    c.body == body && now - c.now <= 600
  }

  lemma {:induction false} PutWasCalled(calls: seq<Call>, r: PutRecord) returns (i: nat)
    requires r in PutsOf(calls)
    ensures i < |calls| && calls[i].PutCall?
    ensures calls[i].key == r.key && calls[i].body == r.body && calls[i].now == r.time
  {
    PutsOfFirst(calls, calls[1..]);
    if r in PutsOf(calls[1..]) {
      i := PutWasCalled(calls[1..], r);
      i := i + 1;
    } else {
      i := 0;
    }
  }

  /**
   A hit is for the same page: over every run whose callers validate their page names, what a get
   answers was put within 600 seconds for that very area, section, page and format.
   */
  lemma HitIsForTheSamePage(n: nat, cs: seq<PageCall>, page: Variant, now: int, ok: bool)
    requires Validated(page) && forall i :: 0 <= i < |cs| ==> Validated(cs[i].page)
    requires ClockRuns(KeyCalls(cs), 0) && now >= ClockAfter(KeyCalls(cs), 0)
    ensures var answer := Get(Replay(Unused(n), KeyCalls(cs)).slots, CacheKey(page), now, ok).1;
      answer.Some? ==>
        exists i :: 0 <= i < |cs| && cs[i].PutPage? && cs[i].page == page && IsPut(cs[i], answer.value, now)
  {
    hide Replay, Get, ClockRuns, ClockAfter, PutsOf, Validated;
    var calls, key := KeyCalls(cs), CacheKey(page);
    var s := Replay(Unused(n), calls);
    HitIsNewestCopy(n, calls, key, now, ok);
    LogIsPuts(Unused(n), calls);
    assert s.log == PutsOf(calls);
    var answer := Get(s.slots, key, now, ok).1;
    if answer.Some? {
      var i := PutWasCalled(calls, PutRecord(key, answer.value, s.slots[FirstHolder(s.slots, key)].inserted));
      assert calls[i] == KeyCall(cs[i]);
      KeyIsInjective(cs[i].page, page);
    }
  }
}
