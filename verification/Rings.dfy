/**
 The sample rings of src/modules/metrics/metrics_snapshot.c and
 src/modules/packages/packages_module.c.  Each ring refines the history of its pushes: it
 holds exactly the last pushes, as many as it has room for, in chronological order.
 */
module Rings {
  import opened Common

  /** The last `n` elements of a history, or all of it when it is shorter. */
  function LastN<T>(s: seq<T>, n: nat): (r: seq<T>)
    ensures |r| == Min(n, |s|)
  {
    s[|s| - Min(n, |s|)..]
  }

  lemma LastNPushed<T>(s: seq<T>, x: T, n: nat)
    requires n > 0
    ensures LastN(s + [x], n) == LastN(s, n - 1) + [x]
    ensures |s| >= n ==> LastN(s, n)[1..] == LastN(s, n - 1)
    ensures |s| < n ==> LastN(s, n) == s == LastN(s, n - 1)
  {
  }

  /** The stored samples of a ring, oldest first; a ring that is not full starts at position 0. */
  function ContentsOf<T>(buf: seq<T>, head: nat, count: nat): (s: seq<T>)
    requires head <= |buf| && count <= |buf|
    ensures |s| == count
  {
    if count < |buf| then buf[..count] else buf[head..] + buf[..head]
  }

  /** The ring holds exactly the last pushes of a history. */
  ghost predicate RingOk<T>(buf: seq<T>, head: nat, count: nat, pushed: seq<T>) {
    && head < |buf| && count <= |buf|
    && (count < |buf| ==> head == count)
    && ContentsOf(buf, head, count) == LastN(pushed, |buf|)
  }

  lemma PushedContents<T>(buf: seq<T>, head: nat, count: nat, x: T)
    requires head < |buf| && count <= |buf| && (count < |buf| ==> head == count)
    ensures var n := |buf|;
      var old' := ContentsOf(buf, head, count);
      ContentsOf(buf[head := x], Wrap(head + 1, n), if count < n then count + 1 else count)
        == (if count < n then old' else old'[1..]) + [x]
  {
  }

  lemma PushKeepsRing<T>(buf: seq<T>, head: nat, count: nat, pushed: seq<T>, x: T)
    requires RingOk(buf, head, count, pushed)
    ensures RingOk(buf[head := x], Wrap(head + 1, |buf|), if count < |buf| then count + 1 else count, pushed + [x])
  {
    PushedContents(buf, head, count, x);
    LastNPushed(pushed, x, |buf|);
  }

  /** Where the copy loop of ring_last finds the `i`-th of the last `m` samples. */
  lemma ForwardIndex<T>(buf: seq<T>, head: nat, count: nat, m: nat, i: nat)
    requires head < |buf| && count <= |buf| && (count < |buf| ==> head == count)
    requires i < m <= count
    ensures buf[ForwardPosition(head, |buf|, m, i)] == ContentsOf(buf, head, count)[count - m + i]
  {
  }

  /** The position `i` steps back from the newest sample of a ring of `n` slots. */
  function BackPosition(head: nat, n: nat, i: nat): (r: nat)
    requires head < n && i < n
    ensures r < n
  {
    Wrap(Wrap(head + n - 1, n) + n - i, n)
  }

  /** Where the copy loop reads the `i`-th of the last `m` samples. */
  function ForwardPosition(head: nat, n: nat, m: nat, i: nat): (r: nat)
    requires head < n && i < m <= n
    ensures r < n
  {
    Wrap(Wrap(head + n - m, n) + i, n)
  }

  /** Where the backward scan of pkg_ring_find finds the `i`-th newest sample. */
  lemma BackwardIndex<T>(buf: seq<T>, head: nat, count: nat, i: nat)
    requires head < |buf| && count <= |buf| && (count < |buf| ==> head == count)
    requires i < count
    ensures buf[BackPosition(head, |buf|, i)] == ContentsOf(buf, head, count)[count - 1 - i]
  {
  }

  class Ring<T(0)> {
    const buf: array<T>
    var head: nat
    var count: nat
    ghost var pushed: seq<T>

    ghost predicate Valid()
      reads this, buf
    {
      RingOk(buf[..], head, count, pushed)
    }

    constructor (n: nat)
      requires n > 0
      ensures Valid() && fresh(buf) && buf.Length == n && pushed == []
    {
      buf := new T[n];
      head, count := 0, 0;
      pushed := [];
    }

    method Push(x: T)
      requires Valid()
      modifies this, buf
      ensures Valid() && pushed == old(pushed) + [x]
    {
      PushKeepsRing(buf[..], head, count, pushed, x);
      buf[head] := x;
      assert buf[..] == old(buf[..])[old(head) := x];
      head := Wrap(head + 1, buf.Length);
      if count < buf.Length { count := count + 1; }
      pushed := pushed + [x];
    }

    /** Copy the last `n` samples in chronological order; returns how many were copied. */
    method Last(ready: bool, n: nat, out: array<T>) returns (m: nat)
      requires Valid() && out != buf && n <= out.Length
      modifies out
      ensures m == if ready then Min(n, Min(|pushed|, buf.Length)) else 0
      ensures out[..m] == LastN(pushed, m)
      ensures out[m..] == old(out[m..])
    {
      if !ready { return 0; }
      ghost var cs := ContentsOf(buf[..], head, count);
      m := if n > count then count else n;
      forall i | 0 <= i < m ensures buf[ForwardPosition(head, buf.Length, m, i)] == cs[count - m + i] {
        ForwardIndex(buf[..], head, count, m, i);
      }
      Copy(cs, m, out);
      assert cs[count - m..] == LastN(pushed, m);
    }

    /** The copy loop of ring_last. */
    method Copy(ghost cs: seq<T>, m: nat, out: array<T>)
      requires head < buf.Length && |cs| == count <= buf.Length && m <= count && m <= out.Length && out != buf
      requires forall i :: 0 <= i < m ==> buf[ForwardPosition(head, buf.Length, m, i)] == cs[count - m + i]
      modifies out
      ensures out[..m] == cs[count - m..] && out[m..] == old(out[m..])
    {
      for i := 0 to m
        invariant forall j :: 0 <= j < m ==> buf[ForwardPosition(head, buf.Length, m, j)] == cs[count - m + j]
        invariant forall j :: 0 <= j < i ==> out[j] == cs[count - m + j]
        invariant out[m..] == old(out[m..])
      {
        out[i] := buf[ForwardPosition(head, buf.Length, m, i)];
      }
    }
  }
}

/** The answer cache of the packages module: a ring of query results searched newest first. */
module PackageRing {
  import opened Common
  import opened Rings

  const ENDPOINT_LIMIT := 15
  const KEY_LIMIT := 255

  /** One stored answer; the text is missing when its copy could not be allocated. */
  datatype Sample = Sample(ts: int, endpoint: string, key: string, json: Option<seq<Byte>>)
  {
    predicate Answers(e: string, k: string) { json.Some? && endpoint == e && key == k }
  }

  const NO_SAMPLE := Sample(0, "", "", None)

  function Cut(s: string, limit: nat): (r: string)
    ensures |s| <= limit ==> r == s
  {
    if |s| <= limit then s else s[..limit]
  }

  /** What pkg_ring_push stores for an answer. */
  function Stored(endpoint: string, key: string, json: seq<Byte>, now: int, gotMemory: bool): Sample {
    Sample(now, Cut(endpoint, ENDPOINT_LIMIT), Cut(key, KEY_LIMIT), if gotMemory then Some(json) else None)
  }

  predicate Usable(s: Sample, endpoint: string, key: string, now: int, maxAge: int) {
    s.Answers(endpoint, key) && now - s.ts <= maxAge
  }

  /** The scan of pkg_ring_find over samples listed oldest first: newest to oldest, keeping the
      first one with the greatest positive time stamp; -1 when there is none. */
  function Scan(cs: seq<Sample>, endpoint: string, key: string, now: int, maxAge: int, best: int, bestTs: int): int {
    if cs == [] then best
    else
      var n := |cs| - 1;
      if Usable(cs[n], endpoint, key, now, maxAge) && cs[n].ts > bestTs
      then Scan(cs[..n], endpoint, key, now, maxAge, n, cs[n].ts)
      else Scan(cs[..n], endpoint, key, now, maxAge, best, bestTs)
  }

  /** One round of the scan. */
  lemma ScanOnce(cs: seq<Sample>, m: nat, endpoint: string, key: string, now: int, maxAge: int, best: int, bestTs: int)
    requires 0 < m <= |cs|
    ensures Scan(cs[..m], endpoint, key, now, maxAge, best, bestTs)
         == if Usable(cs[m - 1], endpoint, key, now, maxAge) && cs[m - 1].ts > bestTs
            then Scan(cs[..m - 1], endpoint, key, now, maxAge, m - 1, cs[m - 1].ts)
            else Scan(cs[..m - 1], endpoint, key, now, maxAge, best, bestTs)
  {
    assert cs[..m][..m - 1] == cs[..m - 1];
  }

  /** The position of the most recent answer for the key, or -1. */
  function MostRecent(cs: seq<Sample>, endpoint: string, key: string): (k: int)
    ensures -1 <= k < |cs|
    ensures k >= 0 ==> cs[k].Answers(endpoint, key)
    ensures forall j :: k < j < |cs| ==> !cs[j].Answers(endpoint, key)
  {
    if cs == [] then -1
    else if cs[|cs| - 1].Answers(endpoint, key) then |cs| - 1
    else MostRecent(cs[..|cs| - 1], endpoint, key)
  }

  ghost predicate ClockRan(cs: seq<Sample>) {
    && (forall i :: 0 <= i < |cs| ==> cs[i].ts > 0)
    && (forall i, j :: 0 <= i < j < |cs| ==> cs[i].ts <= cs[j].ts)
  }

  /** Once something is found nothing older replaces it. */
  lemma {:induction false} ScanKeeps(cs: seq<Sample>, endpoint: string, key: string, now: int, maxAge: int,
                                     best: int, bestTs: int)
    requires forall i :: 0 <= i < |cs| && Usable(cs[i], endpoint, key, now, maxAge) ==> cs[i].ts <= bestTs
    ensures Scan(cs, endpoint, key, now, maxAge, best, bestTs) == best
  {
    if cs != [] { ScanKeeps(cs[..|cs| - 1], endpoint, key, now, maxAge, best, bestTs); }
  }

  /**
   With time stamps that are positive and never go back, the scan finds the most recent answer
   for the key when that answer is young enough, and nothing otherwise.
   */
  lemma {:induction false} ScanFindsMostRecent(cs: seq<Sample>, endpoint: string, key: string, now: int, maxAge: int)
    requires ClockRan(cs)
    ensures var k := MostRecent(cs, endpoint, key);
      Scan(cs, endpoint, key, now, maxAge, -1, 0) == if k >= 0 && now - cs[k].ts <= maxAge then k else -1
  {
    if cs != [] {
      var n := |cs| - 1;
      if cs[n].Answers(endpoint, key) {
        if now - cs[n].ts <= maxAge {
          ScanKeeps(cs[..n], endpoint, key, now, maxAge, n, cs[n].ts);
        } else {
          ScanKeeps(cs[..n], endpoint, key, now, maxAge, -1, 0);
        }
      } else {
        ScanFindsMostRecent(cs[..n], endpoint, key, now, maxAge);
      }
    }
  }

  class PackageRing {
    const buf: array<Sample>
    var head: nat
    var count: nat
    ghost var pushed: seq<Sample>

    ghost predicate Valid()
      reads this, buf
    {
      RingOk(buf[..], head, count, pushed)
    }

    constructor (n: nat)
      requires n > 0
      ensures Valid() && fresh(buf) && buf.Length == n && pushed == []
    {
      buf := new Sample[n](_ => NO_SAMPLE);
      head, count := 0, 0;
      pushed := [];
    }

    /** pkg_ring_push; an empty answer is not stored. */
    method Push(endpoint: string, key: string, json: seq<Byte>, now: int, gotMemory: bool)
      requires Valid()
      modifies this, buf
      ensures Valid()
      ensures pushed == if json == [] then old(pushed)
                        else old(pushed) + [Stored(endpoint, key, json, now, gotMemory)]
    {
      if json == [] { return; }
      var x := Stored(endpoint, key, json, now, gotMemory);
      PushKeepsRing(buf[..], head, count, pushed, x);
      buf[head] := x;
      assert buf[..] == old(buf[..])[old(head) := x];
      head := Wrap(head + 1, buf.Length);
      if count < buf.Length { count := count + 1; }
      pushed := pushed + [x];
    }

    /** The scan loop: the buffer position of the best sample, and its place in the contents. */
    method ScanBack(ghost cs: seq<Sample>, endpoint: string, key: string, now: int, maxAge: int)
      returns (found: int, ghost foundAt: int)
      requires head < buf.Length && |cs| == count <= buf.Length
      requires forall i :: 0 <= i < count ==> buf[BackPosition(head, buf.Length, i)] == cs[count - 1 - i]
      ensures foundAt == Scan(cs, endpoint, key, now, maxAge, -1, 0)
      ensures -1 <= found < buf.Length && -1 <= foundAt < count && (found == -1 <==> foundAt == -1)
      ensures foundAt >= 0 ==> buf[found] == cs[foundAt]
    {
      assert cs[..count] == cs;
      found, foundAt := -1, -1;
      var newestTs := 0;
      var i := 0;
      while i < count
        invariant 0 <= i <= count
        invariant found == -1 <==> foundAt == -1
        invariant -1 <= found < buf.Length && -1 <= foundAt < count
        invariant foundAt >= 0 ==> buf[found] == cs[foundAt]
        invariant Scan(cs, endpoint, key, now, maxAge, -1, 0)
               == Scan(cs[..count - i], endpoint, key, now, maxAge, foundAt, newestTs)
      {
        var idx := BackPosition(head, buf.Length, i);
        var sample := buf[idx];
        ScanOnce(cs, count - i, endpoint, key, now, maxAge, foundAt, newestTs);
        if sample.json.Some? && sample.endpoint == endpoint && sample.key == key && now - sample.ts <= maxAge {
          if sample.ts > newestTs {
            newestTs := sample.ts;
            found := idx;
            foundAt := count - 1 - i;
          }
        }
        i := i + 1;
      }
    }

    /** pkg_ring_find. */
    method Find(endpoint: string, key: string, now: int, maxAge: int, gotMemory: bool)
      returns (result: Option<seq<Byte>>)
      requires Valid()
      ensures var cs := LastN(pushed, buf.Length);
        var k := Scan(cs, endpoint, key, now, maxAge, -1, 0);
        && -1 <= k < |cs|
        && result == if k >= 0 && gotMemory then cs[k].json else None
    {
      if count == 0 { return None; }
      ghost var cs := ContentsOf(buf[..], head, count);
      forall i | 0 <= i < count ensures buf[BackPosition(head, buf.Length, i)] == cs[count - 1 - i] {
        BackwardIndex(buf[..], head, count, i);
      }
      var found, foundAt := ScanBack(cs, endpoint, key, now, maxAge);
      if found >= 0 && gotMemory { return buf[found].json; }
      return None;
    }
  }

  /**
   What a lookup answers, in terms of the whole history of pushes: the most recent stored
   answer for the key among the last `capacity` pushes if it is at most `maxAge` old, and
   nothing otherwise.
   */
  lemma FindAnswersMostRecentPush(pushed: seq<Sample>, capacity: nat, endpoint: string, key: string,
                                  now: int, maxAge: int)
    requires ClockRan(pushed)
    ensures var cs := LastN(pushed, capacity);
      var k := MostRecent(cs, endpoint, key);
      Scan(cs, endpoint, key, now, maxAge, -1, 0) == if k >= 0 && now - cs[k].ts <= maxAge then k else -1
  {
    var cs := LastN(pushed, capacity);
    assert forall i :: 0 <= i < |cs| ==> cs[i] == pushed[|pushed| - |cs| + i];
    ScanFindsMostRecent(cs, endpoint, key, now, maxAge);
  }

  /**
   Keys are compared after truncation on the stored side only: an answer stored under a key of
   more than 255 bytes is handed out for its 255-byte prefix and never for the key itself.
   */
  lemma LongKeyAnswersForItsPrefix(endpoint: string, key: string, json: seq<Byte>, now: int, maxAge: int)
    requires |endpoint| <= ENDPOINT_LIMIT && |key| > KEY_LIMIT && now > 0 && maxAge >= 0
    ensures var cs := [Stored(endpoint, key, json, now, true)];
      && Scan(cs, endpoint, key[..KEY_LIMIT], now, maxAge, -1, 0) == 0
      && Scan(cs, endpoint, key, now, maxAge, -1, 0) == -1
  {
    var cs := [Stored(endpoint, key, json, now, true)];
    ScanFindsMostRecent(cs, endpoint, key[..KEY_LIMIT], now, maxAge);
    ScanFindsMostRecent(cs, endpoint, key, now, maxAge);
    assert MostRecent(cs, endpoint, key[..KEY_LIMIT]) == 0;
  }

  /**
   Exactly which pushes a lookup of their own key finds again: those whose endpoint and key fit
   their fields, whatever was pushed before.
   */
  lemma PushedIsFoundExactly(pushed: seq<Sample>, capacity: nat, endpoint: string, key: string, json: seq<Byte>,
                             now: int, maxAge: int)
    requires capacity > 0 && maxAge >= 0 && ClockRan(pushed + [Stored(endpoint, key, json, now, true)])
    ensures var cs := LastN(pushed + [Stored(endpoint, key, json, now, true)], capacity);
      Scan(cs, endpoint, key, now, maxAge, -1, 0) == |cs| - 1 <==> |endpoint| <= ENDPOINT_LIMIT && |key| <= KEY_LIMIT
  {
    var x := Stored(endpoint, key, json, now, true);
    var cs := LastN(pushed + [x], capacity);
    assert cs[|cs| - 1] == x;
    FindAnswersMostRecentPush(pushed + [x], capacity, endpoint, key, now, maxAge);
    assert x.Answers(endpoint, key) <==> |endpoint| <= ENDPOINT_LIMIT && |key| <= KEY_LIMIT;
  }
}
