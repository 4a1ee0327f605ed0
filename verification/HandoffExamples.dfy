/**
 Runs of the hand-off protocol that show which conditions its results need and that its bounds
 are reached.  Each run exists in every deployment, whatever its sizes: it is put together from
 short stretches (a connection arrives, is queued, is taken by a worker, ...) that lead from any
 suitable state to the state they describe.
 */
module HandoffExamples {
  import opened ConnectionPool
  import opened Handoff
  import opened HandoffProof
  import opened HandoffRuns

  // ----- putting runs together -------------------------------------------------------------------

  /** The steps are a run from `s` to `t`. */
  ghost predicate Leads(c: Config, s: State, steps: seq<Step>, t: State) {
    s.Shaped() && t.Shaped() && IsRun(c, s, steps) && After(c, s, steps) == t
  }

  lemma {:induction false} Extend(c: Config, s: State, steps: seq<Step>, step: Step)
    requires s.Shaped() && IsRun(c, s, steps) && Enabled(c, After(c, s, steps), step)
    ensures IsRun(c, s, steps + [step])
    ensures After(c, s, steps + [step]) == Apply(c, After(c, s, steps), step)
    decreases |steps|
  {
    if steps == [] {
      assert steps + [step] == [step];
    } else {
      assert (steps + [step])[1..] == steps[1..] + [step];
      Extend(c, Apply(c, s, steps[0]), steps[1..], step);
    }
  }

  /** One more step; a safe one keeps ownership exclusive. */
  lemma Go(c: Config, s: State, steps: seq<Step>, t: State, step: Step) returns (more: seq<Step>, u: State)
    requires Leads(c, s, steps, t) && Enabled(c, t, step)
    ensures Leads(c, s, more, u) && u == Apply(c, t, step) && u.pool.Size() == t.pool.Size()
    ensures Exclusive(c, t) && Deployed(c, t.pool.Size()) && !step.SweepClose? ==> Exclusive(c, u)
  {
    Extend(c, s, steps, step);
    more, u := steps + [step], Apply(c, t, step);
    SizeKept(c, t, step);
    if Exclusive(c, t) && Deployed(c, t.pool.Size()) && !step.SweepClose? { StepKeepsExclusive(c, t, step); }
  }

  /** Ownership stays exclusive along a stretch. */
  ghost predicate Preserved(c: Config, s: State, t: State) {
    t.pool.Size() == s.pool.Size() && (Exclusive(c, s) && Deployed(c, s.pool.Size()) ==> Exclusive(c, t))
  }

  // ----- what an allocation and a release do -------------------------------------------------------

  lemma AllocEffect(p: Pool, fd: int, now: int, maxConns: int)
    requires p.WellFormed() && CanAlloc(p, fd, maxConns)
    ensures var (q, a) := Alloc(p, fd, now, maxConns);
      && 0 <= a < p.Size() && |p.slots| == p.Size() && p.free != [] && a == p.free[|p.free| - 1]
      && q.connections == p.connections[fd := a]
      && q.slots == p.slots[a := Conn(fd, p.connGen[fd], now, now, 0, 0)]
      && q.free == p.free[..|p.free| - 1] && q.active == p.active + 1
      && (forall f :: p.Serves(f) ==> p.connections[f] != a)
  {
  }

  lemma FirstAlloc(n: nat, fd: int, maxConns: int)
    requires 0 <= fd < n && maxConns > 0
    ensures CanAlloc(Initial(n), fd, maxConns) && forall f :: !Initial(n).Serves(f)
  {
    FreeStackNotExhausted(Initial(n), fd);
  }

  lemma OnlyIdle(p: Pool, now: int, timeout: int, fd: int)
    requires p.WellFormed() && forall f :: IsIdle(p, now, timeout, f) <==> f == fd
    ensures IdleFds(p, now, timeout, 0) == [fd]
  {
    IdleFdsExactly(p, now, timeout, 0);
    var r := IdleFds(p, now, timeout, 0);
    assert IsIdle(p, now, timeout, fd);
    assert fd in r;
    assert |r| > 1 ==> r[0] < r[1];
    forall i | 0 <= i < |r| ensures r[i] == fd { assert r[i] in r; }
  }

  // ----- stretches ------------------------------------------------------------------------------------

  function ArrivedAt(c: Config, s: State, fd: int, now: int): State
    requires s.Shaped() && CanAlloc(s.pool, fd, c.maxConns)
  {
    AllocEffect(s.pool, fd, now, c.maxConns);
    var (q, a) := Alloc(s.pool, fd, now, c.maxConns);
    s.(pool := q, open := s.open + {fd}, knotes := s.knotes[fd := Knote(a, true)], dispatched := s.dispatched[a := 0])
  }

  /** A connection is accepted and armed. */
  lemma Arrives(c: Config, s0: State, steps: seq<Step>, s: State, fd: int, now: int)
    returns (more: seq<Step>, t: State)
    requires Leads(c, s0, steps, s) && s.disp == Serving && fd !in s.open && CanAlloc(s.pool, fd, c.maxConns)
    ensures Leads(c, s0, more, t) && t == ArrivedAt(c, s, fd, now) && Preserved(c, s, t)
  {
    hide IsRun, After, Exclusive, Alloc, Pool.WellFormed;
    AllocEffect(s.pool, fd, now, c.maxConns);
    var u;
    more, u := Go(c, s0, steps, s, Accept(fd, now));
    more, t := Go(c, s0, more, u, Register(true));
  }

  function Delivered(s: State, fd: int, a: int): State
    requires s.Shaped() && s.Slot(fd)
  {
    s.(knotes := s.knotes[fd := Knote(a, false)], batch := [Event(fd, a, false)], disp := Serving)
  }

  lemma Delivers(c: Config, s0: State, steps: seq<Step>, s: State, fd: int, a: int)
    returns (more: seq<Step>, t: State)
    requires Leads(c, s0, steps, s) && s.disp == Polling && s.batch == []
    requires s.Slot(fd) && s.knotes[fd] == Knote(a, true)
    ensures Leads(c, s0, more, t) && t == Delivered(s, fd, a) && Preserved(c, s, t)
  {
    hide IsRun, After, Exclusive, Pool.WellFormed;
    var u;
    more, u := Go(c, s0, steps, s, Deliver(fd, false));
    assert [] + [Event(fd, a, false)] == [Event(fd, a, false)];
    more, t := Go(c, s0, more, u, SkipSweep);
  }

  lemma ChecksAndPushes(c: Config, s0: State, steps: seq<Step>, s: State, fd: int, a: int)
    returns (more: seq<Step>, t: State)
    requires Leads(c, s0, steps, s) && s.disp == Serving && s.batch == [Event(fd, a, false)]
    requires s.Slot(fd) && s.Slot(a) && s.pool.connections[fd] == a && |s.queue| < c.queueCapacity
    ensures Leads(c, s0, more, t) && t == s.(batch := [], queue := s.queue + [a]) && Preserved(c, s, t)
  {
    hide IsRun, After, Exclusive, Pool.WellFormed;
    var u;
    more, u := Checks(c, s0, steps, s, fd, a);
    more, t := Go(c, s0, more, u, Enqueue);
  }

  lemma Checks(c: Config, s0: State, steps: seq<Step>, s: State, fd: int, a: int)
    returns (more: seq<Step>, t: State)
    requires Leads(c, s0, steps, s) && s.disp == Serving && s.batch == [Event(fd, a, false)]
    requires s.Slot(fd) && s.Slot(a) && s.pool.connections[fd] == a
    ensures Leads(c, s0, more, t) && t == s.(batch := [], disp := Checked(fd, a, false)) && Preserved(c, s, t)
  {
    hide IsRun, After, Exclusive;
    StaleIffNotServing(s.pool, fd, a);
    hide Pool.WellFormed, IsStale;
    assert [Event(fd, a, false)][1..] == [];
    more, t := Go(c, s0, steps, s, CheckEvent);
  }

  function Queued(s: State, fd: int, a: int): State
    requires s.Shaped() && s.Slot(fd)
  {
    s.(knotes := s.knotes[fd := Knote(a, false)], queue := s.queue + [a])
  }

  /** An armed connection is delivered and its pointer is queued. */
  lemma Queues(c: Config, s0: State, steps: seq<Step>, s: State, fd: int, a: int)
    returns (more: seq<Step>, t: State)
    requires Leads(c, s0, steps, s) && s.disp == Polling && s.batch == [] && |s.queue| < c.queueCapacity
    requires s.Slot(fd) && s.Slot(a) && s.knotes[fd] == Knote(a, true) && s.pool.connections[fd] == a
    ensures Leads(c, s0, more, t) && t == Queued(s, fd, a) && Preserved(c, s, t)
  {
    hide IsRun, After, Exclusive, Pool.WellFormed;
    var u;
    more, u := Delivers(c, s0, steps, s, fd, a);
    more, u := ChecksAndPushes(c, s0, more, u, fd, a);
    more, t := Go(c, s0, more, u, EndBatch);
  }

  function Taken(s: State, w: int, fd: int): State
    requires s.Worker(w) && s.queue != []
  {
    s.(queue := s.queue[1..], workers := s.workers[w := Receiving(s.queue[0], fd)])
  }

  /** A worker takes the oldest pointer off the queue and finds it current. */
  lemma Takes(c: Config, s0: State, steps: seq<Step>, s: State, w: int, fd: int)
    returns (more: seq<Step>, t: State)
    requires Leads(c, s0, steps, s) && s.Worker(w) && s.workers[w] == Idle && s.queue != []
    requires s.Slot(fd) && s.Slot(s.queue[0]) && s.pool.connections[fd] == s.queue[0]
    ensures Leads(c, s0, more, t) && t == Taken(s, w, fd) && Preserved(c, s, t)
  {
    hide IsRun, After, Exclusive;
    var a := s.queue[0];
    assert s.pool.slots[a].fd == fd;
    StaleIffNotServing(s.pool, fd, a);
    hide Pool.WellFormed;
    var u;
    more, u := Go(c, s0, steps, s, Pop(w));
    more, t := Go(c, s0, more, u, CheckPopped(w));
    assert u.workers[w := Receiving(a, fd)] == s.workers[w := Receiving(a, fd)];
  }

  function Counted(s: State, w: int, a: int, fd: int, n: nat, now: int): State
    requires s.Shaped() && s.Slot(a) && s.Worker(w)
  {
    Touch(s, a, now, s.pool.slots[a].bytesRead + n, s.pool.slots[a].requestsServed)
      .(workers := s.workers[w := Examining(a, fd)])
  }

  /** A worker receives some bytes within the limit. */
  lemma Receives(c: Config, s0: State, steps: seq<Step>, s: State, w: int, a: int, fd: int, now: int)
    returns (more: seq<Step>, t: State)
    requires Leads(c, s0, steps, s) && s.Worker(w) && s.workers[w] == Receiving(a, fd) && s.Slot(a)
    requires s.pool.slots[a].bytesRead == 0 && 2 <= c.maxReqSize <= c.bufferSize
    ensures Leads(c, s0, more, t) && t == Counted(s, w, a, fd, 1, now) && Preserved(c, s, t)
  {
    hide IsRun, After, Exclusive, Pool.WellFormed;
    var u;
    more, u := Go(c, s0, steps, s, RecvCall(w));
    more, t := Go(c, s0, more, u, RecvDone(w, 1, now));
    assert t.workers == s.workers[w := Examining(a, fd)];
  }

  function Handled(s: State, w: int, a: int, fd: int, now: int): State
    requires s.Shaped() && s.Slot(a) && s.Worker(w)
  {
    Counted(s, w, a, fd, 1, now)
      .(workers := s.workers[w := Handling(a, fd)], dispatched := s.dispatched[a := s.dispatched[a] + 1])
  }

  /** A worker receives a byte that completes a request and starts its handler. */
  lemma Handles(c: Config, s0: State, steps: seq<Step>, s: State, w: int, a: int, fd: int, now: int)
    returns (more: seq<Step>, t: State)
    requires Leads(c, s0, steps, s) && s.Worker(w) && s.workers[w] == Receiving(a, fd) && s.Slot(a)
    requires s.pool.slots[a].bytesRead == 0 && 2 <= c.maxReqSize <= c.bufferSize
    ensures Leads(c, s0, more, t) && t == Handled(s, w, a, fd, now) && Preserved(c, s, t)
  {
    hide IsRun, After, Exclusive, Pool.WellFormed;
    var u;
    more, u := Receives(c, s0, steps, s, w, a, fd, now);
    more, t := Go(c, s0, more, u, Examine(w, Request));
    assert t.workers == s.workers[w := Handling(a, fd)];
  }

  /** The first turn of the loop finds nothing to do. */
  lemma Begins(c: Config, n: nat, workers: nat) returns (steps: seq<Step>, t: State)
    ensures Leads(c, InitialState(c, n, workers), steps, t)
    ensures t == InitialState(c, n, workers).(disp := Serving)
    ensures t.pool == Initial(n) && t.pool.Size() == n && t.open == c.own && |t.workers| == workers
    ensures t.batch == [] && t.queue == [] && t.files == {} && forall w :: 0 <= w < workers ==> t.workers[w] == Idle
    ensures Deployed(c, n) ==> Exclusive(c, t)
  {
    var s0 := InitialState(c, n, workers);
    if Deployed(c, n) { InitialExclusive(c, n, workers); }
    hide Exclusive;
    assert Leads(c, s0, [], s0);
    steps, t := Go(c, s0, [], s0, SkipSweep);
  }

  function Swept(s: State, fd: int): State
    requires s.Shaped() && s.Slot(fd)
  {
    s.(pool := Free(s.pool, fd), open := s.open - {fd}, knotes := s.knotes[fd := NoKnote], disp := Serving)
  }

  /** A sweep closes and frees the one number it has chosen. */
  lemma Sweeps(c: Config, s0: State, steps: seq<Step>, s: State, fd: int)
    returns (more: seq<Step>, t: State)
    requires Leads(c, s0, steps, s) && s.disp == Sweeping([fd]) && s.Slot(fd)
    ensures Leads(c, s0, more, t) && t == Swept(s, fd) && t.pool.Size() == s.pool.Size()
  {
    hide IsRun, After, Exclusive, Free, Pool.WellFormed;
    var u;
    more, u := ClosesChosen(c, s0, steps, s, fd);
    more, u := Go(c, s0, more, u, SweepFree);
    more, t := Go(c, s0, more, u, EndSweep);
  }

  lemma ClosesChosen(c: Config, s0: State, steps: seq<Step>, s: State, fd: int)
    returns (more: seq<Step>, t: State)
    requires Leads(c, s0, steps, s) && s.disp == Sweeping([fd]) && s.Slot(fd)
    ensures Leads(c, s0, more, t)
    ensures t == s.(open := s.open - {fd}, knotes := s.knotes[fd := NoKnote],
                    disp := SweepClosed(fd, s.pool.connections[fd], []))
  {
    hide IsRun, After, Exclusive, Free, Pool.WellFormed;
    assert [fd][1..] == [];
    more, t := Go(c, s0, steps, s, SweepClose);
  }

  // ----- sharing a connection ------------------------------------------------------------------------

  /** A deployment that can serve descriptor `fd`. */
  ghost predicate CanServe(c: Config, n: nat, fd: int) {
    Deployed(c, n) && 0 <= fd < n && fd !in c.own && c.maxConns > 0
  }

  /** One connection is open on `fd`, served by record `a`, armed, and idle since time 0. */
  ghost predicate OneArmed(c: Config, s: State, fd: int, a: int) {
    && s.Shaped() && s.disp == Polling && s.batch == [] && s.queue == [] && s.files == {}
    && s.Slot(fd) && s.Slot(a) && s.knotes[fd] == Knote(a, true)
    && s.pool.connections[fd] == a && s.pool.active <= c.maxConns && s.open == c.own + {fd}
    && (forall f :: s.pool.Serves(f) ==> f == fd)
    && s.pool.slots[a] == Conn(fd, s.pool.connGen[fd], 0, 0, 0, 0) && s.dispatched[a] == 0
    && (forall w :: 0 <= w < |s.workers| ==> s.workers[w] == Idle)
  }

  lemma FirstArrives(c: Config, n: nat, workers: nat, fd: int) returns (steps: seq<Step>, s: State, a: int)
    requires CanServe(c, n, fd)
    ensures Leads(c, InitialState(c, n, workers), steps, s) && OneArmed(c, s, fd, a)
    ensures s.pool.Size() == n && |s.workers| == workers && Exclusive(c, s)
  {
    hide IsRun, After, Exclusive;
    var s0 := InitialState(c, n, workers);
    var t;
    steps, t := Begins(c, n, workers);
    FirstAlloc(n, fd, c.maxConns);
    AllocEffect(t.pool, fd, 0, c.maxConns);
    a := Alloc(t.pool, fd, 0, c.maxConns).1;
    hide Alloc, Initial;
    steps, t := Arrives(c, s0, steps, t, fd, 0);
    steps, s := Go(c, s0, steps, t, EndBatch);
  }

  /** An idle sweep takes the connection although its pointer is queued; the pointer stays queued. */
  lemma SweptWhileQueued(c: Config, n: nat, workers: nat, fd: int)
    returns (steps: seq<Step>, t: State, s: State, a: int)
    requires CanServe(c, n, fd)
    ensures OneArmed(c, s, fd, a) && s.pool.Size() == n && |s.workers| == workers
    ensures Leads(c, InitialState(c, n, workers), steps, t) && t == Swept(Queued(s, fd, a), fd)
  {
    hide IsRun, After, Exclusive, Alloc, Free, InitialState;
    var s0 := InitialState(c, n, workers);
    var u;
    steps, s, a := FirstArrives(c, n, workers, fd);
    steps, u := Queues(c, s0, steps, s, fd, a);
    OnlyIdle(u.pool, 1, 0, fd);
    steps, u := Go(c, s0, steps, u, BeginSweep(1, 0));
    steps, t := Sweeps(c, s0, steps, u, fd);
  }

  /** The number is accepted again: the same record, whose pointer is now queued twice. */
  lemma QueuedTwice(c: Config, n: nat, workers: nat, fd: int)
    returns (steps: seq<Step>, t: State, a: int)
    requires CanServe(c, n, fd) && c.queueCapacity >= 2
    ensures Leads(c, InitialState(c, n, workers), steps, t) && t.pool.Size() == n && |t.workers| == workers
    ensures t.Slot(a) && t.queue == [a, a] && t.pool.connections[fd] == a && t.pool.slots[a].bytesRead == 0
    ensures forall w :: 0 <= w < |t.workers| ==> t.workers[w] == Idle
  {
    hide IsRun, After, Exclusive, InitialState;
    var s0 := InitialState(c, n, workers);
    var s, u;
    steps, u, s, a := SweptWhileQueued(c, n, workers, fd);
    RecycledPointerIsAccepted(s.pool, fd, 1, c.maxConns);
    assert CanAlloc(u.pool, fd, c.maxConns);
    AllocEffect(u.pool, fd, 1, c.maxConns);
    hide Alloc, Free, Pool.WellFormed;
    steps, t := ArrivesAndQueues(c, s0, steps, u, fd, a);
    assert ([] + [a]) + [a] == [a, a];
  }

  lemma ArrivesAndQueues(c: Config, s0: State, steps: seq<Step>, s: State, fd: int, a: int)
    returns (more: seq<Step>, t: State)
    requires Leads(c, s0, steps, s) && s.disp == Serving && s.batch == [] && fd !in s.open
    requires CanAlloc(s.pool, fd, c.maxConns) && |s.queue| < c.queueCapacity
    requires a == Alloc(s.pool, fd, 1, c.maxConns).1
    ensures Leads(c, s0, more, t) && t.pool == Alloc(s.pool, fd, 1, c.maxConns).0
    ensures t.queue == s.queue + [a] && t.workers == s.workers
  {
    hide IsRun, After, Exclusive;
    AllocEffect(s.pool, fd, 1, c.maxConns);
    hide Alloc, Pool.WellFormed;
    var u;
    more, u := Arrives(c, s0, steps, s, fd, 1);
    more, u := Go(c, s0, more, u, EndBatch);
    more, t := Queues(c, s0, more, u, fd, a);
  }

  lemma SharedRun(c: Config, n: nat, workers: nat, fd: int) returns (steps: seq<Step>, t: State, a: int)
    requires CanServe(c, n, fd) && c.queueCapacity >= 2 && workers >= 2
    ensures Leads(c, InitialState(c, n, workers), steps, t) && t.pool.Size() == n && |t.workers| == workers
    ensures t.Slot(a) && t.pool.slots[a].bytesRead == 0
    ensures t.workers[0] == t.workers[1] == Receiving(a, fd)
  {
    hide IsRun, After, Exclusive, InitialState, Pool.WellFormed;
    var s0 := InitialState(c, n, workers);
    var u;
    steps, u, a := QueuedTwice(c, n, workers, fd);
    assert [a, a][1..] == [a];
    steps, u := Takes(c, s0, steps, u, 0, fd);
    steps, t := Takes(c, s0, steps, u, 1, fd);
  }

  /**
   Without the condition on sweeps exclusive ownership fails in every deployment with two workers:
   there is a run in which an idle sweep frees a queued connection, the record is allocated again
   and queued again, and two workers then pass the staleness test and receive on the same
   connection at the same time.
   */
  lemma SweepingAQueuedConnectionSharesIt(c: Config, n: nat, workers: nat, fd: int)
    returns (steps: seq<Step>, a: int)
    requires CanServe(c, n, fd) && c.queueCapacity >= 2 && workers >= 2
    ensures IsRun(c, InitialState(c, n, workers), steps)
    ensures var t := After(c, InitialState(c, n, workers), steps);
      |t.workers| == workers && t.workers[0] == t.workers[1] == Receiving(a, fd)
    ensures !SweepsHarmless(c, InitialState(c, n, workers), steps)
  {
    hide IsRun, After;
    var t;
    steps, t, a := SharedRun(c, n, workers, fd);
    if SweepsHarmless(c, InitialState(c, n, workers), steps) {
      ExclusiveOwnership(c, n, workers, steps);
    }
  }

  /**
   What the sharing leads to: both workers compute their length from the same count, both receive
   that much, and the count reaches twice the request limit less two.  Where that is the size of
   the buffer or more, as with the default limit, the terminator is written outside the record's
   buffer, and nothing is known of the pool from then on.
   */
  lemma SharingOverrunsTheBuffer(c: Config, n: nat, workers: nat, fd: int) returns (steps: seq<Step>, a: int)
    requires CanServe(c, n, fd) && c.queueCapacity >= 2 && workers >= 2
    requires c.maxReqSize >= 2 && 2 * (c.maxReqSize - 1) >= c.bufferSize
    ensures IsRun(c, InitialState(c, n, workers), steps)
    ensures var t := After(c, InitialState(c, n, workers), steps);
      t.Slot(a) && t.pool.slots[a].bytesRead == 2 * (c.maxReqSize - 1) && !t.intact
    ensures !WithinBuffers(c, InitialState(c, n, workers), steps)
  {
    var s, t;
    steps, s, a := SharedRun(c, n, workers, fd);
    steps, t := BothReceive(c, InitialState(c, n, workers), steps, s, a, fd);
    PoolSoundInEveryRun(c, InitialState(c, n, workers), steps);
  }

  lemma BothReceive(c: Config, s0: State, steps: seq<Step>, s: State, a: int, fd: int)
    returns (more: seq<Step>, t: State)
    requires Leads(c, s0, steps, s) && s.Slot(a) && |s.workers| >= 2
    requires s.workers[0] == s.workers[1] == Receiving(a, fd) && s.pool.slots[a].bytesRead == 0
    requires c.maxReqSize >= 2 && 2 * (c.maxReqSize - 1) >= c.bufferSize
    ensures Leads(c, s0, more, t) && t.Slot(a) && t.pool.slots[a].bytesRead == 2 * (c.maxReqSize - 1) && !t.intact
  {
    hide IsRun, After, Exclusive, Pool.WellFormed;
    var u;
    more, u := BothAsk(c, s0, steps, s, a, fd);
    more, u := GetsAll(c, s0, more, u, 0, a, fd);
    more, t := GetsAll(c, s0, more, u, 1, a, fd);
  }

  lemma BothAsk(c: Config, s0: State, steps: seq<Step>, s: State, a: int, fd: int)
    returns (more: seq<Step>, t: State)
    requires Leads(c, s0, steps, s) && s.Slot(a) && |s.workers| >= 2 && c.maxReqSize >= 2
    requires s.workers[0] == s.workers[1] == Receiving(a, fd) && s.pool.slots[a].bytesRead == 0
    ensures Leads(c, s0, more, t) && t == s.(workers := t.workers) && |t.workers| == |s.workers|
    ensures t.workers[0] == t.workers[1] == Awaiting(a, fd, 0, c.maxReqSize - 1)
  {
    hide IsRun, After, Exclusive, Pool.WellFormed;
    var u;
    more, u := Go(c, s0, steps, s, RecvCall(0));
    more, t := Go(c, s0, more, u, RecvCall(1));
  }

  /** A worker gets all it asked for, whatever has been counted in the meantime. */
  lemma GetsAll(c: Config, s0: State, steps: seq<Step>, s: State, w: int, a: int, fd: int)
    returns (more: seq<Step>, t: State)
    requires Leads(c, s0, steps, s) && s.Slot(a) && s.Worker(w) && c.maxReqSize >= 2
    requires s.workers[w] == Awaiting(a, fd, 0, c.maxReqSize - 1)
    ensures Leads(c, s0, more, t) && t.Slot(a) && t.pool.Size() == s.pool.Size() && |t.workers| == |s.workers|
    ensures t.pool.slots[a].bytesRead == s.pool.slots[a].bytesRead + c.maxReqSize - 1
    ensures t.pool.slots[a].bytesRead >= c.bufferSize ==> !t.intact
    ensures forall v :: 0 <= v < |s.workers| && v != w ==> t.workers[v] == s.workers[v]
  {
    hide IsRun, After, Exclusive;
    more, t := Go(c, s0, steps, s, RecvDone(w, c.maxReqSize - 1, 1));
  }

  // ----- numbers are closed by value -----------------------------------------------------------------

  /**
   Two connections, on `f` idle since time 0 and on `g`, have been taken by the first two workers;
   the second one is handling a request since time 1.
   */
  ghost predicate OneHandling(c: Config, s: State, f: int, g: int, a: int, b: int) {
    && s.Shaped() && s.disp == Polling && s.batch == [] && s.queue == [] && s.files == {} && |s.workers| >= 2
    && f != g && s.Slot(f) && s.Slot(g) && s.Slot(a) && s.Slot(b)
    && s.pool.connections[f] == a && s.pool.connections[g] == b
    && s.workers[0] == Receiving(a, f) && s.workers[1] == Handling(b, g)
    && (forall h :: s.pool.Serves(h) ==> h == f || h == g)
    && s.pool.slots[a].lastActivity == 0 && s.pool.slots[b].lastActivity == 1
    && s.pool.active <= c.maxConns
  }

  ghost predicate CanServeTwo(c: Config, n: nat, f: int, g: int) {
    && CanServe(c, n, f) && 0 <= g < n && g != f && g !in c.own
    && c.maxConns >= 2 && c.queueCapacity >= 2 && c.maxReqSize >= 2
  }

  /** Two connections armed: on `f` and on `g`, both since time 0. */
  ghost predicate TwoArmed(c: Config, s: State, f: int, g: int, a: int, b: int) {
    && s.Shaped() && s.disp == Polling && s.batch == [] && s.queue == [] && s.files == {}
    && f != g && a != b && s.Slot(f) && s.Slot(g) && s.Slot(a) && s.Slot(b)
    && s.pool.connections[f] == a && s.pool.connections[g] == b
    && s.knotes[f] == Knote(a, true) && s.knotes[g] == Knote(b, true)
    && (forall h :: s.pool.Serves(h) ==> h == f || h == g)
    && s.pool.slots[a].lastActivity == 0 && s.pool.slots[b].bytesRead == 0
    && s.pool.active <= c.maxConns
    && (forall w :: 0 <= w < |s.workers| ==> s.workers[w] == Idle)
  }

  lemma SecondAlloc(c: Config, s: State, f: int, a: int, g: int)
    requires OneArmed(c, s, f, a) && s.Slot(g) && g != f && c.maxConns >= 2
    ensures CanAlloc(s.pool, g, c.maxConns) && Alloc(s.pool, g, 0, c.maxConns).1 != a
    ensures Alloc(s.pool, g, 0, c.maxConns).0.active <= c.maxConns
  {
    assert s.pool.Serves(f);
    forall h | h in s.pool.ServedFds() ensures h == f { assert s.pool.Serves(h); }
    assert s.pool.ServedFds() == {f};
    FreeStackNotExhausted(s.pool, g);
    AllocEffect(s.pool, g, 0, c.maxConns);
  }

  lemma TwoArrive(c: Config, n: nat, workers: nat, f: int, g: int)
    returns (steps: seq<Step>, t: State, a: int, b: int)
    requires CanServeTwo(c, n, f, g)
    ensures Leads(c, InitialState(c, n, workers), steps, t) && TwoArmed(c, t, f, g, a, b)
    ensures t.pool.Size() == n && |t.workers| == workers && Exclusive(c, t)
  {
    hide IsRun, After, Exclusive, InitialState;
    var s0 := InitialState(c, n, workers);
    var s;
    steps, s, a := FirstArrives(c, n, workers, f);
    SecondAlloc(c, s, f, a, g);
    assert g !in s.open;
    b := Alloc(s.pool, g, 0, c.maxConns).1;
    BecomesTwo(c, s, f, a, g, b);
    hide Alloc, OneArmed, TwoArmed, Pool.WellFormed;
    steps, t := ArrivesIdle(c, s0, steps, s, g);
  }

  lemma ArrivesIdle(c: Config, s0: State, steps: seq<Step>, s: State, g: int)
    returns (more: seq<Step>, t: State)
    requires Leads(c, s0, steps, s) && s.disp == Polling && s.batch == [] && g !in s.open
    requires CanAlloc(s.pool, g, c.maxConns)
    ensures Leads(c, s0, more, t) && t == ArrivedAt(c, s, g, 0) && Preserved(c, s, t)
  {
    hide IsRun, After, Exclusive, Alloc, Pool.WellFormed;
    AllocEffect(s.pool, g, 0, c.maxConns);
    var u;
    more, u := Go(c, s0, steps, s, SkipSweep);
    more, u := Arrives(c, s0, more, u, g, 0);
    more, t := EndsBatch(c, s0, more, u);
  }

  lemma EndsBatch(c: Config, s0: State, steps: seq<Step>, s: State) returns (more: seq<Step>, t: State)
    requires Leads(c, s0, steps, s) && s.disp == Serving && s.batch == []
    ensures Leads(c, s0, more, t) && t == s.(disp := Polling) && Preserved(c, s, t)
  {
    hide IsRun, After, Exclusive, Pool.WellFormed;
    more, t := Go(c, s0, steps, s, EndBatch);
  }

  lemma BecomesTwo(c: Config, s: State, f: int, a: int, g: int, b: int)
    requires OneArmed(c, s, f, a) && s.Slot(g) && g != f && c.maxConns >= 2 && CanAlloc(s.pool, g, c.maxConns)
    requires b == Alloc(s.pool, g, 0, c.maxConns).1
    ensures s.disp == Polling && s.batch == [] && ArrivedAt(c, s, g, 0).Shaped()
    ensures TwoArmed(c, ArrivedAt(c, s, g, 0), f, g, a, b)
  {
    SecondAlloc(c, s, f, a, g);
    AllocEffect(s.pool, g, 0, c.maxConns);
    var q := Alloc(s.pool, g, 0, c.maxConns).0;
    forall h | q.Serves(h) ensures h == f || h == g { assert h != g ==> s.pool.Serves(h); }
  }

  lemma TwoTaken(c: Config, n: nat, workers: nat, f: int, g: int)
    returns (steps: seq<Step>, t: State, s: State, a: int, b: int)
    requires CanServeTwo(c, n, f, g) && workers >= 2
    ensures Leads(c, InitialState(c, n, workers), steps, t) && TwoArmed(c, s, f, g, a, b) && Exclusive(c, t)
    ensures t.pool == s.pool && s.pool.Size() == n && |t.workers| == workers
    ensures t.disp == Polling && t.batch == [] && t.queue == [] && t.files == {}
    ensures t.workers[0] == Receiving(a, f) && t.workers[1] == Receiving(b, g)
  {
    hide IsRun, After, Exclusive, InitialState, Pool.WellFormed;
    var s0 := InitialState(c, n, workers);
    steps, s, a, b := TwoArrive(c, n, workers, f, g);
    steps, t := Queues(c, s0, steps, s, f, a);
    steps, t := Queues(c, s0, steps, t, g, b);
    assert t.queue == [a, b] && [a, b][1..] == [b] && [b][1..] == [];
    steps, t := Takes(c, s0, steps, t, 0, f);
    steps, t := Takes(c, s0, steps, t, 1, g);
  }

  lemma SecondHandles(c: Config, n: nat, workers: nat, f: int, g: int)
    returns (steps: seq<Step>, t: State, a: int, b: int)
    requires CanServeTwo(c, n, f, g) && workers >= 2
    ensures Leads(c, InitialState(c, n, workers), steps, t) && OneHandling(c, t, f, g, a, b)
    ensures t.pool.Size() == n && |t.workers| == workers && Exclusive(c, t)
  {
    hide IsRun, After, Exclusive, InitialState;
    var s0 := InitialState(c, n, workers);
    var s;
    var u;
    steps, u, s, a, b := TwoTaken(c, n, workers, f, g);
    BecomesHandling(c, s, u, f, g, a, b);
    hide TwoArmed, OneHandling, Pool.WellFormed;
    steps, t := Handles(c, s0, steps, u, 1, b, g, 1);
  }

  lemma BecomesHandling(c: Config, s: State, u: State, f: int, g: int, a: int, b: int)
    requires TwoArmed(c, s, f, g, a, b) && u.Shaped() && u.pool == s.pool && |u.workers| >= 2
    requires u.disp == Polling && u.batch == [] && u.queue == [] && u.files == {}
    requires u.workers[0] == Receiving(a, f) && u.workers[1] == Receiving(b, g)
    ensures u.Slot(b) && u.pool.slots[b].bytesRead == 0
    ensures OneHandling(c, Handled(u, 1, b, g, 1), f, g, a, b)
  {
    var t := Handled(u, 1, b, g, 1);
    forall h | t.pool.Serves(h) ensures h == f || h == g { assert s.pool.Serves(h); }
  }

  /** The worker that receives on `f` finds its peer gone and closes and frees the connection. */
  function GivenUp(s: State, f: int): State
    requires s.Shaped() && s.Slot(f) && s.Worker(0)
  {
    s.(pool := Free(s.pool, f), open := s.open - {f}, knotes := s.knotes[f := NoKnote],
       workers := s.workers[0 := Idle])
  }

  lemma Drops(c: Config, s0: State, steps: seq<Step>, s: State, a: int, f: int)
    returns (more: seq<Step>, t: State)
    requires Leads(c, s0, steps, s) && s.Worker(0) && s.workers[0] == Receiving(a, f) && s.Slot(a) && s.Slot(f)
    ensures Leads(c, s0, more, t) && Preserved(c, s, t)
    ensures t == s.(knotes := s.knotes[f := NoKnote], workers := s.workers[0 := Deleted(a, f)])
  {
    hide IsRun, After, Exclusive, Free, Pool.WellFormed;
    more, t := PeerGone(c, s0, steps, s, a, f);
    more, t := Go(c, s0, more, t, DeleteKnote(0));
    assert t.workers == s.workers[0 := Deleted(a, f)];
  }

  lemma PeerGone(c: Config, s0: State, steps: seq<Step>, s: State, a: int, f: int)
    returns (more: seq<Step>, t: State)
    requires Leads(c, s0, steps, s) && s.Worker(0) && s.workers[0] == Receiving(a, f) && s.Slot(a)
    ensures Leads(c, s0, more, t) && t == s.(workers := s.workers[0 := Dropping(a, f)]) && Preserved(c, s, t)
  {
    hide IsRun, After, Exclusive, Pool.WellFormed;
    more, t := Go(c, s0, steps, s, RecvCall(0));
    more, t := Go(c, s0, more, t, RecvEnd(0));
    assert t.workers == s.workers[0 := Dropping(a, f)];
  }

  lemma GivesUp(c: Config, s0: State, steps: seq<Step>, s: State, a: int, f: int)
    returns (more: seq<Step>, t: State)
    requires Leads(c, s0, steps, s) && s.Worker(0) && s.workers[0] == Receiving(a, f) && s.Slot(a) && s.Slot(f)
    ensures Leads(c, s0, more, t) && t == GivenUp(s, f) && Preserved(c, s, t)
  {
    hide IsRun, After, Exclusive, Free, Pool.WellFormed;
    more, t := Drops(c, s0, steps, s, a, f);
    more, t := Go(c, s0, more, t, WorkerClose(0));
    more, t := Go(c, s0, more, t, WorkerFree(0));
    assert t.workers == s.workers[0 := Idle];
    assert t.knotes == s.knotes[f := NoKnote];
  }

  /** A sweep has chosen `f`, whose connection is gone by now, while the second worker runs a handler. */
  ghost predicate ChosenAndGone(c: Config, s: State, f: int) {
    && s.Shaped() && s.disp == Sweeping([f]) && s.batch == [] && s.files == {}
    && |s.workers| >= 2 && s.workers[0] == Idle && s.workers[1].Handling?
    && s.Slot(f) && s.knotes[f] == NoKnote && f !in s.open && Conserved(s)
    && CanAlloc(s.pool, f, c.maxConns)
  }

  lemma BecomesGone(c: Config, s: State, f: int, g: int, a: int, b: int)
    requires OneHandling(c, s, f, g, a, b)
    ensures IdleFds(s.pool, 1, 0, 0) == [f]
    ensures var p := Free(s.pool, f); CanAlloc(p, f, c.maxConns)
  {
    OnlyIdle(s.pool, 1, 0, f);
    FreeStackNotExhausted(Free(s.pool, f), f);
    RoomToFree(s.pool, f);
  }

  lemma ChosenThenGone(c: Config, n: nat, workers: nat, f: int, g: int) returns (steps: seq<Step>, t: State)
    requires CanServeTwo(c, n, f, g) && workers >= 2
    ensures Leads(c, InitialState(c, n, workers), steps, t) && ChosenAndGone(c, t, f) && t.pool.Size() == n
  {
    hide IsRun, After, InitialState;
    var s0 := InitialState(c, n, workers);
    var s, a, b;
    steps, s, a, b := SecondHandles(c, n, workers, f, g);
    BecomesGone(c, s, f, g, a, b);
    hide Free, Pool.WellFormed, IdleFds;
    steps, t := Go(c, s0, steps, s, BeginSweep(1, 0));
    steps, t := GivesUp(c, s0, steps, t, a, f);
  }

  /** A handler opens the free number, the sweep closes it, and a new connection gets it. */
  lemma ReopenedAndReused(c: Config, s0: State, steps: seq<Step>, s: State, f: int)
    returns (more: seq<Step>, t: State)
    requires Leads(c, s0, steps, s) && ChosenAndGone(c, s, f)
    ensures Leads(c, s0, more, t)
    ensures t == ArrivedAt(c, s, f, 1).(files := {(1, f)}, disp := Serving)
  {
    hide IsRun, After, Exclusive, Conserved;
    assert Free(s.pool, f) == s.pool;
    hide Free, Alloc, Pool.WellFormed;
    var u;
    more, u := OpenedAndSwept(c, s0, steps, s, f);
    more, t := Arrives(c, s0, more, u, f, 1);
  }

  lemma OpenedAndSwept(c: Config, s0: State, steps: seq<Step>, s: State, f: int)
    returns (more: seq<Step>, t: State)
    requires Leads(c, s0, steps, s) && ChosenAndGone(c, s, f)
    ensures Leads(c, s0, more, t) && t == s.(files := {(1, f)}, disp := Serving)
  {
    hide IsRun, After, Exclusive, Conserved;
    assert Free(s.pool, f) == s.pool;
    hide Free, Pool.WellFormed, CanAlloc;
    var u;
    more, u := OpensFile(c, s0, steps, s, f);
    more, t := Sweeps(c, s0, more, u, f);
    assert t.knotes == s.knotes && t.open == s.open;
  }

  lemma OpensFile(c: Config, s0: State, steps: seq<Step>, s: State, f: int)
    returns (more: seq<Step>, t: State)
    requires Leads(c, s0, steps, s) && |s.workers| >= 2 && s.workers[1].Handling?
    requires 0 <= f && f !in s.open && s.files == {}
    ensures Leads(c, s0, more, t) && t == s.(open := s.open + {f}, files := {(1, f)})
  {
    hide IsRun, After, Exclusive, Pool.WellFormed;
    more, t := Go(c, s0, steps, s, HandlerOpen(1, f));
  }

  /** The handler closes its file, and the new connection loses its registration. */
  lemma LosesTheConnection(c: Config, s: State, u: State, t: State, f: int)
    requires ChosenAndGone(c, s, f) && u == ArrivedAt(c, s, f, 1).(files := {(1, f)}, disp := Serving)
    requires u.Shaped() && t == CloseFd(u, f).(files := {})
    ensures var a := Alloc(s.pool, f, 1, c.maxConns).1;
      && t.Shaped() && t.Slot(a) && t.pool.connections[f] == a && t.pool.Owned(a)
      && Places(t, a) == 0 && f !in t.open
  {
    AllocEffect(s.pool, f, 1, c.maxConns);
    var a := Alloc(s.pool, f, 1, c.maxConns).1;
    hide Alloc;
    assert t.knotes == s.knotes;
    NowhereLeft(s, t, f, a);
  }

  /** A record that was taken off the free stack and is held by nobody is in no place. */
  lemma NowhereLeft(s: State, t: State, f: int, a: int)
    requires s.Shaped() && Conserved(s) && s.pool.free != [] && a == s.pool.free[|s.pool.free| - 1] && s.Slot(a)
    requires DispatcherSlot(s.disp) == NULL_SLOT == DispatcherSlot(t.disp)
    requires t.pool.free == s.pool.free[..|s.pool.free| - 1] && t.knotes == s.knotes
    requires t.batch == s.batch && t.queue == s.queue && t.workers == s.workers
    ensures Places(t, a) == 0
  {
    hide Tally, Pool.WellFormed;
    assert Places(s, a) == 1;
    assert s.pool.free == t.pool.free + [a];
    TallyAppended(t.pool.free, a, Itself, a);
  }

  /**
   A sweep of a number that is no longer served is not harmless either, in every deployment with
   two workers: there is a run in which the connection a sweep has chosen is closed and freed by
   its worker, a handler opens a file under the free number, the sweep closes that file, and a new
   connection gets the number and is armed.  When the handler closes its file it removes the
   registration of that connection: its record is in use and in no place at all, so no event will
   ever reach it.
   */
  lemma SweepingAReopenedNumberLosesAConnection(c: Config, n: nat, workers: nat, f: int, g: int)
    returns (steps: seq<Step>, a: int)
    requires CanServeTwo(c, n, f, g) && workers >= 2
    ensures IsRun(c, InitialState(c, n, workers), steps)
    ensures var t := After(c, InitialState(c, n, workers), steps);
      && t.Slot(f) && t.Slot(a) && t.pool.connections[f] == a && t.pool.Owned(a)
      && Places(t, a) == 0 && f !in t.open
    ensures !SweepsHarmless(c, InitialState(c, n, workers), steps)
  {
    hide IsRun, After, Conserved, Places;
    var s0 := InitialState(c, n, workers);
    var s, u, t;
    steps, s := ChosenThenGone(c, n, workers, f, g);
    steps, u := ReopenedAndReused(c, s0, steps, s, f);
    steps, t := Go(c, s0, steps, u, HandlerClose(1, f));
    assert {(1, f)} - {(1, f)} == {};
    LosesTheConnection(c, s, u, t, f);
    a := Alloc(s.pool, f, 1, c.maxConns).1;
    if SweepsHarmless(c, s0, steps) {
      ExclusiveOwnership(c, n, workers, steps);
    }
  }

  // ----- the request bound is tight -----------------------------------------------------------------

  /** The connection on `f` is armed after `k` requests, and the first worker is free. */
  ghost predicate Ready(s: State, f: int, a: int, k: nat) {
    && s.Shaped() && s.disp == Polling && s.batch == [] && s.queue == [] && s.Worker(0) && s.workers[0] == Idle
    && s.Slot(f) && s.Slot(a) && s.knotes[f] == Knote(a, true) && s.pool.connections[f] == a
    && s.pool.slots[a].bytesRead == 0 && s.pool.slots[a].requestsServed == k && s.dispatched[a] == k
  }

  /** A request is dispatched on a ready connection. */
  lemma Dispatches(c: Config, s0: State, steps: seq<Step>, s: State, f: int, a: int, k: nat)
    returns (more: seq<Step>, t: State)
    requires Leads(c, s0, steps, s) && Ready(s, f, a, k)
    requires c.queueCapacity > 0 && 2 <= c.maxReqSize <= c.bufferSize
    ensures Leads(c, s0, more, t) && t == Handled(Taken(Queued(s, f, a), 0, f), 0, a, f, 1)
  {
    hide IsRun, After, Exclusive, Pool.WellFormed;
    more, t := Queues(c, s0, steps, s, f, a);
    assert [] + [a] == [a] && [a][1..] == [];
    more, t := Takes(c, s0, more, t, 0, f);
    more, t := Handles(c, s0, more, t, 0, a, f, 1);
  }

  /** After a request on it the connection is armed again, as long as the limit allows. */
  lemma Rearms(c: Config, s0: State, steps: seq<Step>, s: State, f: int, a: int, k: nat)
    returns (more: seq<Step>, t: State)
    requires Leads(c, s0, steps, s) && Ready(s, f, a, k) && k < MAX_KEEPALIVE_REQUESTS
    requires c.queueCapacity > 0 && 2 <= c.maxReqSize <= c.bufferSize
    ensures Leads(c, s0, more, t) && Ready(t, f, a, k + 1)
  {
    hide IsRun, After, Exclusive;
    var u;
    more, u := Dispatches(c, s0, steps, s, f, a, k);
    more, t := Go(c, s0, more, u, Finish(0, true, 1));
  }

  lemma {:induction false} Rounds(c: Config, s0: State, steps: seq<Step>, s: State, f: int, a: int, k: nat)
    returns (more: seq<Step>, t: State)
    requires Leads(c, s0, steps, s) && Ready(s, f, a, 0) && k <= MAX_KEEPALIVE_REQUESTS
    requires c.queueCapacity > 0 && 2 <= c.maxReqSize <= c.bufferSize
    ensures Leads(c, s0, more, t) && Ready(t, f, a, k)
  {
    if k == 0 {
      more, t := steps, s;
    } else {
      hide Leads, Ready;
      var u;
      more, u := Rounds(c, s0, steps, s, f, a, k - 1);
      more, t := Rearms(c, s0, more, u, f, a, k - 1);
    }
  }

  /**
   The bound of 65 is reached in every deployment: from the initial state a run exists in which
   one connection has 65 requests dispatched, one more than the 64 that the documentation announces.
   */
  lemma SixtyFiveRequestsAreDispatched(c: Config, n: nat, workers: nat, f: int) returns (steps: seq<Step>, a: int)
    requires CanServe(c, n, f) && workers > 0 && c.maxReqSize >= 2
    ensures IsRun(c, InitialState(c, n, workers), steps)
    ensures var t := After(c, InitialState(c, n, workers), steps); t.Slot(a) && t.dispatched[a] == 65
  {
    hide IsRun, After, Exclusive;
    var s0 := InitialState(c, n, workers);
    var s;
    steps, s, a := FirstArrives(c, n, workers, f);
    steps, s := Rounds(c, s0, steps, s, f, a, 64);
    steps, s := Dispatches(c, s0, steps, s, f, a, 64);
  }
}
