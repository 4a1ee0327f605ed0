/** What the hand-off invariants mean for whole runs of the server. */
module HandoffRuns {
  import opened ConnectionPool
  import opened Handoff
  import opened HandoffProof

  ghost predicate IsRun(c: Config, s: State, steps: seq<Step>)
    requires s.Shaped()
    decreases |steps|
  {
    steps == [] || (Enabled(c, s, steps[0]) && IsRun(c, Apply(c, s, steps[0]), steps[1..]))
  }

  ghost function After(c: Config, s: State, steps: seq<Step>): (t: State)
    requires s.Shaped() && IsRun(c, s, steps)
    ensures t.Shaped()
    decreases |steps|
  {
    if steps == [] then s else After(c, Apply(c, s, steps[0]), steps[1..])
  }

  /** A sweep step that takes nothing from anybody. */
  ghost predicate SafeStep(s: State, step: Step)
    requires s.Shaped()
  {
    step.SweepClose? && DispatcherEnabled(s, step) ==> Harmless(s, s.disp.todo[0])
  }

  /**
   Every idle sweep of the run closes a number only while its connection is armed, or when the
   number is neither served nor open.
   */
  ghost predicate SweepsHarmless(c: Config, s: State, steps: seq<Step>)
    requires s.Shaped() && IsRun(c, s, steps)
    decreases |steps|
  {
    steps == [] ||
    (SafeStep(s, steps[0]) && SweepsHarmless(c, Apply(c, s, steps[0]), steps[1..]))
  }

  /** The deployment the source guarantees: the queue holds every record, a request fits its buffer. */
  predicate Deployed(c: Config, n: nat) {
    n <= c.queueCapacity && 0 < c.maxReqSize <= c.bufferSize && c.maxConns >= 0
  }

  /** The initial free stack lists every record once. */
  lemma {:induction false} StackedOnce(m: nat, n: nat, x: int)
    requires m <= n && 0 <= x < n
    ensures Tally(seq(m, i => m - 1 - i), Itself, x) == Bit(x < m)
  {
    var s := seq(m, i => m - 1 - i);
    if m > 0 {
      assert s[1..] == seq(m - 1, i => m - 1 - 1 - i);
      StackedOnce(m - 1, n, x);
    }
  }

  lemma InitialExclusive(c: Config, n: nat, workers: nat)
    requires Deployed(c, n)
    ensures Exclusive(c, InitialState(c, n, workers))
  {
    var s := InitialState(c, n, workers);
    forall x | 0 <= x < n ensures Places(s, x) == 1 {
      TallyNone(s.knotes, ArmedSlot, x);
      TallyNone(s.workers, WorkerSlot, x);
      StackedOnce(n, n, x);
      assert s.pool.free == seq(n, i => n - 1 - i);
    }
  }

  lemma StepKeepsExclusive(c: Config, s: State, step: Step)
    requires Exclusive(c, s) && Deployed(c, s.pool.Size()) && Enabled(c, s, step) && SafeStep(s, step)
    ensures Exclusive(c, Apply(c, s, step))
  {
    if IsFileStep(step) { FileStepKeeps(c, s, step); }
    else if IsWorkerStep(step) { WorkerStepKeeps(c, s, step); }
    else { DispatcherStepKeeps(c, s, step); }
  }

  lemma {:induction false} RunKeepsExclusive(c: Config, s: State, steps: seq<Step>)
    requires Exclusive(c, s) && Deployed(c, s.pool.Size()) && IsRun(c, s, steps) && SweepsHarmless(c, s, steps)
    ensures Exclusive(c, After(c, s, steps)) && After(c, s, steps).pool.Size() == s.pool.Size()
    decreases |steps|
  {
    if steps != [] {
      StepKeepsExclusive(c, s, steps[0]);
      SizeKept(c, s, steps[0]);
      RunKeepsExclusive(c, Apply(c, s, steps[0]), steps[1..]);
    }
  }

  lemma SizeKept(c: Config, s: State, step: Step)
    requires s.Shaped() && Enabled(c, s, step)
    ensures Apply(c, s, step).pool.Size() == s.pool.Size()
    ensures s.pool.active <= c.maxConns ==> Apply(c, s, step).pool.active <= c.maxConns
  {
    if IsFileStep(step) {}
    else if IsWorkerStep(step) { WorkerSizeKept(c, s, step); } else { DispatcherSizeKept(c, s, step); }
  }

  lemma WorkerSizeKept(c: Config, s: State, step: Step)
    requires s.Shaped() && WorkerEnabled(c, s, step)
    ensures WorkerApply(c, s, step).pool.Size() == s.pool.Size()
    ensures WorkerApply(c, s, step).pool.active <= s.pool.active
  {
    hide Pool.LinksOk, Pool.PartitionOk, Pool.FreeListOk;
  }

  lemma DispatcherSizeKept(c: Config, s: State, step: Step)
    requires s.Shaped() && DispatcherEnabled(s, step)
    ensures DispatcherApply(c, s, step).pool.Size() == s.pool.Size()
    ensures s.pool.active <= c.maxConns ==> DispatcherApply(c, s, step).pool.active <= c.maxConns
  {
  }

  // ----- main results ----------------------------------------------------------------------------

  /** The connection a worker acts on: its record serves the number, and the number is its socket. */
  ghost predicate OnItsSocket(s: State, pc: WorkerPc)
    requires s.Shaped()
  {
    (pc.Receiving? || pc.Awaiting? || pc.Examining? || pc.Handling? || pc.Dropping? || pc.Deleted?) ==>
      s.Slot(pc.fd) && s.pool.connections[pc.fd] == pc.slot && SocketOpen(s, pc.fd)
  }

  /**
   Exclusive ownership.  In every run whose sweeps are harmless, whatever files handlers and
   other threads open and close:
   every record is in exactly one place (free, armed, in the batch, queued, or held by one thread);
   no two workers ever hold the same connection;
   a worker that receives, handles or is about to close acts on an open socket that its own record
   serves, never on a number opened for something else;
   the queue has room whenever the dispatcher pushes, so no connection is dropped for a full queue;
   the staleness tests never reject anything;
   no number a thread has opened for itself carries a registration or is opened twice;
   and no write leaves a request buffer.
   */
  lemma ExclusiveOwnership(c: Config, n: nat, workers: nat, steps: seq<Step>)
    requires Deployed(c, n)
    requires IsRun(c, InitialState(c, n, workers), steps)
    requires SweepsHarmless(c, InitialState(c, n, workers), steps)
    ensures var s := After(c, InitialState(c, n, workers), steps);
      && (forall x :: 0 <= x < s.pool.Size() ==> Places(s, x) == 1)
      && (forall v, w :: 0 <= v < w < |s.workers| && !s.workers[v].Idle? && !s.workers[w].Idle? ==>
            s.workers[v].slot != s.workers[w].slot)
      && (forall w :: 0 <= w < |s.workers| ==> OnItsSocket(s, s.workers[w]))
      && (s.disp.Checked? ==> |s.queue| < c.queueCapacity)
      && (forall i :: 0 <= i < |s.batch| ==>
            s.Slot(s.batch[i].fd) && s.Slot(s.batch[i].slot) && !IsStale(s.pool, s.batch[i].fd, s.batch[i].slot))
      && (forall w :: 0 <= w < |s.workers| && s.workers[w].Popped? ==>
            s.pool.Owned(s.workers[w].slot))
      && (forall t, fd :: (t, fd) in s.files ==> fd in s.open && (s.Slot(fd) ==> s.knotes[fd] == NoKnote))
      && OneOwner(s)
      && s.intact
  {
    InitialExclusive(c, n, workers);
    RunKeepsExclusive(c, InitialState(c, n, workers), steps);
    var s := After(c, InitialState(c, n, workers), steps);
    forall v, w | 0 <= v < w < |s.workers| && !s.workers[v].Idle? && !s.workers[w].Idle?
      ensures s.workers[v].slot != s.workers[w].slot
    {
      WorkersApart(c, s, v, w);
    }
    forall w | 0 <= w < |s.workers| ensures OnItsSocket(s, s.workers[w]) { WorkerOnSocket(c, s, w); }
    if s.disp.Checked? { QueueHasRoom(c, s); }
    forall i | 0 <= i < |s.batch|
      ensures s.Slot(s.batch[i].fd) && s.Slot(s.batch[i].slot) && !IsStale(s.pool, s.batch[i].fd, s.batch[i].slot)
    {
      assert Waiting(s, s.batch[i].fd, s.batch[i].slot);
    }
    forall t, fd | (t, fd) in s.files ensures fd in s.open && (s.Slot(fd) ==> s.knotes[fd] == NoKnote) {
      assert NumberOk(c, s, fd);
    }
    forall w | 0 <= w < |s.workers| && s.workers[w].Popped? ensures s.pool.Owned(s.workers[w].slot) {
      assert WorkerOk(c, s, s.workers[w]);
    }
  }

  lemma WorkersApart(c: Config, s: State, v: int, w: int)
    requires Exclusive(c, s) && 0 <= v < w < |s.workers|
    requires !s.workers[v].Idle? && !s.workers[w].Idle?
    ensures s.workers[v].slot != s.workers[w].slot
  {
    assert WorkerOk(c, s, s.workers[v]);
    assert Places(s, s.workers[v].slot) == 1;
    if s.workers[v].slot == s.workers[w].slot { TallyTwo(s.workers, v, w, WorkerSlot); }
  }

  lemma WorkerOnSocket(c: Config, s: State, w: int)
    requires Exclusive(c, s) && 0 <= w < |s.workers|
    ensures OnItsSocket(s, s.workers[w])
  {
    var pc := s.workers[w];
    assert WorkerOk(c, s, pc);
    if !pc.Idle? && !pc.Popped? {
      assert KnoteOk(s, pc.fd) && NumberOk(c, s, pc.fd);
    }
  }

  /**
   Per-connection counters in the same runs.  The count stays below the request limit; a worker
   inside recv still holds the count its length was computed from, so that length is what is left
   of the limit and bytes and terminator stay in the buffer; a connection is re-armed at most 64
   times, and at most 65 requests are dispatched on it.
   */
  lemma ConnectionCounters(c: Config, n: nat, workers: nat, steps: seq<Step>, slot: int)
    requires Deployed(c, n) && 0 <= slot < n
    requires IsRun(c, InitialState(c, n, workers), steps)
    requires SweepsHarmless(c, InitialState(c, n, workers), steps)
    ensures var s := After(c, InitialState(c, n, workers), steps);
      && s.pool.Size() == n
      && s.pool.slots[slot].bytesRead <= c.maxReqSize - 1
      && (forall w :: 0 <= w < |s.workers| && s.workers[w].Awaiting? && s.workers[w].slot == slot ==>
            && s.workers[w].start == s.pool.slots[slot].bytesRead
            && s.workers[w].start + s.workers[w].room == c.maxReqSize - 1 < c.bufferSize)
      && s.pool.slots[slot].requestsServed <= 64
      && s.dispatched[slot] <= 65
  {
    InitialExclusive(c, n, workers);
    RunKeepsExclusive(c, InitialState(c, n, workers), steps);
    var s := After(c, InitialState(c, n, workers), steps);
    forall w | 0 <= w < |s.workers| && s.workers[w].Awaiting? ensures WorkerOk(c, s, s.workers[w]) {}
  }

  // ----- every run -------------------------------------------------------------------------------

  /** Every answer of recv in the run, and the count after it, stays inside the request buffer. */
  ghost predicate WithinBuffers(c: Config, s: State, steps: seq<Step>)
    requires s.Shaped() && IsRun(c, s, steps)
    decreases |steps|
  {
    steps == [] ||
    ((steps[0].RecvDone? ==> Fits(c, s, steps[0].w, steps[0].n))
     && WithinBuffers(c, Apply(c, s, steps[0]), steps[1..]))
  }

  lemma IntactStep(c: Config, s: State, step: Step)
    requires s.Shaped() && Enabled(c, s, step)
    ensures Apply(c, s, step).intact <==> s.intact && (step.RecvDone? ==> Fits(c, s, step.w, step.n))
  {
  }

  /**
   The structural invariants of the pool need no assumption on the sweeps.  They hold in every run
   for as long as no write leaves a request buffer, which is exactly as long as each answer of recv
   and the count after it fit; and the number of live connections never passes the maximum.
   */
  lemma {:induction false} PoolSoundInEveryRun(c: Config, s: State, steps: seq<Step>)
    requires s.Shaped() && s.intact && s.pool.active <= c.maxConns && IsRun(c, s, steps)
    ensures var t := After(c, s, steps);
      && (t.intact <==> WithinBuffers(c, s, steps))
      && (t.intact ==> t.pool.WellFormed() && t.pool.active <= c.maxConns && t.pool.Size() == s.pool.Size())
    decreases |steps|
  {
    if steps != [] {
      var s' := Apply(c, s, steps[0]);
      SizeKept(c, s, steps[0]);
      IntactStep(c, s, steps[0]);
      if s'.intact {
        PoolSoundInEveryRun(c, s', steps[1..]);
      } else {
        NeverMended(c, s', steps[1..]);
      }
    }
  }

  lemma {:induction false} NeverMended(c: Config, s: State, steps: seq<Step>)
    requires s.Shaped() && !s.intact && IsRun(c, s, steps)
    ensures !After(c, s, steps).intact
    decreases |steps|
  {
    if steps != [] {
      IntactStep(c, s, steps[0]);
      NeverMended(c, Apply(c, s, steps[0]), steps[1..]);
    }
  }
}
