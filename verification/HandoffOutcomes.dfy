/**
 What becomes of one event and of one request: the stretches of dispatcher and worker steps that
 deal with them, from any state of the protocol to the state they leave behind.
 */
module HandoffOutcomes {
  import opened ConnectionPool
  import opened Handoff
  import opened HandoffProof
  import opened HandoffRuns
  import opened HandoffExamples

  /** The connection on `fd` is closed and its record, if it is in use, is free again. */
  function Ended(s: State, fd: int): State
    requires s.Shaped() && s.Slot(fd)
  {
    s.(pool := Free(s.pool, fd), open := s.open - {fd}, knotes := s.knotes[fd := NoKnote])
  }

  // ----- one new connection ------------------------------------------------------------------------

  /** A new socket is refused without a trace when the pool has no record for it. */
  lemma RefusedOutcome(c: Config, s: State, fd: int, now: int) returns (steps: seq<Step>)
    requires s.Shaped() && s.disp == Serving && 0 <= fd && fd !in s.open && !CanAlloc(s.pool, fd, c.maxConns)
    ensures Leads(c, s, steps, s)
  {
    assert Leads(c, s, [], s);
    hide IsRun, After, Exclusive, Pool.WellFormed;
    var t;
    steps, t := Go(c, s, [], s, Accept(fd, now));
  }

  /** Otherwise it is armed with its own record. */
  lemma AcceptedOutcome(c: Config, s: State, fd: int, now: int) returns (steps: seq<Step>)
    requires s.Shaped() && s.disp == Serving && fd !in s.open && CanAlloc(s.pool, fd, c.maxConns)
    ensures Leads(c, s, steps, ArrivedAt(c, s, fd, now))
  {
    assert Leads(c, s, [], s);
    hide IsRun, After, Exclusive, Pool.WellFormed, Alloc;
    var t;
    steps, t := Arrives(c, s, [], s, fd, now);
  }

  /** When kqueue does not take the registration it is closed, and its record is freed again. */
  lemma UnregisteredOutcome(c: Config, s: State, fd: int, now: int) returns (steps: seq<Step>, t: State)
    requires s.Shaped() && s.disp == Serving && fd !in s.open && CanAlloc(s.pool, fd, c.maxConns)
    ensures Leads(c, s, steps, t) && t.pool == Free(Alloc(s.pool, fd, now, c.maxConns).0, fd)
    ensures t.knotes == s.knotes[fd := NoKnote] && fd !in t.open
    ensures t == s.(pool := t.pool, open := t.open, knotes := t.knotes, dispatched := t.dispatched)
  {
    assert Leads(c, s, [], s);
    AllocEffect(s.pool, fd, now, c.maxConns);
    var a := Alloc(s.pool, fd, now, c.maxConns).1;
    hide IsRun, After, Exclusive, Alloc, Free, Pool.WellFormed;
    steps, t := Go(c, s, [], s, Accept(fd, now));
    assert t.disp == Accepted(fd, a);
    steps, t := ClosesUnregistered(c, s, steps, t, fd, a);
  }

  lemma ClosesUnregistered(c: Config, s0: State, steps: seq<Step>, s: State, fd: int, a: int)
    returns (more: seq<Step>, t: State)
    requires Leads(c, s0, steps, s) && s.disp == Accepted(fd, a) && s.Slot(fd)
    ensures Leads(c, s0, more, t) && t == Ended(s, fd).(disp := Serving)
  {
    hide IsRun, After, Exclusive, Free, Pool.WellFormed;
    more, t := Closes(c, s0, steps, s, fd, a, Register(false));
  }

  // ----- one event --------------------------------------------------------------------------------

  /** What the dispatcher makes of the first event of its batch. */
  function Dispatched(c: Config, s: State): State
    requires s.Shaped() && s.batch != [] && s.Slot(s.batch[0].fd) && s.Slot(s.batch[0].slot)
  {
    var ev, rest := s.batch[0], s.(batch := s.batch[1..]);
    if s.pool.connections[ev.fd] != ev.slot then rest
    else if ev.eof || |s.queue| >= c.queueCapacity then Ended(rest, ev.fd)
    else rest.(queue := s.queue + [ev.slot])
  }

  lemma Closes(c: Config, s0: State, steps: seq<Step>, s: State, fd: int, a: int, step: Step)
    returns (more: seq<Step>, t: State)
    requires Leads(c, s0, steps, s) && s.Slot(fd) && DispatcherEnabled(s, step)
    requires DispatcherApply(c, s, step) == DispatcherCloses(s, fd, a) && !IsWorkerStep(step) && !IsFileStep(step)
    ensures Leads(c, s0, more, t) && t == Ended(s, fd).(disp := Serving)
  {
    hide IsRun, After, Exclusive, Free, Pool.WellFormed, DispatcherEnabled, DispatcherApply;
    more, t := Go(c, s0, steps, s, step);
    more, t := Frees(c, s0, more, t, fd, a);
  }

  lemma Frees(c: Config, s0: State, steps: seq<Step>, s: State, fd: int, a: int)
    returns (more: seq<Step>, t: State)
    requires Leads(c, s0, steps, s) && s.disp == DispatcherClosed(fd, a)
    ensures Leads(c, s0, more, t) && t == s.(pool := Free(s.pool, fd), disp := Serving)
  {
    hide IsRun, After, Exclusive, Free, Pool.WellFormed;
    more, t := Go(c, s0, steps, s, DispatcherFree);
  }

  /**
   In every state, with or without exclusive ownership, an event is dealt with in one way: it is
   ignored when its record does not serve the descriptor any more; else, when the peer is gone or
   the queue is full, the connection is closed and freed; else its pointer is queued.
   */
  lemma EventOutcome(c: Config, s: State) returns (steps: seq<Step>)
    requires s.Shaped() && s.disp == Serving && s.batch != []
    requires s.Slot(s.batch[0].fd) && s.Slot(s.batch[0].slot)
    ensures Leads(c, s, steps, Dispatched(c, s))
  {
    var Event(fd, a, eof) := s.batch[0];
    var t;
    assert Leads(c, s, [], s);
    hide IsRun, After, Exclusive;
    StaleIffNotServing(s.pool, fd, a);
    hide Free, Pool.WellFormed, IsStale;
    steps, t := Go(c, s, [], s, CheckEvent);
    if s.pool.connections[fd] == a {
      steps, t := CheckedOutcome(c, s, steps, t);
    }
  }

  lemma CheckedOutcome(c: Config, s0: State, steps: seq<Step>, s: State) returns (more: seq<Step>, t: State)
    requires Leads(c, s0, steps, s) && s.disp.Checked? && s.Slot(s.disp.fd)
    ensures Leads(c, s0, more, t)
    ensures t.disp == Serving
    ensures if s.disp.eof || |s.queue| >= c.queueCapacity then t == Ended(s, s.disp.fd).(disp := Serving)
            else t == s.(queue := s.queue + [s.disp.slot], disp := Serving)
  {
    hide IsRun, After, Exclusive, Free, Pool.WellFormed;
    if s.disp.eof {
      more, t := Closes(c, s0, steps, s, s.disp.fd, s.disp.slot, CloseEof);
    } else if |s.queue| >= c.queueCapacity {
      more, t := Closes(c, s0, steps, s, s.disp.fd, s.disp.slot, Enqueue);
    } else {
      more, t := Go(c, s0, steps, s, Enqueue);
    }
  }

  /** The dispatcher has no choice on the way: at each point it can take one kind of step only. */
  lemma DispatcherHasNoChoice(s: State, step: Step)
    requires s.Shaped() && DispatcherEnabled(s, step)
    ensures s.disp.Checked? ==> step == if s.disp.eof then CloseEof else Enqueue
    ensures s.disp.DispatcherClosed? ==> step == DispatcherFree
    ensures s.disp.Serving? ==> step.Accept? || step == if s.batch != [] then CheckEvent else EndBatch
  {
  }

  /**
   In every state, a worker takes the pointer off the queue for good: it goes on with it when the
   record serves its descriptor, and ignores it otherwise.
   */
  lemma PopOutcome(c: Config, s: State, w: int) returns (steps: seq<Step>)
    requires s.Shaped() && s.Worker(w) && s.workers[w] == Idle && s.queue != [] && s.Slot(s.queue[0])
    ensures Leads(c, s, steps, s.(queue := s.queue[1..],
      workers := s.workers[w :=
        if s.pool.Owned(s.queue[0]) then Receiving(s.queue[0], s.pool.slots[s.queue[0]].fd) else Idle]))
  {
    var t, u;
    assert Leads(c, s, [], s);
    assert s.pool.slots != [];
    hide IsRun, After, Exclusive, Pool.WellFormed;
    steps, t := Go(c, s, [], s, Pop(w));
    PoppedOutcome(c, t, w, s.queue[0]);
    steps, u := Go(c, s, steps, t, CheckPopped(w));
    assert t.workers[w := u.workers[w]] == s.workers[w := u.workers[w]];
  }

  lemma PoppedOutcome(c: Config, s: State, w: int, a: int)
    requires s.Shaped() && s.Worker(w) && s.workers[w] == Popped(a) && s.Slot(a)
    ensures WorkerApply(c, s, CheckPopped(w))
         == s.(workers := s.workers[w := if s.pool.Owned(a) then Receiving(a, s.pool.slots[a].fd) else Idle])
  {
    var fd := s.pool.slots[a].fd;
    if s.Slot(fd) { StaleIffNotServing(s.pool, fd, a); }
  }

  // ----- one request --------------------------------------------------------------------------------

  /**
   What becomes of a connection whose request is finished.  While ownership is exclusive: with
   keep-alive, and fewer than 64 re-arms so far, it is armed again and counted, emptied, and marked
   active now; otherwise the worker goes on to drop it, and nothing has changed yet.
   */
  lemma FinishOutcome(c: Config, s: State, w: int, keepAlive: bool, now: int)
    requires Exclusive(c, s) && WorkerEnabled(c, s, Finish(w, keepAlive, now))
    ensures var Handling(a, fd) := s.workers[w];
      var t, was := WorkerApply(c, s, Finish(w, keepAlive, now)), s.pool.slots[a];
      && t == s.(pool := t.pool, knotes := t.knotes, workers := t.workers)
      && if keepAlive && was.requestsServed < 64 then
           && t.workers == s.workers[w := Idle] && t.knotes == s.knotes[fd := Knote(a, true)]
           && t.pool == s.pool.(slots := s.pool.slots[a :=
                Conn(was.fd, was.gen, was.created, now, 0, was.requestsServed + 1)])
         else
           t.workers == s.workers[w := Dropping(a, fd)] && t.knotes == s.knotes && t.pool == s.pool
  {
    assert WorkerOk(c, s, s.workers[w]);
  }

  /** What a worker does after an answer of recv: the header may be complete, wrong or still partial. */
  lemma ExamineOutcome(c: Config, s: State, w: int, what: Received)
    requires s.Shaped() && WorkerEnabled(c, s, Examine(w, what))
    ensures var Examining(a, fd) := s.workers[w];
      var t := WorkerApply(c, s, Examine(w, what));
      && t.pool == s.pool && t.knotes == s.knotes && t.open == s.open && t.queue == s.queue
      && t.workers == s.workers[w :=
           if what.Request? then Handling(a, fd)
           else if what.Malformed? || s.pool.slots[a].bytesRead + 1 >= c.maxReqSize then Dropping(a, fd)
           else Receiving(a, fd)]
  {
  }

  /** No data for now: while ownership is exclusive the connection is armed again, all else unchanged. */
  lemma AgainOutcome(c: Config, s: State, w: int)
    requires Exclusive(c, s) && WorkerEnabled(c, s, RecvAgain(w))
    ensures var Awaiting(a, fd, _, _) := s.workers[w];
      WorkerApply(c, s, RecvAgain(w))
        == s.(knotes := s.knotes[fd := Knote(a, true)], workers := s.workers[w := Idle])
  {
    assert WorkerOk(c, s, s.workers[w]);
  }

  /** The peer is gone: the worker goes on to drop the connection. */
  lemma PeerGoneOutcome(c: Config, s: State, w: int)
    requires s.Shaped() && WorkerEnabled(c, s, RecvEnd(w))
    ensures WorkerApply(c, s, RecvEnd(w))
         == s.(workers := s.workers[w := Dropping(s.workers[w].slot, s.workers[w].fd)])
  {
  }

  /** Dropping a connection, in every state: its registration, its socket and its record are given up. */
  lemma DropOutcome(c: Config, s: State, w: int) returns (steps: seq<Step>)
    requires s.Shaped() && s.Worker(w) && s.workers[w].Dropping? && s.Slot(s.workers[w].fd)
    ensures Leads(c, s, steps, Ended(s, s.workers[w].fd).(workers := s.workers[w := Idle]))
  {
    var Dropping(a, fd) := s.workers[w];
    var t;
    assert Leads(c, s, [], s);
    hide IsRun, After, Exclusive, Free, Pool.WellFormed;
    steps, t := Go(c, s, [], s, DeleteKnote(w));
    steps, t := ClosesAndFrees(c, s, steps, t, w, a, fd);
    assert t.knotes == s.knotes[fd := NoKnote] && t.workers == s.workers[w := Idle];
  }

  lemma ClosesAndFrees(c: Config, s0: State, steps: seq<Step>, s: State, w: int, a: int, fd: int)
    returns (more: seq<Step>, t: State)
    requires Leads(c, s0, steps, s) && s.Worker(w) && s.workers[w] == Deleted(a, fd) && s.Slot(fd)
    ensures Leads(c, s0, more, t) && t == Ended(s, fd).(workers := s.workers[w := Idle])
  {
    hide IsRun, After, Exclusive, Free, Pool.WellFormed;
    more, t := Go(c, s0, steps, s, WorkerClose(w));
    more, t := Go(c, s0, more, t, WorkerFree(w));
    assert t.workers == s.workers[w := Idle];
  }
}
