/**
 The hand-off protocol of src/net/server.c and src/net/worker.c: one dispatcher and
 any number of workers pass raw connection pointers through kqueue registrations, the
 dispatcher's event batch, the work queue and worker-local variables.

 Every lock-held section, every kevent(2) call and every close(2) is one atomic step;
 steps of different threads interleave freely.  A registration made with EV_DISPATCH
 delivers once and is then disabled until someone re-enables it, and closing a
 descriptor number removes its registration, whoever closes it.

 Request handlers and other threads of the process open and close files of their own; they
 share the descriptor numbers with the connections.
 */
module Handoff {
  import opened ConnectionPool

  const MAX_KEEPALIVE_REQUESTS := 64

  /** Modulus of C's `size_t`. */
  const SIZE_MODULUS: nat := 0x1_0000_0000_0000_0000

  /**
   `bufferSize` is the size of a record's request buffer; `own` are the numbers the server
   itself holds open: listening socket, kqueue, pipe, log.
   */
  datatype Config = Config(queueCapacity: nat, maxConns: int, maxReqSize: nat, bufferSize: nat, own: set<int>)

  /** The EVFILT_READ registration of a descriptor. */
  datatype Knote = NoKnote | Knote(slot: int, enabled: bool)

  datatype Event = Event(fd: int, slot: int, eof: bool)

  datatype DispatcherPc =
    | Polling
    | Sweeping(todo: seq<int>)                              // descriptors chosen under the pool lock
    | SweepClosed(fd: int, victim: int, rest: seq<int>)     // closed one, free still to come
    | Serving                                               // walking the event batch
    | Accepted(fd: int, slot: int)                          // record allocated, not yet registered
    | Checked(fd: int, slot: int, eof: bool)                // event passed the staleness test
    | DispatcherClosed(fd: int, slot: int)                  // closed, free still to come

  datatype WorkerPc =
    | Idle
    | Popped(slot: int)
    | Receiving(slot: int, fd: int)                         // about to call recv
    | Awaiting(slot: int, fd: int, start: nat, room: nat)   // inside recv, with the arguments it computed
    | Examining(slot: int, fd: int)                         // recv stored its bytes
    | Handling(slot: int, fd: int)                          // request parsed and dispatched
    | Dropping(slot: int, fd: int)                          // about to remove the registration
    | Deleted(slot: int, fd: int)
    | WorkerClosed(slot: int, fd: int)                      // closed, free still to come

  /** What the worker finds in the buffer after a successful recv(2). */
  datatype Received = Partial | Malformed | Request

  datatype Step =
    | Deliver(fd: int, eof: bool)
    | BeginSweep(now: int, timeout: int)
    | SweepClose
    | SweepFree
    | EndSweep
    | SkipSweep
    | Accept(fd: int, now: int)
    | Register(ok: bool)
    | CheckEvent
    | Enqueue
    | CloseEof
    | DispatcherFree
    | EndBatch
    | Pop(w: int)
    | CheckPopped(w: int)
    | RecvCall(w: int)
    | RecvDone(w: int, n: nat, now: int)
    | Examine(w: int, what: Received)
    | RecvAgain(w: int)
    | RecvEnd(w: int)
    | Finish(w: int, keepAlive: bool, now: int)
    | DeleteKnote(w: int)
    | WorkerClose(w: int)
    | WorkerFree(w: int)
    | HandlerOpen(t: int, fd: int)
    | HandlerClose(t: int, fd: int)

  /**
   `files` are the pairs of a thread and a number it has opened for itself and not closed yet;
   worker `w` is thread `w`, and other numbers stand for other threads.  `dispatched` counts,
   per record, the requests handled since it was last allocated.  `intact` holds until a write
   leaves the request buffer of a record: what such a write hits is beyond this model.
   */
  datatype State = State(
    pool: Pool, open: set<int>, knotes: seq<Knote>, disp: DispatcherPc, batch: seq<Event>,
    queue: seq<int>, workers: seq<WorkerPc>, files: set<(int, int)>, dispatched: seq<nat>,
    intact: bool)
  {
    ghost predicate Shaped() {
      pool.WellFormed() && |knotes| == |dispatched| == pool.Size()
    }

    predicate Slot(slot: int) { 0 <= slot < pool.Size() }

    predicate Worker(w: int) { 0 <= w < |workers| }
  }

  // ----- primitive effects -----------------------------------------------------------

  /** close(2): the descriptor and its registration are gone. */
  function CloseFd(s: State, fd: int): (s': State)
    requires s.Shaped()
    ensures s'.Shaped()
  {
    s.(open := s.open - {fd}, knotes := if 0 <= fd < |s.knotes| then s.knotes[fd := NoKnote] else s.knotes)
  }

  function FreeFd(s: State, fd: int): (s': State)
    requires s.Shaped()
    ensures s'.Shaped()
  {
    s.(pool := Free(s.pool, fd))
  }

  /** A worker writes the mutable fields of a record; descriptor and generation stay. */
  function Touch(s: State, slot: int, lastActivity: int, bytesRead: nat, served: nat): (s': State)
    requires s.Shaped() && s.Slot(slot)
    ensures s'.Shaped()
  {
    var c := s.pool.slots[slot].(lastActivity := lastActivity, bytesRead := bytesRead, requestsServed := served);
    var p := s.pool.(slots := s.pool.slots[slot := c]);
    TouchWellFormed(s.pool, slot, c);
    s.(pool := p)
  }

  lemma TouchWellFormed(p: Pool, slot: int, c: Conn)
    requires p.WellFormed() && 0 <= slot < p.Size()
    requires c.fd == p.slots[slot].fd && c.gen == p.slots[slot].gen
    ensures p.(slots := p.slots[slot := c]).WellFormed()
  {
    var q := p.(slots := p.slots[slot := c]);
    assert q.ServedFds() == p.ServedFds();
    forall i | 0 <= i < q.Size() ensures i in q.free || q.Owned(i) {
      assert i in p.free || p.Owned(i);
    }
  }

  /** EV_ENABLE succeeds exactly when the descriptor is registered; it also sets udata. */
  function Enable(s: State, fd: int, slot: int): (s': State)
    requires s.Shaped() && s.Slot(fd)
    ensures s'.Shaped()
  {
    if s.knotes[fd].NoKnote? then s else s.(knotes := s.knotes[fd := Knote(slot, true)])
  }

  /** The descriptors sweep_idle collects, in ascending order. */
  function IdleFds(p: Pool, now: int, timeout: int, from: nat): (r: seq<int>)
    requires p.WellFormed() && from <= p.Size()
    ensures forall i :: 0 <= i < |r| ==>
      && p.Serves(r[i]) && now - p.slots[p.connections[r[i]]].lastActivity > timeout
    decreases p.Size() - from
  {
    if from == p.Size() then []
    else if p.connections[from] != NULL_SLOT && now - p.slots[p.connections[from]].lastActivity > timeout then
      [from] + IdleFds(p, now, timeout, from + 1)
    else IdleFds(p, now, timeout, from + 1)
  }

  predicate IsIdle(p: Pool, now: int, timeout: int, fd: int)
    requires p.WellFormed()
  {
    p.Serves(fd) && now - p.slots[p.connections[fd]].lastActivity > timeout
  }

  /** A sweep chooses each idle descriptor once, in ascending order, so its array has room. */
  lemma {:induction false} IdleFdsExactly(p: Pool, now: int, timeout: int, from: nat)
    requires p.WellFormed() && from <= p.Size()
    ensures var r := IdleFds(p, now, timeout, from);
      && (forall fd :: fd in r <==> from <= fd && IsIdle(p, now, timeout, fd))
      && (forall i, j :: 0 <= i < j < |r| ==> r[i] < r[j])
      && |r| <= p.Size() - from
    decreases p.Size() - from
  {
    if from < p.Size() {
      IdleFdsExactly(p, now, timeout, from + 1);
      var rest := IdleFds(p, now, timeout, from + 1);
      forall i | 0 <= i < |rest| ensures from < rest[i] { assert rest[i] in rest; }
    }
  }

  /** The scan of sweep_idle under the pool lock. */
  method CollectIdle(p: Pool, now: int, timeout: int) returns (toClose: seq<int>)
    requires p.WellFormed()
    ensures toClose == IdleFds(p, now, timeout, 0) && |toClose| <= p.Size()
  {
    toClose := [];
    for fd := 0 to p.Size()
      invariant toClose + IdleFds(p, now, timeout, fd) == IdleFds(p, now, timeout, 0)
    {
      var c := p.connections[fd];
      if c != NULL_SLOT && now - p.slots[c].lastActivity > timeout { toClose := toClose + [fd]; }
    }
    IdleFdsExactly(p, now, timeout, 0);
  }

  function SetWorker(s: State, w: int, pc: WorkerPc): (s': State)
    requires s.Shaped() && s.Worker(w)
    ensures s'.Shaped()
  {
    s.(workers := s.workers[w := pc])
  }

  // ----- the steps ---------------------------------------------------------------------

  predicate DispatcherEnabled(s: State, step: Step)
    requires s.Shaped()
  {
    match step
    case Deliver(fd, _) => s.disp.Polling? && s.Slot(fd) && s.knotes[fd].Knote? && s.knotes[fd].enabled
    case BeginSweep(_, _) => s.disp.Polling?
    case SkipSweep => s.disp.Polling?
    case SweepClose => s.disp.Sweeping? && s.disp.todo != [] && s.Slot(s.disp.todo[0])
    case SweepFree => s.disp.SweepClosed?
    case EndSweep => s.disp.Sweeping? && s.disp.todo == []
    case Accept(fd, _) => s.disp.Serving? && 0 <= fd && fd !in s.open
    case Register(_) => s.disp.Accepted? && s.Slot(s.disp.fd)
    case CheckEvent => s.disp.Serving? && s.batch != [] && s.Slot(s.batch[0].fd) && s.Slot(s.batch[0].slot)
    case Enqueue => s.disp.Checked? && !s.disp.eof
    case CloseEof => s.disp.Checked? && s.disp.eof
    case DispatcherFree => s.disp.DispatcherClosed?
    case EndBatch => s.disp.Serving? && s.batch == []
    case _ => false
  }

  function ApplyDeliver(s: State, fd: int, eof: bool): (s': State)
    requires s.Shaped() && DispatcherEnabled(s, Deliver(fd, eof))
    ensures s'.Shaped()
  {
    s.(batch := s.batch + [Event(fd, s.knotes[fd].slot, eof)],
       knotes := s.knotes[fd := Knote(s.knotes[fd].slot, false)])
  }

  function ApplySweepClose(s: State): (s': State)
    requires s.Shaped() && DispatcherEnabled(s, SweepClose)
    ensures s'.Shaped()
  {
    var fd := s.disp.todo[0];
    CloseFd(s, fd).(disp := SweepClosed(fd, s.pool.connections[fd], s.disp.todo[1..]))
  }

  /** The dispatcher closes the connection it holds. */
  function DispatcherCloses(s: State, fd: int, slot: int): (s': State)
    requires s.Shaped()
    ensures s'.Shaped()
  {
    CloseFd(s, fd).(disp := DispatcherClosed(fd, slot))
  }

  function ApplyAccept(c: Config, s: State, fd: int, now: int): (s': State)
    requires s.Shaped()
    ensures s'.Shaped()
  {
    var (p, slot) := Alloc(s.pool, fd, now, c.maxConns);
    if slot == NULL_SLOT then s
    else s.(pool := p, open := s.open + {fd}, disp := Accepted(fd, slot), dispatched := s.dispatched[slot := 0])
  }

  function DispatcherApply(c: Config, s: State, step: Step): (s': State)
    requires s.Shaped() && DispatcherEnabled(s, step)
    ensures s'.Shaped()
  {
    match step
    case Deliver(fd, eof) => ApplyDeliver(s, fd, eof)
    case BeginSweep(now, timeout) => s.(disp := Sweeping(IdleFds(s.pool, now, timeout, 0)))
    case SkipSweep => s.(disp := Serving)
    case SweepClose => ApplySweepClose(s)
    case SweepFree => FreeFd(s, s.disp.fd).(disp := Sweeping(s.disp.rest))
    case EndSweep => s.(disp := Serving)
    case Accept(fd, now) => ApplyAccept(c, s, fd, now)
    case Register(ok) =>
      if ok then s.(knotes := s.knotes[s.disp.fd := Knote(s.disp.slot, true)], disp := Serving)
      else DispatcherCloses(s, s.disp.fd, s.disp.slot)
    case CheckEvent =>
      var ev := s.batch[0];
      if IsStale(s.pool, ev.fd, ev.slot) then s.(batch := s.batch[1..])
      else s.(batch := s.batch[1..], disp := Checked(ev.fd, ev.slot, ev.eof))
    case Enqueue =>
      if |s.queue| < c.queueCapacity then s.(queue := s.queue + [s.disp.slot], disp := Serving)
      else DispatcherCloses(s, s.disp.fd, s.disp.slot)
    case CloseEof => DispatcherCloses(s, s.disp.fd, s.disp.slot)
    case DispatcherFree => FreeFd(s, s.disp.fd).(disp := Serving)
    case EndBatch => s.(disp := Polling)
  }

  predicate WorkerEnabled(c: Config, s: State, step: Step)
    requires s.Shaped()
  {
    match step
    case Pop(w) => s.Worker(w) && s.workers[w].Idle? && s.queue != []
    case CheckPopped(w) => s.Worker(w) && s.workers[w].Popped? && s.Slot(s.workers[w].slot)
    case RecvCall(w) => s.Worker(w) && s.workers[w].Receiving? && s.Slot(s.workers[w].slot)
    case RecvDone(w, n, _) =>
      s.Worker(w) && s.workers[w].Awaiting? && s.Slot(s.workers[w].slot) && 1 <= n <= s.workers[w].room
    case Examine(w, _) => s.Worker(w) && s.workers[w].Examining? && s.Slot(s.workers[w].slot)
    case RecvAgain(w) => s.Worker(w) && s.workers[w].Awaiting? && s.Slot(s.workers[w].fd)
    case RecvEnd(w) => s.Worker(w) && s.workers[w].Awaiting?
    case Finish(w, _, _) =>
      && s.Worker(w) && s.workers[w].Handling? && s.Slot(s.workers[w].slot) && s.Slot(s.workers[w].fd)
    case DeleteKnote(w) => s.Worker(w) && s.workers[w].Dropping? && s.Slot(s.workers[w].fd)
    case WorkerClose(w) => s.Worker(w) && s.workers[w].Deleted?
    case WorkerFree(w) => s.Worker(w) && s.workers[w].WorkerClosed?
    case _ => false
  }

  /** The length argument of recv(2), in the source's unsigned arithmetic. */
  function Room(c: Config, bytesRead: nat): nat {
    if bytesRead < c.maxReqSize then c.maxReqSize - bytesRead - 1
    else (c.maxReqSize - bytesRead - 1) % SIZE_MODULUS
  }

  /** The answer of recv(2) and the terminator after the new count stay inside the buffer. */
  predicate Fits(c: Config, s: State, w: int, n: nat)
    requires s.Worker(w) && s.workers[w].Awaiting? && 0 <= s.workers[w].slot < |s.pool.slots|
  {
    && s.workers[w].start + n <= c.bufferSize
    && s.pool.slots[s.workers[w].slot].bytesRead + n < c.bufferSize
  }

  /** The call reads the count for its arguments; the bytes are added to the count it finds later. */
  function ApplyRecvDone(c: Config, s: State, w: int, n: nat, now: int): (s': State)
    requires s.Shaped() && WorkerEnabled(c, s, RecvDone(w, n, now))
    ensures s'.Shaped()
  {
    var Awaiting(slot, fd, _, _) := s.workers[w];
    var conn := s.pool.slots[slot];
    SetWorker(Touch(s, slot, now, conn.bytesRead + n, conn.requestsServed), w, Examining(slot, fd))
      .(intact := s.intact && Fits(c, s, w, n))
  }

  function ApplyExamine(c: Config, s: State, w: int, what: Received): (s': State)
    requires s.Shaped() && WorkerEnabled(c, s, Examine(w, what))
    ensures s'.Shaped()
  {
    var Examining(slot, fd) := s.workers[w];
    match what
    case Partial =>
      var full := s.pool.slots[slot].bytesRead >= c.maxReqSize - 1;
      SetWorker(s, w, if full then Dropping(slot, fd) else Receiving(slot, fd))
    case Malformed => SetWorker(s, w, Dropping(slot, fd))
    case Request =>
      SetWorker(s, w, Handling(slot, fd)).(dispatched := s.dispatched[slot := s.dispatched[slot] + 1])
  }

  /** The end of a handled request: try_rearm_keepalive, or drop the connection. */
  function ApplyFinish(c: Config, s: State, w: int, keepAlive: bool, now: int): (s': State)
    requires s.Shaped() && WorkerEnabled(c, s, Finish(w, keepAlive, now))
    ensures s'.Shaped()
  {
    var Handling(slot, fd) := s.workers[w];
    var served := s.pool.slots[slot].requestsServed;
    if !keepAlive || served >= MAX_KEEPALIVE_REQUESTS then SetWorker(s, w, Dropping(slot, fd))
    else
      var t := Enable(Touch(s, slot, now, 0, served + 1), fd, slot);
      if s.knotes[fd].Knote? then SetWorker(t, w, Idle) else SetWorker(t, w, Dropping(slot, fd))
  }

  function WorkerApply(c: Config, s: State, step: Step): (s': State)
    requires s.Shaped() && WorkerEnabled(c, s, step)
    ensures s'.Shaped()
  {
    match step
    case Pop(w) => s.(queue := s.queue[1..], workers := s.workers[w := Popped(s.queue[0])])
    case CheckPopped(w) =>
      var slot := s.workers[w].slot;
      var fd := s.pool.slots[slot].fd;
      if s.Slot(fd) && !IsStale(s.pool, fd, slot) then SetWorker(s, w, Receiving(slot, fd))
      else SetWorker(s, w, Idle)
    case RecvCall(w) =>
      var Receiving(slot, fd) := s.workers[w];
      var count := s.pool.slots[slot].bytesRead;
      SetWorker(s, w, Awaiting(slot, fd, count, Room(c, count)))
    case RecvDone(w, n, now) => ApplyRecvDone(c, s, w, n, now)
    case Examine(w, what) => ApplyExamine(c, s, w, what)
    case RecvAgain(w) => SetWorker(Enable(s, s.workers[w].fd, s.workers[w].slot), w, Idle)
    case RecvEnd(w) => SetWorker(s, w, Dropping(s.workers[w].slot, s.workers[w].fd))
    case Finish(w, keepAlive, now) => ApplyFinish(c, s, w, keepAlive, now)
    case DeleteKnote(w) =>
      SetWorker(s.(knotes := s.knotes[s.workers[w].fd := NoKnote]), w,
                Deleted(s.workers[w].slot, s.workers[w].fd))
    case WorkerClose(w) =>
      SetWorker(CloseFd(s, s.workers[w].fd), w, WorkerClosed(s.workers[w].slot, s.workers[w].fd))
    case WorkerFree(w) => SetWorker(FreeFd(s, s.workers[w].fd), w, Idle)
  }

  predicate IsWorkerStep(step: Step) {
    step.Pop? || step.CheckPopped? || step.RecvCall? || step.RecvDone? || step.RecvAgain? || step.RecvEnd? ||
    step.Examine? || step.Finish? || step.DeleteKnote? || step.WorkerClose? || step.WorkerFree?
  }

  // ----- descriptors opened by handlers ----------------------------------------------------

  predicate IsFileStep(step: Step) { step.HandlerOpen? || step.HandlerClose? }

  /** A new number is one that is not open; a thread closes only what it opened. */
  predicate FileEnabled(s: State, step: Step) {
    match step
    case HandlerOpen(t, fd) => 0 <= fd && fd !in s.open && (s.Worker(t) ==> s.workers[t].Handling?)
    case HandlerClose(t, fd) => (t, fd) in s.files && (s.Worker(t) ==> s.workers[t].Handling?)
    case _ => false
  }

  function FileApply(s: State, step: Step): (s': State)
    requires s.Shaped() && FileEnabled(s, step)
    ensures s'.Shaped()
  {
    match step
    case HandlerOpen(t, fd) => s.(open := s.open + {fd}, files := s.files + {(t, fd)})
    case HandlerClose(t, fd) => CloseFd(s, fd).(files := s.files - {(t, fd)})
  }

  predicate Enabled(c: Config, s: State, step: Step)
    requires s.Shaped()
  {
    if IsFileStep(step) then FileEnabled(s, step)
    else if IsWorkerStep(step) then WorkerEnabled(c, s, step) else DispatcherEnabled(s, step)
  }

  function Apply(c: Config, s: State, step: Step): (s': State)
    requires s.Shaped() && Enabled(c, s, step)
    ensures s'.Shaped()
  {
    if IsFileStep(step) then FileApply(s, step)
    else if IsWorkerStep(step) then WorkerApply(c, s, step) else DispatcherApply(c, s, step)
  }

  function InitialState(c: Config, n: nat, workers: nat): (s: State)
    ensures s.Shaped()
  {
    State(Initial(n), c.own, seq(n, _ => NoKnote), Polling, [], [], seq(workers, _ => Idle), {},
          seq(n, _ => 0), true)
  }
}
