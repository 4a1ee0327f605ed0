/**
 Exclusive ownership of connections in the hand-off protocol.

 The invariant is a conservation law: every record of the pool is in exactly one place,
 counting the free stack and the armed registrations as places, and every open descriptor
 number has exactly one owner: the server, a connection, or a thread that opened it for itself.
 Exclusive ownership, the queue bound and the per-connection counters follow from it.
 */
module HandoffProof {
  import opened Common
  import opened ConnectionPool
  import opened Handoff

  // ----- counting tokens ------------------------------------------------------------------

  function Bit(b: bool): nat { if b then 1 else 0 }

  /** How many elements of `s` hold record `x`. */
  ghost function Tally<T>(s: seq<T>, slotOf: T -> int, x: int): nat {
    if s == [] then 0 else Bit(slotOf(s[0]) == x) + Tally(s[1..], slotOf, x)
  }

  lemma {:induction false} TallyUpdated<T>(s: seq<T>, i: int, y: T, slotOf: T -> int, x: int)
    requires 0 <= i < |s|
    ensures Tally(s[i := y], slotOf, x) + Bit(slotOf(s[i]) == x) == Tally(s, slotOf, x) + Bit(slotOf(y) == x)
    ensures slotOf(s[i]) == x ==> Tally(s, slotOf, x) >= 1
  {
    if i == 0 {
      assert s[i := y][1..] == s[1..];
    } else {
      assert s[i := y][1..] == s[1..][i - 1 := y];
      TallyUpdated(s[1..], i - 1, y, slotOf, x);
    }
  }

  lemma {:induction false} TallyAppended<T>(s: seq<T>, y: T, slotOf: T -> int, x: int)
    ensures Tally(s + [y], slotOf, x) == Tally(s, slotOf, x) + Bit(slotOf(y) == x)
  {
    if s == [] {
      assert (s + [y])[1..] == [];
    } else {
      assert (s + [y])[1..] == s[1..] + [y];
      TallyAppended(s[1..], y, slotOf, x);
    }
  }

  lemma {:induction false} TallyNone<T>(s: seq<T>, slotOf: T -> int, x: int)
    ensures Tally(s, slotOf, x) == 0 <==> forall i :: 0 <= i < |s| ==> slotOf(s[i]) != x
  {
    if s != [] {
      TallyNone(s[1..], slotOf, x);
      if Tally(s, slotOf, x) == 0 {
        forall i | 0 <= i < |s| ensures slotOf(s[i]) != x {
          if i > 0 { assert s[1..][i - 1] == s[i]; }
        }
      }
    }
  }

  lemma {:induction false} TallyTwo<T>(s: seq<T>, i: int, j: int, slotOf: T -> int)
    requires 0 <= i < j < |s| && slotOf(s[i]) == slotOf(s[j])
    ensures Tally(s, slotOf, slotOf(s[i])) >= 2
  {
    if i == 0 {
      assert s[1..][j - 1] == s[j];
      TallyNone(s[1..], slotOf, slotOf(s[i]));
    } else {
      TallyTwo(s[1..], i - 1, j - 1, slotOf);
    }
  }

  // ----- who holds what -------------------------------------------------------------------

  function ArmedSlot(k: Knote): int { if k.Knote? && k.enabled then k.slot else NULL_SLOT }

  function EventSlot(e: Event): int { e.slot }

  function Itself(slot: int): int { slot }

  function DispatcherSlot(pc: DispatcherPc): int {
    match pc
    case SweepClosed(_, victim, _) => victim
    case Accepted(_, slot) => slot
    case Checked(_, slot, _) => slot
    case DispatcherClosed(_, slot) => slot
    case _ => NULL_SLOT
  }

  function WorkerSlot(pc: WorkerPc): int { if pc.Idle? then NULL_SLOT else pc.slot }

  /** The places outside the kernel that can hold a connection pointer. */
  datatype Holders = Holders(batch: seq<Event>, disp: DispatcherPc, queue: seq<int>, workers: seq<WorkerPc>)

  function HoldersOf(s: State): Holders { Holders(s.batch, s.disp, s.queue, s.workers) }

  ghost function HolderCount(h: Holders, x: int): nat {
    Tally(h.batch, EventSlot, x) + Bit(DispatcherSlot(h.disp) == x)
      + Tally(h.queue, Itself, x) + Tally(h.workers, WorkerSlot, x)
  }

  /** In how many places record `x` is: the free stack, armed in kqueue, or held somewhere. */
  ghost function Places(s: State, x: int): nat {
    Tally(s.knotes, ArmedSlot, x) + HolderCount(HoldersOf(s), x) + Tally(s.pool.free, Itself, x)
  }

  ghost predicate Conserved(s: State) {
    forall x :: 0 <= x < s.pool.Size() ==> Places(s, x) == 1
  }

  // ----- what a holder knows about its connection ---------------------------------------------

  ghost predicate Linked(s: State, fd: int, slot: int)
    requires s.Shaped()
  {
    s.Slot(fd) && s.Slot(slot) && s.pool.connections[fd] == slot
  }

  /** Disabled in kqueue, with every counted request already answered. */
  ghost predicate Waiting(s: State, fd: int, slot: int)
    requires s.Shaped()
  {
    && Linked(s, fd, slot) && s.knotes[fd] == Knote(slot, false)
    && s.dispatched[slot] == s.pool.slots[slot].requestsServed
  }

  ghost predicate Closing(s: State, fd: int, slot: int)
    requires s.Shaped()
  {
    Linked(s, fd, slot) && s.knotes[fd] == NoKnote
  }

  /** Thread `t`, or any thread, has opened `fd` for itself. */
  ghost predicate IsFile(s: State, fd: int) { exists t :: (t, fd) in s.files }

  /** The number is open as the connection's socket. */
  ghost predicate SocketOpen(s: State, fd: int) { fd in s.open && !IsFile(s, fd) }

  /** The connection's socket is closed; the number may have been opened by some thread since. */
  ghost predicate SocketClosed(s: State, fd: int) { fd in s.open ==> IsFile(s, fd) }

  /** What the owner of one descriptor number may rely on. */
  ghost predicate NumberOk(c: Config, s: State, fd: int)
    requires s.Shaped()
  {
    && (IsFile(s, fd) ==> fd in s.open && fd !in c.own && (s.Slot(fd) ==> s.knotes[fd].NoKnote?))
    && (fd in c.own ==> fd in s.open && !s.pool.Serves(fd))
    && (fd in s.open ==> fd in c.own || IsFile(s, fd) || s.pool.Serves(fd))
  }

  ghost predicate OneOwner(s: State) {
    forall t, t', fd :: (t, fd) in s.files && (t', fd) in s.files ==> t == t'
  }

  ghost predicate NumbersOk(c: Config, s: State)
    requires s.Shaped()
  {
    OneOwner(s) && forall fd :: NumberOk(c, s, fd)
  }

  ghost predicate PointerOk(s: State, slot: int)
    requires s.Shaped()
  {
    s.Slot(slot) && Waiting(s, s.pool.slots[slot].fd, slot)
  }

  ghost predicate DispatcherOk(s: State, pc: DispatcherPc)
    requires s.Shaped()
  {
    match pc
    case Sweeping(todo) => forall i :: 0 <= i < |todo| ==> s.Slot(todo[i])
    case SweepClosed(fd, victim, rest) =>
      && (forall i :: 0 <= i < |rest| ==> s.Slot(rest[i]))
      && s.Slot(fd)
      && (if victim == NULL_SLOT then s.pool.connections[fd] == NULL_SLOT
          else Closing(s, fd, victim) && SocketClosed(s, fd))
    case Accepted(fd, slot) =>
      && Closing(s, fd, slot) && SocketOpen(s, fd)
      && s.dispatched[slot] == 0 == s.pool.slots[slot].requestsServed
    case Checked(fd, slot, _) => Waiting(s, fd, slot)
    case DispatcherClosed(fd, slot) => Closing(s, fd, slot) && SocketClosed(s, fd)
    case _ => true
  }

  ghost predicate WorkerOk(c: Config, s: State, pc: WorkerPc)
    requires s.Shaped()
  {
    match pc
    case Idle => true
    case Popped(slot) => PointerOk(s, slot)
    case Receiving(slot, fd) => Waiting(s, fd, slot)
    case Awaiting(slot, fd, start, room) =>
      && Waiting(s, fd, slot)
      && start == s.pool.slots[slot].bytesRead && start + room == c.maxReqSize - 1
    case Examining(slot, fd) => Waiting(s, fd, slot)
    case Handling(slot, fd) =>
      && Linked(s, fd, slot) && s.knotes[fd] == Knote(slot, false)
      && s.dispatched[slot] == s.pool.slots[slot].requestsServed + 1
    case Dropping(slot, fd) => Linked(s, fd, slot) && s.knotes[fd] == Knote(slot, false)
    case Deleted(slot, fd) => Closing(s, fd, slot) && SocketOpen(s, fd)
    case WorkerClosed(slot, fd) => Closing(s, fd, slot) && SocketClosed(s, fd)
  }

  ghost predicate HoldersOk(c: Config, s: State, h: Holders)
    requires s.Shaped()
  {
    && (forall i :: 0 <= i < |h.batch| ==> Waiting(s, h.batch[i].fd, h.batch[i].slot))
    && DispatcherOk(s, h.disp)
    && (forall i :: 0 <= i < |h.queue| ==> PointerOk(s, h.queue[i]))
    && (forall w :: 0 <= w < |h.workers| ==> WorkerOk(c, s, h.workers[w]))
  }

  ghost predicate KnoteOk(s: State, fd: int)
    requires s.Shaped() && s.Slot(fd)
  {
    s.knotes[fd].Knote? ==>
      && fd in s.open
      && Linked(s, fd, s.knotes[fd].slot)
      && (s.knotes[fd].enabled ==>
            s.dispatched[s.knotes[fd].slot] == s.pool.slots[s.knotes[fd].slot].requestsServed)
  }

  ghost predicate CountersOk(c: Config, s: State)
    requires s.Shaped()
  {
    forall slot :: 0 <= slot < s.pool.Size() ==>
      && s.pool.slots[slot].bytesRead < c.maxReqSize
      && s.pool.slots[slot].requestsServed <= MAX_KEEPALIVE_REQUESTS
      && s.dispatched[slot] <= MAX_KEEPALIVE_REQUESTS + 1
  }

  /** The protocol invariant of runs whose sweeps are harmless. */
  ghost predicate Exclusive(c: Config, s: State) {
    && s.Shaped()
    && Conserved(s)
    && (forall fd :: 0 <= fd < s.pool.Size() ==> KnoteOk(s, fd))
    && HoldersOk(c, s, HoldersOf(s))
    && CountersOk(c, s)
    && NumbersOk(c, s)
    && s.intact
  }

  // ----- framing ---------------------------------------------------------------------------------

  ghost predicate Avoids(h: Holders, a: int) {
    && (forall i :: 0 <= i < |h.batch| ==> h.batch[i].slot != a)
    && DispatcherSlot(h.disp) != a
    && (forall i :: 0 <= i < |h.queue| ==> h.queue[i] != a)
    && (forall w :: 0 <= w < |h.workers| ==> WorkerSlot(h.workers[w]) != a)
  }

  lemma NoTokenMeansAvoids(h: Holders, a: int)
    requires a != NULL_SLOT && HolderCount(h, a) == 0
    ensures Avoids(h, a)
  {
    TallyNone(h.batch, EventSlot, a);
    TallyNone(h.queue, Itself, a);
    TallyNone(h.workers, WorkerSlot, a);
  }

  /** The two states differ only in what concerns descriptor `fd` and record `a`. */
  ghost predicate AgreeExcept(s: State, s': State, fd: int, a: int)
    requires s.Shaped() && s'.Shaped()
  {
    && s'.pool.Size() == s.pool.Size()
    && s.Slot(fd) && (s.pool.connections[fd] == a || s.pool.connections[fd] == NULL_SLOT)
    && (forall i :: 0 <= i < s.pool.Size() && i != fd ==>
          s'.pool.connections[i] == s.pool.connections[i] && s'.knotes[i] == s.knotes[i])
    && (forall i :: i != fd ==> (i in s'.open <==> i in s.open))
    && s'.files == s.files && s'.intact
    && (forall i :: 0 <= i < s.pool.Size() && i != a ==>
          s'.pool.slots[i] == s.pool.slots[i] && s'.dispatched[i] == s.dispatched[i])
  }

  lemma FrameLinked(s: State, s': State, fd: int, a: int, fd': int, slot: int)
    requires s.Shaped() && s'.Shaped() && AgreeExcept(s, s', fd, a)
    requires Linked(s, fd', slot) && slot != a
    ensures fd' != fd && Linked(s', fd', slot) && s'.knotes[fd'] == s.knotes[fd']
    ensures SocketOpen(s', fd') == SocketOpen(s, fd') && SocketClosed(s', fd') == SocketClosed(s, fd')
    ensures s'.pool.slots[slot] == s.pool.slots[slot] && s'.dispatched[slot] == s.dispatched[slot]
  {
  }

  lemma FrameWorker(c: Config, s: State, s': State, fd: int, a: int, pc: WorkerPc)
    requires s.Shaped() && s'.Shaped() && AgreeExcept(s, s', fd, a)
    requires WorkerOk(c, s, pc) && WorkerSlot(pc) != a
    ensures WorkerOk(c, s', pc)
  {
    match pc
    case Idle =>
    case Popped(slot) => FrameLinked(s, s', fd, a, s.pool.slots[slot].fd, slot);
    case _ => FrameLinked(s, s', fd, a, pc.fd, pc.slot);
  }

  lemma FrameDispatcher(s: State, s': State, fd: int, a: int, pc: DispatcherPc)
    requires s.Shaped() && s'.Shaped() && AgreeExcept(s, s', fd, a)
    requires DispatcherOk(s, pc) && DispatcherSlot(pc) != a
    requires pc.SweepClosed? ==> s.pool.connections[fd] != NULL_SLOT
    ensures DispatcherOk(s', pc)
  {
    match pc
    case SweepClosed(fd', victim, _) =>
      if victim != NULL_SLOT { FrameLinked(s, s', fd, a, fd', victim); }
    case Accepted(fd', slot) => FrameLinked(s, s', fd, a, fd', slot);
    case Checked(fd', slot, _) => FrameLinked(s, s', fd, a, fd', slot);
    case DispatcherClosed(fd', slot) => FrameLinked(s, s', fd, a, fd', slot);
    case _ =>
  }

  lemma FrameHolders(c: Config, s: State, s': State, fd: int, a: int, h: Holders)
    requires s.Shaped() && s'.Shaped() && AgreeExcept(s, s', fd, a)
    requires HoldersOk(c, s, h) && Avoids(h, a)
    requires h.disp.SweepClosed? ==> s.pool.connections[fd] != NULL_SLOT
    ensures HoldersOk(c, s', h)
  {
    forall i | 0 <= i < |h.batch| ensures Waiting(s', h.batch[i].fd, h.batch[i].slot) {
      FrameLinked(s, s', fd, a, h.batch[i].fd, h.batch[i].slot);
    }
    FrameDispatcher(s, s', fd, a, h.disp);
    forall i | 0 <= i < |h.queue| ensures PointerOk(s', h.queue[i]) {
      FrameLinked(s, s', fd, a, s.pool.slots[h.queue[i]].fd, h.queue[i]);
    }
    forall w | 0 <= w < |h.workers| ensures WorkerOk(c, s', h.workers[w]) {
      FrameWorker(c, s, s', fd, a, h.workers[w]);
    }
  }

  lemma FrameKnote(s: State, s': State, fd: int, a: int, i: int)
    requires s.Shaped() && s'.Shaped() && AgreeExcept(s, s', fd, a)
    requires s.Slot(i) && i != fd && KnoteOk(s, i)
    requires s.pool.connections[fd] == NULL_SLOT ==> a in s.pool.free
    ensures KnoteOk(s', i)
  {
    if s.knotes[i].Knote? {
      if s.pool.connections[fd] == a { assert s.pool.slots[a].fd == fd; }
      FrameLinked(s, s', fd, a, i, s.knotes[i].slot);
    }
  }

  lemma FrameNumbers(c: Config, s: State, s': State, fd: int, a: int)
    requires s.Shaped() && s'.Shaped() && AgreeExcept(s, s', fd, a) && NumbersOk(c, s) && NumberOk(c, s', fd)
    ensures NumbersOk(c, s')
  {
    forall i ensures NumberOk(c, s', i) {
      if i != fd { assert NumberOk(c, s, i); }
    }
  }

  /**
   The common part of every step that acts on one connection: with the acting holder taken
   out (`h`), everything else keeps its invariant.
   */
  lemma FrameStep(c: Config, s: State, s': State, fd: int, a: int, h: Holders)
    requires Exclusive(c, s) && s'.Shaped() && AgreeExcept(s, s', fd, a)
    requires s.pool.connections[fd] == NULL_SLOT ==> a in s.pool.free
    requires HoldersOk(c, s, h) && s.Slot(a) && HolderCount(h, a) == 0
    requires h.disp.SweepClosed? ==> s.pool.connections[fd] != NULL_SLOT
    requires KnoteOk(s', fd) && NumberOk(c, s', fd)
    ensures HoldersOk(c, s', h)
    ensures forall i :: 0 <= i < s'.pool.Size() ==> KnoteOk(s', i)
    ensures NumbersOk(c, s')
  {
    FrameNumbers(c, s, s', fd, a);
    NoTokenMeansAvoids(h, a);
    FrameHolders(c, s, s', fd, a, h);
    forall i | 0 <= i < s'.pool.Size() ensures KnoteOk(s', i) {
      if i != fd { FrameKnote(s, s', fd, a, i); }
    }
  }

  /** A step that moves pointers between holders without touching pool or registrations. */
  lemma RelabelKeeps(c: Config, s: State, s': State)
    requires Exclusive(c, s)
    requires s'.pool == s.pool && s'.knotes == s.knotes && s'.dispatched == s.dispatched
    requires s'.open == s.open && s'.files == s.files && s'.intact == s.intact
    requires forall i :: 0 <= i < |s'.batch| ==> Waiting(s, s'.batch[i].fd, s'.batch[i].slot)
    requires forall i :: 0 <= i < |s'.queue| ==> PointerOk(s, s'.queue[i])
    requires forall w :: 0 <= w < |s'.workers| ==> WorkerOk(c, s, s'.workers[w])
    requires DispatcherOk(s', s'.disp)
    requires forall x :: 0 <= x < s.pool.Size() ==>
      HolderCount(HoldersOf(s'), x) == HolderCount(HoldersOf(s), x)
    ensures Exclusive(c, s')
  {
    forall x | 0 <= x < s.pool.Size() ensures Places(s', x) == 1 { assert Places(s, x) == 1; }
    forall i | 0 <= i < s.pool.Size() ensures KnoteOk(s', i) { assert KnoteOk(s, i); }
    forall i ensures NumberOk(c, s', i) { assert NumberOk(c, s, i); }
    forall i | 0 <= i < |s'.batch| ensures Waiting(s', s'.batch[i].fd, s'.batch[i].slot) {
      assert Waiting(s, s'.batch[i].fd, s'.batch[i].slot);
    }
    forall i | 0 <= i < |s'.queue| ensures PointerOk(s', s'.queue[i]) { assert PointerOk(s, s'.queue[i]); }
    forall w | 0 <= w < |s'.workers| ensures WorkerOk(c, s', s'.workers[w]) { assert WorkerOk(c, s, s'.workers[w]); }
  }

  // ----- dispatcher steps ------------------------------------------------------------------------

  /** A step of the dispatcher that takes record `a` off the free stack or out of kqueue. */
  lemma TakeKeeps(c: Config, s: State, s': State, fd: int, a: int)
    requires Exclusive(c, s) && s'.Shaped() && AgreeExcept(s, s', fd, a) && Conserved(s')
    requires s.pool.connections[fd] == NULL_SLOT ==> a in s.pool.free
    requires s.Slot(a) && HolderCount(HoldersOf(s), a) == 0 && !s.disp.SweepClosed?
    requires s'.queue == s.queue && s'.workers == s.workers && s.batch <= s'.batch
    requires forall i :: |s.batch| <= i < |s'.batch| ==> Waiting(s', s'.batch[i].fd, s'.batch[i].slot)
    requires KnoteOk(s', fd) && NumberOk(c, s', fd) && DispatcherOk(s', s'.disp) && CountersOk(c, s')
    ensures Exclusive(c, s')
  {
    hide Conserved, Pool.WellFormed, KnoteOk, NumberOk, DispatcherOk, WorkerOk, PointerOk, Waiting;
    FrameStep(c, s, s', fd, a, HoldersOf(s));
  }

  lemma DeliverKeeps(c: Config, s: State, fd: int, eof: bool)
    requires Exclusive(c, s) && DispatcherEnabled(s, Deliver(fd, eof))
    ensures Exclusive(c, DispatcherApply(c, s, Deliver(fd, eof)))
  {
    var s', a := ApplyDeliver(s, fd, eof), s.knotes[fd].slot;
    assert DispatcherApply(c, s, Deliver(fd, eof)) == s';
    DeliverEffect(c, s, fd, eof);
    hide DispatcherApply, Tally, KnoteOk, NumberOk, WorkerOk, PointerOk, Waiting, AgreeExcept;
    DisarmedPlaces(s, s', fd, a);
    TakeKeeps(c, s, s', fd, a);
  }

  lemma DeliverEffect(c: Config, s: State, fd: int, eof: bool)
    requires Exclusive(c, s) && DispatcherEnabled(s, Deliver(fd, eof))
    ensures var s', a := ApplyDeliver(s, fd, eof), s.knotes[fd].slot;
      && s.Slot(a) && s.pool.connections[fd] == a && AgreeExcept(s, s', fd, a)
      && KnoteOk(s', fd) && NumberOk(c, s', fd) && DispatcherOk(s', s'.disp) && CountersOk(c, s')
      && Waiting(s', fd, a)
  {
    assert KnoteOk(s, fd) && NumberOk(c, s, fd);
  }

  /** A connection that leaves kqueue for the batch or for the dispatcher is still in one place. */
  lemma DisarmedPlaces(s: State, s': State, fd: int, a: int)
    requires s.Shaped() && Conserved(s) && s.Slot(fd) && s.Slot(a) && s.knotes[fd] == Knote(a, true)
    requires s'.pool == s.pool && s'.queue == s.queue && s'.workers == s.workers
    requires |s'.knotes| == |s.knotes| && s'.knotes == s.knotes[fd := s'.knotes[fd]]
    requires ArmedSlot(s'.knotes[fd]) == NULL_SLOT == DispatcherSlot(s.disp)
    requires DispatcherSlot(s'.disp) == a || DispatcherSlot(s'.disp) == NULL_SLOT
    requires DispatcherSlot(s'.disp) == a ==> s'.batch == s.batch
    requires DispatcherSlot(s'.disp) == NULL_SLOT ==>
      |s'.batch| > 0 && s'.batch == s.batch + [s'.batch[|s'.batch| - 1]] && s'.batch[|s'.batch| - 1].slot == a
    ensures Conserved(s') && HolderCount(HoldersOf(s), a) == 0
  {
    hide Tally, Pool.WellFormed;
    forall x | 0 <= x < s.pool.Size() ensures Places(s', x) == 1 && (x == a ==> HolderCount(HoldersOf(s), x) == 0) {
      assert Places(s, x) == 1;
      TallyUpdated(s.knotes, fd, s'.knotes[fd], ArmedSlot, x);
      if DispatcherSlot(s'.disp) != a { TallyAppended(s.batch, s'.batch[|s'.batch| - 1], EventSlot, x); }
    }
  }

  /** A step of the dispatcher that only moves the connection it holds. */
  lemma DispatcherMoveKeeps(c: Config, s: State, s': State, fd: int, a: int)
    requires Exclusive(c, s) && s'.Shaped() && AgreeExcept(s, s', fd, a)
    requires s.Slot(a) && s.pool.connections[fd] == a && DispatcherSlot(s.disp) == a
    requires s'.batch == s.batch && s'.queue == s.queue && s'.workers == s.workers
    requires KnoteOk(s', fd) && NumberOk(c, s', fd) && DispatcherOk(s', s'.disp) && CountersOk(c, s')
    requires forall x :: 0 <= x < s.pool.Size() ==>
      Tally(s'.knotes, ArmedSlot, x) + Bit(DispatcherSlot(s'.disp) == x) + Tally(s'.pool.free, Itself, x)
        == Tally(s.knotes, ArmedSlot, x) + Bit(a == x) + Tally(s.pool.free, Itself, x)
    ensures Exclusive(c, s')
  {
    forall x | 0 <= x < s.pool.Size() ensures Places(s', x) == 1 { assert Places(s, x) == 1; }
    assert Places(s, a) == 1;
    FrameStep(c, s, s', fd, a, HoldersOf(s).(disp := Serving));
  }

  lemma ClosedKnote(s: State, fd: int, x: int)
    requires s.Shaped() && s.Slot(fd) && ArmedSlot(s.knotes[fd]) == NULL_SLOT && x != NULL_SLOT
    ensures Tally(CloseFd(s, fd).knotes, ArmedSlot, x) == Tally(s.knotes, ArmedSlot, x)
  {
    TallyUpdated(s.knotes, fd, NoKnote, ArmedSlot, x);
  }

  /** close(fd) by the dispatcher of the connection it holds. */
  lemma DispatcherCloseKeeps(c: Config, s: State, fd: int, a: int)
    requires Exclusive(c, s) && DispatcherSlot(s.disp) == a && Linked(s, fd, a)
    requires ArmedSlot(s.knotes[fd]) == NULL_SLOT && SocketOpen(s, fd)
    ensures Exclusive(c, CloseFd(s, fd).(disp := DispatcherClosed(fd, a)))
  {
    assert NumberOk(c, s, fd);
    var s' := CloseFd(s, fd).(disp := DispatcherClosed(fd, a));
    forall x | 0 <= x < s.pool.Size()
      ensures Tally(s'.knotes, ArmedSlot, x) == Tally(s.knotes, ArmedSlot, x)
    {
      ClosedKnote(s, fd, x);
    }
    DispatcherMoveKeeps(c, s, s', fd, a);
  }

  lemma RegisterKeeps(c: Config, s: State, ok: bool)
    requires Exclusive(c, s) && DispatcherEnabled(s, Register(ok))
    ensures Exclusive(c, DispatcherApply(c, s, Register(ok)))
  {
    var Accepted(fd, a) := s.disp;
    assert NumberOk(c, s, fd);
    if ok {
      var s' := DispatcherApply(c, s, Register(ok));
      forall x | 0 <= x < s.pool.Size()
        ensures Tally(s'.knotes, ArmedSlot, x) == Tally(s.knotes, ArmedSlot, x) + Bit(a == x)
      {
        TallyUpdated(s.knotes, fd, Knote(a, true), ArmedSlot, x);
      }
      DispatcherMoveKeeps(c, s, s', fd, a);
    } else {
      DispatcherCloseKeeps(c, s, fd, a);
    }
  }

  /** What freeing a closed connection changes: its own record and descriptor, and the free stack. */
  lemma FreeEffect(c: Config, s: State, fd: int, a: int)
    requires s.Shaped() && Closing(s, fd, a) && SocketClosed(s, fd) && CountersOk(c, s) && NumbersOk(c, s)
    requires s.intact
    ensures var s' := FreeFd(s, fd);
      && AgreeExcept(s, s', fd, a) && KnoteOk(s', fd) && NumberOk(c, s', fd) && CountersOk(c, s')
      && s' == s.(pool := s'.pool) && s'.pool.Size() == s.pool.Size()
      && s'.pool.free == s.pool.free + [a]
  {
    assert s.pool.slots[a].bytesRead < c.maxReqSize;
    assert NumberOk(c, s, fd);
  }

  lemma FreedPlaces(s: State, fd: int, a: int, x: int)
    requires s.Shaped() && FreeFd(s, fd).pool.free == s.pool.free + [a]
    ensures Tally(FreeFd(s, fd).pool.free, Itself, x) == Tally(s.pool.free, Itself, x) + Bit(a == x)
  {
    TallyAppended(s.pool.free, a, Itself, x);
  }

  /** Freeing the connection the dispatcher has closed gives its record back to the stack. */
  lemma DispatcherFreeKeeps(c: Config, s: State, fd: int, a: int, pc: DispatcherPc)
    requires Exclusive(c, s) && DispatcherSlot(s.disp) == a && Closing(s, fd, a) && SocketClosed(s, fd)
    requires DispatcherOk(s, pc) && DispatcherSlot(pc) == NULL_SLOT
    ensures Exclusive(c, FreeFd(s, fd).(disp := pc))
  {
    var s' := FreeFd(s, fd).(disp := pc);
    FreeEffect(c, s, fd, a);
    forall x | 0 <= x < s.pool.Size()
      ensures Tally(s'.pool.free, Itself, x) == Tally(s.pool.free, Itself, x) + Bit(a == x)
    {
      FreedPlaces(s, fd, a, x);
    }
    DispatcherMoveKeeps(c, s, s', fd, a);
  }

  lemma AcceptKeeps(c: Config, s: State, fd: int, now: int)
    requires Exclusive(c, s) && DispatcherEnabled(s, Accept(fd, now)) && c.maxReqSize > 0
    ensures Exclusive(c, DispatcherApply(c, s, Accept(fd, now)))
  {
    assert DispatcherApply(c, s, Accept(fd, now)) == ApplyAccept(c, s, fd, now);
    hide DispatcherApply, Tally, Alloc, KnoteOk, NumberOk, WorkerOk, PointerOk, Waiting, AgreeExcept;
    if CanAlloc(s.pool, fd, c.maxConns) {
      var s', a := ApplyAccept(c, s, fd, now), s.pool.free[|s.pool.free| - 1];
      AcceptEffect(c, s, fd, now);
      AcceptPlaces(s, s', fd, a);
      TakeKeeps(c, s, s', fd, a);
    }
  }

  /** What an accepted connection changes, and what holds of it. */
  lemma AcceptEffect(c: Config, s: State, fd: int, now: int)
    requires Exclusive(c, s) && DispatcherEnabled(s, Accept(fd, now)) && c.maxReqSize > 0
    requires CanAlloc(s.pool, fd, c.maxConns)
    ensures var s', a := ApplyAccept(c, s, fd, now), s.pool.free[|s.pool.free| - 1];
      && s.Slot(a) && a in s.pool.free && s'.pool.free == s.pool.free[..|s.pool.free| - 1]
      && s' == s.(pool := s'.pool, open := s'.open, disp := Accepted(fd, a), dispatched := s'.dispatched)
      && AgreeExcept(s, s', fd, a) && KnoteOk(s', fd) && NumberOk(c, s', fd)
      && DispatcherOk(s', s'.disp) && CountersOk(c, s') && DispatcherSlot(s.disp) == NULL_SLOT
  {
    assert KnoteOk(s, fd) && NumberOk(c, s, fd);
  }

  lemma AcceptPlaces(s: State, s': State, fd: int, a: int)
    requires s.Shaped() && Conserved(s) && s.pool.free != [] && a == s.pool.free[|s.pool.free| - 1]
    requires DispatcherSlot(s.disp) == NULL_SLOT
    requires s'.pool.free == s.pool.free[..|s.pool.free| - 1] && s'.pool.Size() == s.pool.Size()
    requires s'.knotes == s.knotes && HoldersOf(s') == HoldersOf(s).(disp := Accepted(fd, a))
    ensures Conserved(s') && HolderCount(HoldersOf(s), a) == 0
  {
    assert s.pool.free == s'.pool.free + [a];
    forall x | 0 <= x < s.pool.Size() ensures Places(s', x) == 1 && (x == a ==> HolderCount(HoldersOf(s), x) == 0) {
      assert Places(s, x) == 1;
      TallyAppended(s'.pool.free, a, Itself, x);
    }
  }

  lemma CheckEventKeeps(c: Config, s: State)
    requires Exclusive(c, s) && DispatcherEnabled(s, CheckEvent)
    ensures Exclusive(c, DispatcherApply(c, s, CheckEvent))
    ensures !IsStale(s.pool, s.batch[0].fd, s.batch[0].slot)
  {
    var s' := DispatcherApply(c, s, CheckEvent);
    assert Waiting(s, s.batch[0].fd, s.batch[0].slot);
    RelabelKeeps(c, s, s');
  }

  // ----- the queue bound -------------------------------------------------------------------------

  lemma {:induction false} DistinctSize(q: seq<int>, bound: set<int>)
    requires forall i :: 0 <= i < |q| ==> q[i] in bound
    requires Distinct(q)
    ensures |q| <= |bound|
  {
    if q != [] { DistinctSize(q[1..], bound - {q[0]}); }
  }

  lemma QueueDistinct(c: Config, s: State)
    requires Exclusive(c, s)
    ensures Distinct(s.queue)
  {
    forall i, j | 0 <= i < j < |s.queue| ensures s.queue[i] != s.queue[j] {
      assert PointerOk(s, s.queue[i]);
      assert Places(s, s.queue[i]) == 1;
      if s.queue[i] == s.queue[j] { TallyTwo(s.queue, i, j, Itself); }
    }
  }

  /** Pigeonhole: the queued pointers are distinct records other than the one about to be pushed. */
  lemma QueueHasRoom(c: Config, s: State)
    requires Exclusive(c, s) && s.disp.Checked?
    ensures |s.queue| < s.pool.Size()
    ensures Distinct(s.queue)
  {
    QueueDistinct(c, s);
    var a := s.disp.slot;
    assert Places(s, a) == 1;
    TallyNone(s.queue, Itself, a);
    forall i | 0 <= i < |s.queue| ensures s.queue[i] in Indices(s.pool.Size()) - {a} {
      assert PointerOk(s, s.queue[i]);
      assert Itself(s.queue[i]) != a;
    }
    DistinctSize(s.queue, Indices(s.pool.Size()) - {a});
  }

  lemma EnqueueKeeps(c: Config, s: State)
    requires Exclusive(c, s) && DispatcherEnabled(s, Enqueue) && s.pool.Size() <= c.queueCapacity
    ensures Exclusive(c, DispatcherApply(c, s, Enqueue))
  {
    QueueHasRoom(c, s);
    var s' := DispatcherApply(c, s, Enqueue);
    var a := s.disp.slot;
    forall x | 0 <= x < s.pool.Size()
      ensures HolderCount(HoldersOf(s'), x) == HolderCount(HoldersOf(s), x)
    {
      TallyAppended(s.queue, a, Itself, x);
    }
    RelabelKeeps(c, s, s');
  }

  // ----- the idle sweep ----------------------------------------------------------------------------

  /** The connection of `fd` is registered and enabled, so nobody else holds it. */
  predicate Armed(s: State, fd: int)
    requires s.Shaped() && s.Slot(fd)
  {
    s.knotes[fd].Knote? && s.knotes[fd].enabled
  }

  lemma SweepArmedKeeps(c: Config, s: State)
    requires Exclusive(c, s) && DispatcherEnabled(s, SweepClose) && Armed(s, s.disp.todo[0])
    ensures Exclusive(c, DispatcherApply(c, s, SweepClose))
  {
    var fd := s.disp.todo[0];
    var s', a := ApplySweepClose(s), s.knotes[fd].slot;
    assert DispatcherApply(c, s, SweepClose) == s';
    SweepEffect(c, s);
    hide DispatcherApply, Tally, KnoteOk, NumberOk, WorkerOk, PointerOk, Waiting, AgreeExcept;
    DisarmedPlaces(s, s', fd, a);
    TakeKeeps(c, s, s', fd, a);
  }

  lemma SweepEffect(c: Config, s: State)
    requires Exclusive(c, s) && DispatcherEnabled(s, SweepClose) && Armed(s, s.disp.todo[0])
    ensures var fd := s.disp.todo[0];
      var s', a := ApplySweepClose(s), s.knotes[fd].slot;
      && s.Slot(a) && s.pool.connections[fd] == a && AgreeExcept(s, s', fd, a)
      && KnoteOk(s', fd) && NumberOk(c, s', fd) && DispatcherOk(s', s'.disp) && CountersOk(c, s')
      && s'.knotes == s.knotes[fd := NoKnote] && DispatcherSlot(s'.disp) == a
  {
    assert KnoteOk(s, s.disp.todo[0]) && NumberOk(c, s, s.disp.todo[0]);
  }

  lemma SweepUnservedKeeps(c: Config, s: State)
    requires Exclusive(c, s) && DispatcherEnabled(s, SweepClose)
    requires s.pool.connections[s.disp.todo[0]] == NULL_SLOT && s.disp.todo[0] !in s.open
    ensures Exclusive(c, DispatcherApply(c, s, SweepClose))
  {
    var fd := s.disp.todo[0];
    var s' := DispatcherApply(c, s, SweepClose);
    assert KnoteOk(s, fd);
    assert s'.knotes == s.knotes;
    RelabelKeeps(c, s, s');
  }

  /** Sweeping a live connection that somebody else holds puts its record in two places. */
  lemma SweepHeldBreaks(c: Config, s: State)
    requires Exclusive(c, s) && DispatcherEnabled(s, SweepClose)
    requires s.pool.Serves(s.disp.todo[0]) && !Armed(s, s.disp.todo[0])
    ensures !Exclusive(c, DispatcherApply(c, s, SweepClose))
  {
    var fd := s.disp.todo[0];
    var a := s.pool.connections[fd];
    var s' := DispatcherApply(c, s, SweepClose);
    assert Places(s, a) == 1;
    ClosedKnote(s, fd, a);
    assert Places(s', a) == 2;
  }

  /** Sweeping a number that has been opened for something else takes it from its owner. */
  lemma SweepReopenedBreaks(c: Config, s: State)
    requires Exclusive(c, s) && DispatcherEnabled(s, SweepClose)
    requires !s.pool.Serves(s.disp.todo[0]) && s.disp.todo[0] in s.open
    ensures !Exclusive(c, DispatcherApply(c, s, SweepClose))
  {
    var fd := s.disp.todo[0];
    var s' := DispatcherApply(c, s, SweepClose);
    assert NumberOk(c, s, fd);
    assert IsFile(s', fd) == IsFile(s, fd);
    assert !NumberOk(c, s', fd);
  }

  /** A sweep of `fd` does no harm: it is armed, or neither served nor open. */
  predicate Harmless(s: State, fd: int)
    requires s.Shaped() && s.Slot(fd)
  {
    Armed(s, fd) || (!s.pool.Serves(fd) && fd !in s.open)
  }

  /**
   The exact condition on a sweep: taking `fd` keeps ownership exclusive if and only if its
   registration is still enabled, or it is neither served nor open for anything else.
   */
  lemma SweepExactCondition(c: Config, s: State)
    requires Exclusive(c, s) && DispatcherEnabled(s, SweepClose)
    ensures Exclusive(c, DispatcherApply(c, s, SweepClose)) <==> Harmless(s, s.disp.todo[0])
  {
    var fd := s.disp.todo[0];
    assert KnoteOk(s, fd);
    if Armed(s, fd) {
      SweepArmedKeeps(c, s);
    } else if s.pool.Serves(fd) {
      SweepHeldBreaks(c, s);
    } else if fd in s.open {
      SweepReopenedBreaks(c, s);
    } else {
      SweepUnservedKeeps(c, s);
    }
  }

  lemma SweepFreeKeeps(c: Config, s: State)
    requires Exclusive(c, s) && DispatcherEnabled(s, SweepFree)
    ensures Exclusive(c, DispatcherApply(c, s, SweepFree))
  {
    var SweepClosed(fd, victim, rest) := s.disp;
    if victim == NULL_SLOT {
      DispatcherTurnKeeps(c, s, Sweeping(rest));
    } else {
      DispatcherFreeKeeps(c, s, fd, victim, Sweeping(rest));
    }
  }

  /** Steps that only change where the dispatcher stands. */
  lemma DispatcherTurnKeeps(c: Config, s: State, pc: DispatcherPc)
    requires Exclusive(c, s) && DispatcherSlot(s.disp) == NULL_SLOT == DispatcherSlot(pc) && DispatcherOk(s, pc)
    ensures Exclusive(c, s.(disp := pc))
  {
    RelabelKeeps(c, s, s.(disp := pc));
  }

  lemma DispatcherStepKeeps(c: Config, s: State, step: Step)
    requires Exclusive(c, s) && DispatcherEnabled(s, step)
    requires c.maxReqSize > 0 && s.pool.Size() <= c.queueCapacity
    requires step.SweepClose? ==> Harmless(s, s.disp.todo[0])
    ensures Exclusive(c, DispatcherApply(c, s, step))
  {
    match step
    case Deliver(fd, eof) => DeliverKeeps(c, s, fd, eof);
    case BeginSweep(now, timeout) => DispatcherTurnKeeps(c, s, Sweeping(IdleFds(s.pool, now, timeout, 0)));
    case SkipSweep => DispatcherTurnKeeps(c, s, Serving);
    case SweepClose => SweepExactCondition(c, s);
    case SweepFree => SweepFreeKeeps(c, s);
    case EndSweep => DispatcherTurnKeeps(c, s, Serving);
    case Accept(fd, now) => AcceptKeeps(c, s, fd, now);
    case Register(ok) => RegisterKeeps(c, s, ok);
    case CheckEvent => CheckEventKeeps(c, s);
    case Enqueue => EnqueueKeeps(c, s);
    case CloseEof =>
      assert KnoteOk(s, s.disp.fd) && NumberOk(c, s, s.disp.fd);
      DispatcherCloseKeeps(c, s, s.disp.fd, s.disp.slot);
    case DispatcherFree => DispatcherFreeKeeps(c, s, s.disp.fd, s.disp.slot, Serving);
    case EndBatch => DispatcherTurnKeeps(c, s, Polling);
  }

  // ----- worker steps ------------------------------------------------------------------------------

  lemma IdleIsOk(c: Config, s: State)
    requires s.Shaped()
    ensures WorkerOk(c, s, Idle)
  {
  }

  /** A step of one worker that only moves the connection it holds. */
  lemma WorkerMoveKeeps(c: Config, s: State, s': State, w: int, fd: int, a: int)
    requires Exclusive(c, s) && s'.Shaped() && AgreeExcept(s, s', fd, a)
    requires s.Worker(w) && s.Slot(a) && s.pool.connections[fd] == a && WorkerSlot(s.workers[w]) == a
    requires s'.batch == s.batch && s'.queue == s.queue && s'.disp == s.disp
    requires |s'.workers| == |s.workers| && s'.workers == s.workers[w := s'.workers[w]]
    requires KnoteOk(s', fd) && NumberOk(c, s', fd) && WorkerOk(c, s', s'.workers[w]) && CountersOk(c, s')
    requires forall x :: 0 <= x < s.pool.Size() ==>
      Tally(s'.knotes, ArmedSlot, x) + Bit(WorkerSlot(s'.workers[w]) == x) + Tally(s'.pool.free, Itself, x)
        == Tally(s.knotes, ArmedSlot, x) + Bit(a == x) + Tally(s.pool.free, Itself, x)
    ensures Exclusive(c, s')
  {
    hide Tally, Pool.WellFormed, KnoteOk, NumberOk, DispatcherOk, WorkerOk;
    assert WorkerOk(c, s, Idle) by { IdleIsOk(c, s); }
    var h := HoldersOf(s).(workers := s.workers[w := Idle]);
    forall x | 0 <= x < s.pool.Size() ensures Places(s', x) == 1 && (x == a ==> HolderCount(h, x) == 0) {
      assert Places(s, x) == 1;
      TallyUpdated(s.workers, w, s'.workers[w], WorkerSlot, x);
      TallyUpdated(s.workers, w, Idle, WorkerSlot, x);
    }
    FrameStep(c, s, s', fd, a, h);
    forall v | 0 <= v < |s'.workers| ensures WorkerOk(c, s', s'.workers[v]) {
      if v != w { assert h.workers[v] == s'.workers[v]; }
    }
  }

  /** A step of one worker that changes nothing but its own program counter. */
  lemma WorkerTurnKeeps(c: Config, s: State, w: int, pc: WorkerPc)
    requires Exclusive(c, s) && s.Worker(w)
    requires WorkerSlot(pc) == WorkerSlot(s.workers[w]) && WorkerOk(c, s, pc)
    ensures Exclusive(c, SetWorker(s, w, pc))
  {
    var s' := SetWorker(s, w, pc);
    forall x | 0 <= x < s.pool.Size()
      ensures HolderCount(HoldersOf(s'), x) == HolderCount(HoldersOf(s), x)
    {
      TallyUpdated(s.workers, w, pc, WorkerSlot, x);
    }
    RelabelKeeps(c, s, s');
  }

  lemma PopKeeps(c: Config, s: State, w: int)
    requires Exclusive(c, s) && WorkerEnabled(c, s, Pop(w))
    ensures Exclusive(c, WorkerApply(c, s, Pop(w)))
  {
    var s' := WorkerApply(c, s, Pop(w));
    assert PointerOk(s, s.queue[0]);
    forall x | 0 <= x < s.pool.Size()
      ensures HolderCount(HoldersOf(s'), x) == HolderCount(HoldersOf(s), x)
    {
      TallyUpdated(s.workers, w, Popped(s.queue[0]), WorkerSlot, x);
    }
    RelabelKeeps(c, s, s');
  }

  lemma RecvCallKeeps(c: Config, s: State, w: int)
    requires Exclusive(c, s) && WorkerEnabled(c, s, RecvCall(w))
    ensures Exclusive(c, WorkerApply(c, s, RecvCall(w)))
  {
    var Receiving(a, fd) := s.workers[w];
    assert WorkerOk(c, s, s.workers[w]);
    var count := s.pool.slots[a].bytesRead;
    assert count < c.maxReqSize;
    WorkerTurnKeeps(c, s, w, Awaiting(a, fd, count, Room(c, count)));
  }

  /** The answer still fits, because nobody else has touched the count since the call. */
  lemma RecvDoneKeeps(c: Config, s: State, w: int, n: nat, now: int)
    requires Exclusive(c, s) && WorkerEnabled(c, s, RecvDone(w, n, now)) && c.maxReqSize <= c.bufferSize
    ensures Exclusive(c, ApplyRecvDone(c, s, w, n, now))
  {
    var Awaiting(a, fd, start, room) := s.workers[w];
    assert WorkerOk(c, s, s.workers[w]);
    assert KnoteOk(s, fd) && NumberOk(c, s, fd);
    WorkerMoveKeeps(c, s, ApplyRecvDone(c, s, w, n, now), w, fd, a);
  }

  lemma ExamineKeeps(c: Config, s: State, w: int, what: Received)
    requires Exclusive(c, s) && WorkerEnabled(c, s, Examine(w, what))
    ensures Exclusive(c, ApplyExamine(c, s, w, what))
  {
    var Examining(a, fd) := s.workers[w];
    assert WorkerOk(c, s, s.workers[w]);
    var s' := ApplyExamine(c, s, w, what);
    if what.Request? {
      assert KnoteOk(s, fd) && NumberOk(c, s, fd);
      WorkerMoveKeeps(c, s, s', w, fd, a);
    } else {
      WorkerTurnKeeps(c, s, w, s'.workers[w]);
    }
  }

  /** Re-enabling the registration of a held connection hands it back to kqueue. */
  lemma EnableKeeps(c: Config, s: State, s': State, w: int, fd: int, a: int)
    requires Exclusive(c, s) && s.Worker(w) && WorkerSlot(s.workers[w]) == a && Linked(s, fd, a)
    requires s.knotes[fd] == Knote(a, false) && s'.Shaped()
    requires s' == s.(pool := s'.pool, knotes := s.knotes[fd := Knote(a, true)], workers := s.workers[w := Idle])
    requires s'.pool == s.pool.(slots := s.pool.slots[a := s'.pool.slots[a]])
    requires s.dispatched[a] == s'.pool.slots[a].requestsServed
    requires CountersOk(c, s')
    ensures Exclusive(c, s')
  {
    forall x | 0 <= x < s.pool.Size()
      ensures Tally(s'.knotes, ArmedSlot, x) == Tally(s.knotes, ArmedSlot, x) + Bit(a == x)
    {
      TallyUpdated(s.knotes, fd, Knote(a, true), ArmedSlot, x);
    }
    assert KnoteOk(s, fd) && NumberOk(c, s, fd);
    WorkerMoveKeeps(c, s, s', w, fd, a);
  }

  lemma RecvAgainKeeps(c: Config, s: State, w: int)
    requires Exclusive(c, s) && WorkerEnabled(c, s, RecvAgain(w))
    ensures Exclusive(c, WorkerApply(c, s, RecvAgain(w)))
  {
    var Awaiting(a, fd, _, _) := s.workers[w];
    assert WorkerOk(c, s, s.workers[w]);
    EnableKeeps(c, s, WorkerApply(c, s, RecvAgain(w)), w, fd, a);
  }

  lemma FinishKeeps(c: Config, s: State, w: int, keepAlive: bool, now: int)
    requires Exclusive(c, s) && WorkerEnabled(c, s, Finish(w, keepAlive, now))
    ensures Exclusive(c, ApplyFinish(c, s, w, keepAlive, now))
  {
    var Handling(a, fd) := s.workers[w];
    assert WorkerOk(c, s, s.workers[w]);
    if keepAlive && s.pool.slots[a].requestsServed < MAX_KEEPALIVE_REQUESTS {
      var s' := ApplyFinish(c, s, w, keepAlive, now);
      assert CountersOk(c, s') by { assert s.pool.slots[a].bytesRead < c.maxReqSize; }
      EnableKeeps(c, s, s', w, fd, a);
    } else {
      WorkerTurnKeeps(c, s, w, Dropping(a, fd));
    }
  }

  lemma DropKeeps(c: Config, s: State, s': State, w: int, fd: int, a: int, pc: WorkerPc)
    requires Exclusive(c, s) && s.Worker(w) && WorkerSlot(s.workers[w]) == a && Linked(s, fd, a)
    requires ArmedSlot(s.knotes[fd]) == NULL_SLOT && SocketOpen(s, fd)
    requires s' == s.(open := s'.open, knotes := s.knotes[fd := NoKnote], workers := s.workers[w := pc])
    requires (pc == Deleted(a, fd) && s'.open == s.open) || (pc == WorkerClosed(a, fd) && s'.open == s.open - {fd})
    ensures Exclusive(c, s')
  {
    assert NumberOk(c, s, fd);
    forall x | 0 <= x < s.pool.Size()
      ensures Tally(s'.knotes, ArmedSlot, x) == Tally(s.knotes, ArmedSlot, x)
    {
      TallyUpdated(s.knotes, fd, NoKnote, ArmedSlot, x);
    }
    WorkerMoveKeeps(c, s, s', w, fd, a);
  }

  lemma DeleteKnoteKeeps(c: Config, s: State, w: int)
    requires Exclusive(c, s) && WorkerEnabled(c, s, DeleteKnote(w))
    ensures Exclusive(c, WorkerApply(c, s, DeleteKnote(w)))
  {
    var Dropping(a, fd) := s.workers[w];
    assert WorkerOk(c, s, s.workers[w]);
    assert KnoteOk(s, fd) && NumberOk(c, s, fd);
    DropKeeps(c, s, WorkerApply(c, s, DeleteKnote(w)), w, fd, a, Deleted(a, fd));
  }

  lemma WorkerCloseKeeps(c: Config, s: State, w: int)
    requires Exclusive(c, s) && WorkerEnabled(c, s, WorkerClose(w))
    ensures Exclusive(c, WorkerApply(c, s, WorkerClose(w)))
  {
    var Deleted(a, fd) := s.workers[w];
    assert WorkerOk(c, s, s.workers[w]);
    DropKeeps(c, s, WorkerApply(c, s, WorkerClose(w)), w, fd, a, WorkerClosed(a, fd));
  }

  lemma WorkerFreeKeeps(c: Config, s: State, w: int)
    requires Exclusive(c, s) && WorkerEnabled(c, s, WorkerFree(w))
    ensures Exclusive(c, WorkerApply(c, s, WorkerFree(w)))
  {
    var WorkerClosed(a, fd) := s.workers[w];
    assert WorkerOk(c, s, s.workers[w]);
    WorkerFreeMoves(c, s, w, fd, a);
  }

  lemma WorkerFreeMoves(c: Config, s: State, w: int, fd: int, a: int)
    requires Exclusive(c, s) && s.Worker(w) && s.workers[w] == WorkerClosed(a, fd)
    requires Closing(s, fd, a) && SocketClosed(s, fd)
    ensures Exclusive(c, SetWorker(FreeFd(s, fd), w, Idle))
  {
    var s' := SetWorker(FreeFd(s, fd), w, Idle);
    FreeEffect(c, s, fd, a);
    forall x | 0 <= x < s.pool.Size()
      ensures Tally(s'.pool.free, Itself, x) == Tally(s.pool.free, Itself, x) + Bit(a == x)
    {
      FreedPlaces(s, fd, a, x);
    }
    WorkerMoveKeeps(c, s, s', w, fd, a);
  }

  lemma CheckPoppedKeeps(c: Config, s: State, w: int)
    requires Exclusive(c, s) && WorkerEnabled(c, s, CheckPopped(w))
    ensures Exclusive(c, WorkerApply(c, s, CheckPopped(w)))
  {
    var a := s.workers[w].slot;
    assert WorkerOk(c, s, s.workers[w]);
    WorkerTurnKeeps(c, s, w, Receiving(a, s.pool.slots[a].fd));
  }

  lemma RecvEndKeeps(c: Config, s: State, w: int)
    requires Exclusive(c, s) && WorkerEnabled(c, s, RecvEnd(w))
    ensures Exclusive(c, WorkerApply(c, s, RecvEnd(w)))
  {
    assert WorkerOk(c, s, s.workers[w]);
    WorkerTurnKeeps(c, s, w, Dropping(s.workers[w].slot, s.workers[w].fd));
  }

  lemma WorkerStepKeeps(c: Config, s: State, step: Step)
    requires Exclusive(c, s) && WorkerEnabled(c, s, step) && c.maxReqSize <= c.bufferSize
    ensures Exclusive(c, WorkerApply(c, s, step))
  {
    assert s.Shaped();
    hide Exclusive, Pool.WellFormed;
    match step
    case Pop(w) => PopKeeps(c, s, w);
    case CheckPopped(w) => CheckPoppedKeeps(c, s, w);
    case RecvCall(w) => RecvCallKeeps(c, s, w);
    case RecvDone(w, n, now) => RecvDoneKeeps(c, s, w, n, now);
    case Examine(w, what) => ExamineKeeps(c, s, w, what);
    case RecvAgain(w) => RecvAgainKeeps(c, s, w);
    case RecvEnd(w) => RecvEndKeeps(c, s, w);
    case Finish(w, keepAlive, now) => FinishKeeps(c, s, w, keepAlive, now);
    case DeleteKnote(w) => DeleteKnoteKeeps(c, s, w);
    case WorkerClose(w) => WorkerCloseKeeps(c, s, w);
    case WorkerFree(w) => WorkerFreeKeeps(c, s, w);
  }

  // ----- descriptors of handlers -----------------------------------------------------------------

  /** A step that only changes which thread owns number `fd`, before and after not a socket. */
  lemma OwnerStepKeeps(c: Config, s: State, s': State, fd: int)
    requires Exclusive(c, s) && s' == s.(open := s'.open, files := s'.files)
    requires forall i :: i != fd ==> (i in s'.open <==> i in s.open)
    requires forall t, i :: i != fd ==> ((t, i) in s'.files <==> (t, i) in s.files)
    requires !SocketOpen(s, fd) && SocketClosed(s', fd) && NumberOk(c, s', fd) && OneOwner(s')
    ensures Exclusive(c, s')
  {
    forall i | i != fd ensures IsFile(s', i) == IsFile(s, i) {}
    forall i ensures NumberOk(c, s', i) { assert NumberOk(c, s, i); }
    forall x | 0 <= x < s.pool.Size() ensures Places(s', x) == 1 { assert Places(s, x) == 1; }
    forall i | 0 <= i < s.pool.Size() ensures KnoteOk(s', i) {
      assert KnoteOk(s, i) && NumberOk(c, s, i);
    }
    forall w | 0 <= w < |s'.workers| ensures WorkerOk(c, s', s'.workers[w]) { assert WorkerOk(c, s, s'.workers[w]); }
    forall i | 0 <= i < |s'.batch| ensures Waiting(s', s'.batch[i].fd, s'.batch[i].slot) {
      assert Waiting(s, s'.batch[i].fd, s'.batch[i].slot);
    }
    forall i | 0 <= i < |s'.queue| ensures PointerOk(s', s'.queue[i]) { assert PointerOk(s, s'.queue[i]); }
  }

  /** Handlers that open free numbers and close their own never disturb a connection. */
  lemma FileStepKeeps(c: Config, s: State, step: Step)
    requires Exclusive(c, s) && FileEnabled(s, step)
    ensures Exclusive(c, FileApply(s, step))
  {
    var s' := FileApply(s, step);
    assert NumberOk(c, s, step.fd);
    match step
    case HandlerOpen(t, fd) =>
      assert (t, fd) in s'.files;
      assert !IsFile(s, fd);
      if s.Slot(fd) { assert KnoteOk(s, fd); }
      OwnerStepKeeps(c, s, s', fd);
    case HandlerClose(t, fd) =>
      assert IsFile(s, fd) && !IsFile(s', fd);
      assert s'.knotes == s.knotes;
      OwnerStepKeeps(c, s, s', fd);
  }
}
