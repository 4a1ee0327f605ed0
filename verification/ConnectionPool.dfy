/**
 The connection pool of src/net/connection_pool.c.

 A pool owns `n` connection records.  `connections` maps a file descriptor to
 the record that currently serves it, and a LIFO stack lists the records that
 are free.  Pointers into the record array are record indices; NULL is
 `NULL_SLOT`.  The number of records is also the number of admissible
 descriptors, as in the source.
 */
module ConnectionPool {
  import opened Common

  const NULL_SLOT := -1

  datatype Conn = Conn(
    fd: int, gen: nat, created: int, lastActivity: int, bytesRead: nat, requestsServed: nat)

  /** What `memset(conn, 0, ...)` leaves behind. */
  const ZERO_CONN := Conn(0, 0, 0, 0, 0, 0)

  /** The value of a pool; `free` is the live part of the free stack, top last. */
  datatype Pool = Pool(
    connections: seq<int>, connGen: seq<nat>, slots: seq<Conn>, free: seq<int>, active: int)
  {
    function Size(): nat { |connections| }

    predicate InRange(fd: int) { 0 <= fd < Size() }

    /** Descriptor `fd` is served by some record. */
    predicate Serves(fd: int) { InRange(fd) && connections[fd] != NULL_SLOT }

    function ServedFds(): set<int> { set fd | 0 <= fd < Size() && connections[fd] != NULL_SLOT }

    /** Record `slot` is the one its own descriptor field points back to. */
    predicate Owned(slot: int)
      requires |slots| == Size()
    {
      0 <= slot < Size() && InRange(slots[slot].fd) && connections[slots[slot].fd] == slot
    }

    ghost predicate FreeListOk() {
      && (forall i :: 0 <= i < |free| ==> 0 <= free[i] < Size())
      && Distinct(free)
    }

    /** Every served descriptor points at a record that points back, with its generation. */
    ghost predicate LinksOk()
      requires |connGen| == |slots| == Size()
    {
      forall fd :: 0 <= fd < Size() && connections[fd] != NULL_SLOT ==>
        && 0 <= connections[fd] < Size()
        && slots[connections[fd]].fd == fd
        && slots[connections[fd]].gen == connGen[fd]
        && connections[fd] !in free
    }

    /** Each record is on the free stack or serves a descriptor. */
    ghost predicate PartitionOk()
      requires |slots| == Size()
    {
      forall slot :: 0 <= slot < Size() ==> (slot in free || Owned(slot))
    }

    /** The structural invariant that every sequence of calls keeps. */
    ghost predicate WellFormed() {
      && |connGen| == |slots| == Size()
      && (forall fd :: 0 <= fd < Size() ==> connGen[fd] < UINT_MODULUS)
      && FreeListOk()
      && LinksOk()
      && PartitionOk()
      && active == |ServedFds()|
      && active + |free| == Size()
    }
  }

  // ----- specification of the three operations ----------------------------

  function Initial(n: nat): (p: Pool)
    ensures p.WellFormed() && p.active == 0 && p.Size() == n
  {
    var p := Pool(seq(n, _ => NULL_SLOT), seq(n, _ => 0), seq(n, _ => ZERO_CONN),
                  seq(n, i => n - 1 - i), 0);
    InitialWellFormed(n, p);
    p
  }

  lemma InitialWellFormed(n: nat, p: Pool)
    requires p == Pool(seq(n, _ => NULL_SLOT), seq(n, _ => 0), seq(n, _ => ZERO_CONN),
                       seq(n, i => n - 1 - i), 0)
    ensures p.WellFormed()
  {
    assert p.ServedFds() == {};
    forall slot | 0 <= slot < n ensures slot in p.free {
      assert p.free[n - 1 - slot] == slot;
    }
  }

  /** The guard of `miniweb_connection_alloc`. */
  predicate CanAlloc(p: Pool, fd: int, maxConns: int) {
    p.InRange(fd) && p.active < maxConns && p.connections[fd] == NULL_SLOT && p.free != []
  }

  /** The pool after an allocation attempt, and the record handed out or `NULL_SLOT`. */
  function Alloc(p: Pool, fd: int, now: int, maxConns: int): (r: (Pool, int))
    requires p.WellFormed()
    ensures r.0.WellFormed() && r.0.Size() == p.Size()
    ensures r.1 != NULL_SLOT <==> CanAlloc(p, fd, maxConns)
    ensures r.1 == NULL_SLOT ==> r.0 == p
    ensures r.1 != NULL_SLOT ==> r.0.ServedFds() == p.ServedFds() + {fd} && r.0.connections[fd] == r.1
  {
    if !CanAlloc(p, fd, maxConns) then (p, NULL_SLOT)
    else
      var slot := p.free[|p.free| - 1];
      var q := Pool(p.connections[fd := slot], p.connGen,
                    p.slots[slot := Conn(fd, p.connGen[fd], now, now, 0, 0)],
                    p.free[..|p.free| - 1], p.active + 1);
      AllocWellFormed(p, fd, q, slot, now);
      (q, slot)
  }

  lemma AllocWellFormed(p: Pool, fd: int, q: Pool, slot: int, now: int)
    requires p.WellFormed() && p.InRange(fd) && p.connections[fd] == NULL_SLOT && p.free != []
    requires slot == p.free[|p.free| - 1]
    requires q == Pool(p.connections[fd := slot], p.connGen,
                       p.slots[slot := Conn(fd, p.connGen[fd], now, now, 0, 0)],
                       p.free[..|p.free| - 1], p.active + 1)
    ensures q.WellFormed() && q.ServedFds() == p.ServedFds() + {fd}
  {
    assert q.ServedFds() == p.ServedFds() + {fd};
    assert p.free == q.free + [slot];
    AllocPartition(p, fd, q, slot, now);
  }

  lemma AllocPartition(p: Pool, fd: int, q: Pool, slot: int, now: int)
    requires p.WellFormed() && p.InRange(fd) && p.connections[fd] == NULL_SLOT && 0 <= slot < p.Size()
    requires p.free == q.free + [slot] && q.connections == p.connections[fd := slot]
    requires q.slots == p.slots[slot := Conn(fd, p.connGen[fd], now, now, 0, 0)]
    ensures q.PartitionOk()
  {
    forall s | 0 <= s < q.Size() ensures s in q.free || q.Owned(s) {
      if s != slot && s !in q.free {
        assert s !in p.free;
        assert p.Owned(s);
      }
    }
  }

  /** The pool after `miniweb_connection_free(fd)`. */
  function Free(p: Pool, fd: int): (q: Pool)
    requires p.WellFormed()
    ensures q.WellFormed() && q.Size() == p.Size()
    ensures !p.Serves(fd) ==> q == p
    ensures q.ServedFds() == p.ServedFds() - {fd}
  {
    if !p.Serves(fd) then p
    else
      var slot := p.connections[fd];
      var q := Pool(p.connections[fd := NULL_SLOT],
                    p.connGen[fd := (p.connGen[fd] + 1) % UINT_MODULUS],
                    p.slots[slot := ZERO_CONN], p.free + [slot], p.active - 1);
      FreeWellFormed(p, fd, q);
      q
  }

  lemma FreeWellFormed(p: Pool, fd: int, q: Pool)
    requires p.WellFormed() && p.Serves(fd)
    requires q == Pool(p.connections[fd := NULL_SLOT],
                       p.connGen[fd := (p.connGen[fd] + 1) % UINT_MODULUS],
                       p.slots[p.connections[fd] := ZERO_CONN],
                       p.free + [p.connections[fd]], p.active - 1)
    ensures q.WellFormed() && q.ServedFds() == p.ServedFds() - {fd}
  {
    assert q.ServedFds() == p.ServedFds() - {fd};
    var slot := p.connections[fd];
    forall s | 0 <= s < q.Size() ensures s in q.free || q.Owned(s) {
      assert s in p.free || p.Owned(s);
      if s in p.free { assert s in q.free; }
      assert q.free[|q.free| - 1] == slot;
    }
  }

  /** Why the defensive tests of `miniweb_connection_free` never fire. */
  lemma RoomToFree(p: Pool, fd: int)
    requires p.WellFormed() && p.Serves(fd)
    ensures 0 <= p.connections[fd] < p.Size() && |p.free| < p.Size() && p.active > 0
  {
    assert fd in p.ServedFds();
  }

  /** `miniweb_connection_is_stale`, read literally; `conn` may be NULL. */
  predicate IsStale(p: Pool, fd: int, conn: int)
    requires |p.connGen| == |p.slots| == p.Size() && p.InRange(fd)
    requires conn == NULL_SLOT || 0 <= conn < p.Size()
  {
    conn == NULL_SLOT || p.connections[fd] != conn || p.slots[conn].gen != p.connGen[fd]
  }

  // ----- what the staleness test decides ------------------------------------

  /**
   A pointer is accepted exactly when its record serves the descriptor now.  The
   generation comparison never changes the answer, because the generation it reads
   is the one stored in the record itself.
   */
  lemma StaleIffNotServing(p: Pool, fd: int, conn: int)
    requires p.WellFormed() && p.InRange(fd)
    requires conn == NULL_SLOT || 0 <= conn < p.Size()
    ensures !IsStale(p, fd, conn) <==> conn != NULL_SLOT && p.connections[fd] == conn
    ensures !IsStale(p, fd, conn) ==> p.slots[conn].fd == fd && conn !in p.free
  {
  }

  /**
   A pointer kept across a close and a new accept on the same descriptor is accepted
   again: the LIFO stack hands out the same record and the record gets the new
   generation.  Only the descriptor's generation counter tells the two apart.
   */
  lemma RecycledPointerIsAccepted(p: Pool, fd: int, now: int, maxConns: int)
    requires p.WellFormed() && p.Serves(fd) && p.active <= maxConns
    ensures var slot := p.connections[fd];
            var (q, slot') := Alloc(Free(p, fd), fd, now, maxConns);
            && slot' == slot
            && !IsStale(q, fd, slot)
            && q.connGen[fd] != p.connGen[fd]
            && q.connections == p.connections && q.free == p.free && q.active == p.active
  {
    assert fd in p.ServedFds();
    var (q, slot') := Alloc(Free(p, fd), fd, now, maxConns);
    assert q.connections == p.connections;
    assert q.free == p.free;
  }

  /** No record serves two descriptors. */
  lemma ServingIsInjective(p: Pool, fd: int, fd': int)
    requires p.WellFormed() && p.Serves(fd) && p.Serves(fd')
    requires p.connections[fd] == p.connections[fd']
    ensures fd == fd'
  {
  }

  // ----- every sequence of calls ----------------------------------------------

  datatype Call = CallAlloc(fd: int, now: int) | CallFree(fd: int)

  function Perform(p: Pool, call: Call, maxConns: int): (q: Pool)
    requires p.WellFormed()
    ensures q.WellFormed() && q.Size() == p.Size()
  {
    match call
    case CallAlloc(fd, now) => Alloc(p, fd, now, maxConns).0
    case CallFree(fd) => Free(p, fd)
  }

  function Replay(p: Pool, calls: seq<Call>, maxConns: int): (q: Pool)
    requires p.WellFormed()
    ensures q.WellFormed() && q.Size() == p.Size()
    decreases |calls|
  {
    if calls == [] then p else Replay(Perform(p, calls[0], maxConns), calls[1..], maxConns)
  }

  /** The descriptors a call sequence leaves open, computed without any pool bookkeeping. */
  function OpenAfter(n: nat, start: set<int>, calls: seq<Call>, maxConns: int): set<int>
    decreases |calls|
  {
    if calls == [] then start
    else
      var next := match calls[0]
        case CallAlloc(fd, _) =>
          if 0 <= fd < n && fd !in start && |start| < maxConns then start + {fd} else start
        case CallFree(fd) => start - {fd};
      OpenAfter(n, next, calls[1..], maxConns)
  }

  /**
   After any sequence of calls the pool serves exactly the descriptors of the simple set
   model, the active counter is their number, it never passes the configured maximum, and
   the free stack holds exactly the other records.  In particular an allocation is refused
   only for a descriptor out of range, a descriptor in use or the connection limit: the
   free stack is never what runs out first.
   */
  lemma {:induction false} PoolRefinesSet(p: Pool, calls: seq<Call>, maxConns: int)
    requires p.WellFormed() && p.active <= maxConns
    ensures var q := Replay(p, calls, maxConns);
            && q.ServedFds() == OpenAfter(p.Size(), p.ServedFds(), calls, maxConns)
            && q.active == |q.ServedFds()| <= maxConns
            && |q.free| == q.Size() - q.active
    decreases |calls|
  {
    if calls != [] {
      var q := Perform(p, calls[0], maxConns);
      if calls[0].CallAlloc? && p.InRange(calls[0].fd) && calls[0].fd !in p.ServedFds() {
        FreeStackNotExhausted(p, calls[0].fd);
      }
      assert q.active <= maxConns by {
        if calls[0].CallAlloc? && !CanAlloc(p, calls[0].fd, maxConns) { assert q == p; }
        if calls[0].CallFree? { assert q.ServedFds() <= p.ServedFds(); SubsetSize(q.ServedFds(), p.ServedFds()); }
      }
      PoolRefinesSet(q, calls[1..], maxConns);
    }
  }

  /** A descriptor that is in range and not served leaves a free record to serve it. */
  lemma FreeStackNotExhausted(p: Pool, fd: int)
    requires p.WellFormed() && p.InRange(fd) && !p.Serves(fd)
    ensures p.free != []
  {
    if p.free == [] {
      var all := Indices(p.Size());
      assert p.ServedFds() <= all - {fd};
      SubsetSize(p.ServedFds(), all - {fd});
      assert false;
    }
  }

  // ----- the object ------------------------------------------------------------

  class ConnectionPool {
    const size: nat
    var connections: array<int>
    var connGen: array<nat>
    var slots: array<Conn>
    var freeStack: array<int>
    var freeTop: int
    var active: int

    ghost predicate Shaped()
      reads this
    {
      && connections.Length == connGen.Length == slots.Length == freeStack.Length == size
      && connections != freeStack
      && 0 <= freeTop <= size
    }

    ghost function View(): Pool
      reads this, connections, connGen, slots, freeStack
      requires Shaped()
    {
      Pool(connections[..], connGen[..], slots[..], freeStack[..freeTop], active)
    }

    ghost predicate Valid()
      reads this, connections, connGen, slots, freeStack
    {
      Shaped() && View().WellFormed()
    }

    constructor (n: nat)
      ensures Valid() && size == n && View() == Initial(n)
      ensures fresh(connections) && fresh(connGen) && fresh(slots) && fresh(freeStack)
    {
      size := n;
      connections := new int[n](_ => NULL_SLOT);
      connGen := new nat[n](_ => 0);
      slots := new Conn[n](_ => ZERO_CONN);
      freeTop := n;
      active := 0;
      new;
      freeStack := new int[n];
      for i := 0 to n
        invariant connections.Length == connGen.Length == slots.Length == freeStack.Length == n
        invariant fresh(connections) && fresh(connGen) && fresh(slots) && fresh(freeStack)
        invariant connections != freeStack
        invariant forall j :: 0 <= j < n ==> connections[j] == NULL_SLOT && connGen[j] == 0 && slots[j] == ZERO_CONN
        invariant forall j :: 0 <= j < i ==> freeStack[j] == n - 1 - j
        invariant freeTop == n && active == 0
      {
        freeStack[i] := n - 1 - i;
      }
      assert View() == Initial(n);
    }

    /** Pop the top record and hand it to `fd`: the heap effect alone. */
    method Install(fd: int, now: int) returns (slot: int)
      requires Shaped() && 0 <= fd < size && freeTop > 0 && 0 <= freeStack[freeTop - 1] < size
      modifies this, connections, slots
      ensures Shaped() && connections == old(connections) && connGen == old(connGen)
              && slots == old(slots) && freeStack == old(freeStack)
      ensures var p := old(View());
              && slot == p.free[|p.free| - 1]
              && View() == Pool(p.connections[fd := slot], p.connGen,
                                p.slots[slot := Conn(fd, p.connGen[fd], now, now, 0, 0)],
                                p.free[..|p.free| - 1], p.active + 1)
    {
      freeTop := freeTop - 1;
      slot := freeStack[freeTop];
      slots[slot] := Conn(fd, connGen[fd], now, now, 0, 0);
      connections[fd] := slot;
      active := active + 1;
    }

    /** Hand the top record to `fd` if the guard allows it. */
    method AllocSlot(fd: int, now: int, maxConns: int) returns (slot: int)
      requires Valid()
      modifies this, connections, slots
      ensures Valid() && connections == old(connections) && connGen == old(connGen)
              && slots == old(slots) && freeStack == old(freeStack)
      ensures (View(), slot) == Alloc(old(View()), fd, now, maxConns)
    {
      if fd < 0 || fd >= size { return NULL_SLOT; }
      if active >= maxConns || connections[fd] != NULL_SLOT || freeTop <= 0 { return NULL_SLOT; }
      ghost var before := View();
      assert freeStack[freeTop - 1] == before.free[freeTop - 1];
      slot := Install(fd, now);
      AllocWellFormed(before, fd, View(), slot, now);
    }

    /**
     Clear a record, push it on the free stack and bump the generation.  The three
     defensive tests of the source stay in place; the contract shows that they never fire.
     */
    method Release(fd: int)
      requires Shaped() && 0 <= fd < size && freeTop < size && active > 0
      requires 0 <= connections[fd] < size
      modifies this, connections, connGen, slots, freeStack
      ensures Shaped() && connections == old(connections) && connGen == old(connGen)
              && slots == old(slots) && freeStack == old(freeStack)
      ensures var p := old(View());
              View() == Pool(p.connections[fd := NULL_SLOT],
                             p.connGen[fd := (p.connGen[fd] + 1) % UINT_MODULUS],
                             p.slots[p.connections[fd] := ZERO_CONN],
                             p.free + [p.connections[fd]], p.active - 1)
    {
      var slot := connections[fd];
      if slot >= 0 && slot < size {
        slots[slot] := ZERO_CONN;
        if freeTop < size {
          freeStack[freeTop] := slot;
          freeTop := freeTop + 1;
        }
      }
      connections[fd] := NULL_SLOT;
      connGen[fd] := (connGen[fd] + 1) % UINT_MODULUS;
      if active > 0 { active := active - 1; }
    }

    /** Give the record that serves `fd` back to the stack; nothing happens for other numbers. */
    method FreeSlot(fd: int)
      requires Valid()
      modifies this, connections, connGen, slots, freeStack
      ensures Valid() && connections == old(connections) && connGen == old(connGen)
              && slots == old(slots) && freeStack == old(freeStack)
      ensures View() == Free(old(View()), fd)
    {
      if fd < 0 || fd >= size { return; }
      if connections[fd] != NULL_SLOT {
        ghost var before := View();
        RoomToFree(before, fd);
        Release(fd);
        FreeWellFormed(before, fd, View());
      }
    }

    /** Validate a pointer against the descriptor it came with. */
    method CheckStale(fd: int, conn: int) returns (stale: bool)
      requires Valid() && 0 <= fd < size
      requires conn == NULL_SLOT || 0 <= conn < size
      ensures stale == IsStale(View(), fd, conn)
      ensures stale <==> conn == NULL_SLOT || connections[fd] != conn
    {
      StaleIffNotServing(View(), fd, conn);
      stale := conn == NULL_SLOT || connections[fd] != conn || slots[conn].gen != connGen[fd];
    }
  }
}
