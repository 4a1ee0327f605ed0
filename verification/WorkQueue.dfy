/**
 The ring-buffer work queue of src/net/work_queue.c as a data structure: a fixed
 array with head, tail and count refines a bounded FIFO sequence.
 */
module WorkQueue {
  import opened Common

  /** The items of a ring that starts at `head`, oldest first. */
  function Queued<T>(items: seq<T>, head: nat, count: nat): (s: seq<T>)
    requires head < |items| && count <= |items|
    ensures |s| == count
  {
    if head + count <= |items| then items[head..head + count]
    else items[head..] + items[..head + count - |items|]
  }

  lemma RingAppend<T>(items: seq<T>, head: nat, count: nat, x: T)
    requires head < |items| && count < |items|
    ensures Queued(items[Wrap(head + count, |items|) := x], head, count + 1) == Queued(items, head, count) + [x]
  {
  }

  lemma RingTail<T>(items: seq<T>, head: nat, count: nat)
    requires head < |items| && 0 < count <= |items|
    ensures Queued(items, head, count)[0] == items[head]
    ensures Queued(items, Wrap(head + 1, |items|), count - 1) == Queued(items, head, count)[1..]
  {
  }

  class WorkQueue<T(0)> {
    const capacity: nat
    var items: array<T>
    var head: nat
    var tail: nat
    var count: nat

    ghost predicate Valid()
      reads this
    {
      && 0 < capacity == items.Length
      && head < capacity
      && count <= capacity
      && tail == Wrap(head + count, capacity)
    }

    /** The queued items, oldest first. */
    ghost function Contents(): (s: seq<T>)
      reads this, items
      requires Valid()
      ensures |s| == count
    {
      Queued(items[..], head, count)
    }

    constructor (n: nat)
      requires n > 0
      ensures Valid() && fresh(items) && capacity == n && Contents() == []
    {
      capacity := n;
      items := new T[n];
      head, tail, count := 0, 0, 0;
    }

    /** Push one item; returns -1 when full. */
    method Push(item: T) returns (rc: int)
      requires Valid()
      modifies this, items
      ensures Valid() && items == old(items)
      ensures rc == if |old(Contents())| < capacity then 0 else -1
      ensures Contents() == if rc == 0 then old(Contents()) + [item] else old(Contents())
    {
      if count >= capacity { return -1; }
      RingAppend(items[..], head, count, item);
      items[tail] := item;
      assert items[..] == old(items[..])[old(tail) := item];
      tail := Wrap(tail + 1, capacity);
      count := count + 1;
      return 0;
    }

    /** The part of pop after the wait loop: take the oldest item, or report an empty queue. */
    method TakeHead() returns (item: Option<T>)
      requires Valid()
      modifies this
      ensures Valid() && items == old(items)
      ensures item == if old(Contents()) == [] then None else Some(old(Contents())[0])
      ensures Contents() == if old(Contents()) == [] then [] else old(Contents())[1..]
    {
      if count == 0 { return None; }
      item := Some(items[head]);
      RingTail(items[..], head, count);
      head := Wrap(head + 1, capacity);
      count := count - 1;
    }
  }
}

/**
 The condition-variable protocol around the queue: the wait loop of
 miniweb_work_queue_pop, the signal of push, the shutdown flag and its broadcast.
 Each step is one lock-held section, except that a worker which has decided to wait
 keeps the lock until the wait releases it, and that the running flag is written
 without any lock.
 */
module WakeupProtocol {
  datatype Pc =
    | Outside     // in the loop body or at the loop test of the worker thread
    | Entering    // about to take the queue lock inside pop
    | Deciding    // holds the lock, saw an empty queue and running != 0, about to wait
    | Asleep      // inside pthread_cond_wait, not woken
    | Signalled   // woken by a signal or broadcast, has not yet re-taken the lock
    | Spurious    // woken without any signal, has not yet re-taken the lock
    | Exited

  /** How many workers are at `pc`. */
  function Count(ws: seq<Pc>, pc: Pc): nat {
    if ws == [] then 0 else (if ws[0] == pc then 1 else 0) + Count(ws[1..], pc)
  }

  datatype State<T> = State(
    capacity: nat, queue: seq<T>, workers: seq<Pc>, running: bool, broadcast: bool,
    pushed: seq<T>, popped: seq<T>)
  {
    predicate LockFree() { Count(workers, Deciding) == 0 }

    predicate At(w: int, pc: Pc) { 0 <= w < |workers| && workers[w] == pc }

    function Sleepers(): nat { Count(workers, Asleep) }
  }

  datatype Step<T> =
    | LoopTest(w: int)
    | Acquire(w: int)
    | Sleep(w: int)
    | SpuriousWake(w: int)
    | Push(item: T, woken: seq<int>)   // pthread_cond_signal wakes one or more sleepers
    | ClearRunning
    | Broadcast

  predicate AllAsleep(ws: seq<Pc>, woken: seq<int>) {
    && (forall i :: 0 <= i < |woken| ==> 0 <= woken[i] < |ws| && ws[woken[i]] == Asleep)
    && (forall i, j :: 0 <= i < j < |woken| ==> woken[i] != woken[j])
  }

  function Wake(ws: seq<Pc>, woken: seq<int>): (r: seq<Pc>)
    requires AllAsleep(ws, woken)
    ensures |r| == |ws|
    decreases |woken|
  {
    if woken == [] then ws else Wake(ws[woken[0] := Signalled], woken[1..])
  }

  function WakeAll(ws: seq<Pc>): (r: seq<Pc>)
    ensures |r| == |ws|
  {
    if ws == [] then [] else [if ws[0] == Asleep then Signalled else ws[0]] + WakeAll(ws[1..])
  }

  predicate Enabled<T>(s: State<T>, step: Step<T>) {
    match step
    case LoopTest(w) => s.At(w, Outside)
    case Acquire(w) =>
      (s.At(w, Entering) || s.At(w, Signalled) || s.At(w, Spurious)) && s.LockFree()
    case Sleep(w) => s.At(w, Deciding)
    case SpuriousWake(w) => s.At(w, Asleep)
    case Push(_, woken) =>
      && s.LockFree()
      && AllAsleep(s.workers, woken)
      && (if |s.queue| < s.capacity then s.Sleepers() > 0 ==> woken != [] else woken == [])
    case ClearRunning => true
    case Broadcast => s.LockFree() && !s.running
  }

  function Apply<T>(s: State<T>, step: Step<T>): State<T>
    requires Enabled(s, step)
  {
    match step
    case LoopTest(w) => s.(workers := s.workers[w := if s.running then Entering else Exited])
    case Acquire(w) =>
      if s.queue != [] then
        s.(queue := s.queue[1..], popped := s.popped + [s.queue[0]], workers := s.workers[w := Outside])
      else
        s.(workers := s.workers[w := if s.running then Deciding else Exited])
    case Sleep(w) => s.(workers := s.workers[w := Asleep])
    case SpuriousWake(w) => s.(workers := s.workers[w := Spurious])
    case Push(item, woken) =>
      if |s.queue| < s.capacity then
        s.(queue := s.queue + [item], pushed := s.pushed + [item], workers := Wake(s.workers, woken))
      else s
    case ClearRunning => s.(running := false)
    case Broadcast => s.(broadcast := true, workers := WakeAll(s.workers))
  }

  ghost predicate Initial<T>(s: State<T>) {
    && s.queue == [] && s.running && !s.broadcast && s.pushed == [] && s.popped == []
    && forall w :: 0 <= w < |s.workers| ==> s.workers[w] == Outside
  }

  // ----- counting ------------------------------------------------------------------

  lemma {:induction false} CountUpdated(ws: seq<Pc>, w: int, pc: Pc, x: Pc)
    requires 0 <= w < |ws|
    ensures Count(ws[w := pc], x)
         == Count(ws, x) - (if ws[w] == x then 1 else 0) + (if pc == x then 1 else 0)
    ensures ws[w] == x ==> Count(ws, x) > 0
  {
    if w == 0 {
      assert ws[w := pc][1..] == ws[1..];
    } else {
      assert ws[w := pc][1..] == ws[1..][w - 1 := pc];
      CountUpdated(ws[1..], w - 1, pc, x);
    }
  }

  lemma {:induction false} CountAbsent(ws: seq<Pc>, x: Pc)
    requires forall w :: 0 <= w < |ws| ==> ws[w] != x
    ensures Count(ws, x) == 0
  {
    if ws != [] { CountAbsent(ws[1..], x); }
  }

  lemma {:induction false} CountWoken(ws: seq<Pc>, woken: seq<int>)
    requires AllAsleep(ws, woken)
    ensures Count(Wake(ws, woken), Signalled) == Count(ws, Signalled) + |woken|
    ensures Count(Wake(ws, woken), Asleep) == Count(ws, Asleep) - |woken|
    ensures Count(Wake(ws, woken), Deciding) == Count(ws, Deciding)
    ensures Count(Wake(ws, woken), Exited) == Count(ws, Exited)
    decreases |woken|
  {
    if woken != [] {
      CountUpdated(ws, woken[0], Signalled, Signalled);
      CountUpdated(ws, woken[0], Signalled, Asleep);
      CountUpdated(ws, woken[0], Signalled, Deciding);
      CountUpdated(ws, woken[0], Signalled, Exited);
      CountWoken(ws[woken[0] := Signalled], woken[1..]);
    }
  }

  lemma {:induction false} CountWokenAll(ws: seq<Pc>)
    ensures Count(WakeAll(ws), Asleep) == 0
    ensures Count(WakeAll(ws), Deciding) == Count(ws, Deciding)
    ensures Count(WakeAll(ws), Exited) == Count(ws, Exited)
    ensures Count(ws, Asleep) == 0 ==> WakeAll(ws) == ws
  {
    if ws != [] { CountWokenAll(ws[1..]); }
  }

  // ----- the invariant -----------------------------------------------------------

  ghost predicate Inv<T>(s: State<T>) {
    && s.pushed == s.popped + s.queue
    && |s.queue| <= s.capacity
    && Count(s.workers, Deciding) <= 1
    && (Count(s.workers, Deciding) == 1 ==> s.queue == [])
    && (s.Sleepers() > 0 ==> |s.queue| <= Count(s.workers, Signalled))
    && (s.broadcast ==> !s.running && s.Sleepers() == 0 && s.LockFree())
    && (s.running ==> Count(s.workers, Exited) == 0)
  }

  /** The effect of moving one worker on the three counts the invariant speaks of. */
  lemma Moved(ws: seq<Pc>, w: int, pc: Pc)
    requires 0 <= w < |ws|
    ensures forall x | x in {Asleep, Signalled, Deciding, Exited} ::
              Count(ws[w := pc], x) + (if ws[w] == x then 1 else 0)
                == Count(ws, x) + (if pc == x then 1 else 0)
    ensures ws[w] == Asleep ==> Count(ws, Asleep) > 0
    ensures ws[w] == Deciding ==> Count(ws, Deciding) > 0
  {
    CountUpdated(ws, w, pc, Asleep);
    CountUpdated(ws, w, pc, Signalled);
    CountUpdated(ws, w, pc, Deciding);
    CountUpdated(ws, w, pc, Exited);
  }

  lemma AcquireKeepsInv<T>(s: State<T>, w: int)
    requires Inv(s) && Enabled(s, Acquire(w))
    ensures Inv(Apply(s, Acquire(w)))
  {
    var s' := Apply(s, Acquire(w));
    Moved(s.workers, w, s'.workers[w]);
    if s.queue != [] {
      assert s.queue == [s.queue[0]] + s.queue[1..];
      assert s'.popped + s'.queue == s.popped + s.queue;
    }
  }

  lemma PushKeepsInv<T>(s: State<T>, item: T, woken: seq<int>)
    requires Inv(s) && Enabled(s, Push(item, woken))
    ensures Inv(Apply(s, Push(item, woken)))
  {
    CountWoken(s.workers, woken);
    assert s.pushed + [item] == s.popped + (s.queue + [item]);
  }

  lemma StepKeepsInv<T>(s: State<T>, step: Step<T>)
    requires Inv(s) && Enabled(s, step)
    ensures Inv(Apply(s, step))
  {
    match step
    case Acquire(w) => AcquireKeepsInv(s, w);
    case Push(item, woken) => PushKeepsInv(s, item, woken);
    case LoopTest(w) => Moved(s.workers, w, if s.running then Entering else Exited);
    case Sleep(w) => Moved(s.workers, w, Asleep);
    case SpuriousWake(w) => Moved(s.workers, w, Spurious);
    case ClearRunning =>
    case Broadcast => CountWokenAll(s.workers);
  }

  // ----- whole runs ---------------------------------------------------------------

  ghost predicate IsRun<T>(start: State<T>, steps: seq<Step<T>>)
    decreases |steps|
  {
    steps == [] || (Enabled(start, steps[0]) && IsRun(Apply(start, steps[0]), steps[1..]))
  }

  ghost function After<T>(start: State<T>, steps: seq<Step<T>>): State<T>
    requires IsRun(start, steps)
    decreases |steps|
  {
    if steps == [] then start else After(Apply(start, steps[0]), steps[1..])
  }

  lemma {:induction false} RunKeepsInv<T>(start: State<T>, steps: seq<Step<T>>)
    requires Inv(start) && IsRun(start, steps)
    ensures Inv(After(start, steps))
    decreases |steps|
  {
    if steps != [] {
      StepKeepsInv(start, steps[0]);
      RunKeepsInv(Apply(start, steps[0]), steps[1..]);
    }
  }

  /**
   No lost wake-up, in every reachable state and under spurious wake-ups and stealing:
   while some worker sleeps, at least as many signalled workers are on their way as there
   are queued items, so an item is never left with only sleeping workers to take it.
   What was popped is always the front part of what was pushed, in order.
   */
  lemma NoLostWakeup<T>(start: State<T>, steps: seq<Step<T>>)
    requires Initial(start) && IsRun(start, steps)
    ensures var s := After(start, steps);
            && (s.Sleepers() > 0 ==> |s.queue| <= Count(s.workers, Signalled))
            && s.pushed == s.popped + s.queue && |s.queue| <= s.capacity
            && (s.broadcast ==> s.Sleepers() == 0)
  {
    InitialInv(start);
    RunKeepsInv(start, steps);
  }

  lemma InitialInv<T>(start: State<T>)
    requires Initial(start)
    ensures Inv(start)
  {
    CountAbsent(start.workers, Asleep);
    CountAbsent(start.workers, Deciding);
    CountAbsent(start.workers, Exited);
  }

  lemma {:induction false} SomeAt(ws: seq<Pc>, x: Pc) returns (w: int)
    requires Count(ws, x) > 0
    ensures 0 <= w < |ws| && ws[w] == x
  {
    if ws[0] == x {
      w := 0;
    } else {
      w := SomeAt(ws[1..], x);
      w := w + 1;
    }
  }

  /** The worker is on its way to the queue: it needs nothing but the lock, or its own next step. */
  predicate OnItsWay(pc: Pc) { pc.Outside? || pc.Entering? || pc.Signalled? || pc.Spurious? }

  /**
   While the server runs no worker leaves, in every reachable state; and when an item is queued some
   worker is on its way to it.
   */
  lemma QueuedItemHasATaker<T>(start: State<T>, steps: seq<Step<T>>)
    requires Initial(start) && IsRun(start, steps) && start.workers != []
    ensures var s := After(start, steps);
            && |s.workers| == |start.workers|
            && (s.running ==> forall w :: 0 <= w < |s.workers| ==> s.workers[w] != Exited)
            && (s.running && s.queue != [] ==> exists w :: 0 <= w < |s.workers| && OnItsWay(s.workers[w]))
  {
    InitialInv(start);
    RunKeepsInv(start, steps);
    RunKeepsWorkers(start, steps);
    var s := After(start, steps);
    if s.running {
      forall w | 0 <= w < |s.workers| ensures s.workers[w] != Exited { CountUpdated(s.workers, w, Outside, Exited); }
      if s.queue != [] { TakerExists(s); }
    }
  }

  lemma TakerExists<T>(s: State<T>)
    requires Inv(s) && s.queue != [] && s.workers != []
    requires forall w :: 0 <= w < |s.workers| ==> s.workers[w] != Exited
    ensures exists w :: 0 <= w < |s.workers| && OnItsWay(s.workers[w])
  {
    if s.Sleepers() > 0 {
      var w := SomeAt(s.workers, Signalled);
    } else {
      CountUpdated(s.workers, 0, Outside, Asleep);
      CountUpdated(s.workers, 0, Outside, Deciding);
      assert OnItsWay(s.workers[0]);
    }
  }

  /**
   A push is refused exactly when the queue is full; else its item is last, and a sleeper is woken
   if there is one.
   */
  lemma PushOutcome<T>(s: State<T>, item: T, woken: seq<int>)
    requires Inv(s) && Enabled(s, Push(item, woken))
    ensures var t := Apply(s, Push(item, woken));
            && (|s.queue| == s.capacity ==> t == s)
            && (|s.queue| < s.capacity ==> t.queue == s.queue + [item] && t.pushed == s.pushed + [item])
            && (|s.queue| < s.capacity && s.Sleepers() > 0 ==>
                  t.Sleepers() < s.Sleepers() && Count(t.workers, Signalled) > Count(s.workers, Signalled))
  {
    CountWoken(s.workers, woken);
  }

  lemma {:induction false} RunKeepsWorkers<T>(start: State<T>, steps: seq<Step<T>>)
    requires IsRun(start, steps)
    ensures |After(start, steps).workers| == |start.workers|
    decreases |steps|
  {
    if steps != [] { RunKeepsWorkers(Apply(start, steps[0]), steps[1..]); }
  }

  // ----- shutdown --------------------------------------------------------------------

  predicate IsWorkerStep<T>(step: Step<T>) {
    step.LoopTest? || step.Acquire? || step.Sleep? || step.SpuriousWake?
  }

  function Rank(pc: Pc): nat {
    match pc
    case Exited => 0
    case Outside => 1
    case _ => 2
  }

  function TotalRank(ws: seq<Pc>): (r: nat)
    ensures r <= 2 * |ws|
  {
    if ws == [] then 0 else Rank(ws[0]) + TotalRank(ws[1..])
  }

  lemma {:induction false} RankUpdated(ws: seq<Pc>, w: int, pc: Pc)
    requires 0 <= w < |ws|
    ensures TotalRank(ws[w := pc]) == TotalRank(ws) - Rank(ws[w]) + Rank(pc)
  {
    var ws' := ws[w := pc];
    if w == 0 {
      assert ws'[1..] == ws[1..];
    } else {
      assert ws'[1..] == ws[1..][w - 1 := pc];
      RankUpdated(ws[1..], w - 1, pc);
    }
  }

  function WorkerSteps<T>(steps: seq<Step<T>>): nat {
    if steps == [] then 0 else (if IsWorkerStep(steps[0]) then 1 else 0) + WorkerSteps(steps[1..])
  }

  /** After the broadcast every worker step lowers the total rank, and no other step raises it. */
  lemma ShutdownStep<T>(s: State<T>, step: Step<T>)
    requires Inv(s) && s.broadcast && Enabled(s, step)
    ensures Inv(Apply(s, step)) && Apply(s, step).broadcast
    ensures TotalRank(Apply(s, step).workers) + (if IsWorkerStep(step) then 1 else 0)
         <= TotalRank(s.workers)
  {
    StepKeepsInv(s, step);
    match step
    case LoopTest(w) => RankUpdated(s.workers, w, Exited);
    case Acquire(w) => RankUpdated(s.workers, w, Apply(s, step).workers[w]);
    case Push(_, woken) => CountWoken(s.workers, woken);
    case Broadcast => CountWokenAll(s.workers);
    case ClearRunning =>
    case Sleep(w) => Moved(s.workers, w, Asleep);
    case SpuriousWake(w) => Moved(s.workers, w, Spurious);
  }

  /** In a shut-down state every worker that has not exited can move at once. */
  lemma ShutdownEnabled<T>(s: State<T>, w: int)
    requires Inv(s) && s.broadcast && 0 <= w < |s.workers| && s.workers[w] != Exited
    ensures Enabled(s, LoopTest(w)) || Enabled(s, Acquire(w))
  {
    Moved(s.workers, w, Exited);
  }

  /**
   Shutdown cannot hang.  Once the flag is cleared and the broadcast has happened, no worker
   sleeps in pop now or later, every worker that has not exited can move, and however the
   remaining steps interleave the workers take at most two more steps each.
   */
  lemma {:induction false} ShutdownTerminates<T>(s: State<T>, steps: seq<Step<T>>)
    requires Inv(s) && s.broadcast && IsRun(s, steps)
    ensures var t := After(s, steps);
            && t.broadcast && t.Sleepers() == 0 && t.LockFree()
            && (forall w :: 0 <= w < |t.workers| && t.workers[w] != Exited ==>
                  Enabled(t, LoopTest(w)) || Enabled(t, Acquire(w)))
            && WorkerSteps(steps) + TotalRank(t.workers) <= TotalRank(s.workers) <= 2 * |s.workers|
    decreases |steps|
  {
    if steps == [] {
      forall w | 0 <= w < |s.workers| && s.workers[w] != Exited
        ensures Enabled(s, LoopTest(w)) || Enabled(s, Acquire(w))
      {
        ShutdownEnabled(s, w);
      }
    } else {
      ShutdownStep(s, steps[0]);
      ShutdownTerminates(Apply(s, steps[0]), steps[1..]);
    }
  }
}
