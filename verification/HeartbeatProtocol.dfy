/**
 The heartbeat scheduler as a concurrent system: the scheduler thread of
 src/core/heartbeat.c, any number of clients that register, update and unregister tasks, and
 one controlling client that starts and shuts the scheduler down.

 Each lock-held section is one atomic step and one clock is shared by all; the timed wait
 ends at its deadline, by a signal, or spuriously.  A client reads the clock before it takes
 the lock, so the time it registers with may lie in the past.

 `history` and `calls` are bookkeeping of this model: a number for each registration, the
 start of its period grid, and the log of callback invocations.
 */
module HeartbeatProtocol {
  import opened Common
  import opened Heartbeat

  datatype Thread =
    | Top                                            // about to take the lock
    | Waiting(deadline: int, signalled: bool)        // inside pthread_cond_timedwait
    | Running(todo: seq<nat>, stop: bool, drain: bool)
    | Draining                                       // about to collect every active task
    | Final(todo: seq<nat>)
    | Marking                                        // about to call hb_mark_stopped
    | Past                                           // past it, not yet returned
    | Ended
  {
    predicate Live() { !Past? && !Ended? }

    function Todo(): seq<nat> { if Running? || Final? then todo else [] }

    /** The thread has seen the stop request. */
    predicate Stopping() { (Running? && stop) || Draining? || Final? || Marking? }
  }

  datatype Client = Ready | Joining(handle: nat)

  /** Registration number, start of the grid, ticks before it, drain runs since. */
  datatype Entry = Entry(id: nat, start: int, base: nat, drained: nat)

  datatype State = State(
    slots: seq<Slot>, history: seq<Entry>, nextId: nat, running: bool, stop: bool, drain: bool,
    clock: int, threads: seq<Thread>, client: Client, calls: seq<nat>)
  {
    predicate Thread(t: int) { 0 <= t < |threads| }

    function Last(): Thread
      requires threads != []
    {
      threads[|threads| - 1]
    }

    function Pending(): seq<nat> { if threads == [] then [] else Last().Todo() }
  }

  datatype Step =
    | Tick(now: int)
    | RegisterTask(task: Task, when: int)
    | UpdateTask(name: string, period: nat, delay: nat, ctx: int, when: int)
    | UnregisterTask(name: string)
    | Start(created: bool)
    | Shutdown(drain: bool)
    | JoinDone
    | Collect(t: int)
    | Wake(t: int)
    | Call(t: int)
    | Proceed(t: int)
    | FinalCollect(t: int)
    | Mark(t: int)
    | Exit(t: int)

  // ----- the steps --------------------------------------------------------------------------

  /** pthread_cond_signal reaches the waiting scheduler thread. */
  function Signal(threads: seq<Thread>): (r: seq<Thread>)
    ensures |r| == |threads|
    ensures forall t :: 0 <= t < |threads| ==>
      r[t] == if threads[t].Waiting? then Waiting(threads[t].deadline, true) else threads[t]
  {
    seq(|threads|, t requires 0 <= t < |threads| =>
      if threads[t].Waiting? then Waiting(threads[t].deadline, true) else threads[t])
  }

  /** The deadline hb_wait_for_next_tick computes. */
  function Deadline(now: int, wakeAt: int): int {
    if wakeAt != 0 && wakeAt > now then now + (wakeAt - now)
    else if wakeAt == 0 then now + HB_IDLE_WAIT_SEC
    else now
  }

  function IdsOf(history: seq<Entry>, picks: seq<nat>): (r: seq<nat>)
    requires forall k :: 0 <= k < |picks| ==> picks[k] < |history|
    ensures |r| == |picks| && forall k :: 0 <= k < |picks| ==> r[k] == history[picks[k]].id
  {
    seq(|picks|, k requires 0 <= k < |picks| => history[picks[k]].id)
  }

  function DrainedHistory(slots: seq<Slot>, history: seq<Entry>): (r: seq<Entry>)
    requires |slots| == |history|
    ensures |r| == |history| && forall i :: 0 <= i < |history| ==>
      r[i] == if slots[i].active then history[i].(drained := history[i].drained + 1) else history[i]
  {
    seq(|history|, i requires 0 <= i < |history| =>
      if slots[i].active then history[i].(drained := history[i].drained + 1) else history[i])
  }

  predicate Enabled(s: State, step: Step) {
    match step
    case Tick(now) => now >= s.clock
    case RegisterTask(_, when) => 0 <= when <= s.clock
    case UpdateTask(_, _, _, _, when) => 0 <= when <= s.clock
    case UnregisterTask(_) => true
    case Start(_) => s.client.Ready?
    case Shutdown(_) => s.client.Ready?
    case JoinDone => s.client.Joining? && s.Thread(s.client.handle) && s.threads[s.client.handle].Ended?
    case Collect(t) => s.Thread(t) && s.threads[t].Top?
    case Wake(t) => s.Thread(t) && s.threads[t].Waiting?
    case Call(t) => s.Thread(t) && s.threads[t].Todo() != []
    case Proceed(t) => s.Thread(t) && (s.threads[t].Running? || s.threads[t].Final?) && s.threads[t].Todo() == []
    case FinalCollect(t) => s.Thread(t) && s.threads[t].Draining?
    case Mark(t) => s.Thread(t) && s.threads[t].Marking?
    case Exit(t) => s.Thread(t) && s.threads[t].Past?
  }

  /** The lock-held section at the top of the scheduler loop. */
  function ApplyCollect(s: State, t: int): State
    requires |s.slots| == |s.history| && s.Thread(t)
  {
    var picks := Picked(s.slots, false, s.clock);
    var s' := s.(slots := AdvanceAll(s.slots, s.clock));
    if picks == [] && !s.stop then
      s'.(threads := s.threads[t := Waiting(Deadline(s.clock, WakeAt(s.slots)), false)])
    else s'.(threads := s.threads[t := Running(IdsOf(s.history, picks), s.stop, s.drain)])
  }

  function ApplyFinal(s: State, t: int): State
    requires |s.slots| == |s.history| && s.Thread(t)
  {
    s.(slots := RunAllOnce(s.slots, s.clock),
       history := DrainedHistory(s.slots, s.history),
       threads := s.threads[t := Final(IdsOf(s.history, Picked(s.slots, true, s.clock)))])
  }

  function ApplyRegister(s: State, task: Task, when: int): State
    requires |s.slots| == |s.history|
  {
    if RegisterCode(s.slots, task) != HB_REGISTER_INSERTED then s
    else
      s.(slots := Register(s.slots, task, when),
         history := s.history[FindFree(s.slots) := Entry(s.nextId, when + task.initialDelay, 0, 0)],
         nextId := s.nextId + 1, threads := Signal(s.threads))
  }

  function ApplyUpdate(s: State, name: string, period: nat, delay: nat, ctx: int, when: int): State
    requires |s.slots| == |s.history|
  {
    var i := FindName(s.slots, name);
    if period == 0 || i == |s.slots| then s
    else
      s.(slots := Update(s.slots, name, period, delay, ctx, when),
         history := s.history[i := Entry(s.history[i].id, when + delay, Ticks(s.slots[i]), 0)],
         threads := Signal(s.threads))
  }

  function Apply(s: State, step: Step): (r: State)
    requires |s.slots| == |s.history| && Enabled(s, step)
    ensures |r.slots| == |r.history|
  {
    match step
    case Tick(now) => s.(clock := now)
    case RegisterTask(task, when) => ApplyRegister(s, task, when)
    case UpdateTask(name, period, delay, ctx, when) => ApplyUpdate(s, name, period, delay, ctx, when)
    case UnregisterTask(name) =>
      if FindName(s.slots, name) == |s.slots| then s
      else s.(slots := Unregister(s.slots, name), threads := Signal(s.threads))
    case Start(created) =>
      if s.running then s
      else if !created then s.(stop := false, drain := false)
      else s.(stop := false, drain := false, running := true, threads := s.threads + [Top])
    case Shutdown(drain) =>
      if !s.running || s.threads == [] then s
      else s.(stop := true, drain := drain, threads := Signal(s.threads), client := Joining(|s.threads| - 1))
    case JoinDone => s.(client := Ready)
    case Collect(t) => ApplyCollect(s, t)
    case Wake(t) => s.(threads := s.threads[t := Top])
    case Call(t) =>
      var pc := s.threads[t];
      var rest := pc.todo[1..];
      s.(calls := s.calls + [pc.todo[0]],
         threads := s.threads[t := if pc.Running? then Running(rest, pc.stop, pc.drain) else Final(rest)])
    case Proceed(t) =>
      var pc := s.threads[t];
      s.(threads := s.threads[t :=
        if pc.Final? then Marking else if !pc.stop then Top else if pc.drain then Draining else Marking])
    case FinalCollect(t) => ApplyFinal(s, t)
    case Mark(t) => s.(running := false, stop := false, drain := false, threads := s.threads[t := Past])
    case Exit(t) => s.(threads := s.threads[t := Ended])
  }

  ghost predicate Initial(s: State) {
    && |s.slots| == |s.history| && s.clock >= 0 && !s.running && !s.stop && !s.drain
    && s.threads == [] && s.client.Ready? && s.calls == []
    && forall i :: 0 <= i < |s.slots| ==> s.slots[i] == ZERO_SLOT
  }

  // ----- invariants -------------------------------------------------------------------------------

  ghost predicate TableInv(s: State) {
    |s.slots| == |s.history| && TableOk(s.slots) && s.clock >= 0
  }

  /** One scheduler at most, and the client always joins that one. */
  ghost predicate LifeInv(s: State) {
    && (forall t :: 0 <= t < |s.threads| - 1 ==> s.threads[t].Ended?)
    && (s.running <==> s.threads != [] && s.Last().Live())
    && (s.stop ==> s.running && s.client.Joining?)
    && (s.threads != [] && s.Last().Stopping() ==> s.stop)
    && (s.client.Joining? ==> s.client.handle == |s.threads| - 1)
    && (s.client.Ready? && !s.running && s.threads != [] ==> s.Last().Ended?)
  }

  /** An unsignalled wait is never too long. */
  ghost predicate SleepOk(s: State, pc: Thread) {
    pc.Waiting? && !pc.signalled ==>
      && !s.stop
      && (forall i :: 0 <= i < |s.slots| && s.slots[i].active ==> pc.deadline <= s.slots[i].nextRun)
      && (SomeActive(s.slots) ==>
            exists i :: 0 <= i < |s.slots| && s.slots[i].active && s.slots[i].nextRun == pc.deadline)
  }

  ghost predicate SleepInv(s: State) {
    forall t :: 0 <= t < |s.threads| ==> SleepOk(s, s.threads[t])
  }

  /** Exact tick accounting of one slot since its grid was last set. */
  ghost predicate OnGrid(s: Slot, e: Entry) {
    s.active ==>
      && e.base + e.drained <= Ticks(s)
      && s.nextRun == e.start + s.task.period * (Ticks(s) - e.base - e.drained)
  }

  ghost predicate GridInv(s: State)
    requires |s.slots| == |s.history|
  {
    forall i :: 0 <= i < |s.slots| ==> OnGrid(s.slots[i], s.history[i])
  }

  ghost predicate IdsOk(s: State)
    requires |s.slots| == |s.history|
  {
    && (forall i :: 0 <= i < |s.slots| && s.slots[i].active ==> s.history[i].id < s.nextId)
    && (forall i, j :: 0 <= i < j < |s.slots| && s.slots[i].active && s.slots[j].active ==>
          s.history[i].id != s.history[j].id)
    && (forall k :: 0 <= k < |s.calls| ==> s.calls[k] < s.nextId)
    && (forall k :: 0 <= k < |s.Pending()| ==> s.Pending()[k] < s.nextId)
  }

  /** Every counted run has been called or is waiting in the batch, exactly once. */
  ghost predicate CallsBalance(s: State)
    requires |s.slots| == |s.history|
  {
    forall i :: 0 <= i < |s.slots| && s.slots[i].active ==>
      s.slots[i].stats.runs == Occurrences(s.calls, s.history[i].id) + Occurrences(s.Pending(), s.history[i].id)
  }

  ghost predicate Inv(s: State) {
    TableInv(s) && LifeInv(s) && SleepInv(s) && GridInv(s) && IdsOk(s) && CallsBalance(s)
  }
}
