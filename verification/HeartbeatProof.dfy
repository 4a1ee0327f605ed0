/** Every step of the heartbeat scheduler keeps its invariants, and what follows for whole runs. */
module HeartbeatProof {
  import opened Common
  import opened Heartbeat
  import opened HeartbeatProtocol

  // ----- the table and the life cycle -------------------------------------------------------

  lemma TableKept(s: State, step: Step)
    requires TableInv(s) && Enabled(s, step)
    ensures TableInv(Apply(s, step))
  {
    AdvanceKeepsTable(s.slots, s.clock);
  }

  /** Only the newest thread can take a scheduler step. */
  lemma OnlyLastMoves(s: State, t: int)
    requires LifeInv(s) && s.Thread(t) && !s.threads[t].Ended?
    ensures t == |s.threads| - 1
  {
  }

  /** A step of the newest thread that leaves it live and the flags alone. */
  lemma ThreadMoveLife(s: State, s': State, t: int, pc: Thread)
    requires LifeInv(s) && s.Thread(t) && s.threads[t].Live() && pc.Live()
    requires pc.Stopping() ==> s.stop
    requires s'.threads == s.threads[t := pc]
    requires s'.running == s.running && s'.stop == s.stop && s'.client == s.client
    ensures LifeInv(s')
  {
    OnlyLastMoves(s, t);
  }

  /** A signal changes only whether a waiting thread has been signalled. */
  lemma SignalLife(s: State, s': State)
    requires LifeInv(s) && s'.threads == Signal(s.threads)
    requires s'.running == s.running && s'.stop == s.stop && s'.client == s.client
    ensures LifeInv(s')
  {
  }

  predicate IsThreadStep(step: Step) {
    step.Collect? || step.Wake? || step.Call? || step.Proceed? || step.FinalCollect? || step.Mark? || step.Exit?
  }

  predicate IsTableStep(step: Step) {
    step.RegisterTask? || step.UpdateTask? || step.UnregisterTask?
  }

  lemma ThreadLife(s: State, step: Step)
    requires TableInv(s) && LifeInv(s) && Enabled(s, step) && IsThreadStep(step)
    ensures LifeInv(Apply(s, step))
  {
    if step.Mark? || step.Exit? {
      EndingLife(s, step);
    } else {
      var s' := Apply(s, step);
      OnlyLastMoves(s, step.t);
      ThreadMoveLife(s, s', step.t, s'.threads[step.t]);
    }
  }

  lemma TableLife(s: State, step: Step)
    requires TableInv(s) && LifeInv(s) && Enabled(s, step) && IsTableStep(step)
    ensures LifeInv(Apply(s, step))
  {
    var s' := Apply(s, step);
    if s' != s { SignalLife(s, s'); }
  }

  lemma LifeKept(s: State, step: Step)
    requires TableInv(s) && LifeInv(s) && Enabled(s, step)
    ensures LifeInv(Apply(s, step))
  {
    if IsThreadStep(step) { ThreadLife(s, step); }
    else if IsTableStep(step) { TableLife(s, step); }
    else { ClientLife(s, step); }
  }

  lemma EndingLife(s: State, step: Step)
    requires TableInv(s) && LifeInv(s) && Enabled(s, step) && (step.Mark? || step.Exit?)
    ensures LifeInv(Apply(s, step))
  {
    OnlyLastMoves(s, step.t);
  }

  lemma ClientLife(s: State, step: Step)
    requires TableInv(s) && LifeInv(s) && Enabled(s, step)
    requires step.Tick? || step.Start? || step.Shutdown? || step.JoinDone?
    ensures LifeInv(Apply(s, step))
  {
  }

  // ----- sleeping ---------------------------------------------------------------------------------

  lemma CollectSleeps(s: State)
    requires TableInv(s) && !s.stop && Picked(s.slots, false, s.clock) == []
    ensures AdvanceAll(s.slots, s.clock) == s.slots
    ensures SleepOk(s, Waiting(Deadline(s.clock, WakeAt(s.slots)), false))
    ensures Deadline(s.clock, WakeAt(s.slots)) > s.clock
  {
    forall i | 0 <= i < |s.slots| && s.slots[i].active ensures s.slots[i].nextRun > s.clock {
      PickedExactly(s.slots, false, s.clock, i);
    }
    WakeAtIsEarliest(s.slots, s.clock);
    assert AdvanceAll(s.slots, s.clock) == s.slots;
  }

  /** Once signalled, a waiting thread satisfies its sleep condition whatever the table does. */
  lemma SleepKept(s: State, step: Step)
    requires TableInv(s) && LifeInv(s) && SleepInv(s) && Enabled(s, step)
    ensures SleepInv(Apply(s, step))
  {
    var s' := Apply(s, step);
    match step
    case Collect(t) =>
      OnlyLastMoves(s, t);
      if Picked(s.slots, false, s.clock) == [] && !s.stop { CollectSleeps(s); }
    case FinalCollect(t) => OnlyLastMoves(s, t);
    case Mark(t) => OnlyLastMoves(s, t);
    case _ => OtherSleep(s, step);
  }

  lemma OtherSleep(s: State, step: Step)
    requires TableInv(s) && LifeInv(s) && SleepInv(s) && Enabled(s, step)
    requires !step.Collect? && !step.FinalCollect? && !step.Mark?
    ensures SleepInv(Apply(s, step))
  {
    hide FindName, FindFree, Picked, WakeAt;
    var s' := Apply(s, step);
    forall t | 0 <= t < |s'.threads| ensures SleepOk(s', s'.threads[t]) {
      if t < |s.threads| { assert SleepOk(s, s.threads[t]); }
    }
  }

  // ----- the period grid -----------------------------------------------------------------------

  lemma GridAdvanced(s: Slot, e: Entry, now: int)
    requires OnGrid(s, e) && (s.active ==> s.task.period > 0)
    ensures OnGrid(Advance(s, now), e)
  {
    if Due(s, now) {
      AdvanceToNextGridPoint(s, now);
      var t := Advance(s, now);
      Distribute(s.task.period, Ticks(s) - e.base - e.drained, Ticks(t) - Ticks(s));
    }
  }

  lemma Distribute(p: int, a: int, b: int)
    ensures p * (a + b) == p * a + p * b
  {
  }

  lemma CollectGrid(s: State, t: int)
    requires TableInv(s) && GridInv(s) && s.Thread(t)
    ensures GridInv(ApplyCollect(s, t)) && GridInv(ApplyFinal(s, t))
  {
    forall i | 0 <= i < |s.slots|
      ensures OnGrid(Advance(s.slots[i], s.clock), s.history[i])
      ensures OnGrid(RunOnce(s.slots[i], s.clock), DrainedHistory(s.slots, s.history)[i])
    {
      assert OnGrid(s.slots[i], s.history[i]);
      GridAdvanced(s.slots[i], s.history[i], s.clock);
    }
  }

  lemma GridKept(s: State, step: Step)
    requires TableInv(s) && GridInv(s) && Enabled(s, step)
    ensures GridInv(Apply(s, step))
  {
    hide FindName, FindFree, Picked, WakeAt;
    match step
    case Collect(t) => CollectGrid(s, t);
    case FinalCollect(t) => CollectGrid(s, t);
    case RegisterTask(_, _) =>
      assert forall i :: 0 <= i < |s.slots| ==> OnGrid(s.slots[i], s.history[i]);
    case UpdateTask(_, _, _, _, _) =>
      assert forall i :: 0 <= i < |s.slots| ==> OnGrid(s.slots[i], s.history[i]);
    case _ =>
  }

  // ----- the call balance -------------------------------------------------------------------------

  /** Mapping distinct picks to their registration numbers keeps multiplicities. */
  lemma {:induction false} OccurrencesOfIds(history: seq<Entry>, picks: seq<nat>, i: nat)
    requires i < |history|
    requires forall k :: 0 <= k < |picks| ==> picks[k] < |history|
    requires forall k :: 0 <= k < |picks| && history[picks[k]].id == history[i].id ==> picks[k] == i
    ensures Occurrences(IdsOf(history, picks), history[i].id) == Occurrences(picks, i)
  {
    if picks != [] {
      var n := |picks| - 1;
      assert IdsOf(history, picks)[..n] == IdsOf(history, picks[..n]);
      OccurrencesOfIds(history, picks[..n], i);
    }
  }

  /** A collected batch holds each chosen registration once. */
  lemma BatchHoldsChosen(s: State, all: bool, i: nat)
    requires TableInv(s) && IdsOk(s) && i < |s.slots| && s.slots[i].active
    ensures Occurrences(IdsOf(s.history, Picked(s.slots, all, s.clock)), s.history[i].id)
         == if Chosen(s.slots[i], all, s.clock) then 1 else 0
  {
    var picks := Picked(s.slots, all, s.clock);
    PickedExactly(s.slots, all, s.clock, i);
    OccurrencesOfIds(s.history, picks, i);
  }

  ghost predicate CallInv(s: State)
    requires |s.slots| == |s.history|
  {
    IdsOk(s) && CallsBalance(s)
  }

  /** A collection counts one run for each chosen task and puts each in the batch once. */
  lemma CollectedBalance(s: State, s': State, all: bool)
    requires TableInv(s) && CallInv(s) && s.Pending() == []
    requires |s'.slots| == |s'.history| == |s.slots|
    requires forall i :: 0 <= i < |s.slots| ==>
      && s'.slots[i].active == s.slots[i].active
      && s'.history[i].id == s.history[i].id
      && s'.slots[i].stats.runs == s.slots[i].stats.runs + (if Chosen(s.slots[i], all, s.clock) then 1 else 0)
    requires s'.Pending() == IdsOf(s.history, Picked(s.slots, all, s.clock))
    requires s'.calls == s.calls && s'.nextId == s.nextId
    ensures CallInv(s')
  {
    forall i | 0 <= i < |s.slots| && s.slots[i].active
      ensures s'.slots[i].stats.runs
           == Occurrences(s.calls, s.history[i].id) + Occurrences(s'.Pending(), s.history[i].id)
    {
      BatchHoldsChosen(s, all, i);
    }
  }

  lemma NothingPicked(s: State)
    requires TableInv(s) && Picked(s.slots, false, s.clock) == []
    ensures IdsOf(s.history, Picked(s.slots, false, s.clock)) == []
  {
  }

  lemma CollectBalance(s: State, t: int)
    requires TableInv(s) && LifeInv(s) && CallInv(s) && Enabled(s, Collect(t))
    ensures CallInv(Apply(s, Collect(t)))
  {
    OnlyLastMoves(s, t);
    if Picked(s.slots, false, s.clock) == [] { NothingPicked(s); }
    CollectedBalance(s, Apply(s, Collect(t)), false);
  }

  lemma FinalBalance(s: State, t: int)
    requires TableInv(s) && LifeInv(s) && CallInv(s) && Enabled(s, FinalCollect(t))
    ensures CallInv(Apply(s, FinalCollect(t)))
  {
    OnlyLastMoves(s, t);
    CollectedBalance(s, Apply(s, FinalCollect(t)), true);
  }

  /** A step that neither counts runs nor moves the batch keeps the balance. */
  lemma UnaffectedBalance(s: State, s': State)
    requires TableInv(s) && CallInv(s)
    requires |s'.slots| == |s'.history| == |s.slots|
    requires forall i :: 0 <= i < |s.slots| && s'.slots[i].active ==>
      s.slots[i].active && s'.history[i].id == s.history[i].id && s'.slots[i].stats.runs == s.slots[i].stats.runs
    requires s'.Pending() == s.Pending() && s'.calls == s.calls && s'.nextId == s.nextId
    ensures CallInv(s')
  {
  }

  lemma CallBalance(s: State, t: int)
    requires TableInv(s) && LifeInv(s) && CallInv(s) && Enabled(s, Call(t))
    ensures CallInv(Apply(s, Call(t)))
  {
    OnlyLastMoves(s, t);
    var s' := Apply(s, Call(t));
    var todo := s.Pending();
    assert s'.Pending() == todo[1..];
    forall i | 0 <= i < |s.slots| && s.slots[i].active
      ensures s'.slots[i].stats.runs
           == Occurrences(s'.calls, s.history[i].id) + Occurrences(s'.Pending(), s.history[i].id)
    {
      OccurrencesAppended(s.calls, todo[0], s.history[i].id);
      OccurrencesHead(todo, s.history[i].id);
    }
  }

  lemma RegisterBalance(s: State, task: Task, when: int)
    requires TableInv(s) && LifeInv(s) && CallInv(s)
    ensures CallInv(ApplyRegister(s, task, when))
  {
    var s' := ApplyRegister(s, task, when);
    if RegisterCode(s.slots, task) == HB_REGISTER_INSERTED {
      OccurrencesAbsent(s.calls, s.nextId);
      OccurrencesAbsent(s.Pending(), s.nextId);
      assert s'.Pending() == s.Pending();
    }
  }

  lemma CallKept(s: State, step: Step)
    requires TableInv(s) && LifeInv(s) && CallInv(s) && Enabled(s, step)
    ensures CallInv(Apply(s, step))
  {
    match step
    case Collect(t) => CollectBalance(s, t);
    case FinalCollect(t) => FinalBalance(s, t);
    case Call(t) => CallBalance(s, t);
    case RegisterTask(task, when) => RegisterBalance(s, task, when);
    case _ => OtherBalance(s, step);
  }

  lemma OtherBalance(s: State, step: Step)
    requires TableInv(s) && LifeInv(s) && CallInv(s) && Enabled(s, step)
    requires !step.Collect? && !step.FinalCollect? && !step.Call? && !step.RegisterTask?
    ensures CallInv(Apply(s, step))
  {
    if IsThreadStep(step) {
      OnlyLastMoves(s, step.t);
      UnaffectedBalance(s, Apply(s, step));
    } else {
      ClientBalance(s, step);
    }
  }

  lemma ClientBalance(s: State, step: Step)
    requires TableInv(s) && LifeInv(s) && CallInv(s) && Enabled(s, step)
    requires !IsThreadStep(step) && !step.RegisterTask?
    ensures CallInv(Apply(s, step))
  {
    OtherPending(s, step);
    UnaffectedBalance(s, Apply(s, step));
  }

  lemma OtherPending(s: State, step: Step)
    requires TableInv(s) && LifeInv(s) && Enabled(s, step) && !IsThreadStep(step)
    ensures Apply(s, step).Pending() == s.Pending()
  {
    hide FindName, FindFree, Picked, WakeAt, TableOk;
  }

  // ----- whole runs -----------------------------------------------------------------------------------

  lemma StepKeepsInv(s: State, step: Step)
    requires Inv(s) && Enabled(s, step)
    ensures Inv(Apply(s, step))
  {
    TableKept(s, step);
    LifeKept(s, step);
    SleepKept(s, step);
    GridKept(s, step);
    CallKept(s, step);
  }

  ghost predicate IsRun(s: State, steps: seq<Step>)
    requires |s.slots| == |s.history|
    decreases |steps|
  {
    steps == [] || (Enabled(s, steps[0]) && IsRun(Apply(s, steps[0]), steps[1..]))
  }

  ghost function After(s: State, steps: seq<Step>): (t: State)
    requires |s.slots| == |s.history| && IsRun(s, steps)
    ensures |t.slots| == |t.history|
    decreases |steps|
  {
    if steps == [] then s else After(Apply(s, steps[0]), steps[1..])
  }

  lemma {:induction false} RunKeepsInv(s: State, steps: seq<Step>)
    requires Inv(s) && IsRun(s, steps)
    ensures Inv(After(s, steps))
    decreases |steps|
  {
    if steps != [] {
      StepKeepsInv(s, steps[0]);
      RunKeepsInv(Apply(s, steps[0]), steps[1..]);
    }
  }

  lemma ReachableInv(start: State, steps: seq<Step>)
    requires Initial(start) && IsRun(start, steps)
    ensures Inv(After(start, steps))
  {
    RunKeepsInv(start, steps);
  }

  /**
   No deadline is slept through.  In every reachable state a scheduler thread that waits and
   has not been signalled has no stop request pending, its deadline is exactly the earliest
   next run of an active task, and so whenever some task is due its wait has already expired.
   */
  lemma NoDeadlineSleptThrough(start: State, steps: seq<Step>, t: int)
    requires Initial(start) && IsRun(start, steps)
    requires var s := After(start, steps); s.Thread(t) && s.threads[t].Waiting? && !s.threads[t].signalled
    ensures var s := After(start, steps);
      && !s.stop
      && (forall i :: 0 <= i < |s.slots| && s.slots[i].active ==> s.threads[t].deadline <= s.slots[i].nextRun)
      && (forall i :: 0 <= i < |s.slots| && Due(s.slots[i], s.clock) ==> s.threads[t].deadline <= s.clock)
      && (SomeActive(s.slots) ==>
            exists i :: 0 <= i < |s.slots| && s.slots[i].active && s.slots[i].nextRun == s.threads[t].deadline)
  {
    ReachableInv(start, steps);
    var s := After(start, steps);
    assert SleepOk(s, s.threads[t]);
  }

  /**
   Tick accounting is exact in every reachable state: the next run of an active task is the
   start of its grid plus its period times the runs and overruns counted since, drain runs apart.
   */
  lemma TicksAccounted(start: State, steps: seq<Step>, i: int)
    requires Initial(start) && IsRun(start, steps)
    requires var s := After(start, steps); 0 <= i < |s.slots| && s.slots[i].active
    ensures var s := After(start, steps);
      var since := s.slots[i].stats.runs + s.slots[i].stats.overruns - s.history[i].base - s.history[i].drained;
      since >= 0 && s.slots[i].nextRun == s.history[i].start + s.slots[i].task.period * since
  {
    ReachableInv(start, steps);
    var s := After(start, steps);
    assert OnGrid(s.slots[i], s.history[i]);
  }

  function LiveThreads(threads: seq<Thread>): nat {
    if threads == [] then 0
    else LiveThreads(threads[..|threads| - 1]) + (if threads[|threads| - 1].Live() then 1 else 0)
  }

  lemma {:induction false} NoneLive(threads: seq<Thread>)
    requires forall t :: 0 <= t < |threads| ==> threads[t].Ended?
    ensures LiveThreads(threads) == 0
  {
    if threads != [] { NoneLive(threads[..|threads| - 1]); }
  }

  /**
   Life cycle under one controlling client: the number of scheduler threads that have not
   passed hb_mark_stopped is the running flag, active names are unique with nonzero periods,
   a shutdown that is over left no thread behind, and once no thread is left every active
   task has been called exactly as often as its run counter says, drain runs included.
   */
  lemma LifeCycle(start: State, steps: seq<Step>)
    requires Initial(start) && IsRun(start, steps)
    ensures var s := After(start, steps);
      && LiveThreads(s.threads) == (if s.running then 1 else 0)
      && TableOk(s.slots)
      && (s.client.Ready? && !s.running ==>
            && (forall t :: 0 <= t < |s.threads| ==> s.threads[t].Ended?)
            && (forall i :: 0 <= i < |s.slots| && s.slots[i].active ==>
                  s.slots[i].stats.runs == Occurrences(s.calls, s.history[i].id)))
  {
    ReachableInv(start, steps);
    var s := After(start, steps);
    if s.threads != [] {
      NoneLive(s.threads[..|s.threads| - 1]);
    }
    if s.client.Ready? && !s.running {
      assert s.Pending() == [];
    }
  }

  /**
   A drained stop collects each active task once, in table order, and counts that run; no
   other registration is in the final batch.
   */
  lemma DrainCollectsEachOnce(s: State, t: int, i: int)
    requires Inv(s) && Enabled(s, FinalCollect(t)) && 0 <= i < |s.slots|
    ensures var s' := Apply(s, FinalCollect(t));
      && s'.threads[t].Final? && |s'.threads[t].todo| <= |s.slots|
      && (s.slots[i].active ==>
            && Occurrences(s'.threads[t].todo, s.history[i].id) == 1
            && s'.slots[i].stats.runs == s.slots[i].stats.runs + 1
            && s'.slots[i].nextRun == s.slots[i].nextRun
            && s'.slots[i].stats.lastRun == s.clock && s'.slots[i].task == s.slots[i].task && s'.slots[i].active)
  {
    if s.slots[i].active { BatchHoldsChosen(s, true, i); }
  }

  // ----- the drain over the rest of a run -----------------------------------------------------------

  /** The thread has collected its final batch. */
  predicate Finishing(pc: Thread) { pc.Final? || pc.Marking? || pc.Past? || pc.Ended? }

  /** Registration `id` has been called, or will be from the final batch, `n` times in all. */
  ghost predicate DrainBalance(s: State, t: int, id: nat, n: nat) {
    && |s.threads| == t + 1 > 0 && Finishing(s.threads[t])
    && Occurrences(s.calls, id) + Occurrences(s.threads[t].Todo(), id) == n
  }

  lemma ThreadsOnlyGrow(s: State, step: Step)
    requires |s.slots| == |s.history| && Enabled(s, step)
    ensures |s.threads| <= |Apply(s, step).threads|
  {
  }

  lemma {:induction false} RunThreadsOnlyGrow(s: State, steps: seq<Step>)
    requires |s.slots| == |s.history| && IsRun(s, steps)
    ensures |s.threads| <= |After(s, steps).threads|
    decreases |steps|
  {
    if steps != [] {
      ThreadsOnlyGrow(s, steps[0]);
      RunThreadsOnlyGrow(Apply(s, steps[0]), steps[1..]);
    }
  }

  lemma DrainCall(s: State, t: int, id: nat, n: nat)
    requires |s.slots| == |s.history| && Enabled(s, Call(t)) && DrainBalance(s, t, id, n)
    ensures DrainBalance(Apply(s, Call(t)), t, id, n)
  {
    hide Occurrences;
    var todo := s.threads[t].Todo();
    OccurrencesAppended(s.calls, todo[0], id);
    OccurrencesHead(todo, id);
  }

  lemma DrainStep(s: State, step: Step, t: int, id: nat, n: nat)
    requires Inv(s) && Enabled(s, step) && DrainBalance(s, t, id, n)
    requires |Apply(s, step).threads| == t + 1
    ensures DrainBalance(Apply(s, step), t, id, n)
  {
    hide Occurrences;
    if step.Call? {
      OnlyLastMoves(s, step.t);
      DrainCall(s, t, id, n);
    } else if IsThreadStep(step) {
      OnlyLastMoves(s, step.t);
    }
  }

  lemma {:induction false} DrainRun(s: State, steps: seq<Step>, t: int, id: nat, n: nat)
    requires Inv(s) && IsRun(s, steps) && DrainBalance(s, t, id, n)
    requires |After(s, steps).threads| == t + 1
    ensures DrainBalance(After(s, steps), t, id, n)
    decreases |steps|
  {
    if steps != [] {
      ThreadsOnlyGrow(s, steps[0]);
      RunThreadsOnlyGrow(Apply(s, steps[0]), steps[1..]);
      DrainStep(s, steps[0], t, id, n);
      StepKeepsInv(s, steps[0]);
      DrainRun(Apply(s, steps[0]), steps[1..], t, id, n);
    }
  }

  /** The final batch holds an active registration once and any other number not at all. */
  lemma FinalBatch(s: State, t: int, id: nat)
    requires Inv(s) && Enabled(s, FinalCollect(t))
    ensures Occurrences(Apply(s, FinalCollect(t)).threads[t].Todo(), id)
         == if exists i :: 0 <= i < |s.slots| && s.slots[i].active && s.history[i].id == id then 1 else 0
  {
    var todo := Apply(s, FinalCollect(t)).threads[t].Todo();
    if i :| 0 <= i < |s.slots| && s.slots[i].active && s.history[i].id == id {
      BatchHoldsChosen(s, true, i);
    } else {
      OccurrencesAbsent(todo, id);
    }
  }

  /**
   A drained stop, over the rest of the run: however clients interfere after the final
   collection, by the time its thread has run the batch every task active at that collection
   has been called exactly once more, and nothing else has been called.
   */
  lemma DrainCallsEachOnceMore(s: State, t: int, steps: seq<Step>, id: nat)
    requires Inv(s) && Enabled(s, FinalCollect(t)) && IsRun(Apply(s, FinalCollect(t)), steps)
    requires var e := After(Apply(s, FinalCollect(t)), steps);
      |e.threads| == |s.threads| && (e.threads[t].Marking? || e.threads[t].Past? || e.threads[t].Ended?)
    ensures var e := After(Apply(s, FinalCollect(t)), steps);
      Occurrences(e.calls, id) - Occurrences(s.calls, id)
        == if exists i :: 0 <= i < |s.slots| && s.slots[i].active && s.history[i].id == id then 1 else 0
  {
    OnlyLastMoves(s, t);
    var f := Apply(s, FinalCollect(t));
    StepKeepsInv(s, FinalCollect(t));
    FinalBatch(s, t, id);
    DrainRun(f, steps, t, id, Occurrences(f.calls, id) + Occurrences(f.threads[t].Todo(), id));
  }
}
