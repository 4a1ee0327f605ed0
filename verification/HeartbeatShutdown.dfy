/**
 What heartbeat_shutdown makes the scheduler do, over every run from the request to the end of
 the join: it drains exactly when asked to, and it always ends.
 */
module HeartbeatShutdown {
  import opened Common
  import opened Heartbeat
  import opened HeartbeatProtocol
  import opened HeartbeatProof

  /** The state after a client has asked a running scheduler to stop, with a drain or without. */
  ghost function Requested(s: State, d: bool): (s1: State)
    requires |s.slots| == |s.history| && s.client.Ready?
    ensures |s1.slots| == |s1.history|
  {
    Apply(s, Shutdown(d))
  }

  // ----- the way to the end ---------------------------------------------------------------------

  /**
   The client waits for thread `h` after a shutdown that asked for a drain or not (`d`), and the
   thread has made `done` final collections since.
   */
  ghost predicate Asked(s: State, h: int, d: bool, done: nat) {
    && 0 <= h && s.client == Joining(h) && |s.threads| == h + 1
    && (s.threads[h].Live() ==> s.stop && s.drain == d)
    && match s.threads[h]
       case Top => done == 0
       case Waiting(_, _) => done == 0
       case Running(_, stop, drain) => done == 0 && (stop ==> drain == d)
       case Draining => done == 0 && d
       case Final(_) => done == 1 && d
       case _ => done == if d then 1 else 0
  }

  /** The invariants hold and the shutdown has come this far. */
  ghost predicate InProgress(s: State, h: int, d: bool, done: nat) {
    Inv(s) && Asked(s, h, d, done)
  }

  lemma ProgressMeans(s: State, h: int, d: bool, done: nat)
    requires InProgress(s, h, d, done)
    ensures |s.slots| == |s.history| && 0 <= h && |s.threads| == h + 1
    ensures s.threads[h].Ended? ==> done == if d then 1 else 0
  {
  }

  lemma AskedByShutdown(s: State, d: bool)
    requires Inv(s) && s.client.Ready? && s.running
    ensures var s1, h := Requested(s, d), |s.threads| - 1;
      && InProgress(s1, h, d, 0) && |s1.threads| == h + 1 > 0 && |s1.slots| == |s.slots| && !IsOver(s1, h)
      && Rank(s1.threads[h], |s1.slots|) <= 7 + 2 * |s.slots| + |s.Pending()|
  {
    StepKeepsInv(s, Shutdown(d));
  }

  function OneIf(b: bool): nat { if b then 1 else 0 }

  lemma AskedStep(s: State, step: Step, h: int, d: bool, done: nat)
    requires Inv(s) && Enabled(s, step) && !step.JoinDone? && Asked(s, h, d, done)
    ensures Asked(Apply(s, step), h, d, done + OneIf(step.FinalCollect?))
  {
    hide Picked, WakeAt, FindName, FindFree, Occurrences, TableInv, SleepInv, GridInv, IdsOk, CallsBalance;
    if IsThreadStep(step) { OnlyLastMoves(s, step.t); }
  }

  lemma ProgressStep(s: State, step: Step, h: int, d: bool, done: nat)
    requires InProgress(s, h, d, done) && Enabled(s, step) && !step.JoinDone?
    ensures InProgress(Apply(s, step), h, d, done + OneIf(step.FinalCollect?))
  {
    AskedStep(s, step, h, d, done);
    StepKeepsInv(s, step);
  }

  function FinalCollects(steps: seq<Step>): nat {
    if steps == [] then 0 else OneIf(steps[0].FinalCollect?) + FinalCollects(steps[1..])
  }

  /** The client has not come back from the join. */
  ghost predicate NotJoined(steps: seq<Step>) {
    forall i :: 0 <= i < |steps| ==> !steps[i].JoinDone?
  }

  lemma RunNext(s: State, steps: seq<Step>)
    requires |s.slots| == |s.history| && IsRun(s, steps) && NotJoined(steps) && steps != []
    ensures Enabled(s, steps[0]) && !steps[0].JoinDone?
    ensures IsRun(Apply(s, steps[0]), steps[1..]) && NotJoined(steps[1..])
    ensures After(s, steps) == After(Apply(s, steps[0]), steps[1..])
  {
    hide Apply, Enabled;
  }

  lemma {:induction false} ProgressRun(s: State, steps: seq<Step>, h: int, d: bool, done: nat)
    requires |s.slots| == |s.history| && InProgress(s, h, d, done) && IsRun(s, steps) && NotJoined(steps)
    ensures InProgress(After(s, steps), h, d, done + FinalCollects(steps))
    decreases |steps|
  {
    if steps != [] {
      hide InProgress, Apply, Enabled, NotJoined;
      RunNext(s, steps);
      ProgressStep(s, steps[0], h, d, done);
      ProgressRun(Apply(s, steps[0]), steps[1..], h, d, done + OneIf(steps[0].FinalCollect?));
    }
  }

  // ----- draining exactly when asked ---------------------------------------------------------------

  /** A run of the scheduler from a shutdown request until its thread has ended. */
  ghost predicate ShutdownRun(s: State, d: bool, steps: seq<Step>) {
    && |s.slots| == |s.history| && Inv(s) && s.client.Ready? && s.running
    && IsRun(Requested(s, d), steps) && NotJoined(steps)
    && var e := After(Requested(s, d), steps);
       |e.threads| >= |s.threads| > 0 && e.threads[|s.threads| - 1].Ended?
  }

  /** The same from the state after the request. */
  ghost predicate EndingRun(s1: State, steps: seq<Step>, h: int, d: bool) {
    && |s1.slots| == |s1.history| && InProgress(s1, h, d, 0) && !IsOver(s1, h)
    && IsRun(s1, steps) && NotJoined(steps)
    && var e := After(s1, steps); |e.threads| > h >= 0 && e.threads[h].Ended?
  }

  lemma ShutdownStarts(s: State, d: bool, steps: seq<Step>)
    requires ShutdownRun(s, d, steps)
    ensures EndingRun(Requested(s, d), steps, |s.threads| - 1, d)
  {
    AskedByShutdown(s, d);
  }

  /**
   Between a shutdown and the end of the thread it waits for, whatever other clients do, that
   thread makes exactly one final collection if a drain was asked for, and none otherwise.
   */
  lemma ShutdownDrainsExactly(s: State, d: bool, steps: seq<Step>)
    requires ShutdownRun(s, d, steps)
    ensures FinalCollects(steps) == if d then 1 else 0
  {
    hide EndingRun, FinalCollects, Requested, Inv, IsRun, NotJoined, After;
    ShutdownStarts(s, d, steps);
    DrainCount(Requested(s, d), steps, |s.threads| - 1, d);
  }

  lemma DrainCount(s1: State, steps: seq<Step>, h: int, d: bool)
    requires EndingRun(s1, steps, h, d)
    ensures FinalCollects(steps) == if d then 1 else 0
  {
    hide InProgress, IsRun, After, NotJoined, FinalCollects, IsOver;
    ProgressRun(s1, steps, h, d, 0);
    ProgressMeans(After(s1, steps), h, d, FinalCollects(steps));
  }

  lemma {:induction false} RunSplit(s: State, steps: seq<Step>, i: nat)
    requires |s.slots| == |s.history| && IsRun(s, steps) && i <= |steps|
    ensures IsRun(s, steps[..i]) && IsRun(After(s, steps[..i]), steps[i..])
    ensures After(After(s, steps[..i]), steps[i..]) == After(s, steps)
    decreases |steps|
  {
    if i == 0 {
      assert steps[..0] == [] && steps[0..] == steps;
    } else {
      hide Apply, Enabled;
      RunSplit(Apply(s, steps[0]), steps[1..], i - 1);
      assert steps[..i] == [steps[0]] + steps[1..][..i - 1];
      assert steps[..i][1..] == steps[1..][..i - 1] && steps[i..] == steps[1..][i - 1..];
    }
  }

  /** A point of a run: what leads there, the next step, and what follows it. */
  lemma RunPoint(s1: State, steps: seq<Step>, h: int, d: bool, i: nat)
    requires |s1.slots| == |s1.history| && InProgress(s1, h, d, 0) && IsRun(s1, steps) && NotJoined(steps)
    requires i < |steps|
    ensures IsRun(s1, steps[..i])
    ensures var f := After(s1, steps[..i]);
      && InProgress(f, h, d, FinalCollects(steps[..i])) && Enabled(f, steps[i]) && !steps[i].JoinDone?
      && IsRun(Apply(f, steps[i]), steps[i + 1..]) && NotJoined(steps[i + 1..])
      && After(Apply(f, steps[i]), steps[i + 1..]) == After(s1, steps)
  {
    RunSplit(s1, steps, i);
    var f := After(s1, steps[..i]);
    RunNext(f, steps[i..]);
    assert steps[i..][1..] == steps[i + 1..];
    hide InProgress, Apply, Enabled, After, IsRun, FinalCollects;
    ProgressRun(s1, steps[..i], h, d, 0);
  }

  /** The thread has nothing left to call and will collect nothing more. */
  predicate Over(pc: Thread) { pc.Marking? || pc.Past? || pc.Ended? }

  ghost predicate IsOver(s: State, h: int) { |s.threads| == h + 1 > 0 && Over(s.threads[h]) }

  lemma OverStep(s: State, step: Step, h: int, d: bool, done: nat)
    requires InProgress(s, h, d, done) && Enabled(s, step) && !step.JoinDone? && IsOver(s, h)
    ensures IsOver(Apply(s, step), h) && Apply(s, step).calls == s.calls
  {
    hide Picked, WakeAt, FindName, FindFree, Occurrences, TableInv, SleepInv, GridInv, IdsOk, CallsBalance;
    if IsThreadStep(step) { OnlyLastMoves(s, step.t); }
  }

  lemma {:induction false} OverCallsNothing(s: State, steps: seq<Step>, h: int, d: bool, done: nat)
    requires |s.slots| == |s.history| && InProgress(s, h, d, done) && IsRun(s, steps) && NotJoined(steps)
    requires IsOver(s, h)
    ensures After(s, steps).calls == s.calls
    decreases |steps|
  {
    if steps != [] {
      hide InProgress, Apply, Enabled, NotJoined, IsOver;
      RunNext(s, steps);
      ProgressStep(s, steps[0], h, d, done);
      OverStep(s, steps[0], h, d, done);
      OverCallsNothing(Apply(s, steps[0]), steps[1..], h, d, done + OneIf(steps[0].FinalCollect?));
    }
  }

  /** Some step of the run is the one with which the thread is over. */
  lemma {:induction false} BecomesOver(s: State, steps: seq<Step>, h: int) returns (i: nat)
    requires |s.slots| == |s.history| && IsRun(s, steps) && NotJoined(steps)
    requires !IsOver(s, h) && IsOver(After(s, steps), h)
    ensures i < |steps| && IsRun(s, steps[..i])
    ensures var f := After(s, steps[..i]);
      !IsOver(f, h) && Enabled(f, steps[i]) && IsOver(Apply(f, steps[i]), h)
    decreases |steps|
  {
    assert steps != [];
    hide Apply, Enabled, NotJoined, IsOver;
    RunNext(s, steps);
    if IsOver(Apply(s, steps[0]), h) {
      i := 0;
    } else {
      i := BecomesOver(Apply(s, steps[0]), steps[1..], h);
      i := i + 1;
      assert steps[..i][0] == steps[0] && steps[..i][1..] == steps[1..][..i - 1];
    }
  }

  /** Without a drain the thread is over as soon as it has run the batch of its last collection. */
  lemma OverWithoutDrain(s: State, step: Step, h: int, done: nat)
    requires InProgress(s, h, false, done) && Enabled(s, step) && !step.JoinDone?
    requires !IsOver(s, h) && IsOver(Apply(s, step), h)
    ensures |s.threads| == h + 1 > 0 && s.threads[h].Stopping() && s.threads[h].Todo() == []
    ensures Apply(s, step).calls == s.calls
  {
    hide Picked, WakeAt, FindName, FindFree, Occurrences, TableInv, SleepInv, GridInv, IdsOk, CallsBalance;
    if IsThreadStep(step) { OnlyLastMoves(s, step.t); }
  }

  lemma {:induction false} SomeFinalCollect(steps: seq<Step>) returns (i: nat)
    requires FinalCollects(steps) > 0
    ensures i < |steps| && steps[i].FinalCollect?
  {
    if steps[0].FinalCollect? {
      i := 0;
    } else {
      i := SomeFinalCollect(steps[1..]);
      i := i + 1;
    }
  }

  ghost predicate ActiveAs(s: State, id: nat)
    requires |s.slots| == |s.history|
  {
    exists i :: 0 <= i < |s.slots| && s.slots[i].active && s.history[i].id == id
  }

  /** From a point on, each registration active there is called once more if `d`, and no other is. */
  ghost predicate CallsFrom(f: State, e: State, d: bool)
    requires |f.slots| == |f.history|
  {
    forall id: nat ::
      Occurrences(e.calls, id) == Occurrences(f.calls, id) + (if d && ActiveAs(f, id) then 1 else 0)
  }

  /**
   The point after `cut` steps: the thread has seen the request and has run everything it collected
   before, and is about to make its final collection if a drain was asked for.
   */
  ghost predicate CutAt(s1: State, steps: seq<Step>, h: int, d: bool, cut: nat) {
    && |s1.slots| == |s1.history| && IsRun(s1, steps) && cut < |steps| && IsRun(s1, steps[..cut])
    && var f := After(s1, steps[..cut]);
    && |f.threads| == h + 1 > 0 && f.threads[h].Stopping() && f.threads[h].Todo() == []
    && (d ==> f.threads[h].Draining? && steps[cut] == FinalCollect(h))
  }

  /**
   What a shutdown adds to the calls: there is a point in the run at which the thread has seen the
   request and has run everything it collected before.  From then until it has ended, each
   registration active at that point is called exactly once more if a drain was asked for; and
   nothing else is called.
   */
  lemma ShutdownCallsOnceMoreIffDrain(s: State, d: bool, steps: seq<Step>) returns (cut: nat)
    requires ShutdownRun(s, d, steps)
    ensures var s1 := Requested(s, d);
      && CutAt(s1, steps, |s.threads| - 1, d, cut)
      && CallsFrom(After(s1, steps[..cut]), After(s1, steps), d)
  {
    hide EndingRun, Requested, CutAt, CallsFrom, Inv, IsRun, NotJoined, After;
    ShutdownStarts(s, d, steps);
    if d {
      cut := DrainCut(Requested(s, d), steps, |s.threads| - 1);
    } else {
      cut := PlainCut(Requested(s, d), steps, |s.threads| - 1);
    }
  }

  lemma PlainCut(s1: State, steps: seq<Step>, h: int) returns (cut: nat)
    requires EndingRun(s1, steps, h, false)
    ensures CutAt(s1, steps, h, false, cut) && CallsFrom(After(s1, steps[..cut]), After(s1, steps), false)
  {
    hide InProgress, IsRun, After, NotJoined, FinalCollects, Apply, Enabled, CallsFrom;
    ProgressRun(s1, steps, h, false, 0);
    ProgressMeans(After(s1, steps), h, false, FinalCollects(steps));
    cut := BecomesOver(s1, steps, h);
    PlainPoint(s1, steps, h, cut);
  }

  lemma PlainPoint(s1: State, steps: seq<Step>, h: int, cut: nat)
    requires |s1.slots| == |s1.history| && InProgress(s1, h, false, 0) && IsRun(s1, steps) && NotJoined(steps)
    requires cut < |steps| && IsRun(s1, steps[..cut])
    requires var f := After(s1, steps[..cut]);
      !IsOver(f, h) && Enabled(f, steps[cut]) && IsOver(Apply(f, steps[cut]), h)
    ensures CutAt(s1, steps, h, false, cut) && CallsFrom(After(s1, steps[..cut]), After(s1, steps), false)
  {
    var f, done := After(s1, steps[..cut]), FinalCollects(steps[..cut]);
    hide InProgress, IsRun, After, NotJoined, FinalCollects, Apply, Enabled, IsOver, Occurrences;
    RunPoint(s1, steps, h, false, cut);
    ProgressStep(f, steps[cut], h, false, done);
    OverWithoutDrain(f, steps[cut], h, done);
    OverCallsNothing(Apply(f, steps[cut]), steps[cut + 1..], h, false, done + OneIf(steps[cut].FinalCollect?));
  }

  lemma DrainCut(s1: State, steps: seq<Step>, h: int) returns (cut: nat)
    requires EndingRun(s1, steps, h, true)
    ensures CutAt(s1, steps, h, true, cut) && CallsFrom(After(s1, steps[..cut]), After(s1, steps), true)
  {
    hide InProgress, IsRun, After, NotJoined, FinalCollects, Apply, Enabled, CallsFrom, IsOver;
    DrainCount(s1, steps, h, true);
    ProgressRun(s1, steps, h, true, 0);
    ProgressMeans(After(s1, steps), h, true, FinalCollects(steps));
    cut := SomeFinalCollect(steps);
    RunPoint(s1, steps, h, true, cut);
    var f := After(s1, steps[..cut]);
    AtFinalCollect(f, steps[cut], h, FinalCollects(steps[..cut]));
    CalledFrom(f, steps[cut + 1..], h, FinalCollects(steps[..cut]), After(s1, steps));
  }

  lemma AtFinalCollect(f: State, step: Step, h: int, done: nat)
    requires InProgress(f, h, true, done) && Enabled(f, step) && step.FinalCollect?
    ensures step == FinalCollect(h) && |f.threads| == h + 1 > 0 && f.threads[h].Draining?
  {
    OnlyLastMoves(f, step.t);
  }

  lemma CalledFrom(f: State, post: seq<Step>, h: int, done: nat, e: State)
    requires InProgress(f, h, true, done) && |f.threads| == h + 1 > 0 && Enabled(f, FinalCollect(h))
    requires IsRun(Apply(f, FinalCollect(h)), post) && e == After(Apply(f, FinalCollect(h)), post)
    requires |e.threads| == h + 1 && e.threads[h].Ended?
    ensures CallsFrom(f, e, true)
  {
    hide Apply, Enabled, IsRun, After, Occurrences;
    forall id: nat
      ensures Occurrences(e.calls, id) == Occurrences(f.calls, id) + (if ActiveAs(f, id) then 1 else 0)
    {
      DrainCallsEachOnceMore(f, h, post, id);
    }
  }

  // ----- a shutdown always ends -----------------------------------------------------------------------

  /** The most steps the thread still takes once it is asked to stop, with `n` slots in the table. */
  function Rank(pc: Thread, n: nat): nat {
    match pc
    case Ended => 0
    case Past => 1
    case Marking => 2
    case Final(todo) => 3 + |todo|
    case Draining => 4 + n
    case Running(todo, stop, _) => if stop then 5 + n + |todo| else 7 + 2 * n + |todo|
    case Top => 6 + 2 * n
    case Waiting(_, _) => 7 + 2 * n
  }

  lemma RankStep(s: State, step: Step, h: int, d: bool, done: nat)
    requires InProgress(s, h, d, done) && Enabled(s, step) && !step.JoinDone? && |s.threads| == h + 1 > 0
    ensures var t := Apply(s, step);
      && |t.slots| == |s.slots| && |t.threads| == h + 1
      && Rank(t.threads[h], |t.slots|) + OneIf(IsThreadStep(step)) <= Rank(s.threads[h], |s.slots|)
  {
    hide WakeAt, FindName, FindFree, Occurrences, TableInv, SleepInv, GridInv, IdsOk, CallsBalance;
    if IsThreadStep(step) { OnlyLastMoves(s, step.t); }
  }

  function ThreadSteps(steps: seq<Step>): nat {
    if steps == [] then 0 else OneIf(IsThreadStep(steps[0])) + ThreadSteps(steps[1..])
  }

  lemma {:induction false} RankRun(s: State, steps: seq<Step>, h: int, d: bool, done: nat)
    requires |s.slots| == |s.history| && InProgress(s, h, d, done) && IsRun(s, steps) && NotJoined(steps)
    requires |s.threads| == h + 1 > 0
    ensures var e := After(s, steps);
      |e.threads| == h + 1 && ThreadSteps(steps) + Rank(e.threads[h], |e.slots|) <= Rank(s.threads[h], |s.slots|)
    decreases |steps|
  {
    if steps != [] {
      hide InProgress, Apply, Enabled, Rank, NotJoined;
      RunNext(s, steps);
      ProgressStep(s, steps[0], h, d, done);
      RankStep(s, steps[0], h, d, done);
      RankRun(Apply(s, steps[0]), steps[1..], h, d, done + OneIf(steps[0].FinalCollect?));
    }
  }

  /** A thread that has not ended can take a step. */
  lemma ThreadCanMove(s: State, t: int) returns (step: Step)
    requires s.Thread(t) && !s.threads[t].Ended?
    ensures IsThreadStep(step) && step.t == t && Enabled(s, step)
  {
    match s.threads[t]
    case Top => step := Collect(t);
    case Waiting(_, _) => step := Wake(t);
    case Running(todo, _, _) => step := if todo == [] then Proceed(t) else Call(t);
    case Draining => step := FinalCollect(t);
    case Final(todo) => step := if todo == [] then Proceed(t) else Call(t);
    case Marking => step := Mark(t);
    case Past => step := Exit(t);
  }

  /**
   A shutdown always ends.  While the client waits, the thread can take a step until it has ended,
   and then the join is done; and however the steps of others interleave with its own, it takes no
   more of them than the table, its batch and the way through its states allow.
   */
  lemma ShutdownEnds(s: State, d: bool, steps: seq<Step>)
    requires Inv(s) && s.client.Ready? && s.running
    requires IsRun(Requested(s, d), steps) && NotJoined(steps)
    ensures var e, h := After(Requested(s, d), steps), |s.threads| - 1;
      && |e.threads| == h + 1
      && (if e.threads[h].Ended? then Enabled(e, JoinDone)
          else exists step :: IsThreadStep(step) && step.t == h && Enabled(e, step))
      && ThreadSteps(steps) <= 7 + 2 * |s.slots| + |s.Pending()|
  {
    AskedByShutdown(s, d);
    hide Inv, InProgress, Requested, IsRun, After, NotJoined, Enabled, Rank, ThreadSteps, IsOver;
    EndsFrom(Requested(s, d), steps, |s.threads| - 1, d);
  }

  lemma EndsFrom(s1: State, steps: seq<Step>, h: int, d: bool)
    requires |s1.slots| == |s1.history| && InProgress(s1, h, d, 0) && IsRun(s1, steps) && NotJoined(steps)
    requires |s1.threads| == h + 1 > 0
    ensures var e := After(s1, steps);
      && |e.threads| == h + 1
      && (if e.threads[h].Ended? then Enabled(e, JoinDone)
          else exists step :: IsThreadStep(step) && step.t == h && Enabled(e, step))
      && ThreadSteps(steps) <= Rank(s1.threads[h], |s1.slots|)
  {
    hide InProgress, IsRun, After, NotJoined, FinalCollects, Enabled, Rank, ThreadSteps;
    ProgressRun(s1, steps, h, d, 0);
    ProgressMeans(After(s1, steps), h, d, FinalCollects(steps));
    RankRun(s1, steps, h, d, 0);
    JoinOrMove(After(s1, steps), h, d, FinalCollects(steps));
  }

  lemma JoinOrMove(e: State, h: int, d: bool, done: nat)
    requires InProgress(e, h, d, done) && |e.threads| == h + 1 > 0
    ensures if e.threads[h].Ended? then Enabled(e, JoinDone)
            else exists step :: IsThreadStep(step) && step.t == h && Enabled(e, step)
  {
    if !e.threads[h].Ended? {
      hide Enabled;
      var step := ThreadCanMove(e, h);
    }
  }

  // ----- starting and coming back -----------------------------------------------------------------------

  /**
   A start makes one scheduler thread if none is running and the thread can be created, and none
   otherwise; it stays in the table of threads as the one a shutdown waits for.
   */
  lemma StartOutcome(s: State, created: bool)
    requires Inv(s) && s.client.Ready?
    ensures var t := Apply(s, Start(created));
      && t.slots == s.slots && t.client == s.client
      && (t.running <==> s.running || created)
      && LiveThreads(t.threads) == (if s.running || created then 1 else 0)
      && (!s.running && created ==> t.threads == s.threads + [Top] && !t.stop && !t.drain)
      && (s.running ==> t == s)
  {
    StepKeepsInv(s, Start(created));
    var t := Apply(s, Start(created));
    if t.threads != [] { NoneLive(t.threads[..|t.threads| - 1]); }
  }

  /** A shutdown without a running scheduler returns at once and changes nothing. */
  lemma ShutdownWithoutScheduler(s: State, d: bool)
    requires Inv(s) && s.client.Ready? && !s.running
    ensures Apply(s, Shutdown(d)) == s
  {
  }

  /** When the join is done the client is back, and no scheduler is left. */
  lemma JoinOutcome(s: State)
    requires Inv(s) && Enabled(s, JoinDone)
    ensures var t := Apply(s, JoinDone);
      && t.client.Ready? && t == s.(client := t.client) && !t.running && LiveThreads(t.threads) == 0
  {
    StepKeepsInv(s, JoinDone);
    var t := Apply(s, JoinDone);
    NoneLive(t.threads);
  }
}
