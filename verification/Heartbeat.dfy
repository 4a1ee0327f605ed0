/**
 The table of periodic tasks of the heartbeat scheduler: src/core/heartbeat.c (register, unregister,
 update, get_stats) and src/core/heartbeat_schedule.c (the two collection loops).
 Times are whole seconds; counters are unbounded.
 */
module Heartbeat {
  import opened Common

  const HB_IDLE_WAIT_SEC := 3600
  const HB_REGISTER_ERROR := -1
  const HB_REGISTER_DUPLICATE := 0
  const HB_REGISTER_INSERTED := 1

  datatype Task = Task(name: string, period: nat, initialDelay: nat, callback: int, ctx: int)

  datatype Stats = Stats(runs: nat, overruns: nat, lastRun: int, lastError: int)

  datatype Slot = Slot(task: Task, nextRun: int, stats: Stats, active: bool)

  const ZERO_STATS := Stats(0, 0, 0, 0)
  const ZERO_SLOT := Slot(Task("", 0, 0, 0, 0), 0, ZERO_STATS, false)

  // ----- one slot ------------------------------------------------------------------------

  predicate Due(s: Slot, now: int) { s.active && s.nextRun <= now }

  /** Whole periods that went by unserved before `now`. */
  function Missed(s: Slot, now: int): nat
    requires Due(s, now)
  {
    if s.task.period > 0 && now > s.nextRun then (now - s.nextRun) / s.task.period else 0
  }

  /** What the collection of due tasks does to one slot. */
  function Advance(s: Slot, now: int): Slot {
    if !Due(s, now) then s
    else
      var missed := Missed(s, now);
      s.(nextRun := s.nextRun + (missed + 1) * s.task.period,
         stats := Stats(s.stats.runs + 1, s.stats.overruns + missed, now, 0))
  }

  lemma AdvanceDue(s: Slot, now: int)
    ensures !Due(s, now) ==> Advance(s, now) == s
    ensures Due(s, now) ==>
      var elapsed, period := now - s.nextRun, s.task.period;
      var missed := if period > 0 && elapsed > 0 then elapsed / period else 0;
      Advance(s, now) == s.(stats := Stats(s.stats.runs + 1, s.stats.overruns + missed, now, 0),
                            nextRun := s.nextRun + (missed + 1) * period)
  {
  }

  /** What the final collection before a drained stop does to one slot. */
  function RunOnce(s: Slot, now: int): Slot {
    if !s.active then s
    else s.(stats := Stats(s.stats.runs + 1, s.stats.overruns, now, 0))
  }

  /** Ticks of the period grid accounted for so far. */
  function Ticks(s: Slot): nat { s.stats.runs + s.stats.overruns }

  lemma QuotientBounds(a: nat, d: nat)
    requires d > 0
    ensures 0 <= (a / d) * d <= a < (a / d + 1) * d
  {
    assert a == d * (a / d) + a % d;
    assert (a / d) * d == d * (a / d);
    assert (a / d + 1) * d == (a / d) * d + d;
  }

  /**
   Catch-up is exact however late the call is: a due slot moves to the least point of its
   own period grid after `now`, and the ticks it skips or serves are all counted.
   */
  lemma AdvanceToNextGridPoint(s: Slot, now: int)
    requires Due(s, now) && s.task.period > 0
    ensures var t := Advance(s, now);
      && now < t.nextRun <= now + s.task.period
      && t.nextRun - s.nextRun == s.task.period * (Ticks(t) - Ticks(s))
      && Ticks(t) > Ticks(s) && t.stats.runs == s.stats.runs + 1
      && t.stats.lastRun == now && t.stats.lastError == 0 && t.task == s.task && t.active
    ensures forall k: nat :: s.nextRun + k * s.task.period > now ==>
      Advance(s, now).nextRun <= s.nextRun + k * s.task.period
  {
    var p := s.task.period;
    var elapsed := now - s.nextRun;
    QuotientBounds(elapsed, p);
    var missed := Missed(s, now);
    if elapsed == 0 { assert 0 / p == 0; }
    assert missed == elapsed / p;
    assert (missed + 1) * p == missed * p + p;
    assert p * (missed + 1) == (missed + 1) * p;
    forall k: nat | s.nextRun + k * p > now
      ensures s.nextRun + (missed + 1) * p <= s.nextRun + k * p
    {
      if k <= missed {
        MulMonotone(k, missed, p);
      } else {
        MulMonotone(missed + 1, k, p);
      }
    }
  }

  lemma MulMonotone(a: nat, b: nat, c: nat)
    requires a <= b
    ensures a * c <= b * c
  {
  }

  // ----- the whole table ------------------------------------------------------------------

  predicate Chosen(s: Slot, all: bool, now: int) { s.active && (all || s.nextRun <= now) }

  /** The slots a collection loop picks, in table order. */
  function Picked(slots: seq<Slot>, all: bool, now: int): (r: seq<nat>)
    ensures |r| <= |slots|
    ensures forall k :: 0 <= k < |r| ==> r[k] < |slots| && Chosen(slots[r[k]], all, now)
  {
    if slots == [] then []
    else
      var n := |slots| - 1;
      Picked(slots[..n], all, now) + (if Chosen(slots[n], all, now) then [n] else [])
  }

  /** The wake-up time the collection loop accumulates, with 0 meaning "none". */
  function WakeAt(slots: seq<Slot>): int {
    if slots == [] then 0
    else
      var n := |slots| - 1;
      var acc := WakeAt(slots[..n]);
      if slots[n].active && (acc == 0 || slots[n].nextRun < acc) then slots[n].nextRun else acc
  }

  lemma NothingYet(slots: seq<Slot>, all: bool, now: int)
    ensures Picked(slots[..0], all, now) == [] && WakeAt(slots[..0]) == 0
  {
  }

  lemma PickedStep(slots: seq<Slot>, i: nat, all: bool, now: int)
    requires i < |slots|
    ensures Picked(slots[..i + 1], all, now)
         == Picked(slots[..i], all, now) + (if Chosen(slots[i], all, now) then [i] else [])
  {
    assert slots[..i + 1][..i] == slots[..i];
  }

  lemma WakeAtStep(slots: seq<Slot>, i: nat)
    requires i < |slots|
    ensures
      var acc, s := WakeAt(slots[..i]), slots[i];
      WakeAt(slots[..i + 1]) == if s.active && (acc == 0 || s.nextRun < acc) then s.nextRun else acc
  {
    assert slots[..i + 1][..i] == slots[..i];
  }

  function AdvanceAll(slots: seq<Slot>, now: int): (r: seq<Slot>)
    ensures |r| == |slots| && forall i :: 0 <= i < |slots| ==> r[i] == Advance(slots[i], now)
  {
    seq(|slots|, i requires 0 <= i < |slots| => Advance(slots[i], now))
  }

  function RunAllOnce(slots: seq<Slot>, now: int): (r: seq<Slot>)
    ensures |r| == |slots| && forall i :: 0 <= i < |slots| ==> r[i] == RunOnce(slots[i], now)
  {
    seq(|slots|, i requires 0 <= i < |slots| => RunOnce(slots[i], now))
  }

  /** A slot is picked once or not at all. */
  lemma {:induction false} PickedExactly(slots: seq<Slot>, all: bool, now: int, i: nat)
    ensures Occurrences(Picked(slots, all, now), i) == if i < |slots| && Chosen(slots[i], all, now) then 1 else 0
  {
    if slots != [] {
      var n := |slots| - 1;
      PickedExactly(slots[..n], all, now, i);
      if Chosen(slots[n], all, now) { OccurrencesAppended(Picked(slots[..n], all, now), n, i); }
      else { assert Picked(slots, all, now) == Picked(slots[..n], all, now); }
    }
  }

  lemma AdvanceKeepsTable(slots: seq<Slot>, now: int)
    requires TableOk(slots)
    ensures TableOk(AdvanceAll(slots, now)) && TableOk(RunAllOnce(slots, now))
  {
  }

  ghost predicate SomeActive(slots: seq<Slot>) {
    exists i :: 0 <= i < |slots| && slots[i].active
  }

  /**
   With no task due, the accumulated wake-up time is the earliest next run of an active task
   and lies in the future; it is the sentinel 0 only when there is no active task.
   */
  lemma {:induction false} WakeAtIsEarliest(slots: seq<Slot>, now: int)
    requires now >= 0
    requires forall i :: 0 <= i < |slots| && slots[i].active ==> slots[i].nextRun > now
    ensures !SomeActive(slots) ==> WakeAt(slots) == 0
    ensures SomeActive(slots) ==>
      && WakeAt(slots) > now
      && (forall i :: 0 <= i < |slots| && slots[i].active ==> WakeAt(slots) <= slots[i].nextRun)
      && exists i :: 0 <= i < |slots| && slots[i].active && slots[i].nextRun == WakeAt(slots)
  {
    if slots != [] {
      var n := |slots| - 1;
      var init := slots[..n];
      WakeAtIsEarliest(init, now);
      if SomeActive(init) {
        var j :| 0 <= j < |init| && init[j].active && init[j].nextRun == WakeAt(init);
        assert slots[j].active;
      }
      forall i | 0 <= i < |slots| && slots[i].active
        ensures WakeAt(slots) <= slots[i].nextRun
      {
        if i < n { assert init[i].active; }
      }
    }
  }

  // ----- registration ---------------------------------------------------------------------

  ghost predicate UniqueNames(slots: seq<Slot>) {
    forall i, j :: 0 <= i < j < |slots| && slots[i].active && slots[j].active ==>
      slots[i].task.name != slots[j].task.name
  }

  ghost predicate PositivePeriods(slots: seq<Slot>) {
    forall i :: 0 <= i < |slots| && slots[i].active ==> slots[i].task.period > 0
  }

  ghost predicate TableOk(slots: seq<Slot>) { UniqueNames(slots) && PositivePeriods(slots) }

  /** The first active slot with the given name, or the table size. */
  function FindName(slots: seq<Slot>, name: string): (i: nat)
    ensures i <= |slots|
    ensures i < |slots| ==> slots[i].active && slots[i].task.name == name
    ensures forall j :: 0 <= j < i ==> !(slots[j].active && slots[j].task.name == name)
  {
    if slots == [] then 0
    else if slots[0].active && slots[0].task.name == name then 0
    else 1 + FindName(slots[1..], name)
  }

  /** The first inactive slot, or the table size. */
  function FindFree(slots: seq<Slot>): (i: nat)
    ensures i <= |slots|
    ensures i < |slots| ==> !slots[i].active
    ensures forall j :: 0 <= j < i ==> slots[j].active
  {
    if slots == [] then 0
    else if !slots[0].active then 0
    else 1 + FindFree(slots[1..])
  }

  /** The result code of heartbeat_register for a well-formed task. */
  function RegisterCode(slots: seq<Slot>, task: Task): int {
    if task.period == 0 then HB_REGISTER_ERROR
    else if FindName(slots, task.name) < |slots| then HB_REGISTER_DUPLICATE
    else if FindFree(slots) == |slots| then HB_REGISTER_ERROR
    else HB_REGISTER_INSERTED
  }

  function Register(slots: seq<Slot>, task: Task, now: int): (r: seq<Slot>)
    ensures |r| == |slots|
    ensures TableOk(slots) ==> TableOk(r)
  {
    if RegisterCode(slots, task) == HB_REGISTER_INSERTED then
      slots[FindFree(slots) := Slot(task, now + task.initialDelay, ZERO_STATS, true)]
    else slots
  }

  /**
   Registration against the table: it is refused exactly for a zero period, a name in use or a
   full table, and then changes nothing; otherwise one inactive slot becomes the new task, first
   due after its delay and with clean statistics, and every other slot stays.
   */
  lemma RegisterExactly(slots: seq<Slot>, task: Task, now: int)
    ensures var r := Register(slots, task, now);
      var taken := exists i :: 0 <= i < |slots| && slots[i].active && slots[i].task.name == task.name;
      var full := forall i :: 0 <= i < |slots| ==> slots[i].active;
      var code := RegisterCode(slots, task);
      && (code == HB_REGISTER_INSERTED <==> task.period > 0 && !taken && !full)
      && (code == HB_REGISTER_DUPLICATE <==> task.period > 0 && taken)
      && (code != HB_REGISTER_INSERTED ==> r == slots)
      && (code == HB_REGISTER_INSERTED ==>
            exists i :: 0 <= i < |slots| && !slots[i].active && (forall j :: 0 <= j < i ==> slots[j].active)
              && r == slots[i := Slot(task, now + task.initialDelay, ZERO_STATS, true)])
  {
    var n, f := FindName(slots, task.name), FindFree(slots);
    assert n < |slots| ==> slots[n].active;
    if RegisterCode(slots, task) == HB_REGISTER_INSERTED { assert !slots[f].active; }
  }

  /**
   An update changes exactly the named task: its period, delay and context, and its next run,
   which restarts after the delay; its statistics and every other slot stay.
   */
  lemma UpdateExactly(slots: seq<Slot>, name: string, period: nat, delay: nat, ctx: int, now: int, i: nat)
    requires TableOk(slots) && i < |slots|
    ensures var s, r := slots[i], Update(slots, name, period, delay, ctx, now)[i];
      if period > 0 && s.active && s.task.name == name then
        && r.active && r.nextRun == now + delay && r.stats == s.stats
        && r.task == Task(name, period, delay, s.task.callback, ctx)
      else r == s
  {
    if slots[i].active && slots[i].task.name == name {
      var n := FindName(slots, name);
      assert n == i;
    }
  }

  function Update(slots: seq<Slot>, name: string, period: nat, delay: nat, ctx: int, now: int): (r: seq<Slot>)
    ensures |r| == |slots|
    ensures TableOk(slots) ==> TableOk(r)
  {
    var i := FindName(slots, name);
    if period == 0 || i == |slots| then slots
    else
      slots[i := slots[i].(task := slots[i].task.(period := period, initialDelay := delay, ctx := ctx),
                           nextRun := now + delay)]
  }

  function Unregister(slots: seq<Slot>, name: string): (r: seq<Slot>)
    ensures |r| == |slots|
    ensures TableOk(slots) ==> TableOk(r)
    ensures TableOk(slots) ==> FindName(r, name) == |r|
  {
    var i := FindName(slots, name);
    if i == |slots| then slots else slots[i := ZERO_SLOT]
  }

  /** An unregistration clears the slot of the named task and leaves every other slot as it was. */
  lemma UnregisterExactly(slots: seq<Slot>, name: string, i: nat)
    requires TableOk(slots) && i < |slots|
    ensures Unregister(slots, name)[i]
         == if slots[i].active && slots[i].task.name == name then ZERO_SLOT else slots[i]
  {
    if slots[i].active && slots[i].task.name == name { assert FindName(slots, name) == i; }
  }

  // ----- the object ---------------------------------------------------------------------------

  class TaskTable {
    const slots: array<Slot>

    ghost predicate Valid()
      reads this, slots
    {
      TableOk(slots[..])
    }

    constructor (maxTasks: nat)
      ensures Valid() && fresh(slots) && slots.Length == maxTasks
      ensures forall i :: 0 <= i < maxTasks ==> slots[i] == ZERO_SLOT
    {
      slots := new Slot[maxTasks](_ => ZERO_SLOT);
    }

    method IndexOf(name: string) returns (i: nat)
      ensures i == FindName(slots[..], name)
    {
      i := 0;
      while i < slots.Length
        invariant i <= slots.Length
        invariant forall j :: 0 <= j < i ==> !(slots[j].active && slots[j].task.name == name)
      {
        if slots[i].active && slots[i].task.name == name { return; }
        i := i + 1;
      }
    }

    method FirstFree() returns (i: nat)
      ensures i == FindFree(slots[..])
    {
      i := 0;
      while i < slots.Length
        invariant i <= slots.Length
        invariant forall j :: 0 <= j < i ==> slots[j].active
      {
        if !slots[i].active { return; }
        i := i + 1;
      }
    }

    /** heartbeat_register; a missing name or callback is an absent value. */
    method RegisterTask(name: Option<string>, callback: Option<int>, period: nat, delay: nat, ctx: int, now: int)
      returns (code: int)
      requires Valid()
      modifies slots
      ensures Valid()
      ensures name.None? || callback.None? ==> code == HB_REGISTER_ERROR && slots[..] == old(slots[..])
      ensures name.Some? && callback.Some? ==>
        var task := Task(name.value, period, delay, callback.value, ctx);
        && code == RegisterCode(old(slots[..]), task)
        && slots[..] == Register(old(slots[..]), task, now)
    {
      if name.None? || callback.None? || period == 0 { return HB_REGISTER_ERROR; }
      var task := Task(name.value, period, delay, callback.value, ctx);
      var i := IndexOf(name.value);
      if i < slots.Length { return HB_REGISTER_DUPLICATE; }
      i := FirstFree();
      if i == slots.Length { return HB_REGISTER_ERROR; }
      ghost var before := slots[..];
      slots[i] := Slot(task, now + delay, ZERO_STATS, true);
      assert slots[..] == Register(before, task, now);
      return HB_REGISTER_INSERTED;
    }

    method UpdateTask(name: Option<string>, period: nat, delay: nat, ctx: int, now: int) returns (rc: int)
      requires Valid()
      modifies slots
      ensures Valid()
      ensures rc == if name.Some? && period > 0 && FindName(old(slots[..]), name.value) < slots.Length then 0 else -1
      ensures slots[..] == if name.None? then old(slots[..])
                           else Update(old(slots[..]), name.value, period, delay, ctx, now)
    {
      if name.None? || period == 0 { return -1; }
      var i := IndexOf(name.value);
      if i == slots.Length { return -1; }
      ghost var before := slots[..];
      slots[i] := slots[i].(task := slots[i].task.(period := period, initialDelay := delay, ctx := ctx),
                            nextRun := now + delay);
      assert slots[..] == Update(before, name.value, period, delay, ctx, now);
      return 0;
    }

    method UnregisterTask(name: Option<string>) returns (rc: int)
      requires Valid()
      modifies slots
      ensures Valid()
      ensures rc == if name.Some? && FindName(old(slots[..]), name.value) < slots.Length then 0 else -1
      ensures slots[..] == if name.None? then old(slots[..]) else Unregister(old(slots[..]), name.value)
    {
      if name.None? { return -1; }
      var i := IndexOf(name.value);
      if i == slots.Length { return -1; }
      ghost var before := slots[..];
      slots[i] := ZERO_SLOT;
      assert slots[..] == Unregister(before, name.value);
      return 0;
    }

    /** Copy the statistics of a named task. */
    method GetStats(name: Option<string>) returns (stats: Option<Stats>)
      ensures stats.Some? <==> name.Some? && FindName(slots[..], name.value) < slots.Length
      ensures stats.Some? ==> stats.value == slots[FindName(slots[..], name.value)].stats
    {
      if name.None? { return None; }
      var i := IndexOf(name.value);
      if i == slots.Length { return None; }
      return Some(slots[i].stats);
    }

    /**
     hb_collect_due_tasks: every slot is advanced in place, the due tasks are copied to the
     batch and the wake-up time is accumulated from the values before the advance.  The batch
     has room for as many tasks as the table, and none is dropped.
     */
    method CollectDue(now: int) returns (wakeAt: int, batch: seq<Task>)
      modifies slots
      ensures slots[..] == AdvanceAll(old(slots[..]), now)
      ensures wakeAt == WakeAt(old(slots[..]))
      ensures |batch| == |Picked(old(slots[..]), false, now)|
      ensures forall k :: 0 <= k < |batch| ==>
        batch[k] == old(slots[..])[Picked(old(slots[..]), false, now)[k]].task
    {
      hide Picked, WakeAt, Advance;
      wakeAt, batch := 0, [];
      NothingYet(slots[..], false, now);
      ghost var before := slots[..];
      var i := 0;
      while i < slots.Length
        invariant 0 <= i <= slots.Length
        invariant forall j :: 0 <= j < i ==> slots[j] == Advance(before[j], now)
        invariant forall j :: i <= j < slots.Length ==> slots[j] == before[j]
        invariant wakeAt == WakeAt(before[..i])
        invariant |batch| == |Picked(before[..i], false, now)|
        invariant forall k :: 0 <= k < |batch| ==> batch[k] == before[Picked(before[..i], false, now)[k]].task
      {
        PickedStep(before, i, false, now);
        WakeAtStep(before, i);
        AdvanceDue(before[i], now);
        if slots[i].active {
          if wakeAt == 0 || slots[i].nextRun < wakeAt { wakeAt := slots[i].nextRun; }
          if now >= slots[i].nextRun {
            var period, elapsed := slots[i].task.period, now - slots[i].nextRun;
            var missed := 0;
            if period > 0 && elapsed > 0 { missed := elapsed / period; }
            if |batch| < slots.Length { batch := batch + [slots[i].task]; }
            slots[i] := slots[i].(stats := Stats(slots[i].stats.runs + 1, slots[i].stats.overruns + missed, now, 0),
                                  nextRun := slots[i].nextRun + (missed + 1) * period);
          }
        }
        i := i + 1;
      }
      assert before[..i] == before;
      assert slots[..] == AdvanceAll(before, now);
    }

    /** hb_collect_all_active: every active task is copied to the batch and counted once more. */
    method CollectAll(now: int) returns (batch: seq<Task>)
      modifies slots
      ensures slots[..] == RunAllOnce(old(slots[..]), now)
      ensures |batch| == |Picked(old(slots[..]), true, now)|
      ensures forall k :: 0 <= k < |batch| ==>
        batch[k] == old(slots[..])[Picked(old(slots[..]), true, now)[k]].task
    {
      batch := [];
      ghost var before := slots[..];
      var i := 0;
      while i < slots.Length
        invariant 0 <= i <= slots.Length
        invariant forall j :: 0 <= j < i ==> slots[j] == RunOnce(before[j], now)
        invariant forall j :: i <= j < slots.Length ==> slots[j] == before[j]
        invariant |batch| == |Picked(before[..i], true, now)|
        invariant forall k :: 0 <= k < |batch| ==> batch[k] == before[Picked(before[..i], true, now)[k]].task
      {
        assert before[..i + 1][..i] == before[..i];
        if slots[i].active {
          if |batch| < slots.Length { batch := batch + [slots[i].task]; }
          slots[i] := slots[i].(stats := Stats(slots[i].stats.runs + 1, slots[i].stats.overruns, now, 0));
        }
        i := i + 1;
      }
      assert before[..i] == before;
      assert slots[..] == RunAllOnce(before, now);
    }
  }
}
