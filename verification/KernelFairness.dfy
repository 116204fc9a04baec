/**
  Bounded waiting: a READY process gets the CPU within 63 slices of the longest length, counted in
  calls of the scheduler, whatever the other processes do.
 */
module KernelFairness {
  import opened Processes
  import opened SchedulerSafety
  import opened SchedulerTurns
  import Semaphores
  import opened Kernel
  import opened KernelRuns

  /** How many places after c the slot p comes, going round the table. */
  function Distance(c: int, p: int): int {
    (p - c) % MAX_PCS
  }

  /** A bound on the scheduler calls before p runs: whole slices ahead of it, and what is left of this one. */
  function Measure(s: Sched, p: int): int {
    (Distance(s.current, p) - 1) * LONGEST_SLICE +
    if ValidPid(s.table, s.current) then LONGEST_SLICE - s.table[s.current].pcb.timeUsed else 0
  }

  const BOUND := (MAX_PCS - 1) * LONGEST_SLICE

  lemma MeasureBounds(s: Sched, p: int)
    requires AtEntry(s) && s.current >= 0 && ValidPid(s.table, s.current) && 0 <= p < MAX_PCS && p != s.current
    ensures 1 <= Distance(s.current, p) <= MAX_PCS - 1 && 1 <= Measure(s, p) <= BOUND
  {
  }

  /** The round from c stops at a READY slot no further away than any READY slot beyond d places. */
  lemma {:induction false} NearestReady(table: seq<Slot>, c: int, d: int, e: int) returns (n: int)
    requires |table| == MAX_PCS && 0 <= c < MAX_PCS && 1 <= d <= e <= MAX_PCS && Is(table, Around(c, e), READY)
    ensures d <= n <= e && NextReady(table, c, d) == Around(c, n)
    decreases e - d
  {
    if Is(table, Around(c, d), READY) {
      n := d;
    } else {
      n := NearestReady(table, c, d + 1, e);
    }
  }

  /** Dispatching moves the index towards p, or onto it. */
  lemma DispatchApproaches(s: Sched, p: int)
    requires WellFormed(s) && s.current >= 0 && p != s.current && Is(s.table, p, READY)
    ensures var t := Dispatch(s);
      t.current == p || (Is(t.table, p, READY) && 1 <= Distance(t.current, p) < Distance(s.current, p))
  {
    var c, d := s.current, Distance(s.current, p);
    assert Around(c, d) == p;
    var n := NearestReady(s.table, c, 1, d);
    NextReadyIsReady(s.table, c, 1);
    CloserBy(c, n, p);
  }

  lemma CloserBy(c: int, n: int, p: int)
    requires 0 <= c < MAX_PCS && 0 <= p < MAX_PCS && 1 <= n <= Distance(c, p)
    ensures Distance(Around(c, n), p) == Distance(c, p) - n
    ensures n == Distance(c, p) <==> Around(c, n) == p
  {
  }

  /** One call of the scheduler brings p closer to the CPU, or gives it the CPU. */
  lemma ScheduleApproaches(s: Sched, p: int)
    requires AtEntry(s) && s.current >= 0 && ValidPid(s.table, s.current) && p != s.current && Is(s.table, p, READY)
    ensures var t := Schedule(s);
      t.current == p || (Is(t.table, p, READY) && Measure(t, p) < Measure(s, p))
  {
    hide Charge, Dispatch, Distance;
    IdleIsAlive(s);
    if Is(s.table, s.current, RUNNING) {
      var q := s.table[s.current].pcb;
      ChargeOk(q, s.current == s.idle);
      var u := SetPcb(s, s.current, Charge(q));
      SlotChange(s, s.current, Charge(q));
      if Charge(q).state != RUNNING {
        DispatchApproaches(u, p);
        DispatchSafe(u);
        if Dispatch(u).current != p {
          SliceAhead(s, Dispatch(u), p);
        }
      }
    } else {
      DispatchApproaches(s, p);
      DispatchSafe(s);
      if Dispatch(s).current != p {
        SliceAhead(s, Dispatch(s), p);
      }
    }
  }

  /** A whole slice is worth more than anything that can be left of another. */
  lemma SliceAhead(s: Sched, t: Sched, p: int)
    requires AtEntry(s) && ValidPid(s.table, s.current) && AtRest(t) && t.current >= 0
    requires Distance(t.current, p) < Distance(s.current, p)
    ensures Measure(t, p) < Measure(s, p)
  {
    hide Distance;
  }

  /** Whether a step calls the scheduler. */
  ghost predicate Schedules(k: KernelState, e: Event) {
    match e
    case Tick => true
    case YieldCall => true
    case CreateCall(isWait, memory) => isWait && memory && |k.sched.table| == MAX_PCS && FreeSlot(k.sched.table) >= 0
    case BlockCall(pid) => ValidPid(k.sched.table, pid) && k.sched.table[pid].pcb.state != ZOMBIE
    case KillCall(pid) => ValidPid(k.sched.table, pid) && k.sched.table[pid].pcb.state != ZOMBIE
    case WaitCall(name) =>
      var i := Semaphores.Find(k.sems, name);
      i >= 0 && k.sems[i].value <= 0
    case _ => false
  }

  /** p has not been blocked or killed, and is nearer the CPU than `before` by at least one if `called`. */
  ghost predicate Nearer(before: int, t: Sched, p: int, called: bool) {
    t.current == p ||
    (Is(t.table, p, READY) && t.current >= 0 && Measure(t, p) + (if called then 1 else 0) <= before)
  }

  ghost predicate Harms(e: Event, p: int) {
    e == BlockCall(p) || e == KillCall(p)
  }

  lemma YieldApproaches(s: Sched, p: int)
    requires AtEntry(s) && s.current >= 0 && ValidPid(s.table, s.current) && p != s.current && Is(s.table, p, READY)
    ensures Nearer(Measure(s, p), Yield(s), p, true)
  {
    hide Schedule, GetPid, Distance;
    YieldSafe(s);
    var pid := GetPid(s.table);
    if pid >= 0 {
      assert Is(s.table, pid, RUNNING);
      var q := s.table[pid].pcb.(yielding := true);
      SlotChange(s, pid, q);
      ScheduleApproaches(SetPcb(s, pid, q), p);
    } else {
      ScheduleApproaches(s, p);
    }
  }

  lemma BlockApproaches(s: Sched, pid: int, p: int)
    requires AtRest(s) && s.current >= 0 && p != s.current && Is(s.table, p, READY) && pid != p
    ensures var called := ValidPid(s.table, pid) && s.table[pid].pcb.state != ZOMBIE;
      Nearer(Measure(s, p), Block(s, pid).0, p, called)
  {
    hide Yield, Distance;
    if ValidPid(s.table, pid) && s.table[pid].pcb.state != ZOMBIE {
      var q := s.table[pid].pcb.(state := BLOCKED, blocks := s.table[pid].pcb.blocks + 1);
      SlotChange(s, pid, q);
      YieldApproaches(SetPcb(s, pid, q), p);
    }
  }

  lemma KillApproaches(s: Sched, pid: int, p: int)
    requires AtRest(s) && s.current >= 0 && p != s.current && Is(s.table, p, READY) && pid != p && pid != s.idle
    ensures var called := ValidPid(s.table, pid) && s.table[pid].pcb.state != ZOMBIE;
      Nearer(Measure(s, p), Kill(s, pid).0, p, called)
  {
    hide Schedule, Distance;
    if ValidPid(s.table, pid) && s.table[pid].pcb.state != ZOMBIE {
      var z := s.table[pid].pcb.(state := ZOMBIE, yielding := true);
      var t := SetPcb(s, pid, z).(active := s.active - 1);
      AliveUpdate(s.table, pid, Proc(z));
      OneRunning(s, t.table, pid);
      ScheduleApproaches(t, p);
      ScheduleSafe(t);
    }
  }

  lemma CreateApproaches(s: Sched, isWait: bool, memory: bool, p: int)
    requires AtRest(s) && s.current >= 0 && p != s.current && Is(s.table, p, READY)
    ensures Nearer(Measure(s, p), Create(s, false, isWait, memory).0, p, isWait && memory && FreeSlot(s.table) >= 0)
  {
    hide Yield, Distance;
    CreateSafe(s, false, memory);
    var t := Create(s, false, false, memory).0;
    assert Is(t.table, p, READY) && Measure(t, p) == Measure(s, p);
    if isWait && memory && FreeSlot(s.table) >= 0 {
      YieldApproaches(t, p);
    }
  }

  lemma OthersKeep(s: Sched, pid: int, prio: int, p: int)
    requires AtRest(s) && s.current >= 0 && p != s.current && Is(s.table, p, READY) && pid != s.idle
    ensures Nearer(Measure(s, p), Unblock(s, pid).0, p, false)
    ensures Nearer(Measure(s, p), BeNice(s, pid, prio).0, p, false)
  {
    hide Distance;
  }

  lemma NiceKeeps(s: Sched, pid: int, prio: int, p: int)
    requires AtRest(s) && s.current >= 0 && p != s.current && Is(s.table, p, READY)
    ensures Nearer(Measure(s, p), BeNice(s, pid, prio).0, p, false)
  {
    hide Distance;
  }

  /** Every step that does not block or kill p brings it nearer if it schedules, and no further if not. */
  lemma StepApproaches(k: KernelState, e: Event, p: int)
    requires Base(k) && Admitted(k, e) && k.sched.current >= 0
    requires p != k.sched.current && Is(k.sched.table, p, READY) && !Harms(e, p)
    ensures Nearer(Measure(k.sched, p), Apply(k, e).sched, p, Schedules(k, e))
  {
    hide Schedule, Yield, Block, Unblock, Kill, BeNice, Create, Semaphores.Find, GetPid, AtEntry, Measure, NoIdle, Is;
    RunningIs(k.sched);
    match e
    case Tick =>
      ScheduleApproaches(k.sched, p);
      ScheduleSafe(k.sched);
    case YieldCall => YieldApproaches(k.sched, p);
    case CreateCall(isWait, memory) => CreateApproaches(k.sched, isWait, memory, p);
    case BlockCall(pid) => BlockApproaches(k.sched, pid, p);
    case UnblockCall(pid) => OthersKeep(k.sched, pid, 0, p);
    case KillCall(pid) => KillApproaches(k.sched, pid, p);
    case NiceCall(pid, prio) => NiceKeeps(k.sched, pid, prio, p);
    case OpenCall(_, _) =>
    case WaitCall(name) =>
      RunningNotWaiting(k);
      BlockApproaches(k.sched, k.sched.current, p);
    case PostCall(name) => PostKeeps(k, name, p);
    case CloseCall(_) =>
  }

  lemma RunningIs(s: Sched)
    requires AtRest(s) && s.current >= 0
    ensures ValidPid(s.table, s.current) && s.table[s.current].pcb.state == RUNNING
  {
  }

  lemma PostKeeps(k: KernelState, name: string, p: int)
    requires Base(k) && k.sched.current >= 0 && p != k.sched.current && Is(k.sched.table, p, READY)
    ensures Nearer(Measure(k.sched, p), SemPost(k, name).0.sched, p, false)
  {
    hide Unblock, BeNice, AtRest, Measure, Is, Semaphores.Find;
    var woken := PostWakes(k, name);
    if woken != -1 {
      var i := Semaphores.Find(k.sems, name);
      assert woken == k.sems[i].queue[0];
      OthersKeep(k.sched, woken, 0, p);
    }
  }

  /** Calls of the scheduler during a run. */
  ghost function SchedulerCalls(k: KernelState, es: seq<Event>): nat
    requires Base(k) && Legal(k, es)
    decreases |es|
  {
    if es == [] then 0 else
      StepKeepsBase(k, es[0]);
      (if Schedules(k, es[0]) then 1 else 0) + SchedulerCalls(Apply(k, es[0]), es[1..])
  }

  lemma PrefixLegal(k: KernelState, es: seq<Event>, n: nat)
    requires Base(k) && Legal(k, es) && n <= |es|
    ensures Legal(k, es[..n])
    decreases |es|
  {
    if n > 0 {
      StepKeepsBase(k, es[0]);
      PrefixLegal(Apply(k, es[0]), es[1..], n - 1);
      assert es[..n][1..] == es[1..][..n - 1];
    }
  }

  // ---- What happens to a waiting process's record ----

  /** p's record is as it was, but that p may have been given the CPU. */
  ghost predicate Untouched(s: Sched, t: Sched, p: int) {
    && ValidPid(s.table, p) && ValidPid(t.table, p)
    && t.table[p] == (if t.current == p then Proc(s.table[p].pcb.(state := RUNNING)) else s.table[p])
  }

  lemma ScheduleTouches(s: Sched, p: int)
    requires AtEntry(s) && s.current >= 0 && p != s.current && Is(s.table, p, READY)
    ensures Untouched(s, Schedule(s), p)
  {
    hide NextReady, Charge;
    IdleIsAlive(s);
    NextReadyIsReady(s.table, s.current, 1);
    if Is(s.table, s.current, RUNNING) {
      var t := SetPcb(s, s.current, Charge(s.table[s.current].pcb));
      NextReadyIsReady(t.table, t.current, 1);
    }
  }

  lemma YieldTouches(s: Sched, p: int)
    requires AtEntry(s) && s.current >= 0 && p != s.current && Is(s.table, p, READY)
    ensures Untouched(s, Yield(s), p)
  {
    hide Schedule, GetPid;
    var pid := GetPid(s.table);
    if pid >= 0 {
      assert Is(s.table, pid, RUNNING);
      var q := s.table[pid].pcb.(yielding := true);
      SlotChange(s, pid, q);
      ScheduleTouches(SetPcb(s, pid, q), p);
    } else {
      ScheduleTouches(s, p);
    }
  }

  lemma BlockTouches(s: Sched, pid: int, p: int)
    requires AtRest(s) && s.current >= 0 && p != s.current && Is(s.table, p, READY) && pid != p
    ensures Untouched(s, Block(s, pid).0, p)
  {
    hide Yield;
    if ValidPid(s.table, pid) && s.table[pid].pcb.state != ZOMBIE {
      var q := s.table[pid].pcb.(state := BLOCKED, blocks := s.table[pid].pcb.blocks + 1);
      SlotChange(s, pid, q);
      YieldTouches(SetPcb(s, pid, q), p);
    }
  }

  lemma KillTouches(s: Sched, pid: int, p: int)
    requires AtRest(s) && s.current >= 0 && p != s.current && Is(s.table, p, READY) && pid != p && pid != s.idle
    ensures Untouched(s, Kill(s, pid).0, p)
  {
    hide Schedule;
    if ValidPid(s.table, pid) && s.table[pid].pcb.state != ZOMBIE {
      var z := s.table[pid].pcb.(state := ZOMBIE, yielding := true);
      var t := SetPcb(s, pid, z).(active := s.active - 1);
      AliveUpdate(s.table, pid, Proc(z));
      OneRunning(s, t.table, pid);
      ScheduleTouches(t, p);
    }
  }

  lemma CreateTouches(s: Sched, isWait: bool, memory: bool, p: int)
    requires AtRest(s) && s.current >= 0 && p != s.current && Is(s.table, p, READY)
    ensures Untouched(s, Create(s, false, isWait, memory).0, p)
  {
    hide Yield;
    CreateSafe(s, false, memory);
    var t := Create(s, false, false, memory).0;
    assert t.table[p] == s.table[p];
    if isWait && memory && FreeSlot(s.table) >= 0 {
      YieldTouches(t, p);
    }
  }

  lemma PostTouches(k: KernelState, name: string, p: int)
    requires Base(k) && p != k.sched.current && Is(k.sched.table, p, READY)
    ensures Untouched(k.sched, SemPost(k, name).0.sched, p)
  {
    hide AtRest, Semaphores.Find, Semaphores.Up;
  }

  /** A step that does not block, kill or reprioritise a READY process changes its record only by dispatching it. */
  lemma StepTouches(k: KernelState, e: Event, p: int)
    requires Base(k) && Admitted(k, e) && k.sched.current >= 0
    requires p != k.sched.current && Is(k.sched.table, p, READY) && !Harms(e, p) && !Reranks(e, p)
    ensures Untouched(k.sched, Apply(k, e).sched, p)
  {
    hide Schedule, Yield, Block, Kill, Create, Semaphores.Find, GetPid, AtEntry, NoIdle;
    match e
    case Tick => ScheduleTouches(k.sched, p);
    case YieldCall => YieldTouches(k.sched, p);
    case CreateCall(isWait, memory) => CreateTouches(k.sched, isWait, memory, p);
    case BlockCall(pid) => BlockTouches(k.sched, pid, p);
    case KillCall(pid) => KillTouches(k.sched, pid, p);
    case WaitCall(name) =>
      RunningNotWaiting(k);
      BlockTouches(k.sched, k.sched.current, p);
    case PostCall(name) => PostTouches(k, name, p);
    case _ =>
  }

  ghost predicate Reranks(e: Event, p: int) {
    e.NiceCall? && e.pid == p
  }

  /**
    Bounded waiting: in a run with 63 * 1250 scheduler calls or more, a process that is READY at the
    start and that nobody blocks or kills is running at some point n of it, within that many calls. If
    nobody changes its priority either, it starts there with the very record it waited with.
   */
  lemma {:induction false} BoundedWaiting(k: KernelState, es: seq<Event>, p: int) returns (n: nat)
    requires Base(k) && Legal(k, es) && k.sched.current >= 0
    requires Is(k.sched.table, p, READY) && forall e | e in es :: !Harms(e, p)
    requires SchedulerCalls(k, es) >= Measure(k.sched, p)
    ensures Measure(k.sched, p) <= BOUND == 63 * 1250
    ensures n <= |es| && Legal(k, es[..n]) && Run(k, es[..n]).sched.current == p
    ensures SchedulerCalls(k, es[..n]) <= Measure(k.sched, p)
    ensures (forall e | e in es :: !Reranks(e, p)) ==> Untouched(k.sched, Run(k, es[..n]).sched, p)
    decreases |es|
  {
    hide Apply, Admitted, NoIdle, Measure, Distance, AtEntry, Schedules, Harms, Reranks;
    BaseWellFormed(k);
    NotCurrent(k.sched, p);
    if es == [] {
      assert false;
    } else {
      var e, next := es[0], Apply(k, es[0]);
      StepKeepsBase(k, e);
      StepApproaches(k, e, p);
      if !Reranks(e, p) {
        StepTouches(k, e, p);
      }
      if next.sched.current == p {
        n := 1;
        assert es[..1][1..] == [] && es[..1][0] == e;
      } else {
        var m := BoundedWaiting(next, es[1..], p);
        n := m + 1;
        assert es[..n][1..] == es[1..][..m] && es[..n][0] == e;
      }
    }
  }

  lemma NotCurrent(s: Sched, p: int)
    requires AtRest(s) && s.current >= 0 && Is(s.table, p, READY)
    ensures p != s.current && 1 <= Measure(s, p) <= BOUND
  {
    MeasureBounds(s, p);
  }

  /**
    A process just created by create_process, unless somebody blocks, kills or reprioritises it, is
    running within the same bound, whatever its creator and the others do; and left alone from there it
    keeps the CPU for exactly two ticks, losing it then iff anyone else is READY.
   */
  lemma CreatedRuns(k: KernelState, memory: bool, es: seq<Event>) returns (n: nat)
    requires Base(k) && k.sched.current >= 0 && WellFormed(k.sched)
    requires var e, pid := CreateCall(false, memory), Create(k.sched, false, false, memory).1;
      (StepKeepsBase(k, e);
       pid >= 0 && Legal(Apply(k, e), es) && (forall h | h in es :: !Harms(h, pid) && !Reranks(h, pid)) &&
       SchedulerCalls(Apply(k, e), es) >= BOUND)
    ensures var e, pid := CreateCall(false, memory), Create(k.sched, false, false, memory).1;
      (StepKeepsBase(k, e);
       n <= |es| && Legal(Apply(k, e), es[..n]) && Run(Apply(k, e), es[..n]).sched.current == pid &&
       SchedulerCalls(Apply(k, e), es[..n]) <= BOUND)
    ensures var e, pid := CreateCall(false, memory), Create(k.sched, false, false, memory).1;
      (StepKeepsBase(k, e);
       var s := Run(Apply(k, e), es[..n]).sched;
       WellFormed(s) && Ticks(s, 1).current == pid &&
       (Ticks(s, 2).current != pid <==> exists q :: Is(s.table, q, READY)))
  {
    var pid := Create(k.sched, false, false, memory).1;
    StepKeepsBase(k, CreateCall(false, memory));
    var made := Apply(k, CreateCall(false, memory));
    BaseAtRest(k);
    CreateEffect(k.sched, memory);
    BaseAtRest(made);
    NotCurrent(made.sched, pid);
    hide Create, Legal, Run, SchedulerCalls, Base, AtRest, Measure, Harms, Reranks;
    n := BoundedWaiting(made, es, pid);
    var k' := Run(made, es[..n]);
    BaseAtRest(k');
    WellFormedAtRest(k'.sched);
    hide Ticks, Alive;
    WholeSlice(k'.sched, 1);
  }

  lemma WellFormedAtRest(s: Sched)
    requires AtRest(s)
    ensures WellFormed(s)
  {
  }

  /**
    A process that yields before its slice runs out and loses the CPU, unless somebody blocks, kills or
    reprioritises it, is running again within the bound, with its whole slice before it.
   */
  lemma YieldedRuns(k: KernelState, es: seq<Event>) returns (n: nat)
    requires Base(k) && k.sched.current >= 0 && k.sched.current != k.sched.idle
    requires var p := k.sched.table[k.sched.current].pcb; p.timeUsed + 1 < p.maxTime
    requires WellFormed(k.sched) && Yield(k.sched).current != k.sched.current
    requires var c := k.sched.current;
      (StepKeepsBase(k, YieldCall);
       Legal(Apply(k, YieldCall), es) && (forall h | h in es :: !Harms(h, c) && !Reranks(h, c)) &&
       SchedulerCalls(Apply(k, YieldCall), es) >= BOUND)
    ensures var c := k.sched.current;
      (StepKeepsBase(k, YieldCall);
       n <= |es| && Legal(Apply(k, YieldCall), es[..n]) && SchedulerCalls(Apply(k, YieldCall), es[..n]) <= BOUND &&
       var s := Run(Apply(k, YieldCall), es[..n]).sched;
       s.current == c && ValidPid(s.table, c) && TicksLeft(s.table[c].pcb) == k.sched.table[c].pcb.maxTime)
  {
    var c := k.sched.current;
    StepKeepsBase(k, YieldCall);
    var made := Apply(k, YieldCall);
    BaseAtRest(k);
    YieldRecord(k.sched);
    BaseAtRest(made);
    YieldSafe(k.sched);
    NotCurrent(made.sched, c);
    hide Yield, Legal, Run, SchedulerCalls, Base, AtRest, AtEntry, Measure, Harms, Reranks;
    n := BoundedWaiting(made, es, c);
  }

  lemma BaseAtRest(k: KernelState)
    requires Base(k)
    ensures AtRest(k.sched)
  {
  }

  /**
    A process that a post wakes with its last block, unless somebody blocks or kills it, is running within
    the bound: a wake-up is not lost.
   */
  lemma WokenRuns(k: KernelState, name: string, es: seq<Event>) returns (n: nat)
    requires Inv(k) && k.sched.current >= 0
    requires var i := Semaphores.Find(k.sems, name); i >= 0 && k.sems[i].queue != []
    requires var p := k.sems[Semaphores.Find(k.sems, name)].queue[0];
      ValidPid(k.sched.table, p) && k.sched.table[p].pcb.blocks == 1 && forall h | h in es :: !Harms(h, p)
    requires Base(k) && WellFormed(k.sched) && Base(Apply(k, PostCall(name)))
    requires Legal(Apply(k, PostCall(name)), es) && SchedulerCalls(Apply(k, PostCall(name)), es) >= BOUND
    ensures n <= |es| && Legal(Apply(k, PostCall(name)), es[..n]) && SchedulerCalls(Apply(k, PostCall(name)), es[..n]) <= BOUND
    ensures Run(Apply(k, PostCall(name)), es[..n]).sched.current == k.sems[Semaphores.Find(k.sems, name)].queue[0]
  {
    var p, made := k.sems[Semaphores.Find(k.sems, name)].queue[0], Apply(k, PostCall(name));
    PostEffect(k, name);
    assert Is(made.sched.table, p, READY) && made.sched.current >= 0;
    BaseAtRest(made);
    NotCurrent(made.sched, p);
    hide Apply, Legal, Run, SchedulerCalls, Base, Inv, AtRest, AtEntry, Measure, Harms, Reranks;
    n := BoundedWaiting(made, es, p);
  }
}
