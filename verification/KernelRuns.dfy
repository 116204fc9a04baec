/**
  Runs of the kernel, as sequences of timer ticks, keyboard interrupts and system calls: safety of the
  process table and accounting of the semaphores on all the runs that Admitted describes, and the state
  and order of the waiters on those where nobody kills or wakes a waiter from outside.
 */
module KernelRuns {
  import opened Processes
  import opened SchedulerSafety
  import SchedulerTurns
  import Semaphores
  import opened Kernel

  const SHELL_PID := 1

  datatype Event =
    | Tick
    | YieldCall
    | CreateCall(isWait: bool, memory: bool)
    | BlockCall(pid: int)
    | UnblockCall(pid: int)
    | KillCall(pid: int)
    | NiceCall(pid: int, prio: int)
    | OpenCall(name: string, value: nat)
    | WaitCall(name: string)
    | PostCall(name: string)
    | CloseCall(name: string)

  function Apply(k: KernelState, e: Event): (r: KernelState)
    requires WellFormed(k.sched)
  {
    match e
    case Tick => k.(sched := Schedule(k.sched))
    case YieldCall => k.(sched := Yield(k.sched))
    case CreateCall(isWait, memory) => k.(sched := Create(k.sched, false, isWait, memory).0)
    case BlockCall(pid) => k.(sched := Block(k.sched, pid).0)
    case UnblockCall(pid) => k.(sched := Unblock(k.sched, pid).0)
    case KillCall(pid) => k.(sched := Kill(k.sched, pid).0)
    case NiceCall(pid, prio) => k.(sched := BeNice(k.sched, pid, prio).0)
    case OpenCall(name, value) => k.(sems := Semaphores.Open(k.sems, name, value).0)
    case WaitCall(name) => SemWait(k, name).0
    case PostCall(name) => SemPost(k, name).0
    case CloseCall(name) => k.(sems := Semaphores.Close(k.sems, name).0)
  }

  ghost predicate Queued(sems: seq<Semaphores.Sem>, pid: int) {
    exists i :: 0 <= i < |sems| && sems[i].open && pid in sems[i].queue
  }

  /**
    The steps the kernel can take. System calls are those of the running process; idle makes none but
    the creation of the shell. The keyboard interrupt may come whoever is running, and even before the
    first tick: it posts, and it kills the foreground process, which closes that process's pipes and
    wakes its parent. Left out are killing idle or the shell, waking idle, and an eleventh waiter.
   */
  ghost predicate Admitted(k: KernelState, e: Event) {
    var running := k.sched.current >= 0;
    var user := running && k.sched.current != k.sched.idle;
    match e
    case Tick => true
    case PostCall(_) => true
    case CreateCall(_, _) => running
    case CloseCall(_) => running
    case UnblockCall(pid) => running && pid != k.sched.idle
    case KillCall(pid) => running && pid != k.sched.idle && pid != SHELL_PID
    case WaitCall(name) =>
      var i := Semaphores.Find(k.sems, name);
      running && (i >= 0 && k.sems[i].value <= 0 ==> user && |k.sems[i].queue| < Semaphores.PROCESSES_BLOCKED)
    case _ => user
  }

  /** The steps that leave waiters to the posts that wake them, and give semaphores values that fit an int. */
  ghost predicate Enabled(k: KernelState, e: Event) {
    Admitted(k, e) &&
    match e
    case UnblockCall(pid) => Queued(k.sems, pid) && ValidPid(k.sched.table, pid) ==> k.sched.table[pid].pcb.blocks > 1
    case KillCall(pid) => !Queued(k.sems, pid)
    case OpenCall(_, value) => value < 0x8000_0000
    case _ => true
  }

  // ---- The invariant ----

  /** Waiters are counted by the value. */
  ghost predicate CountOk(s: Semaphores.Sem) {
    |s.queue| == if s.value < 0 then -s.value else 0
  }

  ghost predicate Waiter(s: Sched, pid: int) {
    pid != s.idle && Is(s.table, pid, BLOCKED)
  }

  ghost predicate Distinct(sems: seq<Semaphores.Sem>) {
    forall i, a, j, b {:trigger sems[i].queue[a], sems[j].queue[b]}
      | 0 <= i < |sems| && 0 <= j < |sems| && sems[i].open && sems[j].open &&
        0 <= a < |sems[i].queue| && 0 <= b < |sems[j].queue| && sems[i].queue[a] == sems[j].queue[b] ::
        i == j && a == b
  }

  /** Every process on a semaphore's queue is BLOCKED, and is on one queue, once. */
  ghost predicate QueuesOk(s: Sched, sems: seq<Semaphores.Sem>) {
    && Distinct(sems)
    && (forall i | 0 <= i < |sems| && sems[i].open :: CountOk(sems[i]))
    && (forall i, a {:trigger sems[i].queue[a]} | 0 <= i < |sems| && sems[i].open && 0 <= a < |sems[i].queue| ::
          Waiter(s, sems[i].queue[a]))
  }

  /** Idle, which never waits, is on no queue. */
  ghost predicate NoIdle(idle: int, sems: seq<Semaphores.Sem>) {
    forall i, a {:trigger sems[i].queue[a]} | 0 <= i < |sems| && sems[i].open && 0 <= a < |sems[i].queue| ::
      sems[i].queue[a] != idle
  }

  /** What every admitted step keeps. */
  ghost predicate Base(k: KernelState) {
    AtRest(k.sched) && NoIdle(k.sched.idle, k.sems)
  }

  /** What every enabled step keeps as well. */
  ghost predicate Inv(k: KernelState) {
    AtRest(k.sched) && QueuesOk(k.sched, k.sems)
  }

  lemma InvBase(k: KernelState)
    requires Inv(k)
    ensures Base(k) && WellFormed(k.sched)
  {
    forall i, a | 0 <= i < |k.sems| && k.sems[i].open && 0 <= a < |k.sems[i].queue|
      ensures k.sems[i].queue[a] != k.sched.idle
    {
      assert Waiter(k.sched, k.sems[i].queue[a]);
    }
  }

  lemma BaseWellFormed(k: KernelState)
    requires Base(k)
    ensures WellFormed(k.sched)
  {
  }

  lemma RunningNotWaiting(k: KernelState)
    requires AtRest(k.sched) && k.sched.current >= 0
    ensures GetPid(k.sched.table) == k.sched.current && !Waiter(k.sched, k.sched.current)
  {
    OnlyRunning(k.sched);
  }

  lemma SchedSafe(k: KernelState, e: Event)
    requires Base(k) && Admitted(k, e)
    ensures AtRest(Apply(k, e).sched) && Apply(k, e).sched.idle == k.sched.idle
    ensures Apply(k, e).sched.current >= 0 <==> k.sched.current >= 0 || e == Tick
  {
    hide Schedule, Yield, Block, Unblock, Kill, BeNice, Create, AtEntry, Semaphores.Find, GetPid, NoIdle;
    match e
    case Tick => ScheduleSafe(k.sched);
    case YieldCall => YieldSafe(k.sched);
    case CreateCall(isWait, memory) => CreateSafe(k.sched, isWait, memory);
    case BlockCall(pid) => BlockSafe(k.sched, pid);
    case UnblockCall(pid) => UnblockSafe(k.sched, pid);
    case KillCall(pid) => KillSafe(k.sched, pid);
    case NiceCall(pid, prio) => NiceSafe(k.sched, pid, prio);
    case OpenCall(_, _) =>
    case WaitCall(name) => BlockSafe(k.sched, GetPid(k.sched.table));
    case PostCall(name) => PostSchedSafe(k, name);
    case CloseCall(_) =>
  }

  lemma PostSchedSafe(k: KernelState, name: string)
    requires Base(k)
    ensures AtRest(SemPost(k, name).0.sched)
    ensures SemPost(k, name).0.sched.current == k.sched.current && SemPost(k, name).0.sched.idle == k.sched.idle
  {
    hide AtEntry, Semaphores.Find, Is;
    var i := Semaphores.Find(k.sems, name);
    if i >= 0 {
      var (_, woken) := Semaphores.Up(k.sems[i]);
      if woken != -1 {
        assert woken == k.sems[i].queue[0];
        UnblockSafe(k.sched, woken);
      }
    }
  }

  /** Idle joins no queue: only the running process waits, and it blocks only when it is not idle. */
  lemma StepKeepsNoIdle(k: KernelState, e: Event)
    requires Base(k) && Admitted(k, e)
    ensures NoIdle(k.sched.idle, Apply(k, e).sems) && |Apply(k, e).sems| == |k.sems|
  {
    hide Schedule, Yield, Block, Unblock, Kill, BeNice, Create, AtEntry, Semaphores.Find, Semaphores.FindClosed, GetPid;
    match e
    case WaitCall(name) =>
      RunningNotWaiting(k);
    case _ =>
  }

  /** Every admitted step keeps the invariant of the process table. */
  lemma StepKeepsBase(k: KernelState, e: Event)
    requires Base(k) && Admitted(k, e)
    ensures Base(Apply(k, e)) && |Apply(k, e).sems| == |k.sems|
  {
    SchedSafe(k, e);
    StepKeepsNoIdle(k, e);
    hide Apply, AtRest, NoIdle;
  }

  // ---- Waiters stay BLOCKED until a post takes them off the queue ----

  lemma BlockKeeps(s: Sched, pid: int, p: int)
    requires AtRest(s) && s.current >= 0 && Waiter(s, p)
    ensures Waiter(Block(s, pid).0, p)
  {
    hide Yield, GetPid;
    if ValidPid(s.table, pid) && s.table[pid].pcb.state != ZOMBIE {
      var q := s.table[pid].pcb.(state := BLOCKED, blocks := s.table[pid].pcb.blocks + 1);
      SlotChange(s, pid, q);
      YieldKeepsBlocked(SetPcb(s, pid, q), p);
    }
  }

  /** block_process on a process that can run leaves it BLOCKED. */
  lemma BlockBlocks(s: Sched, pid: int)
    requires AtRest(s) && s.current >= 0 && pid != s.idle && (Is(s.table, pid, RUNNING) || Is(s.table, pid, READY))
    ensures Waiter(Block(s, pid).0, pid)
  {
    hide Yield, GetPid;
    var q := s.table[pid].pcb.(state := BLOCKED, blocks := s.table[pid].pcb.blocks + 1);
    SlotChange(s, pid, q);
    YieldKeepsBlocked(SetPcb(s, pid, q), pid);
  }

  lemma CreateKeeps(s: Sched, isWait: bool, memory: bool, p: int)
    requires AtRest(s) && s.current >= 0 && Waiter(s, p)
    ensures Waiter(Create(s, false, isWait, memory).0, p)
  {
    hide Yield, GetPid;
    CreateSafe(s, false, memory);
    var t := Create(s, false, false, memory).0;
    assert Waiter(t, p);
    if isWait && memory && FreeSlot(s.table) >= 0 {
      YieldKeepsBlocked(t, p);
    }
  }

  lemma KillKeeps(s: Sched, pid: int, p: int)
    requires AtRest(s) && s.current >= 0 && Waiter(s, p) && pid != p && pid != s.idle
    ensures Waiter(Kill(s, pid).0, p)
  {
    hide Schedule;
    if ValidPid(s.table, pid) && s.table[pid].pcb.state != ZOMBIE {
      var z := s.table[pid].pcb.(state := ZOMBIE, yielding := true);
      var t := SetPcb(s, pid, z).(active := s.active - 1);
      AliveUpdate(s.table, pid, Proc(z));
      OneRunning(s, t.table, pid);
      ScheduleKeepsBlocked(t, p);
    }
  }

  lemma NiceKeeps(s: Sched, pid: int, prio: int, p: int)
    requires AtRest(s) && Waiter(s, p)
    ensures Waiter(BeNice(s, pid, prio).0, p)
  {
  }

  lemma UnblockKeeps(s: Sched, pid: int, p: int)
    requires AtRest(s) && Waiter(s, p)
    requires pid != p || s.table[p].pcb.blocks > 1
    ensures Waiter(Unblock(s, pid).0, p)
  {
  }

  /** A process that sits on some queue and is not the one a post is about to wake stays BLOCKED. */
  lemma WaiterStays(k: KernelState, e: Event, p: int)
    requires Inv(k) && Enabled(k, e) && Queued(k.sems, p) && Waiter(k.sched, p)
    requires e.PostCall? ==> PostWakes(k, e.name) != p
    ensures Waiter(Apply(k, e).sched, p)
  {
    hide Schedule, Yield, Block, Unblock, Kill, BeNice, Create, AtEntry, Semaphores.Find, GetPid, QueuesOk, Waiter;
    match e
    case Tick => ScheduleKeeps(k.sched, p);
    case YieldCall => YieldKeeps(k.sched, p);
    case CreateCall(isWait, memory) => CreateKeeps(k.sched, isWait, memory, p);
    case BlockCall(pid) => BlockKeeps(k.sched, pid, p);
    case UnblockCall(pid) => WaiterValid(k.sched, p); UnblockKeeps(k.sched, pid, p);
    case KillCall(pid) => KillKeeps(k.sched, pid, p);
    case NiceCall(pid, prio) => NiceKeeps(k.sched, pid, prio, p);
    case OpenCall(_, _) =>
    case WaitCall(name) => BlockKeeps(k.sched, GetPid(k.sched.table), p);
    case PostCall(name) => UnblockKeepsOther(k.sched, PostWakes(k, name), p);
    case CloseCall(_) =>
  }

  /** The process a post on this name takes off the queue, or -1. */
  ghost function PostWakes(k: KernelState, name: string): int {
    var i := Semaphores.Find(k.sems, name);
    if i < 0 then -1 else Semaphores.Up(k.sems[i]).1
  }

  lemma WaiterValid(s: Sched, p: int)
    requires Waiter(s, p)
    ensures ValidPid(s.table, p)
  {
  }

  lemma UnblockKeepsOther(s: Sched, pid: int, p: int)
    requires AtRest(s) && Waiter(s, p) && pid != p
    ensures Waiter(Unblock(s, pid).0, p)
  {
  }

  lemma ScheduleKeeps(s: Sched, p: int)
    requires AtRest(s) && Waiter(s, p)
    ensures Waiter(Schedule(s), p)
  {
    hide Schedule;
    ScheduleKeepsBlocked(s, p);
  }

  lemma YieldKeeps(s: Sched, p: int)
    requires AtRest(s) && Waiter(s, p)
    ensures Waiter(Yield(s), p)
  {
    hide Yield;
    YieldKeepsBlocked(s, p);
  }

  // ---- The queues ----

  /** Whatever keeps every waiter BLOCKED and does not touch the semaphores keeps the queues in order. */
  lemma SameSems(k: KernelState, e: Event)
    requires Inv(k) && Enabled(k, e) && Apply(k, e).sems == k.sems && !e.PostCall?
    ensures QueuesOk(Apply(k, e).sched, Apply(k, e).sems)
  {
    hide Apply, Enabled, Waiter, CountOk;
    forall i, a | 0 <= i < |k.sems| && k.sems[i].open && 0 <= a < |k.sems[i].queue|
      ensures Waiter(Apply(k, e).sched, k.sems[i].queue[a])
    {
      assert Queued(k.sems, k.sems[i].queue[a]);
      WaiterStays(k, e, k.sems[i].queue[a]);
    }
  }

  lemma OpenQueues(k: KernelState, name: string, value: nat)
    requires Inv(k) && value < 0x8000_0000
    ensures QueuesOk(k.sched, Semaphores.Open(k.sems, name, value).0)
  {
    hide Semaphores.Find, Semaphores.FindClosed, AtRest, Waiter;
  }

  lemma CloseQueues(k: KernelState, name: string)
    requires Inv(k)
    ensures QueuesOk(k.sched, Semaphores.Close(k.sems, name).0)
  {
    hide Semaphores.Find, AtRest, Waiter;
  }

  lemma WaitQueues(k: KernelState, name: string)
    requires Inv(k) && Enabled(k, WaitCall(name))
    ensures var r := Apply(k, WaitCall(name)); QueuesOk(r.sched, r.sems)
  {
    hide Block, Semaphores.Find, AtEntry, Waiter, GetPid;
    InvBase(k);
    var i := Semaphores.Find(k.sems, name);
    if i < 0 {
      SameSems(k, WaitCall(name));
      return;
    }
    RunningNotWaiting(k);
    var pid := k.sched.current;
    var (s, blocks) := Semaphores.Down(k.sems[i], pid);
    var after := k.sems[i := s];
    var r := Apply(k, WaitCall(name));
    assert r.sems == after;
    if blocks {
      BlockBlocks(k.sched, pid);
      NewWaiter(k.sched, k.sems, i, pid);
    } else {
      assert s.queue == k.sems[i].queue && s.open == k.sems[i].open;
      SameQueues(k.sems, after);
    }
    forall j, a | 0 <= j < |after| && after[j].open && 0 <= a < |after[j].queue|
      ensures Waiter(r.sched, after[j].queue[a])
    {
      if j != i || a < |k.sems[i].queue| {
        assert after[j].queue[a] == k.sems[j].queue[a];
        assert Queued(k.sems, k.sems[j].queue[a]);
        WaiterStays(k, WaitCall(name), k.sems[j].queue[a]);
      }
    }
  }

  lemma SameQueues(sems: seq<Semaphores.Sem>, after: seq<Semaphores.Sem>)
    requires Distinct(sems) && |after| == |sems|
    requires forall i :: 0 <= i < |sems| ==> after[i].queue == sems[i].queue && after[i].open == sems[i].open
    ensures Distinct(after)
  {
    forall i, a, j, b | 0 <= i < |after| && 0 <= j < |after| && after[i].open && after[j].open &&
      0 <= a < |after[i].queue| && 0 <= b < |after[j].queue| && after[i].queue[a] == after[j].queue[b]
      ensures i == j && a == b
    {
      assert sems[i].queue[a] == sems[j].queue[b];
    }
  }

  lemma NewWaiter(s: Sched, sems: seq<Semaphores.Sem>, i: int, pid: int)
    requires QueuesOk(s, sems) && 0 <= i < |sems| && sems[i].open && !Waiter(s, pid)
    ensures Distinct(sems[i := sems[i].(value := sems[i].value - 1, queue := sems[i].queue + [pid])])
  {
    hide Waiter, CountOk;
    var q := sems[i].queue + [pid];
    var after := sems[i := sems[i].(value := sems[i].value - 1, queue := q)];
    forall x, a, y, b | 0 <= x < |after| && 0 <= y < |after| && after[x].open && after[y].open &&
      0 <= a < |after[x].queue| && 0 <= b < |after[y].queue| && after[x].queue[a] == after[y].queue[b]
      ensures x == y && a == b
    {
      var newX, newY := x == i && a == |sems[i].queue|, y == i && b == |sems[i].queue|;
      if !newX {
        assert after[x].queue[a] == sems[x].queue[a] && Waiter(s, sems[x].queue[a]);
      }
      if !newY {
        assert after[y].queue[b] == sems[y].queue[b] && Waiter(s, sems[y].queue[b]);
      }
    }
  }

  lemma PostQueues(k: KernelState, name: string)
    requires Inv(k) && Enabled(k, PostCall(name))
    ensures var r := Apply(k, PostCall(name)); QueuesOk(r.sched, r.sems)
  {
    hide Unblock, Semaphores.Find, AtEntry, Waiter, Enabled;
    InvBase(k);
    var i := Semaphores.Find(k.sems, name);
    var r := Apply(k, PostCall(name));
    if i < 0 {
      assert r == k;
      return;
    }
    var (s, woken) := Semaphores.Up(k.sems[i]);
    assert r.sems == k.sems[i := s];
    var shift := if s.queue == k.sems[i].queue then 0 else 1;
    assert shift == 1 ==> woken == k.sems[i].queue[0];
    forall x, a, y, b | 0 <= x < |r.sems| && 0 <= y < |r.sems| && r.sems[x].open && r.sems[y].open &&
      0 <= a < |r.sems[x].queue| && 0 <= b < |r.sems[y].queue| && r.sems[x].queue[a] == r.sems[y].queue[b]
      ensures x == y && a == b
    {
      var a', b' := if x == i then a + shift else a, if y == i then b + shift else b;
      assert r.sems[x].queue[a] == k.sems[x].queue[a'] && r.sems[y].queue[b] == k.sems[y].queue[b'];
    }
    forall x, a | 0 <= x < |r.sems| && r.sems[x].open && 0 <= a < |r.sems[x].queue|
      ensures Waiter(r.sched, r.sems[x].queue[a])
    {
      var a' := if x == i then a + shift else a;
      var p := k.sems[x].queue[a'];
      assert r.sems[x].queue[a] == p && Queued(k.sems, p);
      WaiterValid(k.sched, p);
      assert shift == 1 && p == k.sems[i].queue[0] ==> x == i && a' == 0;
      WaiterStays(k, PostCall(name), p);
    }
  }

  /** Every enabled step keeps the invariant. */
  lemma StepKeepsInv(k: KernelState, e: Event)
    requires Inv(k) && Enabled(k, e)
    ensures Base(k) && Inv(Apply(k, e)) && |Apply(k, e).sems| == |k.sems|
  {
    InvBase(k);
    SchedSafe(k, e);
    StepKeepsNoIdle(k, e);
    hide AtRest, QueuesOk, NoIdle;
    match e
    case OpenCall(name, value) => OpenQueues(k, name, value);
    case CloseCall(name) => CloseQueues(k, name);
    case WaitCall(name) => WaitQueues(k, name);
    case PostCall(name) => PostQueues(k, name);
    case _ => SameSems(k, e);
  }

  // ---- Runs ----

  ghost predicate Legal(k: KernelState, es: seq<Event>)
    requires Base(k)
    decreases |es|
  {
    es == [] || (Admitted(k, es[0]) && (StepKeepsBase(k, es[0]); Legal(Apply(k, es[0]), es[1..])))
  }

  /** The state after a run. */
  ghost function Run(k: KernelState, es: seq<Event>): (r: KernelState)
    requires Base(k) && Legal(k, es)
    ensures Base(r)
    decreases |es|
  {
    if es == [] then k else (StepKeepsBase(k, es[0]); Run(Apply(k, es[0]), es[1..]))
  }

  /** A run that leaves waiters to the posts that wake them. */
  ghost predicate Orderly(k: KernelState, es: seq<Event>)
    requires Base(k) && Legal(k, es)
    decreases |es|
  {
    es == [] || (Enabled(k, es[0]) && (StepKeepsBase(k, es[0]); Orderly(Apply(k, es[0]), es[1..])))
  }

  lemma {:induction false} OrderlyKeepsInv(k: KernelState, es: seq<Event>)
    requires Inv(k)
    ensures Base(k) && (Legal(k, es) && Orderly(k, es) ==> Inv(Run(k, es)))
    decreases |es|
  {
    InvBase(k);
    if es != [] && Legal(k, es) && Orderly(k, es) {
      hide Inv, Base, Apply, Enabled, Admitted;
      StepKeepsInv(k, es[0]);
      OrderlyKeepsInv(Apply(k, es[0]), es[1..]);
    }
  }

  // ---- Semaphore accounting ----

  /** Slot i is open in every state of the run, so it is one semaphore throughout. */
  ghost predicate StaysOpen(k: KernelState, es: seq<Event>, i: nat)
    requires Base(k) && Legal(k, es)
    decreases |es|
  {
    && i < |k.sems| && k.sems[i].open
    && (es == [] || (StepKeepsBase(k, es[0]); StaysOpen(Apply(k, es[0]), es[1..], i)))
  }

  ghost predicate WaitsOn(k: KernelState, e: Event, i: nat) {
    e.WaitCall? && Semaphores.Find(k.sems, e.name) == i
  }

  ghost predicate PostsOn(k: KernelState, e: Event, i: nat) {
    e.PostCall? && Semaphores.Find(k.sems, e.name) == i
  }

  /** Calls of sem_wait and sem_post on slot i during a run. */
  ghost function Waits(k: KernelState, es: seq<Event>, i: nat): nat
    requires Base(k) && Legal(k, es)
    decreases |es|
  {
    if es == [] then 0 else
      StepKeepsBase(k, es[0]);
      (if WaitsOn(k, es[0], i) then 1 else 0) + Waits(Apply(k, es[0]), es[1..], i)
  }

  ghost function Posts(k: KernelState, es: seq<Event>, i: nat): nat
    requires Base(k) && Legal(k, es)
    decreases |es|
  {
    if es == [] then 0 else
      StepKeepsBase(k, es[0]);
      (if PostsOn(k, es[0], i) then 1 else 0) + Posts(Apply(k, es[0]), es[1..], i)
  }

  /** The processes that block on slot i, in the order they do. */
  ghost function Arrivals(k: KernelState, es: seq<Event>, i: nat): seq<int>
    requires Base(k) && Legal(k, es)
    decreases |es|
  {
    if es == [] then [] else
      StepKeepsBase(k, es[0]);
      Came(k, es[0], i) + Arrivals(Apply(k, es[0]), es[1..], i)
  }

  /** The processes that posts on slot i take off its queue to wake, in order. */
  ghost function WakeUps(k: KernelState, es: seq<Event>, i: nat): seq<int>
    requires Base(k) && Legal(k, es)
    decreases |es|
  {
    if es == [] then [] else
      StepKeepsBase(k, es[0]);
      Left(k, es[0], i) + WakeUps(Apply(k, es[0]), es[1..], i)
  }

  // ---- The value ----

  /** One step's effect on the value of an open slot that stays open. */
  lemma StepValue(k: KernelState, e: Event, i: nat)
    requires Base(k) && Admitted(k, e) && i < |k.sems| && k.sems[i].open
    requires |Apply(k, e).sems| == |k.sems| && Apply(k, e).sems[i].open
    ensures Apply(k, e).sems[i].value ==
      k.sems[i].value + (if PostsOn(k, e, i) then 1 else 0) - (if WaitsOn(k, e, i) then 1 else 0)
  {
    hide Schedule, Yield, Block, Unblock, Kill, BeNice, Create, GetPid, AtEntry, NoIdle;
    hide Semaphores.Find, Semaphores.FindClosed;
  }

  /**
    Accounting: over any run in which slot i stays one semaphore, its value is the value it began
    with, plus the posts, minus the waits.
   */
  lemma {:induction false} Accounting(k: KernelState, es: seq<Event>, i: nat)
    requires Base(k) && Legal(k, es) && StaysOpen(k, es, i)
    ensures i < |Run(k, es).sems|
    ensures Run(k, es).sems[i].value == k.sems[i].value + Posts(k, es, i) - Waits(k, es, i)
    decreases |es|
  {
    if es != [] {
      hide Base, Admitted, Apply, WaitsOn, PostsOn;
      StepKeepsBase(k, es[0]);
      StepValue(k, es[0], i);
      Accounting(Apply(k, es[0]), es[1..], i);
    }
  }

  // ---- The order of wake-ups ----

  /** What one step does to the queue of slot i: who blocks joins the end, who is woken leaves the front. */
  ghost predicate Queues(k: KernelState, e: Event, i: nat, t: Semaphores.Sem)
    requires i < |k.sems|
  {
    k.sems[i].queue + Came(k, e, i) == Left(k, e, i) + t.queue
  }

  /** The process that blocks on slot i in this step, if one does, and the one that a post takes off its queue. */
  ghost function Came(k: KernelState, e: Event, i: nat): seq<int> {
    if WaitsOn(k, e, i) && i < |k.sems| && k.sems[i].value <= 0 then [k.sched.current] else []
  }

  ghost function Left(k: KernelState, e: Event, i: nat): seq<int> {
    if PostsOn(k, e, i) && i < |k.sems| && k.sems[i].queue != [] then [k.sems[i].queue[0]] else []
  }

  /** One step's effect on the queue of an open slot that stays open. */
  lemma StepQueues(k: KernelState, e: Event, i: nat)
    requires Inv(k) && Base(k) && Enabled(k, e) && i < |k.sems| && k.sems[i].open
    requires |Apply(k, e).sems| == |k.sems| && Apply(k, e).sems[i].open
    ensures Queues(k, e, i, Apply(k, e).sems[i])
  {
    InvBase(k);
    match e
    case WaitCall(name) =>
      RunningNotWaiting(k);
      WaitOnQueue(k, name, i);
    case PostCall(name) =>
      QueueCounts(k, i);
      PostOnQueue(k, name, i);
    case _ => OtherQueue(k, e, i);
  }

  lemma OtherQueue(k: KernelState, e: Event, i: nat)
    requires WellFormed(k.sched) && i < |k.sems| && k.sems[i].open && !e.WaitCall? && !e.PostCall?
    requires |Apply(k, e).sems| == |k.sems| && Apply(k, e).sems[i].open
    ensures Queues(k, e, i, Apply(k, e).sems[i])
  {
    hide Schedule, Yield, Block, Unblock, Kill, BeNice, Create, GetPid, WellFormed, Semaphores.Find, Semaphores.FindClosed;
  }

  lemma WaitOnQueue(k: KernelState, name: string, i: nat)
    requires WellFormed(k.sched) && i < |k.sems| && GetPid(k.sched.table) == k.sched.current
    ensures |Apply(k, WaitCall(name)).sems| == |k.sems| && Queues(k, WaitCall(name), i, Apply(k, WaitCall(name)).sems[i])
  {
    hide Block, GetPid, WellFormed, Semaphores.Find, Semaphores.Down;
    DownAccounts(k.sems[i], k.sched.current);
  }

  lemma PostOnQueue(k: KernelState, name: string, i: nat)
    requires WellFormed(k.sched) && i < |k.sems| && CountOk(k.sems[i])
    ensures |Apply(k, PostCall(name)).sems| == |k.sems| && Queues(k, PostCall(name), i, Apply(k, PostCall(name)).sems[i])
  {
    hide Unblock, WellFormed, Semaphores.Find, Semaphores.Up, CountOk;
    UpAccounts(k.sems[i]);
  }

  lemma QueueCounts(k: KernelState, i: nat)
    requires Inv(k) && i < |k.sems| && k.sems[i].open
    ensures CountOk(k.sems[i])
  {
  }

  lemma DownAccounts(s: Semaphores.Sem, pid: int)
    ensures Semaphores.Down(s, pid).0.queue == s.queue + if s.value <= 0 then [pid] else []
  {
  }

  lemma UpAccounts(s: Semaphores.Sem)
    requires CountOk(s)
    ensures s.queue == (if s.queue != [] then [s.queue[0]] else []) + Semaphores.Up(s).0.queue
  {
  }

  // ---- What a wait and a post do ----

  /** p has one block fewer: it is READY if that was its last, and still BLOCKED otherwise. */
  ghost predicate Woken(s: Sched, t: Sched, p: int) {
    && Is(s.table, p, BLOCKED)
    && var was := s.table[p].pcb;
       t == s.(table := s.table[p := Proc(was.(blocks := was.blocks - 1, state := if was.blocks == 1 then READY else BLOCKED))])
  }

  /** A post hands one block back to the first in the queue, and to nobody when the queue is empty. */
  lemma PostEffect(k: KernelState, name: string)
    requires Inv(k)
    ensures WellFormed(k.sched)
    ensures var i, t := Semaphores.Find(k.sems, name), SemPost(k, name);
      && t.0 == Apply(k, PostCall(name))
      && (t.1 == if i < 0 then -1 else 0)
      && (i < 0 ==> t.0 == k)
      && (i >= 0 && k.sems[i].queue == [] ==>
            t.0 == k.(sems := k.sems[i := k.sems[i].(value := k.sems[i].value + 1)]))
      && (i >= 0 && k.sems[i].queue != [] ==>
            && Woken(k.sched, t.0.sched, k.sems[i].queue[0])
            && t.0.sems == k.sems[i := k.sems[i].(value := k.sems[i].value + 1, queue := k.sems[i].queue[1..])])
  {
    InvWellFormed(k);
    hide Semaphores.Find, AtEntry, WellFormed;
    var i := Semaphores.Find(k.sems, name);
    if i >= 0 {
      QueueCounts(k, i);
      if k.sems[i].queue != [] {
        var p := k.sems[i].queue[0];
        assert Waiter(k.sched, p);
        HasBlocks(k.sched, p);
      }
    }
  }

  lemma InvWellFormed(k: KernelState)
    requires Inv(k)
    ensures WellFormed(k.sched)
  {
  }

  lemma HasBlocks(s: Sched, p: int)
    requires AtRest(s) && Waiter(s, p)
    ensures s.table[p].pcb.blocks >= 1
  {
  }

  /**
    A wait takes one from the value. When there was one to take the caller goes on and nothing else
    changes; otherwise it joins the end of the queue and is blocked once more, off the CPU.
   */
  lemma WaitEffect(k: KernelState, name: string)
    requires Inv(k) && Enabled(k, WaitCall(name))
    ensures WellFormed(k.sched)
    ensures var i, t, c := Semaphores.Find(k.sems, name), SemWait(k, name), k.sched.current;
      && t.0 == Apply(k, WaitCall(name))
      && (t.1 == if i < 0 then -1 else 0)
      && (i < 0 ==> t.0 == k)
      && (i >= 0 && k.sems[i].value > 0 ==>
            t.0 == k.(sems := k.sems[i := k.sems[i].(value := k.sems[i].value - 1)]))
      && (i >= 0 && k.sems[i].value <= 0 ==>
            && BlockedItself(k.sched, t.0.sched, c)
            && t.0.sems == k.sems[i := k.sems[i].(value := k.sems[i].value - 1, queue := k.sems[i].queue + [c])])
  {
    InvBase(k);
    var i := Semaphores.Find(k.sems, name);
    if i >= 0 && k.sems[i].value <= 0 {
      RunningNotWaiting(k);
      SelfBlocks(k.sched);
    }
    hide Semaphores.Find, Inv, Base, Block, GetPid, Queued, WellFormed;
  }

  /** The running process c has one block more and has lost the CPU to the next in turn, or to idle. */
  ghost predicate BlockedItself(s: Sched, t: Sched, c: int) {
    && Is(s.table, c, RUNNING)
    && SchedulerTurns.Given(SetPcb(s, c, s.table[c].pcb.(state := BLOCKED, blocks := s.table[c].pcb.blocks + 1)), t, t.current)
    && t.current != c
    && (if exists q :: Is(s.table, q, READY) then SchedulerTurns.NextInTurn(s.table, c, t.current) else t.current == s.idle)
  }

  lemma SelfBlocks(s: Sched)
    requires AtRest(s) && s.current >= 0 && s.current != s.idle
    ensures BlockedItself(s, Block(s, s.current).0, s.current)
  {
    hide Block, SchedulerTurns.NextInTurn;
    SchedulerTurns.BlockCounts(s, s.current);
  }

  /** Over a run: each process that a post takes off slot i's queue is woken by that post. */
  ghost predicate EachWoken(k: KernelState, es: seq<Event>, i: nat)
    requires Base(k) && Legal(k, es)
    decreases |es|
  {
    es == [] ||
    (&& (Left(k, es[0], i) != [] ==> Woken(k.sched, (BaseWellFormed(k); Apply(k, es[0]).sched), Left(k, es[0], i)[0]))
     && (StepKeepsBase(k, es[0]); EachWoken(Apply(k, es[0]), es[1..], i)))
  }

  lemma LeftWoken(k: KernelState, e: Event, i: nat)
    requires Inv(k) && WellFormed(k.sched)
    ensures Left(k, e, i) != [] ==> Woken(k.sched, Apply(k, e).sched, Left(k, e, i)[0])
  {
    if e.PostCall? {
      PostEffect(k, e.name);
    }
    hide Semaphores.Find, SemPost, Woken, Inv;
  }

  /**
    First come, first served: those who block on slot i are taken off its queue in the order in which
    they blocked, and each is woken as it is.
   */
  lemma {:induction false} WakeOrder(k: KernelState, es: seq<Event>, i: nat)
    requires Inv(k) && Base(k) && Legal(k, es) && Orderly(k, es) && StaysOpen(k, es, i)
    ensures i < |Run(k, es).sems|
    ensures k.sems[i].queue + Arrivals(k, es, i) == WakeUps(k, es, i) + Run(k, es).sems[i].queue
    ensures EachWoken(k, es, i)
    decreases |es|
  {
    if es != [] {
      hide Base, Inv, Enabled, Admitted, Apply, Came, Left, Woken;
      var e, next := es[0], Apply(k, es[0]);
      StepKeepsInv(k, e);
      BaseWellFormed(k);
      LeftWoken(k, e, i);
      StepQueues(k, e, i);
      WakeOrder(next, es[1..], i);
      FirstInFirstOut(k.sems[i].queue, next.sems[i].queue, Came(k, e, i), Left(k, e, i), Arrivals(next, es[1..], i),
                      WakeUps(next, es[1..], i), Run(k, es).sems[i].queue);
    }
  }

  lemma FirstInFirstOut(q: seq<int>, q': seq<int>, came: seq<int>, left: seq<int>, rest: seq<int>, woken: seq<int>, end: seq<int>)
    requires q + came == left + q' && q' + rest == woken + end
    ensures q + (came + rest) == (left + woken) + end
  {
    assert q + (came + rest) == (q + came) + rest == left + (q' + rest);
  }
}
