/**
  The process table and the scheduling decisions of Kernel/proc.c and Kernel/scheduler.c, as values:
  what each kernel entry does to the table. A process is named by its slot, which is its pid.
 */
module Processes {

  const MAX_PCS := 64
  const QUANTUM := 2
  const IDLE_Q := 1

  datatype State = READY | RUNNING | BLOCKED | ZOMBIE

  /** The scheduling fields of a PCB; isIdle stands for the name being "idle". */
  datatype Pcb = Pcb(isIdle: bool, state: State, prio: int, timeUsed: int, maxTime: int, totalTicks: int,
                     changes: int, yieldChanges: int, blocks: int, yielding: bool)

  datatype Slot = Empty | Proc(pcb: Pcb)

  /** process_table, current_index, active_processes and IDLE_PID. */
  datatype Sched = Sched(table: seq<Slot>, current: int, active: int, idle: int)

  predicate ValidPid(table: seq<Slot>, pid: int) {
    0 <= pid < |table| && table[pid].Proc?
  }

  predicate Is(table: seq<Slot>, pid: int, state: State) {
    ValidPid(table, pid) && table[pid].pcb.state == state
  }

  /** get_pid: the first RUNNING slot, or -1. */
  function GetPid(table: seq<Slot>, from: nat := 0): (r: int)
    requires from <= |table|
    ensures r == -1 || (from <= r && Is(table, r, RUNNING))
    ensures r == -1 <==> forall i :: from <= i < |table| ==> !Is(table, i, RUNNING)
    ensures forall i :: from <= i < r ==> !Is(table, i, RUNNING)
    decreases |table| - from
  {
    if from == |table| then -1 else if Is(table, from, RUNNING) then from else GetPid(table, from + 1)
  }

  function MaxTimeFor(prio: int): int {
    if prio == 0 then QUANTUM * 5 * 5 * 5 * 5
    else if prio == 1 then QUANTUM * 5 * 5 * 5
    else if prio == 2 then QUANTUM * 5 * 5
    else if prio == 3 then QUANTUM * 5
    else if prio == 4 then QUANTUM
    else if prio == 5 then 1
    else QUANTUM
  }

  // ---- scheduling ----

  /** One tick charged to the running process: its slice ends, it yields, or it keeps the CPU. */
  function Charge(p: Pcb): Pcb {
    var t := p.(timeUsed := p.timeUsed + 1, totalTicks := p.totalTicks + 1);
    if t.timeUsed >= t.maxTime then
      t.(timeUsed := 0, changes := t.changes + 1, state := if t.isIdle then BLOCKED else READY)
    else if t.yielding then
      t.(yielding := false, timeUsed := 0, yieldChanges := t.yieldChanges + 1, state := READY)
    else
      t
  }

  /** The table has its full length, the index is in range, and idle exists to fall back on. */
  ghost predicate WellFormed(s: Sched) {
    |s.table| == MAX_PCS && ValidPid(s.table, s.idle) && -1 <= s.current < MAX_PCS
  }

  /** The slot d places after c around the table. */
  function Around(c: int, d: int): int {
    (c + d) % MAX_PCS
  }

  lemma NextAround(c: int, d: int)
    requires -1 <= c < MAX_PCS && 0 <= d < MAX_PCS
    ensures ((if d == 0 then c else Around(c, d)) + 1) % MAX_PCS == Around(c, d + 1)
    ensures 0 <= Around(c, d + 1) < MAX_PCS
  {
    var x := c + d;
    assert x >= 0 ==> x % MAX_PCS == if x < MAX_PCS then x else x - MAX_PCS;
    assert (x + 1) % MAX_PCS == if x + 1 < MAX_PCS then x + 1 else x + 1 - MAX_PCS;
  }

  /** The first READY slot going round from d places after c; -1 when a whole turn finds none. */
  function NextReady(table: seq<Slot>, c: int, d: int): (r: int)
    requires |table| == MAX_PCS && 1 <= d <= MAX_PCS + 1
    decreases MAX_PCS - d
  {
    if d > MAX_PCS then -1
    else if Is(table, Around(c, d), READY) then Around(c, d)
    else NextReady(table, c, d + 1)
  }

  /** Gives the CPU to the next READY process in the round, or to idle when there is none. */
  function Dispatch(s: Sched): (t: Sched)
    requires WellFormed(s)
    ensures WellFormed(t) && t.idle == s.idle
  {
    var next := NextReady(s.table, s.current, 1);
    var chosen := if next >= 0 then next else s.idle;
    assert next >= 0 ==> Is(s.table, next, READY) by { NextReadyIsReady(s.table, s.current, 1); }
    s.(table := s.table[chosen := Proc(s.table[chosen].pcb.(state := RUNNING))], current := chosen)
  }

  lemma {:induction false} NextReadyIsReady(table: seq<Slot>, c: int, d: int)
    requires |table| == MAX_PCS && 1 <= d <= MAX_PCS + 1
    ensures NextReady(table, c, d) >= 0 ==> Is(table, NextReady(table, c, d), READY)
    decreases MAX_PCS - d
  {
    if d <= MAX_PCS && !Is(table, Around(c, d), READY) {
      NextReadyIsReady(table, c, d + 1);
    }
  }

  function Schedule(s: Sched): (t: Sched)
    requires WellFormed(s)
    ensures WellFormed(t) && t.idle == s.idle
  {
    if s.active == 0 then s
    else if Is(s.table, s.current, RUNNING) then
      var charged := Charge(s.table[s.current].pcb);
      var after := s.(table := s.table[s.current := Proc(charged)]);
      if charged.state == RUNNING then after else Dispatch(after)
    else Dispatch(s)
  }

  // ---- kernel entries ----

  function SetPcb(s: Sched, pid: int, p: Pcb): Sched
    requires ValidPid(s.table, pid)
  {
    s.(table := s.table[pid := Proc(p)])
  }

  /** yield: marks the running process, if there is one, and enters the scheduler. */
  function Yield(s: Sched): (t: Sched)
    requires WellFormed(s)
    ensures WellFormed(t) && t.idle == s.idle
  {
    var pid := GetPid(s.table);
    Schedule(if pid >= 0 then SetPcb(s, pid, s.table[pid].pcb.(yielding := true)) else s)
  }

  function Block(s: Sched, pid: int): (r: (Sched, int))
    requires WellFormed(s)
    ensures WellFormed(r.0) && r.0.idle == s.idle
  {
    if !ValidPid(s.table, pid) then (s, -1)
    else
      var p := s.table[pid].pcb;
      if p.state == ZOMBIE then (s, -2)
      else (Yield(SetPcb(s, pid, p.(state := BLOCKED, blocks := p.blocks + 1))), 0)
  }

  function Unblock(s: Sched, pid: int): (r: (Sched, int))
    ensures WellFormed(s) ==> WellFormed(r.0) && r.0.idle == s.idle
  {
    if !ValidPid(s.table, pid) then (s, -1)
    else
      var p := s.table[pid].pcb;
      if p.state != BLOCKED then (s, -2)
      else if p.blocks > 1 then (SetPcb(s, pid, p.(blocks := p.blocks - 1)), 0)
      else (SetPcb(s, pid, p.(blocks := p.blocks - 1, state := READY)), 0)
  }

  /** kill_process of a process other than the shell, on a table where nobody waits for it. */
  function Kill(s: Sched, pid: int): (r: (Sched, int))
    requires WellFormed(s)
    ensures WellFormed(r.0) && r.0.idle == s.idle
  {
    if !ValidPid(s.table, pid) then (s, -1)
    else
      var p := s.table[pid].pcb;
      if p.state == ZOMBIE then (s, -2)
      else (Schedule(SetPcb(s, pid, p.(state := ZOMBIE, yielding := true)).(active := s.active - 1)), 0)
  }

  function BeNice(s: Sched, pid: int, prio: int): (Sched, int) {
    if !ValidPid(s.table, pid) then (s, -1)
    else if prio < 0 || prio > 4 then (s, -3)
    else
      var p := s.table[pid].pcb;
      if p.state == ZOMBIE then (s, -1)
      else if p.isIdle then (s, -2)
      else (SetPcb(s, pid, p.(prio := prio, maxTime := MaxTimeFor(prio))), 0)
  }

  /** The first slot that is empty or holds a zombie, or -1. */
  function FreeSlot(table: seq<Slot>, from: nat := 0): (r: int)
    requires from <= |table|
    ensures r == -1 || (from <= r < |table| && (table[r].Empty? || table[r].pcb.state == ZOMBIE))
    ensures forall i :: from <= i < |table| && (r == -1 || i < r) ==> table[i].Proc? && table[i].pcb.state != ZOMBIE
    decreases |table| - from
  {
    if from == |table| then -1
    else if table[from].Empty? || table[from].pcb.state == ZOMBIE then from
    else FreeSlot(table, from + 1)
  }

  function NewPcb(isIdle: bool): Pcb {
    if isIdle then Pcb(true, BLOCKED, 5, 0, IDLE_Q, 0, 0, 0, 0, false)
    else Pcb(false, READY, 4, 0, QUANTUM, 0, 0, 0, 0, false)
  }

  /**
    create_process. `memory` says whether the allocations succeed; when they do not, the slot found
    ends up empty, even if it held a zombie. A process named "wait" makes its creator yield.
   */
  function Create(s: Sched, isIdle: bool, isWait: bool, memory: bool): (Sched, int)
    requires |s.table| == MAX_PCS && -1 <= s.current < MAX_PCS && (isWait ==> ValidPid(s.table, s.idle))
  {
    var i := FreeSlot(s.table);
    if i < 0 then (s, -1)
    else if !memory then (s.(table := s.table[i := Empty]), -2)
    else
      var t := s.(table := s.table[i := Proc(NewPcb(isIdle))], active := s.active + 1);
      if isWait then (Yield(t), i) else (t, i)
  }
}
