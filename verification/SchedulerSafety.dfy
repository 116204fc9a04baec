/**
  What each kernel entry keeps of the process table: one RUNNING process, found by scanning; idle chosen only
  when nothing is READY; the live-process counter; and BLOCKED exactly while blocks are outstanding.
 */
module SchedulerSafety {
  import opened Processes

  const LONGEST_SLICE := QUANTUM * 5 * 5 * 5 * 5

  ghost function Alive(table: seq<Slot>): set<int> {
    set i | 0 <= i < |table| && table[i].Proc? && table[i].pcb.state != ZOMBIE
  }

  /** What holds of each occupied slot. Idle is never READY: the scheduler picks it by name only. */
  ghost predicate PcbOk(p: Pcb, isIdle: bool) {
    && p.isIdle == isIdle
    && 0 <= p.timeUsed < LONGEST_SLICE && 1 <= p.maxTime <= LONGEST_SLICE && 0 <= p.blocks
    && (isIdle ==> p.maxTime == IDLE_Q && (p.state == RUNNING || p.state == BLOCKED))
    && (!isIdle && p.state != ZOMBIE ==> (p.state == BLOCKED <==> p.blocks > 0))
  }

  /** On entry to the scheduler: only the process at current_index can be RUNNING. */
  ghost predicate AtEntry(s: Sched) {
    && WellFormed(s)
    && (forall i | 0 <= i < MAX_PCS && s.table[i].Proc? :: PcbOk(s.table[i].pcb, i == s.idle))
    && (forall i | 0 <= i < MAX_PCS && Is(s.table, i, RUNNING) :: i == s.current)
    && s.active == |Alive(s.table)|
  }

  /** Between kernel entries: the process at current_index is RUNNING, once there has been a tick. */
  ghost predicate AtRest(s: Sched) {
    && AtEntry(s)
    && (s.current >= 0 ==> Is(s.table, s.current, RUNNING))
  }

  // ---- Changing one slot ----

  lemma AliveUpdate(table: seq<Slot>, i: int, slot: Slot)
    requires 0 <= i < |table|
    ensures var was, now := i in Alive(table), slot.Proc? && slot.pcb.state != ZOMBIE;
      |Alive(table[i := slot])| == |Alive(table)| + (if now then 1 else 0) - (if was then 1 else 0)
  {
    AliveBut(table, i);
    AliveBut(table[i := slot], i);
    assert OtherAlive(table, i) == OtherAlive(table[i := slot], i);
  }

  /** The live processes in the slots other than i. */
  ghost function OtherAlive(table: seq<Slot>, i: int): set<int> {
    set j | 0 <= j < |table| && j != i && table[j].Proc? && table[j].pcb.state != ZOMBIE
  }

  lemma AliveBut(table: seq<Slot>, i: int)
    ensures |Alive(table)| == |OtherAlive(table, i)| + if i in Alive(table) then 1 else 0
  {
    assert Alive(table) == OtherAlive(table, i) + if i in Alive(table) then {i} else {};
  }

  /** A change to one slot that keeps it within bounds, and does not make a second process RUNNING. */
  lemma SlotChange(s: Sched, i: int, p: Pcb)
    requires AtEntry(s) && ValidPid(s.table, i)
    requires PcbOk(p, i == s.idle) && (p.state == RUNNING ==> i == s.current)
    requires p.state == ZOMBIE <==> s.table[i].pcb.state == ZOMBIE
    ensures AtEntry(SetPcb(s, i, p))
  {
    AliveUpdate(s.table, i, Proc(p));
    OneRunning(s, s.table[i := Proc(p)], i);
  }

  /** Replacing slot i cannot make a process other than current_index the RUNNING one. */
  lemma OneRunning(s: Sched, table: seq<Slot>, i: int)
    requires AtEntry(s) && 0 <= i < MAX_PCS == |table| && table == s.table[i := table[i]]
    requires Is(table, i, RUNNING) ==> i == s.current
    ensures forall j | 0 <= j < MAX_PCS && Is(table, j, RUNNING) :: j == s.current
  {
    forall j | 0 <= j < MAX_PCS && Is(table, j, RUNNING)
      ensures j == s.current
    {
      if j != i {
        assert Is(s.table, j, RUNNING);
      }
    }
  }

  lemma IdleIsAlive(s: Sched)
    requires AtEntry(s)
    ensures s.active > 0
  {
    assert s.idle in Alive(s.table);
  }

  lemma ChargeOk(p: Pcb, isIdle: bool)
    requires PcbOk(p, isIdle) && p.state == RUNNING
    ensures PcbOk(Charge(p), isIdle) && Charge(p).state != ZOMBIE
    ensures isIdle ==> Charge(p).state == BLOCKED
    ensures Charge(p).state == RUNNING ==> Charge(p).timeUsed == p.timeUsed + 1
  {
  }

  // ---- The scheduler ----

  lemma {:induction false} NextReadyNone(table: seq<Slot>, c: int, d: int)
    requires |table| == MAX_PCS && 1 <= d <= MAX_PCS + 1 && -1 <= c < MAX_PCS
    requires NextReady(table, c, d) < 0
    ensures forall e :: d <= e <= MAX_PCS ==> !Is(table, Around(c, e), READY)
    decreases MAX_PCS - d
  {
    if d <= MAX_PCS {
      NextReadyNone(table, c, d + 1);
    }
  }

  /** Going once round the table from c reaches every slot. */
  lemma RoundCovers(c: int, i: int)
    requires -1 <= c < MAX_PCS && 0 <= i < MAX_PCS
    ensures exists d :: 1 <= d <= MAX_PCS && Around(c, d) == i
  {
    var d := if i > c then i - c else i - c + MAX_PCS;
    assert 1 <= d <= MAX_PCS && Around(c, d) == i;
  }

  lemma NothingReady(table: seq<Slot>, c: int, i: int)
    requires |table| == MAX_PCS && -1 <= c < MAX_PCS && NextReady(table, c, 1) < 0
    ensures !Is(table, i, READY)
  {
    if 0 <= i < MAX_PCS {
      NextReadyNone(table, c, 1);
      RoundCovers(c, i);
      var d :| 1 <= d <= MAX_PCS && Around(c, d) == i;
    }
  }

  lemma DispatchSafe(s: Sched)
    requires AtEntry(s) && !Is(s.table, s.current, RUNNING)
    ensures var t := Dispatch(s);
      && AtRest(t) && t.current >= 0
      && (t.current == s.idle ==> forall i :: !Is(t.table, i, READY))
  {
    hide NextReady;
    var next := NextReady(s.table, s.current, 1);
    NextReadyIsReady(s.table, s.current, 1);
    var chosen := if next >= 0 then next else s.idle;
    var p := s.table[chosen].pcb;
    var t := Dispatch(s);
    assert t == SetPcb(s.(current := chosen), chosen, p.(state := RUNNING));
    assert AtEntry(s.(current := chosen));
    SlotChange(s.(current := chosen), chosen, p.(state := RUNNING));
    if next < 0 {
      forall i
        ensures !Is(t.table, i, READY)
      {
        NothingReady(s.table, s.current, i);
      }
    }
  }

  /**
    scheduling, entered with at most one process RUNNING, leaves exactly one: current_index, which
    is what get_pid finds. It is idle only if no process is READY.
   */
  lemma ScheduleSafe(s: Sched)
    requires AtEntry(s)
    ensures var t := Schedule(s);
      && AtRest(t) && t.current >= 0 && GetPid(t.table) == t.current
      && (t.current == s.idle ==> forall i :: !Is(t.table, i, READY))
  {
    hide Charge, Dispatch;
    IdleIsAlive(s);
    var t := Schedule(s);
    if Is(s.table, s.current, RUNNING) {
      var p := s.table[s.current].pcb;
      ChargeOk(p, s.current == s.idle);
      SlotChange(s, s.current, Charge(p));
      if Charge(p).state != RUNNING {
        DispatchSafe(SetPcb(s, s.current, Charge(p)));
      }
    } else {
      DispatchSafe(s);
    }
    OnlyRunning(t);
  }

  /** get_pid's scan finds the process at current_index. */
  lemma OnlyRunning(s: Sched)
    requires AtRest(s)
    ensures GetPid(s.table) == s.current
  {
    var pid := GetPid(s.table);
    if s.current >= 0 {
      assert Is(s.table, s.current, RUNNING);
    }
  }

  lemma YieldSafe(s: Sched)
    requires AtEntry(s)
    ensures var t := Yield(s);
      && AtRest(t) && t.current >= 0 && GetPid(t.table) == t.current
      && (t.current == s.idle ==> forall i :: !Is(t.table, i, READY))
  {
    hide Schedule, GetPid;
    var pid := GetPid(s.table);
    if pid >= 0 {
      var p := s.table[pid].pcb.(yielding := true);
      SlotChange(s, pid, p);
      ScheduleSafe(SetPcb(s, pid, p));
    } else {
      ScheduleSafe(s);
    }
  }

  // ---- The other kernel entries ----

  lemma BlockSafe(s: Sched, pid: int)
    requires AtRest(s) && s.current >= 0
    ensures AtRest(Block(s, pid).0) && Block(s, pid).0.current >= 0
  {
    hide Yield;
    if ValidPid(s.table, pid) && s.table[pid].pcb.state != ZOMBIE {
      var p := s.table[pid].pcb;
      var q := p.(state := BLOCKED, blocks := p.blocks + 1);
      SlotChange(s, pid, q);
      YieldSafe(SetPcb(s, pid, q));
    }
  }

  lemma UnblockSafe(s: Sched, pid: int)
    requires AtRest(s) && pid != s.idle
    ensures AtRest(Unblock(s, pid).0)
    ensures Unblock(s, pid).0.current == s.current && Unblock(s, pid).0.idle == s.idle
  {
    if Is(s.table, pid, BLOCKED) {
      var p := s.table[pid].pcb;
      SlotChange(s, pid, if p.blocks > 1 then p.(blocks := p.blocks - 1) else p.(blocks := p.blocks - 1, state := READY));
    }
  }

  lemma KillSafe(s: Sched, pid: int)
    requires AtRest(s) && s.current >= 0 && pid != s.idle
    ensures AtRest(Kill(s, pid).0) && Kill(s, pid).0.current >= 0
  {
    hide Schedule;
    if ValidPid(s.table, pid) && s.table[pid].pcb.state != ZOMBIE {
      var z := s.table[pid].pcb.(state := ZOMBIE, yielding := true);
      var t := SetPcb(s, pid, z).(active := s.active - 1);
      AliveUpdate(s.table, pid, Proc(z));
      OneRunning(s, t.table, pid);
      ScheduleSafe(t);
    }
  }

  lemma NiceSafe(s: Sched, pid: int, prio: int)
    requires AtRest(s)
    ensures AtRest(BeNice(s, pid, prio).0)
    ensures BeNice(s, pid, prio).0.current == s.current && BeNice(s, pid, prio).0.idle == s.idle
  {
    assert Is(s.table, pid, RUNNING) ==> pid == s.current;
    if ValidPid(s.table, pid) && 0 <= prio <= 4 && s.table[pid].pcb.state != ZOMBIE && !s.table[pid].pcb.isIdle {
      SlotChange(s, pid, s.table[pid].pcb.(prio := prio, maxTime := MaxTimeFor(prio)));
    }
  }

  lemma CreateSafe(s: Sched, isWait: bool, memory: bool)
    requires AtRest(s) && s.current >= 0
    ensures AtRest(Create(s, false, isWait, memory).0)
    ensures Create(s, false, isWait, memory).0.current >= 0 && Create(s, false, isWait, memory).0.idle == s.idle
  {
    hide Yield, FreeSlot;
    var i := FreeSlot(s.table);
    if i >= 0 {
      var slot := if memory then Proc(NewPcb(false)) else Empty;
      AliveUpdate(s.table, i, slot);
      var t := s.(table := s.table[i := slot], active := s.active + if memory then 1 else 0);
      assert i != s.idle;
      OneRunning(s, t.table, i);
      if isWait && memory {
        YieldSafe(t);
      }
    }
  }

  /** Boot: the first process created is idle, in slot 0 and BLOCKED, and nothing runs before a tick. */
  lemma BootSafe()
    ensures var boot := Create(Sched(seq(MAX_PCS, _ => Empty), -1, 0, 0), true, false, true);
      boot.1 == 0 && AtRest(boot.0) && boot.0.current == -1 && boot.0.idle == 0
      && boot.0.table == seq(MAX_PCS, _ => Empty)[0 := Proc(Pcb(true, BLOCKED, 5, 0, 1, 0, 0, 0, 0, false))]
  {
    var none := seq(MAX_PCS, _ => Empty);
    assert FreeSlot(none) == 0;
    assert Alive(none) == {};
    AliveUpdate(none, 0, Proc(NewPcb(true)));
  }

  // ---- A blocked process stays as it is while others run ----

  lemma ScheduleKeepsBlocked(s: Sched, p: int)
    requires AtEntry(s) && p != s.idle && Is(s.table, p, BLOCKED)
    ensures Schedule(s).table[p] == s.table[p]
  {
    hide NextReady, Charge;
    if Is(s.table, s.current, RUNNING) {
      var t := SetPcb(s, s.current, Charge(s.table[s.current].pcb));
      NextReadyIsReady(t.table, t.current, 1);
    }
    NextReadyIsReady(s.table, s.current, 1);
  }

  lemma YieldKeepsBlocked(s: Sched, p: int)
    requires AtEntry(s) && p != s.idle && Is(s.table, p, BLOCKED)
    ensures Yield(s).table[p] == s.table[p]
  {
    hide Schedule;
    var pid := GetPid(s.table);
    if pid >= 0 {
      var q := s.table[pid].pcb.(yielding := true);
      SlotChange(s, pid, q);
      ScheduleKeepsBlocked(SetPcb(s, pid, q), p);
    } else {
      ScheduleKeepsBlocked(s, p);
    }
  }
}
