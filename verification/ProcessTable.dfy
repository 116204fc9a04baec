/**
  Kernel/proc.c and Kernel/scheduler.c as they run: the table, the index and the counter are
  updated in place, and each entry is proved to do what Processes says.
 */
module ProcessTable {
  import opened Processes

  class ProcessTable {
    const table: array<Slot>
    var current: int
    var active: int
    var idle: int

    ghost function View(): Sched
      reads this, table
    {
      Sched(table[..], current, active, idle)
    }

    ghost predicate Valid()
      reads this, table
    {
      WellFormed(View())
    }

    constructor ()
      ensures fresh(table) && View() == Sched(seq(MAX_PCS, _ => Empty), -1, 0, 0)
    {
      table := new Slot[MAX_PCS](_ => Empty);
      current, active, idle := -1, 0, 0;
    }

    method FindRunning() returns (pid: int)
      ensures pid == GetPid(table[..])
    {
      pid := -1;
      for i := 0 to table.Length
        invariant GetPid(table[..]) == GetPid(table[..], i)
      {
        if table[i].Proc? && table[i].pcb.state == RUNNING {
          return i;
        }
      }
    }

    method Scheduling()
      requires Valid()
      modifies this, table
      ensures View() == Schedule(old(View()))
    {
      if active == 0 {
        return;
      }
      if current >= 0 && table[current].Proc? {
        var p := table[current].pcb;
        if p.state == RUNNING {
          var charged := ChargeTick(p);
          table[current] := Proc(charged);
          assert View() == SetPcb(old(View()), current, Charge(p));
          if charged.state == RUNNING {
            return;
          }
        }
      }
      hide NextReady, Charge;
      Search();
    }

    /** The accounting part of scheduling, for the process that was running. */
    static method ChargeTick(p: Pcb) returns (r: Pcb)
      requires p.state == RUNNING
      ensures r == Charge(p)
    {
      r := p.(timeUsed := p.timeUsed + 1, totalTicks := p.totalTicks + 1);
      if r.timeUsed >= r.maxTime {
        r := r.(timeUsed := 0, changes := r.changes + 1);
        r := r.(state := if r.isIdle then BLOCKED else READY);
      } else if r.yielding {
        r := r.(yielding := false, timeUsed := 0, yieldChanges := r.yieldChanges + 1, state := READY);
      }
    }

    /** The do-while of scheduling: one turn round the table, then idle. */
    method Search()
      requires Valid()
      modifies this, table
      ensures View() == Dispatch(old(View()))
    {
      hide Around;
      var next := current;
      var checked := 0;
      while checked < MAX_PCS
        invariant 0 <= checked <= MAX_PCS && -1 <= next < MAX_PCS
        invariant checked == 0 ==> next == current
        invariant checked > 0 ==> next == Around(current, checked)
        invariant View() == old(View())
        invariant NextReady(table[..], current, 1) == NextReady(table[..], current, checked + 1)
      {
        NextAround(current, checked);
        next := (next + 1) % MAX_PCS;
        checked := checked + 1;
        var candidate := table[next];
        if candidate.Proc? && candidate.pcb.state == READY {
          current := next;
          table[next] := Proc(candidate.pcb.(state := RUNNING));
          return;
        }
      }
      table[idle] := Proc(table[idle].pcb.(state := RUNNING));
      current := idle;
    }

    method YieldNow()
      requires Valid()
      modifies this, table
      ensures View() == Yield(old(View()))
    {
      var pid := FindRunning();
      if pid >= 0 {
        table[pid] := Proc(table[pid].pcb.(yielding := true));
      }
      Scheduling();
    }

    method BlockProcess(pid: int) returns (r: int)
      requires Valid()
      modifies this, table
      ensures Valid() && (View(), r) == Block(old(View()), pid)
    {
      if !(0 <= pid < table.Length && table[pid].Proc?) {
        return -1;
      }
      hide Yield;
      var p := table[pid].pcb;
      if p.state == READY || p.state == RUNNING {
        table[pid] := Proc(p.(state := BLOCKED));
        table[pid] := Proc(table[pid].pcb.(blocks := table[pid].pcb.blocks + 1));
        assert View() == SetPcb(old(View()), pid, p.(state := BLOCKED, blocks := p.blocks + 1));
        YieldNow();
        return 0;
      }
      if p.state == BLOCKED {
        table[pid] := Proc(p.(blocks := p.blocks + 1));
        assert View() == SetPcb(old(View()), pid, p.(state := BLOCKED, blocks := p.blocks + 1));
        YieldNow();
        return 0;
      }
      return -2;
    }

    method UnblockProcess(pid: int) returns (r: int)
      requires Valid()
      modifies table
      ensures Valid() && (View(), r) == Unblock(old(View()), pid)
    {
      if !(0 <= pid < table.Length && table[pid].Proc?) {
        return -1;
      }
      var p := table[pid].pcb;
      if p.state != BLOCKED {
        return -2;
      }
      if p.blocks > 1 {
        table[pid] := Proc(p.(blocks := p.blocks - 1));
        assert View() == SetPcb(old(View()), pid, p.(blocks := p.blocks - 1));
        return 0;
      }
      table[pid] := Proc(p.(blocks := p.blocks - 1));
      table[pid] := Proc(table[pid].pcb.(state := READY));
      assert View() == SetPcb(old(View()), pid, p.(blocks := p.blocks - 1, state := READY));
      return 0;
    }

    method KillProcess(pid: int) returns (r: int)
      requires Valid()
      modifies this, table
      ensures (View(), r) == Kill(old(View()), pid)
    {
      if !(0 <= pid < table.Length && table[pid].Proc?) {
        return -1;
      }
      var p := table[pid].pcb;
      if p.state == ZOMBIE {
        return -2;
      }
      table[pid] := Proc(p.(state := ZOMBIE));
      active := active - 1;
      table[pid] := Proc(table[pid].pcb.(yielding := true));
      assert View() == SetPcb(old(View()), pid, p.(state := ZOMBIE, yielding := true)).(active := old(active) - 1);
      Scheduling();
      return 0;
    }

    method Nice(pid: int, prio: int) returns (r: int)
      requires Valid()
      modifies table
      ensures (View(), r) == BeNice(old(View()), pid, prio)
    {
      if !(0 <= pid < table.Length && table[pid].Proc?) {
        return -1;
      }
      if prio < 0 || prio > 4 {
        return -3;
      }
      var p := table[pid].pcb;
      if p.state == ZOMBIE {
        return -1;
      }
      if p.isIdle {
        return -2;
      }
      table[pid] := Proc(p.(prio := prio, maxTime := MaxTimeFor(prio)));
      return 0;
    }

    method CreateProcess(isIdle: bool, isWait: bool, memory: bool) returns (pid: int)
      requires table.Length == MAX_PCS && -1 <= current < MAX_PCS && (isWait ==> Valid())
      modifies this, table
      ensures (View(), pid) == Create(old(View()), isIdle, isWait, memory)
    {
      pid := -1;
      var i := 0;
      while i < MAX_PCS && pid == -1
        invariant 0 <= i <= MAX_PCS && View() == old(View())
        invariant pid == -1 ==> FreeSlot(table[..]) == FreeSlot(table[..], i)
        invariant pid != -1 ==> pid == FreeSlot(table[..]) && 0 <= pid < MAX_PCS
        decreases MAX_PCS - i, pid == -1
      {
        if table[i].Empty? || table[i].pcb.state == ZOMBIE {
          pid := i;
        } else {
          i := i + 1;
        }
      }
      if pid == -1 {
        return;
      }
      table[pid] := Empty;
      if !memory {
        return -2;
      }
      table[pid] := Proc(NewPcb(isIdle));
      active := active + 1;
      assert View() == old(View()).(table := old(table[..])[pid := Proc(NewPcb(isIdle))], active := old(active) + 1);
      if isWait {
        YieldNow();
      }
    }
  }
}
