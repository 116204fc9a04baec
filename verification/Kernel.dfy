/**
  The kernel as a step machine: process table, scheduler and semaphores together. Interrupts are off
  during a system call, so each call runs without interference up to the point where it enters the
  scheduler; between calls the timer and the keyboard may interrupt anywhere.
 */
module Kernel {
  import opened Processes
  import opened Semaphores
  import PT = ProcessTable

  datatype KernelState = KernelState(sched: Sched, sems: seq<Sem>)

  /** sem_wait by the running process. */
  function SemWait(k: KernelState, name: string): (KernelState, int)
    requires WellFormed(k.sched)
  {
    var i := Find(k.sems, name);
    if i < 0 then (k, -1)
    else
      var pid := GetPid(k.sched.table);
      var (s, blocks) := Down(k.sems[i], pid);
      (KernelState(if blocks then Block(k.sched, pid).0 else k.sched, k.sems[i := s]), 0)
  }

  /** sem_post by the running process. */
  function SemPost(k: KernelState, name: string): (KernelState, int) {
    var i := Find(k.sems, name);
    if i < 0 then (k, -1)
    else
      var (s, woken) := Up(k.sems[i]);
      (KernelState(if woken == -1 then k.sched else Unblock(k.sched, woken).0, k.sems[i := s]), 0)
  }

  /** The two semaphore calls as they run on the kernel's tables. */
  class Machine {
    const procs: PT.ProcessTable
    const semaphores: SemTable

    ghost predicate Valid()
      reads procs, procs.table, semaphores.sems
    {
      procs.Valid() && semaphores.Valid()
    }

    ghost function View(): KernelState
      requires Valid()
      reads procs, procs.table, semaphores.sems, semaphores.Arrays()
    {
      KernelState(procs.View(), semaphores.View())
    }

    constructor (procs: PT.ProcessTable, semaphores: SemTable)
      ensures this.procs == procs && this.semaphores == semaphores
    {
      this.procs, this.semaphores := procs, semaphores;
    }

    method Wait(name: string) returns (r: int)
      requires Valid()
      requires var i := Find(View().sems, name);
        i >= 0 && View().sems[i].value <= 0 ==> |View().sems[i].queue| < PROCESSES_BLOCKED
      modifies procs, procs.table, semaphores.sems, semaphores.Arrays()
      ensures Valid() && (View(), r) == SemWait(old(View()), name)
    {
      hide Block, Find, GetPid, Down, Machine.Valid, Machine.View;
      var i := FindSem(name);
      if i < 0 {
        return -1;
      }
      var pid := Running();
      var blocks := DownAt(i, pid);
      if blocks {
        BlockRunning(pid);
      }
      return 0;
    }

    method Post(name: string) returns (r: int)
      requires Valid()
      modifies procs.table, semaphores.sems, semaphores.Arrays()
      ensures Valid() && (View(), r) == SemPost(old(View()), name)
    {
      hide Unblock, Find, Up, Machine.Valid, Machine.View;
      var i := FindSem(name);
      if i < 0 {
        return -1;
      }
      var woken := UpAt(i);
      if woken != -1 {
        Wake(woken);
      }
      return 0;
    }

    // Each step of the two calls touches one of the two tables.

    method FindSem(name: string) returns (i: int)
      requires Valid()
      ensures i == Find(View().sems, name)
    {
      i := semaphores.FindSem(name);
    }

    method Running() returns (pid: int)
      requires Valid()
      ensures pid == GetPid(View().sched.table)
    {
      pid := procs.FindRunning();
    }

    method DownAt(i: nat, pid: int) returns (blocks: bool)
      requires Valid() && i < |View().sems| && (View().sems[i].value <= 0 ==> |View().sems[i].queue| < PROCESSES_BLOCKED)
      modifies semaphores.sems, semaphores.Arrays()
      ensures Valid() && var (s, b) := Down(old(View()).sems[i], pid);
        blocks == b && View() == old(View()).(sems := old(View()).sems[i := s])
    {
      blocks := semaphores.DownAt(i, pid);
    }

    method UpAt(i: nat) returns (woken: int)
      requires Valid() && i < |View().sems|
      modifies semaphores.sems, semaphores.Arrays()
      ensures Valid() && var (s, w) := Up(old(View()).sems[i]);
        woken == w && View() == old(View()).(sems := old(View()).sems[i := s])
    {
      woken := semaphores.UpAt(i);
    }

    method BlockRunning(pid: int)
      requires Valid()
      modifies procs, procs.table
      ensures Valid() && WellFormed(old(View()).sched) && View() == old(View()).(sched := Block(old(View()).sched, pid).0)
    {
      var _ := procs.BlockProcess(pid);
    }

    method Wake(pid: int)
      requires Valid()
      modifies procs.table
      ensures Valid() && View() == old(View()).(sched := Unblock(old(View()).sched, pid).0)
    {
      var _ := procs.UnblockProcess(pid);
    }
  }
}
