/**
  What else a kill does. kill_process closes the process's pipes and wakes a parent that waits for it
  after marking the process a zombie and before counting it out and entering the scheduler. In a run
  those posts, closes and wake-ups stand as steps before the kill; here the two orders come out equal.
 */
module KernelKills {
  import opened Processes
  import opened SchedulerSafety
  import Semaphores
  import opened Kernel
  import opened KernelRuns

  /** The first thing a kill does. */
  function Marked(s: Sched, pid: int): Sched
    requires ValidPid(s.table, pid)
  {
    SetPcb(s, pid, s.table[pid].pcb.(state := ZOMBIE))
  }

  /** The last things it does: the process is counted out, and last_wish enters the scheduler. */
  function Buried(s: Sched, pid: int): Sched
    requires WellFormed(s) && ValidPid(s.table, pid)
  {
    Schedule(SetPcb(s, pid, s.table[pid].pcb.(yielding := true)).(active := s.active - 1))
  }

  /** What a kill does in between: semaphore calls that do not block, and the wake-up of the parent. */
  ghost predicate Between(k: KernelState, e: Event, pid: int) {
    Admitted(k, e) &&
    match e
    case PostCall(name) => PostWakes(k, name) != pid
    case CloseCall(_) => true
    case UnblockCall(parent) => parent != pid
    case WaitCall(name) => var i := Semaphores.Find(k.sems, name); i >= 0 ==> k.sems[i].value > 0
    case _ => false
  }

  ghost predicate AllBetween(k: KernelState, es: seq<Event>, pid: int)
    requires Base(k)
    decreases |es|
  {
    es == [] || (Between(k, es[0], pid) && (StepKeepsBase(k, es[0]); AllBetween(Apply(k, es[0]), es[1..], pid)))
  }

  predicate SideWork(e: Event) {
    e.PostCall? || e.CloseCall? || e.UnblockCall? || e.WaitCall?
  }

  /** The state after a kill's steps in between, taken after the mark, as the code orders them. */
  ghost function InOrder(k: KernelState, es: seq<Event>): (r: KernelState)
    requires WellFormed(k.sched) && forall e | e in es :: SideWork(e)
    ensures WellFormed(r.sched)
    decreases |es|
  {
    if es == [] then k else (StaysWellFormed(k, es[0]); InOrder(Apply(k, es[0]), es[1..]))
  }

  lemma StaysWellFormed(k: KernelState, e: Event)
    requires WellFormed(k.sched) && SideWork(e)
    ensures WellFormed(Apply(k, e).sched)
  {
  }

  /** Marking a process and one of the steps in between can be taken in either order. */
  lemma MarkCommutes(k: KernelState, e: Event, pid: int)
    requires Base(k) && Between(k, e, pid) && ValidPid(k.sched.table, pid)
    ensures var r := Apply(k, e);
      && ValidPid(r.sched.table, pid) && r.sched.table[pid] == k.sched.table[pid]
      && Apply(k.(sched := Marked(k.sched, pid)), e) == r.(sched := Marked(r.sched, pid))
  {
    hide Semaphores.Find, AtRest, Block, GetPid;
  }

  lemma MarkedWellFormed(k: KernelState, pid: int)
    requires Base(k) && ValidPid(k.sched.table, pid)
    ensures WellFormed(k.sched) && WellFormed(Marked(k.sched, pid)) && ValidPid(Marked(k.sched, pid).table, pid)
  {
  }

  lemma {:induction false} MarkFirst(k: KernelState, es: seq<Event>, pid: int)
    requires Base(k) && AllBetween(k, es, pid) && ValidPid(k.sched.table, pid)
    ensures Legal(k, es) && WellFormed(Marked(k.sched, pid)) && forall e | e in es :: SideWork(e)
    ensures var r := Run(k, es);
      && ValidPid(r.sched.table, pid) && r.sched.table[pid] == k.sched.table[pid]
      && InOrder(k.(sched := Marked(k.sched, pid)), es) == r.(sched := Marked(r.sched, pid))
    decreases |es|
  {
    MarkedWellFormed(k, pid);
    if es != [] {
      BetweenIsSideWork(k, es[0], pid);
      hide Base, Apply, Between, Admitted, Marked, SideWork;
      StepKeepsBase(k, es[0]);
      MarkCommutes(k, es[0], pid);
      MarkFirst(Apply(k, es[0]), es[1..], pid);
    }
  }

  lemma BetweenIsSideWork(k: KernelState, e: Event, pid: int)
    requires Between(k, e, pid)
    ensures SideWork(e) && Admitted(k, e)
  {
  }

  /** kill_process with its pipes and its parent, in the code's order, ends like the run that puts those first. */
  lemma KillInOrder(k: KernelState, es: seq<Event>, pid: int)
    requires Base(k) && AllBetween(k, es, pid) && ValidPid(k.sched.table, pid) && k.sched.table[pid].pcb.state != ZOMBIE
    ensures Legal(k, es) && WellFormed(Marked(k.sched, pid)) && forall e | e in es :: SideWork(e)
    ensures WellFormed(Run(k, es).sched)
    ensures var marked := InOrder(k.(sched := Marked(k.sched, pid)), es);
      && ValidPid(marked.sched.table, pid)
      && marked.(sched := Buried(marked.sched, pid)) == Apply(Run(k, es), KillCall(pid))
  {
    MarkFirst(k, es, pid);
    var r := Run(k, es);
    MarkedWellFormed(r, pid);
    hide Run, Legal, InOrder, AllBetween, Base;
    KillIsMarkAndBury(r.sched, pid);
  }

  lemma KillIsMarkAndBury(s: Sched, pid: int)
    requires WellFormed(s) && ValidPid(s.table, pid) && s.table[pid].pcb.state != ZOMBIE
    ensures WellFormed(Marked(s, pid)) && ValidPid(Marked(s, pid).table, pid)
    ensures Kill(s, pid).0 == Buried(Marked(s, pid), pid)
  {
    hide Schedule;
    var p := s.table[pid].pcb;
    assert Marked(s, pid).table[pid := Proc(p.(state := ZOMBIE, yielding := true))] == s.table[pid := Proc(p.(state := ZOMBIE, yielding := true))];
  }
}
