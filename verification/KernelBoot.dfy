/**
  The kernel from boot: what holds after any run that KernelRuns admits, in terms of the tables alone.
 */
module KernelBoot {
  import opened Processes
  import opened SchedulerSafety
  import opened Semaphores
  import opened Kernel
  import opened KernelRuns

  /** The tables when interrupts are enabled: idle exists, and two semaphores are open. */
  function BootState(): KernelState {
    var sems := Open(Open(seq(MAX_SEMAPHORES, _ => UNUSED), "sem_stdin", 0).0, "GLOBAL_PIPE_TABLE_LOCK", 1).0;
    KernelState(Create(Sched(seq(MAX_PCS, _ => Empty), -1, 0, 0), true, false, true).0, sems)
  }

  lemma OpenKeepsEmptyQueues(sems: seq<Sem>, name: string, value: nat)
    requires value < 0x8000_0000 && forall i | 0 <= i < |sems| && sems[i].open :: sems[i].queue == [] && sems[i].value >= 0
    ensures var after := Open(sems, name, value).0;
      forall i | 0 <= i < |after| && after[i].open :: after[i].queue == [] && after[i].value >= 0
  {
  }

  lemma BootInv()
    ensures Inv(BootState()) && BootState().sched.current == -1
  {
    BootSafe();
    var none := seq(MAX_SEMAPHORES, _ => UNUSED);
    hide Open, Create;
    OpenKeepsEmptyQueues(none, "sem_stdin", 0);
    OpenKeepsEmptyQueues(Open(none, "sem_stdin", 0).0, "GLOBAL_PIPE_TABLE_LOCK", 1);
  }

  /** Somebody is RUNNING from the first tick on. */
  lemma {:induction false} RunsOnceTicked(k: KernelState, es: seq<Event>)
    requires Base(k) && Legal(k, es)
    ensures Run(k, es).sched.current >= 0 <==> k.sched.current >= 0 || Tick in es
    decreases |es|
  {
    if es != [] {
      hide Apply, Base, Admitted;
      StepKeepsBase(k, es[0]);
      SchedSafe(k, es[0]);
      RunsOnceTicked(Apply(k, es[0]), es[1..]);
    }
  }

  /** The process table, told without the invariant. */
  ghost predicate TableOk(s: Sched) {
    var t := s.table;
    && GetPid(t) == s.current && (forall p | Is(t, p, RUNNING) :: p == s.current)
    && s.active == |set p | 0 <= p < |t| && t[p].Proc? && t[p].pcb.state != ZOMBIE|
    && (forall p | ValidPid(t, p) && t[p].pcb.state != ZOMBIE && p != s.idle ::
          t[p].pcb.state == BLOCKED <==> t[p].pcb.blocks > 0)
  }

  /**
    After any run from boot: at most one process is RUNNING, it is current_index and get_pid finds it,
    and there is one once there has been a tick; active_processes is the number of processes that are
    not zombies; and a live process other than idle is BLOCKED iff it has blocks outstanding.
   */
  lemma SafeFromBoot(es: seq<Event>)
    ensures Base(BootState())
    ensures Legal(BootState(), es) ==>
      var s := Run(BootState(), es).sched;
      TableOk(s) && (s.current >= 0 <==> Tick in es)
  {
    BootInv();
    InvBase(BootState());
    if Legal(BootState(), es) {
      RunsOnceTicked(BootState(), es);
      hide BootState, Legal, Run, TableOk;
      BaseTable(Run(BootState(), es));
    }
  }

  lemma BaseTable(k: KernelState)
    requires Base(k)
    ensures TableOk(k.sched)
  {
    OnlyRunning(k.sched);
    assert Alive(k.sched.table) == set p | 0 <= p < |k.sched.table| && k.sched.table[p].Proc? && k.sched.table[p].pcb.state != ZOMBIE;
  }

  /**
    And when nobody kills or wakes a waiter from outside: on each open semaphore the value says how
    many wait, and those who do are BLOCKED, none of them twice and none on another semaphore too.
   */
  lemma WaitersFromBoot(es: seq<Event>)
    ensures Base(BootState())
    ensures Legal(BootState(), es) && Orderly(BootState(), es) ==>
      var k := Run(BootState(), es);
      && (forall i | 0 <= i < |k.sems| && k.sems[i].open :: CountOk(k.sems[i]))
      && (forall i, a {:trigger k.sems[i].queue[a]} | 0 <= i < |k.sems| && k.sems[i].open && 0 <= a < |k.sems[i].queue| ::
            Is(k.sched.table, k.sems[i].queue[a], BLOCKED))
      && Distinct(k.sems)
  {
    BootInv();
    InvBase(BootState());
    if Legal(BootState(), es) && Orderly(BootState(), es) {
      OrderlyKeepsInv(BootState(), es);
      hide BootState, Legal, Run, Orderly;
      InvQueues(Run(BootState(), es));
    }
  }

  lemma InvQueues(k: KernelState)
    requires Inv(k)
    ensures forall i | 0 <= i < |k.sems| && k.sems[i].open :: CountOk(k.sems[i])
    ensures forall i, a {:trigger k.sems[i].queue[a]} | 0 <= i < |k.sems| && k.sems[i].open && 0 <= a < |k.sems[i].queue| ::
      Is(k.sched.table, k.sems[i].queue[a], BLOCKED)
    ensures Distinct(k.sems)
  {
  }
}
