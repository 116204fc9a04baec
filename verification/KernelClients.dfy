/**
  What programs on the kernel have in common. A program's model numbers its processes from 0, and on the
  kernel they have pids; renaming the queues from one to the other commutes with every semaphore call.
 */
module KernelClients {
  import opened Processes
  import opened Kernel
  import opened KernelRuns
  import opened Semaphores

  /** The client process with this pid, or -1. */
  function IndexOf(pids: seq<int>, p: int): (r: int)
    ensures r == -1 || (0 <= r < |pids| && pids[r] == p)
    ensures r == -1 <==> p !in pids
  {
    if pids == [] then -1
    else if pids[|pids| - 1] == p then |pids| - 1
    else IndexOf(pids[..|pids| - 1], p)
  }

  ghost predicate PidsOk(pids: seq<int>, idle: int) {
    (forall i, j | 0 <= i < j < |pids| :: pids[i] != pids[j]) && (forall p | p in pids :: p >= 0 && p != idle)
  }

  lemma IndexOfPid(pids: seq<int>, idle: int, w: nat)
    requires PidsOk(pids, idle) && w < |pids|
    ensures IndexOf(pids, pids[w]) == w
  {
  }

  /** A queue with clients in place of their pids. */
  function Renamed(pids: seq<int>, q: seq<int>): (r: seq<int>)
    ensures |r| == |q|
  {
    seq(|q|, i requires 0 <= i < |q| => IndexOf(pids, q[i]))
  }

  function RenamedSem(pids: seq<int>, s: Sem): Sem { s.(queue := Renamed(pids, s.queue)) }

  function RenamedSems(pids: seq<int>, sems: seq<Sem>): (r: seq<Sem>)
    ensures |r| == |sems|
  {
    seq(|sems|, i requires 0 <= i < |sems| => RenamedSem(pids, sems[i]))
  }

  // ---- The semaphore operations do not mind the renaming ----

  lemma {:induction false} FindRenamed(pids: seq<int>, sems: seq<Sem>, name: string, from: nat)
    requires from <= |sems|
    ensures Find(RenamedSems(pids, sems), name, from) == Find(sems, name, from)
    decreases |sems| - from
  {
    if from < |sems| {
      FindRenamed(pids, sems, name, from + 1);
    }
  }

  lemma {:induction false} FindClosedRenamed(pids: seq<int>, sems: seq<Sem>, from: nat)
    requires from <= |sems|
    ensures FindClosed(RenamedSems(pids, sems), from) == FindClosed(sems, from)
    decreases |sems| - from
  {
    if from < |sems| {
      FindClosedRenamed(pids, sems, from + 1);
    }
  }

  lemma SlotRenamed(pids: seq<int>, sems: seq<Sem>, i: nat, s: Sem)
    requires i < |sems|
    ensures RenamedSems(pids, sems[i := s]) == RenamedSems(pids, sems)[i := RenamedSem(pids, s)]
  {
  }

  lemma OpenRenamed(pids: seq<int>, sems: seq<Sem>, name: string, value: nat)
    ensures Open(RenamedSems(pids, sems), name, value) ==
      (RenamedSems(pids, Open(sems, name, value).0), Open(sems, name, value).1)
  {
    FindRenamed(pids, sems, name, 0);
    FindClosedRenamed(pids, sems, 0);
    hide Find, FindClosed, RenamedSems;
    var i, j := Find(sems, name), FindClosed(sems);
    if i >= 0 {
      RenamedAt(pids, sems, i);
      SlotRenamed(pids, sems, i, sems[i].(openings := sems[i].openings + 1));
    } else if j >= 0 {
      SlotRenamed(pids, sems, j, Sem(Stored(name), true, Signed(value), [], 1));
      assert Renamed(pids, []) == [];
    }
  }

  lemma RenamedAt(pids: seq<int>, sems: seq<Sem>, i: nat)
    requires i < |sems|
    ensures RenamedSems(pids, sems)[i] == RenamedSem(pids, sems[i])
  {
  }

  lemma CloseRenamed(pids: seq<int>, sems: seq<Sem>, name: string)
    ensures Close(RenamedSems(pids, sems), name) == (RenamedSems(pids, Close(sems, name).0), Close(sems, name).1)
  {
    FindRenamed(pids, sems, name, 0);
    hide Find, RenamedSems;
    var i := Find(sems, name);
    if i >= 0 {
      RenamedAt(pids, sems, i);
      SlotRenamed(pids, sems, i, Close(sems, name).0[i]);
    }
  }

  lemma DownRenamed(pids: seq<int>, s: Sem, pid: int)
    ensures Down(RenamedSem(pids, s), IndexOf(pids, pid)).0 == RenamedSem(pids, Down(s, pid).0)
  {
    assert Renamed(pids, s.queue + [pid]) == Renamed(pids, s.queue) + [IndexOf(pids, pid)];
  }

  lemma UpRenamed(pids: seq<int>, s: Sem)
    ensures Up(RenamedSem(pids, s)).0 == RenamedSem(pids, Up(s).0)
  {
    if s.queue != [] {
      assert Renamed(pids, s.queue[1..]) == Renamed(pids, s.queue)[1..];
    }
  }

  // ---- The kernel's side ----

  /** The running process waits for nothing: whoever is on a queue is BLOCKED. */
  lemma RunningNotQueued(k: KernelState)
    requires Inv(k) && k.sched.current >= 0
    ensures GetPid(k.sched.table) == k.sched.current && !Queued(k.sems, k.sched.current)
  {
    RunningNotWaiting(k);
    var pid := k.sched.current;
    forall i, a | 0 <= i < |k.sems| && k.sems[i].open && 0 <= a < |k.sems[i].queue|
      ensures k.sems[i].queue[a] != pid
    {
      var waits := Waiter(k.sched, k.sems[i].queue[a]);
    }
  }

  /** What one enabled step of the kernel keeps. */
  lemma KernelStep(k: KernelState, e: Event)
    requires Inv(k) && Enabled(k, e)
    ensures WellFormed(k.sched) && Inv(Apply(k, e)) && Apply(k, e).sched.idle == k.sched.idle
  {
    InvBase(k);
    StepKeepsInv(k, e);
    SchedSafe(k, e);
  }

  lemma OneMore(k: KernelState, e: Event, rest: seq<Event>)
    requires Base(k) && Enabled(k, e) && WellFormed(k.sched) && Base(Apply(k, e))
    requires Legal(Apply(k, e), rest) && Orderly(Apply(k, e), rest)
    ensures Legal(k, [e] + rest) && Orderly(k, [e] + rest) && Run(k, [e] + rest) == Run(Apply(k, e), rest)
  {
    hide Base, Apply;
    assert ([e] + rest)[1..] == rest;
  }

  lemma FirstStep(k: KernelState, es: seq<Event>)
    requires Base(k) && Legal(k, es) && Orderly(k, es) && es != []
    ensures WellFormed(k.sched) && Enabled(k, es[0]) && Base(Apply(k, es[0]))
    ensures Legal(Apply(k, es[0]), es[1..]) && Orderly(Apply(k, es[0]), es[1..])
    ensures Run(k, es) == Run(Apply(k, es[0]), es[1..])
  {
    BaseWellFormed(k);
    StepKeepsBase(k, es[0]);
    hide Base, Apply;
  }

  lemma {:induction false} TwoKernelRuns(k: KernelState, es: seq<Event>, more: seq<Event>)
    requires Base(k) && Legal(k, es) && Orderly(k, es) && Legal(Run(k, es), more) && Orderly(Run(k, es), more)
    ensures Legal(k, es + more) && Orderly(k, es + more) && Run(k, es + more) == Run(Run(k, es), more)
    decreases |es|
  {
    hide Base, Apply, Enabled, Admitted;
    if es == [] {
      assert es + more == more;
    } else {
      FirstStep(k, es);
      hide Legal, Orderly, Run;
      TwoKernelRuns(Apply(k, es[0]), es[1..], more);
      OneMore(k, es[0], es[1..] + more);
      assert [es[0]] + (es[1..] + more) == es + more;
    }
  }
}
