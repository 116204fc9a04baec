/**
  The program of TestSync on the kernel: its workers are processes with pids of their own, only the one
  the scheduler has made RUNNING acts, by memory accesses and system calls, and the timer, the keyboard
  and other processes take kernel steps in between. Every such run is a run of the program, so what is
  proved of the program in TestSync holds there.
 */
module SyncOnKernel {
  import opened Processes
  import opened Kernel
  import opened KernelRuns
  import opened KernelClients
  import opened Semaphores
  import TestSync
  import Sums

  const SEM_ID := TestSync.SEM_ID

  /** The kernel, the workers (worker w is the process pids[w]) and their shared variable. */
  datatype Machine = Machine(k: KernelState, workers: seq<TestSync.Worker>, global: int)

  /** The running worker acts, or the kernel takes a step of another process, an interrupt, or a yield. */
  datatype Step = Act(w: nat) | System(e: Event)

  function Goto(s: Machine, w: nat, pc: TestSync.Pc): Machine
    requires w < |s.workers|
  {
    s.(workers := s.workers[w := s.workers[w].(pc := pc)])
  }

  /** What worker w does next, going by the result codes of its system calls. */
  function ActOf(n: nat, s: Machine, w: nat): Machine
    requires w < |s.workers| && WellFormed(s.k.sched)
  {
    match s.workers[w].pc
    case Opening =>
      var r := Open(s.k.sems, SEM_ID, 1).1;
      Goto(s.(k := Apply(s.k, OpenCall(SEM_ID, 1))), w, if r == -2 then TestSync.Failed else TestSync.AtWait(0))
    case AtWait(i) =>
      var r := SemWait(s.k, SEM_ID).1;
      Goto(s.(k := Apply(s.k, WaitCall(SEM_ID))), w, if r != 0 then TestSync.Failed else TestSync.AtRead(i))
    case AtRead(i) => Goto(s, w, TestSync.AtWrite(i, s.global))
    case AtWrite(i, aux) => Goto(s.(global := TestSync.Wrap(aux + s.workers[w].inc)), w, TestSync.AtPost(i))
    case AtPost(i) =>
      var r := SemPost(s.k, SEM_ID).1;
      Goto(s.(k := Apply(s.k, PostCall(SEM_ID))), w, if r != 0 then TestSync.Failed else TestSync.AfterRound(n, true, i))
    case AtClose =>
      var r := Close(s.k.sems, SEM_ID).1;
      Goto(s.(k := Apply(s.k, CloseCall(SEM_ID))), w, if r != 0 then TestSync.Failed else TestSync.Exited)
    case _ => s
  }

  /** The system call that worker w makes next, if it makes one. */
  function CallOf(pc: TestSync.Pc): seq<Event> {
    match pc
    case Opening => [OpenCall(SEM_ID, 1)]
    case AtWait(_) => [WaitCall(SEM_ID)]
    case AtPost(_) => [PostCall(SEM_ID)]
    case AtClose => [CloseCall(SEM_ID)]
    case _ => []
  }

  function Do(n: nat, s: Machine, step: Step): Machine
    requires WellFormed(s.k.sched) && (step.Act? ==> step.w < |s.workers|)
  {
    match step
    case Act(w) => ActOf(n, s, w)
    case System(e) => s.(k := Apply(s.k, e))
  }

  /** Other steps never name this semaphore, and while it does not exist they leave a slot for it. */
  ghost predicate Spares(k: KernelState, e: Event)
    requires WellFormed(k.sched)
  {
    match e
    case OpenCall(name, _) => name != SEM_ID && (Find(k.sems, SEM_ID) < 0 ==> FindClosed(Apply(k, e).sems) >= 0)
    case WaitCall(name) => name != SEM_ID
    case PostCall(name) => name != SEM_ID
    case CloseCall(name) => name != SEM_ID
    case _ => true
  }

  ghost predicate Fits(pids: seq<int>, s: Machine, step: Step)
    requires WellFormed(s.k.sched) && |pids| == |s.workers|
  {
    match step
    case Act(w) => w < |pids| && s.k.sched.current == pids[w]
    case System(e) => Enabled(s.k, e) && Spares(s.k, e)
  }

  // ---- The program behind the machine ----

  function Project(pids: seq<int>, s: Machine): TestSync.World {
    TestSync.World(RenamedSems(pids, s.k.sems), s.workers, s.global)
  }

  function MoveOf(pids: seq<int>, s: Machine, step: Step): TestSync.Move
    requires WellFormed(s.k.sched)
  {
    match step
    case Act(w) => TestSync.Work(w)
    case System(e) => TestSync.Others(RenamedSems(pids, Apply(s.k, e).sems))
  }

  // ---- One step ----

  /** What every step keeps: the kernel's invariant, and the program's. */
  ghost predicate Good(n: nat, pids: seq<int>, s: Machine) {
    && Inv(s.k) && PidsOk(pids, s.k.sched.idle) && |pids| == |s.workers|
    && TestSync.Inv(n, Project(pids, s))
  }

  /** A worker waits in the program exactly when its process is queued on the kernel's semaphore. */
  ghost predicate WaitsIn(k: KernelState, pid: int) {
    var i := Find(k.sems, SEM_ID);
    i >= 0 && pid in k.sems[i].queue
  }

  lemma WaitingIs(pids: seq<int>, s: Machine, w: nat)
    requires PidsOk(pids, s.k.sched.idle) && |pids| == |s.workers| && w < |pids|
    ensures TestSync.Waiting(Project(pids, s).sems, w) <==> WaitsIn(s.k, pids[w])
  {
    FindRenamed(pids, s.k.sems, SEM_ID, 0);
    hide Find;
    var i := Find(s.k.sems, SEM_ID);
    if i >= 0 {
      var q, r := s.k.sems[i].queue, Project(pids, s).sems[i].queue;
      IndexOfPid(pids, s.k.sched.idle, w);
      assert forall a | 0 <= a < |q| :: r[a] == IndexOf(pids, q[a]);
      if a :| 0 <= a < |q| && q[a] == pids[w] {
        assert r[a] == w;
      }
    }
  }

  /** sem_wait by worker w and sem_post, seen through the renaming. */
  lemma WaitRenamed(pids: seq<int>, k: KernelState, w: nat)
    requires WellFormed(k.sched) && GetPid(k.sched.table) >= 0 && IndexOf(pids, GetPid(k.sched.table)) == w
    ensures var i, r := Find(k.sems, SEM_ID), SemWait(k, SEM_ID);
      && (r.1 != 0 <==> i < 0)
      && RenamedSems(pids, r.0.sems) ==
           if i < 0 then RenamedSems(pids, k.sems)
           else RenamedSems(pids, k.sems)[i := Down(RenamedSems(pids, k.sems)[i], w).0]
  {
    hide Find, Down, Block, GetPid, RenamedSems, RenamedSem, IndexOf;
    var i := Find(k.sems, SEM_ID);
    if i >= 0 {
      RenamedAt(pids, k.sems, i);
      DownRenamed(pids, k.sems[i], GetPid(k.sched.table));
      SlotRenamed(pids, k.sems, i, Down(k.sems[i], GetPid(k.sched.table)).0);
    }
  }

  lemma PostRenamed(pids: seq<int>, k: KernelState)
    ensures var i, r := Find(k.sems, SEM_ID), SemPost(k, SEM_ID);
      && (r.1 != 0 <==> i < 0)
      && RenamedSems(pids, r.0.sems) ==
           if i < 0 then RenamedSems(pids, k.sems)
           else RenamedSems(pids, k.sems)[i := Up(RenamedSems(pids, k.sems)[i]).0]
  {
    hide Find, Up, Unblock, RenamedSems, RenamedSem;
    var i := Find(k.sems, SEM_ID);
    if i >= 0 {
      RenamedAt(pids, k.sems, i);
      UpRenamed(pids, k.sems[i]);
      SlotRenamed(pids, k.sems, i, Up(k.sems[i]).0);
    }
  }

  /** The running worker may move in the program. */
  lemma ActAllowed(n: nat, pids: seq<int>, s: Machine, w: nat)
    requires Good(n, pids, s) && w < |pids| && s.k.sched.current == pids[w] && s.k.sched.current >= 0
    ensures TestSync.Allowed(Project(pids, s), TestSync.Work(w))
  {
    RunningNotQueued(s.k);
    hide Find, TestSync.Inv, TestSync.Waiting;
    WaitingIs(pids, s, w);
  }

  /** What the running worker does on the kernel is its move in the program. */
  lemma ActSimulates(n: nat, pids: seq<int>, s: Machine, w: nat)
    requires WellFormed(s.k.sched) && w < |s.workers|
    requires GetPid(s.k.sched.table) >= 0 && IndexOf(pids, GetPid(s.k.sched.table)) == w
    ensures Project(pids, ActOf(n, s, w)) == TestSync.WorkerStep(n, true, Project(pids, s), w)
  {
    hide Find, Open, Close, Down, Up, SemWait, SemPost, GetPid, RenamedSems, IndexOf, WellFormed, TestSync.Wrap;
    FindRenamed(pids, s.k.sems, SEM_ID, 0);
    match s.workers[w].pc
    case Opening => OpenRenamed(pids, s.k.sems, SEM_ID, 1);
    case AtWait(_) => WaitRenamed(pids, s.k, w);
    case AtPost(_) => PostRenamed(pids, s.k);
    case AtClose => CloseRenamed(pids, s.k.sems, SEM_ID);
    case _ =>
  }

  /** The system call it makes is a step the kernel allows: in particular there is room in the queue. */
  lemma ActEnabled(n: nat, pids: seq<int>, s: Machine, w: nat)
    requires Good(n, pids, s) && w < |pids| && s.k.sched.current == pids[w]
    ensures forall e | e in CallOf(s.workers[w].pc) :: Enabled(s.k, e)
  {
    assert pids[w] in pids;
    if s.workers[w].pc.AtWait? {
      FindRenamed(pids, s.k.sems, SEM_ID, 0);
      hide Find, Inv, TestSync.Inv;
      TestSync.QueueHasRoom(n, Project(pids, s), w);
      var i := Find(s.k.sems, SEM_ID);
      RenamedAt(pids, s.k.sems, i);
      assert Enabled(s.k, WaitCall(SEM_ID));
    }
  }

  /** A step that does not name the semaphore leaves its slot alone, and leaves a slot for it. */
  lemma SystemSpares(k: KernelState, e: Event)
    requires Base(k) && WellFormed(k.sched) && Admitted(k, e) && Spares(k, e)
    requires var i := Find(k.sems, SEM_ID); TestSync.OnlyAt(k.sems, i) && (i < 0 ==> FindClosed(k.sems) >= 0)
    ensures var i, after := Find(k.sems, SEM_ID), Apply(k, e).sems;
      && |after| == |k.sems| && TestSync.OnlyAt(after, i)
      && (if i >= 0 then after[i] == k.sems[i] else FindClosed(after) >= 0)
  {
    hide Find, FindClosed, Base, Schedule, Yield, Block, Unblock, Kill, BeNice, Create, GetPid;
    var j := FindClosed(k.sems);
    if Find(k.sems, SEM_ID) < 0 && !e.OpenCall? {
      assert !Apply(k, e).sems[j].open;
    }
  }

  /** Any other step is one of the program's moves of others. */
  lemma SystemSimulates(n: nat, pids: seq<int>, s: Machine, e: Event)
    requires Good(n, pids, s) && Enabled(s.k, e)
    ensures WellFormed(s.k.sched)
    ensures Spares(s.k, e) ==>
      var m := MoveOf(pids, s, System(e));
      && TestSync.Allowed(Project(pids, s), m)
      && Project(pids, Do(n, s, System(e))) == TestSync.Do(n, true, Project(pids, s), m)
  {
    InvBase(s.k);
    if Spares(s.k, e) {
      OnlyAtRenamed(n, pids, s);
      SystemSpares(s.k, e);
      hide Apply, Good, Enabled, Admitted, Spares, Find, FindClosed;
      OthersAllowed(pids, s, Apply(s.k, e).sems);
    }
  }

  /** A table in which only other slots have changed is a move of others. */
  lemma OthersAllowed(pids: seq<int>, s: Machine, after: seq<Sem>)
    requires var i := Find(s.k.sems, SEM_ID);
      && |after| == |s.k.sems| && TestSync.OnlyAt(after, i)
      && (if i >= 0 then after[i] == s.k.sems[i] else FindClosed(after) >= 0)
    ensures TestSync.Allowed(Project(pids, s), TestSync.Others(RenamedSems(pids, after)))
  {
    FindRenamed(pids, s.k.sems, SEM_ID, 0);
    FindClosedRenamed(pids, after, 0);
    hide Find, FindClosed;
  }

  /** What the program's invariant says of the slot of the semaphore, said of the kernel's table. */
  lemma OnlyAtRenamed(n: nat, pids: seq<int>, s: Machine)
    requires Good(n, pids, s)
    ensures var i := Find(s.k.sems, SEM_ID); TestSync.OnlyAt(s.k.sems, i) && (i < 0 ==> FindClosed(s.k.sems) >= 0)
  {
    hide Inv, Find, FindClosed;
    FindRenamed(pids, s.k.sems, SEM_ID, 0);
    FindClosedRenamed(pids, s.k.sems, 0);
    var i, sems := Find(s.k.sems, SEM_ID), Project(pids, s).sems;
    forall j | 0 <= j < |s.k.sems| && j != i
      ensures !Named(s.k.sems[j], SEM_ID)
    {
      assert !Named(sems[j], SEM_ID);
    }
  }

  /** Every step keeps both invariants and is a step of the kernel and a move of the program. */
  lemma StepKeeps(n: nat, pids: seq<int>, s: Machine, step: Step)
    requires Good(n, pids, s)
    ensures WellFormed(s.k.sched)
    ensures Fits(pids, s, step) ==>
      && (forall e | e in EventsOf(s, step) :: Enabled(s.k, e))
      && Do(n, s, step).k == (if EventsOf(s, step) == [] then s.k else Apply(s.k, EventsOf(s, step)[0]))
      && TestSync.Allowed(Project(pids, s), MoveOf(pids, s, step))
      && Project(pids, Do(n, s, step)) == TestSync.Do(n, true, Project(pids, s), MoveOf(pids, s, step))
      && Good(n, pids, Do(n, s, step))
  {
    InvBase(s.k);
    if Fits(pids, s, step) {
      match step
      case Act(w) => ActKeeps(n, pids, s, w);
      case System(e) => SystemKeeps(n, pids, s, e);
    }
  }

  /** The system call of a step, if it makes one: a step of the kernel. */
  function EventsOf(s: Machine, step: Step): seq<Event> {
    match step
    case Act(w) => if w < |s.workers| then CallOf(s.workers[w].pc) else []
    case System(e) => [e]
  }

  lemma ActKeeps(n: nat, pids: seq<int>, s: Machine, w: nat)
    requires Good(n, pids, s) && w < |pids| && s.k.sched.current == pids[w]
    ensures WellFormed(s.k.sched)
    ensures forall e | e in CallOf(s.workers[w].pc) :: Enabled(s.k, e)
    ensures var t := ActOf(n, s, w);
      && t.k == (if CallOf(s.workers[w].pc) == [] then s.k else Apply(s.k, CallOf(s.workers[w].pc)[0]))
      && TestSync.Allowed(Project(pids, s), TestSync.Work(w))
      && Project(pids, t) == TestSync.WorkerStep(n, true, Project(pids, s), w)
      && Good(n, pids, t)
  {
    InvBase(s.k);
    PidHere(pids, s, w);
    ActEnabled(n, pids, s, w);
    ActAllowed(n, pids, s, w);
    ActSimulates(n, pids, s, w);
    ActOnKernel(n, s, w);
    hide Inv, TestSync.Inv, ActOf, Apply, Enabled, Project, TestSync.WorkerStep, TestSync.Allowed;
    TestSync.MoveKeeps(n, Project(pids, s), TestSync.Work(w));
    var call := CallOf(s.workers[w].pc);
    if call != [] {
      KernelStep(s.k, call[0]);
    }
  }

  lemma ActOnKernel(n: nat, s: Machine, w: nat)
    requires WellFormed(s.k.sched) && w < |s.workers|
    ensures var call := CallOf(s.workers[w].pc);
      && ActOf(n, s, w).k == (if call == [] then s.k else Apply(s.k, call[0])) && |ActOf(n, s, w).workers| == |s.workers|
  {
    hide Apply;
  }

  lemma PidHere(pids: seq<int>, s: Machine, w: nat)
    requires Inv(s.k) && PidsOk(pids, s.k.sched.idle) && w < |pids| && s.k.sched.current == pids[w]
    ensures s.k.sched.current >= 0 && GetPid(s.k.sched.table) == s.k.sched.current
    ensures IndexOf(pids, s.k.sched.current) == w
  {
    assert pids[w] in pids;
    RunningNotQueued(s.k);
    IndexOfPid(pids, s.k.sched.idle, w);
  }

  lemma SystemKeeps(n: nat, pids: seq<int>, s: Machine, e: Event)
    requires Good(n, pids, s) && Enabled(s.k, e)
    ensures WellFormed(s.k.sched)
    ensures Spares(s.k, e) ==>
      var m := MoveOf(pids, s, System(e));
      && TestSync.Allowed(Project(pids, s), m)
      && Project(pids, Do(n, s, System(e))) == TestSync.Do(n, true, Project(pids, s), m)
      && Good(n, pids, Do(n, s, System(e)))
  {
    SystemSimulates(n, pids, s, e);
    KernelStep(s.k, e);
    hide Inv, TestSync.Inv, Apply, Enabled, Spares, Project, TestSync.Do, TestSync.Allowed;
    if Spares(s.k, e) {
      TestSync.MoveKeeps(n, Project(pids, s), MoveOf(pids, s, System(e)));
    }
  }

  // ---- Whole runs ----

  ghost predicate Possible(n: nat, pids: seq<int>, s: Machine, steps: seq<Step>)
    requires Good(n, pids, s)
    decreases |steps|
  {
    steps == [] ||
    (StepKeeps(n, pids, s, steps[0]);
     Fits(pids, s, steps[0]) && Possible(n, pids, Do(n, s, steps[0]), steps[1..]))
  }

  ghost function After(n: nat, pids: seq<int>, s: Machine, steps: seq<Step>): (t: Machine)
    requires Good(n, pids, s) && Possible(n, pids, s, steps)
    ensures Good(n, pids, t)
    decreases |steps|
  {
    if steps == [] then s else (StepKeeps(n, pids, s, steps[0]); After(n, pids, Do(n, s, steps[0]), steps[1..]))
  }

  /** The kernel's steps in a run, and the program's moves. */
  ghost function Events(n: nat, pids: seq<int>, s: Machine, steps: seq<Step>): seq<Event>
    requires Good(n, pids, s) && Possible(n, pids, s, steps)
    decreases |steps|
  {
    if steps == [] then [] else
      StepKeeps(n, pids, s, steps[0]);
      EventsOf(s, steps[0]) + Events(n, pids, Do(n, s, steps[0]), steps[1..])
  }

  ghost function Moves(n: nat, pids: seq<int>, s: Machine, steps: seq<Step>): seq<TestSync.Move>
    requires Good(n, pids, s) && Possible(n, pids, s, steps)
    decreases |steps|
  {
    if steps == [] then [] else
      StepKeeps(n, pids, s, steps[0]);
      [MoveOf(pids, s, steps[0])] + Moves(n, pids, Do(n, s, steps[0]), steps[1..])
  }

  lemma GoodBase(n: nat, pids: seq<int>, s: Machine)
    requires Good(n, pids, s)
    ensures Base(s.k) && WellFormed(s.k.sched)
  {
    InvBase(s.k);
  }

  /** A run is its first step and the rest. */
  lemma RunFirst(n: nat, pids: seq<int>, s: Machine, steps: seq<Step>)
    requires Good(n, pids, s) && Possible(n, pids, s, steps) && steps != []
    ensures WellFormed(s.k.sched) && |pids| == |s.workers| && Fits(pids, s, steps[0])
    ensures steps[0].Act? ==> steps[0].w < |s.workers|
    ensures var t := Do(n, s, steps[0]);
      && Good(n, pids, t) && Possible(n, pids, t, steps[1..])
      && After(n, pids, s, steps) == After(n, pids, t, steps[1..])
      && Events(n, pids, s, steps) == EventsOf(s, steps[0]) + Events(n, pids, t, steps[1..])
      && Moves(n, pids, s, steps) == [MoveOf(pids, s, steps[0])] + Moves(n, pids, t, steps[1..])
  {
    GoodBase(n, pids, s);
    SameLength(n, pids, s);
    StepKeeps(n, pids, s, steps[0]);
    ActorExists(pids, s, steps[0]);
    hide Good, Fits, EventsOf, MoveOf, Do;
  }

  lemma ActorExists(pids: seq<int>, s: Machine, step: Step)
    requires WellFormed(s.k.sched) && |pids| == |s.workers|
    ensures Fits(pids, s, step) && step.Act? ==> step.w < |s.workers|
  {
  }

  lemma SameLength(n: nat, pids: seq<int>, s: Machine)
    requires Good(n, pids, s)
    ensures |pids| == |s.workers|
  {
  }

  /** A run of the machine is a legal, orderly run of the kernel. */
  lemma {:induction false} RunsOnKernel(n: nat, pids: seq<int>, s: Machine, steps: seq<Step>)
    requires Good(n, pids, s) && Possible(n, pids, s, steps)
    ensures Base(s.k)
    ensures var es := Events(n, pids, s, steps);
      Legal(s.k, es) && Orderly(s.k, es) && Run(s.k, es) == After(n, pids, s, steps).k
    decreases |steps|
  {
    GoodBase(n, pids, s);
    hide Good, Base, Do, Apply, Fits, EventsOf;
    if steps != [] {
      RunFirst(n, pids, s, steps);
      StepKeeps(n, pids, s, steps[0]);
      var t, es := Do(n, s, steps[0]), EventsOf(s, steps[0]);
      hide Possible, After, Events, Legal, Orderly, Run;
      RunsOnKernel(n, pids, t, steps[1..]);
      AtMostOne(s, steps[0]);
      OneOrNone(s.k, t.k, es, Events(n, pids, t, steps[1..]));
    }
  }

  lemma AtMostOne(s: Machine, step: Step)
    ensures |EventsOf(s, step)| <= 1
  {
  }

  lemma OneOrNone(k: KernelState, l: KernelState, es: seq<Event>, rest: seq<Event>)
    requires Base(k) && Base(l) && WellFormed(k.sched) && |es| <= 1 && (forall e | e in es :: Enabled(k, e))
    requires l == if es == [] then k else Apply(k, es[0])
    requires Legal(l, rest) && Orderly(l, rest)
    ensures Legal(k, es + rest) && Orderly(k, es + rest) && Run(k, es + rest) == Run(l, rest)
  {
    hide Base, Apply, Enabled, Legal, Orderly, Run;
    if es == [] {
      assert es + rest == rest;
    } else {
      assert es == [es[0]];
      OneMore(k, es[0], rest);
    }
  }

  /** A run of the machine is a run of the program. */
  lemma {:induction false} RunsProgram(n: nat, pids: seq<int>, s: Machine, steps: seq<Step>)
    requires Good(n, pids, s) && Possible(n, pids, s, steps)
    ensures var ms := Moves(n, pids, s, steps);
      && TestSync.Possible(n, true, Project(pids, s), ms)
      && TestSync.After(n, true, Project(pids, s), ms) == Project(pids, After(n, pids, s, steps))
    decreases |steps|
  {
    hide Good, Do, Fits, Project, TestSync.Do, TestSync.Allowed, MoveOf;
    if steps != [] {
      RunFirst(n, pids, s, steps);
      StepKeeps(n, pids, s, steps[0]);
      var t := Do(n, s, steps[0]);
      hide Possible, After, Moves;
      RunsProgram(n, pids, t, steps[1..]);
      var m, rest := MoveOf(pids, s, steps[0]), Moves(n, pids, t, steps[1..]);
      assert ([m] + rest)[0] == m && ([m] + rest)[1..] == rest;
    }
  }

  /** Any reachable state of the kernel in which the semaphore does not exist and no worker has begun. */
  ghost predicate Initial(pids: seq<int>, s: Machine) {
    && Inv(s.k) && PidsOk(pids, s.k.sched.idle) && |pids| == |s.workers| <= PROCESSES_BLOCKED + 1
    && Find(s.k.sems, SEM_ID) == -1 && FindClosed(s.k.sems) >= 0
    && (forall w | w in s.workers :: w.pc == TestSync.Opening) && s.global == 0
  }

  lemma InitialGood(n: nat, pids: seq<int>, s: Machine)
    requires n > 0 && Initial(pids, s)
    ensures TestSync.Initial(Project(pids, s)) && Good(n, pids, s)
  {
    hide Inv, Find, FindClosed, TestSync.Inv;
    FindRenamed(pids, s.k.sems, SEM_ID, 0);
    FindClosedRenamed(pids, s.k.sems, 0);
    TestSync.InitialInv(n, Project(pids, s));
  }

  /**
    On every run of the kernel that the workers take part in: of two workers between sem_wait and
    sem_post at least one is held on the kernel's queue, and no system call of a worker fails.
   */
  lemma MutualExclusion(n: nat, pids: seq<int>, s: Machine, steps: seq<Step>, w: nat, v: nat)
    requires n > 0 && Initial(pids, s)
    ensures Good(n, pids, s)
    ensures Possible(n, pids, s, steps) && w < |pids| && v < |pids| ==>
      var t := After(n, pids, s, steps);
      && |t.workers| == |pids| && t.workers[w].pc != TestSync.Failed
      && (w != v && TestSync.InRound(t.workers[w].pc) && TestSync.InRound(t.workers[v].pc) ==>
            WaitsIn(t.k, pids[w]) || WaitsIn(t.k, pids[v]))
  {
    InitialGood(n, pids, s);
    if Possible(n, pids, s, steps) && w < |pids| && v < |pids| {
      RunsProgram(n, pids, s, steps);
      hide Possible, After, Moves, Inv, TestSync.Inv, TestSync.Possible, TestSync.After, Initial, TestSync.Initial;
      var t := After(n, pids, s, steps);
      TestSync.MutualExclusion(n, Project(pids, s), Moves(n, pids, s, steps), w, v);
      WaitingIs(pids, t, w);
      WaitingIs(pids, t, v);
    }
  }

  /** On every run of the kernel after which all workers have exited, no update is lost. */
  lemma NothingLost(n: nat, pids: seq<int>, s: Machine, steps: seq<Step>)
    requires n > 0 && Initial(pids, s)
    ensures Good(n, pids, s)
    ensures Possible(n, pids, s, steps) && (forall w | w in After(n, pids, s, steps).workers :: w.pc == TestSync.Exited) ==>
      var total := Sums.Sum(s.workers, TestSync.IncOf());
      && After(n, pids, s, steps).global == TestSync.Wrap(n * total)
      && (total == 0 ==> After(n, pids, s, steps).global == 0)
  {
    InitialGood(n, pids, s);
    if Possible(n, pids, s, steps) && forall w | w in After(n, pids, s, steps).workers :: w.pc == TestSync.Exited {
      RunsProgram(n, pids, s, steps);
      TestSync.NothingLost(n, Project(pids, s), Moves(n, pids, s, steps));
    }
  }
}
