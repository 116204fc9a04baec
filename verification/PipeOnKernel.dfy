/**
  The pipe of PipeRuns on the kernel: its three semaphores are entries of the kernel's table, a move of
  the pipe is the semaphore calls that the running process makes in it, and the timer, the keyboard and
  other processes take kernel steps in between. The two stay in step on every run.
 */
module PipeOnKernel {
  import opened Processes
  import opened Kernel
  import opened KernelRuns
  import opened KernelClients
  import opened Semaphores
  import opened PipeTable
  import P = Pipes
  import PR = PipeRuns
  import PipeEof

  datatype Which = Lock | Items | Space

  /** A call on one of a pipe's semaphores. */
  datatype Op = Wait(x: Which) | Post(x: Which) | Shut(x: Which)

  datatype Three = Three(lock: Sem, items: Sem, space: Sem)

  /** The slots of the pipe's semaphores in the kernel's table, and their names. */
  datatype Slots = Slots(lock: nat, items: nat, space: nat, lockName: string, itemsName: string, spaceName: string)

  function Name(c: Slots, x: Which): string {
    match x
    case Lock => c.lockName
    case Items => c.itemsName
    case Space => c.spaceName
  }

  function At(c: Slots, x: Which): nat {
    match x
    case Lock => c.lock
    case Items => c.items
    case Space => c.space
  }

  function EventOf(c: Slots, op: Op): Event {
    match op
    case Wait(x) => WaitCall(Name(c, x))
    case Post(x) => PostCall(Name(c, x))
    case Shut(x) => CloseCall(Name(c, x))
  }

  function EventsOf(c: Slots, ops: seq<Op>): (es: seq<Event>)
    ensures |es| == |ops|
  {
    if ops == [] then [] else [EventOf(c, ops[0])] + EventsOf(c, ops[1..])
  }

  function Get(t: Three, x: Which): Sem {
    match x
    case Lock => t.lock
    case Items => t.items
    case Space => t.space
  }

  function Put(t: Three, x: Which, s: Sem): Three {
    match x
    case Lock => t.(lock := s)
    case Items => t.(items := s)
    case Space => t.(space := s)
  }

  function Changed(t: Three, op: Op, pid: int): Three {
    match op
    case Wait(x) => Put(t, x, Down(Get(t, x), pid).0)
    case Post(x) => Put(t, x, Up(Get(t, x)).0)
    case Shut(x) => Put(t, x, CloseOne(Get(t, x)))
  }

  function ChangedBy(t: Three, ops: seq<Op>, pid: int): Three
    decreases |ops|
  {
    if ops == [] then t else ChangedBy(Changed(t, ops[0], pid), ops[1..], pid)
  }

  // ---- The calls that a move makes ----

  function Posts(x: Which, n: nat): seq<Op> {
    if n == 0 then [] else [Post(x)] + Posts(x, n - 1)
  }

  /** The calls of pipe_write, pipe_read and pipe_close in one move of the pipe. */
  function OpsOf(w: PR.World, m: PR.Move): seq<Op>
    requires m.Go? ==> m.p < |w.tasks|
  {
    match m
    case Go(p) =>
      (match w.tasks[p]
       case Idle => []
       case AtSpace(_) => [Wait(Space)]
       case HasSpace(_) => [Wait(Lock), Post(Lock), Post(Items)]
       case AtItem(_, _) => [Wait(Items)]
       case HasItem(_, _) =>
         var equal := w.pipe.ring.readIndex == w.pipe.ring.writeIndex;
         if !equal then [Wait(Lock), Post(Lock), Post(Space)]
         else if w.pipe.eof then [Wait(Lock), Post(Lock)]
         else [Wait(Lock), Post(Lock), Post(Lock), Post(Space)])
    case CloseRead => Shutting(w)
    case CloseWrite => (if w.writeOpens - 1 == 0 && !w.pipe.eof then Posts(Items, 10) else []) + Shutting(w)
    case _ => []
  }

  /** The last reference takes the three semaphores with it. */
  function Shutting(w: PR.World): seq<Op> {
    if w.refs - 1 == 0 then [Shut(Lock), Shut(Items), Shut(Space)] else []
  }

  function ThreeOf(p: P.Pipe): Three { Three(p.lock, p.items, p.space) }

  function Caller(m: PR.Move): int { if m.Go? then m.p else -1 }

  lemma {:induction false} PostsAre(t: Three, n: nat, pid: int)
    ensures ChangedBy(t, Posts(Items, n), pid) == t.(items := PR.UpTimes(t.items, n))
    decreases n
  {
    if n > 0 {
      PostsAre(Changed(t, Post(Items), pid), n - 1, pid);
    }
  }

  lemma {:induction false} ChangedByTwo(t: Three, ops: seq<Op>, more: seq<Op>, pid: int)
    ensures ChangedBy(t, ops + more, pid) == ChangedBy(ChangedBy(t, ops, pid), more, pid)
    decreases |ops|
  {
    if ops == [] {
      assert [] + more == more;
    } else {
      ChangedByTwo(Changed(t, ops[0], pid), ops[1..], more, pid);
      assert (ops + more)[1..] == ops[1..] + more;
    }
  }

  lemma ChangedByOne(t: Three, a: Op, pid: int)
    ensures ChangedBy(t, [a], pid) == Changed(t, a, pid)
  {
    assert [a][1..] == [];
  }

  lemma ChangedByMore(t: Three, a: Op, rest: seq<Op>, pid: int)
    ensures ChangedBy(t, [a] + rest, pid) == ChangedBy(Changed(t, a, pid), rest, pid)
  {
    assert ([a] + rest)[1..] == rest;
  }

  lemma ChangedByThree(t: Three, a: Op, b: Op, c: Op, pid: int)
    ensures ChangedBy(t, [a, b, c], pid) == Changed(Changed(Changed(t, a, pid), b, pid), c, pid)
  {
    assert [a, b, c] == [a] + ([b] + [c]);
    ChangedByMore(t, a, [b] + [c], pid);
    ChangedByMore(Changed(t, a, pid), b, [c], pid);
    ChangedByOne(Changed(Changed(t, a, pid), b, pid), c, pid);
  }

  lemma ShuttingDoes(t: Three, w: PR.World, pid: int)
    ensures ChangedBy(t, Shutting(w), pid) ==
      if w.refs - 1 == 0 then Three(CloseOne(t.lock), CloseOne(t.items), CloseOne(t.space)) else t
  {
    hide CloseOne;
    ChangedByThree(t, Shut(Lock), Shut(Items), Shut(Space), pid);
  }

  /** The calls of a move change the three semaphores exactly as the pipe's move says. */
  lemma OpsAreTheMove(w: PR.World, m: PR.Move)
    requires PR.Inv(w) && PR.Allowed(w, m)
    ensures PR.Doable(w, m)
    ensures ThreeOf(PR.Do(w, m).pipe) == ChangedBy(ThreeOf(w.pipe), OpsOf(w, m), Caller(m))
  {
    PR.TasksOk(w, m);
    hide PR.Inv, PR.Allowed;
    match m
    case CloseRead => CloseIsTheMove(w, m);
    case CloseWrite => CloseIsTheMove(w, m);
    case Go(p) =>
      if w.tasks[p].HasItem? {
        TakeIsTheMove(w, p);
      } else {
        PutIsTheMove(w, p);
      }
    case _ =>
  }

  lemma CloseIsTheMove(w: PR.World, m: PR.Move)
    requires PR.Doable(w, m) && (m.CloseRead? || m.CloseWrite?)
    ensures ThreeOf(PR.Do(w, m).pipe) == ChangedBy(ThreeOf(w.pipe), OpsOf(w, m), -1)
  {
    hide CloseOne, Up, PR.UpTimes, ChangedBy;
    var t := ThreeOf(w.pipe);
    if m.CloseWrite? && w.writeOpens - 1 == 0 && !w.pipe.eof {
      PostsAre(t, 10, -1);
      ChangedByTwo(t, Posts(Items, 10), Shutting(w), -1);
      ShuttingDoes(ChangedBy(t, Posts(Items, 10), -1), w, -1);
    } else {
      assert [] + Shutting(w) == Shutting(w);
      ShuttingDoes(t, w, -1);
    }
  }

  lemma PutIsTheMove(w: PR.World, p: nat)
    requires PR.Doable(w, PR.Go(p)) && !w.tasks[p].HasItem?
    ensures ThreeOf(PR.Do(w, PR.Go(p)).pipe) == ChangedBy(ThreeOf(w.pipe), OpsOf(w, PR.Go(p)), p)
  {
    hide Down, Up, ChangedBy, P.Put;
    var t := ThreeOf(w.pipe);
    match w.tasks[p]
    case AtSpace(_) => ChangedByOne(t, Wait(Space), p);
    case AtItem(_, _) => ChangedByOne(t, Wait(Items), p);
    case HasSpace(_) => ChangedByThree(t, Wait(Lock), Post(Lock), Post(Items), p);
    case _ => ChangedByNone(t, p);
  }

  lemma ChangedByNone(t: Three, pid: int)
    ensures ChangedBy(t, [], pid) == t
  {
  }

  lemma ChangedByFour(t: Three, a: Op, b: Op, c: Op, d: Op, pid: int)
    ensures ChangedBy(t, [a, b, c, d], pid) == Changed(Changed(Changed(Changed(t, a, pid), b, pid), c, pid), d, pid)
  {
    assert [a, b, c, d] == [a] + [b, c, d];
    ChangedByMore(t, a, [b, c, d], pid);
    ChangedByThree(Changed(t, a, pid), b, c, d, pid);
  }

  lemma ChangedTwice(t: Three, a: Op, b: Op, pid: int)
    ensures ChangedBy(t, [a, b], pid) == Changed(Changed(t, a, pid), b, pid)
  {
    assert [a, b] == [a] + [b];
    ChangedByMore(t, a, [b], pid);
    ChangedByOne(Changed(t, a, pid), b, pid);
  }

  lemma TakeIsTheMove(w: PR.World, p: nat)
    requires PR.Doable(w, PR.Go(p)) && w.tasks[p].HasItem?
    ensures ThreeOf(PR.Do(w, PR.Go(p)).pipe) == ChangedBy(ThreeOf(w.pipe), OpsOf(w, PR.Go(p)), p)
  {
    hide Down, Up, ChangedBy, P.Take;
    var t := ThreeOf(w.pipe);
    if w.pipe.ring.readIndex != w.pipe.ring.writeIndex {
      ChangedByThree(t, Wait(Lock), Post(Lock), Post(Space), p);
    } else if w.pipe.eof {
      ChangedTwice(t, Wait(Lock), Post(Lock), p);
    } else {
      ChangedByFour(t, Wait(Lock), Post(Lock), Post(Lock), Post(Space), p);
    }
  }

  // ---- The calls on the kernel ----

  predicate NamesOk(c: Slots) {
    && c.lockName != c.itemsName && c.lockName != c.spaceName && c.itemsName != c.spaceName
    && |c.lockName| < MAX_NAME_LENGTH - 1 && |c.itemsName| < MAX_NAME_LENGTH - 1 && |c.spaceName| < MAX_NAME_LENGTH - 1
  }

  predicate SlotsOk(c: Slots, sems: seq<Sem>) {
    && NamesOk(c) && c.lock < |sems| && c.items < |sems| && c.space < |sems|
    && c.lock != c.items && c.lock != c.space && c.items != c.space
  }

  /** The pipe's semaphores as the kernel holds them. */
  function Held(c: Slots, sems: seq<Sem>): Three
    requires SlotsOk(c, sems)
  {
    Three(sems[c.lock], sems[c.items], sems[c.space])
  }

  /** The semaphore of this name is the one in its slot. */
  ghost predicate Placed(c: Slots, x: Which, sems: seq<Sem>) {
    FirstAt(sems, Name(c, x), At(c, x))
  }

  ghost predicate FirstAt(sems: seq<Sem>, name: string, i: nat) {
    i < |sems| && Named(sems[i], name) && forall j | 0 <= j < i :: !Named(sems[j], name)
  }

  ghost predicate AllPlaced(c: Slots, sems: seq<Sem>) {
    Placed(c, Lock, sems) && Placed(c, Items, sems) && Placed(c, Space, sems)
  }

  /** Changing the slot of one semaphore does not change where the others are found. */
  lemma StillPlaced(c: Slots, x: Which, y: Which, sems: seq<Sem>, s: Sem)
    requires SlotsOk(c, sems) && Placed(c, x, sems) && Placed(c, y, sems)
    requires if s.open then s.name == sems[At(c, x)].name else x != y
    ensures Placed(c, y, sems[At(c, x) := s])
  {
    assert x == y <==> Name(c, x) == Name(c, y);
    hide Name;
    var after, j := sems[At(c, x) := s], At(c, y);
    assert x == y <==> At(c, x) == At(c, y);
    assert Named(sems[At(c, x)], Name(c, x)) && Named(sems[j], Name(c, y));
    assert Named(after[j], Name(c, y));
    assert forall i | 0 <= i < j :: !Named(after[i], Name(c, y));
  }

  /** One call, when it does not block or when its caller is the running process. */
  lemma OpOnKernel(c: Slots, k: KernelState, op: Op, pid: int)
    requires Inv(k) && k.sched.current >= 0 && SlotsOk(c, k.sems) && Placed(c, op.x, k.sems)
    requires op.Wait? && Get(Held(c, k.sems), op.x).value <= 0 ==>
      pid == k.sched.current != k.sched.idle && |Get(Held(c, k.sems), op.x).queue| < PROCESSES_BLOCKED
    ensures WellFormed(k.sched) && Enabled(k, EventOf(c, op))
    ensures var r := Apply(k, EventOf(c, op));
      && r.sems == k.sems[At(c, op.x) := Get(Changed(Held(c, k.sems), op, pid), op.x)]
      && ((op.Wait? && Get(Held(c, k.sems), op.x).value <= 0) || r.sched.current == k.sched.current)
  {
    InvBase(k);
    RunningNotWaiting(k);
    FoundFirst(k.sems, Name(c, op.x), At(c, op.x));
    hide Find, Inv, Base, Name, At, CloseOne, Down, Up, FirstAt, Block, Unblock, GetPid, Placed;
    match op
    case Wait(x) => WaitOp(k, Name(c, x), At(c, x), pid);
    case Post(x) =>
      PostSchedSafe(k, Name(c, x));
      PostOp(k, Name(c, x), At(c, x));
    case Shut(x) => ShutOp(k, Name(c, x), At(c, x));
  }

  lemma FoundFirst(sems: seq<Sem>, name: string, i: nat)
    requires FirstAt(sems, name, i)
    ensures Find(sems, name) == i < |sems|
  {
  }

  lemma WaitOp(k: KernelState, name: string, i: nat, pid: int)
    requires WellFormed(k.sched) && i < |k.sems| && Find(k.sems, name) == i && k.sched.current >= 0
    requires GetPid(k.sched.table) == k.sched.current
    requires k.sems[i].value <= 0 ==> pid == k.sched.current != k.sched.idle && |k.sems[i].queue| < PROCESSES_BLOCKED
    ensures Enabled(k, WaitCall(name))
    ensures var r := Apply(k, WaitCall(name));
      && r.sems == k.sems[i := Down(k.sems[i], pid).0]
      && (k.sems[i].value <= 0 || r.sched.current == k.sched.current)
  {
    hide Find, Block, GetPid, WellFormed;
  }

  lemma PostOp(k: KernelState, name: string, i: nat)
    requires WellFormed(k.sched) && i < |k.sems| && Find(k.sems, name) == i
    ensures Enabled(k, PostCall(name)) && Apply(k, PostCall(name)) == SemPost(k, name).0
    ensures SemPost(k, name).0.sems == k.sems[i := Up(k.sems[i]).0]
  {
    hide Find, Unblock, WellFormed, Up;
  }

  lemma ShutOp(k: KernelState, name: string, i: nat)
    requires WellFormed(k.sched) && i < |k.sems| && Find(k.sems, name) == i && k.sched.current >= 0
    ensures Enabled(k, CloseCall(name)) && Apply(k, CloseCall(name)) == k.(sems := k.sems[i := CloseOne(k.sems[i])])
  {
    hide Find, WellFormed, CloseOne;
  }

  lemma HeldAfter(c: Slots, sems: seq<Sem>, op: Op, pid: int)
    requires SlotsOk(c, sems)
    ensures var t := Changed(Held(c, sems), op, pid); Held(c, sems[At(c, op.x) := Get(t, op.x)]) == t
  {
    hide Down, Up, CloseOne;
  }

  /** Calls that do not block, none of them on a semaphore already given up. */
  ghost predicate Calm(t: Three, ops: seq<Op>, pid: int)
    decreases |ops|
  {
    ops == [] ||
    (&& (ops[0].Wait? ==> Get(t, ops[0].x).value > 0)
     && (ops[0].Shut? ==> forall op | op in ops[1..] :: op.x != ops[0].x)
     && Calm(Changed(t, ops[0], pid), ops[1..], pid))
  }

  lemma OpenAfter(c: Slots, sems: seq<Sem>, op: Op, pid: int)
    requires SlotsOk(c, sems) && Placed(c, op.x, sems)
    ensures var s := Get(Changed(Held(c, sems), op, pid), op.x);
      (s.open ==> s.name == sems[At(c, op.x)].name) && (!op.Shut? ==> s.open)
  {
    hide Name;
    assert Named(sems[At(c, op.x)], Name(c, op.x));
  }

  /** One call that does not block, with all that the next one needs. */
  lemma CallStep(c: Slots, k: KernelState, ops: seq<Op>, pid: int)
    requires Inv(k) && k.sched.current >= 0 && SlotsOk(c, k.sems)
    requires ops != [] && (forall op | op in ops :: Placed(c, op.x, k.sems)) && Calm(Held(c, k.sems), ops, pid)
    ensures WellFormed(k.sched) && Enabled(k, EventOf(c, ops[0]))
    ensures var r := Apply(k, EventOf(c, ops[0]));
      && Inv(r) && r.sched.current == k.sched.current && r.sched.idle == k.sched.idle && |r.sems| == |k.sems|
      && Held(c, r.sems) == Changed(Held(c, k.sems), ops[0], pid)
      && (forall op | op in ops[1..] :: Placed(c, op.x, r.sems))
      && (forall x | Placed(c, x, k.sems) && !(ops[0].Shut? && x == ops[0].x) :: Placed(c, x, r.sems))
  {
    var op := ops[0];
    OpOnKernel(c, k, op, pid);
    KernelStep(k, EventOf(c, op));
    HeldAfter(c, k.sems, op, pid);
    OpenAfter(c, k.sems, op, pid);
    hide Inv, Enabled, Apply, Changed, Held, Placed, Name, At;
    var s := Get(Changed(Held(c, k.sems), op, pid), op.x);
    forall x | Placed(c, x, k.sems) && !(op.Shut? && x == op.x)
      ensures Placed(c, x, k.sems[At(c, op.x) := s])
    {
      SameSlot(c, op.x, x, k.sems, s);
    }
  }

  lemma SameSlot(c: Slots, x: Which, y: Which, sems: seq<Sem>, s: Sem)
    requires SlotsOk(c, sems) && Placed(c, x, sems) && Placed(c, y, sems)
    requires (s.open ==> s.name == sems[At(c, x)].name) && (x == y ==> s.open)
    ensures Placed(c, y, sems[At(c, x) := s])
  {
    StillPlaced(c, x, y, sems, s);
  }

  /** Calls that do not block are enabled one after another, and change the three semaphores as they say. */
  lemma {:induction false} OpsOnKernel(c: Slots, k: KernelState, ops: seq<Op>, pid: int)
    requires Inv(k) && k.sched.current >= 0 && SlotsOk(c, k.sems)
    requires (forall op | op in ops :: Placed(c, op.x, k.sems)) && Calm(Held(c, k.sems), ops, pid)
    ensures Base(k) && Legal(k, EventsOf(c, ops)) && Orderly(k, EventsOf(c, ops))
    ensures var r := Run(k, EventsOf(c, ops));
      && Inv(r) && r.sched.idle == k.sched.idle && |r.sems| == |k.sems|
      && Held(c, r.sems) == ChangedBy(Held(c, k.sems), ops, pid)
      && (forall x | Placed(c, x, k.sems) && Shut(x) !in ops :: Placed(c, x, r.sems))
    decreases |ops|
  {
    InvBase(k);
    if ops != [] {
      CallStep(c, k, ops, pid);
      var e := EventOf(c, ops[0]);
      var r := Apply(k, e);
      hide Inv, Base, Enabled, Admitted, Apply, Changed, Held, Placed, EventOf;
      OpsOnKernel(c, r, ops[1..], pid);
      OneMore(k, e, EventsOf(c, ops[1..]));
      assert EventsOf(c, ops) == [e] + EventsOf(c, ops[1..]);
      assert forall x | Shut(x) !in ops :: Shut(x) !in ops[1..] && Shut(x) != ops[0];
    }
  }

  // ---- Clients in place of pids ----

  function RenamedThree(pids: seq<int>, t: Three): Three {
    Three(RenamedSem(pids, t.lock), RenamedSem(pids, t.items), RenamedSem(pids, t.space))
  }

  lemma ChangedRenamed(pids: seq<int>, t: Three, op: Op, pid: int)
    ensures Changed(RenamedThree(pids, t), op, IndexOf(pids, pid)) == RenamedThree(pids, Changed(t, op, pid))
  {
    DownRenamed(pids, Get(t, op.x), pid);
    UpRenamed(pids, Get(t, op.x));
    hide Down, Up, IndexOf;
  }

  lemma {:induction false} ChangedByRenamed(pids: seq<int>, t: Three, ops: seq<Op>, pid: int)
    ensures ChangedBy(RenamedThree(pids, t), ops, IndexOf(pids, pid)) == RenamedThree(pids, ChangedBy(t, ops, pid))
    decreases |ops|
  {
    if ops != [] {
      hide Changed, RenamedThree, IndexOf;
      ChangedRenamed(pids, t, ops[0], pid);
      ChangedByRenamed(pids, Changed(t, ops[0], pid), ops[1..], pid);
    }
  }

  lemma {:induction false} CalmRenamed(pids: seq<int>, t: Three, ops: seq<Op>, pid: int)
    ensures Calm(RenamedThree(pids, t), ops, IndexOf(pids, pid)) <==> Calm(t, ops, pid)
    decreases |ops|
  {
    if ops != [] {
      ChangedRenamed(pids, t, ops[0], pid);
      assert forall x :: Get(RenamedThree(pids, t), x).value == Get(t, x).value;
      hide Changed, RenamedThree, IndexOf, Get;
      CalmRenamed(pids, Changed(t, ops[0], pid), ops[1..], pid);
    }
  }

  // ---- A move of the pipe on the kernel ----

  lemma ShuttingCalm(t: Three, w: PR.World, pid: int)
    ensures Calm(t, Shutting(w), pid)
  {
    var a := [Shut(Lock), Shut(Items), Shut(Space)];
    assert a[1..] == [Shut(Items), Shut(Space)] && a[1..][1..] == [Shut(Space)] && a[1..][1..][1..] == [];
  }

  lemma {:induction false} PostsCalm(t: Three, n: nat, more: seq<Op>, pid: int)
    requires forall u :: Calm(u, more, pid)
    ensures Calm(t, Posts(Items, n) + more, pid)
    decreases n
  {
    if n == 0 {
      assert [] + more == more;
    } else {
      PostsCalm(Changed(t, Post(Items), pid), n - 1, more, pid);
      assert (Posts(Items, n) + more)[0] == Post(Items);
      assert (Posts(Items, n) + more)[1..] == Posts(Items, n - 1) + more;
    }
  }

  predicate Waits(w: PR.World, m: PR.Move)
    requires m.Go? ==> m.p < |w.tasks|
  {
    m.Go? && (w.tasks[m.p].AtSpace? || w.tasks[m.p].AtItem?)
  }

  /** Inside its critical section a pipe call never blocks, and closing never does. */
  lemma MoveIsCalm(w: PR.World, m: PR.Move)
    requires PR.Inv(w) && PR.Allowed(w, m) && !Waits(w, m)
    ensures Calm(ThreeOf(w.pipe), OpsOf(w, m), Caller(m))
  {
    var t, pid := ThreeOf(w.pipe), Caller(m);
    match m
    case CloseRead => ShuttingCalm(t, w, pid);
    case CloseWrite =>
      forall u
        ensures Calm(u, Shutting(w), pid)
      {
        ShuttingCalm(u, w, pid);
      }
      PostsCalm(t, 10, Shutting(w), pid);
      assert [] + Shutting(w) == Shutting(w);
    case Go(p) =>
      assert w.pipe.lock.value > 0;
      hide PR.Inv, PR.Allowed, Down, Up;
      CriticalCalm(t, OpsOf(w, m), pid);
    case _ =>
  }

  /** A wait for the free lock, and then only posts. */
  lemma CriticalCalm(t: Three, ops: seq<Op>, pid: int)
    requires ops == [] || (ops[0] == Wait(Lock) && t.lock.value > 0 && forall op | op in ops[1..] :: op.Post?)
    ensures Calm(t, ops, pid)
  {
    if ops != [] {
      OnlyPosts(Changed(t, ops[0], pid), ops[1..], pid);
    }
  }

  lemma {:induction false} OnlyPosts(t: Three, ops: seq<Op>, pid: int)
    requires forall op | op in ops :: op.Post?
    ensures Calm(t, ops, pid)
    decreases |ops|
  {
    if ops != [] {
      OnlyPosts(Changed(t, ops[0], pid), ops[1..], pid);
    }
  }

  /** The kernel and the pipe agree: client p is the process pids[p], and the semaphores are in their slots. */
  ghost predicate Linked(c: Slots, pids: seq<int>, k: KernelState, w: PR.World) {
    && Inv(k) && PidsOk(pids, k.sched.idle) && |pids| == |w.tasks|
    && PR.Inv(w) && SlotsOk(c, k.sems)
    && (w.inUse ==> AllPlaced(c, k.sems))
    && (w.inUse ==> RenamedThree(pids, Held(c, k.sems)) == ThreeOf(w.pipe))
  }

  /** A move of the pipe by the running process, or a step of the kernel. */
  datatype Step = Pipe(m: PR.Move) | System(e: Event)

  /** Other steps do not name the pipe's semaphores. */
  ghost predicate Spares(c: Slots, e: Event) {
    e.OpenCall? || e.WaitCall? || e.PostCall? || e.CloseCall? ==>
      e.name != c.lockName && e.name != c.itemsName && e.name != c.spaceName
  }

  /** The conditions of matched use; that the caller is not queued is not among them. */
  ghost predicate Used(w: PR.World, m: PR.Move) {
    w.inUse &&
    match m
    case StartWrite(p, data) => p < |w.tasks| && w.tasks[p] == PR.Idle && data != [] && PR.Writers(w) < w.writeOpens
    case StartRead(p, n) => p < |w.tasks| && w.tasks[p] == PR.Idle && n > 0 && PR.Readers(w) < w.readOpens
    case Go(p) =>
      && p < |w.tasks| && w.tasks[p] != PR.Idle
      && (w.tasks[p].AtSpace? ==> |w.pipe.space.queue| < PROCESSES_BLOCKED)
      && (w.tasks[p].AtItem? ==> |w.pipe.items.queue| < PROCESSES_BLOCKED)
    case OpenRead => true
    case OpenWrite => !w.pipe.eof
    case CloseRead => PR.Readers(w) < w.readOpens
    case CloseWrite => PR.Writers(w) < w.writeOpens
  }

  ghost predicate Fits(c: Slots, pids: seq<int>, k: KernelState, w: PR.World, step: Step) {
    w.inUse && k.sched.current >= 0 &&
    match step
    case Pipe(m) => Used(w, m) && (m.Go? ==> m.p < |pids| && k.sched.current == pids[m.p])
    case System(e) => Enabled(k, e) && Spares(c, e)
  }

  lemma NotRenamedIn(pids: seq<int>, idle: int, q: seq<int>, p: nat)
    requires PidsOk(pids, idle) && p < |pids| && pids[p] !in q
    ensures p !in Renamed(pids, q)
  {
    IndexOfPid(pids, idle, p);
    assert forall a | 0 <= a < |q| :: Renamed(pids, q)[a] == IndexOf(pids, q[a]);
  }

  /** The running process is on none of the pipe's queues, so its move is allowed. */
  lemma MoveAllowed(c: Slots, pids: seq<int>, k: KernelState, w: PR.World, m: PR.Move)
    requires Linked(c, pids, k, w) && Fits(c, pids, k, w, Pipe(m))
    ensures PR.Allowed(w, m)
  {
    if m.Go? {
      RunningNotQueued(k);
      hide Inv, PR.Inv, Find, Name;
      var pid := pids[m.p];
      assert k.sems[c.lock].open && k.sems[c.items].open && k.sems[c.space].open by {
        assert Named(k.sems[c.lock], Name(c, Lock)) && Named(k.sems[c.items], Name(c, Items)) && Named(k.sems[c.space], Name(c, Space));
      }
      assert pid !in k.sems[c.lock].queue && pid !in k.sems[c.items].queue && pid !in k.sems[c.space].queue;
      NotRenamedIn(pids, k.sched.idle, k.sems[c.lock].queue, m.p);
      NotRenamedIn(pids, k.sched.idle, k.sems[c.items].queue, m.p);
      NotRenamedIn(pids, k.sched.idle, k.sems[c.space].queue, m.p);
    }
  }

  lemma DoKeepsTasks(w: PR.World, m: PR.Move)
    requires PR.Inv(w) && PR.Allowed(w, m)
    ensures PR.Doable(w, m)
    ensures |PR.Do(w, m).tasks| == |w.tasks|
    ensures PR.Do(w, m).inUse ==> forall op | op in OpsOf(w, m) :: !op.Shut?
  {
    PR.TasksOk(w, m);
    hide PR.Inv, PR.UpTimes;
    PostsOnly(Items, 10);
  }

  lemma {:induction false} PostsOnly(x: Which, n: nat)
    ensures forall op | op in Posts(x, n) :: op == Post(x)
    decreases n
  {
    if n > 0 {
      PostsOnly(x, n - 1);
    }
  }

  /** The pid for which a move's caller stands. */
  function PidOf(pids: seq<int>, m: PR.Move): int
    requires m.Go? ==> m.p < |pids|
  {
    if m.Go? then pids[m.p] else -1
  }

  lemma CallerIs(pids: seq<int>, idle: int, m: PR.Move)
    requires PidsOk(pids, idle) && (m.Go? ==> m.p < |pids|)
    ensures IndexOf(pids, PidOf(pids, m)) == Caller(m)
  {
    if m.Go? {
      IndexOfPid(pids, idle, m.p);
    } else {
      assert -1 !in pids;
    }
  }

  /** The calls of a move as the kernel takes them: none that could block, or a single wait. */
  lemma MoveOnKernel(c: Slots, pids: seq<int>, k: KernelState, w: PR.World, m: PR.Move)
    requires Linked(c, pids, k, w) && Fits(c, pids, k, w, Pipe(m)) && PR.Allowed(w, m)
    ensures Base(k) && Legal(k, EventsOf(c, OpsOf(w, m))) && Orderly(k, EventsOf(c, OpsOf(w, m)))
    ensures var r, ops := Run(k, EventsOf(c, OpsOf(w, m))), OpsOf(w, m);
      && Inv(r) && r.sched.idle == k.sched.idle && SlotsOk(c, r.sems)
      && Held(c, r.sems) == ChangedBy(Held(c, k.sems), ops, PidOf(pids, m))
      && ((forall op | op in ops :: !op.Shut?) ==>
            AllPlaced(c, r.sems))
  {
    var ops, pid := OpsOf(w, m), PidOf(pids, m);
    if Waits(w, m) {
      var x := if w.tasks[m.p].AtSpace? then Space else Items;
      ShortQueue(c, pids, k, w, m.p, x);
      hide Inv, PR.Inv, PR.Allowed, ChangedBy, AllPlaced, Held, RenamedThree, ThreeOf, Legal, Orderly, Run;
      WaitCalls(c, k, x);
    } else {
      HeldCalm(c, pids, k, w, m);
      hide Inv, PR.Inv, PR.Allowed, OpsOf, Calm, ChangedBy, AllPlaced, Held, RenamedThree, ThreeOf, Legal, Orderly, Run;
      CalmCalls(c, k, ops, pid);
    }
  }

  lemma HeldCalm(c: Slots, pids: seq<int>, k: KernelState, w: PR.World, m: PR.Move)
    requires PR.Inv(w) && PR.Allowed(w, m) && !Waits(w, m) && PidsOk(pids, k.sched.idle) && (m.Go? ==> m.p < |pids|)
    requires SlotsOk(c, k.sems) && RenamedThree(pids, Held(c, k.sems)) == ThreeOf(w.pipe)
    ensures Calm(Held(c, k.sems), OpsOf(w, m), PidOf(pids, m))
  {
    MoveIsCalm(w, m);
    CallerIs(pids, k.sched.idle, m);
    hide PR.Inv, PR.Allowed, Calm, OpsOf, RenamedThree;
    CalmRenamed(pids, Held(c, k.sems), OpsOf(w, m), PidOf(pids, m));
  }

  /** A pid other than idle's waits, and there is room in the queue. */
  lemma ShortQueue(c: Slots, pids: seq<int>, k: KernelState, w: PR.World, p: nat, x: Which)
    requires PidsOk(pids, k.sched.idle) && p < |pids| && SlotsOk(c, k.sems)
    requires RenamedThree(pids, Held(c, k.sems)) == ThreeOf(w.pipe) && |Get(ThreeOf(w.pipe), x).queue| < PROCESSES_BLOCKED
    ensures pids[p] != k.sched.idle && |Get(Held(c, k.sems), x).queue| < PROCESSES_BLOCKED
  {
    assert pids[p] in pids;
    assert |Get(RenamedThree(pids, Held(c, k.sems)), x).queue| == |Get(Held(c, k.sems), x).queue|;
  }

  lemma CalmCalls(c: Slots, k: KernelState, ops: seq<Op>, pid: int)
    requires Inv(k) && k.sched.current >= 0 && SlotsOk(c, k.sems)
    requires AllPlaced(c, k.sems) && Calm(Held(c, k.sems), ops, pid)
    ensures Base(k) && Legal(k, EventsOf(c, ops)) && Orderly(k, EventsOf(c, ops))
    ensures var r := Run(k, EventsOf(c, ops));
      && Inv(r) && r.sched.idle == k.sched.idle && SlotsOk(c, r.sems)
      && Held(c, r.sems) == ChangedBy(Held(c, k.sems), ops, pid)
      && ((forall op | op in ops :: !op.Shut?) ==> AllPlaced(c, r.sems))
  {
    hide Inv, Base, Calm, ChangedBy, Legal, Orderly, Run, Placed, Held;
    forall op | op in ops
      ensures Placed(c, op.x, k.sems)
    {
      match op.x
      case Lock =>
      case Items =>
      case Space =>
    }
    OpsOnKernel(c, k, ops, pid);
    assert (forall op | op in ops :: !op.Shut?) ==> Shut(Lock) !in ops && Shut(Items) !in ops && Shut(Space) !in ops;
  }

  /** The wait that begins a round, whether it blocks the caller or not. */
  lemma OneWait(c: Slots, k: KernelState, x: Which)
    requires Inv(k) && k.sched.current >= 0 && k.sched.current != k.sched.idle && SlotsOk(c, k.sems)
    requires AllPlaced(c, k.sems) && |Get(Held(c, k.sems), x).queue| < PROCESSES_BLOCKED
    ensures Base(k) && WellFormed(k.sched) && Enabled(k, EventOf(c, Wait(x)))
    ensures var r := Apply(k, EventOf(c, Wait(x)));
      && Inv(r) && r.sched.idle == k.sched.idle && |r.sems| == |k.sems|
      && Held(c, r.sems) == Changed(Held(c, k.sems), Wait(x), k.sched.current)
      && AllPlaced(c, r.sems)
  {
    var op, pid := Wait(x), k.sched.current;
    InvBase(k);
    OpOnKernel(c, k, op, pid);
    KernelStep(k, EventOf(c, op));
    HeldAfter(c, k.sems, op, pid);
    OpenAfter(c, k.sems, op, pid);
    hide Inv, Enabled, Apply, Changed, Held, Placed, Name, At;
    var s := Get(Changed(Held(c, k.sems), op, pid), x);
    SameSlot(c, x, Lock, k.sems, s);
    SameSlot(c, x, Items, k.sems, s);
    SameSlot(c, x, Space, k.sems, s);
  }

  lemma WaitCalls(c: Slots, k: KernelState, x: Which)
    requires Inv(k) && k.sched.current >= 0 && k.sched.current != k.sched.idle && SlotsOk(c, k.sems)
    requires AllPlaced(c, k.sems) && |Get(Held(c, k.sems), x).queue| < PROCESSES_BLOCKED
    ensures Base(k) && Legal(k, EventsOf(c, [Wait(x)])) && Orderly(k, EventsOf(c, [Wait(x)]))
    ensures var r := Run(k, EventsOf(c, [Wait(x)]));
      && Inv(r) && r.sched.idle == k.sched.idle && SlotsOk(c, r.sems)
      && Held(c, r.sems) == ChangedBy(Held(c, k.sems), [Wait(x)], k.sched.current)
      && AllPlaced(c, r.sems)
  {
    OneWait(c, k, x);
    hide Inv, Enabled, Apply, Changed, EventOf, AllPlaced, Held;
    ChangedByOne(Held(c, k.sems), Wait(x), k.sched.current);
    OneCall(c, k, Wait(x));
  }

  lemma OneCall(c: Slots, k: KernelState, op: Op)
    requires Inv(k) && Enabled(k, EventOf(c, op)) && WellFormed(k.sched)
    ensures Base(k) && Legal(k, EventsOf(c, [op])) && Orderly(k, EventsOf(c, [op]))
    ensures Run(k, EventsOf(c, [op])) == Apply(k, EventOf(c, op))
  {
    var e := EventOf(c, op);
    InvBase(k);
    KernelStep(k, e);
    InvBase(Apply(k, e));
    hide Inv, Base, Enabled, Apply, EventOf;
    OneMore(k, e, []);
    assert EventsOf(c, [op]) == [e] + [];
  }

  /** The move and the calls of the running process keep kernel and pipe in step. */
  lemma PipeStep(c: Slots, pids: seq<int>, k: KernelState, w: PR.World, m: PR.Move)
    requires Linked(c, pids, k, w) && Fits(c, pids, k, w, Pipe(m))
    ensures PR.Allowed(w, m) && PR.Doable(w, m)
    ensures Base(k) && Legal(k, EventsOf(c, OpsOf(w, m))) && Orderly(k, EventsOf(c, OpsOf(w, m)))
    ensures Linked(c, pids, Run(k, EventsOf(c, OpsOf(w, m))), PR.Do(w, m))
    ensures RenamedThree(pids, Held(c, Run(k, EventsOf(c, OpsOf(w, m))).sems)) == ThreeOf(PR.Do(w, m).pipe)
  {
    MoveAllowed(c, pids, k, w, m);
    DoKeepsTasks(w, m);
    PR.MoveKeeps(w, m);
    MoveOnKernel(c, pids, k, w, m);
    OpsAreTheMove(w, m);
    CallerIs(pids, k.sched.idle, m);
    ChangedByRenamed(pids, Held(c, k.sems), OpsOf(w, m), PidOf(pids, m));
    hide Inv, PR.Inv, PR.Allowed, PR.Do, OpsOf, ChangedBy, RenamedThree, Held, Placed, EventsOf, Run, Legal, Orderly, IndexOf;
  }

  /** A step that does not name a semaphore leaves it in its slot, as it was. */
  lemma SlotSpared(k: KernelState, e: Event, name: string, i: nat)
    requires Base(k) && WellFormed(k.sched) && Admitted(k, e) && FirstAt(k.sems, name, i) && |name| < MAX_NAME_LENGTH - 1
    requires e.OpenCall? || e.WaitCall? || e.PostCall? || e.CloseCall? ==> e.name != name
    ensures var after := Apply(k, e).sems; |after| == |k.sems| && after[i] == k.sems[i] && FirstAt(after, name, i)
  {
    hide Base, Schedule, Yield, Block, Unblock, Kill, BeNice, Create, GetPid, Find, FindClosed;
  }

  lemma SlotsSpared(c: Slots, k: KernelState, e: Event)
    requires Inv(k) && Enabled(k, e) && Spares(c, e) && SlotsOk(c, k.sems) && AllPlaced(c, k.sems)
    ensures WellFormed(k.sched)
    ensures var after := Apply(k, e).sems; SlotsOk(c, after) && AllPlaced(c, after) && Held(c, after) == Held(c, k.sems)
  {
    InvBase(k);
    assert NamesOk(c);
    hide Inv, Base, Apply, Enabled, Admitted, FirstAt;
    SlotSpared(k, e, c.lockName, c.lock);
    SlotSpared(k, e, c.itemsName, c.items);
    SlotSpared(k, e, c.spaceName, c.space);
  }

  lemma SystemStep(c: Slots, pids: seq<int>, k: KernelState, w: PR.World, e: Event)
    requires Linked(c, pids, k, w) && Fits(c, pids, k, w, System(e))
    ensures WellFormed(k.sched) && Linked(c, pids, Apply(k, e), w)
  {
    hide Inv, PR.Inv, Enabled, Apply, Held, AllPlaced, RenamedThree, Spares;
    KernelStep(k, e);
    SlotsSpared(c, k, e);
  }

  // ---- Whole runs ----

  datatype Machine = Machine(k: KernelState, w: PR.World)

  ghost predicate Good(c: Slots, pids: seq<int>, s: Machine) { Linked(c, pids, s.k, s.w) }

  ghost function Do(c: Slots, pids: seq<int>, s: Machine, step: Step): (t: Machine)
    requires Good(c, pids, s) && Fits(c, pids, s.k, s.w, step)
    ensures Good(c, pids, t)
  {
    match step
    case Pipe(m) =>
      PipeStep(c, pids, s.k, s.w, m);
      Machine(Run(s.k, EventsOf(c, OpsOf(s.w, m))), PR.Do(s.w, m))
    case System(e) =>
      SystemStep(c, pids, s.k, s.w, e);
      Machine(Apply(s.k, e), s.w)
  }

  ghost predicate Possible(c: Slots, pids: seq<int>, s: Machine, steps: seq<Step>)
    requires Good(c, pids, s)
    decreases |steps|
  {
    steps == [] ||
    (Fits(c, pids, s.k, s.w, steps[0]) && Possible(c, pids, Do(c, pids, s, steps[0]), steps[1..]))
  }

  ghost function After(c: Slots, pids: seq<int>, s: Machine, steps: seq<Step>): (t: Machine)
    requires Good(c, pids, s) && Possible(c, pids, s, steps)
    ensures Good(c, pids, t)
    decreases |steps|
  {
    if steps == [] then s else After(c, pids, Do(c, pids, s, steps[0]), steps[1..])
  }

  /** The moves of the pipe in a run, and the steps of the kernel. */
  function MovesOf(steps: seq<Step>): seq<PR.Move> {
    if steps == [] then []
    else (if steps[0].Pipe? then [steps[0].m] else []) + MovesOf(steps[1..])
  }

  ghost function StepEvents(c: Slots, pids: seq<int>, s: Machine, step: Step): seq<Event>
    requires Good(c, pids, s) && Fits(c, pids, s.k, s.w, step)
  {
    match step
    case Pipe(m) => EventsOf(c, OpsOf(s.w, m))
    case System(e) => [e]
  }

  ghost function Events(c: Slots, pids: seq<int>, s: Machine, steps: seq<Step>): seq<Event>
    requires Good(c, pids, s) && Possible(c, pids, s, steps)
    decreases |steps|
  {
    if steps == [] then []
    else StepEvents(c, pids, s, steps[0]) + Events(c, pids, Do(c, pids, s, steps[0]), steps[1..])
  }

  lemma GoodBase(c: Slots, pids: seq<int>, s: Machine)
    requires Good(c, pids, s)
    ensures Inv(s.k) && Base(s.k) && PR.Inv(s.w)
  {
    InvBase(s.k);
  }

  lemma StepLegal(c: Slots, pids: seq<int>, s: Machine, step: Step)
    requires Good(c, pids, s) && Fits(c, pids, s.k, s.w, step)
    ensures Base(s.k)
    ensures var es := StepEvents(c, pids, s, step);
      Legal(s.k, es) && Orderly(s.k, es) && Run(s.k, es) == Do(c, pids, s, step).k
  {
    GoodBase(c, pids, s);
    match step
    case Pipe(m) => PipeStep(c, pids, s.k, s.w, m);
    case System(e) =>
      SystemStep(c, pids, s.k, s.w, e);
      GoodBase(c, pids, Do(c, pids, s, step));
      OneMore(s.k, e, []);
      assert [e] + [] == [e];
  }

  /** A run is its first step and the rest. */
  lemma RunFirst(c: Slots, pids: seq<int>, s: Machine, steps: seq<Step>)
    requires Good(c, pids, s) && Possible(c, pids, s, steps) && steps != []
    ensures Fits(c, pids, s.k, s.w, steps[0])
    ensures var t := Do(c, pids, s, steps[0]);
      && Good(c, pids, t) && Possible(c, pids, t, steps[1..])
      && After(c, pids, s, steps) == After(c, pids, t, steps[1..])
      && Events(c, pids, s, steps) == StepEvents(c, pids, s, steps[0]) + Events(c, pids, t, steps[1..])
  {
    hide Good, Fits, StepEvents;
  }

  /** A run of pipe and kernel together is a legal, orderly run of the kernel. */
  lemma {:induction false} RunsOnKernel(c: Slots, pids: seq<int>, s: Machine, steps: seq<Step>)
    requires Good(c, pids, s) && Possible(c, pids, s, steps)
    ensures Base(s.k)
    ensures var es := Events(c, pids, s, steps);
      Legal(s.k, es) && Orderly(s.k, es) && Run(s.k, es) == After(c, pids, s, steps).k
    decreases |steps|
  {
    GoodBase(c, pids, s);
    hide Good, Base, Inv, PR.Inv, Fits, StepEvents, Do;
    if steps != [] {
      RunFirst(c, pids, s, steps);
      hide Possible, After, Events, Legal, Orderly, Run;
      StepLegal(c, pids, s, steps[0]);
      var t := Do(c, pids, s, steps[0]);
      RunsOnKernel(c, pids, t, steps[1..]);
      TwoKernelRuns(s.k, StepEvents(c, pids, s, steps[0]), Events(c, pids, t, steps[1..]));
    }
  }

  /** Its moves are a run of the pipe. */
  lemma {:induction false} RunsPipe(c: Slots, pids: seq<int>, s: Machine, steps: seq<Step>)
    requires Good(c, pids, s) && Possible(c, pids, s, steps)
    ensures PR.Inv(s.w)
    ensures PR.Possible(s.w, MovesOf(steps)) && PR.After(s.w, MovesOf(steps)) == After(c, pids, s, steps).w
    decreases |steps|
  {
    GoodBase(c, pids, s);
    hide Good, Base, Inv, PR.Inv, Fits, PR.Allowed, PR.Do, Do;
    if steps != [] {
      RunFirst(c, pids, s, steps);
      hide Possible, After, PR.Possible, PR.After;
      RunsPipe(c, pids, Do(c, pids, s, steps[0]), steps[1..]);
      DoMoves(c, pids, s, steps[0]);
      var rest := MovesOf(steps[1..]);
      match steps[0]
      case Pipe(m) =>
        assert MovesOf(steps) == [m] + rest && ([m] + rest)[1..] == rest;
        PR.RunFrom(s.w, [m] + rest);
      case System(_) =>
        assert MovesOf(steps) == [] + rest == rest;
    }
  }

  lemma DoMoves(c: Slots, pids: seq<int>, s: Machine, step: Step)
    requires Good(c, pids, s) && Fits(c, pids, s.k, s.w, step)
    ensures step.System? ==> Do(c, pids, s, step).w == s.w
    ensures step.Pipe? ==>
      && PR.Inv(s.w) && PR.Allowed(s.w, step.m)
      && PR.Doable(s.w, step.m)
      && Do(c, pids, s, step).w == PR.Do(s.w, step.m)
  {
    if step.Pipe? {
      PipeStep(c, pids, s.k, s.w, step.m);
    }
  }

  // ---- From the creation of the pipe ----

  /** The pipe just created in a slot, for n processes. */
  ghost predicate New(slot: nat, n: nat, w: PR.World) {
    && PR.Initial(w) && |w.tasks| == n
    && w.pipe.lock.name == LockName(slot) && w.pipe.items.name == ItemsName(slot) && w.pipe.space.name == SpaceName(slot)
  }

  /** The kernel after the three opens of create_pipe_object by the running process. */
  function Created(k: KernelState, slot: nat): KernelState {
    k.(sems := CreateObject(k.sems, slot).0)
  }

  lemma CreatedInv(k: KernelState, slot: nat)
    requires Inv(k) && k.sched.current >= 0 && k.sched.current != k.sched.idle && CreateObject(k.sems, slot).1
    ensures Inv(Created(k, slot)) && |Created(k, slot).sems| == |k.sems|
  {
    hide Inv, Open, Close, LockName, ItemsName, SpaceName;
    InvBase(k);
    var a := Apply(k, OpenCall(LockName(slot), 1));
    KernelStep(k, OpenCall(LockName(slot), 1));
    InvBase(a);
    var b := Apply(a, OpenCall(ItemsName(slot), 0));
    KernelStep(a, OpenCall(ItemsName(slot), 0));
    KernelStep(b, OpenCall(SpaceName(slot), P.PIPE_BUFFER_SIZE));
    OpenLength(k.sems, LockName(slot), 1);
    OpenLength(a.sems, ItemsName(slot), 0);
    OpenLength(b.sems, SpaceName(slot), P.PIPE_BUFFER_SIZE);
  }

  lemma OpenLength(sems: seq<Sem>, name: string, value: nat)
    ensures |Open(sems, name, value).0| == |sems|
  {
  }

  /** The names of the pipe in this slot of the table of pipes. */
  predicate NamedFor(c: Slots, slot: nat) {
    c.lockName == LockName(slot) && c.itemsName == ItemsName(slot) && c.spaceName == SpaceName(slot)
  }

  lemma ShortNames(slot: nat)
    requires slot < MAX_PIPES
    ensures |LockName(slot)| < MAX_NAME_LENGTH - 1 && |ItemsName(slot)| < MAX_NAME_LENGTH - 1 && |SpaceName(slot)| < MAX_NAME_LENGTH - 1
  {
    assert |Decimal(slot)| <= 2;
  }

  /** Three new semaphores are where their names find them. */
  lemma CreatedPlaced(sems: seq<Sem>, slot: nat) returns (c: Slots)
    requires slot < MAX_PIPES && Fresh(sems, slot) && CreateObject(sems, slot).1
    ensures var after := CreateObject(sems, slot).0;
      && NamedFor(c, slot) && SlotsOk(c, after) && AllPlaced(c, after)
      && Held(c, after) == Three(Sem(LockName(slot), true, 1, [], 1), Sem(ItemsName(slot), true, 0, [], 1),
                                 Sem(SpaceName(slot), true, P.PIPE_BUFFER_SIZE, [], 1))
  {
    hide LockName, ItemsName, SpaceName, CreateObject, Room;
    var a, b, d := CreateEffect(sems, slot);
    c := Slots(a, b, d, LockName(slot), ItemsName(slot), SpaceName(slot));
    NamesShort(slot);
    ShortNames(slot);
    var after := CreateObject(sems, slot).0;
  }

  /** Creating the pipe puts kernel and pipe in step. */
  lemma CreatedGood(k: KernelState, slot: nat, pids: seq<int>, w: PR.World) returns (c: Slots)
    requires Inv(k) && k.sched.current >= 0 && k.sched.current != k.sched.idle && PidsOk(pids, k.sched.idle)
    requires slot < MAX_PIPES && Fresh(k.sems, slot) && CreateObject(k.sems, slot).1 && New(slot, |pids|, w)
    ensures NamedFor(c, slot) && Good(c, pids, Machine(Created(k, slot), w))
  {
    c := CreatedPlaced(k.sems, slot);
    CreatedInv(k, slot);
    PR.InitialInv(w);
    hide Inv, PR.Inv, Fresh, LockName, ItemsName, SpaceName, CreateObject, AllPlaced, SlotsOk;
    assert Renamed(pids, []) == [];
    assert RenamedThree(pids, Held(c, Created(k, slot).sems)) == ThreeOf(w.pipe);
  }

  /** What a reader of the pipe and of the kernel's table sees. */
  ghost predicate InOrder(c: Slots, t: Machine) {
    && t.w.delivered <= t.w.deposited
    && (t.w.pipe.ring.writeIndex - t.w.pipe.ring.readIndex) % P.PIPE_BUFFER_SIZE == PR.Pending(t.w) % P.PIPE_BUFFER_SIZE
    && c.space < |t.k.sems|
    && var space := t.k.sems[c.space];
       PR.Pending(t.w) + PR.OnSemaphore(space) + PR.InHand(PR.SpaceHeld(t.w), space) == P.PIPE_BUFFER_SIZE
  }

  lemma InOrderAfter(c: Slots, pids: seq<int>, s: Machine, steps: seq<Step>)
    requires Good(c, pids, s) && PR.Initial(s.w) && Possible(c, pids, s, steps)
    ensures After(c, pids, s, steps).w.inUse ==> InOrder(c, After(c, pids, s, steps))
  {
    RunsPipe(c, pids, s, steps);
    hide Good, Possible, After, PR.Possible, PR.After, PR.Inv, PR.Initial, MovesOf, InOrder, PipeInOrder;
    PipeFifo(s.w, MovesOf(steps));
    if After(c, pids, s, steps).w.inUse {
      SeenOnKernel(c, pids, After(c, pids, s, steps));
    }
  }

  ghost predicate PipeInOrder(w: PR.World) {
    && w.delivered <= w.deposited
    && (w.pipe.ring.writeIndex - w.pipe.ring.readIndex) % P.PIPE_BUFFER_SIZE == PR.Pending(w) % P.PIPE_BUFFER_SIZE
    && PR.Pending(w) + PR.OnSemaphore(w.pipe.space) + PR.InHand(PR.SpaceHeld(w), w.pipe.space) == P.PIPE_BUFFER_SIZE
  }

  lemma PipeFifo(w: PR.World, ms: seq<PR.Move>)
    requires PR.Initial(w)
    ensures PR.Inv(w) && (PR.Possible(w, ms) && PR.After(w, ms).inUse ==> PipeInOrder(PR.After(w, ms)))
  {
    hide PR.Inv, PR.Initial, PR.Possible, PR.After;
    PR.Fifo(w, ms);
  }

  lemma SeenOnKernel(c: Slots, pids: seq<int>, t: Machine)
    requires Good(c, pids, t) && t.w.inUse && PipeInOrder(t.w)
    ensures InOrder(c, t)
  {
    hide Good, PR.Pending, PR.SpaceHeld;
    TokensAre(c, pids, t);
  }

  /**
    First in, first out on the kernel: from the creation of a pipe, on every run of its processes among
    everything else the kernel does, the bytes delivered are a prefix of those deposited, and the
    pending bytes, the tokens on the kernel's semaphore and those in hand add up to the ring.
   */
  lemma Fifo(k: KernelState, slot: nat, pids: seq<int>, w: PR.World, steps: seq<Step>) returns (c: Slots)
    requires Inv(k) && k.sched.current >= 0 && k.sched.current != k.sched.idle && PidsOk(pids, k.sched.idle)
    requires slot < MAX_PIPES && Fresh(k.sems, slot) && CreateObject(k.sems, slot).1 && New(slot, |pids|, w)
    ensures NamedFor(c, slot) && Good(c, pids, Machine(Created(k, slot), w))
    ensures Possible(c, pids, Machine(Created(k, slot), w), steps) ==>
      var t := After(c, pids, Machine(Created(k, slot), w), steps);
      t.w.inUse ==> InOrder(c, t)
  {
    c := CreatedGood(k, slot, pids, w);
    hide Inv, Good, Fresh, CreateObject, Created, Possible, After, InOrder;
    if Possible(c, pids, Machine(Created(k, slot), w), steps) {
      InOrderAfter(c, pids, Machine(Created(k, slot), w), steps);
    }
  }

  lemma TokensAre(c: Slots, pids: seq<int>, t: Machine)
    requires Good(c, pids, t) && t.w.inUse
    ensures c.space < |t.k.sems|
    ensures t.k.sems[c.space].value == t.w.pipe.space.value && |t.k.sems[c.space].queue| == |t.w.pipe.space.queue|
  {
    hide Inv, PR.Inv, AllPlaced;
    assert ThreeOf(t.w.pipe).space == RenamedSem(pids, t.k.sems[c.space]);
  }

  // ---- End of file and release on the kernel ----

  /**
    On every run of the kernel after end of file: when a read of the pipe returns early, everything ever
    written has been delivered iff the ring was not full when end of file was set.
   */
  lemma EofDecides(c: Slots, pids: seq<int>, s: Machine, steps: seq<Step>, p: nat)
    requires Good(c, pids, s) && PipeEof.Ended(s.w) && Possible(c, pids, s, steps)
    requires PipeEof.ReturnsShort(After(c, pids, s, steps).w, p)
    ensures After(c, pids, s, steps).w.delivered == s.w.deposited <==> PR.Pending(s.w) < P.PIPE_BUFFER_SIZE
  {
    RunsPipe(c, pids, s, steps);
    hide Good, Possible, After, MovesOf, PR.Inv, PR.Possible, PR.After, PR.Pending, PipeEof.Ended, PipeEof.ReturnsShort;
    PipeEof.EofDecides(s.w, MovesOf(steps), p);
  }

  /**
    A reader queued when the tokens of the last close are used up and everything is delivered stays BLOCKED
    on the kernel's semaphore on every run, and the pipe's slot is never given back.
   */
  lemma Stranded(c: Slots, pids: seq<int>, s: Machine, steps: seq<Step>, p: nat)
    requires Good(c, pids, s) && PipeEof.Drained(s.w) && p in s.w.pipe.items.queue && Possible(c, pids, s, steps)
    ensures var t := After(c, pids, s, steps);
      && t.w.inUse && p < |pids| && c.items < |t.k.sems|
      && pids[p] in t.k.sems[c.items].queue && Is(t.k.sched.table, pids[p], BLOCKED)
  {
    RunsPipe(c, pids, s, steps);
    var t := After(c, pids, s, steps);
    hide Good, Possible, After, MovesOf, PR.Inv, PR.Possible, PR.After, PipeEof.Drained;
    PipeEof.Stranded(s.w, MovesOf(steps), p);
    QueuedOnKernel(c, pids, t, p);
  }

  /** A client queued in the pipe is BLOCKED, and queued on the kernel's semaphore. */
  lemma QueuedOnKernel(c: Slots, pids: seq<int>, t: Machine, p: nat)
    requires Good(c, pids, t) && t.w.inUse && p in t.w.pipe.items.queue
    ensures p < |pids| && c.items < |t.k.sems|
    ensures pids[p] in t.k.sems[c.items].queue && Is(t.k.sched.table, pids[p], BLOCKED)
  {
    assert t.w.pipe.items == RenamedSem(pids, t.k.sems[c.items]);
    assert Named(t.k.sems[c.items], c.itemsName);
    hide PR.Inv, Placed;
    var q := t.k.sems[c.items].queue;
    var a :| 0 <= a < |q| && Renamed(pids, q)[a] == p;
    assert IndexOf(pids, q[a]) == p;
    assert Waiter(t.k.sched, t.k.sems[c.items].queue[a]);
  }

  /** The pipe's three semaphores leave the kernel's table exactly when the last opening of either end is closed. */
  lemma ReleasedAtZero(c: Slots, pids: seq<int>, s: Machine, m: PR.Move)
    requires Good(c, pids, s) && Fits(c, pids, s.k, s.w, Pipe(m))
    ensures var t := Do(c, pids, s, Pipe(m));
      && SlotsOk(c, t.k.sems) && t.w.refs == t.w.readOpens + t.w.writeOpens
      && (t.k.sems[c.lock].open <==> t.w.refs > 0) && (t.k.sems[c.items].open <==> t.w.refs > 0)
      && (t.k.sems[c.space].open <==> t.w.refs > 0)
  {
    PipeStep(c, pids, s.k, s.w, m);
    GoodBase(c, pids, s);
    hide Good, Fits, Linked, PR.Inv, PR.Allowed, PR.Do, Inv, Run, EventsOf, OpsOf;
    PR.ReleasedAtZero(s.w, m);
    var t := Do(c, pids, s, Pipe(m));
    assert ThreeOf(t.w.pipe) == RenamedThree(pids, Held(c, t.k.sems));
  }
}
