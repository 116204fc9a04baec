/**
  Userland/userCodeModule/tests/test_sync.c as a whole program: workers that add to a shared variable
  with a read, a yield and a write, under one semaphore that each opens and closes. Any worker that
  is not waiting on the semaphore may take the next step, so a run is any schedule at all.
 */
module TestSync {
  import opened Semaphores
  import opened Sums

  const SEM_ID := "sem"

  /** Where a worker is in my_process_inc; i counts the finished rounds of its loop. */
  datatype Pc =
    | Opening
    | AtWait(i: nat)
    | AtRead(i: nat)
    | AtWrite(i: nat, aux: int)
    | AtPost(i: nat)
    | AtClose
    | Exited
    | Failed

  datatype Worker = Worker(inc: int, pc: Pc)

  /** The semaphore table, the workers (a worker's pid is its index) and the shared int64_t. */
  datatype World = World(sems: seq<Sem>, workers: seq<Worker>, global: int)

  /** The int64_t that a sum stands for. */
  function Wrap(x: int): int {
    (x + 0x8000_0000_0000_0000) % 0x1_0000_0000_0000_0000 - 0x8000_0000_0000_0000
  }

  /** It is the one 64-bit signed number that differs from x by a multiple of 2^64. */
  lemma WrapIs(x: int, y: int)
    requires -0x8000_0000_0000_0000 <= y < 0x8000_0000_0000_0000
    ensures y == Wrap(x) <==> (x - y) % 0x1_0000_0000_0000_0000 == 0
  {
    var k := (x + 0x8000_0000_0000_0000) / 0x1_0000_0000_0000_0000;
    assert x - Wrap(x) == k * 0x1_0000_0000_0000_0000;
    if (x - y) % 0x1_0000_0000_0000_0000 == 0 {
      var m := (x - y) / 0x1_0000_0000_0000_0000;
      assert x - y == m * 0x1_0000_0000_0000_0000;
    }
  }

  lemma WrapAdds(x: int, y: int)
    ensures Wrap(Wrap(x) + y) == Wrap(x + y)
  {
  }

  predicate Waiting(sems: seq<Sem>, w: int) {
    var i := Find(sems, SEM_ID);
    i >= 0 && w in sems[i].queue
  }

  function Goto(s: World, w: nat, pc: Pc): World
    requires w < |s.workers|
  {
    s.(workers := s.workers[w := s.workers[w].(pc := pc)])
  }

  /** The program point after round i. */
  function AfterRound(n: nat, useSem: bool, i: nat): Pc {
    if i + 1 < n then if useSem then AtWait(i + 1) else AtRead(i + 1)
    else if useSem then AtClose else Exited
  }

  /** One step of worker w: a system call, or a read or write of the shared variable. */
  function WorkerStep(n: nat, useSem: bool, s: World, w: nat): World
    requires w < |s.workers|
  {
    match s.workers[w].pc
    case Opening =>
      if !useSem then Goto(s, w, AtRead(0))
      else
        var (sems, r) := Open(s.sems, SEM_ID, 1);
        Goto(s.(sems := sems), w, if r == -2 then Failed else AtWait(0))
    case AtWait(i) =>
      var j := Find(s.sems, SEM_ID);
      if j < 0 then Goto(s, w, Failed)
      else Goto(s.(sems := s.sems[j := Down(s.sems[j], w).0]), w, AtRead(i))
    case AtRead(i) => Goto(s, w, AtWrite(i, s.global))
    case AtWrite(i, aux) =>
      Goto(s.(global := Wrap(aux + s.workers[w].inc)), w, if useSem then AtPost(i) else AfterRound(n, useSem, i))
    case AtPost(i) =>
      var j := Find(s.sems, SEM_ID);
      if j < 0 then Goto(s, w, Failed)
      else Goto(s.(sems := s.sems[j := Up(s.sems[j]).0]), w, AfterRound(n, useSem, i))
    case AtClose =>
      var (sems, r) := Close(s.sems, SEM_ID);
      Goto(s.(sems := sems), w, if r != 0 then Failed else Exited)
    case Exited => s
    case Failed => s
  }

  /** A move: worker w takes a step, or other programs change the other semaphores. */
  datatype Move = Work(w: nat) | Others(sems: seq<Sem>)

  /**
    A worker moves when it is not waiting. Other programs never touch this semaphore, and while it
    does not exist they leave a slot free for it.
   */
  ghost predicate Allowed(s: World, m: Move) {
    match m
    case Work(w) =>
      w < |s.workers| && !Waiting(s.sems, w)
    case Others(sems) =>
      var i := Find(s.sems, SEM_ID);
      && |sems| == |s.sems|
      && (forall k | 0 <= k < |sems| && k != i :: !Named(sems[k], SEM_ID))
      && (if i >= 0 then sems[i] == s.sems[i] else FindClosed(sems) >= 0)
  }

  function Do(n: nat, useSem: bool, s: World, m: Move): World
    requires m.Work? ==> m.w < |s.workers|
  {
    match m
    case Work(w) => WorkerStep(n, useSem, s, w)
    case Others(sems) => s.(sems := sems)
  }

  /** Nobody has begun, and there is a slot for the semaphore. */
  ghost predicate Begins(s: World) {
    && Find(s.sems, SEM_ID) == -1 && FindClosed(s.sems) >= 0
    && (forall w | w in s.workers :: w.pc == Opening)
    && s.global == 0
  }

  ghost predicate Initial(s: World) {
    Begins(s) && |s.workers| <= PROCESSES_BLOCKED + 1
  }

  // ---- Counting over the workers ----

  /** 1 for a worker that has opened the semaphore and not yet closed it. */
  function Holding(w: Worker): int {
    if w.pc.Opening? || w.pc.Exited? || w.pc.Failed? then 0 else 1
  }

  /** What a worker has added to the shared variable so far. */
  function Added(n: nat, w: Worker): int {
    match w.pc
    case Opening => 0
    case AtWait(i) => i * w.inc
    case AtRead(i) => i * w.inc
    case AtWrite(i, _) => i * w.inc
    case AtPost(i) => (i + 1) * w.inc
    case AtClose => n * w.inc
    case Exited => n * w.inc
    case Failed => 0
  }

  ghost function AddedIn(n: nat): Worker -> int { v => Added(n, v) }

  ghost function HoldingOf(): Worker -> int { v => Holding(v) }

  // ---- The invariant ----

  predicate InRound(pc: Pc) { pc.AtRead? || pc.AtWrite? || pc.AtPost? }

  /** Between sem_wait and sem_post, and not held up in sem_wait. */
  predicate Inside(s: World, w: int) {
    0 <= w < |s.workers| && InRound(s.workers[w].pc) && !Waiting(s.sems, w)
  }

  ghost predicate RoundsOk(n: nat, pc: Pc) {
    match pc
    case AtWait(i) => i < n
    case AtRead(i) => i < n
    case AtWrite(i, _) => i < n
    case AtPost(i) => i < n
    case Failed => false
    case _ => true
  }

  /** The state of the semaphore while it exists. */
  ghost predicate SemOk(s: World, sem: Sem) {
    && 1 <= sem.openings == Sum(s.workers, HoldingOf())
    && sem.value <= 1 && |sem.queue| == (if sem.value < 0 then -sem.value else 0)
    && (forall a, b | 0 <= a < b < |sem.queue| :: sem.queue[a] != sem.queue[b])
    && (forall a | 0 <= a < |sem.queue| :: 0 <= sem.queue[a] < |s.workers| && s.workers[sem.queue[a]].pc.AtRead?)
    && (sem.value == 1 ==> forall w | 0 <= w < |s.workers| :: !InRound(s.workers[w].pc))
    && (sem.value <= 0 ==> exists h :: Inside(s, h))
  }

  ghost predicate Inv(n: nat, s: World) {
    var i := Find(s.sems, SEM_ID);
    && n > 0 && OnlyAt(s.sems, i)
    && |s.workers| <= PROCESSES_BLOCKED + 1
    && (forall w | 0 <= w < |s.workers| :: RoundsOk(n, s.workers[w].pc))
    && (forall w, v | Inside(s, w) && Inside(s, v) :: w == v)
    && (forall w | 0 <= w < |s.workers| && s.workers[w].pc.AtWrite? :: s.workers[w].pc.aux == s.global)
    && s.global == Wrap(Sum(s.workers, AddedIn(n)))
    && (if i >= 0 then SemOk(s, s.sems[i])
        else FindClosed(s.sems) >= 0 && forall w | 0 <= w < |s.workers| :: s.workers[w].pc == Opening || s.workers[w].pc == Exited)
  }

  lemma InitialInv(n: nat, s: World)
    requires n > 0 && Initial(s)
    ensures Inv(n, s)
  {
    SumOfEach(s.workers, AddedIn(n));
  }

  // ---- Each step keeps the invariant ----

  /** No slot but j has the semaphore's name. */
  ghost predicate OnlyAt(sems: seq<Sem>, j: int) {
    forall k | 0 <= k < |sems| && k != j :: !Named(sems[k], SEM_ID)
  }

  /** The semaphore's slot stays the one that is found. */
  lemma FoundAt(sems: seq<Sem>, after: seq<Sem>, j: nat)
    requires j < |sems| == |after| && after == sems[j := after[j]]
    requires Named(after[j], SEM_ID) && OnlyAt(sems, j)
    ensures Find(after, SEM_ID) == j && OnlyAt(after, j)
  {
  }

  /** Moving worker w to a new program point, as seen by the two sums. */
  lemma Moved(n: nat, s: World, w: nat, pc: Pc)
    requires w < |s.workers|
    ensures var v, ws := s.workers[w].(pc := pc), Goto(s, w, pc).workers;
      && Sum(ws, HoldingOf()) == Sum(s.workers, HoldingOf()) - Holding(s.workers[w]) + Holding(v)
      && Sum(ws, AddedIn(n)) == Sum(s.workers, AddedIn(n)) - Added(n, s.workers[w]) + Added(n, v)
  {
    SumUpdate(s.workers, HoldingOf(), w, s.workers[w].(pc := pc));
    SumUpdate(s.workers, AddedIn(n), w, s.workers[w].(pc := pc));
  }

  lemma HolderFindsIt(n: nat, s: World, w: nat)
    requires Inv(n, s) && w < |s.workers| && s.workers[w].pc != Opening && s.workers[w].pc != Exited
    ensures var i := Find(s.sems, SEM_ID); i >= 0 && SemOk(s, s.sems[i])
  {
  }

  lemma OpenKeeps(n: nat, s: World, w: nat)
    requires Inv(n, s) && w < |s.workers| && s.workers[w].pc == Opening && !Waiting(s.sems, w)
    ensures Inv(n, WorkerStep(n, true, s, w))
  {
    var i := Find(s.sems, SEM_ID);
    var t := WorkerStep(n, true, s, w);
    Moved(n, s, w, AtWait(0));
    if i >= 0 {
      FoundAt(s.sems, t.sems, i);
      var h: int :| s.sems[i].value <= 0 ==> Inside(s, h);
      assert s.sems[i].value <= 0 ==> Inside(t, h);
    } else {
      SumOfEach(s.workers, HoldingOf());
      FoundAt(s.sems, t.sems, FindClosed(s.sems));
    }
    assert forall v :: Inside(t, v) ==> Inside(s, v);
  }

  /** A wait on a taken semaphore: the worker is past its sem_wait in the program, but queued. */
  lemma WaitQueues(n: nat, s: World, w: nat)
    requires Inv(n, s) && w < |s.workers| && s.workers[w].pc.AtWait? && !Waiting(s.sems, w)
    requires s.sems[Find(s.sems, SEM_ID)].value <= 0
    ensures Inv(n, WorkerStep(n, true, s, w))
  {
    HolderFindsIt(n, s, w);
    var j := Find(s.sems, SEM_ID);
    var t := WorkerStep(n, true, s, w);
    var q, q' := s.sems[j].queue, t.sems[j].queue;
    Moved(n, s, w, t.workers[w].pc);
    FoundAt(s.sems, t.sems, j);
    hide Wrap, AddedIn, HoldingOf;
    assert q' == q + [w];
    var h :| Inside(s, h);
    assert Inside(t, h);
    assert forall v :: Inside(t, v) ==> Inside(s, v);
  }

  /** A wait on a free semaphore lets the worker in. */
  lemma WaitEnters(n: nat, s: World, w: nat)
    requires Inv(n, s) && w < |s.workers| && s.workers[w].pc.AtWait? && !Waiting(s.sems, w)
    requires s.sems[Find(s.sems, SEM_ID)].value > 0
    ensures Inv(n, WorkerStep(n, true, s, w))
  {
    HolderFindsIt(n, s, w);
    var j := Find(s.sems, SEM_ID);
    var t := WorkerStep(n, true, s, w);
    Moved(n, s, w, t.workers[w].pc);
    FoundAt(s.sems, t.sems, j);
    hide Wrap, AddedIn, HoldingOf;
    assert s.sems[j].queue == [] && Inside(t, w);
    assert forall v :: Inside(t, v) ==> v == w;
  }

  lemma ReadKeeps(n: nat, s: World, w: nat)
    requires Inv(n, s) && w < |s.workers| && s.workers[w].pc.AtRead? && !Waiting(s.sems, w)
    ensures Inv(n, WorkerStep(n, true, s, w))
  {
    HolderFindsIt(n, s, w);
    var t := WorkerStep(n, true, s, w);
    Moved(n, s, w, t.workers[w].pc);
    assert Inside(s, w) && Inside(t, w);
    assert forall v :: Inside(t, v) ==> Inside(s, v);
    assert w !in s.sems[Find(s.sems, SEM_ID)].queue;
  }

  lemma WriteAdds(n: nat, v: Worker)
    requires v.pc.AtWrite?
    ensures Added(n, v.(pc := AtPost(v.pc.i))) == Added(n, v) + v.inc
  {
    assert (v.pc.i + 1) * v.inc == v.pc.i * v.inc + v.inc;
  }

  lemma WriteKeeps(n: nat, s: World, w: nat)
    requires Inv(n, s) && w < |s.workers| && s.workers[w].pc.AtWrite? && !Waiting(s.sems, w)
    ensures Inv(n, WorkerStep(n, true, s, w))
  {
    hide Wrap, Added;
    HolderFindsIt(n, s, w);
    var t := WorkerStep(n, true, s, w);
    Moved(n, s, w, t.workers[w].pc);
    WriteAdds(n, s.workers[w]);
    assert Inside(s, w) && Inside(t, w);
    assert forall v :: Inside(t, v) ==> Inside(s, v);
    WrapAdds(Sum(s.workers, AddedIn(n)), s.workers[w].inc);
    forall v | 0 <= v < |s.workers| && v != w
      ensures !s.workers[v].pc.AtWrite?
    {
      var inside := Inside(s, v);
    }
  }

  /** A post with nobody waiting frees the semaphore: the worker inside was the only one. */
  lemma PostFrees(n: nat, s: World, w: nat)
    requires Inv(n, s) && w < |s.workers| && s.workers[w].pc.AtPost? && !Waiting(s.sems, w)
    requires s.sems[Find(s.sems, SEM_ID)].queue == []
    ensures Inv(n, WorkerStep(n, true, s, w))
  {
    HolderFindsIt(n, s, w);
    var j := Find(s.sems, SEM_ID);
    var t := WorkerStep(n, true, s, w);
    Moved(n, s, w, t.workers[w].pc);
    FoundAt(s.sems, t.sems, j);
    assert Inside(s, w);
    assert forall v :: Inside(t, v) ==> v != w && Inside(s, v);
    forall v | 0 <= v < |s.workers| && v != w
      ensures !InRound(s.workers[v].pc)
    {
      var inside := Inside(s, v);
    }
  }

  /** A post with waiters lets the first of them in as the worker inside leaves. */
  lemma PostHandsOver(n: nat, s: World, w: nat)
    requires Inv(n, s) && w < |s.workers| && s.workers[w].pc.AtPost? && !Waiting(s.sems, w)
    requires s.sems[Find(s.sems, SEM_ID)].queue != []
    ensures Inv(n, WorkerStep(n, true, s, w))
  {
    HolderFindsIt(n, s, w);
    var j := Find(s.sems, SEM_ID);
    var t := WorkerStep(n, true, s, w);
    var q, q' := s.sems[j].queue, t.sems[j].queue;
    Moved(n, s, w, t.workers[w].pc);
    FoundAt(s.sems, t.sems, j);
    hide Wrap, AddedIn, HoldingOf;
    assert Inside(s, w);
    var h := q[0];
    assert q == [h] + q';
    assert Inside(t, h);
    forall v | Inside(t, v)
      ensures v == h
    {
      assert v == w || v == h || !Inside(s, v);
    }
  }

  /** A close while others have the semaphore open only counts one opening fewer. */
  lemma CloseLeavesOpen(n: nat, s: World, w: nat)
    requires Inv(n, s) && w < |s.workers| && s.workers[w].pc.AtClose? && !Waiting(s.sems, w)
    requires s.sems[Find(s.sems, SEM_ID)].openings > 1
    ensures Inv(n, WorkerStep(n, true, s, w))
  {
    HolderFindsIt(n, s, w);
    var j := Find(s.sems, SEM_ID);
    var t := WorkerStep(n, true, s, w);
    Moved(n, s, w, Exited);
    FoundAt(s.sems, t.sems, j);
    hide Wrap, AddedIn;
    var h: int :| s.sems[j].value <= 0 ==> Inside(s, h);
    assert s.sems[j].value <= 0 ==> Inside(t, h);
    assert forall v :: Inside(t, v) ==> Inside(s, v);
  }

  /** The last close takes the semaphore away. */
  lemma CloseLast(n: nat, s: World, w: nat)
    requires Inv(n, s) && w < |s.workers| && s.workers[w].pc.AtClose? && !Waiting(s.sems, w)
    requires s.sems[Find(s.sems, SEM_ID)].openings <= 1
    ensures Inv(n, WorkerStep(n, true, s, w))
  {
    HolderFindsIt(n, s, w);
    var j := Find(s.sems, SEM_ID);
    var t := WorkerStep(n, true, s, w);
    Moved(n, s, w, Exited);
    hide Wrap, AddedIn;
    assert t.sems == s.sems[j := t.sems[j]] && !t.sems[j].open && OnlyAt(t.sems, j);
    NoneHold(t.workers, n);
  }

  /** When nobody holds the semaphore open, everybody has yet to open it or is done. */
  lemma NoneHold(ws: seq<Worker>, n: nat)
    requires Sum(ws, HoldingOf()) <= 0 && forall v | 0 <= v < |ws| :: RoundsOk(n, ws[v].pc)
    ensures forall v | 0 <= v < |ws| :: ws[v].pc == Opening || ws[v].pc == Exited
  {
    forall v | 0 <= v < |ws|
      ensures ws[v].pc == Opening || ws[v].pc == Exited
    {
      SumAtLeast(ws, HoldingOf(), v);
    }
  }

  lemma OthersKeep(n: nat, s: World, sems: seq<Sem>)
    requires Inv(n, s) && Allowed(s, Others(sems))
    ensures Inv(n, s.(sems := sems))
  {
    var i := Find(s.sems, SEM_ID);
    var t := s.(sems := sems);
    if i >= 0 {
      assert Named(sems[i], SEM_ID) && Find(sems, SEM_ID) == i;
      var h: int :| s.sems[i].value <= 0 ==> Inside(s, h);
      assert s.sems[i].value <= 0 ==> Inside(t, h);
    }
    assert forall v :: Inside(t, v) ==> Inside(s, v);
  }

  lemma MoveKeeps(n: nat, s: World, m: Move)
    requires Inv(n, s) && Allowed(s, m)
    ensures Inv(n, Do(n, true, s, m))
  {
    hide Inv;
    if m.Work? && s.workers[m.w].pc != Opening && s.workers[m.w].pc != Exited {
      HolderFindsIt(n, s, m.w);
    }
    match m
    case Others(sems) => OthersKeep(n, s, sems);
    case Work(w) =>
      match s.workers[w].pc
      case Opening => OpenKeeps(n, s, w);
      case AtWait(_) =>
        if s.sems[Find(s.sems, SEM_ID)].value <= 0 {
          WaitQueues(n, s, w);
        } else {
          WaitEnters(n, s, w);
        }
      case AtRead(_) => ReadKeeps(n, s, w);
      case AtWrite(_, _) => WriteKeeps(n, s, w);
      case AtPost(_) =>
        if s.sems[Find(s.sems, SEM_ID)].queue == [] {
          PostFrees(n, s, w);
        } else {
          PostHandsOver(n, s, w);
        }
      case AtClose =>
        if s.sems[Find(s.sems, SEM_ID)].openings > 1 {
          CloseLeavesOpen(n, s, w);
        } else {
          CloseLast(n, s, w);
        }
      case _ =>
  }

  // ---- Whole runs ----

  ghost predicate Possible(n: nat, useSem: bool, s: World, ms: seq<Move>)
    decreases |ms|
  {
    ms == [] || (Allowed(s, ms[0]) && Possible(n, useSem, Do(n, useSem, s, ms[0]), ms[1..]))
  }

  ghost function After(n: nat, useSem: bool, s: World, ms: seq<Move>): World
    requires Possible(n, useSem, s, ms)
    decreases |ms|
  {
    if ms == [] then s else After(n, useSem, Do(n, useSem, s, ms[0]), ms[1..])
  }

  lemma {:induction false} RunKeeps(n: nat, s: World, ms: seq<Move>)
    requires Inv(n, s) && Possible(n, true, s, ms)
    ensures Inv(n, After(n, true, s, ms)) && |After(n, true, s, ms).workers| == |s.workers|
    ensures Sum(After(n, true, s, ms).workers, IncOf()) == Sum(s.workers, IncOf())
    decreases |ms|
  {
    if ms != [] {
      hide Inv;
      MoveKeeps(n, s, ms[0]);
      MoveKeepsIncs(n, s, ms[0]);
      RunKeeps(n, Do(n, true, s, ms[0]), ms[1..]);
    }
  }

  ghost function IncOf(): Worker -> int { (v: Worker) => v.inc }

  lemma MoveKeepsIncs(n: nat, s: World, m: Move)
    requires Allowed(s, m)
    ensures var t := Do(n, true, s, m);
      |t.workers| == |s.workers| && Sum(t.workers, IncOf()) == Sum(s.workers, IncOf())
  {
    if m.Work? {
      var t := Do(n, true, s, m);
      SumUpdate(s.workers, IncOf(), m.w, t.workers[m.w]);
    }
  }

  /**
    Mutual exclusion: in every schedule, across every close and re-opening of the semaphore, at most
    one worker is between sem_wait and sem_post, and no worker's system call ever fails.
   */
  lemma MutualExclusion(n: nat, s: World, ms: seq<Move>, w: nat, v: nat)
    requires n > 0 && Initial(s) && Possible(n, true, s, ms)
    ensures var t := After(n, true, s, ms);
      && (Inside(t, w) && Inside(t, v) ==> w == v)
      && (w < |t.workers| ==> t.workers[w].pc != Failed)
  {
    InitialInv(n, s);
    RunKeeps(n, s, ms);
  }

  lemma {:induction false} AllExited(n: nat, ws: seq<Worker>)
    requires forall w | w in ws :: w.pc == Exited
    ensures Sum(ws, AddedIn(n)) == n * Sum(ws, IncOf())
    decreases |ws|
  {
    if ws != [] {
      AllExited(n, ws[1..]);
      assert n * (ws[0].inc + Sum(ws[1..], IncOf())) == n * ws[0].inc + n * Sum(ws[1..], IncOf());
    }
  }

  /**
    No update is lost: once all workers have exited, the shared variable holds n times the sum of the
    increments, wrapped to 64 bits. With as many +1 as -1 workers it is 0, for every n and schedule.
   */
  lemma NothingLost(n: nat, s: World, ms: seq<Move>)
    requires n > 0 && Initial(s) && Possible(n, true, s, ms)
    requires forall w | w in After(n, true, s, ms).workers :: w.pc == Exited
    ensures After(n, true, s, ms).global == Wrap(n * Sum(s.workers, IncOf()))
    ensures Sum(s.workers, IncOf()) == 0 ==> After(n, true, s, ms).global == 0
  {
    hide Inv, Initial, Possible, After, Wrap;
    InitialInv(n, s);
    RunKeeps(n, s, ms);
    var t := After(n, true, s, ms);
    InvGlobal(n, t);
    AllExited(n, t.workers);
    WrapIs(0, 0);
  }

  lemma InvGlobal(n: nat, s: World)
    requires Inv(n, s)
    ensures s.global == Wrap(Sum(s.workers, AddedIn(n)))
  {
  }

  /** Nothing is left behind: once all workers have exited, the semaphore they shared is gone from the table. */
  lemma NothingLeft(n: nat, s: World, ms: seq<Move>)
    requires n > 0 && Initial(s) && Possible(n, true, s, ms)
    requires forall w | w in After(n, true, s, ms).workers :: w.pc == Exited
    ensures Find(After(n, true, s, ms).sems, SEM_ID) == -1
  {
    InitialInv(n, s);
    RunKeeps(n, s, ms);
    hide Initial, Possible, After;
    NobodyHolds(n, After(n, true, s, ms));
  }

  lemma NobodyHolds(n: nat, s: World)
    requires Inv(n, s) && forall w | w in s.workers :: w.pc == Exited
    ensures Find(s.sems, SEM_ID) == -1
  {
    SumOfEach(s.workers, HoldingOf());
  }

  /** Eleven workers never overflow the semaphore's ten waiting places. */
  lemma QueueHasRoom(n: nat, s: World, w: nat)
    requires Inv(n, s) && w < |s.workers| && s.workers[w].pc.AtWait?
    ensures var i := Find(s.sems, SEM_ID);
      i >= 0 && (s.sems[i].value <= 0 ==> |s.sems[i].queue| < PROCESSES_BLOCKED)
  {
    HolderFindsIt(n, s, w);
    var sem := s.sems[Find(s.sems, SEM_ID)];
    if sem.value <= 0 {
      var h :| Inside(s, h);
      DistinctBelow(sem.queue, |s.workers|, {w, h});
    }
  }

  /** While some worker has not exited, some such worker can take a step: the program cannot deadlock. */
  lemma NoDeadlock(n: nat, s: World, w: nat) returns (v: nat)
    requires Inv(n, s) && w < |s.workers| && s.workers[w].pc != Exited
    ensures v < |s.workers| && s.workers[v].pc != Exited && Allowed(s, Work(v))
  {
    v := w;
    if Waiting(s.sems, w) {
      var h :| Inside(s, h);
      v := h;
    }
  }

  // ---- Twelve workers are too many ----

  /** Every wait of the program finds a place in the queue, should it need one. */
  ghost predicate RoomFor(count: nat) {
    forall n: nat, s, ms, w: nat |
      n > 0 && Begins(s) && |s.workers| == count && Possible(n, true, s, ms) && w < count :: HasRoom(After(n, true, s, ms), w)
  }

  ghost predicate HasRoom(s: World, w: nat) {
    var i := Find(s.sems, SEM_ID);
    w < |s.workers| && s.workers[w].pc.AtWait? && i >= 0 && s.sems[i].value <= 0 ==> |s.sems[i].queue| < PROCESSES_BLOCKED
  }

  /** Twelve workers open the semaphore one after another, and then eleven of them wait: the k-th state. */
  function Crowd(s: World, c: nat, k: nat): World
    requires c < |s.sems|
  {
    var sem := Sem(SEM_ID, true, if k <= 12 then 1 else 13 - k, Line(k), if k <= 12 then k else 12);
    World(if k == 0 then s.sems else s.sems[c := sem],
          seq(|s.workers|, i requires 0 <= i < |s.workers| => s.workers[i].(pc := CrowdPc(k, i))), s.global)
  }

  function CrowdPc(k: nat, i: nat): Pc {
    if i >= 12 || k <= i then Opening else if k <= 12 + i then AtWait(0) else AtRead(0)
  }

  /** Worker 0 is inside; workers 1, 2, ... queue up. */
  function Line(k: nat): seq<int> {
    if k <= 13 then [] else Line(k - 1) + [k - 13]
  }

  function Actor(k: nat): nat { if k < 12 then k else k - 12 }

  lemma CrowdFinds(s: World, c: nat, k: nat)
    requires Find(s.sems, SEM_ID) == -1 && FindClosed(s.sems) == c && 0 < k
    ensures Find(Crowd(s, c, k).sems, SEM_ID) == c
  {
    FoundAt(s.sems, Crowd(s, c, k).sems, c);
  }

  lemma InLine(k: nat)
    ensures forall p | p in Line(k) :: 0 < p <= k - 13
    ensures |Line(k)| == if k <= 13 then 0 else k - 13
  {
  }

  lemma CrowdStep(n: nat, s: World, c: nat, k: nat)
    requires Begins(s) && |s.workers| >= 12 && FindClosed(s.sems) == c && k < 23
    ensures Allowed(Crowd(s, c, k), Work(Actor(k)))
    ensures Do(n, true, Crowd(s, c, k), Work(Actor(k))) == Crowd(s, c, k + 1)
  {
    var t, w := Crowd(s, c, k), Actor(k);
    InLine(k);
    if k > 0 {
      CrowdFinds(s, c, k);
    }
    hide Find, FindClosed;
    assert t.workers[w].pc == if k < 12 then Opening else AtWait(0);
    assert Do(n, true, t, Work(w)).sems == Crowd(s, c, k + 1).sems;
    assert Do(n, true, t, Work(w)).workers == Crowd(s, c, k + 1).workers;
  }

  function CrowdTurns(k: nat): seq<Move>
    requires k <= 23
    decreases 23 - k
  {
    if k == 23 then [] else [Work(Actor(k))] + CrowdTurns(k + 1)
  }

  lemma {:induction false} CrowdRuns(n: nat, s: World, c: nat, k: nat)
    requires Begins(s) && |s.workers| >= 12 && FindClosed(s.sems) == c && k <= 23
    ensures Possible(n, true, Crowd(s, c, k), CrowdTurns(k))
    ensures After(n, true, Crowd(s, c, k), CrowdTurns(k)) == Crowd(s, c, 23)
    decreases 23 - k
  {
    if k < 23 {
      hide Find, FindClosed, Do, Allowed, Crowd, Begins, Actor;
      CrowdStep(n, s, c, k);
      CrowdRuns(n, s, c, k + 1);
      assert CrowdTurns(k)[0] == Work(Actor(k)) && CrowdTurns(k)[1..] == CrowdTurns(k + 1);
    }
  }

  lemma CrowdStarts(s: World, c: nat)
    requires Begins(s) && c < |s.sems|
    ensures Crowd(s, c, 0) == s
  {
    hide Find, FindClosed;
    var t := Crowd(s, c, 0);
    forall i | 0 <= i < |s.workers|
      ensures t.workers[i] == s.workers[i]
    {
      assert s.workers[i] in s.workers;
    }
    assert t.workers == s.workers;
  }

  lemma CrowdFull(s: World, c: nat)
    requires Find(s.sems, SEM_ID) == -1 && FindClosed(s.sems) == c && |s.workers| >= 12
    ensures !HasRoom(Crowd(s, c, 23), 11)
  {
    CrowdFinds(s, c, 23);
    InLine(23);
    hide Find, FindClosed, Line;
    assert Crowd(s, c, 23).workers[11].pc == CrowdPc(23, 11) == AtWait(0);
  }

  /** The twelfth worker's wait comes when the queue's ten places are taken. */
  lemma TwelfthWaits(n: nat, s: World)
    requires Begins(s) && |s.workers| >= 12
    ensures Possible(n, true, s, CrowdTurns(0)) && !HasRoom(After(n, true, s, CrowdTurns(0)), 11)
  {
    var c := FindClosed(s.sems);
    CrowdRuns(n, s, c, 0);
    CrowdStarts(s, c);
    CrowdFull(s, c);
  }

  /** The queue's ten places are enough exactly for eleven workers. */
  lemma RoomExact(count: nat)
    ensures RoomFor(count) <==> count <= PROCESSES_BLOCKED + 1
  {
    hide Find, FindClosed, Possible, After, CrowdTurns;
    if count <= PROCESSES_BLOCKED + 1 {
      forall n: nat, s, ms, w: nat | n > 0 && Begins(s) && |s.workers| == count && Possible(n, true, s, ms) && w < count
        ensures HasRoom(After(n, true, s, ms), w)
      {
        InitialInv(n, s);
        RunKeeps(n, s, ms);
        var t := After(n, true, s, ms);
        hide Inv;
        if t.workers[w].pc.AtWait? {
          QueueHasRoom(n, t, w);
        }
      }
    } else {
      var sems := [UNUSED];
      var s := World(sems, seq(count, _ => Worker(1, Opening)), 0);
      OneSlot();
      TwelfthWaits(1, s);
      assert 11 < count && !HasRoom(After(1, true, s, CrowdTurns(0)), 11);
    }
  }

  lemma OneSlot()
    ensures Find([UNUSED], SEM_ID) == -1 && FindClosed([UNUSED]) == 0
  {
    assert Find([UNUSED], SEM_ID, 1) == -1;
  }

  // ---- The race that the semaphore is there to prevent ----

  /** Two workers without the semaphore, one round each, taking turns: both read before either writes. */
  function Race(sems: seq<Sem>, k: nat): World {
    World(sems,
      [Worker(1, if k == 0 then Opening else if k <= 2 then AtRead(0) else if k <= 4 then AtWrite(0, 0) else Exited),
       Worker(-1, if k <= 1 then Opening else if k <= 3 then AtRead(0) else if k <= 5 then AtWrite(0, 0) else Exited)],
      if k <= 4 then 0 else if k == 5 then 1 else -1)
  }

  function Turns(k: nat): seq<Move>
    requires k <= 6
    decreases 6 - k
  {
    if k == 6 then [] else [Work(k % 2)] + Turns(k + 1)
  }

  lemma RaceStep(sems: seq<Sem>, k: nat)
    requires Find(sems, SEM_ID) == -1 && k < 6
    ensures Allowed(Race(sems, k), Work(k % 2)) && Do(1, false, Race(sems, k), Work(k % 2)) == Race(sems, k + 1)
  {
    hide Find;
  }

  lemma {:induction false} RaceRuns(sems: seq<Sem>, k: nat)
    requires Find(sems, SEM_ID) == -1 && k <= 6
    ensures Possible(1, false, Race(sems, k), Turns(k)) && After(1, false, Race(sems, k), Turns(k)) == Race(sems, 6)
    decreases 6 - k
  {
    if k < 6 {
      hide Find, Do, Allowed, Race;
      RaceStep(sems, k);
      RaceRuns(sems, k + 1);
      assert Turns(k)[0] == Work(k % 2) && Turns(k)[1..] == Turns(k + 1);
    }
  }

  /** Without the semaphore an update is lost: +1 and -1 end at -1. */
  lemma RaceWithoutSemaphore(sems: seq<Sem>)
    requires Find(sems, SEM_ID) == -1
    ensures var s := World(sems, [Worker(1, Opening), Worker(-1, Opening)], 0);
      && Possible(1, false, s, Turns(0))
      && (forall w | w in After(1, false, s, Turns(0)).workers :: w.pc == Exited)
      && After(1, false, s, Turns(0)).global == -1
  {
    hide Possible, After, Turns, Find;
    RaceRuns(sems, 0);
  }
}
