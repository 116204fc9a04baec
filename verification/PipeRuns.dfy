/**
  Every interleaving of writers and readers on one anonymous pipe: bytes come out in the order they
  went in, tokens and bytes are conserved, and the pipe ends as its last openings are closed.
 */
module PipeRuns {
  import opened Semaphores
  import opened Pipes
  import opened Sums

  /** Where a process is in a pipe call: waiting for a token, or holding one. */
  datatype Task =
    | Idle
    | AtSpace(data: seq<bv8>)
    | HasSpace(data: seq<bv8>)
    | AtItem(n: nat, got: seq<bv8>)
    | HasItem(n: nat, got: seq<bv8>)

  /**
    A pipe, the processes using it (a pid is an index), its open counts, and everything that has gone
    in and come out since it was created.
   */
  datatype World = World(pipe: Pipe, tasks: seq<Task>, inUse: bool, refs: int, readOpens: int, writeOpens: int,
                         deposited: seq<bv8>, delivered: seq<bv8>)

  datatype Move =
    | StartWrite(p: nat, data: seq<bv8>)
    | StartRead(p: nat, n: nat)
    | Go(p: nat)
    | OpenRead
    | OpenWrite
    | CloseRead
    | CloseWrite

  predicate Queued(s: World, p: int) {
    p in s.pipe.items.queue || p in s.pipe.space.queue || p in s.pipe.lock.queue
  }

  function IsWriter(t: Task): int { if t.AtSpace? || t.HasSpace? then 1 else 0 }
  function IsReader(t: Task): int { if t.AtItem? || t.HasItem? then 1 else 0 }
  function HoldsSpace(t: Task): int { if t.HasSpace? then 1 else 0 }
  function HoldsItem(t: Task): int { if t.HasItem? then 1 else 0 }

  ghost function WriterOf(): Task -> int { t => IsWriter(t) }
  ghost function ReaderOf(): Task -> int { t => IsReader(t) }
  ghost function SpaceOf(): Task -> int { t => HoldsSpace(t) }
  ghost function ItemOf(): Task -> int { t => HoldsItem(t) }

  /** Processes inside pipe_write, inside pipe_read, past a wait for space, and past a wait for an item. */
  ghost function Writers(s: World): int { Sum(s.tasks, WriterOf()) }
  ghost function Readers(s: World): int { Sum(s.tasks, ReaderOf()) }
  ghost function SpaceHeld(s: World): int { Sum(s.tasks, SpaceOf()) }
  ghost function ItemsHeld(s: World): int { Sum(s.tasks, ItemOf()) }

  function Pending(s: World): int { |s.deposited| - |s.delivered| }

  /**
    The moves of matched use: a process writes or reads while it has that end open, nobody reopens the
    writing end after end of file, an end is closed only by a process not inside a call on it, and
    at most ten wait on a semaphore. A queued process does not move.
   */
  ghost predicate Allowed(s: World, m: Move) {
    s.inUse &&
    match m
    case StartWrite(p, data) => p < |s.tasks| && s.tasks[p] == Idle && data != [] && Writers(s) < s.writeOpens
    case StartRead(p, n) => p < |s.tasks| && s.tasks[p] == Idle && n > 0 && Readers(s) < s.readOpens
    case Go(p) =>
      && p < |s.tasks| && s.tasks[p] != Idle && !Queued(s, p)
      && (s.tasks[p].AtSpace? ==> |s.pipe.space.queue| < PROCESSES_BLOCKED)
      && (s.tasks[p].AtItem? ==> |s.pipe.items.queue| < PROCESSES_BLOCKED)
    case OpenRead => true
    case OpenWrite => !s.pipe.eof
    case CloseRead => Readers(s) < s.readOpens
    case CloseWrite => Writers(s) < s.writeOpens
  }

  function UpTimes(s: Sem, n: nat): Sem
    decreases n
  {
    if n == 0 then s else UpTimes(Up(s).0, n - 1)
  }

  /** The end of pipe_close: one reference fewer, and at zero the slot and its semaphores go. */
  function Release(s: World): World {
    if s.refs - 1 == 0 then
      s.(refs := 0, inUse := false,
         pipe := s.pipe.(lock := CloseOne(s.pipe.lock), items := CloseOne(s.pipe.items), space := CloseOne(s.pipe.space)))
    else s.(refs := s.refs - 1)
  }

  function Set(s: World, p: nat, t: Task): World
    requires p < |s.tasks|
  {
    s.(tasks := s.tasks[p := t])
  }

  function Step(s: World, p: nat): World
    requires p < |s.tasks| && RingOk(s.pipe.ring) && (s.tasks[p].HasSpace? ==> s.tasks[p].data != [])
  {
    match s.tasks[p]
    case Idle => s
    case AtSpace(data) =>
      Set(s.(pipe := s.pipe.(space := Down(s.pipe.space, p).0)), p, HasSpace(data))
    case HasSpace(data) =>
      Set(s.(pipe := WriteByte(s.pipe, p, data[0]).0, deposited := s.deposited + [data[0]]), p,
          if |data| == 1 then Idle else AtSpace(data[1..]))
    case AtItem(n, got) =>
      Set(s.(pipe := s.pipe.(items := Down(s.pipe.items, p).0)), p, HasItem(n, got))
    case HasItem(n, got) =>
      match ReadByte(s.pipe, p)
      case EndOfFile(pipe) => Set(s.(pipe := pipe), p, Idle)
      case Byte(pipe, b, _) =>
        Set(s.(pipe := pipe, delivered := s.delivered + [b]), p,
            if n <= 1 then Idle else AtItem(n - 1, got + [b]))
  }

  /** The move makes sense: its process exists, and a writer past its wait has a byte to write. */
  predicate Doable(s: World, m: Move) {
    && RingOk(s.pipe.ring)
    && (m.Go? ==> m.p < |s.tasks| && (s.tasks[m.p].HasSpace? ==> s.tasks[m.p].data != []))
    && (m.StartWrite? || m.StartRead? ==> m.p < |s.tasks|)
  }

  function Do(s: World, m: Move): World
    requires Doable(s, m)
  {
    match m
    case StartWrite(p, data) => Set(s, p, AtSpace(data))
    case StartRead(p, n) => Set(s, p, AtItem(n, []))
    case Go(p) => Step(s, p)
    case OpenRead => s.(refs := s.refs + 1, readOpens := s.readOpens + 1)
    case OpenWrite => s.(refs := s.refs + 1, writeOpens := s.writeOpens + 1)
    case CloseRead => Release(s.(readOpens := s.readOpens - 1))
    case CloseWrite =>
      var t := s.(writeOpens := s.writeOpens - 1);
      if t.writeOpens == 0 && !t.pipe.eof then
        Release(t.(pipe := t.pipe.(eof := true, items := UpTimes(t.pipe.items, 10))))
      else Release(t)
  }

  /** What pipe_create_anonymous leaves: an empty ring, the three semaphores, one opening of each end. */
  ghost predicate Initial(s: World) {
    && RingOk(s.pipe.ring) && s.pipe.ring.readIndex == 0 == s.pipe.ring.writeIndex && !s.pipe.eof
    && s.pipe.lock.(name := "") == Sem("", true, 1, [], 1)
    && s.pipe.items.(name := "") == Sem("", true, 0, [], 1)
    && s.pipe.space.(name := "") == Sem("", true, PIPE_BUFFER_SIZE, [], 1)
    && (forall t | t in s.tasks :: t == Idle)
    && s.inUse && s.refs == 2 && s.readOpens == 1 && s.writeOpens == 1
    && s.deposited == [] && s.delivered == []
  }

  // ---- The invariant ----

  /** The ring holds exactly the bytes deposited and not yet delivered, in order. */
  ghost predicate RingHolds(s: World) {
    && RingOk(s.pipe.ring)
    && |s.delivered| <= |s.deposited| <= |s.delivered| + PIPE_BUFFER_SIZE
    && s.delivered == s.deposited[..|s.delivered|]
    && s.pipe.ring.readIndex == |s.delivered| % PIPE_BUFFER_SIZE
    && s.pipe.ring.writeIndex == |s.deposited| % PIPE_BUFFER_SIZE
    && (forall j {:trigger s.deposited[j]} | |s.delivered| <= j < |s.deposited| ::
          s.pipe.ring.buffer[j % PIPE_BUFFER_SIZE] == s.deposited[j])
  }

  ghost predicate QueueOk(q: Sem) {
    && |q.queue| == (if q.value < 0 then -q.value else 0)
    && AllDistinct(q.queue)
  }

  /** Every place in the ring is pending, a space token on the semaphore, or a token in a writer's hand. */
  ghost predicate SpaceOk(s: World) {
    && QueueOk(s.pipe.space)
    && (forall a | 0 <= a < |s.pipe.space.queue| ::
          0 <= s.pipe.space.queue[a] < |s.tasks| && s.tasks[s.pipe.space.queue[a]].HasSpace?)
    && Pending(s) + s.pipe.space.value + SpaceHeld(s) == PIPE_BUFFER_SIZE
  }

  /** Item tokens beyond the pending bytes: none before end of file. */
  ghost function Extra(s: World): int { s.pipe.items.value + ItemsHeld(s) - Pending(s) }

  ghost predicate ItemsOk(s: World) {
    && QueueOk(s.pipe.items)
    && (forall a | 0 <= a < |s.pipe.items.queue| ::
          0 <= s.pipe.items.queue[a] < |s.tasks| && s.tasks[s.pipe.items.queue[a]].HasItem?)
    && (!s.pipe.eof ==> Extra(s) == 0)
    && (s.pipe.eof && Pending(s) < PIPE_BUFFER_SIZE ==> Extra(s) >= 0)
  }

  ghost predicate TaskOk(t: Task) {
    match t
    case AtSpace(data) => data != []
    case HasSpace(data) => data != []
    case AtItem(n, _) => n > 0
    case HasItem(n, _) => n > 0
    case Idle => true
  }

  ghost predicate OpensOk(s: World) {
    && s.refs == s.readOpens + s.writeOpens
    && 0 <= Readers(s) <= s.readOpens && 0 <= Writers(s) <= s.writeOpens
    && (s.pipe.eof <==> s.writeOpens == 0)
    && s.refs > 0
    && s.pipe.lock.open && s.pipe.items.open && s.pipe.space.open
    && s.pipe.lock.openings == s.pipe.items.openings == s.pipe.space.openings == 1
  }

  /** After the last close nothing of the pipe is left. */
  ghost predicate Released(s: World) {
    && !s.inUse && s.refs == s.readOpens == s.writeOpens == 0
    && !s.pipe.lock.open && !s.pipe.items.open && !s.pipe.space.open
  }

  ghost predicate Live(s: World) {
    && s.inUse && OpensOk(s)
    && (forall p | 0 <= p < |s.tasks| :: TaskOk(s.tasks[p]))
    && s.pipe.lock.value >= 1 && s.pipe.lock.queue == []
    && RingHolds(s) && SpaceOk(s) && ItemsOk(s)
  }

  ghost predicate Inv(s: World) {
    if s.inUse then Live(s) else Released(s) && RingOk(s.pipe.ring)
  }

  lemma InitialInv(s: World)
    requires Initial(s)
    ensures Inv(s)
  {
    SumOfEach(s.tasks, WriterOf());
    SumOfEach(s.tasks, ReaderOf());
    SumOfEach(s.tasks, SpaceOf());
    SumOfEach(s.tasks, ItemOf());
    forall p | 0 <= p < |s.tasks|
      ensures TaskOk(s.tasks[p])
    {
      assert s.tasks[p] in s.tasks;
    }
  }

  // ---- Counting ----

  /** The four counts after process p moves to another task. */
  lemma Changed(s: World, t: World, p: nat)
    requires p < |s.tasks| == |t.tasks| && t.tasks == s.tasks[p := t.tasks[p]]
    ensures var v, w := t.tasks[p], s.tasks[p];
      && 0 <= Writers(t) == Writers(s) - IsWriter(w) + IsWriter(v)
      && 0 <= Readers(t) == Readers(s) - IsReader(w) + IsReader(v)
      && 0 <= SpaceHeld(t) == SpaceHeld(s) - HoldsSpace(w) + HoldsSpace(v)
      && 0 <= ItemsHeld(t) == ItemsHeld(s) - HoldsItem(w) + HoldsItem(v)
  {
    var v := t.tasks[p];
    SumUpdate(s.tasks, WriterOf(), p, v);
    SumUpdate(s.tasks, ReaderOf(), p, v);
    SumUpdate(s.tasks, SpaceOf(), p, v);
    SumUpdate(s.tasks, ItemOf(), p, v);
    SumNatural(t.tasks, WriterOf());
    SumNatural(t.tasks, ReaderOf());
    SumNatural(t.tasks, SpaceOf());
    SumNatural(t.tasks, ItemOf());
  }

  /** A writer with its token in hand, not queued, has a place in the ring. */
  lemma TokenMeansSpace(s: World, p: nat)
    requires SpaceOk(s) && p < |s.tasks| && s.tasks[p].HasSpace? && p !in s.pipe.space.queue
    ensures Pending(s) < PIPE_BUFFER_SIZE
  {
    SumCountsDistinct(s.tasks, SpaceOf(), s.pipe.space.queue + [p], Idle);
  }

  /** A reader with its token in hand, not queued: there is a pending byte, or the token is from end of file. */
  lemma TokenMeansItem(s: World, p: nat)
    requires ItemsOk(s) && p < |s.tasks| && s.tasks[p].HasItem? && p !in s.pipe.items.queue
    ensures Pending(s) + Extra(s) >= 1
  {
    SumCountsDistinct(s.tasks, ItemOf(), s.pipe.items.queue + [p], Idle);
  }

  lemma LockCycle(lock: Sem, pid: int)
    requires lock.value >= 1 && lock.queue == []
    ensures !Down(lock, pid).1 && Up(Down(lock, pid).0) == (lock, -1)
    ensures var up := Up(lock).0; up.value == lock.value + 1 && up.queue == [] && up.open == lock.open && up.openings == lock.openings
  {
  }

  // ---- The ring ----

  lemma ModDistinct(a: nat, b: nat)
    requires a < b < a + PIPE_BUFFER_SIZE
    ensures a % PIPE_BUFFER_SIZE != b % PIPE_BUFFER_SIZE
  {
  }

  lemma ModNext(a: nat)
    ensures (a % PIPE_BUFFER_SIZE + 1) % PIPE_BUFFER_SIZE == (a + 1) % PIPE_BUFFER_SIZE
  {
  }

  lemma PutHolds(s: World, t: World, b: bv8)
    requires RingHolds(s) && Pending(s) < PIPE_BUFFER_SIZE
    requires t.pipe.ring == Put(s.pipe.ring, b) && t.deposited == s.deposited + [b] && t.delivered == s.delivered
    ensures RingHolds(t)
  {
    ModNext(|s.deposited|);
    forall j | |t.delivered| <= j < |t.deposited|
      ensures t.pipe.ring.buffer[j % PIPE_BUFFER_SIZE] == t.deposited[j]
    {
      if j < |s.deposited| {
        ModDistinct(j, |s.deposited|);
        assert t.deposited[j] == s.deposited[j];
      }
    }
  }

  lemma TakeHolds(s: World, t: World)
    requires RingHolds(s) && Pending(s) > 0
    requires t.pipe.ring == Take(s.pipe.ring) && t.deposited == s.deposited
    requires t.delivered == s.delivered + [s.pipe.ring.buffer[s.pipe.ring.readIndex]]
    ensures RingHolds(t)
  {
    ModNext(|s.delivered|);
    assert s.pipe.ring.buffer[|s.delivered| % PIPE_BUFFER_SIZE] == s.deposited[|s.delivered|];
    assert s.deposited[..|s.delivered| + 1] == s.deposited[..|s.delivered|] + [s.deposited[|s.delivered|]];
  }

  /** Equal indices mean an empty ring or a full one. */
  lemma EqualIndices(s: World)
    requires RingHolds(s)
    ensures s.pipe.ring.readIndex == s.pipe.ring.writeIndex <==> Pending(s) == 0 || Pending(s) == PIPE_BUFFER_SIZE
  {
    if 0 < Pending(s) < PIPE_BUFFER_SIZE {
      ModDistinct(|s.delivered|, |s.deposited|);
    }
  }

  // ---- Each move keeps the invariant ----

  lemma SpaceWaitKeeps(s: World, p: nat)
    requires Live(s) && Allowed(s, Go(p)) && s.tasks[p].AtSpace?
    ensures Live(Step(s, p))
  {
    var t := Step(s, p);
    hide RingHolds;
    Changed(s, t, p);
    SameRing(s, t);
  }

  lemma SameRing(s: World, t: World)
    requires RingHolds(s) && t.pipe.ring == s.pipe.ring && t.deposited == s.deposited && t.delivered == s.delivered
    ensures RingHolds(t)
  {
  }

  lemma ItemWaitKeeps(s: World, p: nat)
    requires Live(s) && Allowed(s, Go(p)) && s.tasks[p].AtItem?
    ensures Live(Step(s, p))
  {
    var t := Step(s, p);
    hide RingHolds;
    Changed(s, t, p);
    SameRing(s, t);
  }

  lemma WriteKeeps(s: World, p: nat)
    requires Live(s) && Allowed(s, Go(p)) && s.tasks[p].HasSpace?
    ensures Live(Step(s, p))
  {
    var t := Step(s, p);
    Changed(s, t, p);
    TokenMeansSpace(s, p);
    LockCycle(s.pipe.lock, p);
    PutHolds(s, t, s.tasks[p].data[0]);
    SumAtLeast(s.tasks, WriterOf(), p);
    hide RingHolds, Put;
  }

  lemma ReadKeeps(s: World, p: nat)
    requires Live(s) && Allowed(s, Go(p)) && s.tasks[p].HasItem? && ReadByte(s.pipe, p).Byte?
    ensures Live(Step(s, p))
  {
    var t := Step(s, p);
    Changed(s, t, p);
    TokenMeansItem(s, p);
    EqualIndices(s);
    LockCycle(s.pipe.lock, p);
    LockCycle(Up(s.pipe.lock).0, p);
    TakeHolds(s, t);
    hide RingHolds, Take;
  }

  lemma EofKeeps(s: World, p: nat)
    requires Live(s) && Allowed(s, Go(p)) && s.tasks[p].HasItem? && ReadByte(s.pipe, p).EndOfFile?
    ensures Live(Step(s, p))
  {
    var t := Step(s, p);
    Changed(s, t, p);
    TokenMeansItem(s, p);
    EqualIndices(s);
    LockCycle(s.pipe.lock, p);
    SameRing(s, t);
  }

  lemma StartKeeps(s: World, m: Move)
    requires Live(s) && Allowed(s, m) && (m.StartWrite? || m.StartRead?)
    ensures Live(Do(s, m))
  {
    var t := Do(s, m);
    hide RingHolds, QueueOk;
    Changed(s, t, m.p);
    SameRing(s, t);
  }

  lemma OpenKeeps(s: World, m: Move)
    requires Live(s) && Allowed(s, m) && (m.OpenRead? || m.OpenWrite?)
    ensures Live(Do(s, m))
  {
    hide QueueOk;
    SameRing(s, Do(s, m));
  }

  lemma CloseReadKeeps(s: World)
    requires Live(s) && Allowed(s, CloseRead)
    ensures Inv(Do(s, CloseRead))
  {
    hide QueueOk;
    var t := Do(s, CloseRead);
    SameRing(s, t);
  }

  /** Ten posts: ten more on the value, and the first ten waiters off the queue. */
  lemma {:induction false} UpTimesEffect(q: Sem, n: nat)
    requires QueueOk(q)
    ensures var r := UpTimes(q, n);
      && QueueOk(r) && r.value == q.value + n && r.open == q.open && r.openings == q.openings
      && r.queue == q.queue[if n < |q.queue| then n else |q.queue|..]
    decreases n
  {
    if n > 0 {
      UpTimesEffect(Up(q).0, n - 1);
    }
  }

  lemma CloseWriteKeeps(s: World)
    requires Live(s) && Allowed(s, CloseWrite)
    ensures Inv(Do(s, CloseWrite))
  {
    hide QueueOk, UpTimes;
    var t := Do(s, CloseWrite);
    UpTimesEffect(s.pipe.items, 10);
    SameRing(s, t);
  }

  lemma MoveKeeps(s: World, m: Move)
    requires Inv(s) && Allowed(s, m)
    ensures Doable(s, m)
    ensures Inv(Do(s, m))
  {
    TasksOk(s, m);
    hide Live, RingOk, Step;
    match m
    case StartWrite(_, _) => StartKeeps(s, m);
    case StartRead(_, _) => StartKeeps(s, m);
    case OpenRead => OpenKeeps(s, m);
    case OpenWrite => OpenKeeps(s, m);
    case CloseRead => CloseReadKeeps(s);
    case CloseWrite => CloseWriteKeeps(s);
    case Go(p) =>
      StaysInUse(s, p);
      match s.tasks[p]
      case AtSpace(_) => SpaceWaitKeeps(s, p);
      case HasSpace(_) => WriteKeeps(s, p);
      case AtItem(_, _) => ItemWaitKeeps(s, p);
      case HasItem(_, _) =>
        if ReadByte(s.pipe, p).Byte? {
          ReadKeeps(s, p);
        } else {
          EofKeeps(s, p);
        }
  }

  lemma TasksOk(s: World, m: Move)
    requires Inv(s) && Allowed(s, m)
    ensures Doable(s, m)
  {
  }

  lemma StaysInUse(s: World, p: nat)
    requires p < |s.tasks| && RingOk(s.pipe.ring) && (s.tasks[p].HasSpace? ==> s.tasks[p].data != [])
    ensures Step(s, p).inUse == s.inUse
  {
  }

  // ---- Runs ----

  ghost predicate Possible(s: World, ms: seq<Move>)
    requires Inv(s)
    decreases |ms|
  {
    ms == [] || (Allowed(s, ms[0]) && (MoveKeeps(s, ms[0]); Possible(Do(s, ms[0]), ms[1..])))
  }

  ghost function After(s: World, ms: seq<Move>): (t: World)
    requires Inv(s) && Possible(s, ms)
    ensures Inv(t)
    decreases |ms|
  {
    if ms == [] then s else (MoveKeeps(s, ms[0]); After(Do(s, ms[0]), ms[1..]))
  }

  lemma {:induction false} TwoRuns(s: World, ms: seq<Move>, more: seq<Move>)
    requires Inv(s) && Possible(s, ms) && Possible(After(s, ms), more)
    ensures Possible(s, ms + more) && After(s, ms + more) == After(After(s, ms), more)
    decreases |ms|
  {
    hide Inv, Do, Allowed;
    if ms == [] {
      assert ms + more == more;
    } else {
      FirstAllowed(s, ms);
      RunFrom(s, ms);
      Appended(ms, more);
      hide Possible, After;
      TwoRuns(Do(s, ms[0]), ms[1..], more);
      RunFrom(s, ms + more);
    }
  }

  lemma Appended<T>(ms: seq<T>, more: seq<T>)
    requires ms != []
    ensures (ms + more)[0] == ms[0] && (ms + more)[1..] == ms[1..] + more
  {
  }

  lemma FirstAllowed(s: World, ms: seq<Move>)
    requires Inv(s) && ms != [] && Possible(s, ms)
    ensures Allowed(s, ms[0])
  {
    hide Inv, Do, Allowed;
  }

  /** A run is its first move and the rest. */
  lemma RunFrom(s: World, ms: seq<Move>)
    requires Inv(s) && ms != [] && Allowed(s, ms[0])
    ensures Doable(s, ms[0])
    ensures Inv(Do(s, ms[0]))
    ensures Possible(s, ms) <==> Possible(Do(s, ms[0]), ms[1..])
    ensures Possible(s, ms) ==> After(s, ms) == After(Do(s, ms[0]), ms[1..])
  {
    MoveKeeps(s, ms[0]);
    hide Inv, Do, Allowed;
  }

  lemma OneMove(s: World, m: Move)
    requires Inv(s) && Allowed(s, m)
    ensures Doable(s, m)
    ensures Inv(Do(s, m)) && Possible(s, [m]) && After(s, [m]) == Do(s, m)
  {
    MoveKeeps(s, m);
    hide Inv, Do, Allowed;
    assert [m][1..] == [];
  }

  /** The tokens a woken or successful waiter holds: those past the wait, less those still queued. */
  ghost function InHand(held: int, q: Sem): int { held - |q.queue| }

  /** The tokens free on a semaphore. */
  ghost function OnSemaphore(q: Sem): int { if q.value > 0 then q.value else 0 }

  /**
    First in, first out, and nothing lost: whatever the schedule, the bytes delivered are a prefix of
    the bytes deposited, the indices differ by the number pending, and pending bytes, free space
    tokens and space tokens in writers' hands add up to the size of the ring.
   */
  lemma Fifo(s: World, ms: seq<Move>)
    requires Initial(s)
    ensures Inv(s)
    ensures Possible(s, ms) ==>
      var t := After(s, ms);
      t.inUse ==>
        && t.delivered <= t.deposited
        && 0 <= Pending(t) <= 1024
        && (t.pipe.ring.writeIndex - t.pipe.ring.readIndex) % 1024 == Pending(t) % 1024
        && Pending(t) + OnSemaphore(t.pipe.space) + InHand(SpaceHeld(t), t.pipe.space) == 1024
        && (!t.pipe.eof ==> Pending(t) == OnSemaphore(t.pipe.items) + InHand(ItemsHeld(t), t.pipe.items))
  {
    hide Initial, Live, RingHolds, OnSemaphore, InHand, SpaceHeld, ItemsHeld, Pending;
    InitialInv(s);
    if Possible(s, ms) && After(s, ms).inUse {
      InvConserves(After(s, ms));
    }
  }

  lemma InvConserves(t: World)
    requires Inv(t) && t.inUse
    ensures t.delivered <= t.deposited && 0 <= Pending(t) <= PIPE_BUFFER_SIZE
    ensures (t.pipe.ring.writeIndex - t.pipe.ring.readIndex) % PIPE_BUFFER_SIZE == Pending(t) % PIPE_BUFFER_SIZE
    ensures Pending(t) + OnSemaphore(t.pipe.space) + InHand(SpaceHeld(t), t.pipe.space) == PIPE_BUFFER_SIZE
    ensures !t.pipe.eof ==> Pending(t) == OnSemaphore(t.pipe.items) + InHand(ItemsHeld(t), t.pipe.items)
  {
    IndexGap(|t.delivered|, |t.deposited|);
  }

  lemma IndexGap(a: nat, b: nat)
    requires a <= b
    ensures (b % PIPE_BUFFER_SIZE - a % PIPE_BUFFER_SIZE) % PIPE_BUFFER_SIZE == (b - a) % PIPE_BUFFER_SIZE
  {
  }

  lemma LockIsFree(s: World, p: nat)
    requires Inv(s) && s.inUse
    ensures !Down(s.pipe.lock, p).1 && s.pipe.lock.queue == []
  {
  }

  /**
    The critical section is never contended: on every run from a new pipe, as long as it is in use, a
    wait for its lock does not block and nobody is queued on it.
   */
  lemma LockNeverBlocks(s: World, ms: seq<Move>, p: nat)
    requires Initial(s)
    ensures Inv(s)
    ensures Possible(s, ms) && After(s, ms).inUse ==>
      !Down(After(s, ms).pipe.lock, p).1 && After(s, ms).pipe.lock.queue == []
  {
    InitialInv(s);
    hide Initial, Live, Down;
    if Possible(s, ms) && After(s, ms).inUse {
      LockIsFree(After(s, ms), p);
    }
  }

  /** The move reads a byte of a full ring before end of file, where equal indices are taken for an empty ring. */
  ghost predicate ReadsFull(s: World, m: Move) {
    m.Go? && m.p < |s.tasks| && s.tasks[m.p].HasItem? && !s.pipe.eof && Pending(s) == PIPE_BUFFER_SIZE
  }

  ghost function FullReads(s: World, ms: seq<Move>): int
    requires Inv(s) && Possible(s, ms)
    decreases |ms|
  {
    if ms == [] then 0
    else (MoveKeeps(s, ms[0]); (if ReadsFull(s, ms[0]) then 1 else 0) + FullReads(Do(s, ms[0]), ms[1..]))
  }

  lemma LockMove(s: World, m: Move)
    requires Inv(s) && s.inUse && Allowed(s, m)
    ensures Doable(s, m)
    ensures var t := Do(s, m);
      t.inUse ==> t.pipe.lock.value == s.pipe.lock.value + if ReadsFull(s, m) then 1 else 0
  {
    if m.Go? {
      EqualIndices(s);
      LockCycle(s.pipe.lock, m.p);
      LockCycle(Up(s.pipe.lock).0, m.p);
      if s.tasks[m.p].HasItem? {
        TokenMeansItem(s, m.p);
      }
    }
  }

  lemma {:induction false} LockRun(s: World, ms: seq<Move>)
    requires Inv(s) && s.inUse && Possible(s, ms)
    ensures After(s, ms).inUse ==> After(s, ms).pipe.lock.value == s.pipe.lock.value + FullReads(s, ms)
    decreases |ms|
  {
    if ms != [] {
      FirstAllowed(s, ms);
      RunFrom(s, ms);
      LockMove(s, ms[0]);
      hide Inv, Do, Allowed, ReadsFull;
      var t := Do(s, ms[0]);
      if t.inUse {
        LockRun(t, ms[1..]);
      } else {
        OverForGood(t, ms[1..]);
      }
    }
  }

  lemma OverForGood(s: World, ms: seq<Move>)
    requires Inv(s) && Possible(s, ms) && !s.inUse
    ensures After(s, ms) == s
  {
    hide Inv, Do;
  }

  /**
    What the second post of the lock does: on every run from a new pipe the lock stands at 1 and one more for
    each byte read from a full ring before end of file.
   */
  lemma LockCounts(s: World, ms: seq<Move>)
    requires Initial(s)
    ensures Inv(s)
    ensures Possible(s, ms) && After(s, ms).inUse ==> After(s, ms).pipe.lock.value == 1 + FullReads(s, ms)
  {
    InitialInv(s);
    assert s.inUse && s.pipe.lock.value == 1;
    hide Inv, Initial;
    if Possible(s, ms) {
      LockRun(s, ms);
    }
  }

  // ---- Opens and closes ----

  function OpensBy(m: Move): int { if m.OpenRead? || m.OpenWrite? then 1 else if m.CloseRead? || m.CloseWrite? then -1 else 0 }

  function ReadOpensBy(m: Move): int { if m.OpenRead? then 1 else if m.CloseRead? then -1 else 0 }

  /** The opens of a run less its closes: of both ends, and of the reading end. */
  function Opens(ms: seq<Move>): int { if ms == [] then 0 else OpensBy(ms[0]) + Opens(ms[1..]) }

  function ReadOpens(ms: seq<Move>): int { if ms == [] then 0 else ReadOpensBy(ms[0]) + ReadOpens(ms[1..]) }

  lemma MoveCounts(s: World, m: Move)
    requires Inv(s) && Allowed(s, m)
    ensures Doable(s, m)
    ensures var t := Do(s, m);
      t.refs == s.refs + OpensBy(m) && t.readOpens == s.readOpens + ReadOpensBy(m) && t.refs == t.readOpens + t.writeOpens
  {
    ReleasedAtZero(s, m);
    hide Inv, UpTimes;
  }

  lemma {:induction false} RunCounts(s: World, ms: seq<Move>)
    requires Inv(s) && Possible(s, ms)
    ensures var t := After(s, ms); t.refs == s.refs + Opens(ms) && t.readOpens == s.readOpens + ReadOpens(ms)
    decreases |ms|
  {
    if ms != [] {
      FirstAllowed(s, ms);
      RunFrom(s, ms);
      MoveCounts(s, ms[0]);
      hide Inv, Do, Allowed, Possible, After;
      RunCounts(Do(s, ms[0]), ms[1..]);
    }
  }

  lemma InvRefs(s: World)
    requires Inv(s)
    ensures s.refs == s.readOpens + s.writeOpens && (s.inUse <==> s.refs > 0) && (s.inUse ==> (s.pipe.eof <==> s.writeOpens == 0))
  {
  }

  /**
    The life of a pipe in terms of its opens and closes: on every run from a new pipe, whose creation
    opens each end once, the slot is in use exactly while there have been fewer closes than opens, and end
    of file is set exactly once the writing end has been closed as often as it has been opened.
   */
  lemma LifeOf(s: World, ms: seq<Move>)
    requires Initial(s)
    ensures Inv(s)
    ensures Possible(s, ms) ==>
      var t := After(s, ms);
      && (t.inUse <==> 2 + Opens(ms) > 0)
      && (t.inUse ==> (t.pipe.eof <==> 1 + Opens(ms) - ReadOpens(ms) == 0))
  {
    InitialInv(s);
    assert s.refs == 2 && s.readOpens == 1;
    hide Inv, Initial;
    if Possible(s, ms) {
      RunCounts(s, ms);
      InvRefs(After(s, ms));
    }
  }

  // ---- End of file ----

  /** The writer that closes last sets end of file, and no reader is left waiting. */
  lemma LastWriterWakesAll(s: World)
    requires Inv(s) && Allowed(s, CloseWrite) && s.writeOpens == 1 && |s.pipe.items.queue| <= PROCESSES_BLOCKED
    ensures Do(s, CloseWrite).pipe.eof && Do(s, CloseWrite).pipe.items.queue == []
  {
    hide UpTimes;
    UpTimesEffect(s.pipe.items, 10);
  }

  /**
    A read returns early iff it is end of file and the ring is empty or full, a full ring's bytes being
    taken for none; otherwise it gets the oldest pending byte. PipeEof says what follows for whole runs.
   */
  lemma ShortRead(s: World, p: nat)
    requires Inv(s) && Allowed(s, Go(p)) && s.tasks[p].HasItem?
    ensures RingOk(s.pipe.ring)
    ensures var short := ReadByte(s.pipe, p).EndOfFile?;
      && (short <==> s.pipe.eof && (Pending(s) == 0 || Pending(s) == PIPE_BUFFER_SIZE))
      && (short ==> (s.delivered == s.deposited <==> Pending(s) != PIPE_BUFFER_SIZE))
      && (!short ==> Pending(s) > 0 && ReadByte(s.pipe, p).b == s.deposited[|s.delivered|])
  {
    EqualIndices(s);
    TokenMeansItem(s, p);
  }

  /** After end of file nothing more goes in, so a ring that is not full then never becomes full. */
  lemma NothingAfterEof(s: World, m: Move)
    requires Inv(s) && s.inUse && s.pipe.eof && Allowed(s, m)
    ensures Doable(s, m)
    ensures Do(s, m).deposited == s.deposited && Do(s, m).pipe.eof && Pending(Do(s, m)) <= Pending(s)
  {
    if m.Go? {
      SumAtLeast(s.tasks, WriterOf(), m.p);
    }
  }

  /** The slot and its three semaphores go exactly when the last opening of either end is closed. */
  lemma ReleasedAtZero(s: World, m: Move)
    requires Inv(s) && Allowed(s, m)
    ensures Doable(s, m)
    ensures var t := Do(s, m);
      && t.refs == t.readOpens + t.writeOpens
      && (t.inUse <==> t.readOpens + t.writeOpens > 0)
      && (t.inUse <==> t.pipe.lock.open) && (t.inUse <==> t.pipe.items.open) && (t.inUse <==> t.pipe.space.open)
      && (!t.inUse ==> forall p | 0 <= p < |t.tasks| :: t.tasks[p] == Idle)
  {
    MoveKeeps(s, m);
    var t := Do(s, m);
    if !t.inUse {
      forall p | 0 <= p < |t.tasks|
        ensures t.tasks[p] == Idle
      {
        SumAtLeast(s.tasks, WriterOf(), p);
        SumAtLeast(s.tasks, ReaderOf(), p);
      }
    }
  }

  // ---- The byte loops are runs of one process's moves ----

  /** Moves left in a call that never blocks. */
  function Work(t: Task): nat {
    match t
    case Idle => 0
    case AtSpace(data) => 2 * |data|
    case HasSpace(data) => if data == [] then 0 else 2 * |data| - 1
    case AtItem(n, _) => 2 * n
    case HasItem(n, _) => if n == 0 then 0 else 2 * n - 1
  }

  /** Process p moves until its call returns or it is queued. */
  ghost function GoOn(s: World, p: nat): World
    requires p < |s.tasks| && RingOk(s.pipe.ring) && TaskOk(s.tasks[p])
    decreases Work(s.tasks[p])
  {
    if s.tasks[p] == Idle || Queued(s, p) then s else GoOn(Step(s, p), p)
  }

  ghost predicate Runnable(s: World, p: nat) {
    && p < |s.tasks| && RingOk(s.pipe.ring) && TaskOk(s.tasks[p]) && !Queued(s, p)
    && s.pipe.lock.value >= 1 && s.pipe.lock.queue == []
  }

  /** A round that gets its token: two moves of p. */
  lemma TwoMoves(s: World, p: nat) returns (u: World)
    requires Runnable(s, p)
    requires s.tasks[p].AtSpace? ==> !Down(s.pipe.space, p).1
    requires s.tasks[p].AtItem? ==> !Down(s.pipe.items, p).1
    requires s.tasks[p].AtSpace? || s.tasks[p].AtItem?
    ensures Runnable(Step(s, p), p) && u == Step(Step(s, p), p) && Runnable(u, p) && GoOn(s, p) == GoOn(u, p)
    ensures u.tasks == s.tasks[p := u.tasks[p]]
  {
    hide RingOk, GoOn, Put, Take;
    LockCycle(s.pipe.lock, p);
    LockCycle(Up(s.pipe.lock).0, p);
    var t := Step(s, p);
    u := Step(t, p);
    GoesOn(s, p);
    GoesOn(t, p);
  }

  lemma GoesOn(s: World, p: nat)
    requires Runnable(s, p) && s.tasks[p] != Idle
    ensures GoOn(s, p) == GoOn(Step(s, p), p)
  {
  }

  lemma Stops(s: World, p: nat)
    requires p < |s.tasks| && RingOk(s.pipe.ring) && TaskOk(s.tasks[p])
    requires s.tasks[p] == Idle || Queued(s, p)
    ensures GoOn(s, p) == s
  {
  }

  /** The round of pipe_write that those two moves make. */
  lemma WriteTwice(s: World, p: nat, data: seq<bv8>) returns (u: World)
    requires Runnable(s, p) && data != [] && s.tasks[p] == AtSpace(data) && !Down(s.pipe.space, p).1
    ensures Runnable(u, p) && GoOn(s, p) == GoOn(u, p)
    ensures u.pipe == WriteByte(s.pipe.(space := Down(s.pipe.space, p).0), p, data[0]).0
    ensures u.tasks == s.tasks[p := if data[1..] == [] then Idle else AtSpace(data[1..])]
    ensures u.deposited == s.deposited + [data[0]] && u.delivered == s.delivered
  {
    hide GoOn, WriteByte, RingOk, ReadByte, Down;
    u := TwoMoves(s, p);
    assert |data| == 1 <==> data[1..] == [];
  }

  /** t is s after process p has written what the loop's outcome r says. */
  ghost predicate Written(s: World, p: nat, data: seq<bv8>, r: (Pipe, seq<bv8>, Stop, seq<int>), t: World)
    requires p < |s.tasks|
  {
    && t.pipe == r.0 && r.2 != AtEof
    && t.tasks == s.tasks[p := if r.2 == Done then Idle else HasSpace(r.1)]
    && |r.1| <= |data| && r.1 == data[|data| - |r.1|..]
    && t.deposited == s.deposited + data[..|data| - |r.1|] && t.delivered == s.delivered
  }

  lemma WrittenMore(s: World, u: World, p: nat, data: seq<bv8>,
                    r: (Pipe, seq<bv8>, Stop, seq<int>), v: (Pipe, seq<bv8>, Stop, seq<int>), t: World)
    requires p < |s.tasks| == |u.tasks| && data != [] && u.tasks == s.tasks[p := u.tasks[p]]
    requires u.deposited == s.deposited + [data[0]] && u.delivered == s.delivered
    requires Written(u, p, data[1..], v, t) && (r.0, r.1, r.2) == (v.0, v.1, v.2)
    ensures Written(s, p, data, r, t)
  {
    assert [data[0]] + data[1..][..|data| - 1 - |r.1|] == data[..|data| - |r.1|];
  }

  lemma WriteStops(s: World, p: nat, data: seq<bv8>)
    requires Runnable(s, p) && data != [] && s.tasks[p] == AtSpace(data) && Down(s.pipe.space, p).1
    ensures Written(s, p, data, WriteOn(s.pipe, p, data), GoOn(s, p))
  {
    WriteBlocks(s.pipe, p, data);
    hide WriteOn, GoOn, WriteByte, ReadByte;
    GoesOn(s, p);
    assert p in Step(s, p).pipe.space.queue;
    Stops(Step(s, p), p);
  }

  lemma WriteNothing(s: World, p: nat)
    requires Runnable(s, p) && s.tasks[p] == Idle
    ensures Written(s, p, [], WriteOn(s.pipe, p, []), GoOn(s, p))
  {
    Stops(s, p);
    assert s.tasks[p := Idle] == s.tasks;
  }

  /** The loop of pipe_write, as run between block points, is process p's moves one after another. */
  lemma {:induction false} WriteLoopIsMoves(s: World, p: nat, data: seq<bv8>)
    requires Runnable(s, p) && s.tasks[p] == (if data == [] then Idle else AtSpace(data))
    ensures Written(s, p, data, WriteOn(s.pipe, p, data), GoOn(s, p))
    decreases |data|
  {
    hide GoOn, WriteByte, ReadByte, Written;
    if data == [] {
      WriteNothing(s, p);
    } else if Down(s.pipe.space, p).1 {
      WriteStops(s, p, data);
    } else {
      WriteNext(s.pipe, p, data);
      var u := WriteTwice(s, p, data);
      hide Step, Down, RingOk, Queued, WriteOn;
      WriteLoopIsMoves(u, p, data[1..]);
      WrittenMore(s, u, p, data, WriteOn(s.pipe, p, data), WriteOn(u.pipe, p, data[1..]), GoOn(s, p));
    }
  }

  /** The round of pipe_read that two moves make, when it does not end the call. */
  lemma ReadTwice(s: World, p: nat, n: nat, before: seq<bv8>) returns (u: World)
    requires Runnable(s, p) && n > 0 && s.tasks[p] == AtItem(n, before) && !Down(s.pipe.items, p).1
    ensures Runnable(u, p) && GoOn(s, p) == GoOn(u, p)
    ensures var r := ReadByte(s.pipe.(items := Down(s.pipe.items, p).0), p);
      && u.pipe == r.pipe && u.deposited == s.deposited
      && u.tasks == s.tasks[p := if r.EndOfFile? || n == 1 then Idle else AtItem(n - 1, before + [r.b])]
      && u.delivered == s.delivered + if r.Byte? then [r.b] else []
  {
    hide GoOn, WriteByte, RingOk, ReadByte, Down;
    u := TwoMoves(s, p);
  }

  /** The loop of pipe_read likewise; `before` is what the call had read when it came to this point. */
  lemma {:induction false} ReadLoopIsMoves(s: World, p: nat, n: nat, before: seq<bv8>)
    requires Runnable(s, p) && s.tasks[p] == (if n == 0 then Idle else AtItem(n, before))
    ensures var (pipe, got, stop, _) := ReadOn(s.pipe, p, n);
      var t := GoOn(s, p);
      && t.pipe == pipe && |got| <= n
      && t.tasks == s.tasks[p := if stop == Blocked then HasItem(n - |got|, before + got) else Idle]
      && t.delivered == s.delivered + got && t.deposited == s.deposited
    decreases n
  {
    hide GoOn, WriteByte, ReadByte;
    if n == 0 {
      Stops(s, p);
    } else if Down(s.pipe.items, p).1 {
      GoesOn(s, p);
      assert p in Step(s, p).pipe.items.queue && before + [] == before;
      Stops(Step(s, p), p);
    } else {
      var u := ReadTwice(s, p, n, before);
      var r := ReadByte(s.pipe.(items := Down(s.pipe.items, p).0), p);
      hide Step, Down, RingOk, Queued;
      if r.Byte? {
        ReadLoopIsMoves(u, p, n - 1, before + [r.b]);
        var got := ReadOn(u.pipe, p, n - 1).1;
        assert before + ([r.b] + got) == (before + [r.b]) + got;
      } else {
        Stops(u, p);
      }
    }
  }

  lemma Begun(s: World, p: nat, m: Move) returns (u: World)
    requires Live(s) && Allowed(s, m) && (m.StartWrite? || m.StartRead?) && m.p == p && !Queued(s, p)
    ensures Doable(s, m) && u == Do(s, m) && Runnable(u, p) && u.pipe == s.pipe
    ensures u.deposited == s.deposited && u.delivered == s.delivered
    ensures u.tasks == s.tasks[p := if m.StartWrite? then AtSpace(m.data) else AtItem(m.n, [])]
    ensures m.StartWrite? ==> m.data != []
    ensures m.StartRead? ==> m.n > 0
  {
    u := Do(s, m);
  }

  /**
    A whole pipe_write, as far as it goes by itself: it ends, having written everything, or is queued for
    space with the rest in hand; what it wrote went in at the end, in order.
   */
  lemma WriteCall(s: World, p: nat, data: seq<bv8>)
    requires Live(s) && Allowed(s, StartWrite(p, data)) && !Queued(s, p)
    ensures Doable(s, StartWrite(p, data)) && Runnable(Do(s, StartWrite(p, data)), p)
    ensures var t, left := GoOn(Do(s, StartWrite(p, data)), p), WriteOn(s.pipe, p, data).1;
      && |left| <= |data| && data == data[..|data| - |left|] + left
      && t.deposited == s.deposited + data[..|data| - |left|] && t.delivered == s.delivered
      && t.tasks == s.tasks[p := if left == [] then Idle else HasSpace(left)]
  {
    hide WriteOn, GoOn, Live, Allowed, RingOk, Queued, Runnable, Down;
    var u := Begun(s, p, StartWrite(p, data));
    WriteLoopIsMoves(u, p, data);
    WriteLeaves(s.pipe, p, data);
  }

  lemma {:induction false} WriteLeaves(s: Pipe, pid: int, data: seq<bv8>)
    requires RingOk(s.ring)
    ensures var (_, rest, stop, _) := WriteOn(s, pid, data); stop != AtEof && (stop == Done <==> rest == [])
    decreases |data|
  {
    if data != [] && !Down(s.space, pid).1 {
      WriteLeaves(WriteByte(s.(space := Down(s.space, pid).0), pid, data[0]).0, pid, data[1..]);
    }
  }

  /**
    A whole pipe_read, as far as it goes by itself: it ends, or is queued for an item with its n reduced by
    what it got; and if it ends with less than n, end of file has been set.
   */
  lemma ReadCall(s: World, p: nat, n: nat)
    requires Live(s) && Allowed(s, StartRead(p, n)) && !Queued(s, p)
    ensures Doable(s, StartRead(p, n)) && Runnable(Do(s, StartRead(p, n)), p)
    ensures var t, (_, got, stop, _) := GoOn(Do(s, StartRead(p, n)), p), ReadOn(s.pipe, p, n);
      && |got| <= n && t.delivered == s.delivered + got && t.deposited == s.deposited
      && t.tasks == s.tasks[p := if stop == Blocked then HasItem(n - |got|, got) else Idle]
      && (stop == Done <==> |got| == n) && (stop == AtEof ==> s.pipe.eof)
  {
    hide ReadOn, GoOn, Live, Allowed, RingOk, Queued, Runnable, Down;
    var u := Begun(s, p, StartRead(p, n));
    ReadLoopIsMoves(u, p, n, []);
    ReadGets(s.pipe, p, n);
    assert [] + ReadOn(s.pipe, p, n).1 == ReadOn(s.pipe, p, n).1;
  }

  lemma {:induction false} ReadGets(s: Pipe, pid: int, n: nat)
    requires RingOk(s.ring)
    ensures var (_, got, stop, _) := ReadOn(s, pid, n);
      |got| <= n && (stop == Done <==> |got| == n) && (stop == AtEof ==> s.eof)
    decreases n
  {
    if n > 0 && !Down(s.items, pid).1 {
      var r := ReadByte(s.(items := Down(s.items, pid).0), pid);
      if r.Byte? {
        ReadGets(r.pipe, pid, n - 1);
      }
    }
  }
}
