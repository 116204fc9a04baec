/**
  End of file over whole runs: whether the bytes pending when the last writer closes are ever delivered
  is settled at that moment, by whether they fill the ring.
 */
module PipeEof {
  import opened Semaphores
  import opened Pipes
  import opened PipeRuns
  import opened Sums

  /** A pipe at end of file. */
  ghost predicate Ended(s: World) { Inv(s) && s.inUse && s.pipe.eof }

  /** A reader about to return early. */
  ghost predicate ReturnsShort(s: World, p: nat) {
    && s.inUse && p < |s.tasks| && s.tasks[p].HasItem? && Allowed(s, Go(p))
    && RingOk(s.pipe.ring) && ReadByte(s.pipe, p).EndOfFile?
  }

  lemma {:induction false} DepositedForGood(s: World, ms: seq<Move>)
    requires Inv(s) && s.pipe.eof && Possible(s, ms)
    ensures var t := After(s, ms); t.pipe.eof && t.deposited == s.deposited && Pending(t) <= Pending(s)
    decreases |ms|
  {
    if ms != [] {
      hide Inv, Do, Pending;
      MoveKeeps(s, ms[0]);
      MoveAfterEof(s, ms[0]);
      DepositedForGood(Do(s, ms[0]), ms[1..]);
    }
  }

  lemma MoveAfterEof(s: World, m: Move)
    requires Inv(s) && s.pipe.eof && Allowed(s, m)
    ensures Doable(s, m)
    ensures Do(s, m).deposited == s.deposited && Do(s, m).pipe.eof && Pending(Do(s, m)) <= Pending(s)
  {
    hide Inv, Do, Pending;
    NothingAfterEof(s, m);
  }

  /** While the ring is full at end of file, no move delivers a byte. */
  lemma StuckMove(s: World, m: Move)
    requires Ended(s) && Pending(s) == PIPE_BUFFER_SIZE && Allowed(s, m)
    ensures Doable(s, m)
    ensures Do(s, m).delivered == s.delivered
  {
    TasksOk(s, m);
    if m.Go? && s.tasks[m.p].HasItem? {
      ShortRead(s, m.p);
    }
  }

  lemma {:induction false} Stuck(s: World, ms: seq<Move>)
    requires Inv(s) && s.pipe.eof && Pending(s) == PIPE_BUFFER_SIZE && Possible(s, ms)
    ensures After(s, ms).delivered == s.delivered
    decreases |ms|
  {
    if ms != [] {
      hide Inv, Do;
      MoveKeeps(s, ms[0]);
      MoveAfterEof(s, ms[0]);
      AllowedInUse(s, ms[0]);
      StuckMove(s, ms[0]);
      Stuck(Do(s, ms[0]), ms[1..]);
    }
  }

  lemma AllowedInUse(s: World, m: Move)
    requires Allowed(s, m)
    ensures s.inUse
  {
  }

  /**
    Whenever, on any run after end of file, a read returns early: everything ever written has been
    delivered iff the ring was not full when end of file was set.
   */
  lemma EofDecides(s: World, ms: seq<Move>, p: nat)
    requires Ended(s) && Possible(s, ms) && ReturnsShort(After(s, ms), p)
    ensures After(s, ms).delivered == s.deposited <==> Pending(s) < PIPE_BUFFER_SIZE
  {
    var t := After(s, ms);
    DepositedForGood(s, ms);
    ShortRead(t, p);
    if Pending(s) == PIPE_BUFFER_SIZE {
      Stuck(s, ms);
    }
    PendingRange(s);
  }

  lemma PendingRange(s: World)
    requires Ended(s)
    ensures 0 <= Pending(s) <= PIPE_BUFFER_SIZE
  {
  }

  // ---- The run that loses its bytes ----

  /** A new pipe that only process p has used so far. */
  ghost predicate Quiet(s: World, p: nat) {
    && Inv(s) && s.inUse && !s.pipe.eof && p < |s.tasks| && (forall q | 0 <= q < |s.tasks| && q != p :: s.tasks[q] == Idle)
    && s.pipe.space.queue == [] && s.pipe.items.queue == [] && s.readOpens == 1 && s.writeOpens == 1
  }

  lemma WaitForSpace(s: World, p: nat)
    requires Quiet(s, p) && s.tasks[p].AtSpace? && s.pipe.space.value > 0
    ensures Allowed(s, Go(p)) && Quiet(Do(s, Go(p)), p)
    ensures var t := Do(s, Go(p));
      && t.tasks[p] == HasSpace(s.tasks[p].data) && t.pipe == s.pipe.(space := t.pipe.space)
      && t.pipe.space.value == s.pipe.space.value - 1
      && t.deposited == s.deposited && t.delivered == s.delivered
  {
    MoveKeeps(s, Go(p));
    hide Inv;
  }

  lemma Deposit(s: World, p: nat)
    requires Quiet(s, p) && s.tasks[p].HasSpace?
    ensures Allowed(s, Go(p)) && RingOk(s.pipe.ring) && s.tasks[p].data != [] && Quiet(Do(s, Go(p)), p)
    ensures var t, data := Do(s, Go(p)), s.tasks[p].data;
      && t.tasks[p] == (if |data| == 1 then Idle else AtSpace(data[1..]))
      && t.pipe.space == s.pipe.space && t.pipe.items.value == s.pipe.items.value + 1
      && t.deposited == s.deposited + [data[0]] && t.delivered == s.delivered
  {
    LockIsFree(s, p);
    MoveKeeps(s, Go(p));
    hide Inv;
  }

  /** With room for all of it, a write deposits its bytes without blocking. */
  lemma {:induction false} Fill(s: World, p: nat, data: seq<bv8>) returns (ms: seq<Move>)
    requires Quiet(s, p) && s.tasks[p] == (if data == [] then Idle else AtSpace(data)) && s.pipe.space.value >= |data|
    ensures Possible(s, ms) && Quiet(After(s, ms), p)
    ensures var t := After(s, ms);
      && t.tasks[p] == Idle && t.deposited == s.deposited + data && t.delivered == s.delivered
      && t.pipe.items.value == s.pipe.items.value + |data|
    decreases |data|
  {
    ms := [];
    hide Inv;
    if data != [] {
      var v := Round(s, p);
      hide Do, Allowed, Possible, After, Quiet;
      var rest := Fill(v, p, data[1..]);
      assert s.deposited + [data[0]] + data[1..] == s.deposited + data;
      TwoRuns(s, [Go(p), Go(p)], rest);
      ms := [Go(p), Go(p)] + rest;
    }
  }

  /** Two moves write one byte. */
  lemma Round(s: World, p: nat) returns (v: World)
    requires Quiet(s, p) && s.tasks[p].AtSpace? && s.tasks[p].data != [] && s.pipe.space.value > 0
    ensures Possible(s, [Go(p), Go(p)]) && v == After(s, [Go(p), Go(p)]) && Quiet(v, p)
    ensures var data := s.tasks[p].data;
      && v.tasks[p] == (if data[1..] == [] then Idle else AtSpace(data[1..]))
      && v.pipe.space.value == s.pipe.space.value - 1 && v.pipe.items.value == s.pipe.items.value + 1
      && v.deposited == s.deposited + [data[0]] && v.delivered == s.delivered
  {
    WaitForSpace(s, p);
    var u := Do(s, Go(p));
    Deposit(u, p);
    v := Do(u, Go(p));
    var data := s.tasks[p].data;
    assert |data| == 1 <==> data[1..] == [];
    OneMove(s, Go(p));
    OneMove(u, Go(p));
    hide Do, Allowed, Possible, After, Inv;
    TwoRuns(s, [Go(p)], [Go(p)]);
    assert [Go(p)] + [Go(p)] == [Go(p), Go(p)];
  }

  lemma NobodyCalls(s: World)
    requires forall q | 0 <= q < |s.tasks| :: s.tasks[q] == Idle
    ensures Writers(s) == 0 && Readers(s) == 0
  {
    assert forall t | t in s.tasks :: t == Idle;
    SumOfEach(s.tasks, WriterOf());
    SumOfEach(s.tasks, ReaderOf());
  }

  /** From a quiet pipe with nobody in a call: the last writer closes, and p begins to read. */
  lemma CloseThenRead(s: World, p: nat, n: nat) returns (ms: seq<Move>)
    requires Quiet(s, p) && s.tasks[p] == Idle && n > 0 && Pending(s) == PIPE_BUFFER_SIZE && s.pipe.items.value > 0
    ensures Possible(s, ms)
    ensures var t := After(s, ms);
      ReturnsShort(t, p) && t.tasks[p] == HasItem(n, []) && t.deposited == s.deposited && t.delivered == s.delivered
  {
    NobodyCalls(s);
    OneMove(s, CloseWrite);
    var t := Do(s, CloseWrite);
    ClosedLast(s, p);
    NobodyCalls(t);
    OneMove(t, StartRead(p, n));
    var u := Do(t, StartRead(p, n));
    OneMove(u, Go(p));
    var v := Do(u, Go(p));
    ms := [CloseWrite] + ([StartRead(p, n)] + [Go(p)]);
    TwoRuns(t, [StartRead(p, n)], [Go(p)]);
    TwoRuns(s, [CloseWrite], [StartRead(p, n)] + [Go(p)]);
    assert v.tasks[p].HasItem? && v.pipe.items.queue == [] && Allowed(v, Go(p));
    hide Possible, After;
    ShortRead(v, p);
  }

  lemma ClosedLast(s: World, p: nat)
    requires Quiet(s, p) && s.pipe.items.value > 0
    ensures var t := Do(s, CloseWrite);
      && t.inUse && t.pipe.eof && t.pipe.items.queue == [] && t.pipe.items.value > 0
      && t.tasks == s.tasks && t.readOpens == 1 && t.deposited == s.deposited && t.delivered == s.delivered
      && t.pipe.space == s.pipe.space && t.pipe.lock == s.pipe.lock
  {
    hide UpTimes;
    UpTimesEffect(s.pipe.items, 10);
  }

  /**
    The run that loses its bytes is possible on every new pipe: one process writes as many bytes as the
    ring holds, closes, and reads; its read then returns 0, with all of the bytes undelivered.
   */
  lemma FullRingIsLost(s: World, p: nat, data: seq<bv8>, n: nat) returns (ms: seq<Move>)
    requires Initial(s) && p < |s.tasks| && |data| == PIPE_BUFFER_SIZE && n > 0
    ensures Inv(s) && Possible(s, ms)
    ensures var t := After(s, ms);
      ReturnsShort(t, p) && t.tasks[p] == HasItem(n, []) && t.deposited == data && t.delivered == []
  {
    InitialInv(s);
    assert forall q | 0 <= q < |s.tasks| :: s.tasks[q] in s.tasks;
    NobodyCalls(s);
    OneMove(s, StartWrite(p, data));
    var t := Do(s, StartWrite(p, data));
    assert Quiet(t, p);
    hide Possible, After, Inv, Do, Allowed, Initial;
    var fill := Fill(t, p, data);
    var full := After(t, fill);
    assert full.deposited == data by { assert [] + data == data; }
    var rest := CloseThenRead(full, p, n);
    TwoRuns(t, fill, rest);
    TwoRuns(s, [StartWrite(p, data)], fill + rest);
    ms := [StartWrite(p, data)] + (fill + rest);
  }

  // ---- How many reads can find the end of file ----

  /** The move is a read's early return. */
  ghost predicate IsEarly(s: World, m: Move) { m.Go? && ReturnsShort(s, m.p) }

  /** The early returns of a run. */
  ghost function Early(s: World, ms: seq<Move>): nat
    requires Inv(s) && Possible(s, ms)
    decreases |ms|
  {
    if ms == [] then 0 else
      MoveKeeps(s, ms[0]);
      (if IsEarly(s, ms[0]) then 1 else 0) + Early(Do(s, ms[0]), ms[1..])
  }

  /** The last writer's close leaves exactly ten tokens more than there are pending bytes. */
  lemma TenExtra(s: World)
    requires Inv(s) && Allowed(s, CloseWrite) && s.writeOpens == 1
    ensures var t := Do(s, CloseWrite); Pending(t) == Pending(s) && (t.inUse ==> Ended(t) && Extra(t) == 10)
  {
    MoveKeeps(s, CloseWrite);
    NoExtraYet(s);
    CloseAdds(s);
    hide Inv, Allowed, Do;
  }

  /** Before end of file tokens and pending bytes are the same number. */
  lemma NoExtraYet(s: World)
    requires Inv(s) && s.inUse && s.writeOpens == 1
    ensures Extra(s) == 0 && QueueOk(s.pipe.items) && !s.pipe.eof && RingOk(s.pipe.ring)
  {
    hide Extra, SpaceOk, QueueOk;
  }

  lemma CloseAdds(s: World)
    requires RingOk(s.pipe.ring) && QueueOk(s.pipe.items) && !s.pipe.eof && s.writeOpens == 1
    ensures var t := Do(s, CloseWrite);
      && t.deposited == s.deposited && t.delivered == s.delivered && t.pipe.eof && t.tasks == s.tasks
      && (t.inUse ==> t.pipe.items.value == s.pipe.items.value + 10)
  {
    hide UpTimes, QueueOk, RingOk;
    UpTimesEffect(s.pipe.items, 10);
  }

  /** An early return does not give its token back; every other move keeps the count. */
  lemma ExtraStep(s: World, m: Move)
    requires Ended(s) && Allowed(s, m)
    ensures Doable(s, m)
    ensures var t := Do(s, m); t.inUse ==> Ended(t) && Extra(t) == Extra(s) - (if IsEarly(s, m) then 1 else 0)
  {
    MoveKeeps(s, m);
    MoveAfterEof(s, m);
    var t := Do(s, m);
    match m
    case Go(p) =>
      SumAtLeast(s.tasks, WriterOf(), p);
      Changed(s, t, p);
    case StartRead(p, _) => Changed(s, t, p);
    case StartWrite(_, _) =>
    case _ =>
  }

  /** The tokens that can still end in an early return: a full ring counts its own bytes among them. */
  ghost function Spare(s: World): int {
    Extra(s) + if Pending(s) == PIPE_BUFFER_SIZE then PIPE_BUFFER_SIZE else 0
  }

  lemma SpareNatural(s: World)
    requires Ended(s)
    ensures Spare(s) >= 0
  {
    SumCountsDistinct(s.tasks, ItemOf(), s.pipe.items.queue, Idle);
  }

  lemma SpareStep(s: World, m: Move)
    requires Ended(s) && Allowed(s, m)
    ensures Doable(s, m)
    ensures var t := Do(s, m);
      if t.inUse then Ended(t) && Spare(t) == Spare(s) - (if IsEarly(s, m) then 1 else 0) else !IsEarly(s, m)
  {
    ExtraStep(s, m);
    PendingRange(s);
    MoveAfterEof(s, m);
    if Pending(s) == PIPE_BUFFER_SIZE {
      StuckMove(s, m);
    }
    ClosesOnly(s, m);
    hide Inv, Allowed, Do, Extra, Ended, IsEarly;
  }

  /** Only closing releases a pipe. */
  lemma ClosesOnly(s: World, m: Move)
    requires s.inUse && Doable(s, m)
    ensures m.Go? ==> Do(s, m).inUse
  {
  }

  lemma {:induction false} EarlyBound(s: World, ms: seq<Move>)
    requires Ended(s) && Possible(s, ms)
    ensures Early(s, ms) <= Spare(s)
    decreases |ms|
  {
    SpareNatural(s);
    if ms != [] {
      FirstAllowed(s, ms);
      RunFrom(s, ms);
      SpareStep(s, ms[0]);
      var t := Do(s, ms[0]);
      EarlyFirst(s, ms);
      hide Inv, Do, Allowed, Possible, After, Early, IsEarly, Spare;
      if t.inUse {
        EarlyBound(t, ms[1..]);
      } else {
        NoneAfterRelease(t, ms[1..]);
      }
    }
  }

  lemma EarlyFirst(s: World, ms: seq<Move>)
    requires Inv(s) && ms != [] && Possible(s, ms)
    ensures Allowed(s, ms[0]) && Doable(s, ms[0]) && Inv(Do(s, ms[0])) && Possible(Do(s, ms[0]), ms[1..])
    ensures Early(s, ms) == (if IsEarly(s, ms[0]) then 1 else 0) + Early(Do(s, ms[0]), ms[1..])
  {
    FirstAllowed(s, ms);
    MoveKeeps(s, ms[0]);
    hide Inv, Do, Allowed, IsEarly;
  }

  lemma NoneAfterRelease(s: World, ms: seq<Move>)
    requires Inv(s) && !s.inUse && Possible(s, ms)
    ensures ms == [] && Early(s, ms) == 0
  {
    hide Inv, Do;
    if ms != [] {
      FirstAllowed(s, ms);
    }
  }

  /**
    From the last writer's close on, on any run, at most ten reads return early; if the ring was full, at
    most ten more than it holds.
   */
  lemma AtMostTenEarly(s: World, ms: seq<Move>)
    requires Inv(s) && Allowed(s, CloseWrite) && s.writeOpens == 1 && Do(s, CloseWrite).inUse
    ensures var t := Do(s, CloseWrite);
      && Inv(t)
      && (Possible(t, ms) ==> Early(t, ms) <= 10 + if Pending(s) == PIPE_BUFFER_SIZE then PIPE_BUFFER_SIZE else 0)
  {
    TenExtra(s);
    hide Inv, Do, Allowed, Possible, Early, Extra;
    if Possible(Do(s, CloseWrite), ms) {
      EarlyBound(Do(s, CloseWrite), ms);
    }
  }

  // ---- The read after those ----

  /** At end of file with everything delivered and every token used up. */
  ghost predicate Drained(s: World) { Ended(s) && Pending(s) == 0 && Extra(s) == 0 }

  /** How many early returns are left decides: nine more, and one of them returns; none, and it does not. */
  lemma {:induction false} ExtraLeft(s: World, ms: seq<Move>)
    requires Ended(s) && Pending(s) < PIPE_BUFFER_SIZE && Possible(s, ms) && After(s, ms).inUse
    ensures Ended(After(s, ms)) && Extra(After(s, ms)) == Extra(s) - Early(s, ms)
    decreases |ms|
  {
    if ms != [] {
      EarlyFirst(s, ms);
      RunFrom(s, ms);
      ExtraStep(s, ms[0]);
      MoveAfterEof(s, ms[0]);
      var t := Do(s, ms[0]);
      hide Inv, Do, Allowed, Possible, After, Early, IsEarly, Extra, Pending;
      if t.inUse {
        ExtraLeft(t, ms[1..]);
      } else {
        StaysReleased(t, ms[1..]);
      }
    }
  }

  lemma StaysReleased(s: World, ms: seq<Move>)
    requires Inv(s) && !s.inUse && Possible(s, ms)
    ensures After(s, ms) == s
  {
    NoneAfterRelease(s, ms);
  }

  /**
    A read of the empty ring after the last writer's close, with no other read under way, blocks iff ten
    reads have returned early since.
   */
  lemma EofReadBlocks(s: World, ms: seq<Move>, p: nat)
    requires Inv(s) && Allowed(s, CloseWrite) && s.writeOpens == 1 && Do(s, CloseWrite).inUse
    requires Pending(s) < PIPE_BUFFER_SIZE
    ensures Inv(Do(s, CloseWrite))
    ensures var u := Do(s, CloseWrite);
      Possible(u, ms) && After(u, ms).inUse && Pending(After(u, ms)) == 0 && ItemsHeld(After(u, ms)) == 0 ==>
        (Down(After(u, ms).pipe.items, p).1 <==> Early(u, ms) == 10)
  {
    TenExtra(s);
    var u := Do(s, CloseWrite);
    hide Inv, Do, Allowed, Possible, After, Early, Pending, Ended, ItemsHeld;
    if Possible(u, ms) && After(u, ms).inUse && Pending(After(u, ms)) == 0 && ItemsHeld(After(u, ms)) == 0 {
      ExtraLeft(u, ms);
      AtMostTenEarly(s, ms);
    }
  }

  lemma NoneInHand(s: World, p: nat)
    requires Drained(s) && Allowed(s, Go(p))
    ensures !s.tasks[p].HasItem?
  {
    if s.tasks[p].HasItem? {
      TokenMeansItem(s, p);
    }
  }

  /** Then the reader is queued, and so is every later one: nobody posts any more. */
  lemma DrainedStep(s: World, m: Move)
    requires Drained(s) && Allowed(s, m)
    ensures Doable(s, m)
    ensures var t := Do(s, m); t.inUse ==> Drained(t) && s.pipe.items.queue <= t.pipe.items.queue
    ensures s.pipe.items.queue != [] ==> Do(s, m).inUse
    ensures m.Go? && s.tasks[m.p].AtItem? ==> m.p in Do(s, m).pipe.items.queue
  {
    ExtraStep(s, m);
    MoveAfterEof(s, m);
    SumNatural(s.tasks, ItemOf());
    if m.Go? {
      SumAtLeast(s.tasks, WriterOf(), m.p);
      NoneInHand(s, m.p);
    }
    if s.pipe.items.queue != [] {
      SumAtLeast(s.tasks, ReaderOf(), s.pipe.items.queue[0]);
    }
  }

  /** A reader queued on a drained pipe stays queued for good, and the pipe is never released. */
  lemma {:induction false} Stranded(s: World, ms: seq<Move>, p: nat)
    requires Drained(s) && p in s.pipe.items.queue && Possible(s, ms)
    ensures After(s, ms).inUse && Drained(After(s, ms)) && p in After(s, ms).pipe.items.queue
    decreases |ms|
  {
    if ms != [] {
      EarlyFirst(s, ms);
      RunFrom(s, ms);
      DrainedStep(s, ms[0]);
      hide Inv, Do, Allowed, Possible, After, Drained;
      Stranded(Do(s, ms[0]), ms[1..], p);
    }
  }

  // ---- The run that strands a reader ----

  /** A pipe at end of file with nothing in it, nobody in a call and k tokens left. */
  ghost predicate Over(s: World, p: nat, k: int) {
    && Ended(s) && p < |s.tasks| && (forall q | 0 <= q < |s.tasks| :: s.tasks[q] == Idle)
    && Pending(s) == 0 && s.pipe.items.queue == [] && s.pipe.items.value == k && s.readOpens == 1
  }

  /** p begins to read and waits for an item. */
  lemma BeginRead(s: World, p: nat, n: nat, k: int) returns (v: World)
    requires Over(s, p, k) && k >= 0 && n > 0
    ensures Possible(s, [StartRead(p, n), Go(p)]) && v == After(s, [StartRead(p, n), Go(p)])
    ensures Ended(v) && v.tasks == s.tasks[p := HasItem(n, [])] && Pending(v) == 0 && v.readOpens == 1
    ensures v.pipe.items.value == k - 1 && v.pipe.items.queue == (if k > 0 then [] else [p])
    ensures v.delivered == s.delivered
  {
    NobodyCalls(s);
    OneMove(s, StartRead(p, n));
    var u := Do(s, StartRead(p, n));
    OneMove(u, Go(p));
    v := Do(u, Go(p));
    hide Possible, After, Inv;
    TwoRuns(s, [StartRead(p, n)], [Go(p)]);
    assert [StartRead(p, n)] + [Go(p)] == [StartRead(p, n), Go(p)];
  }

  /** While a token is left the read returns, having read nothing. */
  lemma EmptyRead(s: World, p: nat, n: nat, k: int) returns (v: World)
    requires Over(s, p, k) && k > 0 && n > 0
    ensures Possible(s, [StartRead(p, n), Go(p)] + [Go(p)])
    ensures v == After(s, [StartRead(p, n), Go(p)] + [Go(p)]) && Over(v, p, k - 1)
  {
    var u := BeginRead(s, p, n, k);
    FinishRead(u, p);
    v := Do(u, Go(p));
    OneMove(u, Go(p));
    hide Possible, After, Inv, Do;
    TwoRuns(s, [StartRead(p, n), Go(p)], [Go(p)]);
  }

  lemma FinishRead(u: World, p: nat)
    requires Ended(u) && Pending(u) == 0 && p < |u.tasks| && u.tasks[p].HasItem? && u.pipe.items.queue == [] && u.readOpens == 1
    requires forall q | 0 <= q < |u.tasks| && q != p :: u.tasks[q] == Idle
    ensures Allowed(u, Go(p)) && Doable(u, Go(p)) && Over(Do(u, Go(p)), p, u.pipe.items.value)
  {
    QueuesEmpty(u, p);
    ShortRead(u, p);
    EofKeeps(u, p);
  }

  lemma QueuesEmpty(u: World, p: nat)
    requires Ended(u) && p < |u.tasks| && u.tasks[p].HasItem? && u.pipe.items.queue == []
    ensures Allowed(u, Go(p))
  {
  }

  /** The reads of an ended, empty pipe use up its tokens one by one, and the next is queued. */
  lemma {:induction false} EleventhReadWaits(s: World, p: nat, n: nat, k: int) returns (ms: seq<Move>)
    requires Over(s, p, k) && k >= 0 && n > 0
    ensures Possible(s, ms) && Drained(After(s, ms)) && p in After(s, ms).pipe.items.queue
    decreases k
  {
    if k == 0 {
      ms := [StartRead(p, n), Go(p)];
      var v := BeginRead(s, p, n, 0);
      OneHolder(s, v, p);
    } else {
      var v := EmptyRead(s, p, n, k);
      hide Over, Possible, After;
      var rest := EleventhReadWaits(v, p, n, k - 1);
      TwoRuns(s, [StartRead(p, n), Go(p)] + [Go(p)], rest);
      ms := [StartRead(p, n), Go(p)] + [Go(p)] + rest;
    }
  }

  lemma OneHolder(s: World, v: World, p: nat)
    requires p < |s.tasks| == |v.tasks| && (forall q | 0 <= q < |s.tasks| :: s.tasks[q] == Idle)
    requires v.tasks == s.tasks[p := v.tasks[p]] && v.tasks[p].HasItem?
    ensures ItemsHeld(v) == 1
  {
    assert forall t | t in s.tasks :: t == Idle;
    SumOfEach(s.tasks, ItemOf());
    Changed(s, v, p);
  }

  /** On every new pipe: the writer closes, ten reads return 0, and the eleventh waits for good. */
  lemma ElevenReads(s: World, p: nat, n: nat) returns (ms: seq<Move>)
    requires Initial(s) && p < |s.tasks| && n > 0
    ensures Inv(s) && Possible(s, ms)
    ensures Drained(After(s, ms)) && p in After(s, ms).pipe.items.queue && After(s, ms).deposited == []
  {
    InitialInv(s);
    assert forall q | 0 <= q < |s.tasks| :: s.tasks[q] in s.tasks;
    NobodyCalls(s);
    OneMove(s, CloseWrite);
    var t := Do(s, CloseWrite);
    ClosedNew(s);
    hide Possible, After, Inv, Do, Allowed, Initial, UpTimes;
    var rest := EleventhReadWaits(t, p, n, 10);
    TwoRuns(s, [CloseWrite], rest);
    ms := [CloseWrite] + rest;
    DepositedForGood(t, rest);
  }

  lemma ClosedNew(s: World)
    requires Initial(s) && Inv(s) && Allowed(s, CloseWrite)
    ensures var t := Do(s, CloseWrite);
      && t.inUse && t.pipe.eof && t.pipe.items.queue == [] && t.pipe.items.value == 10 && t.tasks == s.tasks && t.readOpens == 1
      && t.deposited == [] == t.delivered
  {
    hide UpTimes;
    UpTimesEffect(s.pipe.items, 10);
  }
}
