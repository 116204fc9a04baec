/**
  How long a process keeps the CPU and who gets it next, how blocks and unblocks pair up, and what a
  kill, a creation and a change of priority do.
 */
module SchedulerTurns {
  import opened Processes
  import opened SchedulerSafety

  // ---- Who is next ----

  /** How many slots lie between c and q going round the table; c itself comes last. */
  function Ahead(c: int, q: int): int {
    (q - c - 1) % MAX_PCS
  }

  /** q is READY and no READY process comes sooner after c. */
  ghost predicate NextInTurn(table: seq<Slot>, c: int, q: int) {
    Is(table, q, READY) && forall r | Is(table, r, READY) :: Ahead(c, q) <= Ahead(c, r)
  }

  lemma AheadAround(c: int, d: int)
    requires -1 <= c < MAX_PCS && 1 <= d <= MAX_PCS
    ensures Ahead(c, Around(c, d)) == d - 1
  {
  }

  lemma AroundAhead(c: int, q: int)
    requires -1 <= c < MAX_PCS && 0 <= q < MAX_PCS
    ensures 0 <= Ahead(c, q) < MAX_PCS && Around(c, Ahead(c, q) + 1) == q
  {
  }

  /** Nothing nearer than d places is READY, so the first READY slot from there is the nearest of all. */
  lemma {:induction false} NearestFound(table: seq<Slot>, c: int, d: int)
    requires |table| == MAX_PCS && 1 <= d <= MAX_PCS + 1 && -1 <= c < MAX_PCS
    requires forall r | Is(table, r, READY) :: Ahead(c, r) >= d - 1
    requires NextReady(table, c, d) >= 0
    ensures NextInTurn(table, c, NextReady(table, c, d))
    decreases MAX_PCS - d
  {
    if d <= MAX_PCS {
      AheadAround(c, d);
      if !Is(table, Around(c, d), READY) {
        forall r | Is(table, r, READY)
          ensures Ahead(c, r) >= d
        {
          AroundAhead(c, r);
        }
        NearestFound(table, c, d + 1);
      }
    }
  }

  /** Process q is given the CPU: it is RUNNING, and nothing else about anybody has changed. */
  ghost predicate Given(s: Sched, t: Sched, q: int) {
    && ValidPid(s.table, q)
    && t == s.(table := s.table[q := Proc(s.table[q].pcb.(state := RUNNING))], current := q)
  }

  /** The search of scheduling finds the next in turn, or idle when nothing is READY, and gives it the CPU. */
  lemma DispatchNext(s: Sched)
    requires WellFormed(s)
    ensures var t := Dispatch(s);
      && Given(s, t, t.current)
      && (NextInTurn(s.table, s.current, t.current) || (t.current == s.idle && forall r :: !Is(s.table, r, READY)))
  {
    NextReadyIsReady(s.table, s.current, 1);
    hide NextReady;
    if NextReady(s.table, s.current, 1) >= 0 {
      forall r | Is(s.table, r, READY)
        ensures Ahead(s.current, r) >= 0
      {
        AroundAhead(s.current, r);
      }
      NearestFound(s.table, s.current, 1);
    } else {
      forall r
        ensures !Is(s.table, r, READY)
      {
        NothingReady(s.table, s.current, r);
      }
    }
  }

  // ---- Slices ----

  /** The ticks a running process has left, counting the one that ends its slice. */
  function TicksLeft(p: Pcb): int {
    if p.yielding || p.maxTime <= p.timeUsed then 1 else p.maxTime - p.timeUsed
  }

  function Ticks(s: Sched, n: nat): (t: Sched)
    requires WellFormed(s)
    ensures WellFormed(t)
    decreases n
  {
    if n == 0 then s else Ticks(Schedule(s), n - 1)
  }

  /** Until its last tick a process that is left alone keeps the CPU, and only its counters change. */
  lemma {:induction false} SliceRunsOn(s: Sched, n: nat)
    requires AtRest(s) && s.current >= 0
    requires n < TicksLeft(s.table[s.current].pcb)
    ensures var p := s.table[s.current].pcb;
      Ticks(s, n) == SetPcb(s, s.current, p.(timeUsed := p.timeUsed + n, totalTicks := p.totalTicks + n))
    decreases n
  {
    if n > 0 {
      IdleIsAlive(s);
      ScheduleSafe(s);
      hide Dispatch, Alive;
      SliceRunsOn(Schedule(s), n - 1);
    } else {
      assert s.table[s.current := s.table[s.current]] == s.table;
    }
  }

  /** Putting the running process back among the READY ones changes who is next only if nobody else is READY. */
  lemma NextWithout(table: seq<Slot>, after: seq<Slot>, c: int, q: int)
    requires |table| == |after| == MAX_PCS && 0 <= c < MAX_PCS && after == table[c := after[c]]
    requires !Is(table, c, READY) && NextInTurn(after, c, q)
    ensures if exists r :: Is(table, r, READY) then NextInTurn(table, c, q) && q != c else q == c
  {
    forall r | r != c
      ensures Is(after, r, READY) <==> Is(table, r, READY)
    {
    }
    AroundAhead(c, c);
    if r :| Is(table, r, READY) {
      AroundAhead(c, r);
      assert Is(after, r, READY);
    }
  }

  /**
    What the last tick of a slice leaves of the running process's record: the tick is counted, the used
    time starts again from 0, one of the two counters of switches moves, and a pending yield is used up
    unless the slice had run out anyway.
   */
  function Spent(p: Pcb, state: State): Pcb {
    if p.timeUsed + 1 >= p.maxTime then
      p.(state := state, timeUsed := 0, totalTicks := p.totalTicks + 1, changes := p.changes + 1)
    else
      p.(state := state, timeUsed := 0, totalTicks := p.totalTicks + 1, yieldChanges := p.yieldChanges + 1, yielding := false)
  }

  /** The running process c has lost the CPU to q, or, when q is c, begins another slice. */
  ghost predicate HandedOver(s: Sched, t: Sched, c: int, p: Pcb, q: int) {
    && ValidPid(s.table, c)
    && Given(SetPcb(s, c, Spent(p, if c == s.idle then BLOCKED else READY)), t, q)
    && (if exists r :: Is(s.table, r, READY) then NextInTurn(s.table, c, q) && q != c else q == c)
  }

  /**
    The last tick takes the CPU away: the next in turn gets it if anyone else is READY, and if not
    the process gets a new slice at once. Nobody else's record changes.
   */
  lemma SliceEnds(s: Sched)
    requires AtRest(s) && s.current >= 0 && TicksLeft(s.table[s.current].pcb) == 1
    ensures HandedOver(s, Schedule(s), s.current, s.table[s.current].pcb, Schedule(s).current)
  {
    IdleIsAlive(s);
    var c, p := s.current, Charge(s.table[s.current].pcb);
    var after := SetPcb(s, c, p);
    assert Schedule(s) == Dispatch(after);
    assert p == Spent(s.table[c].pcb, if c == s.idle then BLOCKED else READY);
    hide Charge, Spent, TicksLeft, PcbOk, Alive, NextReady, NextInTurn;
    DispatchNext(after);
    var q := Dispatch(after).current;
    if NextInTurn(after.table, c, q) {
      NextWithout(s.table, after.table, c, q);
    } else {
      assert !Is(after.table, c, READY);
      forall r
        ensures !Is(s.table, r, READY)
      {
        assert !Is(after.table, r, READY);
      }
    }
  }

  /** A yield is a slice ended early: the same hand-over, on the spot. */
  lemma YieldHandsOver(s: Sched)
    requires AtRest(s) && s.current >= 0
    ensures HandedOver(s, Yield(s), s.current, s.table[s.current].pcb.(yielding := true), Yield(s).current)
  {
    OnlyRunning(s);
    var c := s.current;
    var p := s.table[c].pcb.(yielding := true);
    var u := SetPcb(s, c, p);
    SlotChange(s, c, p);
    SliceEnds(u);
    hide Schedule, NextInTurn, Spent, AtRest, AtEntry;
    SameNext(s.table, u.table, c);
    assert SetPcb(u, c, Spent(p, if c == s.idle then BLOCKED else READY)) == SetPcb(s, c, Spent(p, if c == s.idle then BLOCKED else READY));
  }

  /** A change in c's record, READY neither before nor after, changes nothing about who is next. */
  lemma SameNext(table: seq<Slot>, after: seq<Slot>, c: int)
    requires 0 <= c < |table| == |after| && after == table[c := after[c]] && !Is(table, c, READY) && !Is(after, c, READY)
    ensures (exists r :: Is(table, r, READY)) <==> (exists r :: Is(after, r, READY))
    ensures forall q :: NextInTurn(table, c, q) <==> NextInTurn(after, c, q)
  {
    assert forall r :: Is(table, r, READY) <==> Is(after, r, READY);
  }

  /**
    A process that yields before its slice runs out, and loses the CPU, has a whole slice before it: the
    yield is used up, and so is the time it had used.
   */
  lemma YieldRecord(s: Sched)
    requires AtRest(s) && s.current >= 0 && Yield(s).current != s.current
    ensures var c, t := s.current, Yield(s);
      var p, left := s.table[c].pcb, t.table[c].pcb;
      && t.table[c].Proc? && left.timeUsed == 0 && left.totalTicks == p.totalTicks + 1
      && left.state == (if c == s.idle then BLOCKED else READY) && left.maxTime == p.maxTime && left.blocks == p.blocks
      && left.yielding == (p.timeUsed + 1 >= p.maxTime)
      && left.changes == p.changes + (if p.timeUsed + 1 >= p.maxTime then 1 else 0)
      && left.yieldChanges == p.yieldChanges + (if p.timeUsed + 1 >= p.maxTime then 0 else 1)
      && (p.timeUsed + 1 < p.maxTime ==> TicksLeft(left) == p.maxTime)
  {
    YieldHandsOver(s);
    hide Yield;
  }

  /** A slice that runs out by itself: the next one is whole. */
  lemma SliceRecord(s: Sched)
    requires AtRest(s) && s.current >= 0 && Schedule(s).current != s.current
    ensures var c, t := s.current, Schedule(s);
      var p, left := s.table[c].pcb, t.table[c].pcb;
      !p.yielding ==>
        && p.timeUsed + 1 >= p.maxTime && t.table[c].Proc? && left.state == (if c == s.idle then BLOCKED else READY)
        && left.timeUsed == 0 && left.totalTicks == p.totalTicks + 1 && left.changes == p.changes + 1
        && left.yieldChanges == p.yieldChanges && left.maxTime == p.maxTime && left.blocks == p.blocks
        && !left.yielding && TicksLeft(left) == p.maxTime
  {
    var p := s.table[s.current].pcb;
    IdleIsAlive(s);
    if TicksLeft(p) == 1 {
      SliceEnds(s);
    }
    hide Alive;
  }

  // ---- Blocks and unblocks ----

  function UnblockTimes(s: Sched, pid: int, n: nat): Sched
    decreases n
  {
    if n == 0 then s else UnblockTimes(Unblock(s, pid).0, pid, n - 1)
  }

  /** What a block leaves of a process's record, and what an unblock does. */
  function BlockedOnce(p: Pcb): Pcb { p.(state := BLOCKED, blocks := p.blocks + 1) }

  function UnblockedOnce(p: Pcb): Pcb { p.(blocks := p.blocks - 1, state := if p.blocks <= 1 then READY else BLOCKED) }

  /**
    A block takes the process off the CPU for good: one more unblock is needed, whoever runs. The one who
    calls it gives up the CPU: to the next in turn, and if nobody is READY, to idle when it has blocked
    itself, or to itself when it has blocked another.
   */
  lemma BlockCounts(s: Sched, pid: int)
    requires AtRest(s) && s.current >= 0 && pid != s.idle
    ensures var (t, r) := Block(s, pid);
      && r == (if !ValidPid(s.table, pid) then -1 else if s.table[pid].pcb.state == ZOMBIE then -2 else 0)
      && (r != 0 ==> t == s)
      && (r == 0 ==> Is(t.table, pid, BLOCKED) && t.table[pid] == Proc(BlockedOnce(s.table[pid].pcb)) && t.current != pid)
      && (r == 0 && pid != s.current ==>
            HandedOver(SetPcb(s, pid, BlockedOnce(s.table[pid].pcb)), t, s.current, s.table[s.current].pcb.(yielding := true), t.current))
      && (r == 0 && pid == s.current ==>
            var u := SetPcb(s, pid, BlockedOnce(s.table[pid].pcb));
            && Given(u, t, t.current)
            && (if exists q :: Is(s.table, q, READY) then NextInTurn(s.table, pid, t.current) else t.current == s.idle))
  {
    hide Yield, HandedOver, AtRest, AtEntry, Given, NextInTurn;
    if ValidPid(s.table, pid) && s.table[pid].pcb.state != ZOMBIE {
      if pid == s.current {
        BlockSelf(s);
      } else {
        BlockOther(s, pid);
      }
    }
  }

  lemma BlockOther(s: Sched, pid: int)
    requires AtRest(s) && s.current >= 0 && pid != s.idle && pid != s.current
    requires ValidPid(s.table, pid) && s.table[pid].pcb.state != ZOMBIE
    ensures var t := Block(s, pid).0;
      && ValidPid(t.table, pid) && t.table[pid] == Proc(BlockedOnce(s.table[pid].pcb)) && t.current != pid
      && HandedOver(SetPcb(s, pid, BlockedOnce(s.table[pid].pcb)), t, s.current, s.table[s.current].pcb.(yielding := true), t.current)
  {
    hide Yield, Block, HandedOver, AtRest, AtEntry;
    var u := Marked(s, pid);
    StaysBlocked(u, pid);
    YieldHandsOver(u);
  }

  /** The part of a block before the yield. */
  lemma Marked(s: Sched, pid: int) returns (u: Sched)
    requires AtRest(s) && s.current >= 0 && pid != s.idle && pid != s.current
    requires ValidPid(s.table, pid) && s.table[pid].pcb.state != ZOMBIE
    ensures u == SetPcb(s, pid, BlockedOnce(s.table[pid].pcb)) && Is(u.table, pid, BLOCKED)
    ensures AtRest(u) && Block(s, pid).0 == Yield(u)
    ensures ValidPid(s.table, s.current) && u.table[s.current] == s.table[s.current]
  {
    hide Yield;
    u := SetPcb(s, pid, BlockedOnce(s.table[pid].pcb));
    SlotChange(s, pid, BlockedOnce(s.table[pid].pcb));
  }

  lemma StaysBlocked(s: Sched, pid: int)
    requires AtRest(s) && s.current >= 0 && pid != s.idle && Is(s.table, pid, BLOCKED)
    ensures var t := Yield(s); ValidPid(t.table, pid) && t.table[pid] == s.table[pid] && t.current != pid
  {
    hide Yield;
    YieldSafe(s);
    YieldKeepsBlocked(s, pid);
  }

  lemma BlockSelf(s: Sched)
    requires AtRest(s) && s.current >= 0 && s.current != s.idle
    ensures var c, t := s.current, Block(s, s.current).0;
      var u := SetPcb(s, c, BlockedOnce(s.table[c].pcb));
      && ValidPid(t.table, c) && t.table[c] == Proc(BlockedOnce(s.table[c].pcb)) && t.current != c
      && Given(u, t, t.current)
      && (if exists q :: Is(s.table, q, READY) then NextInTurn(s.table, c, t.current) else t.current == s.idle)
  {
    var c := s.current;
    var q := BlockedOnce(s.table[c].pcb);
    var u := SetPcb(s, c, q);
    SlotChange(s, c, q);
    hide Yield, Given, NextInTurn;
    YieldSafe(u);
    YieldKeepsBlocked(u, c);
    NobodyRuns(u);
    SelfBlock(s, u, c, q);
  }

  /** With nobody RUNNING a yield only enters the scheduler, which only looks for the next in turn. */
  lemma NobodyRuns(u: Sched)
    requires AtEntry(u) && u.current >= 0 && !Is(u.table, u.current, RUNNING)
    ensures Yield(u) == Dispatch(u)
  {
    IdleIsAlive(u);
    assert GetPid(u.table) == -1 by {
      assert forall i :: !Is(u.table, i, RUNNING);
    }
  }

  lemma SelfBlock(s: Sched, u: Sched, pid: int, p: Pcb)
    requires WellFormed(s) && ValidPid(s.table, pid) && u == SetPcb(s, pid, p)
    requires pid == s.current && pid != s.idle && !Is(s.table, pid, READY) && !Is(u.table, pid, READY)
    ensures var t := Dispatch(u);
      && Given(u, t, t.current)
      && (if exists q :: Is(s.table, q, READY) then NextInTurn(s.table, pid, t.current) else t.current == s.idle)
  {
    DispatchNext(u);
    SameNext(s.table, u.table, pid);
    hide Dispatch, NextInTurn;
    var q := Dispatch(u).current;
    assert NextInTurn(u.table, pid, q) ==> Is(u.table, q, READY) by {
      NextIsReady(u.table, pid, q);
    }
  }

  lemma NextIsReady(table: seq<Slot>, c: int, q: int)
    ensures NextInTurn(table, c, q) ==> Is(table, q, READY)
  {
  }

  /** An unblock takes one block off, and the last makes the process READY; it fails on a process that is not BLOCKED. Nobody else is touched. */
  lemma UnblockCounts(s: Sched, pid: int)
    ensures var (t, r) := Unblock(s, pid);
      && r == (if !ValidPid(s.table, pid) then -1 else if s.table[pid].pcb.state != BLOCKED then -2 else 0)
      && (r != 0 ==> t == s)
      && (r == 0 ==> t == SetPcb(s, pid, UnblockedOnce(s.table[pid].pcb)))
  {
  }

  /** Blocks nest: a process becomes READY with exactly as many unblocks as it has had blocks. */
  lemma {:induction false} BlocksNest(s: Sched, pid: int, n: nat)
    requires AtRest(s) && pid != s.idle && Is(s.table, pid, BLOCKED) && n <= s.table[pid].pcb.blocks
    ensures var t := UnblockTimes(s, pid, n);
      var b := s.table[pid].pcb.blocks;
      t == SetPcb(s, pid, s.table[pid].pcb.(blocks := b - n, state := if n == b then READY else BLOCKED))
    decreases n
  {
    if n == 0 {
      assert s.table[pid := s.table[pid]] == s.table;
    } else {
      UnblockSafe(s, pid);
      hide AtEntry;
      if n > 1 {
        BlocksNest(Unblock(s, pid).0, pid, n - 1);
      } else {
        assert UnblockTimes(Unblock(s, pid).0, pid, 0) == Unblock(s, pid).0;
      }
    }
  }

  // ---- Death, birth and priority ----

  lemma ScheduleKeepsZombie(s: Sched, p: int)
    requires AtEntry(s) && Is(s.table, p, ZOMBIE)
    ensures Schedule(s).table[p] == s.table[p] && Schedule(s).active == s.active
  {
    hide NextReady, Charge;
    if Is(s.table, s.current, RUNNING) {
      var t := SetPcb(s, s.current, Charge(s.table[s.current].pcb));
      NextReadyIsReady(t.table, t.current, 1);
    }
    NextReadyIsReady(s.table, s.current, 1);
  }

  /**
    A killed process is a zombie, has lost the CPU, and is counted out; a refused kill changes nothing.
    Killing oneself gives the CPU to the next in turn, or to idle; killing another costs the killer one
    tick, and the CPU only if that was the last of its slice.
   */
  lemma KillEffect(s: Sched, pid: int)
    requires AtRest(s) && s.current >= 0 && pid != s.idle
    ensures var (t, r) := Kill(s, pid);
      && r == (if !ValidPid(s.table, pid) then -1 else if s.table[pid].pcb.state == ZOMBIE then -2 else 0)
      && (r != 0 ==> t == s)
      && (r == 0 ==> t.table[pid] == Proc(s.table[pid].pcb.(state := ZOMBIE, yielding := true))
                     && t.active == s.active - 1 && t.current != pid)
      && (r == 0 && pid == s.current ==>
            var u := SetPcb(s, pid, s.table[pid].pcb.(state := ZOMBIE, yielding := true)).(active := s.active - 1);
            && Given(u, t, t.current)
            && (if exists q :: Is(s.table, q, READY) then NextInTurn(s.table, pid, t.current) else t.current == s.idle))
      && (r == 0 && pid != s.current ==>
            var u := SetPcb(s, pid, s.table[pid].pcb.(state := ZOMBIE, yielding := true)).(active := s.active - 1);
            var p := s.table[s.current].pcb;
            if TicksLeft(p) == 1 then HandedOver(u, t, s.current, p, t.current)
            else t == SetPcb(u, s.current, p.(timeUsed := p.timeUsed + 1, totalTicks := p.totalTicks + 1)))
  {
    if ValidPid(s.table, pid) && s.table[pid].pcb.state != ZOMBIE {
      var z := s.table[pid].pcb.(state := ZOMBIE, yielding := true);
      var u := SetPcb(s, pid, z).(active := s.active - 1);
      AliveUpdate(s.table, pid, Proc(z));
      OneRunning(s, u.table, pid);
      ScheduleSafe(u);
      ScheduleKeepsZombie(u, pid);
      if pid == s.current {
        IdleIsAlive(u);
        assert Schedule(u) == Dispatch(u);
        SelfBlock(s.(active := s.active - 1), u, pid, z);
      } else if TicksLeft(s.table[s.current].pcb) == 1 {
        SliceEnds(u);
      } else {
        SliceRunsOn(u, 1);
        assert Ticks(u, 1) == Ticks(Schedule(u), 0) == Schedule(u);
      }
      hide Schedule, HandedOver, AtRest, AtEntry, Given, NextInTurn;
    }
  }

  /** How a process begins: READY at the lowest level, with nothing used, counted, pending or blocked. */
  ghost predicate NewProcess(p: Pcb) {
    && p.state == READY && !p.isIdle && p.prio == 4 && p.maxTime == 2 && p.timeUsed == 0 && p.totalTicks == 0
    && p.changes == 0 && p.yieldChanges == 0 && p.blocks == 0 && !p.yielding
  }

  /**
    A new process takes the first slot that held nobody alive, begins as NewProcess says and is counted
    in. It fails iff every slot holds a live process (-1) or memory runs out (-2, with that slot left
    empty). No other slot is touched.
   */
  lemma CreateEffect(s: Sched, memory: bool)
    requires AtRest(s) && s.current >= 0
    ensures var (t, pid) := Create(s, false, false, memory);
      var free := exists i :: 0 <= i < MAX_PCS && i !in Alive(s.table);
      && (pid >= 0 <==> memory && free) && (pid == -1 <==> !free) && (pid < -1 ==> pid == -2)
      && (pid >= 0 ==> FirstFree(s.table, pid) && t.table[pid].Proc? && NewProcess(t.table[pid].pcb)
                       && t == s.(table := s.table[pid := t.table[pid]], active := s.active + 1))
      && (pid == -1 ==> t == s)
      && (pid == -2 ==> exists i :: FirstFree(s.table, i) && t == s.(table := s.table[i := Empty]))
  {
    var i := FreeSlot(s.table);
    if i >= 0 {
      assert i !in Alive(s.table) && FirstFree(s.table, i);
    }
  }

  /** The first slot without a live process. */
  ghost predicate FirstFree(table: seq<Slot>, i: int) {
    0 <= i < |table| && i !in Alive(table) && forall j | 0 <= j < i :: j in Alive(table)
  }

  /** Creating a process named "wait" is that, and then a yield of its creator. */
  lemma CreateWaits(s: Sched)
    requires AtRest(s) && s.current >= 0 && Create(s, false, false, true).1 >= 0
    ensures var made := Create(s, false, false, true).0;
      var (t, pid) := Create(s, false, true, true);
      && pid == Create(s, false, false, true).1
      && HandedOver(made, t, s.current, s.table[s.current].pcb.(yielding := true), t.current) && t.current != s.current
  {
    CreateEffect(s, true);
    CreateSafe(s, false, true);
    var (made, pid) := Create(s, false, false, true);
    assert made.table[s.current] == s.table[s.current];
    YieldHandsOver(made);
    assert Create(s, false, true, true) == (Yield(made), pid);
    assert Is(made.table, pid, READY);
  }

  function Power(b: int, n: nat): int {
    if n == 0 then 1 else b * Power(b, n - 1)
  }

  /** Each priority level below 4 multiplies the slice by five; idle, zombies and other levels are refused. */
  lemma NiceEffect(s: Sched, pid: int, prio: int)
    requires AtRest(s)
    ensures var (t, r) := BeNice(s, pid, prio);
      && r == (if !ValidPid(s.table, pid) then -1 else if !(0 <= prio <= 4) then -3
               else if s.table[pid].pcb.state == ZOMBIE then -1 else if pid == s.idle then -2 else 0)
      && (r != 0 ==> t == s)
      && (r == 0 ==>
            t == SetPcb(s, pid, s.table[pid].pcb.(prio := prio, maxTime := QUANTUM * Power(5, 4 - prio))))
  {
    if 0 <= prio <= 4 {
      assert Power(5, 1) == 5 * Power(5, 0) && Power(5, 2) == 5 * Power(5, 1);
      assert Power(5, 3) == 5 * Power(5, 2) && Power(5, 4) == 5 * Power(5, 3);
    }
  }

  lemma {:induction false} LastTick(s: Sched, n: nat)
    requires AtRest(s) && s.current >= 0 && n > 0
    ensures AtRest(Ticks(s, n - 1)) && Ticks(s, n - 1).current >= 0 && Ticks(s, n) == Schedule(Ticks(s, n - 1))
    decreases n
  {
    ScheduleSafe(s);
    hide Schedule, AtRest;
    if n > 1 {
      LastTick(Schedule(s), n - 1);
    } else {
      assert Ticks(Schedule(s), 0) == Schedule(s);
    }
  }

  /**
    A process that is left alone from the start of its slice keeps the CPU for exactly the slice, and on
    its last tick loses it iff anyone is READY.
   */
  lemma WholeSlice(s: Sched, k: nat)
    requires AtRest(s) && s.current >= 0
    requires var p := s.table[s.current].pcb; p.timeUsed == 0 && !p.yielding
    ensures var slice := s.table[s.current].pcb.maxTime;
      && slice > 0
      && (k < slice ==> Ticks(s, k).current == s.current)
      && (Ticks(s, slice).current != s.current <==> exists q :: Is(s.table, q, READY))
  {
    var c, slice := s.current, s.table[s.current].pcb.maxTime;
    assert TicksLeft(s.table[c].pcb) == slice > 0;
    if k < slice {
      SliceRunsOn(s, k);
    }
    SliceRunsOn(s, slice - 1);
    LastTick(s, slice);
    var last := Ticks(s, slice - 1);
    SliceEnds(last);
    SameNext(s.table, last.table, c);
    hide Ticks, AtRest, AtEntry, Given, NextInTurn, Spent;
  }

  /**
    What a priority is worth: a process at the start of its slice that is given level prio and then left
    alone keeps the CPU for 2 * 5^(4 - prio) ticks, and on the last of them loses it iff anyone is READY.
   */
  lemma NiceSlice(s: Sched, prio: int, k: nat)
    requires AtRest(s) && s.current >= 0 && s.current != s.idle && 0 <= prio <= 4
    requires var p := s.table[s.current].pcb; p.timeUsed == 0 && !p.yielding
    ensures var (t, r) := BeNice(s, s.current, prio);
      var slice := QUANTUM * Power(5, 4 - prio);
      && r == 0 && slice > 0 && WellFormed(t)
      && (k < slice ==> Ticks(t, k).current == s.current)
      && (Ticks(t, slice).current != s.current <==> exists q :: Is(s.table, q, READY))
  {
    NiceEffect(s, s.current, prio);
    NiceSafe(s, s.current, prio);
    var t := BeNice(s, s.current, prio).0;
    hide BeNice, Power, Alive, AtRest, Ticks;
    WholeSlice(t, k);
    SameNext(s.table, t.table, s.current);
  }
}
