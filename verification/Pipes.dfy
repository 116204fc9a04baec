/**
  One pipe of Kernel/pipes.c: the byte ring, the three semaphores that guard it, and the byte loops of
  pipe_write and pipe_read, each from the point where it holds its token to the next point where it
  can block.
 */
module Pipes {
  import opened Semaphores

  const PIPE_BUFFER_SIZE := 1024

  /** The ring buffer with its two indices. There is no count: equal indices mean empty or full. */
  datatype Ring = Ring(buffer: seq<bv8>, readIndex: int, writeIndex: int)

  predicate RingOk(g: Ring) {
    |g.buffer| == PIPE_BUFFER_SIZE && 0 <= g.readIndex < PIPE_BUFFER_SIZE && 0 <= g.writeIndex < PIPE_BUFFER_SIZE
  }

  function Put(g: Ring, b: bv8): (r: Ring)
    requires RingOk(g)
    ensures RingOk(r)
  {
    Ring(g.buffer[g.writeIndex := b], g.readIndex, (g.writeIndex + 1) % PIPE_BUFFER_SIZE)
  }

  function Take(g: Ring): (r: Ring)
    requires RingOk(g)
    ensures RingOk(r)
  {
    g.(readIndex := (g.readIndex + 1) % PIPE_BUFFER_SIZE)
  }

  /** The pipe and its semaphores: p_lock_, p_items_ and p_space_. */
  datatype Pipe = Pipe(ring: Ring, eof: bool, lock: Sem, items: Sem, space: Sem)

  /**
    Writing one byte with a space token in hand. The lock is free at every point where a process can
    be switched out, so taking it never blocks; that is proved of every run in PipeRuns.
   */
  function WriteByte(s: Pipe, pid: int, b: bv8): (r: (Pipe, int))
    requires RingOk(s.ring)
    ensures RingOk(r.0.ring)
  {
    var (items, woken) := Up(s.items);
    (s.(ring := Put(s.ring, b), lock := Up(Down(s.lock, pid).0).0, items := items), woken)
  }

  datatype ReadResult = EndOfFile(pipe: Pipe) | Byte(pipe: Pipe, b: bv8, woken: int)

  /**
    Reading one byte with an item token in hand. When the indices are equal the lock is posted and, at
    end of file, the call returns; otherwise it goes on to read, and posts the lock a second time.
   */
  function ReadByte(s: Pipe, pid: int): (r: ReadResult)
    requires RingOk(s.ring)
    ensures RingOk(r.pipe.ring)
  {
    var held := Down(s.lock, pid).0;
    var equal := s.ring.readIndex == s.ring.writeIndex;
    if equal && s.eof then EndOfFile(s.(lock := Up(held).0))
    else
      var (space, woken) := Up(s.space);
      var lock := Up(if equal then Up(held).0 else held).0;
      Byte(s.(ring := Take(s.ring), lock := lock, space := space), s.ring.buffer[s.ring.readIndex], woken)
  }

  // ---- The byte loops ----

  /** Where a call stops: having used up its bytes, at end of file, or queued on a semaphore. */
  datatype Stop = Done | AtEof | Blocked

  /** The rest of a pipe_write that waits for space for data[0]: the pipe, what is unwritten, whom it woke. */
  function WriteOn(s: Pipe, pid: int, data: seq<bv8>): (r: (Pipe, seq<bv8>, Stop, seq<int>))
    requires RingOk(s.ring)
    ensures RingOk(r.0.ring)
    decreases |data|
  {
    if data == [] then (s, [], Done, [])
    else
      var (space, blocks) := Down(s.space, pid);
      if blocks then (s.(space := space), data, Blocked, [])
      else
        var (t, woken) := WriteByte(s.(space := space), pid, data[0]);
        var (u, rest, stop, more) := WriteOn(t, pid, data[1..]);
        (u, rest, stop, (if woken == -1 then [] else [woken]) + more)
  }

  /** The rest of a pipe_read that still wants n bytes: the pipe, the bytes read, whom it woke. */
  function ReadOn(s: Pipe, pid: int, n: nat): (r: (Pipe, seq<bv8>, Stop, seq<int>))
    requires RingOk(s.ring)
    ensures RingOk(r.0.ring)
    decreases n
  {
    if n == 0 then (s, [], Done, [])
    else
      var (items, blocks) := Down(s.items, pid);
      if blocks then (s.(items := items), [], Blocked, [])
      else
        match ReadByte(s.(items := items), pid)
        case EndOfFile(t) => (t, [], AtEof, [])
        case Byte(t, b, woken) =>
          var (u, rest, stop, more) := ReadOn(t, pid, n - 1);
          (u, [b] + rest, stop, (if woken == -1 then [] else [woken]) + more)
  }

  /** The lock is free and there is a place left in the queues a call could block on. */
  ghost predicate Callable(s: Pipe) {
    s.lock.value >= 1 && |s.space.queue| < PROCESSES_BLOCKED && |s.items.queue| < PROCESSES_BLOCKED
  }

  /** Those a pipe_write wakes are the readers it takes off the queue for items, in their order. */
  lemma {:induction false} WriteWakes(s: Pipe, pid: int, data: seq<bv8>)
    requires RingOk(s.ring) && -1 !in s.items.queue
    ensures var r := WriteOn(s, pid, data); s.items.queue == r.3 + r.0.items.queue
    decreases |data|
  {
    if data != [] && !Down(s.space, pid).1 {
      var (t, woken) := WriteByte(s.(space := Down(s.space, pid).0), pid, data[0]);
      UpTakes(s.items);
      hide Up, Down, Put, RingOk;
      WriteWakes(t, pid, data[1..]);
    }
  }

  lemma UpTakes(s: Sem)
    requires -1 !in s.queue
    ensures s.queue == (if Up(s).1 == -1 then [] else [Up(s).1]) + Up(s).0.queue && -1 !in Up(s).0.queue
  {
  }

  lemma ByteWakes(s: Pipe, pid: int)
    requires RingOk(s.ring)
    ensures var r := ReadByte(s, pid);
      if r.EndOfFile? then r.pipe.space == s.space else (r.pipe.space, r.woken) == Up(s.space)
  {
    hide Up, Down, Take;
  }

  /** Those a pipe_read wakes are the writers it takes off the queue for space, in their order. */
  lemma {:induction false} ReadWakes(s: Pipe, pid: int, n: nat)
    requires RingOk(s.ring) && -1 !in s.space.queue
    ensures var r := ReadOn(s, pid, n); s.space.queue == r.3 + r.0.space.queue
    decreases n
  {
    if n == 0 || Down(s.items, pid).1 {
      return;
    }
    hide Up, Down, RingOk, ReadByte, ReadOn;
    var r := ReadByte(s.(items := Down(s.items, pid).0), pid);
    ReadMore(s, pid, n);
    ByteWakes(s.(items := Down(s.items, pid).0), pid);
    if r.Byte? {
      UpTakes(s.space);
      ReadWakes(r.pipe, pid, n - 1);
      var v := ReadOn(r.pipe, pid, n - 1);
      Onward(s.space.queue, if r.woken == -1 then [] else [r.woken], r.pipe.space.queue, v.3, v.0.space.queue);
    }
  }

  lemma Onward(q: seq<int>, first: seq<int>, q': seq<int>, rest: seq<int>, end: seq<int>)
    requires q == first + q' && q' == rest + end
    ensures q == (first + rest) + end
  {
  }

  /** The rest of a reading loop that does not block at once. */
  lemma ReadMore(s: Pipe, pid: int, n: nat)
    requires RingOk(s.ring) && n > 0 && !Down(s.items, pid).1
    ensures var r, w := ReadByte(s.(items := Down(s.items, pid).0), pid), ReadOn(s, pid, n);
      if r.EndOfFile? then w.0 == r.pipe && w.3 == []
      else var v := ReadOn(r.pipe, pid, n - 1);
        w.0 == v.0 && w.3 == (if r.woken == -1 then [] else [r.woken]) + v.3
  {
    hide Up, Down, RingOk, ReadByte;
  }

  /** One round of the writing loop. */
  lemma WriteRound(s: Pipe, pid: int, data: seq<bv8>, woken: seq<int>)
    requires RingOk(s.ring) && Callable(s) && data != [] && !Down(s.space, pid).1
    ensures var t := WriteByte(s.(space := Down(s.space, pid).0), pid, data[0]);
      var w, v := WriteOn(s, pid, data), WriteOn(t.0, pid, data[1..]);
      && Callable(t.0) && (w.0, w.1, w.2) == (v.0, v.1, v.2)
      && woken + w.3 == (woken + if t.1 == -1 then [] else [t.1]) + v.3
  {
  }

  /** One round of the reading loop that gets a byte. */
  lemma ReadRound(s: Pipe, pid: int, n: nat, got: seq<bv8>, woken: seq<int>)
    requires RingOk(s.ring) && Callable(s) && n > 0 && !Down(s.items, pid).1
    requires ReadByte(s.(items := Down(s.items, pid).0), pid).Byte?
    ensures var t := ReadByte(s.(items := Down(s.items, pid).0), pid);
      var w, v := ReadOn(s, pid, n), ReadOn(t.pipe, pid, n - 1);
      && Callable(t.pipe) && (w.0, w.2) == (v.0, v.2) && got + w.1 == (got + [t.b]) + v.1
      && woken + w.3 == (woken + if t.woken == -1 then [] else [t.woken]) + v.3
  {
  }

  /** A byte written, and then the rest. */
  lemma WriteNext(s: Pipe, pid: int, data: seq<bv8>)
    requires RingOk(s.ring) && data != [] && !Down(s.space, pid).1
    ensures var t := WriteByte(s.(space := Down(s.space, pid).0), pid, data[0]);
      var w, v := WriteOn(s, pid, data), WriteOn(t.0, pid, data[1..]);
      (w.0, w.1, w.2) == (v.0, v.1, v.2)
  {
  }

  lemma WriteBlocks(s: Pipe, pid: int, data: seq<bv8>)
    requires RingOk(s.ring) && data != [] && Down(s.space, pid).1
    ensures WriteOn(s, pid, data) == (s.(space := Down(s.space, pid).0), data, Blocked, [])
  {
  }

  lemma WriteEnds(s: Pipe, pid: int)
    requires RingOk(s.ring)
    ensures WriteOn(s, pid, []) == (s, [], Done, [])
  {
  }

  /** A read that blocks, or that meets the end of file, ends there. */
  lemma ReadStops(s: Pipe, pid: int, n: nat)
    requires RingOk(s.ring) && n > 0
    ensures var (items, blocks) := Down(s.items, pid);
      && (blocks ==> ReadOn(s, pid, n) == (s.(items := items), [], Blocked, []))
      && (!blocks && ReadByte(s.(items := items), pid).EndOfFile? ==>
            ReadOn(s, pid, n) == (ReadByte(s.(items := items), pid).pipe, [], AtEof, []))
  {
  }

  lemma ReadEnds(s: Pipe, pid: int)
    requires RingOk(s.ring)
    ensures ReadOn(s, pid, 0) == (s, [], Done, [])
  {
  }

  ghost predicate SameRead(all: (Pipe, seq<bv8>, Stop, seq<int>), left: (Pipe, seq<bv8>, Stop, seq<int>),
                           got: seq<bv8>, woken: seq<int>) {
    (all.0, all.2) == (left.0, left.2) && all.1 == got + left.1 && all.3 == woken + left.3
  }

  lemma Waitable(s: Pipe)
    requires Callable(s)
    ensures s.lock.value >= 1 && |s.space.queue| < PROCESSES_BLOCKED && |s.items.queue| < PROCESSES_BLOCKED
  {
  }

  /** The outcome of a loop is the outcome of what is left of it, after those already woken. */
  ghost predicate Same(all: (Pipe, seq<bv8>, Stop, seq<int>), left: (Pipe, seq<bv8>, Stop, seq<int>), woken: seq<int>) {
    (all.0, all.1, all.2) == (left.0, left.1, left.2) && all.3 == woken + left.3
  }

  // ---- pipes.c as it runs ----

  class PipeObject {
    const buffer: array<bv8>
    var readIndex: int
    var writeIndex: int
    var eofSignaled: bool
    const lock: Semaphore
    const items: Semaphore
    const space: Semaphore

    ghost const Repr: set<object>

    ghost predicate Valid()
      reads this, Repr
    {
      && Repr == {this, buffer, lock, items, space, lock.blocked, items.blocked, space.blocked}
      && lock != items && lock != space && items != space
      && lock.blocked != items.blocked && lock.blocked != space.blocked && items.blocked != space.blocked
      && lock.Valid() && items.Valid() && space.Valid()
      && buffer.Length == PIPE_BUFFER_SIZE
      && 0 <= readIndex < PIPE_BUFFER_SIZE && 0 <= writeIndex < PIPE_BUFFER_SIZE
    }

    ghost function View(): (r: Pipe)
      requires Valid()
      reads this, Repr
      ensures RingOk(r.ring)
    {
      Pipe(Ring(buffer[..], readIndex, writeIndex), eofSignaled, lock.View(), items.View(), space.View())
    }

    constructor (name: string)
      ensures Valid() && fresh(Repr)
      ensures View().ring.readIndex == 0 == View().ring.writeIndex && !View().eof
      ensures View().lock == Sem(Stored("p_lock_" + name), true, 1, [], 1)
      ensures View().items == Sem(Stored("p_items_" + name), true, 0, [], 1)
      ensures View().space == Sem(Stored("p_space_" + name), true, PIPE_BUFFER_SIZE, [], 1)
    {
      var l := NewSemaphore("p_lock_" + name, 1);
      var i := NewSemaphore("p_items_" + name, 0);
      var s := NewSemaphore("p_space_" + name, PIPE_BUFFER_SIZE);
      var bytes := new bv8[PIPE_BUFFER_SIZE](_ => 0);
      buffer, readIndex, writeIndex, eofSignaled, lock, items, space := bytes, 0, 0, false, l, i, s;
      Repr := {this, bytes, l, i, s, l.blocked, i.blocked, s.blocked};
    }

    static method NewSemaphore(name: string, value: nat) returns (s: Semaphore)
      requires value < 0x8000_0000
      ensures fresh(s) && s.Valid() && fresh(s.blocked) && s.View() == Sem(Stored(name), true, value, [], 1)
    {
      s := new Semaphore();
      s.Init(name, value);
    }

    /** One byte into the ring, between taking the lock and posting that there is something to read. */
    method PutByte(pid: int, b: bv8) returns (woken: int)
      requires Valid() && View().lock.value >= 1
      modifies Repr
      ensures Valid() && (View(), woken) == WriteByte(old(View()), pid, b)
    {
      hide PipeObject.View, PipeObject.Valid, Up, Down, Put;
      TakeLock(pid);
      Deposit(b);
      FreeLock();
      woken := PostItem();
    }

    method Deposit(b: bv8)
      requires Valid()
      modifies Repr
      ensures Valid() && View() == old(View()).(ring := Put(old(View()).ring, b))
    {
      buffer[writeIndex] := b;
      writeIndex := (writeIndex + 1) % PIPE_BUFFER_SIZE;
    }

    method PostItem() returns (woken: int)
      requires Valid()
      modifies Repr
      ensures Valid() && var (s, w) := Up(old(View()).items); woken == w && View() == old(View()).(items := s)
    {
      woken := items.Increment();
    }

    /** One byte out of the ring; a null result is the return at end of file. */
    method TakeByte(pid: int) returns (eof: bool, b: bv8, woken: int)
      requires Valid() && View().lock.value >= 1
      modifies Repr
      ensures Valid() && if eof then ReadByte(old(View()), pid) == EndOfFile(View())
                         else ReadByte(old(View()), pid) == Byte(View(), b, woken)
    {
      hide PipeObject.View, PipeObject.Valid, Up, Down, Take;
      TakeLock(pid);
      var equal := Equal();
      if equal {
        FreeLock();
        var eofNow := AtEofNow();
        if eofNow {
          return true, 0, -1;
        }
      }
      b := Consume();
      FreeLock();
      woken := PostSpace();
      eof := false;
    }

    method TakeLock(pid: int)
      requires Valid() && View().lock.value >= 1
      modifies Repr
      ensures Valid() && View() == old(View()).(lock := Down(old(View()).lock, pid).0)
    {
      var blocks := lock.Decrement(pid);
    }

    method FreeLock()
      requires Valid()
      modifies Repr
      ensures Valid() && View() == old(View()).(lock := Up(old(View()).lock).0)
    {
      var none := lock.Increment();
    }

    method PostSpace() returns (woken: int)
      requires Valid()
      modifies Repr
      ensures Valid() && var (s, w) := Up(old(View()).space); woken == w && View() == old(View()).(space := s)
    {
      woken := space.Increment();
    }

    method Equal() returns (r: bool)
      requires Valid()
      ensures r <==> View().ring.readIndex == View().ring.writeIndex
    {
      r := readIndex == writeIndex;
    }

    method AtEofNow() returns (r: bool)
      requires Valid()
      ensures r == View().eof
    {
      r := eofSignaled;
    }

    method Consume() returns (b: bv8)
      requires Valid()
      modifies Repr
      ensures Valid() && View() == old(View()).(ring := Take(old(View()).ring))
      ensures b == old(View()).ring.buffer[old(View()).ring.readIndex]
    {
      b := buffer[readIndex];
      readIndex := (readIndex + 1) % PIPE_BUFFER_SIZE;
    }

    /** pipe_write from a point where it waits for space, up to its return or to where it blocks. */
    method Write(pid: int, data: seq<bv8>) returns (rest: seq<bv8>, stop: Stop, woken: seq<int>)
      requires Valid() && Callable(View())
      modifies Repr
      ensures Valid() && (View(), rest, stop, woken) == WriteOn(old(View()), pid, data)
    {
      hide WriteByte, PipeObject.View, PipeObject.Valid, WriteOn, Callable;
      rest, stop, woken := data, Done, [];
      while rest != []
        invariant Valid() && Callable(View()) && stop == Done
        invariant Same(WriteOn(old(View()), pid, data), WriteOn(View(), pid, rest), woken)
        decreases |rest|
      {
        ghost var s := View();
        Waitable(s);
        var blocks := WaitForSpace(pid);
        if blocks {
          stop := Blocked;
          WriteBlocks(s, pid, rest);
          assert woken + [] == woken;
          return;
        }
        WriteRound(s, pid, rest, woken);
        var w := PutByte(pid, rest[0]);
        rest := rest[1..];
        woken := woken + if w == -1 then [] else [w];
      }
      WriteEnds(View(), pid);
      assert woken + [] == woken;
    }

    /** pipe_read from a point where it waits for an item, up to its return or to where it blocks. */
    method Read(pid: int, count: nat) returns (got: seq<bv8>, stop: Stop, woken: seq<int>)
      requires Valid() && Callable(View())
      modifies Repr
      ensures Valid() && (View(), got, stop, woken) == ReadOn(old(View()), pid, count)
    {
      hide ReadByte, PipeObject.View, PipeObject.Valid, ReadOn, Callable;
      got, stop, woken := [], Done, [];
      var left := count;
      while left > 0
        invariant Valid() && Callable(View()) && stop == Done
        invariant SameRead(ReadOn(old(View()), pid, count), ReadOn(View(), pid, left), got, woken)
        decreases left
      {
        ghost var s := View();
        Waitable(s);
        var blocks := WaitForItem(pid);
        if blocks {
          stop := Blocked;
          ReadStops(s, pid, left);
          assert woken + [] == woken && got + [] == got;
          return;
        }
        var eof, b, w := TakeByte(pid);
        if eof {
          stop := AtEof;
          ReadStops(s, pid, left);
          assert woken + [] == woken && got + [] == got;
          return;
        }
        ReadRound(s, pid, left, got, woken);
        left := left - 1;
        got := got + [b];
        woken := woken + if w == -1 then [] else [w];
      }
      ReadEnds(View(), pid);
      assert woken + [] == woken && got + [] == got;
    }

    method WaitForItem(pid: int) returns (blocks: bool)
      requires Valid() && (View().items.value <= 0 ==> |View().items.queue| < PROCESSES_BLOCKED)
      modifies Repr
      ensures Valid() && var (s, b) := Down(old(View()).items, pid); blocks == b && View() == old(View()).(items := s)
    {
      blocks := items.Decrement(pid);
    }

    method WaitForSpace(pid: int) returns (blocks: bool)
      requires Valid() && (View().space.value <= 0 ==> |View().space.queue| < PROCESSES_BLOCKED)
      modifies Repr
      ensures Valid() && var (s, b) := Down(old(View()).space, pid); blocks == b && View() == old(View()).(space := s)
    {
      blocks := space.Decrement(pid);
    }
  }
}
