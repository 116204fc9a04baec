/**
  The semaphores of Kernel/sem.c, as values. The spinlock around each operation is always free when
  a system call enters, because interrupts are off for the whole of it, so it is not represented.
 */
module Semaphores {

  const MAX_SEMAPHORES := 10
  const MAX_NAME_LENGTH := 32
  const PROCESSES_BLOCKED := 10

  /** A slot of the table. A slot that is not open keeps a stale queue until it is opened again. */
  datatype Sem = Sem(name: string, open: bool, value: int, queue: seq<int>, openings: int)

  const UNUSED := Sem("", false, 0, [], 0)

  /** What strncpy into a 32-byte field keeps of a name. */
  function Stored(name: string): string {
    if |name| < MAX_NAME_LENGTH then name else name[..MAX_NAME_LENGTH - 1]
  }

  /** An unsigned int stored in an int. */
  function Signed(value: nat): int {
    if value < 0x8000_0000 then value else value - 0x1_0000_0000
  }

  predicate Named(s: Sem, name: string) {
    s.open && s.name == name
  }

  /** find_sem: the first open slot with this name, or -1. */
  function Find(sems: seq<Sem>, name: string, from: nat := 0): (r: int)
    requires from <= |sems|
    ensures r == -1 || (from <= r < |sems| && Named(sems[r], name))
    ensures forall i :: from <= i < |sems| && (r == -1 || i < r) ==> !Named(sems[i], name)
    decreases |sems| - from
  {
    if from == |sems| then -1 else if Named(sems[from], name) then from else Find(sems, name, from + 1)
  }

  function FindClosed(sems: seq<Sem>, from: nat := 0): (r: int)
    requires from <= |sems|
    ensures r == -1 || (from <= r < |sems| && !sems[r].open)
    ensures forall i :: from <= i < |sems| && (r == -1 || i < r) ==> sems[i].open
    decreases |sems| - from
  {
    if from == |sems| then -1 else if !sems[from].open then from else FindClosed(sems, from + 1)
  }

  /** sem_open_init: 0 when created, -1 when it was already there, -2 when the table is full. */
  function Open(sems: seq<Sem>, name: string, value: nat): (seq<Sem>, int) {
    var i := Find(sems, name);
    if i >= 0 then (sems[i := sems[i].(openings := sems[i].openings + 1)], -1)
    else
      var j := FindClosed(sems);
      if j < 0 then (sems, -2) else (sems[j := Sem(Stored(name), true, Signed(value), [], 1)], 0)
  }

  /** sem_wait on one semaphore: the new semaphore and whether the caller must block. */
  function Down(s: Sem, pid: int): (Sem, bool) {
    if s.value - 1 < 0 then (s.(value := s.value - 1, queue := s.queue + [pid]), true)
    else (s.(value := s.value - 1), false)
  }

  /** sem_post on one semaphore: the new semaphore and the process to wake, or -1. */
  function Up(s: Sem): (Sem, int) {
    if s.value + 1 <= 0 && |s.queue| > 0 then (s.(value := s.value + 1, queue := s.queue[1..]), s.queue[0])
    else (s.(value := s.value + 1), -1)
  }

  /** sem_close on one semaphore: it is released when the last opening is given back. */
  function CloseOne(s: Sem): Sem {
    if s.openings - 1 > 0 then s.(openings := s.openings - 1)
    else s.(openings := s.openings - 1, open := false, name := "", value := 0)
  }

  function Close(sems: seq<Sem>, name: string): (seq<Sem>, int) {
    var i := Find(sems, name);
    if i < 0 then (sems, -1) else (sems[i := CloseOne(sems[i])], 0)
  }

  // ---- What opening and closing do ----

  lemma StoredIs(name: string)
    ensures Stored(name) <= name && |Stored(name)| == if |name| <= 31 then |name| else 31
  {
  }

  /** An initial value keeps its 32 bits. */
  lemma SignedIs(value: nat)
    requires value < 0x1_0000_0000
    ensures -0x8000_0000 <= Signed(value) < 0x8000_0000 && (value - Signed(value)) % 0x1_0000_0000 == 0
  {
  }

  /** The first slot that is not open. */
  ghost predicate FirstClosed(sems: seq<Sem>, j: int) {
    0 <= j < |sems| && !sems[j].open && forall i | 0 <= i < j :: sems[i].open
  }

  /**
    sem_open_init: a semaphore that exists only gets one opening more (-1); a new one goes in the first
    closed slot, with nobody waiting and one opening; with no such slot nothing changes (-2).
   */
  lemma OpenEffect(sems: seq<Sem>, name: string, value: nat)
    ensures var i, (after, r) := Find(sems, name), Open(sems, name, value);
      && (r == -1 <==> i >= 0) && (r == -2 <==> i < 0 && forall j | 0 <= j < |sems| :: sems[j].open) && -2 <= r <= 0
      && (r == -1 ==> after == sems[i := sems[i].(openings := sems[i].openings + 1)])
      && (r == -2 ==> after == sems)
      && (r == 0 ==> exists j :: FirstClosed(sems, j) && after == sems[j := Sem(Stored(name), true, Signed(value), [], 1)])
  {
    var j := FindClosed(sems);
    if j >= 0 {
      assert FirstClosed(sems, j);
    }
  }

  /** A semaphore just created can be found again iff its name fits the field; a longer one is stored cut. */
  lemma CreatedFound(sems: seq<Sem>, name: string, value: nat)
    requires Open(sems, name, value).1 == 0
    ensures Find(Open(sems, name, value).0, name) >= 0 <==> |name| < 32
  {
    var after := Open(sems, name, value).0;
    var j := FindClosed(sems);
    if |name| < MAX_NAME_LENGTH {
      assert Named(after[j], name);
    } else {
      assert forall i | 0 <= i < |after| :: !Named(after[i], name);
    }
  }

  /** sem_close gives one opening back, and with the last one the slot; what does not exist is not closed (-1). */
  lemma CloseEffect(sems: seq<Sem>, name: string)
    ensures var i, (after, r) := Find(sems, name), Close(sems, name);
      && r == (if i < 0 then -1 else 0)
      && (i < 0 ==> after == sems)
      && (i >= 0 ==> after == sems[i := after[i]] && |after| == |sems|)
      && (i >= 0 && sems[i].openings > 1 ==> after[i] == sems[i].(openings := sems[i].openings - 1))
      && (i >= 0 && sems[i].openings <= 1 ==> !after[i].open)
  {
  }

  // ---- sem.c as it runs ----

  class Semaphore {
    var name: string
    var initialized: bool
    var value: int
    var openings: int
    const blocked: array<int>
    var amount: nat

    ghost predicate Valid()
      reads this
    {
      blocked.Length == PROCESSES_BLOCKED && amount <= PROCESSES_BLOCKED
    }

    ghost function View(): Sem
      requires Valid()
      reads this, blocked
    {
      Sem(name, initialized, value, blocked[..amount], openings)
    }

    constructor ()
      ensures Valid() && fresh(blocked) && View() == UNUSED
    {
      name, initialized, value, openings, amount := "", false, 0, 0, 0;
      blocked := new int[PROCESSES_BLOCKED](_ => 0);
    }

    method Init(n: string, v: nat)
      requires Valid()
      modifies this
      ensures Valid() && View() == Sem(Stored(n), true, Signed(v), [], 1)
    {
      initialized := true;
      name := Stored(n);
      value := Signed(v);
      amount := 0;
      openings := 1;
    }

    /** The queue has ten places; the code does not check for an eleventh waiter. */
    method Decrement(pid: int) returns (blocks: bool)
      requires Valid() && (value <= 0 ==> amount < PROCESSES_BLOCKED)
      modifies this, blocked
      ensures Valid() && (View(), blocks) == Down(old(View()), pid)
    {
      value := value - 1;
      if value < 0 {
        blocked[amount] := pid;
        amount := amount + 1;
        assert blocked[..amount] == old(blocked[..amount]) + [pid];
        return true;
      }
      return false;
    }

    method Increment() returns (woken: int)
      requires Valid()
      modifies this, blocked
      ensures Valid() && (View(), woken) == Up(old(View()))
    {
      value := value + 1;
      woken := -1;
      if value <= 0 && amount > 0 {
        woken := blocked[0];
        ghost var q := blocked[..];
        for i := 1 to amount
          invariant amount == old(amount) && value == old(value) + 1 && name == old(name)
          invariant initialized == old(initialized) && openings == old(openings)
          invariant forall j :: 1 <= j < i ==> blocked[j - 1] == q[j]
          invariant forall j :: i - 1 <= j < PROCESSES_BLOCKED ==> blocked[j] == q[j]
        {
          blocked[i - 1] := blocked[i];
        }
        amount := amount - 1;
        assert blocked[..amount] == q[..amount + 1][1..];
      }
    }

    method Reopen()
      requires Valid()
      modifies this
      ensures Valid() && View() == old(View()).(openings := old(openings) + 1)
    {
      openings := openings + 1;
    }

    method Release()
      requires Valid()
      modifies this
      ensures Valid() && View() == CloseOne(old(View()))
    {
      openings := openings - 1;
      if openings > 0 {
        return;
      }
      initialized := false;
      name := "";
      value := 0;
    }
  }

  class SemTable {
    const sems: seq<Semaphore>

    ghost predicate Valid()
      reads sems
    {
      && |sems| == MAX_SEMAPHORES
      && (forall i :: 0 <= i < |sems| ==> sems[i].Valid())
      && (forall i, j :: 0 <= i < j < |sems| ==> sems[i] != sems[j] && sems[i].blocked != sems[j].blocked)
    }

    ghost function Arrays(): set<object> {
      set i | 0 <= i < |sems| :: sems[i].blocked
    }

    ghost function View(): seq<Sem>
      requires Valid()
      reads sems, Arrays()
    {
      seq(|sems|, i requires 0 <= i < |sems| reads sems, Arrays() requires Valid() => sems[i].View())
    }

    constructor ()
      ensures Valid() && fresh(sems) && fresh(Arrays()) && View() == seq(MAX_SEMAPHORES, _ => UNUSED)
    {
      var all: seq<Semaphore> := [];
      for k := 0 to MAX_SEMAPHORES
        invariant |all| == k && fresh(all)
        invariant forall i :: 0 <= i < k ==> all[i].Valid() && fresh(all[i].blocked) && all[i].View() == UNUSED
        invariant forall i, j :: 0 <= i < j < k ==> all[i] != all[j] && all[i].blocked != all[j].blocked
      {
        var s := new Semaphore();
        all := all + [s];
      }
      sems := all;
    }

    method FindSem(name: string) returns (r: int)
      requires Valid()
      ensures r == Find(View(), name)
    {
      for i := 0 to |sems|
        invariant Find(View(), name) == Find(View(), name, i)
      {
        assert View()[i] == sems[i].View();
        if sems[i].initialized && sems[i].name == name {
          return i;
        }
      }
      return -1;
    }

    /** A change to one semaphore leaves the other slots of the view alone. */
    twostate lemma OneChanged(i: int)
      requires old(Valid()) && Valid() && 0 <= i < |sems|
      requires forall j :: 0 <= j < |sems| && j != i ==> unchanged(sems[j]) && unchanged(sems[j].blocked)
      ensures View() == old(View())[i := sems[i].View()]
    {
      forall j | 0 <= j < |sems|
        ensures View()[j] == old(View())[i := sems[i].View()][j]
      {
        if j != i {
          assert View()[j] == sems[j].View();
          assert old(View())[j] == old(sems[j].View());
        }
      }
    }

    method DownAt(i: nat, pid: int) returns (blocks: bool)
      requires Valid() && i < |sems| && (View()[i].value <= 0 ==> |View()[i].queue| < PROCESSES_BLOCKED)
      modifies sems, Arrays()
      ensures Valid() && var (s, b) := Down(old(View())[i], pid); blocks == b && View() == old(View())[i := s]
    {
      assert View()[i] == sems[i].View();
      blocks := sems[i].Decrement(pid);
      OneChanged(i);
    }

    method UpAt(i: nat) returns (woken: int)
      requires Valid() && i < |sems|
      modifies sems, Arrays()
      ensures Valid() && var (s, w) := Up(old(View())[i]); woken == w && View() == old(View())[i := s]
    {
      assert View()[i] == sems[i].View();
      woken := sems[i].Increment();
      OneChanged(i);
    }

    method OpenInit(name: string, value: nat) returns (r: int)
      requires Valid()
      modifies sems
      ensures Valid() && (View(), r) == Open(old(View()), name, value)
    {
      var i := FindSem(name);
      if i >= 0 {
        ghost var was := sems[i].View();
        assert View()[i] == was && View() == old(View());
        sems[i].Reopen();
        OneChanged(i);
        assert sems[i].View() == was.(openings := was.openings + 1);
        return -1;
      }
      var j := 0;
      while j < |sems| && sems[j].initialized
        invariant 0 <= j <= |sems| && View() == old(View()) && FindClosed(View()) == FindClosed(View(), j)
      {
        assert View()[j] == sems[j].View();
        j := j + 1;
      }
      if j == |sems| {
        return -2;
      }
      assert View()[j] == sems[j].View();
      sems[j].Init(name, value);
      OneChanged(j);
      return 0;
    }

    method CloseSem(name: string) returns (r: int)
      requires Valid()
      modifies sems
      ensures Valid() && (View(), r) == Close(old(View()), name)
    {
      var i := FindSem(name);
      if i < 0 {
        assert View() == old(View());
        return -1;
      }
      ghost var was := sems[i].View();
      assert View()[i] == was && View() == old(View());
      sems[i].Release();
      OneChanged(i);
      return 0;
    }
  }
}
