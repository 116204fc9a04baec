/**
  The table of pipes of Kernel/pipes.c against the table of semaphores: creating an anonymous pipe
  opens three named semaphores or rolls back, and releasing it closes exactly those three.
 */
module PipeTable {
  import opened Semaphores
  import opened Pipes
  import opened Sums

  const MAX_PIPES := 16

  /** itoa in base ten, for a slot number. */
  function Decimal(n: nat): string {
    if n < 10 then [Digit(n)] else Decimal(n / 10) + [Digit(n % 10)]
  }

  function Digit(n: nat): char
    requires n < 10
  {
    '0' + n as char
  }

  function BaseName(slot: nat): string { "anon_" + Decimal(slot) }
  function LockName(slot: nat): string { "p_lock_" + BaseName(slot) }
  function ItemsName(slot: nat): string { "p_items_" + BaseName(slot) }
  function SpaceName(slot: nat): string { "p_space_" + BaseName(slot) }

  /** What can be seen of a semaphore table: closed slots hold nothing anyone can name. */
  ghost function Visible(sems: seq<Sem>): seq<Sem> {
    seq(|sems|, i requires 0 <= i < |sems| => if sems[i].open then sems[i] else UNUSED)
  }

  /** create_pipe_object: each failing open closes what was opened before it. */
  function CreateObject(sems: seq<Sem>, slot: nat): (seq<Sem>, bool) {
    var (a, lock) := Open(sems, LockName(slot), 1);
    if lock < 0 then (a, false)
    else
      var (b, items) := Open(a, ItemsName(slot), 0);
      if items < 0 then (Close(b, LockName(slot)).0, false)
      else
        var (c, space) := Open(b, SpaceName(slot), PIPE_BUFFER_SIZE);
        if space < 0 then (Close(Close(c, LockName(slot)).0, ItemsName(slot)).0, false)
        else (c, true)
  }

  /** The three closes of pipe_close when the last reference goes. */
  function ReleaseObject(sems: seq<Sem>, slot: nat): seq<Sem> {
    Close(Close(Close(sems, LockName(slot)).0, ItemsName(slot)).0, SpaceName(slot)).0
  }

  ghost predicate Unnamed(sems: seq<Sem>, name: string) {
    forall i | 0 <= i < |sems| :: !Named(sems[i], name)
  }

  /** A name short enough to be stored whole. */
  predicate Short(name: string) { |name| < MAX_NAME_LENGTH }

  lemma NamesShort(slot: nat)
    requires slot < MAX_PIPES
    ensures Short(LockName(slot)) && Short(ItemsName(slot)) && Short(SpaceName(slot))
    ensures LockName(slot) != ItemsName(slot) && LockName(slot) != SpaceName(slot) && ItemsName(slot) != SpaceName(slot)
  {
    assert |Decimal(slot)| <= 2;
    assert LockName(slot)[2] == 'l' && ItemsName(slot)[2] == 'i' && SpaceName(slot)[2] == 's';
  }

  /** The number that a string of decimal digits stands for. */
  function Value(s: string): int {
    if s == "" then 0 else 10 * Value(s[..|s| - 1]) + (s[|s| - 1] as int - '0' as int)
  }

  /** A slot number is written in decimal digits that read back as it, so different slots are written differently. */
  lemma {:induction false} DecimalReads(n: nat)
    ensures forall c | c in Decimal(n) :: '0' <= c <= '9'
    ensures Value(Decimal(n)) == n
    decreases n
  {
    if n < 10 {
      assert Decimal(n)[..0] == "";
    } else {
      DecimalReads(n / 10);
      assert Decimal(n)[..|Decimal(n)| - 1] == Decimal(n / 10);
    }
  }

  /** The names of one pipe's semaphores. */
  function NamesOf(slot: nat): set<string> { {LockName(slot), ItemsName(slot), SpaceName(slot)} }

  /** Pipes in different slots have no semaphore name in common. */
  lemma NamesApart(i: nat, j: nat)
    requires i != j
    ensures NamesOf(i) !! NamesOf(j)
  {
    DecimalReads(i);
    DecimalReads(j);
    Suffix("p_lock_anon_", Decimal(i), Decimal(j));
    Suffix("p_items_anon_", Decimal(i), Decimal(j));
    Suffix("p_space_anon_", Decimal(i), Decimal(j));
    Prefixed(i);
    Prefixed(j);
    assert LockName(i)[2] == LockName(j)[2] == 'l' && ItemsName(i)[2] == ItemsName(j)[2] == 'i';
    assert SpaceName(i)[2] == SpaceName(j)[2] == 's';
  }

  lemma Suffix(a: string, b: string, c: string)
    requires b != c
    ensures a + b != a + c
  {
    assert (a + b)[|a|..] == b && (a + c)[|a|..] == c;
  }

  lemma Prefixed(slot: nat)
    ensures LockName(slot) == "p_lock_anon_" + Decimal(slot)
    ensures ItemsName(slot) == "p_items_anon_" + Decimal(slot)
    ensures SpaceName(slot) == "p_space_anon_" + Decimal(slot)
  {
    assert "p_lock_" + ("anon_" + Decimal(slot)) == ("p_lock_" + "anon_") + Decimal(slot);
    assert "p_items_" + ("anon_" + Decimal(slot)) == ("p_items_" + "anon_") + Decimal(slot);
    assert "p_space_" + ("anon_" + Decimal(slot)) == ("p_space_" + "anon_") + Decimal(slot);
  }

  /** The number of closed slots. */
  ghost function Room(sems: seq<Sem>): int { Sum(sems, ClosedOf()) }

  ghost function ClosedOf(): Sem -> int { (s: Sem) => if s.open then 0 else 1 }

  /** Semaphore s put in the closed slot j. */
  ghost predicate Added(sems: seq<Sem>, after: seq<Sem>, j: nat, s: Sem) {
    j < |sems| && !sems[j].open && s.open && after == sems[j := s]
  }

  /** Opening an unused short name fills the first closed slot, or reports that there is none. */
  lemma OpenFresh(sems: seq<Sem>, name: string, value: nat) returns (j: nat)
    requires Unnamed(sems, name) && Short(name) && value < 0x8000_0000
    ensures var (after, r) := Open(sems, name, value);
      && (r == 0 <==> Room(sems) > 0) && Room(sems) >= 0
      && (if r == 0 then Added(sems, after, j, Sem(name, true, value, [], 1)) && Room(after) == Room(sems) - 1
          else r == -2 && after == sems)
  {
    SumNatural(sems, ClosedOf());
    j := 0;
    var k := FindClosed(sems);
    if k >= 0 {
      j := k;
      SumAtLeast(sems, ClosedOf(), j);
      SumUpdate(sems, ClosedOf(), j, Sem(name, true, value, [], 1));
    } else {
      SumOfEach(sems, ClosedOf());
    }
  }

  lemma StillUnnamed(sems: seq<Sem>, after: seq<Sem>, j: nat, s: Sem, name: string)
    requires Added(sems, after, j, s) && Unnamed(sems, name) && s.name != name
    ensures Unnamed(after, name)
  {
  }

  /** Closing the only opening of the semaphore in slot j hides that slot and touches nothing else. */
  lemma CloseAt(sems: seq<Sem>, name: string, j: nat)
    requires j < |sems| && Named(sems[j], name) && sems[j].openings == 1
    requires forall i | 0 <= i < |sems| && i != j :: !Named(sems[i], name)
    ensures var after := Close(sems, name).0;
      |after| == |sems| && !after[j].open && after == sems[j := after[j]]
  {
  }

  /** The three semaphores of a pipe in three closed slots of `sems`. */
  ghost predicate ThreeAdded(sems: seq<Sem>, after: seq<Sem>, slot: nat, a: nat, b: nat, c: nat) {
    && a < |sems| && b < |sems| && c < |sems| && a != b && b != c && a != c
    && !sems[a].open && !sems[b].open && !sems[c].open
    && after == sems[a := Sem(LockName(slot), true, 1, [], 1)]
                    [b := Sem(ItemsName(slot), true, 0, [], 1)]
                    [c := Sem(SpaceName(slot), true, PIPE_BUFFER_SIZE, [], 1)]
  }

  ghost predicate Fresh(sems: seq<Sem>, slot: nat) {
    Unnamed(sems, LockName(slot)) && Unnamed(sems, ItemsName(slot)) && Unnamed(sems, SpaceName(slot))
  }

  /**
    Creating a pipe whose names are not in use succeeds iff three slots are closed; it then adds
    exactly the three semaphores. When it fails, every semaphore is as it was.
   */
  lemma CreateEffect(sems: seq<Sem>, slot: nat) returns (a: nat, b: nat, c: nat)
    requires slot < MAX_PIPES && Fresh(sems, slot)
    ensures var (after, ok) := CreateObject(sems, slot);
      && (ok <==> Room(sems) >= 3)
      && (if ok then ThreeAdded(sems, after, slot, a, b, c) else Visible(after) == Visible(sems))
  {
    hide Open, Close, LockName, ItemsName, SpaceName;
    NamesShort(slot);
    b, c := 0, 0;
    a := OpenFresh(sems, LockName(slot), 1);
    var (sa, ra) := Open(sems, LockName(slot), 1);
    if ra == 0 {
      StillUnnamed(sems, sa, a, sa[a], ItemsName(slot));
      StillUnnamed(sems, sa, a, sa[a], SpaceName(slot));
      b := OpenFresh(sa, ItemsName(slot), 0);
      var (sb, rb) := Open(sa, ItemsName(slot), 0);
      if rb != 0 {
        CloseAt(sb, LockName(slot), a);
      } else {
        StillUnnamed(sa, sb, b, sb[b], SpaceName(slot));
        c := OpenFresh(sb, SpaceName(slot), PIPE_BUFFER_SIZE);
        var (sc, rc) := Open(sb, SpaceName(slot), PIPE_BUFFER_SIZE);
        if rc != 0 {
          CloseAt(sc, LockName(slot), a);
          CloseAt(Close(sc, LockName(slot)).0, ItemsName(slot), b);
        }
      }
    }
  }

  /**
    Two pipes: once the pipe of slot i has been created, that of slot j, with its names unused before, is
    created iff three slots are closed, and every semaphore already there, i's three among them, is as it was.
   */
  lemma TwoPipes(sems: seq<Sem>, i: nat, j: nat)
    requires i < MAX_PIPES && j < MAX_PIPES && i != j
    requires Fresh(sems, i) && Fresh(sems, j) && CreateObject(sems, i).1
    ensures var first := CreateObject(sems, i).0;
      var (after, ok) := CreateObject(first, j);
      && (ok <==> Room(first) >= 3)
      && |after| == |first| && (forall s | 0 <= s < |first| && first[s].open :: after[s] == first[s])
      && Held(first, LockName(i)) && Held(first, ItemsName(i)) && Held(first, SpaceName(i))
  {
    hide LockName, ItemsName, SpaceName, CreateObject, Room, Decimal, Fresh, ThreeAdded, Held, NamesOf, Visible;
    var a, b, c := CreateEffect(sems, i);
    NamesApart(i, j);
    var first := CreateObject(sems, i).0;
    AllHeld(sems, first, i, a, b, c);
    StillFresh(sems, first, i, j, a, b, c);
    var d, e, f := CreateEffect(first, j);
    var (after, ok) := CreateObject(first, j);
    if ok {
      OthersStay(first, after, j, d, e, f);
    } else {
      SeenAsBefore(first, after);
    }
  }

  lemma AllHeld(sems: seq<Sem>, after: seq<Sem>, i: nat, a: nat, b: nat, c: nat)
    requires ThreeAdded(sems, after, i, a, b, c)
    ensures Held(after, LockName(i)) && Held(after, ItemsName(i)) && Held(after, SpaceName(i))
  {
    hide LockName, ItemsName, SpaceName;
    assert Named(after[a], LockName(i)) && Named(after[b], ItemsName(i)) && Named(after[c], SpaceName(i));
  }

  lemma OthersStay(sems: seq<Sem>, after: seq<Sem>, i: nat, a: nat, b: nat, c: nat)
    requires ThreeAdded(sems, after, i, a, b, c)
    ensures |after| == |sems| && forall s | 0 <= s < |sems| && sems[s].open :: after[s] == sems[s]
  {
    hide LockName, ItemsName, SpaceName;
  }

  /** Some open semaphore has this name. */
  ghost predicate Held(sems: seq<Sem>, name: string) {
    exists s :: 0 <= s < |sems| && Named(sems[s], name)
  }

  lemma StillFresh(sems: seq<Sem>, first: seq<Sem>, i: nat, j: nat, a: nat, b: nat, c: nat)
    requires Fresh(sems, j) && ThreeAdded(sems, first, i, a, b, c) && NamesOf(i) !! NamesOf(j)
    ensures Fresh(first, j)
  {
    assert LockName(i) in NamesOf(i) && ItemsName(i) in NamesOf(i) && SpaceName(i) in NamesOf(i);
    assert LockName(j) in NamesOf(j) && ItemsName(j) in NamesOf(j) && SpaceName(j) in NamesOf(j);
    hide LockName, ItemsName, SpaceName, NamesOf;
  }

  lemma SeenAsBefore(sems: seq<Sem>, after: seq<Sem>)
    requires Visible(after) == Visible(sems)
    ensures |after| == |sems| && forall s | 0 <= s < |sems| && sems[s].open :: after[s] == sems[s]
  {
    assert |Visible(after)| == |after| && |Visible(sems)| == |sems|;
    forall s | 0 <= s < |sems| && sems[s].open
      ensures after[s] == sems[s]
    {
      assert Visible(after)[s] == Visible(sems)[s] == sems[s];
    }
  }

  // ---- Names that somebody has taken ----

  /** The creation meets none of its names on the way to success, or to the end of the room. */
  ghost predicate Clean(sems: seq<Sem>, slot: nat) {
    Unnamed(sems, LockName(slot)) &&
    (Room(sems) <= 0 || (Unnamed(sems, ItemsName(slot)) && (Room(sems) <= 1 || Unnamed(sems, SpaceName(slot)))))
  }

  /** Opening a name that is taken adds an opening to that semaphore, which is never given back. */
  lemma OpenTaken(sems: seq<Sem>, name: string, value: nat) returns (i: nat)
    requires !Unnamed(sems, name)
    ensures i < |sems| && sems[i].open && sems[i].name == name
    ensures Open(sems, name, value) == (sems[i := sems[i].(openings := sems[i].openings + 1)], -1)
  {
    i := Find(sems, name);
  }

  /** It shows in the table whatever is opened and closed again around it. */
  lemma Leaks(sems: seq<Sem>, after: seq<Sem>, i: nat)
    requires i < |sems| == |after| && sems[i].open && after[i] == sems[i].(openings := sems[i].openings + 1)
    ensures Visible(after) != Visible(sems)
  {
    assert Visible(after)[i] == after[i] && Visible(sems)[i] == sems[i];
  }

  lemma StillTaken(sems: seq<Sem>, after: seq<Sem>, j: nat, s: Sem, name: string)
    requires Added(sems, after, j, s) && !Unnamed(sems, name)
    ensures !Unnamed(after, name)
  {
    var i :| 0 <= i < |sems| && Named(sems[i], name);
    assert Named(after[i], name);
  }

  /** A taken semaphore is not the one just added. */
  lemma TakenBefore(sems: seq<Sem>, after: seq<Sem>, j: nat, s: Sem, i: nat, name: string)
    requires Added(sems, after, j, s) && i < |after| && Named(after[i], name) && s.name != name
    ensures i != j && sems[i] == after[i]
  {
  }

  /**
    A creation succeeds or leaves every semaphore as it was exactly when it meets no name that is taken:
    otherwise the semaphore of that name has one opening more, for good.
   */
  lemma CreateExact(sems: seq<Sem>, slot: nat)
    requires slot < MAX_PIPES
    ensures var (after, ok) := CreateObject(sems, slot);
      ok || Visible(after) == Visible(sems) <==> Clean(sems, slot)
  {
    hide Open, Close, LockName, ItemsName, SpaceName, Unnamed, Visible;
    NamesShort(slot);
    if !Unnamed(sems, LockName(slot)) {
      var i := OpenTaken(sems, LockName(slot), 1);
      Leaks(sems, Open(sems, LockName(slot), 1).0, i);
    } else if Unnamed(sems, ItemsName(slot)) && Unnamed(sems, SpaceName(slot)) {
      FreshCreate(sems, slot);
    } else {
      LockFirst(sems, slot);
    }
  }

  lemma FreshCreate(sems: seq<Sem>, slot: nat)
    requires slot < MAX_PIPES && Fresh(sems, slot)
    ensures var (after, ok) := CreateObject(sems, slot); ok || Visible(after) == Visible(sems)
  {
    var a, b, c := CreateEffect(sems, slot);
  }

  /** The lock's name is free, and one of the other two is not. */
  lemma LockFirst(sems: seq<Sem>, slot: nat)
    requires slot < MAX_PIPES && Unnamed(sems, LockName(slot))
    requires !(Unnamed(sems, ItemsName(slot)) && Unnamed(sems, SpaceName(slot)))
    ensures var (after, ok) := CreateObject(sems, slot);
      ok || Visible(after) == Visible(sems) <==> Clean(sems, slot)
  {
    hide Open, Close, LockName, ItemsName, SpaceName, Unnamed, Visible;
    NamesShort(slot);
    var j := OpenFresh(sems, LockName(slot), 1);
    var (sa, ra) := Open(sems, LockName(slot), 1);
    if ra == 0 {
      if !Unnamed(sems, ItemsName(slot)) {
        ItemsTaken(sems, sa, slot, j);
      } else {
        ItemsFree(sems, sa, slot, j);
      }
    }
  }

  lemma ItemsTaken(sems: seq<Sem>, sa: seq<Sem>, slot: nat, j: nat)
    requires slot < MAX_PIPES && Unnamed(sems, LockName(slot)) && !Unnamed(sems, ItemsName(slot))
    requires Open(sems, LockName(slot), 1) == (sa, 0) && Added(sems, sa, j, Sem(LockName(slot), true, 1, [], 1))
    ensures !CreateObject(sems, slot).1 && Visible(CreateObject(sems, slot).0) != Visible(sems)
  {
    hide Open, Close, LockName, ItemsName, SpaceName, Visible;
    NamesShort(slot);
    StillTaken(sems, sa, j, sa[j], ItemsName(slot));
    var i := OpenTaken(sa, ItemsName(slot), 0);
    TakenBefore(sems, sa, j, sa[j], i, ItemsName(slot));
    var sb := Open(sa, ItemsName(slot), 0).0;
    CloseAt(sb, LockName(slot), j);
    Leaks(sems, CreateObject(sems, slot).0, i);
  }

  lemma ItemsFree(sems: seq<Sem>, sa: seq<Sem>, slot: nat, j: nat)
    requires slot < MAX_PIPES && Unnamed(sems, LockName(slot)) && Unnamed(sems, ItemsName(slot)) && !Unnamed(sems, SpaceName(slot))
    requires Open(sems, LockName(slot), 1) == (sa, 0) && Added(sems, sa, j, Sem(LockName(slot), true, 1, [], 1))
    requires Room(sa) == Room(sems) - 1
    ensures var (after, ok) := CreateObject(sems, slot);
      !ok && (Visible(after) == Visible(sems) <==> Room(sems) <= 1)
  {
    hide Open, Close, LockName, ItemsName, SpaceName, Room;
    NamesShort(slot);
    StillUnnamed(sems, sa, j, sa[j], ItemsName(slot));
    StillTaken(sems, sa, j, sa[j], SpaceName(slot));
    var l := OpenFresh(sa, ItemsName(slot), 0);
    var (sb, rb) := Open(sa, ItemsName(slot), 0);
    if rb != 0 {
      CloseAt(sb, LockName(slot), j);
    } else {
      StillTaken(sa, sb, l, sb[l], SpaceName(slot));
      var i := OpenTaken(sb, SpaceName(slot), PIPE_BUFFER_SIZE);
      TakenBefore(sa, sb, l, sb[l], i, SpaceName(slot));
      TakenBefore(sems, sa, j, sa[j], i, SpaceName(slot));
      var sc := Open(sb, SpaceName(slot), PIPE_BUFFER_SIZE).0;
      CloseAt(sc, LockName(slot), j);
      CloseAt(Close(sc, LockName(slot)).0, ItemsName(slot), l);
      Leaks(sems, CreateObject(sems, slot).0, i);
    }
  }

  /** Releasing a pipe just created leaves every semaphore as it was before. */
  lemma ReleaseUndoesCreate(sems: seq<Sem>, slot: nat)
    requires slot < MAX_PIPES && Fresh(sems, slot) && CreateObject(sems, slot).1
    ensures Visible(ReleaseObject(CreateObject(sems, slot).0, slot)) == Visible(sems)
  {
    var a, b, c := CreateEffect(sems, slot);
    NamesShort(slot);
    hide Close, LockName, ItemsName, SpaceName, CreateObject, Room;
    var s0 := CreateObject(sems, slot).0;
    CloseAt(s0, LockName(slot), a);
    var s1 := Close(s0, LockName(slot)).0;
    CloseAt(s1, ItemsName(slot), b);
    var s2 := Close(s1, ItemsName(slot)).0;
    CloseAt(s2, SpaceName(slot), c);
  }

  // ---- As it runs, on the kernel's semaphore table ----

  method CreatePipeObject(table: SemTable, slot: nat) returns (ok: bool)
    requires table.Valid()
    modifies table.sems
    ensures table.Valid() && (table.View(), ok) == CreateObject(old(table.View()), slot)
  {
    hide Open, Close, SemTable.Valid, SemTable.View;
    var lock := table.OpenInit(LockName(slot), 1);
    if lock < 0 {
      return false;
    }
    var items := table.OpenInit(ItemsName(slot), 0);
    if items < 0 {
      var _ := table.CloseSem(LockName(slot));
      return false;
    }
    var space := table.OpenInit(SpaceName(slot), PIPE_BUFFER_SIZE);
    if space < 0 {
      var _ := table.CloseSem(LockName(slot));
      var _ := table.CloseSem(ItemsName(slot));
      return false;
    }
    return true;
  }

  method ReleasePipeObject(table: SemTable, slot: nat)
    requires table.Valid()
    modifies table.sems
    ensures table.Valid() && table.View() == ReleaseObject(old(table.View()), slot)
  {
    hide Open, Close, SemTable.Valid, SemTable.View;
    var _ := table.CloseSem(LockName(slot));
    var _ := table.CloseSem(ItemsName(slot));
    var _ := table.CloseSem(SpaceName(slot));
  }
}
