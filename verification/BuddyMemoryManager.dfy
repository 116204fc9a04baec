/**
  The buddy allocator of Kernel/memory_management/buddy_memory_manager.c: bit arrays and free lists
  updated in place, kept in step with the tree of BuddyTree. Addresses are offsets from the heap base.
 */
module BuddyMemoryManager {
  import opened BuddyTree
  import opened LibBuddy
  import LibBit

  datatype Option<T> = None | Some(value: T)

  /** s without the first occurrence of x. */
  ghost function Without(s: seq<nat>, x: nat): seq<nat> {
    if s == [] then [] else if s[0] == x then s[1..] else [s[0]] + Without(s[1..], x)
  }

  lemma {:induction false} WithoutIndex(s: seq<nat>, i: nat)
    requires i < |s| && forall j :: 0 <= j < i ==> s[j] != s[i]
    ensures Without(s, s[i]) == s[..i] + s[i + 1..]
  {
    if i > 0 {
      assert s[1..][i - 1] == s[i] && forall j :: 0 <= j < i - 1 ==> s[1..][j] == s[j + 1];
      assert |s[1..]| == |s| - 1;
      WithoutIndex(s[1..], i - 1);
      assert s[..i] == [s[0]] + s[1..][..i - 1] && s[1..][i..] == s[i + 1..];
    }
  }

  /** The free lists after a block at a, cut from order `from`, is handed out at order `power`. */
  ghost function AfterAlloc(lists: seq<seq<nat>>, power: nat, from: nat, a: nat): seq<seq<nat>>
    requires power <= from < |lists| && lists[from] != []
  {
    seq(|lists|, j requires 0 <= j < |lists| =>
      if j == from then lists[j][1..] else if power <= j < from then [a + Size(j)] else lists[j])
  }

  /** The block that a released block becomes after merging with every free buddy on the way up. */
  ghost function Coalesced(top: nat, free: set<Blk>, b: Blk): (m: Blk)
    requires b.k <= top
    ensures b.k <= m.k <= top
    decreases top - b.k
  {
    if b.k < top && Buddy(b) in free then Coalesced(top, free, Parent(b)) else b
  }

  /** List j once the blocks merged below order `upTo` on the way up from b are unlinked. */
  ghost function Unlinked(lists: seq<seq<nat>>, b: Blk, upTo: nat, j: nat): seq<nat>
    requires j < |lists|
  {
    if b.k <= j < upTo then Without(lists[j], Lo(Buddy(Up(b, j - b.k)))) else lists[j]
  }

  /** Every free block is on the list of its order, and nothing else is. */
  ghost predicate ListsAgree(top: nat, free: set<Blk>, lists: seq<seq<nat>>) {
    && |lists| == top + 1
    && (forall b {:trigger Lo(b)} | b in free :: b.k <= top && Lo(b) in lists[b.k])
    && (forall k, j {:trigger lists[k][j]} | 0 <= k <= top && 0 <= j < |lists[k]| ::
          BlockAt(k, lists[k][j]) in free && Lo(BlockAt(k, lists[k][j])) == lists[k][j])
  }

  lemma PushAgrees(top: nat, free: set<Blk>, lists: seq<seq<nat>>, b: Blk)
    requires ListsAgree(top, free, lists) && b.k <= top
    ensures ListsAgree(top, free + {b}, lists[b.k := [Lo(b)] + lists[b.k]])
  {
    BlockAtLo(b);
    var after := lists[b.k := [Lo(b)] + lists[b.k]];
    assert after[b.k][0] == Lo(b);
    forall c | c in free + {b}
      ensures c.k <= top && Lo(c) in after[c.k]
    {
      if c != b {
        var a := Lo(c);
        assert a in lists[c.k];
      }
    }
    forall k, j | 0 <= k <= top && 0 <= j < |after[k]|
      ensures BlockAt(k, after[k][j]) in free + {b} && Lo(BlockAt(k, after[k][j])) == after[k][j]
    {
      if k != b.k {
        assert after[k][j] == lists[k][j];
      } else if j > 0 {
        assert after[k][j] == lists[k][j - 1];
      }
    }
  }

  /** What is left of list b.k after entry i goes, entry by entry. */
  lemma Dropped(lists: seq<seq<nat>>, b: Blk, i: nat, k: nat, j: nat)
    requires NoRepeats(lists) && b.k < |lists| && i < |lists[b.k]| && k < |lists|
    requires j < |lists[b.k := lists[b.k][..i] + lists[b.k][i + 1..]][k]|
    ensures var after := lists[b.k := lists[b.k][..i] + lists[b.k][i + 1..]];
      exists x :: 0 <= x < |lists[k]| && lists[k][x] == after[k][j] && after[k][j] != lists[b.k][i]
  {
    var x := if k == b.k && j >= i then j + 1 else j;
    assert lists[k][x] == lists[b.k][i] ==> k == b.k && x == i;
  }

  lemma DropAgrees(top: nat, free: set<Blk>, lists: seq<seq<nat>>, b: Blk, i: nat)
    requires ListsAgree(top, free, lists) && NoRepeats(lists)
    requires b.k <= top && i < |lists[b.k]| && lists[b.k][i] == Lo(b)
    ensures b in free
    ensures ListsAgree(top, free - {b}, lists[b.k := lists[b.k][..i] + lists[b.k][i + 1..]])
  {
    BlockAtLo(b);
    var s := lists[b.k];
    var after := lists[b.k := s[..i] + s[i + 1..]];
    forall c | c in free - {b}
      ensures c.k <= top && Lo(c) in after[c.k]
    {
      var a := Lo(c);
      assert a in lists[c.k];
      if c.k == b.k {
        var j :| 0 <= j < |s| && s[j] == Lo(c);
        BlockAtLo(c);
        assert after[b.k][if j < i then j else j - 1] == Lo(c);
      }
    }
    forall k, j | 0 <= k <= top && 0 <= j < |after[k]|
      ensures BlockAt(k, after[k][j]) in free - {b} && Lo(BlockAt(k, after[k][j])) == after[k][j]
    {
      Dropped(lists, b, i, k, j);
      var x :| 0 <= x < |lists[k]| && lists[k][x] == after[k][j] && after[k][j] != lists[b.k][i];
    }
  }

  /** A live block's address is on no free list. */
  lemma LiveBytesNotListed(top: nat, t: Tree, lists: seq<seq<nat>>, b: Blk, a: nat)
    requires Coherent(top, t) && ListsAgree(top, t.free, lists) && b in t.live && Lo(b) <= a < Hi(b)
    ensures !Listed(lists, a)
  {
    if Listed(lists, a) {
      var k :| 0 <= k < |lists| && a in lists[k];
      var j :| 0 <= j < |lists[k]| && lists[k][j] == a;
      LeavesApart(top, t, BlockAt(k, lists[k][j]), b);
    }
  }

  lemma LiveNotListed(top: nat, t: Tree, lists: seq<seq<nat>>, b: Blk)
    requires Coherent(top, t) && ListsAgree(top, t.free, lists) && b in t.live
    ensures !Listed(lists, Lo(b)) && b.k <= top
  {
    LiveBytesNotListed(top, t, lists, b, Lo(b));
  }

  /** The block being cut, at p and currently of order k, is the one new live block. */
  ghost predicate Cut(top: nat, before: set<Blk>, live: set<Blk>, k: nat, p: nat) {
    var b := BlockAt(k, p);
    p == Lo(b) && InHeap(top, b) && Unused(before, b) && live == before + {b}
  }

  lemma CutEnd(top: nat, before: set<Blk>, live: set<Blk>, k: nat, p: nat)
    requires Cut(top, before, live, k, p)
    ensures var b := BlockAt(k, p); p == Lo(b) && InHeap(top, b) && Unused(before, b) && live == before + {b}
  {
  }

  lemma CutHalf(top: nat, before: set<Blk>, live: set<Blk>, k: nat, p: nat)
    requires Cut(top, before, live, k, p) && k > 0
    ensures var b := BlockAt(k, p);
      b in live && p == Lo(b) && BlockAt(k - 1, p) == Left(b) && Cut(top, before, live - {b} + {Left(b)}, k - 1, p)
  {
    var b := BlockAt(k, p);
    assert b !in before;
    ChildRange(b);
    ChildrenInHeap(top, b);
    BlockAtLo(Left(b));
  }

  lemma CutStart(top: nat, t: Tree, lists: seq<seq<nat>>, k: nat, p: nat)
    requires Coherent(top, t) && ListsAgree(top, t.free, lists) && k <= top && lists[k] != [] && p == lists[k][0]
    ensures BlockAt(k, p) in t.free && Cut(top, t.live, t.live + {BlockAt(k, p)}, k, p)
    ensures AfterAlloc(lists, k, k, p) == lists[k := lists[k][1..]]
  {
    FreeIsUnused(top, t, BlockAt(k, lists[k][0]));
  }

  lemma CutList(lists: seq<seq<nat>>, k: nat, from: nat, p: nat)
    requires 0 < k <= from < |lists| && lists[from] != [] && lists[k - 1] == []
    ensures var now := AfterAlloc(lists, k, from, p);
      now[k - 1 := [p + Size(k - 1)] + now[k - 1]] == AfterAlloc(lists, k - 1, from, p)
  {
    var now := AfterAlloc(lists, k, from, p);
    assert now[k - 1] == [] && [p + Size(k - 1)] + [] == [p + Size(k - 1)];
  }

  /** Part-way up a merge that began by releasing b: m stands for everything merged so far. */
  ghost predicate Climbing(top: nat, t: Tree, u: Tree, b: Blk, m: Blk)
    requires b.k <= top
  {
    && b.k <= m.k <= top && m == Up(b, m.k - b.k) && m in u.live
    && u.live == t.live - {b} + {m} && (m != b ==> m !in t.live)
    && Coalesced(top, t.free, b) == Coalesced(top, t.free, m)
    && (forall c: Blk {:trigger c in u.free} | c.k >= m.k :: c in u.free <==> c in t.free)
  }

  lemma ClimbStart(top: nat, t: Tree, b: Blk)
    requires b in t.live && b.k <= top
    ensures Climbing(top, t, t, b, b)
  {
  }

  lemma ClimbHere(top: nat, t: Tree, u: Tree, b: Blk, m: Blk)
    requires b.k <= top && Climbing(top, t, u, b, m)
    ensures m in u.live && b.k <= m.k <= top && m == Up(b, m.k - b.k)
  {
  }

  lemma ClimbStep(top: nat, t: Tree, u: Tree, w: Tree, b: Blk, m: Blk)
    requires b.k <= top && Climbing(top, t, u, b, m) && m.k < top && Buddy(m) in u.free && Coherent(top, u)
    requires w.free == u.free - {Buddy(m)} && w.live == u.live - {m} + {Parent(m)}
    ensures Climbing(top, t, w, b, Parent(m))
  {
    UpParent(b, m.k - b.k);
    assert Parent(m) in u.split;
  }

  lemma ClimbEnd(top: nat, t: Tree, u: Tree, b: Blk, m: Blk)
    requires b.k <= top && Climbing(top, t, u, b, m) && (m.k == top || Buddy(m) !in u.free)
    ensures m in u.live && u.live - {m} == t.live - {b} && m == Coalesced(top, t.free, b)
  {
  }

  lemma UnlinkedStart(lists: seq<seq<nat>>, b: Blk)
    ensures forall j | 0 <= j < |lists| :: Unlinked(lists, b, b.k, j) == lists[j]
  {
  }

  lemma UnlinkedStep(lists: seq<seq<nat>>, b: Blk, m: Blk, j: nat)
    requires j < |lists| && b.k <= m.k && m == Up(b, m.k - b.k)
    ensures Unlinked(lists, b, m.k + 1, j) ==
      if j == m.k then Without(Unlinked(lists, b, m.k, j), Lo(Buddy(m))) else Unlinked(lists, b, m.k, j)
  {
    hide Without, Lo, Buddy, Up;
  }

  lemma ClimbLists(lists: seq<seq<nat>>, now: seq<seq<nat>>, top: nat, b: Blk, m: Blk)
    requires |lists| == |now| == top + 1 && b.k <= m.k < top && m == Up(b, m.k - b.k)
    requires forall j :: 0 <= j <= top ==> now[j] == Unlinked(lists, b, m.k, j)
    ensures var joined := now[m.k := Without(now[m.k], Lo(Buddy(m)))];
      forall j :: 0 <= j <= top ==> joined[j] == Unlinked(lists, b, m.k + 1, j)
  {
    hide Without, Lo, Buddy, Unlinked, Up;
    var joined := now[m.k := Without(now[m.k], Lo(Buddy(m)))];
    forall j | 0 <= j <= top
      ensures joined[j] == Unlinked(lists, b, m.k + 1, j)
    {
      UnlinkedStep(lists, b, m, j);
    }
  }

  /** What the popping step needs, and what it leaves. */
  lemma FirstIsFree(top: nat, t: Tree, lists: seq<seq<nat>>, k: nat)
    requires Coherent(top, t) && ListsAgree(top, t.free, lists) && NoRepeats(lists) && k <= top && lists[k] != []
    ensures var b := BlockAt(k, lists[k][0]);
      && b in t.free && InHeap(top, b) && Lo(b) == lists[k][0] < Hi(b)
      && Coherent(top, Tree(t.free - {b}, t.live + {b}, t.split))
      && ListsAgree(top, t.free - {b}, lists[k := lists[k][1..]])
  {
    var b := BlockAt(k, lists[k][0]);
    assert b in t.free && Lo(b) == lists[k][0];
    TakeFree(top, t, b);
    DropAgrees(top, t.free, lists, b, 0);
    assert lists[k][..0] + lists[k][0 + 1..] == lists[k][1..];
  }

  /** What the splitting step needs, and what it leaves. */
  lemma HalvesFit(top: nat, t: Tree, lists: seq<seq<nat>>, b: Blk)
    requires Coherent(top, t) && ListsAgree(top, t.free, lists) && b in t.live && b.k > 0
    ensures InHeap(top, b) && InHeap(top, Left(b)) && !Listed(lists, Lo(Right(b)))
    ensures Lo(b) < Hi(b) && Lo(Left(b)) == Lo(b) < Hi(Left(b)) && Lo(Right(b)) == Lo(b) + Size(b.k - 1)
    ensures Coherent(top, Tree(t.free + {Right(b)}, t.live - {b} + {Left(b)}, t.split + {b}))
    ensures ListsAgree(top, t.free + {Right(b)}, lists[b.k - 1 := [Lo(Right(b))] + lists[b.k - 1]])
  {
    ChildRange(b);
    ChildrenInHeap(top, b);
    SplitLive(top, t, b);
    PushAgrees(top, t.free, lists, Right(b));
    if Listed(lists, Lo(Right(b))) {
      var k :| 0 <= k < |lists| && Lo(Right(b)) in lists[k];
      var j :| 0 <= j < |lists[k]| && lists[k][j] == Lo(Right(b));
      LeavesApart(top, t, BlockAt(k, lists[k][j]), b);
    }
  }

  lemma FreeIsUnused(top: nat, t: Tree, f: Blk)
    requires Coherent(top, t) && f in t.free
    ensures Unused(t.live, f)
  {
    forall l | l in t.live
      ensures Apart(l, f)
    {
      LeavesApart(top, t, l, f);
    }
  }

  lemma FreeIsListed(top: nat, free: set<Blk>, lists: seq<seq<nat>>, power: nat)
    requires ListsAgree(top, free, lists)
    ensures (exists f :: f in free && f.k >= power) <==> (exists k :: power <= k <= top && lists[k] != [])
  {
    if f :| f in free && f.k >= power {
      var a := Lo(f);
      assert a in lists[f.k];
    }
    if k :| power <= k <= top && lists[k] != [] {
      var f := BlockAt(k, lists[k][0]);
      assert f in free;
    }
  }

  lemma AboveInHeap(top: nat, b: Blk, k: nat)
    requires InHeap(top, b) && k <= top
    ensures InHeap(top, BlockAt(k, Lo(b)))
  {
    InsideHeap(top, b);
    var c := BlockAt(k, Lo(b));
    LoIsProduct(c);
    if c.i >= Pow2(top - k) {
      SizeIsPow2(k);
      SizeIsPow2(top);
      Pow2Add(top - k, k + 4);
      Scale(Pow2(top - k), c.i, Size(k));
    }
  }

  lemma InLeaves(top: nat, t: Tree, b: Blk)
    requires Coherent(top, t) && b in t.Leaves()
    ensures InHeap(top, b)
  {
  }

  lemma BuddyAddress(top: nat, t: Tree, b: Blk)
    requires Size(top) <= 0x1_0000_0000
    requires Coherent(top, t) && b in t.live && Buddy(b) in t.free && b.k < top
    ensures BiToAddr(b.k, Buddy(b).i) == Lo(Buddy(b))
    ensures InHeap(top, Parent(b))
    ensures (if Buddy(b).i % 2 == 0 then Lo(Buddy(b)) else Lo(b)) == Lo(Parent(b)) < Hi(Parent(b))
  {
    hide Times, Size, Pow2, BiToAddr, Coherent;
    InLeaves(top, t, b);
    InLeaves(top, t, Buddy(b));
    InsideHeap(top, Buddy(b));
    BiToAddrIsLo(Buddy(b));
    ParentRange(b);
    ParentInHeap(top, b);
  }

  /**
    The per-order bit arrays `alloc` and `split` of size_info, for orders `lowest` to `top`, and the
    set of blocks whose bit is set.
   */
  class BlockBits {
    const top: nat
    const lowest: nat
    const rangeBits: nat
    const rows: seq<array<bv8>>
    ghost var marked: set<Blk>

    ghost predicate Covers(b: Blk) { InHeap(top, b) && b.k >= lowest }

    ghost predicate Layout() {
      && Size(top) <= Pow2(rangeBits) && Size(top) <= 0x1_0000_0000
      && lowest + |rows| == top + 1
      && (forall k :: 0 <= k < |rows| ==> Pow2(top - lowest - k) <= 8 * rows[k].Length)
      && (forall i, j :: 0 <= i < |rows| && 0 <= j < |rows| && rows[i] == rows[j] ==> i == j)
    }

    ghost predicate On(b: Blk)
      requires Layout() && Covers(b)
      reads rows
    {
      LibBit.On(rows[b.k - lowest][..], b.i)
    }

    ghost predicate Valid()
      reads this, rows
    {
      && Layout()
      && (forall b | b in marked :: Covers(b))
      && (forall b {:trigger On(b)} | Covers(b) :: On(b) <==> b in marked)
    }

    constructor (top: nat, lowest: nat, rangeBits: nat)
      requires lowest <= top + 1 && Size(top) <= Pow2(rangeBits) && Size(top) <= 0x1_0000_0000
      ensures Valid() && marked == {} && fresh(rows)
      ensures this.top == top && this.lowest == lowest && this.rangeBits == rangeBits
    {
      var bits := ZeroedRows(top, lowest);
      this.top, this.lowest, this.rangeBits, rows, marked := top, lowest, rangeBits, bits, {};
    }

    /** One zeroed bit array per order, each rounded up to whole bytes. */
    static method ZeroedRows(top: nat, lowest: nat) returns (bits: seq<array<bv8>>)
      requires lowest <= top + 1
      ensures |bits| == top + 1 - lowest && fresh(bits)
      ensures forall k :: 0 <= k < |bits| ==> Pow2(top - lowest - k) <= 8 * bits[k].Length
      ensures forall k, i: nat :: 0 <= k < |bits| && i < 8 * bits[k].Length ==> !LibBit.On(bits[k][..], i)
      ensures forall i, j :: 0 <= i < |bits| && 0 <= j < |bits| && bits[i] == bits[j] ==> i == j
    {
      bits := [];
      for k := lowest to top + 1
        invariant |bits| == k - lowest && fresh(bits)
        invariant forall k :: 0 <= k < |bits| ==> Pow2(top - lowest - k) <= 8 * bits[k].Length
        invariant forall k, j :: 0 <= k < |bits| && 0 <= j < bits[k].Length ==> bits[k][j] == 0
        invariant forall i, j :: 0 <= i < |bits| && 0 <= j < |bits| && bits[i] == bits[j] ==> i == j
      {
        var blocks := Pow2(top - k);
        var bytes := new bv8[((blocks - 1) / 8 + 1) * 8 / 8](_ => 0);
        assert forall i :: 0 <= i < |bits| ==> bits[i] != bytes;
        bits := bits + [bytes];
      }
      forall k, i: nat | 0 <= k < |bits| && i < 8 * bits[k].Length
        ensures !LibBit.On(bits[k][..], i)
      {
        ZeroByte(i % 8);
      }
    }

    /** The narrowed index of an address inside an order-k heap block is that block's index. */
    lemma IndexOf(p: nat, b: Blk)
      requires Valid() && Covers(b) && Lo(b) <= p < Hi(b)
      ensures Index(b.k, p) == b.i && AddrToBi(Pow2(rangeBits), b.k, p) == b.i < 8 * rows[b.k - lowest].Length
    {
      InsideHeap(top, b);
      IndexExact(rangeBits, b.k, p);
      LoIsProduct(b);
      Quotient(p, Size(b.k), b.i);
    }

    lemma HeapBound()
      requires Valid()
      ensures Size(top) <= 0x1_0000_0000
    {
    }

    function Index(k: nat, p: nat): int { AddrToBi(Pow2(rangeBits), k, p) }

    method Test(k: nat, bi: nat) returns (r: bool)
      requires Valid() && Covers(Blk(k, bi))
      ensures r <==> Blk(k, bi) in marked
    {
      assert On(Blk(k, bi)) <==> Blk(k, bi) in marked;
      r := LibBit.IsBitSet(rows[k - lowest], bi);
    }

    method Set(k: nat, bi: nat)
      requires Valid() && Covers(Blk(k, bi))
      modifies this, rows
      ensures Valid() && marked == old(marked) + {Blk(k, bi)}
    {
      LibBit.SetBit(rows[k - lowest], bi);
      marked := marked + {Blk(k, bi)};
      forall c | Covers(c)
        ensures On(c) <==> c in marked
      {
        assert old(On(c)) <==> c in old(marked);
      }
    }

    method Clear(k: nat, bi: nat)
      requires Valid() && Covers(Blk(k, bi))
      modifies this, rows
      ensures Valid() && marked == old(marked) - {Blk(k, bi)}
    {
      LibBit.ClearBit(rows[k - lowest], bi);
      marked := marked - {Blk(k, bi)};
      forall c | Covers(c)
        ensures On(c) <==> c in marked
      {
        assert old(On(c)) <==> c in old(marked);
      }
    }
  }

  lemma ZeroByte(n: nat)
    requires n < 8
    ensures !LibBit.BitOf(0, n)
  {
    LibBit.BitTable(0);
  }

  /** How the bit arrays and lists represent a tree; the root's alloc bit is only ever set. */
  ghost predicate Represents(top: nat, t: Tree, taken: set<Blk>, split: set<Blk>, lists: seq<seq<nat>>) {
    && Coherent(top, t)
    && t.live + t.split <= taken <= t.live + t.split + {Root(top)}
    && split == t.split
    && |lists| == top + 1
    && ListsAgree(top, t.free, lists)
  }

  lemma {:induction false} CoalescedIsUp(top: nat, free: set<Blk>, b: Blk)
    requires b.k <= top
    ensures var m := Coalesced(top, free, b); m == Up(b, m.k - b.k)
    decreases top - b.k
  {
    if b.k < top && Buddy(b) in free {
      CoalescedIsUp(top, free, Parent(b));
    }
  }

  /**
    free undoes alloc, down to the order of every free list. t and lists are the state before an
    allocation that cuts the block at a, of order `power`, from the first block of list `from`; w and
    after are any state that represents the same live blocks and that releasing the block produces.
   */
  lemma FreeUndoesAlloc(top: nat, t: Tree, lists: seq<seq<nat>>, power: nat, from: nat, a: nat,
                        free: set<Blk>, w: Tree, after: seq<seq<nat>>)
    requires Coherent(top, t) && ListsAgree(top, t.free, lists) && |lists| == |after| == top + 1
    requires power <= from <= top && lists[from] != [] && a == lists[from][0]
    requires forall j :: power <= j < from ==> lists[j] == []
    requires Lo(BlockAt(power, a)) == a
    requires Coherent(top, w) && ListsAgree(top, w.free, after) && w.live == t.live
    requires var b := BlockAt(power, a); var m := Coalesced(top, free, b);
      forall j | 0 <= j <= top :: after[j] ==
        (if j == m.k then [Lo(m)] else []) + Unlinked(AfterAlloc(lists, power, from, a), b, m.k, j)
    ensures w == t && after == lists
  {
    hide Coherent, Coalesced, Times, Size, Pow2, Without, ListsAgree, BlockAt, Up, AfterAlloc;
    Canonical(top, t, w);
    var b := BlockAt(power, a);
    var m := Coalesced(top, free, b);
    MergedIsTheCutBlock(top, t, lists, from, free, b, after);
    forall j | 0 <= j <= top
      ensures after[j] == lists[j]
    {
      AfterAllocAt(lists, power, from, a, j);
      if power <= j < from {
        EmptyStaysEmpty(top, t.free, lists, after, j);
      }
    }
  }

  lemma AfterAllocAt(lists: seq<seq<nat>>, power: nat, from: nat, a: nat, j: nat)
    requires power <= from < |lists| && lists[from] != [] && j < |lists| && a == lists[from][0]
    ensures |AfterAlloc(lists, power, from, a)| == |lists|
    ensures j < power || j > from ==> AfterAlloc(lists, power, from, a)[j] == lists[j]
    ensures j == from ==> [a] + AfterAlloc(lists, power, from, a)[j] == lists[j]
  {
  }

  lemma EmptyStaysEmpty(top: nat, free: set<Blk>, lists: seq<seq<nat>>, after: seq<seq<nat>>, j: nat)
    requires ListsAgree(top, free, lists) && ListsAgree(top, free, after) && j <= top && lists[j] == []
    ensures after[j] == []
  {
    if after[j] != [] {
      var x := Lo(BlockAt(j, after[j][0]));
      assert false;
    }
  }

  /** Releasing the block just cut merges it back to the very block it was cut from. */
  lemma MergedIsTheCutBlock(top: nat, t: Tree, lists: seq<seq<nat>>, from: nat, free: set<Blk>, b: Blk, after: seq<seq<nat>>)
    requires Coherent(top, t) && ListsAgree(top, t.free, lists) && ListsAgree(top, t.free, after)
    requires b.k <= from <= top && lists[from] != [] && Lo(b) == lists[from][0]
    requires var m := Coalesced(top, free, b); after[m.k] != [] && after[m.k][0] == Lo(m)
    ensures Coalesced(top, free, b).k == from && Lo(Coalesced(top, free, b)) == lists[from][0]
  {
    hide Coherent, Coalesced, Times, Size, Pow2, Up;
    var m := Coalesced(top, free, b);
    var f := BlockAt(from, lists[from][0]);
    CoalescedIsUp(top, free, b);
    UpRange(b, m.k - b.k);
    BlockAtLo(m);
    assert BlockAt(m.k, after[m.k][0]) in t.free;
    if m != f {
      BlockSpan(b);
      FreeApart(top, t, m, f);
    }
  }

  lemma BlockSpan(b: Blk)
    ensures Lo(b) < Hi(b)
  {
  }

  lemma FreeApart(top: nat, t: Tree, b: Blk, c: Blk)
    requires Coherent(top, t) && b in t.free && c in t.free && b != c
    ensures Apart(b, c)
  {
    LeavesApart(top, t, b, c);
  }

  /** Joining b, whose bit is already cleared, with its free buddy keeps the bits in step. */
  lemma Joined(top: nat, t: Tree, taken: set<Blk>, b: Blk)
    requires Coherent(top, t) && b in t.live && b.k < top && Buddy(b) in t.free && b !in taken
    requires t.live + t.split <= taken + {b} <= t.live + t.split + {Root(top)}
    ensures var u := Tree(t.free - {Buddy(b)}, t.live - {b} + {Parent(b)}, t.split - {Parent(b)});
      Coherent(top, u) && u.live + u.split <= taken <= u.live + u.split + {Root(top)}
  {
    MergeLive(top, t, b);
    assert Parent(b) in t.split;
  }

  lemma Given(top: nat, t: Tree, taken: set<Blk>, b: Blk)
    requires Coherent(top, t) && b in t.live && (b.k == top || (Buddy(b) !in t.free && b !in taken))
    requires t.live + t.split <= taken + {b} <= t.live + t.split + {Root(top)}
    ensures var u := Tree(t.free + {b}, t.live - {b}, t.split);
      Coherent(top, u) && u.live + u.split <= taken <= u.live + u.split + {Root(top)}
  {
    GiveBack(top, t, b);
    if b.k == top {
      TopIsRoot(top, b);
    }
  }

  // ---- The indices that block_size and alloc really use ----

  /** The split bits that cutting the block at p from order `from` down to order `power` sets. */
  ghost function CutMarks(range: nat, p: nat, from: nat, power: nat): set<Blk>
    requires range > 0 && power <= from
    decreases from
  {
    if from == power then {} else {Blk(from, AddrToBi(range, from, p))} + CutMarks(range, p, from - 1, power)
  }

  /** What block_size answers from order k on, with these split bits set. */
  ghost function Reported(range: nat, top: nat, marked: set<Blk>, p: nat, k: nat): nat
    requires range > 0
    decreases top - k
  {
    if k >= top then 0
    else if Blk(k + 1, AddrToBi(range, k + 1, p)) in marked then k
    else Reported(range, top, marked, p, k + 1)
  }

  lemma {:induction false} CutMarksAt(range: nat, p: nat, from: nat, power: nat, k: nat)
    requires range > 0 && power < k <= from
    ensures Blk(k, AddrToBi(range, k, p)) in CutMarks(range, p, from, power)
    decreases from
  {
    if k < from {
      CutMarksAt(range, p, from - 1, power, k);
    }
  }

  /** A mark more on top of the marks of the orders above it. */
  lemma {:induction false} CutMarksNext(range: nat, p: nat, from: nat, k: nat)
    requires range > 0 && 0 < k <= from
    ensures CutMarks(range, p, from, k - 1) == CutMarks(range, p, from, k) + {Blk(k, AddrToBi(range, k, p))}
    decreases from
  {
    if k < from {
      CutMarksNext(range, p, from - 1, k);
    }
  }

  class BuddyAllocator {
    const top: nat
    const links: FreeLists
    const alloc: BlockBits
    const split: BlockBits
    ghost var tree: Tree

    ghost function Lists(): seq<seq<nat>>
      reads links
    {
      links.lists
    }

    ghost predicate Parts()
      reads this, links, alloc, split, alloc.rows, split.rows
    {
      && links.Valid() && alloc.Valid() && split.Valid()
      && alloc != split && (forall i, j :: 0 <= i < |alloc.rows| && 0 <= j < |split.rows| ==> alloc.rows[i] != split.rows[j])
      && alloc.top == split.top == top && alloc.lowest == 0 && split.lowest == 1
      && alloc.rangeBits == split.rangeBits
    }

    ghost predicate Valid()
      reads this, links, alloc, split, alloc.rows, split.rows
    {
      Parts() && Represents(top, tree, alloc.marked, split.marked, Lists())
    }

    // ---- create_mm ----

    /** Every list empty, then the whole heap pushed on the list of the top order. */
    static method InitialLists(nsizes: nat) returns (fl: FreeLists)
      requires nsizes > 0
      ensures fresh(fl) && fl.Valid() && ListsAgree(nsizes - 1, {Root(nsizes - 1)}, fl.lists)
      ensures fl.lists == seq(nsizes, j => if j == nsizes - 1 then [0] else [])
    {
      fl := new FreeLists();
      for k := 0 to nsizes
        invariant fl.Valid() && fresh(fl)
        invariant fl.lists == seq(k, _ => [])
      {
        fl.Init(k);
      }
      ghost var top := nsizes - 1;
      assert ListsAgree(top, {}, fl.lists);
      assert Lo(Root(top)) == 0;
      PushAgrees(top, {}, fl.lists, Root(top));
      fl.Push(nsizes - 1, 0);
      assert [0] + [] == [0];
      assert {} + {Root(top)} == {Root(top)};
    }

    constructor (nsizes: nat, rangeBits: nat)
      requires nsizes > 0 && Size(nsizes - 1) <= Pow2(rangeBits) && Size(nsizes - 1) <= 0x1_0000_0000
      ensures Valid() && fresh(links) && fresh(alloc) && fresh(split) && fresh(alloc.rows) && fresh(split.rows)
      ensures top == nsizes - 1 && alloc.rangeBits == rangeBits && tree == Initial(top)
      ensures Lists() == seq(nsizes, j => if j == top then [0] else [])
    {
      var fl := InitialLists(nsizes);
      var al := new BlockBits(nsizes - 1, 0, rangeBits);
      var sp := new BlockBits(nsizes - 1, 1, rangeBits);
      top, links, alloc, split, tree := nsizes - 1, fl, al, sp, Initial(nsizes - 1);
      new;
      InitialCoherent(top);
    }

    /**
      The owner of a live block may store anything in it, including over the two words where a free
      block keeps its list links.
     */
    method Store(a: nat, n: Node, v: Node, ghost b: Blk)
      requires Valid() && b in tree.live && Lo(b) <= a < Hi(b)
      modifies links
      ensures Valid() && Lists() == old(Lists())
    {
      LiveBytesNotListed(top, tree, Lists(), b, a);
      links.Scribble(a, n, v);
    }

    // ---- block_size ----

    /**
      Finds a live block's order from the split bits alone. A block that is the whole heap has no
      split bit above it and is reported as order 0.
     */
    method BlockSize(p: nat, ghost b: Blk) returns (r: nat)
      requires Valid() && b in tree.live && p == Lo(b)
      ensures r == if b.k < top then b.k else 0
      ensures r == Reported(Pow2(split.rangeBits), top, split.marked, p, 0)
    {
      ghost var range := Pow2(split.rangeBits);
      for k := 0 to top
        invariant b.k < top ==> k <= b.k
        invariant Reported(range, top, split.marked, p, 0) == Reported(range, top, split.marked, p, k)
      {
        ghost var c := BlockAt(k + 1, p);
        SplitAboveLive(top, tree, b, k + 1);
        AboveInHeap(top, b, k + 1);
        split.IndexOf(p, c);
        var isSplit := split.Test(k + 1, split.Index(k + 1, p));
        if isSplit {
          return k;
        }
      }
      return 0;
    }

    // ---- alloc ----

    /** Hands the first free block of order k to the caller whole. */
    method TakeFirst(k: nat) returns (p: nat)
      requires Valid() && k <= top && Lists()[k] != []
      modifies this, links, alloc, alloc.rows
      ensures Valid() && p == old(Lists())[k][0]
      ensures tree.live == old(tree.live) + {BlockAt(k, p)}
      ensures Lists() == old(Lists())[k := old(Lists())[k][1..]]
    {
      hide FreeLists.Valid, BlockBits.Valid, BlockBits.On, Coherent, ListsAgree, AddrToBi, Pow2, Size, Times, BlockAt;
      ghost var b := BlockAt(k, Lists()[k][0]);
      links.Distinct();
      FirstIsFree(top, tree, Lists(), k);
      var node := links.Pop(k);
      p := node.offset;
      alloc.IndexOf(p, b);
      alloc.Set(k, alloc.Index(k, p));
      tree := Tree(tree.free - {b}, tree.live + {b}, tree.split);
    }

    /** One round of the splitting loop: the block at p, live at order k, is halved and its right half freed. */
    method SplitDown(k: nat, p: nat)
      requires Valid() && 0 < k <= top && BlockAt(k, p) in tree.live && p == Lo(BlockAt(k, p))
      modifies this, links, alloc, split, alloc.rows, split.rows
      ensures Valid()
      ensures tree.live == old(tree.live) - {BlockAt(k, p)} + {Left(BlockAt(k, p))}
      ensures split.marked == old(split.marked) + {Blk(k, AddrToBi(Pow2(split.rangeBits), k, p))}
      ensures Lists() == old(Lists())[k - 1 := [p + Size(k - 1)] + old(Lists())[k - 1]]
    {
      hide FreeLists.Valid, BlockBits.Valid, BlockBits.On, Coherent, ListsAgree, AddrToBi, Pow2, Size, Times, BlockAt;
      ghost var b := BlockAt(k, p);
      var q := p + Size(k - 1);
      HalvesFit(top, tree, Lists(), b);
      split.IndexOf(p, b);
      split.Set(k, split.Index(k, p));
      alloc.IndexOf(p, Left(b));
      alloc.Set(k - 1, alloc.Index(k - 1, p));
      links.Push(k - 1, q);
      tree := Tree(tree.free + {Right(b)}, tree.live - {b} + {Left(b)}, tree.split + {b});
    }

    /**
      alloc. `power` is the order the request rounds up to and `from` the order of the free block
      that was cut. The request fails iff no aligned block of that order is wholly unused; otherwise
      the one new live block is the leftmost piece of the first block on the lowest non-empty list.
     */
    method Alloc(nbytes: nat) returns (r: Option<nat>, ghost power: nat, ghost from: nat)
      requires Valid() && nbytes <= UINT64_LIMIT / 2
      modifies this, links, alloc, split, alloc.rows, split.rows
      ensures Valid() && IsOrder(nbytes, LEAF_SIZE, power)
      ensures r.None? <==> !exists b :: InHeap(top, b) && b.k == power && Unused(old(tree.live), b)
      ensures r.None? ==> tree == old(tree) && Lists() == old(Lists())
      ensures r.Some? ==> power <= from <= top && old(Lists())[from] != []
      ensures r.Some? ==> forall j :: power <= j < from ==> old(Lists())[j] == []
      ensures r.Some? ==> r.value == old(Lists())[from][0]
      ensures r.Some? ==> Lists() == AfterAlloc(old(Lists()), power, from, r.value)
      ensures r.Some? ==> var b := BlockAt(power, r.value);
        r.value == Lo(b) && InHeap(top, b) && Unused(old(tree.live), b) && tree.live == old(tree.live) + {b}
      ensures r.Some? ==> split.marked == old(split.marked) + CutMarks(Pow2(split.rangeBits), r.value, from, power)
    {
      hide FreeLists.Valid, BlockBits.Valid, Coherent, ListsAgree, Pow2, Size, Times, BlockAt, Cut, AfterAlloc;
      var lowest := FirstPower(nbytes, LEAF_SIZE);
      power, from := lowest, lowest;
      var k := FindList(lowest);
      Completeness(top, tree, lowest);
      if k > top {
        return None, power, from;
      }
      from := k;
      CutStart(top, tree, Lists(), k, Lists()[k][0]);
      var p := TakeFirst(k);
      while k > lowest
        invariant Valid() && lowest <= k <= from && Cut(top, old(tree.live), tree.live, k, p)
        invariant Lists() == AfterAlloc(old(Lists()), k, from, p)
        invariant split.marked == old(split.marked) + CutMarks(Pow2(split.rangeBits), p, from, k)
      {
        CutMarksNext(Pow2(split.rangeBits), p, from, k);
        CutHalf(top, old(tree.live), tree.live, k, p);
        CutList(old(Lists()), k, from, p);
        SplitDown(k, p);
        k := k - 1;
      }
      CutEnd(top, old(tree.live), tree.live, k, p);
      r := Some(p);
    }

    /** The search loop: the lowest order from `lowest` up whose list is not empty, or top + 1. */
    method FindList(lowest: nat) returns (k: nat)
      requires Valid()
      ensures k >= lowest && forall j :: lowest <= j < k && j <= top ==> Lists()[j] == []
      ensures k <= top ==> Lists()[k] != []
      ensures k <= top <==> exists f :: f in tree.free && f.k >= lowest
    {
      k := lowest;
      while k <= top
        invariant lowest <= k && forall j :: lowest <= j < k && j <= top ==> Lists()[j] == []
      {
        var isEmpty := links.Empty(k);
        if !isEmpty {
          break;
        }
        k := k + 1;
      }
      FreeIsListed(top, tree.free, Lists(), lowest);
    }

    // ---- free ----

    lemma ListsLength()
      requires Valid()
      ensures |Lists()| == top + 1
    {
    }

    /** The state once b's alloc bit is cleared: all that remains is to put b on its free list. */
    ghost predicate Detached(b: Blk)
      reads this, links, alloc, split, alloc.rows, split.rows
    {
      && Parts() && b in tree.live
      && Represents(top, tree, alloc.marked + {b}, split.marked, Lists())
      && (b.k < top ==> b !in alloc.marked)
    }

    /** Clears the alloc bit of the block to be freed or merged, found by its address. */
    method Detach(k: nat, p: nat, ghost b: Blk) returns (bi: nat)
      requires Valid() && b in tree.live && b.k == k < top && p == Lo(b)
      modifies alloc, alloc.rows
      ensures Detached(b) && bi == b.i
    {
      hide FreeLists.Valid, BlockBits.Valid, BlockBits.On, Coherent, ListsAgree, AddrToBi, Pow2, Size, Times;
      BuddyInTree(top, tree, b);
      alloc.IndexOf(p, b);
      bi := alloc.Index(k, p);
      alloc.Clear(k, bi);
    }

    /** The buddy's alloc bit: it is free exactly when that is not set. */
    method BuddyTaken(k: nat, buddy: nat, ghost b: Blk) returns (taken: bool)
      requires Detached(b) && b.k == k < top && buddy == Buddy(b).i
      ensures taken <==> Buddy(b) !in tree.free
    {
      BuddyInTree(top, tree, b);
      hide FreeLists.Valid, BlockBits.Valid, BlockBits.On, Coherent, ListsAgree;
      taken := alloc.Test(k, buddy);
    }

    /** list_remove of a free block, found by its address alone. */
    method Unlink(q: nat, ghost c: Blk)
      requires links.Valid() && ListsAgree(top, tree.free, Lists()) && c in tree.free && q == Lo(c)
      modifies links
      ensures links.Valid() && ListsAgree(top, tree.free - {c}, Lists())
      ensures Lists() == old(Lists())[c.k := Without(old(Lists())[c.k], q)]
    {
      ghost var s := Lists()[c.k];
      ghost var i :| 0 <= i < |s| && s[i] == Lo(c);
      DropAgrees(top, tree.free, Lists(), c, i);
      WithoutIndex(s, i);
      links.Remove(q, c.k, i);
    }

    /** Unlinks b's free buddy and joins the two: their parent is no longer split but live. */
    method JoinBuddy(k: nat, p: nat, buddy: nat, ghost b: Blk) returns (p': nat)
      requires Detached(b) && k < top && b.k == k && p == Lo(b)
      requires Buddy(b) == Blk(k, buddy) && Buddy(b) in tree.free
      modifies this, links, split, split.rows
      ensures Valid() && p' == Lo(Parent(b))
      ensures tree.free == old(tree.free) - {Buddy(b)}
      ensures tree.live == old(tree.live) - {b} + {Parent(b)}
      ensures Lists() == old(Lists())[k := Without(old(Lists())[k], Lo(Buddy(b)))]
    {
      hide FreeLists.Valid, BlockBits.Valid, BlockBits.On, Coherent, ListsAgree, AddrToBi, Pow2, Size, Times, BiToAddr;
      ghost var u := Parent(b);
      split.HeapBound();
      BuddyAddress(top, tree, b);
      Joined(top, tree, alloc.marked, b);
      var q := BiToAddr(k, buddy);
      Unlink(q, Buddy(b));
      p' := if buddy % 2 == 0 then q else p;
      split.IndexOf(p', u);
      split.Clear(k + 1, split.Index(k + 1, p'));
      tree := Tree(tree.free - {Buddy(b)}, tree.live - {b} + {u}, tree.split - {u});
    }

    /** The final push of a block that is no longer to be merged. */
    method PutBack(k: nat, p: nat, ghost b: Blk)
      requires Detached(b) && b.k == k && p == Lo(b) && (k == top || Buddy(b) !in tree.free)
      modifies this, links
      ensures Valid()
      ensures tree == Tree(old(tree.free) + {b}, old(tree.live) - {b}, old(tree.split))
      ensures Lists() == old(Lists())[k := [p] + old(Lists())[k]]
    {
      hide FreeLists.Valid, BlockBits.Valid, Coherent, ListsAgree, Pow2, Size, Times;
      LiveNotListed(top, tree, Lists(), b);
      PushAgrees(top, tree.free, Lists(), b);
      Given(top, tree, alloc.marked, b);
      links.Push(k, p);
      tree := Tree(tree.free + {b}, tree.live - {b}, tree.split);
    }

    /**
      free, for a live block b below the order of the whole heap. Exactly b stops being live; its
      free buddies on the way up are unlinked, one per order, and the merged block heads its list.
     */
    method Free(address: nat, ghost b: Blk) returns (ghost m: Blk)
      requires Valid() && b in tree.live && address == Lo(b) && b.k < top
      modifies this, links, alloc, split, alloc.rows, split.rows
      ensures Valid() && tree.live == old(tree.live) - {b}
      ensures m == Coalesced(top, old(tree.free), b)
      ensures forall j | 0 <= j <= top ::
        Lists()[j] == (if j == m.k then [Lo(m)] else []) + Unlinked(old(Lists()), b, m.k, j)
    {
      hide FreeLists.Valid, BlockBits.Valid, BlockBits.On, Coherent, ListsAgree, AddrToBi, Pow2, Size, Times, BlockAt, Coalesced, Climbing, Without, Unlinked;
      var p := address;
      var k := BlockSize(p, b);
      m := b;
      ClimbStart(top, tree, b);
      UnlinkedStart(Lists(), b);
      ListsLength();
      while k < top
        invariant Valid() && k == m.k <= top && p == Lo(m)
        invariant Climbing(top, old(tree), tree, b, m)
        invariant forall j :: 0 <= j <= top ==> Lists()[j] == Unlinked(old(Lists()), b, m.k, j)
      {
        ghost var t, l := tree, Lists();
        ClimbHere(top, old(tree), tree, b, m);
        var bi := Detach(k, p, m);
        var buddy := if bi % 2 == 0 then bi + 1 else bi - 1;
        var isSet := BuddyTaken(k, buddy, m);
        if isSet {
          break;
        }
        p := JoinBuddy(k, p, buddy, m);
        ClimbStep(top, old(tree), t, tree, b, m);
        ClimbLists(old(Lists()), l, top, b, m);
        m := Parent(m);
        k := k + 1;
      }
      ClimbHere(top, old(tree), tree, b, m);
      ClimbEnd(top, old(tree), tree, b, m);
      PutBack(k, p, m);
    }
  }

  /** alloc and then free, as a caller sees them: the heap is what it was, whether or not there was room. */
  method AllocThenFree(heap: BuddyAllocator, nbytes: nat, ghost order: nat)
    requires heap.Valid() && nbytes <= UINT64_LIMIT / 2 && IsOrder(nbytes, LEAF_SIZE, order) && order < heap.top
    modifies heap, heap.links, heap.alloc, heap.split, heap.alloc.rows, heap.split.rows
    ensures heap.Valid() && heap.tree == old(heap.tree) && heap.Lists() == old(heap.Lists())
  {
    hide FreeLists.Valid, BlockBits.Valid, Coherent, ListsAgree, Pow2, Size, Times, BlockAt, AfterAlloc, Coalesced, Unlinked;
    var r, power, from := heap.Alloc(nbytes);
    OrderUnique(nbytes, LEAF_SIZE, power, order);
    if r.Some? {
      ghost var b, free := BlockAt(power, r.value), heap.tree.free;
      var m := heap.Free(r.value, b);
      FreeUndoesAlloc(heap.top, old(heap.tree), old(heap.Lists()), power, from, r.value, free, heap.tree, heap.Lists());
    }
  }
}
