/**
  When block_size is right. The bits that alloc sets and block_size reads are found by r-bit indices;
  the sizes of all live blocks come out right exactly when the heap fits the index.
 */
module BuddySizes {
  import opened BuddyTree
  import opened LibBuddy
  import opened BuddyMemoryManager

  /** The bits set for the split blocks: BuddyAllocator.SplitDown marks each of them by its narrowed index. */
  ghost function Marks(range: nat, split: set<Blk>): set<Blk>
    requires range > 0
  {
    set b | b in split :: Blk(b.k, if AddrToBi(range, b.k, Lo(b)) >= 0 then AddrToBi(range, b.k, Lo(b)) else 0)
  }

  /** block_size gives the order of every live block below the root, in every tree the heap can hold. */
  ghost predicate SizesRight(r: nat, top: nat) {
    forall t: Tree, b | Coherent(top, t) && b in t.live && b.k < top ::
      Reported(Pow2(r), top, Marks(Pow2(r), t.split), Lo(b), 0) == b.k
  }

  // ---- A heap within the range ----

  lemma IndexIs(r: nat, top: nat, k: nat, p: nat)
    requires Size(top) <= Pow2(r) && p < Size(top)
    ensures AddrToBi(Pow2(r), k, p) == BlockAt(k, p).i
  {
    IndexExact(r, k, p);
  }

  lemma MarksAreSplit(r: nat, top: nat, t: Tree)
    requires Coherent(top, t) && Size(top) <= Pow2(r)
    ensures Marks(Pow2(r), t.split) == t.split
  {
    hide AddrToBi, Coherent, Lo, Pow2, Size;
    forall b | b in t.split
      ensures AddrToBi(Pow2(r), b.k, Lo(b)) == b.i
    {
      SplitIndex(r, top, t, b);
    }
  }

  lemma SplitIndex(r: nat, top: nat, t: Tree, b: Blk)
    requires Coherent(top, t) && Size(top) <= Pow2(r) && b in t.split
    ensures AddrToBi(Pow2(r), b.k, Lo(b)) == b.i
  {
    assert InHeap(top, b);
    hide Coherent, Pow2, AddrToBi, InHeap, Size, Times;
    InsideHeap(top, b);
    BlockSpan(b);
    IndexIs(r, top, b.k, Lo(b));
    BlockAtLo(b);
  }

  lemma {:induction false} ReportedFrom(r: nat, top: nat, t: Tree, b: Blk, k: nat)
    requires Coherent(top, t) && Size(top) <= Pow2(r) && b in t.live && k <= b.k < top
    ensures Reported(Pow2(r), top, t.split, Lo(b), k) == b.k
    decreases b.k - k
  {
    InLeaves(top, t, b);
    InsideHeap(top, b);
    BlockSpan(b);
    IndexIs(r, top, k + 1, Lo(b));
    SplitAboveLive(top, t, b, k + 1);
    if k < b.k {
      ReportedFrom(r, top, t, b, k + 1);
    }
  }

  // ---- A heap beyond it ----

  /** The tree after the whole heap is cut down to order k at address 0. */
  lemma {:induction false} Spine(top: nat, k: nat) returns (t: Tree)
    requires k <= top
    ensures Coherent(top, t) && t.live == {Blk(k, 0)}
    ensures forall j | k < j <= top :: Blk(j, 0) in t.split
    ensures forall j | k <= j < top :: Blk(j, 1) in t.free
    decreases top - k
  {
    if k == top {
      InitialCoherent(top);
      TakeFree(top, Initial(top), Root(top));
      t := Tree({}, {Root(top)}, {});
      assert {Root(top)} - {Root(top)} == {} && {} + {Root(top)} == {Root(top)};
    } else {
      var u := Spine(top, k + 1);
      var b := Blk(k + 1, 0);
      hide Coherent;
      SplitLive(top, u, b);
      t := Tree(u.free + {Right(b)}, u.live - {b} + {Left(b)}, u.split + {b});
      assert Left(b) == Blk(k, 0) && Right(b) == Blk(k, 1);
    }
  }

  lemma NoRemainder(n: nat, s: nat)
    requires n > 0 && s > 0
    ensures n % n == 0 == 0 % n && 0 / s == 0
  {
  }

  /** An offset of 2^r has narrowed index 0 at every order. */
  lemma WrapsToZero(r: nat, k: nat)
    ensures AddrToBi(Pow2(r), k, Pow2(r)) == 0 == AddrToBi(Pow2(r), k, 0)
  {
    hide AddrToBi, Pow2, Size;
    Narrowing(Pow2(r), k, Pow2(r));
    Narrowing(Pow2(r), k, 0);
    NoRemainder(Pow2(r), Size(k));
  }

  lemma SizeOfRange(r: nat)
    requires r >= 5
    ensures Size(r - 4) == Pow2(r) == 2 * Size(r - 5) && Lo(Blk(r - 4, 1)) == Pow2(r)
  {
    hide Pow2, Size, Times;
    SizeIsPow2(r - 4);
    SizeDoubles(r - 5);
    LoIsProduct(Blk(r - 4, 1));
  }

  lemma RangeBelowTop(r: nat, top: nat)
    requires r >= 5 && Size(top) > Pow2(r)
    ensures r - 4 < top
  {
    SizeIsPow2(top);
    if top + 4 <= r {
      Pow2Monotone(top + 4, r);
    }
  }

  /** One marked block of order 1 at address 0 makes block_size answer 0 at address 2^r. */
  lemma ReportsZero(r: nat, top: nat, marked: set<Blk>)
    requires top > 0 && Blk(1, 0) in marked
    ensures Reported(Pow2(r), top, marked, Pow2(r), 0) == 0
  {
    WrapsToZero(r, 1);
  }

  /** The free lists after create_mm. */
  ghost function FirstLists(top: nat): seq<seq<nat>> { seq(top + 1, j => if j == top then [0] else []) }

  /**
    On every heap larger than the index range: after alloc(16) cuts the whole heap at address 0 down to
    order 0, the list of order r - 4 holds the block at 2^r, so that is what alloc(2^r) hands out; and
    for that live block of order r - 4 block_size answers 0.
   */
  lemma LargeHeapSizeWrong(r: nat, top: nat)
    requires r >= 5 && Size(top) > Pow2(r)
    ensures r - 4 < top && IsOrder(16, LEAF_SIZE, 0) && IsOrder(Pow2(r), LEAF_SIZE, r - 4)
    ensures AfterAlloc(FirstLists(top), 0, top, 0)[r - 4] == [Pow2(r)]
    ensures Reported(Pow2(r), top, CutMarks(Pow2(r), 0, top, 0), Pow2(r), 0) == 0 < r - 4
  {
    hide CutMarks, AddrToBi, Pow2, Size, Reported, IsOrder, Lo;
    RangeBelowTop(r, top);
    SizeOfRange(r);
    SmallestFit(Pow2(r), r - 4);
    WrapsToZero(r, 1);
    CutMarksAt(Pow2(r), 0, top, 0, 1);
    ReportsZero(r, top, CutMarks(Pow2(r), 0, top, 0));
    assert AfterAlloc(FirstLists(top), 0, top, 0)[r - 4] == [0 + Size(r - 4)];
    SixteenIsLeast();
  }

  lemma SixteenIsLeast()
    ensures IsOrder(16, LEAF_SIZE, 0)
  {
  }

  lemma SmallestFit(n: nat, k: nat)
    requires k > 0 && Size(k - 1) < n <= Size(k)
    ensures IsOrder(n, LEAF_SIZE, k)
  {
    Pow2Monotone(k - 1, k);
  }

  /** The shipped NSIZES of 26 with 16-bit indices: the block of 65536 bytes at offset 65536. */
  lemma ShippedSizeWrong()
    ensures IsOrder(0x1_0000, LEAF_SIZE, 12) && AfterAlloc(FirstLists(25), 0, 25, 0)[12] == [0x1_0000]
    ensures Reported(0x1_0000, 25, CutMarks(0x1_0000, 0, 25, 0), 0x1_0000, 0) == 0
  {
    SixteenBits();
    hide CutMarks, AddrToBi, Size, Reported, IsOrder, AfterAlloc, FirstLists, Pow2;
    LargeHeapSizeWrong(16, 25);
  }

  lemma SixteenBits()
    ensures Pow2(16) == 0x1_0000 < Size(25)
  {
    Pow2Add(6, 10);
    assert Pow2(10) == 1024 && Pow2(6) == 64;
    hide Pow2, Size;
    SizeIsPow2(25);
    Pow2Add(16, 13);
    ThirteenBits();
  }

  lemma ThirteenBits()
    ensures Pow2(13) == 8192
  {
    Pow2Add(3, 10);
    assert Pow2(10) == 1024 && Pow2(3) == 8;
  }

  /** Block sizes are right on a heap iff it fits the index. */
  lemma SizesExact(r: nat, top: nat)
    requires r >= 5
    ensures SizesRight(r, top) <==> Size(top) <= Pow2(r)
  {
    if Size(top) <= Pow2(r) {
      forall t: Tree, b | Coherent(top, t) && b in t.live && b.k < top
        ensures Reported(Pow2(r), top, Marks(Pow2(r), t.split), Lo(b), 0) == b.k
      {
        MarksAreSplit(r, top, t);
        ReportedFrom(r, top, t, b, 0);
      }
    } else {
      hide Coherent, Pow2, Size, Reported, Marks, Lo;
      var t, b := WrongTree(r, top);
    }
  }

  /** The tree after those two calls. */
  lemma WrongTree(r: nat, top: nat) returns (t: Tree, b: Blk)
    requires r >= 5 && Size(top) > Pow2(r)
    ensures Coherent(top, t) && b in t.live && b.k < top
    ensures Reported(Pow2(r), top, Marks(Pow2(r), t.split), Lo(b), 0) != b.k
  {
    hide Coherent, Pow2, Size, Reported;
    RangeBelowTop(r, top);
    SizeOfRange(r);
    var u := Spine(top, 0);
    b := Blk(r - 4, 1);
    TakeFree(top, u, b);
    t := Tree(u.free - {b}, u.live + {b}, u.split);
    WrapsToZero(r, 1);
    assert Lo(Blk(1, 0)) == 0 && Blk(1, 0) in t.split;
    assert Blk(1, 0) in Marks(Pow2(r), t.split);
    hide Marks, Lo, AddrToBi;
    ReportsZero(r, top, Marks(Pow2(r), t.split));
  }
}
