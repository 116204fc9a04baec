/**
  The binary tree of blocks that Kernel/memory_management/buddy_memory_manager.c keeps, as a value.
  A block of order k is named by its index; the tree records which blocks are free, live (handed
  out) or split. The main result is that the whole tree is a function of the live blocks alone.
 */
module BuddyTree {

  const LEAF_SIZE := 16

  function Pow2(n: nat): (r: nat)
    ensures r >= 1
  {
    if n == 0 then 1 else 2 * Pow2(n - 1)
  }

  /** BLK_SIZE(k). */
  function Size(k: nat): (r: nat)
    ensures r >= LEAF_SIZE
  {
    Pow2(k) * LEAF_SIZE
  }

  datatype Blk = Blk(k: nat, i: nat)

  /** n * s, by repeated addition, so that addresses stay linear for the verifier. */
  function Times(n: nat, s: nat): (r: nat) {
    if n == 0 then 0 else Times(n - 1, s) + s
  }

  lemma {:induction false} TimesIsProduct(n: nat, s: nat)
    ensures Times(n, s) == n * s
  {
    if n > 0 {
      TimesIsProduct(n - 1, s);
      assert n * s == (n - 1) * s + s;
    }
  }

  /** The address of a block: its index times BLK_SIZE(k). */
  function Lo(b: Blk): nat { Times(b.i, Size(b.k)) }

  lemma LoIsProduct(b: Blk)
    ensures Lo(b) == b.i * Size(b.k)
  {
    TimesIsProduct(b.i, Size(b.k));
  }

  function Hi(b: Blk): nat { Lo(b) + Size(b.k) }

  /** The half-open address ranges of two blocks have no byte in common. */
  ghost predicate Apart(b: Blk, c: Blk) { Hi(b) <= Lo(c) || Hi(c) <= Lo(b) }

  predicate InHeap(top: nat, b: Blk) { b.k <= top && b.i < Pow2(top - b.k) }

  function Root(top: nat): Blk { Blk(top, 0) }

  function Parent(b: Blk): Blk { Blk(b.k + 1, b.i / 2) }

  function Buddy(b: Blk): Blk { Blk(b.k, if b.i % 2 == 0 then b.i + 1 else b.i - 1) }

  function Left(b: Blk): Blk
    requires b.k > 0
  {
    Blk(b.k - 1, 2 * b.i)
  }

  function Right(b: Blk): Blk
    requires b.k > 0
  {
    Blk(b.k - 1, 2 * b.i + 1)
  }

  /** The ancestor n levels up. */
  function Up(b: Blk, n: nat): (r: Blk)
    ensures r.k == b.k + n
    decreases n
  {
    if n == 0 then b else Up(Parent(b), n - 1)
  }

  datatype Tree = Tree(free: set<Blk>, live: set<Blk>, split: set<Blk>)
  {
    ghost function Leaves(): set<Blk> { free + live }
    ghost function Nodes(): set<Blk> { free + live + split }
  }

  /** A binary tree: the root is there, and a block is there iff its parent is split. */
  ghost predicate Shape(top: nat, leaves: set<Blk>, split: set<Blk>) {
    && leaves !! split
    && Root(top) in leaves + split
    && (forall b | b in leaves :: InHeap(top, b))
    && (forall b | b in split :: InHeap(top, b) && b.k > 0)
    && (forall b {:trigger Parent(b)} | b in leaves + split && b.k < top :: Parent(b) in split)
    && (forall b {:trigger Left(b)} | b in split :: Left(b) in leaves + split)
    && (forall b {:trigger Right(b)} | b in split :: Right(b) in leaves + split)
  }

  /** No two buddies are both free. */
  ghost predicate Merged(top: nat, free: set<Blk>) {
    forall b {:trigger Buddy(b)} | b in free && b.k < top :: Buddy(b) !in free
  }

  ghost predicate Coherent(top: nat, t: Tree) {
    t.free !! t.live && Shape(top, t.Leaves(), t.split) && Merged(top, t.free)
  }

  function Initial(top: nat): Tree { Tree({Root(top)}, {}, {}) }

  lemma InitialCoherent(top: nat)
    ensures Coherent(top, Initial(top))
  {
  }

  // ---- Arithmetic of block indices ----

  lemma SizeDoubles(k: nat)
    ensures Size(k + 1) == 2 * Size(k)
  {
  }

  lemma ParentRange(b: Blk)
    ensures Lo(Parent(b)) <= Lo(b) && Hi(b) <= Hi(Parent(b))
    ensures Lo(Parent(b)) == if b.i % 2 == 0 then Lo(b) else Lo(Buddy(b))
  {
    var s, j := Size(b.k), b.i / 2;
    LoIsProduct(b);
    LoIsProduct(Parent(b));
    LoIsProduct(Buddy(b));
    SizeDoubles(b.k);
    assert b.i == 2 * j + b.i % 2;
    assert Lo(Parent(b)) == j * (2 * s) == (2 * j) * s;
    assert Lo(b) == (2 * j) * s + (b.i % 2) * s;
    if b.i % 2 == 1 {
      assert Buddy(b).i == 2 * j;
    }
  }

  lemma {:induction false} UpRange(b: Blk, n: nat)
    ensures Lo(Up(b, n)) <= Lo(b) && Hi(b) <= Hi(Up(b, n))
    decreases n
  {
    if n > 0 {
      ParentRange(b);
      UpRange(Parent(b), n - 1);
    }
  }

  lemma {:induction false} UpParent(b: Blk, n: nat)
    ensures Up(b, n + 1) == Parent(Up(b, n))
    decreases n
  {
    if n > 0 {
      UpParent(Parent(b), n - 1);
    }
  }

  lemma SameOrderApart(b: Blk, c: Blk)
    requires b.k == c.k && b != c
    ensures Apart(b, c)
  {
    LoIsProduct(b);
    LoIsProduct(c);
    if b.i < c.i {
      Scale(b.i + 1, c.i, Size(b.k));
    } else {
      Scale(c.i + 1, b.i, Size(b.k));
    }
  }

  lemma Scale(m: nat, n: nat, s: nat)
    requires m <= n
    ensures m * s <= n * s
    ensures m > 0 ==> m * s == (m - 1) * s + s
  {
  }

  lemma ParentInHeap(top: nat, b: Blk)
    requires InHeap(top, b) && b.k < top
    ensures InHeap(top, Parent(b)) && InHeap(top, Buddy(b))
  {
    assert Pow2(top - b.k) == 2 * Pow2(top - b.k - 1);
  }

  lemma ChildrenInHeap(top: nat, b: Blk)
    requires InHeap(top, b) && b.k > 0
    ensures InHeap(top, Left(b)) && InHeap(top, Right(b))
  {
    assert Pow2(top - b.k + 1) == 2 * Pow2(top - b.k);
  }

  lemma {:induction false} UpInHeap(top: nat, b: Blk, n: nat)
    requires InHeap(top, b) && b.k + n <= top
    ensures InHeap(top, Up(b, n))
    decreases n
  {
    if n > 0 {
      ParentInHeap(top, b);
      UpInHeap(top, Parent(b), n - 1);
    }
  }

  lemma {:induction false} TopIsRoot(top: nat, b: Blk)
    requires InHeap(top, b) && b.k == top
    ensures b == Root(top)
  {
    assert Pow2(0) == 1;
  }

  lemma {:induction false} InsideHeap(top: nat, b: Blk)
    requires InHeap(top, b)
    ensures Hi(b) <= Size(top)
  {
    UpInHeap(top, b, top - b.k);
    TopIsRoot(top, Up(b, top - b.k));
    UpRange(b, top - b.k);
  }

  // ---- Where leaves can be ----

  /** Every proper ancestor of a block in the tree is split. */
  lemma {:induction false} AncestorsSplit(top: nat, leaves: set<Blk>, split: set<Blk>, b: Blk, n: nat)
    requires Shape(top, leaves, split) && b in leaves + split && 0 < n && b.k + n <= top
    ensures Up(b, n) in split
    decreases n
  {
    if n > 1 {
      AncestorsSplit(top, leaves, split, Parent(b), n - 1);
    } else {
      assert Up(b, 1) == Up(Parent(b), 0);
    }
  }

  /** A node of the tree is apart from a leaf of at least its order, unless it is that leaf or under a split. */
  lemma NodeApartFromLeaf(top: nat, leaves: set<Blk>, split: set<Blk>, b: Blk, c: Blk)
    requires Shape(top, leaves, split) && b in leaves + split && c in leaves && b != c && b.k <= c.k
    ensures Apart(b, c)
  {
    var n := c.k - b.k;
    var a := Up(b, n);
    UpRange(b, n);
    if a == c {
      if n > 0 {
        AncestorsSplit(top, leaves, split, b, n);
      }
      assert false;
    } else {
      SameOrderApart(a, c);
    }
  }

  /** Live and free blocks are pairwise disjoint address ranges. */
  lemma LeavesApart(top: nat, t: Tree, b: Blk, c: Blk)
    requires Coherent(top, t) && b in t.Leaves() && c in t.Leaves() && b != c
    ensures Apart(b, c) && Lo(b) != Lo(c)
  {
    if b.k <= c.k {
      NodeApartFromLeaf(top, t.Leaves(), t.split, b, c);
    } else {
      NodeApartFromLeaf(top, t.Leaves(), t.split, c, b);
    }
  }

  // ---- Maximal coalescing and the canonical form ----

  /** No live block has a byte in b. */
  ghost predicate Unused(live: set<Blk>, b: Blk) {
    forall l | l in live :: Apart(l, b)
  }

  /** l lies strictly under b in the binary tree of blocks. */
  ghost predicate Below(l: Blk, b: Blk) {
    l.k < b.k && Up(l, b.k - l.k) == b
  }

  lemma ChildRange(b: Blk)
    requires b.k > 0
    ensures Lo(Left(b)) == Lo(b) && Hi(Left(b)) == Lo(Right(b)) && Hi(Right(b)) == Hi(b)
    ensures Parent(Left(b)) == b && Parent(Right(b)) == b
    ensures Buddy(Left(b)) == Right(b) && Buddy(Right(b)) == Left(b)
  {
    var s := Size(b.k - 1);
    SizeDoubles(b.k - 1);
    LoIsProduct(b);
    LoIsProduct(Left(b));
    LoIsProduct(Right(b));
    assert Lo(b) == b.i * (2 * s) == (2 * b.i) * s;
    assert Lo(Right(b)) == (2 * b.i + 1) * s == (2 * b.i) * s + s;
  }

  /** Because buddies are always merged, a wholly unused node of the tree is one free block. */
  lemma {:induction false} UnusedIsFree(top: nat, t: Tree, b: Blk)
    requires Coherent(top, t) && b in t.Nodes() && Unused(t.live, b)
    ensures b in t.free
    decreases b.k
  {
    if b in t.live {
      assert false;
    } else if b in t.split {
      ChildRange(b);
      UnusedIsFree(top, t, Left(b));
      UnusedIsFree(top, t, Right(b));
      assert false;
    }
  }

  /** The split blocks are exactly the blocks with a live block strictly below them. */
  lemma SplitIffLiveBelow(top: nat, t: Tree, b: Blk)
    requires Coherent(top, t) && InHeap(top, b)
    ensures b in t.split <==> exists l :: l in t.live && Below(l, b)
  {
    if b in t.split {
      if Unused(t.live, b) {
        UnusedIsFree(top, t, b);
        assert false;
      }
      var l :| l in t.live && !Apart(l, b);
      if b.k <= l.k {
        NodeApartFromLeaf(top, t.Leaves(), t.split, b, l);
        assert false;
      } else {
        UpRange(l, b.k - l.k);
        if Up(l, b.k - l.k) != b {
          SameOrderApart(Up(l, b.k - l.k), b);
        }
        assert Below(l, b);
      }
    } else if exists l :: l in t.live && Below(l, b) {
      var l :| l in t.live && Below(l, b);
      AncestorsSplit(top, t.Leaves(), t.split, l, b.k - l.k);
      assert false;
    }
  }

  /**
    Canonical form: the live blocks determine the free blocks and the split blocks. Hence whatever
    sequence of allocations and releases leads to a set of live blocks, the allocator's tree is the
    same, and releasing a block undoes its allocation completely.
   */
  lemma Canonical(top: nat, t: Tree, u: Tree)
    requires Coherent(top, t) && Coherent(top, u) && t.live == u.live
    ensures t == u
  {
    forall b
      ensures b in t.split <==> b in u.split
    {
      if InHeap(top, b) {
        SplitIffLiveBelow(top, t, b);
        SplitIffLiveBelow(top, u, b);
      }
    }
    assert t.split == u.split;
    forall b | b in t.free
      ensures b in u.free
    {
      SameNodes(top, t, u, b);
    }
    forall b | b in u.free
      ensures b in t.free
    {
      SameNodes(top, u, t, b);
    }
    assert t.free == u.free;
  }

  lemma SameNodes(top: nat, t: Tree, u: Tree, b: Blk)
    requires Coherent(top, t) && Coherent(top, u) && t.live == u.live && t.split == u.split && b in t.free
    ensures b in u.free
  {
    if b.k == top {
      TopIsRoot(top, b);
    } else {
      var p := Parent(b);
      assert p in u.split;
      ChildRange(p);
      assert b == Left(p) || b == Right(p);
    }
  }

  /** Once everything is released, in whatever order, the heap is one free block again. */
  lemma AllReleased(top: nat, t: Tree)
    requires Coherent(top, t) && t.live == {}
    ensures t == Initial(top)
  {
    InitialCoherent(top);
    Canonical(top, t, Initial(top));
  }

  // ---- Completeness: a request fails only when there is really no room ----

  /** The leftmost block n levels below b. */
  function Leftmost(b: Blk, n: nat): (r: Blk)
    requires n <= b.k
    ensures r.k == b.k - n
    decreases n
  {
    if n == 0 then b else Leftmost(Left(b), n - 1)
  }

  lemma {:induction false} LeftmostInside(top: nat, b: Blk, n: nat)
    requires InHeap(top, b) && n <= b.k
    ensures InHeap(top, Leftmost(b, n))
    ensures Lo(Leftmost(b, n)) == Lo(b) && Hi(Leftmost(b, n)) <= Hi(b)
    decreases n
  {
    if n > 0 {
      ChildrenInHeap(top, b);
      ChildRange(b);
      LeftmostInside(top, Left(b), n - 1);
    }
  }

  /** Some free block holds b, whenever b is wholly unused. */
  lemma {:induction false} UnusedHasFreeAncestor(top: nat, t: Tree, b: Blk) returns (f: Blk)
    requires Coherent(top, t) && InHeap(top, b) && Unused(t.live, b)
    ensures f in t.free && f.k >= b.k && Lo(f) <= Lo(b) && Hi(b) <= Hi(f)
    decreases top - b.k
  {
    if b in t.Nodes() {
      UnusedIsFree(top, t, b);
      f := b;
    } else {
      if b.k == top {
        TopIsRoot(top, b);
        assert false;
      }
      f := FirstNodeAbove(top, t, b);
      if f in t.live {
        assert false;
      }
    }
  }

  /** Above a block that is not in the tree, the first block that is there is a leaf. */
  lemma {:induction false} FirstNodeAbove(top: nat, t: Tree, b: Blk) returns (f: Blk)
    requires Coherent(top, t) && InHeap(top, b) && b !in t.Nodes() && b.k < top
    ensures f in t.Leaves() && f.k > b.k && Lo(f) <= Lo(b) && Hi(b) <= Hi(f)
    decreases top - b.k
  {
    var p := Parent(b);
    ParentInHeap(top, b);
    ParentRange(b);
    if p in t.split {
      var l, r := Left(p), Right(p);
      assert false;
    }
    if p in t.Leaves() {
      f := p;
    } else {
      if p.k == top {
        TopIsRoot(top, p);
        assert false;
      }
      f := FirstNodeAbove(top, t, p);
    }
  }

  /** There is a free block of order `power` or more iff some aligned block of that order is wholly unused. */
  lemma Completeness(top: nat, t: Tree, power: nat)
    requires Coherent(top, t)
    ensures (exists f :: f in t.free && f.k >= power) <==>
            (exists b :: InHeap(top, b) && b.k == power && Unused(t.live, b))
  {
    if f: Blk :| f in t.free && f.k >= power {
      var b := Leftmost(f, f.k - power);
      LeftmostInside(top, f, f.k - power);
      forall l | l in t.live
        ensures Apart(l, b)
      {
        LeavesApart(top, t, l, f);
      }
      assert Unused(t.live, b);
    }
    if b: Blk :| InHeap(top, b) && b.k == power && Unused(t.live, b) {
      var f := UnusedHasFreeAncestor(top, t, b);
    }
  }

  // ---- Conservation ----

  ghost function Bytes(s: set<Blk>): nat {
    if s == {} then 0 else var b :| b in s; Size(b.k) + Bytes(s - {b})
  }

  lemma {:induction false} BytesRemove(s: set<Blk>, b: Blk)
    requires b in s
    ensures Bytes(s) == Size(b.k) + Bytes(s - {b})
    decreases |s|
  {
    var c :| c in s && Bytes(s) == Size(c.k) + Bytes(s - {c});
    if b != c {
      BytesRemove(s - {c}, b);
      BytesRemove(s - {b}, c);
      assert s - {c} - {b} == s - {b} - {c};
    }
  }

  lemma {:induction false} BytesUnion(s: set<Blk>, r: set<Blk>)
    requires s !! r
    ensures Bytes(s + r) == Bytes(s) + Bytes(r)
    decreases |r|
  {
    if r == {} {
      assert s + r == s;
    } else {
      var b :| b in r;
      BytesRemove(r, b);
      BytesRemove(s + r, b);
      BytesUnion(s, r - {b});
      assert s + r - {b} == s + (r - {b});
    }
  }

  ghost predicate Lowest(split: set<Blk>, b: Blk) {
    b in split && forall c | c in split :: b.k <= c.k
  }

  lemma {:induction false} LowestSplit(split: set<Blk>) returns (b: Blk)
    requires split != {}
    ensures Lowest(split, b)
    decreases |split|
  {
    b :| b in split;
    if split != {b} {
      var c := LowestSplit(split - {b});
      if c.k < b.k {
        b := c;
      }
    }
  }

  /** The leaves of any binary tree over the heap add up to the heap. */
  lemma {:induction false} LeavesFillHeap(top: nat, leaves: set<Blk>, split: set<Blk>)
    requires Shape(top, leaves, split)
    ensures Bytes(leaves) == Size(top)
    decreases |split|
  {
    if split == {} {
      forall b | b in leaves
        ensures b == Root(top)
      {
        var p := Parent(b);
        TopIsRoot(top, b);
      }
      assert leaves == {Root(top)};
      BytesRemove(leaves, Root(top));
    } else {
      var b := LowestSplit(split);
      FoldSplit(top, leaves, split, b);
      LeavesFillHeap(top, leaves - {Left(b), Right(b)} + {b}, split - {b});
      FoldKeepsBytes(leaves, b);
    }
  }

  lemma FoldKeepsBytes(leaves: set<Blk>, b: Blk)
    requires b.k > 0 && Left(b) in leaves && Right(b) in leaves && b !in leaves
    ensures Bytes(leaves - {Left(b), Right(b)} + {b}) == Bytes(leaves)
  {
    var l, r := Left(b), Right(b);
    var fewer := leaves - {l, r};
    SizeDoubles(b.k - 1);
    BytesRemove(fewer + {b}, b);
    BytesRemove(leaves, l);
    BytesRemove(leaves - {l}, r);
    assert fewer + {b} - {b} == fewer == leaves - {l} - {r};
  }

  /** A child determines its parent, and a block's children are the two below it. */
  lemma Children(p: Blk, c: Blk)
    requires p.k > 0
    ensures Parent(c) == p <==> c == Left(p) || c == Right(p)
    ensures c.k > 0 ==> Left(c) != Right(p) && Right(c) != Left(p) && (Left(c) == Left(p) || Right(c) == Right(p) ==> c == p)
  {
  }

  lemma FoldParents(top: nat, leaves: set<Blk>, split: set<Blk>, p: Blk, c: Blk)
    requires Shape(top, leaves, split) && p in split && Left(p) in leaves && Right(p) in leaves
    requires c in leaves - {Left(p), Right(p)} + {p} + (split - {p}) && c.k < top
    ensures Parent(c) in split - {p}
  {
    Children(p, c);
  }

  lemma FoldChildren(top: nat, leaves: set<Blk>, split: set<Blk>, p: Blk, c: Blk)
    requires Shape(top, leaves, split) && p in split && Left(p) in leaves && Right(p) in leaves && c in split - {p}
    ensures c.k > 0
    ensures Left(c) in leaves - {Left(p), Right(p)} + {p} + (split - {p})
    ensures Right(c) in leaves - {Left(p), Right(p)} + {p} + (split - {p})
  {
    Children(p, c);
  }

  lemma FoldBlocks(top: nat, leaves: set<Blk>, split: set<Blk>, p: Blk)
    requires Shape(top, leaves, split) && p in split && Left(p) in leaves && Right(p) in leaves
    ensures var up, down := leaves - {Left(p), Right(p)} + {p}, split - {p};
      && up !! down && Root(top) in up + down
      && (forall c | c in up :: InHeap(top, c)) && (forall c | c in down :: InHeap(top, c) && c.k > 0)
  {
    assert InHeap(top, p) && Left(p) != Root(top) && Right(p) != Root(top);
    hide InHeap, Left, Right, Parent, Root;
  }

  lemma ShapeIs(top: nat, leaves: set<Blk>, split: set<Blk>)
    requires leaves !! split && Root(top) in leaves + split
    requires (forall c | c in leaves :: InHeap(top, c)) && (forall c | c in split :: InHeap(top, c) && c.k > 0)
    requires forall c {:trigger Parent(c)} | c in leaves + split && c.k < top :: Parent(c) in split
    requires forall c {:trigger Left(c)} {:trigger Right(c)} | c in split :: Left(c) in leaves + split && Right(c) in leaves + split
    ensures Shape(top, leaves, split)
  {
    hide InHeap, Left, Right, Parent, Root;
  }

  /** Two leaves under one block fold into it. */
  lemma ShapeFold(top: nat, leaves: set<Blk>, split: set<Blk>, p: Blk)
    requires Shape(top, leaves, split) && p in split && Left(p) in leaves && Right(p) in leaves
    ensures Shape(top, leaves - {Left(p), Right(p)} + {p}, split - {p})
  {
    assert p.k > 0;
    hide Shape, InHeap, Left, Right, Parent, Root;
    var up: set<Blk> := leaves - {Left(p), Right(p)} + {p};
    var down: set<Blk> := split - {p};
    FoldBlocks(top, leaves, split, p);
    forall c | c in up + down && c.k < top
      ensures Parent(c) in down
    {
      FoldParents(top, leaves, split, p, c);
    }
    forall c | c in down
      ensures Left(c) in up + down && Right(c) in up + down
    {
      FoldChildren(top, leaves, split, p, c);
    }
    ShapeIs(top, up, down);
  }

  lemma FoldSplit(top: nat, leaves: set<Blk>, split: set<Blk>, b: Blk)
    requires Shape(top, leaves, split) && Lowest(split, b)
    ensures Left(b) in leaves && Right(b) in leaves && b !in leaves
    ensures Shape(top, leaves - {Left(b), Right(b)} + {b}, split - {b})
  {
    assert Left(b) !in split && Right(b) !in split;
    ShapeFold(top, leaves, split, b);
  }

  /** Live bytes plus free bytes is the size of the heap. */
  lemma Conservation(top: nat, t: Tree)
    requires Coherent(top, t)
    ensures Bytes(t.live) + Bytes(t.free) == Size(top)
  {
    LeavesFillHeap(top, t.Leaves(), t.split);
    BytesUnion(t.free, t.live);
  }

  // ---- The four elementary changes the allocator makes ----

  lemma TakeFree(top: nat, t: Tree, b: Blk)
    requires Coherent(top, t) && b in t.free
    ensures Coherent(top, Tree(t.free - {b}, t.live + {b}, t.split))
  {
    assert t.free - {b} + (t.live + {b}) == t.Leaves();
  }

  lemma GiveBack(top: nat, t: Tree, b: Blk)
    requires Coherent(top, t) && b in t.live && (b.k == top || Buddy(b) !in t.free)
    ensures Coherent(top, Tree(t.free + {b}, t.live - {b}, t.split))
  {
    assert t.free + {b} + (t.live - {b}) == t.Leaves();
    forall c | c in t.free + {b} && c.k < top
      ensures Buddy(c) !in t.free + {b}
    {
      assert Buddy(Buddy(c)) == c;
    }
  }

  lemma SplitLive(top: nat, t: Tree, b: Blk)
    requires Coherent(top, t) && b in t.live && b.k > 0
    ensures Coherent(top, Tree(t.free + {Right(b)}, t.live - {b} + {Left(b)}, t.split + {b}))
    ensures Left(b) !in t.Nodes() && Right(b) !in t.Nodes()
  {
    var l, r := Left(b), Right(b);
    ChildRange(b);
    ChildrenInHeap(top, b);
    assert Parent(l) == b && Parent(r) == b;
    var u := Tree(t.free + {r}, t.live - {b} + {l}, t.split + {b});
    assert u.Leaves() == t.Leaves() - {b} + {l, r};
    forall c | c in u.free && c.k < top
      ensures Buddy(c) !in u.free
    {
      assert Buddy(Buddy(c)) == c;
    }
  }

  lemma MergeLive(top: nat, t: Tree, b: Blk)
    requires Coherent(top, t) && b in t.live && b.k < top && Buddy(b) in t.free
    ensures Coherent(top, Tree(t.free - {Buddy(b)}, t.live - {b} + {Parent(b)}, t.split - {Parent(b)}))
    ensures Parent(b) in t.split
  {
    var q, p := Buddy(b), Parent(b);
    ChildRange(p);
    assert p in t.split && {Left(p), Right(p)} == {b, q};
    var u := Tree(t.free - {q}, t.live - {b} + {p}, t.split - {p});
    assert u.Leaves() == t.Leaves() - {b, q} + {p};
    ShapeFold(top, t.Leaves(), t.split, p);
    hide Shape;
  }

  /** Whether a live block's buddy is in the tree as free is decided by the two bits the code reads. */
  lemma BuddyInTree(top: nat, t: Tree, b: Blk)
    requires Coherent(top, t) && b in t.Nodes() && b.k < top
    ensures InHeap(top, b) && Lo(b) < Hi(b)
    ensures Parent(b) in t.split && Buddy(b) in t.Nodes() && InHeap(top, Buddy(b)) && Buddy(b) != b
    ensures Buddy(b) in t.free <==> Buddy(b) !in t.live + t.split
  {
    ChildRange(Parent(b));
    assert b == Left(Parent(b)) || b == Right(Parent(b));
    ParentInHeap(top, b);
  }

  /** The order-k block that holds address a, as the documented index p / BLK_SIZE(k). */
  function BlockAt(k: nat, a: nat): (b: Blk)
    ensures b.k == k && Lo(b) <= a < Hi(b)
  {
    DivideBySize(a, Size(k));
    LoIsProduct(Blk(k, a / Size(k)));
    Blk(k, a / Size(k))
  }

  lemma DivideBySize(a: nat, s: nat)
    requires s > 0
    ensures a / s >= 0 && (a / s) * s <= a < (a / s) * s + s
  {
  }

  /** A block is the block of its order at its own address. */
  lemma BlockAtLo(b: Blk)
    ensures BlockAt(b.k, Lo(b)) == b
  {
    if BlockAt(b.k, Lo(b)) != b {
      SameOrderApart(BlockAt(b.k, Lo(b)), b);
    }
  }

  /**
    The fact block_size relies on: seen from a live block's address, the enclosing block of order k
    is split exactly when k is above the live block's order.
   */
  lemma SplitAboveLive(top: nat, t: Tree, b: Blk, k: nat)
    requires Coherent(top, t) && b in t.live && 0 < k <= top
    ensures BlockAt(k, Lo(b)) in t.split <==> k > b.k
  {
    var c := BlockAt(k, Lo(b));
    if k > b.k {
      var a := Up(b, k - b.k);
      AncestorsSplit(top, t.Leaves(), t.split, b, k - b.k);
      UpRange(b, k - b.k);
      if c != a {
        SameOrderApart(c, a);
      }
    } else if c in t.split {
      NodeApartFromLeaf(top, t.Leaves(), t.split, c, b);
      assert false;
    }
  }
}
