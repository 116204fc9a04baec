/**
  Kernel/libs/lib_buddy.c: order of a request, block indices in machine integers, and the circular
  doubly linked free lists whose nodes live inside the free blocks themselves.
 */
module LibBuddy {
  import opened BuddyTree

  // ---- Order of a request ----

  /** The least order whose blocks hold n bytes. */
  ghost predicate IsOrder(n: nat, min: nat, k: nat) {
    n <= Pow2(k) * min && (k > 0 ==> Pow2(k - 1) * min < n)
  }

  lemma {:induction false} Pow2Monotone(i: nat, j: nat)
    requires i <= j
    ensures Pow2(i) <= Pow2(j)
    decreases j
  {
    if i < j {
      Pow2Monotone(i, j - 1);
    }
  }

  lemma OrderUnique(n: nat, min: nat, j: nat, k: nat)
    requires IsOrder(n, min, j) && IsOrder(n, min, k)
    ensures j == k
  {
    if j < k {
      Pow2Monotone(j, k - 1);
      Scale(Pow2(j), Pow2(k - 1), min);
    } else if k < j {
      Pow2Monotone(k, j - 1);
      Scale(Pow2(k), Pow2(j - 1), min);
    }
  }

  const UINT64_LIMIT := 0x1_0000_0000_0000_0000

  /**
    first_power. Above half the 64-bit range `size *= 2` wraps to zero and the loop never ends, so
    that is the callers' bound. Below it, `size` never wraps, as the loop invariant shows.
   */
  method FirstPower(n: nat, minSize: nat) returns (k: nat)
    requires n <= UINT64_LIMIT / 2 && 0 < minSize <= UINT64_LIMIT / 2
    ensures IsOrder(n, minSize, k)
  {
    k := 0;
    var size := minSize;
    while size < n
      invariant size == Pow2(k) * minSize && size < UINT64_LIMIT
      invariant k > 0 ==> Pow2(k - 1) * minSize < n
      decreases n - size
    {
      assert Pow2(k + 1) * minSize == 2 * (Pow2(k) * minSize);
      k := k + 1;
      size := (size * 2) % UINT64_LIMIT;
    }
  }

  // ---- Block indices ----

  /** addr_to_bi for an offset from the heap base; `range` is 2^16 for the code's uint16_t. */
  function AddrToBi(range: nat, k: nat, p: nat): (bi: int)
    requires range > 0
  {
    ((p % range) / Size(k)) % range
  }

  /** bi_to_addr: the product is narrowed to uint32_t. */
  function BiToAddr(k: nat, bi: nat): nat {
    (bi * Size(k)) % 0x1_0000_0000
  }

  lemma Narrowing(range: nat, k: nat, p: nat)
    requires range > 0
    ensures AddrToBi(range, k, p) == (p % range) / Size(k)
  {
    QuotientBelow(p % range, Size(k), range);
  }

  lemma QuotientBelow(m: nat, s: nat, range: nat)
    requires s > 0 && m < range
    ensures 0 <= m / s < range && (m / s) % range == m / s
  {
    DivideBySize(m, s);
    if m / s >= range {
      Scale(1, s, m / s);
    }
    Quotient(m / s, range, 0);
    DivideBySize(m / s, range);
  }

  lemma {:induction false} Pow2Add(i: nat, j: nat)
    ensures Pow2(i + j) == Pow2(i) * Pow2(j)
    decreases i
  {
    if i > 0 {
      Pow2Add(i - 1, j);
      assert Pow2(i + j) == 2 * Pow2((i - 1) + j) == 2 * (Pow2(i - 1) * Pow2(j));
    }
  }

  /** Splitting an offset p = h * (q * s) + m shows how its order-s index depends on h. */
  lemma IndexSplits(h: nat, q: nat, s: nat, m: nat)
    requires s > 0
    ensures (h * (q * s) + m) / s == h * q + m / s
  {
    DivideBySize(m, s);
    var c := h * q + m / s;
    assert c * s == h * (q * s) + (m / s) * s;
    Quotient(h * (q * s) + m, s, c);
  }

  lemma Quotient(a: nat, s: nat, c: nat)
    requires s > 0 && c * s <= a < c * s + s
    ensures a / s == c
  {
    DivideBySize(a, s);
    if a / s < c {
      Scale(a / s + 1, c, s);
    } else if a / s > c {
      Scale(c + 1, a / s, s);
    }
  }

  /** Dropping whole multiples of the range from p leaves its order-s index alone only when there are none. */
  lemma DropMultiples(p: nat, range: nat, q: nat, s: nat)
    requires s > 0 && q > 0 && range == q * s
    ensures (p % range) / s == p / s <==> p < range
  {
    DivideBySize(p, range);
    var h, m := p / range, p % range;
    assert p == h * (q * s) + m;
    IndexSplits(h, q, s, m);
    if h > 0 {
      Scale(1, h, q);
      Scale(1, h, range);
    } else {
      assert h * q == 0;
    }
  }

  /** In a range within one block every narrowed index is zero. */
  lemma RangeInBlock(p: nat, range: nat, s: nat)
    requires 0 < range <= s
    ensures (p % range) / s == p / s <==> p < s
  {
    DivideBySize(p, range);
    Quotient(p % range, s, 0);
    DivideBySize(p, s);
    assert p / s == 0 ==> (p / s) * s == 0;
    if p < s {
      Quotient(p, s, 0);
    }
  }

  lemma SizeIsPow2(k: nat)
    ensures Size(k) == Pow2(k + 4)
  {
    Pow2Add(k, 4);
    assert Pow2(4) == 16;
  }

  /** The narrowed index is the documented one exactly below the range, or inside the first block. */
  lemma IndexExact(r: nat, k: nat, p: nat)
    ensures AddrToBi(Pow2(r), k, p) == p / Size(k) <==> p < Pow2(r) || p < Size(k)
  {
    Narrowing(Pow2(r), k, p);
    SizeIsPow2(k);
    if r >= k + 4 {
      Pow2Monotone(k + 4, r);
      Pow2Add(r - k - 4, k + 4);
      DropMultiples(p, Pow2(r), Pow2(r - k - 4), Pow2(k + 4));
    } else {
      Pow2Monotone(r, k + 4);
      RangeInBlock(p, Pow2(r), Pow2(k + 4));
    }
  }

  /** Narrowed indices are right over a whole heap of top order `top` iff its offsets fit the range. */
  lemma HeapIndexExact(r: nat, top: nat)
    requires r >= 4
    ensures (forall k: nat, p: nat :: k <= top && p < Size(top) ==> AddrToBi(Pow2(r), k, p) == p / Size(k))
       <==> Size(top) <= Pow2(r)
  {
    if Size(top) <= Pow2(r) {
      forall k: nat, p: nat | k <= top && p < Size(top)
        ensures AddrToBi(Pow2(r), k, p) == p / Size(k)
      {
        IndexExact(r, k, p);
      }
    } else {
      Pow2Monotone(4, r);
      assert Pow2(4) == 16 && Size(0) == 16;
      IndexExact(r, 0, Pow2(r));
    }
  }

  /** With the uint16_t of the code and NSIZES == 26, the leaf at offset 65536 is given index 0, not 4096. */
  lemma ShippedIndexWraps()
    ensures AddrToBi(0x1_0000, 0, 0x1_0000) == 0 && 0x1_0000 / Size(0) == 4096
    ensures 0x1_0000 < Size(25)
  {
    assert Size(0) == 16;
    Pow2Monotone(13, 25);
    Pow2Add(3, 10);
    assert Pow2(3) == 8;
    assert Pow2(10) == 1024;
  }

  /**
    bi_to_addr(addr_to_bi(p)) with an r-bit index is p rounded down to its order when p is below 2^r or
    inside the first block; otherwise the index, and with it the address, is another block's.
   */
  lemma RoundTrip(r: nat, k: nat, p: nat)
    requires p < 0x1_0000_0000
    ensures AddrToBi(Pow2(r), k, p) >= 0
    ensures BiToAddr(k, AddrToBi(Pow2(r), k, p)) == Lo(BlockAt(k, p)) <==> p < Pow2(r) || p < Size(k)
  {
    var bi, m, s := AddrToBi(Pow2(r), k, p), p % Pow2(r), Size(k);
    Narrowing(Pow2(r), k, p);
    DivideBySize(m, s);
    BelowDividend(p, Pow2(r));
    SmallMod(bi * s, 0x1_0000_0000);
    LoIsProduct(BlockAt(k, p));
    DivideBySize(p, s);
    SameMultiple(bi, p / s, s);
    IndexExact(r, k, p);
  }

  lemma BelowDividend(a: nat, n: nat)
    requires n > 0
    ensures 0 <= a % n <= a
  {
    DivideBySize(a, n);
  }

  lemma SameMultiple(a: nat, b: nat, s: nat)
    requires s > 0
    ensures a * s == b * s <==> a == b
  {
    if a < b {
      Scale(a + 1, b, s);
    } else if b < a {
      Scale(b + 1, a, s);
    }
  }

  lemma BiToAddrIsLo(b: Blk)
    requires Lo(b) < 0x1_0000_0000
    ensures BiToAddr(b.k, b.i) == Lo(b)
  {
    LoIsProduct(b);
    SmallMod(Lo(b), 0x1_0000_0000);
  }

  lemma SmallMod(a: nat, n: nat)
    requires a < n
    ensures a % n == a
  {
  }

  // ---- Circular lists ----

  /** A list node is a list head (one per order) or the first bytes of a free block. */
  datatype Node = Head(k: nat) | At(offset: nat)

  /** Position j on the circle of list k: the head, the elements in order, and the head again. */
  ghost function Spot(k: nat, s: seq<nat>, j: int): Node {
    if 0 < j <= |s| then At(s[j - 1]) else Head(k)
  }

  ghost predicate Linked(next: map<Node, Node>, prev: map<Node, Node>, a: Node, b: Node) {
    a in next && next[a] == b && b in prev && prev[b] == a
  }

  ghost predicate LinkedAt(next: map<Node, Node>, prev: map<Node, Node>, k: nat, s: seq<nat>, j: int) {
    Linked(next, prev, Spot(k, s, j), Spot(k, s, j + 1))
  }

  /** next and prev run around the head and the elements of s, in both directions. */
  ghost predicate Ring(next: map<Node, Node>, prev: map<Node, Node>, k: nat, s: seq<nat>) {
    forall j {:trigger LinkedAt(next, prev, k, s, j)} :: 0 <= j <= |s| ==> LinkedAt(next, prev, k, s, j)
  }

  ghost predicate NoRepeats(lists: seq<seq<nat>>) {
    forall k, j, k', j' {:trigger lists[k][j], lists[k'][j']}
      | 0 <= k < |lists| && 0 <= j < |lists[k]| && 0 <= k' < |lists| && 0 <= j' < |lists[k']| &&
        lists[k][j] == lists[k'][j'] :: k == k' && j == j'
  }

  ghost predicate Listed(lists: seq<seq<nat>>, p: nat) {
    exists k :: 0 <= k < |lists| && p in lists[k]
  }

  /** A ring only depends on the links of its own nodes. */
  lemma RingFrame(next: map<Node, Node>, prev: map<Node, Node>, next': map<Node, Node>, prev': map<Node, Node>,
                  k: nat, s: seq<nat>)
    requires Ring(next, prev, k, s)
    requires next.Keys <= next'.Keys && prev.Keys <= prev'.Keys
    requires forall j {:trigger Spot(k, s, j)} :: 0 <= j <= |s| && Spot(k, s, j) in next ==> next'[Spot(k, s, j)] == next[Spot(k, s, j)]
    requires forall j {:trigger Spot(k, s, j)} :: 0 <= j <= |s| && Spot(k, s, j) in prev ==> prev'[Spot(k, s, j)] == prev[Spot(k, s, j)]
    ensures Ring(next', prev', k, s)
  {
    forall j | 0 <= j <= |s|
      ensures LinkedAt(next', prev', k, s, j)
    {
      assert LinkedAt(next, prev, k, s, j);
      assert Spot(k, s, |s| + 1) == Spot(k, s, 0);
    }
  }

  class FreeLists {
    var next: map<Node, Node>
    var prev: map<Node, Node>
    ghost var lists: seq<seq<nat>>

    ghost predicate Valid()
      reads this
    {
      NoRepeats(lists) && forall k :: 0 <= k < |lists| ==> Ring(next, prev, k, lists[k])
    }

    constructor ()
      ensures Valid() && lists == []
    {
      next, prev, lists := map[], map[], [];
    }

    lemma Distinct()
      requires Valid()
      ensures NoRepeats(lists)
    {
    }

    /** list_init on the head of the next order. */
    method Init(k: nat)
      requires Valid() && k == |lists|
      modifies this
      ensures Valid() && lists == old(lists) + [[]]
    {
      next := next[Head(k) := Head(k)];
      prev := prev[Head(k) := Head(k)];
      lists := lists + [[]];
      forall j | 0 <= j < |lists|
        ensures Ring(next, prev, j, lists[j])
      {
        if j < k {
          assert lists[j] == old(lists)[j];
          RingFrame(old(next), old(prev), next, prev, j, lists[j]);
        }
      }
    }

    /** list_empty */
    method Empty(k: nat) returns (r: bool)
      requires Valid() && k < |lists|
      ensures r <==> lists[k] == []
    {
      assert LinkedAt(next, prev, k, lists[k], 0);
      r := next[Head(k)] == Head(k);
    }

    /** list_push: p becomes the first element. */
    method Push(k: nat, p: nat)
      requires Valid() && k < |lists| && !Listed(lists, p)
      modifies this
      ensures Valid() && lists == old(lists)[k := [p] + old(lists)[k]]
    {
      ghost var s := lists[k];
      assert LinkedAt(next, prev, k, s, 0);
      next := next[At(p) := next[Head(k)]];
      prev := prev[At(p) := Head(k)];
      prev := prev[next[Head(k)] := At(p)];
      next := next[Head(k) := At(p)];
      lists := lists[k := [p] + s];
      PushRings(old(next), old(prev), next, prev, old(lists), k, p);
    }

    /** list_remove: unlinks an element knowing nothing but its own two links. */
    method Remove(p: nat, ghost k: nat, ghost i: nat)
      requires Valid() && k < |lists| && i < |lists[k]| && lists[k][i] == p
      modifies this
      ensures Valid() && lists == old(lists)[k := old(lists)[k][..i] + old(lists)[k][i + 1..]]
    {
      ghost var s := lists[k];
      assert LinkedAt(next, prev, k, s, i) && LinkedAt(next, prev, k, s, i + 1);
      assert Spot(k, s, i + 1) == At(p);
      next := next[prev[At(p)] := next[At(p)]];
      prev := prev[next[At(p)] := prev[At(p)]];
      lists := lists[k := s[..i] + s[i + 1..]];
      RemoveRings(old(next), old(prev), next, prev, old(lists), k, i);
    }

    /** list_pop: null on an empty list, else the first element, unlinked. */
    method Pop(k: nat) returns (r: Node)
      requires Valid() && k < |lists|
      modifies this
      ensures Valid()
      ensures old(lists)[k] == [] ==> r == Head(k) && lists == old(lists)
      ensures old(lists)[k] != [] ==> r == At(old(lists)[k][0]) && lists == old(lists)[k := old(lists)[k][1..]]
    {
      assert LinkedAt(next, prev, k, lists[k], 0);
      r := next[Head(k)];
      if r == Head(k) {
        return;
      }
      assert r == Spot(k, lists[k], 1);
      ghost var s := lists[k];
      Remove(r.offset, k, 0);
      assert s[..0] + s[0 + 1..] == s[1..];
    }

    /**
      The owner of a live block may write anything over the two words at its start: the lists do
      not depend on them.
     */
    method Scribble(p: nat, n: Node, v: Node)
      requires Valid() && !Listed(lists, p)
      modifies this
      ensures Valid() && lists == old(lists)
    {
      next := next[At(p) := n];
      prev := prev[At(p) := v];
      forall j | 0 <= j < |lists|
        ensures Ring(next, prev, j, lists[j])
      {
        RingFrame(old(next), old(prev), next, prev, j, lists[j]);
      }
    }
  }

  lemma PushRings(next: map<Node, Node>, prev: map<Node, Node>, next': map<Node, Node>, prev': map<Node, Node>,
                  lists: seq<seq<nat>>, k: nat, p: nat)
    requires NoRepeats(lists) && forall j :: 0 <= j < |lists| ==> Ring(next, prev, j, lists[j])
    requires k < |lists| && !Listed(lists, p) && Head(k) in next
    requires next' == next[At(p) := next[Head(k)]][Head(k) := At(p)]
    requires prev' == prev[At(p) := Head(k)][next[Head(k)] := At(p)]
    ensures var after := lists[k := [p] + lists[k]];
      NoRepeats(after) && forall j :: 0 <= j < |after| ==> Ring(next', prev', j, after[j])
  {
    var s := lists[k];
    var s' := [p] + s;
    var after := lists[k := s'];
    forall j | 0 <= j < |after|
      ensures Ring(next', prev', j, after[j])
    {
      if j != k {
        assert LinkedAt(next, prev, k, s, 0);
        RingFrame(next, prev, next', prev', j, lists[j]);
      } else {
        forall i | 0 <= i <= |s'|
          ensures LinkedAt(next', prev', k, s', i)
        {
          assert LinkedAt(next, prev, k, s, 0);
          if i > 0 {
            assert LinkedAt(next, prev, k, s, i - 1);
            assert Spot(k, s', i + 1) == Spot(k, s, i);
          }
        }
      }
    }
    forall a, b, c, d | 0 <= a < |after| && 0 <= b < |after[a]| && 0 <= c < |after| && 0 <= d < |after[c]| &&
                        after[a][b] == after[c][d]
      ensures a == c && b == d
    {
      var x := if a == k then b - 1 else b;
      var y := if c == k then d - 1 else d;
      assert x >= 0 ==> lists[a][x] == after[a][b];
      assert y >= 0 ==> lists[c][y] == after[c][d];
    }
  }

  lemma RemoveRings(next: map<Node, Node>, prev: map<Node, Node>, next': map<Node, Node>, prev': map<Node, Node>,
                    lists: seq<seq<nat>>, k: nat, i: nat)
    requires NoRepeats(lists) && forall j :: 0 <= j < |lists| ==> Ring(next, prev, j, lists[j])
    requires k < |lists| && i < |lists[k]|
    requires next' == next[Spot(k, lists[k], i) := Spot(k, lists[k], i + 2)]
    requires prev' == prev[Spot(k, lists[k], i + 2) := Spot(k, lists[k], i)]
    ensures var after := lists[k := lists[k][..i] + lists[k][i + 1..]];
      NoRepeats(after) && forall j :: 0 <= j < |after| ==> Ring(next', prev', j, after[j])
  {
    var s := lists[k];
    var s' := s[..i] + s[i + 1..];
    var after := lists[k := s'];
    forall j | 0 <= j < |after|
      ensures Ring(next', prev', j, after[j])
    {
      if j != k {
        RingFrame(next, prev, next', prev', j, lists[j]);
      } else {
        forall x | 0 <= x <= |s'|
          ensures LinkedAt(next', prev', k, s', x)
        {
          var y := if x <= i then x else x + 1;
          assert LinkedAt(next, prev, k, s, y);
          assert LinkedAt(next, prev, k, s, i + 1);
          assert Spot(k, s', x) == Spot(k, s, y);
          assert Spot(k, s', x + 1) == Spot(k, s, if x < i then x + 1 else x + 2);
        }
      }
    }
    forall a, b, c, d | 0 <= a < |after| && 0 <= b < |after[a]| && 0 <= c < |after| && 0 <= d < |after[c]| &&
                        after[a][b] == after[c][d]
      ensures a == c && b == d
    {
      var x := if a == k && b >= i then b + 1 else b;
      var y := if c == k && d >= i then d + 1 else d;
      assert lists[a][x] == after[a][b];
      assert lists[c][y] == after[c][d];
    }
  }
}
