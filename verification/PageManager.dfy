/**
  The page allocator of Kernel/memory_management/memory_manager.c: first fit over an array of page
  records, with a search that skips, a cached lowest free index and a cached count of free pages.
 */
module PageManager {

  const BLOCK_SIZE := 0x1000
  const UINT32_LIMIT := 0x1_0000_0000

  /** A page record: its status, and the length of the run it heads (0 when it heads none). */
  datatype Page = Page(used: bool, run: nat)

  const FREE_PAGE := Page(false, 0)

  /** The pages [s, s + b) exist and are all free. */
  predicate Fits(pages: seq<Page>, s: nat, b: nat) {
    s + b <= |pages| && forall i | s <= i < s + b :: !pages[i].used
  }

  /** Page i lies in the run headed by h. */
  predicate InRun(pages: seq<Page>, h: nat, i: nat)
    requires h < |pages|
  {
    h <= i < h + pages[h].run
  }

  /**
    The used pages are exactly the disjoint union of the runs: a run fits in memory, all of it is used
    and only its first page heads a run, and every used page is in some run.
   */
  ghost predicate RunsOk(pages: seq<Page>) {
    && (forall h | 0 <= h < |pages| :: h + pages[h].run <= |pages|)
    && (forall h, i {:trigger InRun(pages, h, i)} | 0 <= h < |pages| && 0 <= i < |pages| && InRun(pages, h, i) ::
          pages[i].used && (i != h ==> pages[i].run == 0))
    && (forall i | 0 <= i < |pages| && pages[i].used :: exists h :: 0 <= h < |pages| && InRun(pages, h, i))
  }

  ghost function FreeCount(pages: seq<Page>): nat {
    if pages == [] then 0 else FreeCount(pages[..|pages| - 1]) + if pages[|pages| - 1].used then 0 else 1
  }

  /** first_free_index is the lowest free page whenever there is one; below it no page is ever free. */
  ghost predicate LowestFree(pages: seq<Page>, first: nat) {
    && first < |pages|
    && (forall i | 0 <= i < first :: pages[i].used)
    && ((exists i :: 0 <= i < |pages| && !pages[i].used) ==> !pages[first].used)
  }

  // ---- Changing a stretch of pages ----

  /** pages with [s, s + b) replaced by run records: a head and its tail, or free pages. */
  function Occupied(pages: seq<Page>, s: nat, b: nat): (r: seq<Page>)
    requires s + b <= |pages|
    ensures |r| == |pages|
  {
    seq(|pages|, i requires 0 <= i < |pages| =>
      if i == s && b > 0 then Page(true, b) else if s <= i < s + b then Page(true, pages[i].run) else pages[i])
  }

  function Vacated(pages: seq<Page>, s: nat, b: nat): (r: seq<Page>)
    requires s + b <= |pages|
    ensures |r| == |pages|
  {
    seq(|pages|, i requires 0 <= i < |pages| => if s <= i < s + b then FREE_PAGE else pages[i])
  }

  lemma {:induction false} CountChange(before: seq<Page>, after: seq<Page>, s: nat, b: nat)
    requires |before| == |after| && s + b <= |before|
    requires forall i | s <= i < s + b :: before[i].used != after[i].used && before[i].used == before[s].used
    requires forall i | 0 <= i < |before| && !(s <= i < s + b) :: before[i].used == after[i].used
    ensures b > 0 && before[s].used ==> FreeCount(after) == FreeCount(before) + b
    ensures b > 0 && !before[s].used ==> FreeCount(after) + b == FreeCount(before)
    ensures b == 0 ==> FreeCount(after) == FreeCount(before)
    decreases |before|
  {
    var n := |before|;
    if n > 0 {
      var inside := s + b == n && b > 0;
      var first, last := before[..n - 1], after[..n - 1];
      assert forall i | 0 <= i < n - 1 :: first[i] == before[i] && last[i] == after[i];
      CountChange(first, last, if s < n then s else 0, if inside then b - 1 else b);
    }
  }

  lemma {:induction false} CountAtLeast(pages: seq<Page>, s: nat, b: nat)
    requires Fits(pages, s, b)
    ensures FreeCount(pages) >= b
    decreases |pages|
  {
    if b > 0 {
      var n := |pages|;
      if s + b == n {
        CountAtLeast(pages[..n - 1], s, b - 1);
      } else {
        CountAtLeast(pages[..n - 1], s, b);
      }
    }
  }

  /** A free page heads no run. */
  lemma FreeHeadsNothing(pages: seq<Page>, i: nat)
    requires RunsOk(pages) && i < |pages| && !pages[i].used
    ensures pages[i] == FREE_PAGE
  {
    assert InRun(pages, i, i) <==> pages[i].run > 0;
  }

  lemma OccupiedOk(pages: seq<Page>, s: nat, b: nat)
    requires RunsOk(pages) && Fits(pages, s, b) && b > 0
    ensures RunsOk(Occupied(pages, s, b)) && FreeCount(Occupied(pages, s, b)) == FreeCount(pages) - b
    ensures Occupied(pages, s, b)[s] == Page(true, b) && (forall i | s < i < s + b :: Occupied(pages, s, b)[i] == Page(true, 0))
    ensures forall i | 0 <= i < |pages| && !(s <= i < s + b) :: Occupied(pages, s, b)[i] == pages[i]
  {
    hide RunsOk, FreeCount;
    OccupiedRuns(pages, s, b);
    var after := Occupied(pages, s, b);
    assert forall i | s <= i < s + b :: !pages[i].used && after[i].used;
    CountChange(pages, after, s, b);
  }

  lemma OccupiedRuns(pages: seq<Page>, s: nat, b: nat)
    requires RunsOk(pages) && Fits(pages, s, b) && b > 0
    ensures RunsOk(Occupied(pages, s, b)) && forall i | s < i < s + b :: Occupied(pages, s, b)[i] == Page(true, 0)
  {
    var after := Occupied(pages, s, b);
    forall i | s <= i < s + b
      ensures pages[i] == FREE_PAGE
    {
      FreeHeadsNothing(pages, i);
    }
    forall h, i | 0 <= h < |after| && 0 <= i < |after| && InRun(after, h, i)
      ensures after[i].used && (i != h ==> after[i].run == 0)
    {
      if h != s {
        assert InRun(pages, h, i);
      }
    }
    forall i | 0 <= i < |after| && after[i].used
      ensures exists h :: 0 <= h < |after| && InRun(after, h, i)
    {
      if s <= i < s + b {
        assert InRun(after, s, i);
      } else {
        var h :| 0 <= h < |pages| && InRun(pages, h, i);
        assert InRun(after, h, i);
      }
    }
  }

  /** Every page of a run is used, so freeing the run adds its length to the free count. */
  lemma VacatedCount(pages: seq<Page>, s: nat)
    requires RunsOk(pages) && s < |pages|
    ensures s + pages[s].run <= |pages|
    ensures FreeCount(Vacated(pages, s, pages[s].run)) == FreeCount(pages) + pages[s].run
  {
    var b := pages[s].run;
    forall i | s <= i < s + b
      ensures pages[i].used
    {
      assert InRun(pages, s, i);
    }
    CountChange(pages, Vacated(pages, s, b), s, b);
  }

  /** What is in a run after one run is vacated was in that run before, and is still used. */
  lemma KeptInRun(pages: seq<Page>, s: nat, h: nat, i: nat)
    requires RunsOk(pages) && s < |pages| && h < |pages| && i < |pages| && s + pages[s].run <= |pages|
    requires InRun(Vacated(pages, s, pages[s].run), h, i)
    ensures var page := Vacated(pages, s, pages[s].run)[i]; page.used && (i != h ==> page.run == 0)
  {
    assert InRun(pages, h, i);
    if InRun(pages, s, i) {
      RunsApart(pages, s, h, i);
    }
  }

  /** A page still used keeps its run. */
  lemma StillInRun(pages: seq<Page>, s: nat, i: nat) returns (h: nat)
    requires RunsOk(pages) && s < |pages| && i < |pages| && s + pages[s].run <= |pages|
    requires Vacated(pages, s, pages[s].run)[i].used
    ensures h < |pages| && InRun(Vacated(pages, s, pages[s].run), h, i)
  {
    h :| h < |pages| && InRun(pages, h, i);
    if InRun(pages, s, h) {
      RunsApart(pages, s, h, h);
    }
  }

  lemma VacatedOk(pages: seq<Page>, s: nat)
    requires RunsOk(pages) && s < |pages| && pages[s].run > 0
    ensures s + pages[s].run <= |pages|
    ensures RunsOk(Vacated(pages, s, pages[s].run))
    ensures FreeCount(Vacated(pages, s, pages[s].run)) == FreeCount(pages) + pages[s].run
    ensures forall i | 0 <= i < |pages| ::
      Vacated(pages, s, pages[s].run)[i] == if InRun(pages, s, i) then Page(false, 0) else pages[i]
  {
    VacatedCount(pages, s);
    var after := Vacated(pages, s, pages[s].run);
    assert forall h | 0 <= h < |after| :: h + after[h].run <= |after|;
    hide FreeCount, Vacated, InRun;
    forall h, i | 0 <= h < |after| && 0 <= i < |after| && InRun(after, h, i)
      ensures after[i].used && (i != h ==> after[i].run == 0)
    {
      KeptInRun(pages, s, h, i);
    }
    forall i | 0 <= i < |after| && after[i].used
      ensures exists h :: 0 <= h < |after| && InRun(after, h, i)
    {
      var h := StillInRun(pages, s, i);
    }
  }

  /** No page is in two runs. */
  lemma RunsApart(pages: seq<Page>, g: nat, h: nat, i: nat)
    requires RunsOk(pages) && g < |pages| && h < |pages| && i < |pages|
    requires InRun(pages, g, i) && InRun(pages, h, i)
    ensures g == h
  {
    assert g < h ==> InRun(pages, g, h);
    assert h < g ==> InRun(pages, h, g);
  }

  /** Freeing a run that was just allocated brings back every page record. */
  lemma VacateUndoesOccupy(pages: seq<Page>, s: nat, b: nat)
    requires RunsOk(pages) && Fits(pages, s, b) && b > 0
    ensures Vacated(Occupied(pages, s, b), s, b) == pages
  {
    forall i | s <= i < s + b
      ensures pages[i] == FREE_PAGE
    {
      FreeHeadsNothing(pages, i);
    }
  }

  /** While some page is free, the cached index is determined by the pages. */
  lemma LowestFreeUnique(pages: seq<Page>, i: nat, j: nat)
    requires LowestFree(pages, i) && LowestFree(pages, j) && exists k :: 0 <= k < |pages| && !pages[k].used
    ensures i == j
  {
  }

  // ---- memory_manager.c as it runs ----

  /** An alloc and the free of what it returned leave the pages and both cached numbers as they were. */
  lemma FreeUndoesAlloc(pages: seq<Page>, first: nat, s: nat, b: nat, after: seq<Page>, last: nat)
    requires RunsOk(pages) && LowestFree(pages, first) && Fits(pages, s, b) && b > 0
    requires var taken := Occupied(pages, s, b); after == Vacated(taken, s, taken[s].run)
    requires LowestFree(after, last)
    ensures after == pages && last == first && FreeCount(after) == FreeCount(pages)
  {
    VacateUndoesOccupy(pages, s, b);
    assert !pages[s].used;
    LowestFreeUnique(pages, first, last);
  }

  datatype Address = Null | At(address: nat)

  const MEMORY_START := 0x0050_0000

  /** The pages a request of `size` bytes takes. */
  function PagesFor(size: nat): nat { (size + BLOCK_SIZE - 1) / BLOCK_SIZE }

  const UINT64_LIMIT := 0x1_0000_0000_0000_0000

  /** The pages alloc counts: the sum wraps at 64 bits, and the quotient is narrowed to 32. */
  function PagesCounted(size: nat): nat {
    (size + BLOCK_SIZE - 1) % UINT64_LIMIT / BLOCK_SIZE % UINT32_LIMIT
  }

  /** The counted pages hold the request exactly when the pages it takes fit in 32 bits; then none are too many. */
  lemma CountExact(size: nat)
    requires 0 < size < UINT64_LIMIT
    ensures PagesCounted(size) * BLOCK_SIZE >= size <==> PagesFor(size) < UINT32_LIMIT
    ensures PagesFor(size) < UINT32_LIMIT ==> PagesCounted(size) == PagesFor(size) > 0
    ensures (PagesFor(size) - 1) * BLOCK_SIZE < size <= PagesFor(size) * BLOCK_SIZE
  {
    var sum, n := size + BLOCK_SIZE - 1, PagesFor(size);
    assert n * BLOCK_SIZE <= sum < n * BLOCK_SIZE + BLOCK_SIZE;
    assert PagesCounted(size) < UINT32_LIMIT;
    if n < UINT32_LIMIT {
      assert sum < UINT64_LIMIT;
    } else {
      assert size > (UINT32_LIMIT - 1) * BLOCK_SIZE;
    }
  }

  /** A request of 2^44 bytes counts as no page at all. */
  lemma CountNothing()
    ensures PagesCounted(0x1000_0000_0000) == 0 && PagesFor(0x1000_0000_0000) == UINT32_LIMIT
  {
  }

  /** When no page is counted, the lowest free page is marked as used without a length. */
  function Marked(pages: seq<Page>, s: nat): seq<Page>
    requires s < |pages|
  {
    pages[s := Page(true, 0)]
  }

  /** That page is then in no run, so no address frees it, and the free count is one too high. */
  lemma MarkedBreaks(pages: seq<Page>, s: nat)
    requires RunsOk(pages) && s < |pages| && !pages[s].used
    ensures !RunsOk(Marked(pages, s)) && FreeCount(Marked(pages, s)) == FreeCount(pages) - 1
    ensures forall h | 0 <= h < |pages| :: !InRun(Marked(pages, s), h, s)
    ensures forall i | 0 <= i < |pages| && i != s :: Marked(pages, s)[i] == pages[i]
  {
    var after := Marked(pages, s);
    CountChange(pages, after, s, 1);
    forall h | 0 <= h < |pages|
      ensures !InRun(after, h, s)
    {
      if h != s {
        assert InRun(after, h, s) <==> InRun(pages, h, s);
      }
    }
    assert after[s].used;
  }

  /** A request of 2^44 bytes and one page is given a single page. */
  lemma CountTooSmall()
    ensures PagesCounted(0x1000_0000_1000) == 1 && PagesFor(0x1000_0000_1000) == UINT32_LIMIT + 1
  {
  }

  class PageAllocator {
    const blocks: array<Page>
    var first: nat
    var freeBlocks: nat

    ghost function Pages(): seq<Page>
      reads blocks
    {
      blocks[..]
    }

    ghost predicate Valid()
      reads this, blocks
    {
      && 0 < blocks.Length && blocks.Length * BLOCK_SIZE <= UINT32_LIMIT
      && RunsOk(Pages()) && freeBlocks == FreeCount(Pages()) && LowestFree(Pages(), first)
    }

    constructor (total: nat)
      requires 0 < total && total * BLOCK_SIZE <= UINT32_LIMIT
      ensures Valid() && fresh(blocks) && Pages() == seq(total, _ => FREE_PAGE) && first == 0 && freeBlocks == total
    {
      blocks := new Page[total](_ => FREE_PAGE);
      first := 0;
      freeBlocks := total;
      new;
      assert blocks[..] == seq(total, _ => FREE_PAGE);
      AllFree(total);
    }

    /** reset_first_free_index */
    method ResetFirst()
      requires first < blocks.Length
      modifies this`first
      ensures LowestFree(Pages(), first)
    {
      var found := false;
      var i := 0;
      while i < blocks.Length && !found
        invariant 0 <= i <= blocks.Length
        invariant !found ==> first == old(first) && forall j | 0 <= j < i :: blocks[j].used
        invariant found ==> first < i && !blocks[first].used && forall j | 0 <= j < first :: blocks[j].used
      {
        if !blocks[i].used {
          first := i;
          found := true;
        }
        i := i + 1;
      }
    }

    /**
      The search of alloc: the lowest start from which b pages are free. When a used page is met inside
      a candidate stretch, the search goes on after that page. For b == 0 the bound of the loop lets it
      go one past the last page: it takes the first free page, and when there is none it reads `outside`.
     */
    method FindRun(b: nat) returns (found: bool, start: nat, outside: bool)
      requires Valid() && b <= blocks.Length
      ensures found ==> start < blocks.Length && !blocks[start].used && Fits(Pages(), start, b)
      ensures found && b > 0 ==> forall s | 0 <= s < start :: !Fits(Pages(), s, b)
      ensures found && b == 0 ==> LowestFree(Pages(), start)
      ensures !found && b > 0 ==> forall s: nat :: !Fits(Pages(), s, b)
      ensures outside <==> b == 0 && forall i | 0 <= i < blocks.Length :: blocks[i].used
      ensures b == 0 ==> (found <==> !outside)
    {
      start := first;
      found, outside := false, false;
      if b > 0 {
        NothingBelow(Pages(), first, b);
      }
      while start <= blocks.Length - b
        invariant b > 0 ==> forall s | 0 <= s < start :: !Fits(Pages(), s, b)
        invariant b == 0 ==> start <= blocks.Length && forall i | 0 <= i < start :: blocks[i].used
        decreases blocks.Length - start
      {
        found := false;
        if start == blocks.Length {
          outside := true;
          return;
        }
        if !blocks[start].used {
          found := true;
          ghost var from := start;
          var i := 1;
          while i < b && found
            invariant 1 <= i && (b > 0 ==> i <= b) && (b == 0 ==> i == 1)
            invariant b == 0 ==> found
            invariant found ==> start == from && forall j | from <= j < from + i :: !blocks[j].used
            invariant !found ==> from < start < from + b && blocks[start].used
            decreases b - i
          {
            if blocks[start + i].used {
              found := false;
              start := start + i;
            }
            i := i + 1;
          }
          assert forall s | from <= s <= start :: !found ==> !Fits(Pages(), s, b);
        }
        if found {
          return;
        }
        start := start + 1;
      }
      found := false;
    }

    /**
      alloc, for every 64-bit size. Requests whose counted pages wrap to 0 are the ones that break the
      representation: the lowest free page is marked without a length and stays in the free count, and
      when no page is free the search reads past the records, after which nothing is said.
     */
    method Alloc(size: nat) returns (r: Address, outside: bool)
      requires Valid() && size < UINT64_LIMIT
      modifies this, blocks
      ensures outside <==> size > 0 && PagesCounted(size) == 0 && forall i | 0 <= i < blocks.Length :: old(Pages())[i].used
      ensures !outside ==> (Valid() <==> size == 0 || PagesCounted(size) > 0)
      ensures r == Null <==> size == 0 || outside || (PagesCounted(size) > 0 && forall s: nat :: !Fits(old(Pages()), s, PagesCounted(size)))
      ensures !r.At? ==> Pages() == old(Pages()) && first == old(first) && freeBlocks == old(freeBlocks)
      ensures r.At? && PagesCounted(size) > 0 ==> exists s: nat ::
        && r.address == MEMORY_START + s * BLOCK_SIZE
        && Fits(old(Pages()), s, PagesCounted(size)) && (forall t | 0 <= t < s :: !Fits(old(Pages()), t, PagesCounted(size)))
        && Pages() == Occupied(old(Pages()), s, PagesCounted(size))
      ensures r.At? && PagesCounted(size) == 0 ==> exists s: nat ::
        && r.address == MEMORY_START + s * BLOCK_SIZE
        && LowestFree(old(Pages()), s) && !old(Pages())[s].used
        && Pages() == Marked(old(Pages()), s) && freeBlocks == old(freeBlocks)
    {
      r, outside := Null, false;
      if size <= 0 {
        return;
      }
      var b := PagesCounted(size);
      if b > freeBlocks {
        TooFew(Pages(), b);
        return;
      }
      CountBound(Pages());
      var found, start;
      found, start, outside := FindRun(b);
      if !found {
        return;
      }
      r := At(MEMORY_START + start * BLOCK_SIZE);
      if b > 0 {
        OccupiedOk(Pages(), start, b);
      } else {
        MarkedBreaks(Pages(), start);
      }
      Occupy(start, b);
      if blocks[first].used {
        ResetFirst();
      }
      freeBlocks := freeBlocks - b;
    }

    method Occupy(start: nat, b: nat)
      requires start < blocks.Length && start + b <= blocks.Length
      modifies blocks
      ensures Pages() == if b == 0 then Marked(old(Pages()), start) else Occupied(old(Pages()), start, b)
    {
      blocks[start] := Page(true, b);
      var j := 1;
      while j < b
        invariant 1 <= j && (b > 0 ==> j <= b) && (b == 0 ==> j == 1)
        invariant forall i | 0 <= i < blocks.Length :: i == start ==> blocks[i] == Page(true, b)
        invariant forall i | start < i < start + j :: blocks[i] == Page(true, old(blocks[i]).run)
        invariant forall i | 0 <= i < blocks.Length && !(start <= i < start + j) :: blocks[i] == old(blocks[i])
      {
        blocks[start + j] := Page(true, blocks[start + j].run);
        j := j + 1;
      }
    }

    method Vacate(index: nat, count: nat)
      requires index + count <= blocks.Length
      modifies blocks
      ensures Pages() == Vacated(old(Pages()), index, count)
    {
      for i := index to count + index
        invariant forall j | 0 <= j < blocks.Length :: blocks[j] == if index <= j < i then FREE_PAGE else old(blocks[j])
      {
        blocks[i] := FREE_PAGE;
      }
    }

    /** free: the run headed by the page that holds the address, or nothing when that page heads none. */
    method Free(address: Address)
      requires Valid()
      requires address.At? ==> MEMORY_START <= address.address < MEMORY_START + blocks.Length * BLOCK_SIZE
      modifies this, blocks
      ensures Valid()
      ensures address == Null ==> Pages() == old(Pages())
      ensures address.At? ==> var i := (address.address - MEMORY_START) / BLOCK_SIZE;
        0 <= i < blocks.Length &&
        if old(Pages())[i].run == 0 then Pages() == old(Pages()) && first == old(first)
        else i + old(Pages())[i].run <= blocks.Length && Pages() == Vacated(old(Pages()), i, old(Pages())[i].run)
    {
      if address == Null {
        return;
      }
      var index := ((address.address - MEMORY_START) % UINT32_LIMIT) / BLOCK_SIZE;
      var count := blocks[index].run;
      if count == 0 {
        return;
      }
      VacatedOk(Pages(), index);
      Vacate(index, count);
      ResetFirst();
      freeBlocks := freeBlocks + count;
    }
  }

  lemma {:induction false} AllFree(n: nat)
    ensures RunsOk(seq(n, _ => FREE_PAGE)) && FreeCount(seq(n, _ => FREE_PAGE)) == n
    decreases n
  {
    if n > 0 {
      AllFree(n - 1);
      assert seq(n, _ => FREE_PAGE)[..n - 1] == seq(n - 1, _ => FREE_PAGE);
    }
  }

  lemma NothingBelow(pages: seq<Page>, first: nat, b: nat)
    requires LowestFree(pages, first) && b > 0
    ensures forall s | 0 <= s < first :: !Fits(pages, s, b)
  {
    forall s | 0 <= s < first
      ensures !Fits(pages, s, b)
    {
      assert pages[s].used;
    }
  }

  lemma TooFew(pages: seq<Page>, b: nat)
    requires b > FreeCount(pages)
    ensures forall s: nat :: !Fits(pages, s, b)
  {
    forall s: nat
      ensures !Fits(pages, s, b)
    {
      if Fits(pages, s, b) {
        CountAtLeast(pages, s, b);
      }
    }
  }

  lemma {:induction false} CountBound(pages: seq<Page>)
    ensures FreeCount(pages) <= |pages|
    decreases |pages|
  {
    if pages != [] {
      CountBound(pages[..|pages| - 1]);
    }
  }
}
