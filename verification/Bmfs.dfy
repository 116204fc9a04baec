/**
  Contiguous allocation of files on a BMFS disk, from Bootloader/BMFS/bmfs.c: the directory of 64
  records, and `create`, which sorts a copy of it and scans the gaps between the files.
 */
module Bmfs {

  const MAX_ENTRIES := 64
  const UINT64_LIMIT := 0x1_0000_0000_0000_0000

  /** A directory record. An empty name is a record whose first byte is 0x00: the end of the directory. */
  datatype Entry = Entry(name: string, start: int, reserved: int, size: int)

  const END := Entry("", 0, 0, 0)

  /** A name that fits the 32-byte field and is neither the end mark nor the deleted mark. */
  predicate NameOk(name: string) {
    0 < |name| < 32 && name[0] as int != 1 && forall i | 0 <= i < |name| :: name[i] as int != 0
  }

  function End(e: Entry): int { e.start + e.reserved }

  predicate Apart(a: int, la: int, b: int, lb: int) { a + la <= b || b + lb <= a }

  /** A file's extent lies between the first and the last block of the disk, both reserved. */
  predicate ExtentOk(e: Entry, numBlocks: int) {
    1 <= e.start && 1 <= e.reserved && End(e) <= numBlocks - 1
  }

  /** Extents are inside the data area and pairwise disjoint; names are proper and distinct. */
  ghost predicate FilesOk(files: seq<Entry>, numBlocks: int) {
    && (forall i | 0 <= i < |files| :: ExtentOk(files[i], numBlocks) && NameOk(files[i].name))
    && (forall i, j | 0 <= i < j < |files| ::
          Apart(files[i].start, files[i].reserved, files[j].start, files[j].reserved) && files[i].name != files[j].name)
  }

  /** The records before the first end mark, in a directory where nothing was deleted. */
  ghost predicate DirOk(dir: seq<Entry>, n: int, numBlocks: int) {
    && |dir| == MAX_ENTRIES && 0 <= n <= MAX_ENTRIES
    && FilesOk(dir[..n], numBlocks) && forall i | n <= i < MAX_ENTRIES :: dir[i].name == ""
  }

  /** A deleted record begins with 0x01. */
  predicate Deleted(e: Entry) { e.name != "" && e.name[0] as int == 1 }

  /** There are n records, in use or deleted, before the end of the directory. */
  ghost predicate Ended(dir: seq<Entry>, n: int) {
    && |dir| == MAX_ENTRIES && 0 <= n <= MAX_ENTRIES
    && (forall i | 0 <= i < n :: dir[i].name != "") && (n < MAX_ENTRIES ==> dir[n].name == "")
  }

  lemma DirEnded(dir: seq<Entry>, n: int, numBlocks: int)
    requires DirOk(dir, n, numBlocks)
    ensures Ended(dir, n) && forall i | 0 <= i < n :: !Deleted(dir[i])
  {
    assert forall i | 0 <= i < n :: dir[..n][i] == dir[i];
  }

  /** b blocks from s on are data blocks that no file reserves. */
  ghost predicate Gap(files: seq<Entry>, numBlocks: int, s: int, b: int) {
    && 1 <= s && s + b <= numBlocks - 1
    && forall e | e in files :: Apart(s, b, e.start, e.reserved)
  }

  /** StartingBlockCmp for records that are not deleted: the difference, which fits an int. */
  function StartingBlockCmp(a: Entry, b: Entry): int { a.start - b.start }

  /** What qsort is relied on for. */
  ghost predicate SortedCopy(files: seq<Entry>, sorted: seq<Entry>) {
    && multiset(sorted) == multiset(files)
    && forall i, j | 0 <= i < j < |sorted| :: StartingBlockCmp(sorted[i], sorted[j]) <= 0
  }

  // ---- Sorted files ----

  lemma SortedLength(files: seq<Entry>, sorted: seq<Entry>)
    requires multiset(sorted) == multiset(files)
    ensures |sorted| == |files|
    ensures forall e :: e in sorted <==> e in files
  {
    assert |multiset(sorted)| == |sorted| && |multiset(files)| == |files|;
    assert forall e :: e in sorted <==> e in multiset(sorted);
    assert forall e :: e in files <==> e in multiset(files);
  }

  /** In the sorted copy each file ends before the next one starts. */
  lemma SortedInOrder(files: seq<Entry>, sorted: seq<Entry>, numBlocks: int, i: int, j: int)
    requires FilesOk(files, numBlocks) && SortedCopy(files, sorted) && 0 <= i < j < |sorted|
    ensures End(sorted[i]) <= sorted[j].start && ExtentOk(sorted[i], numBlocks) && ExtentOk(sorted[j], numBlocks)
  {
    SortedLength(files, sorted);
    var a, b := sorted[i], sorted[j];
    assert a in sorted && b in sorted;
    var x :| 0 <= x < |files| && files[x] == a;
    var y :| 0 <= y < |files| && files[y] == b;
    if x == y {
      Once(files, x, numBlocks);
      assert multiset(sorted)[a] >= 2 by {
        TwoPlaces(sorted, i, j);
      }
    }
    assert StartingBlockCmp(a, b) <= 0;
  }

  lemma OnlyHere(files: seq<Entry>, x: int, numBlocks: int)
    requires FilesOk(files, numBlocks) && 0 <= x < |files|
    ensures files[x] !in files[..x] && files[x] !in files[x + 1..]
  {
    forall y | 0 <= y < |files| && y != x
      ensures files[y] != files[x]
    {
      assert files[if x < y then x else y].name != files[if x < y then y else x].name;
    }
  }

  /** A file's record occurs once in the directory, because its name does. */
  lemma Once(files: seq<Entry>, x: int, numBlocks: int)
    requires FilesOk(files, numBlocks) && 0 <= x < |files|
    ensures multiset(files)[files[x]] == 1
  {
    OnlyHere(files, x, numBlocks);
    hide FilesOk;
    var e := files[x];
    assert files == files[..x] + [e] + files[x + 1..];
    assert multiset(files[..x])[e] == 0 && multiset(files[x + 1..])[e] == 0;
  }

  lemma TwoPlaces(s: seq<Entry>, i: int, j: int)
    requires 0 <= i < j < |s| && s[i] == s[j]
    ensures multiset(s)[s[i]] >= 2
  {
    assert s == s[..i] + [s[i]] + s[i + 1..j] + [s[j]] + s[j + 1..];
  }

  // ---- Scanning the gaps ----

  /** Gap t of the sorted files begins here: after file t - 1, or at block 1. */
  function PrevEnd(sorted: seq<Entry>, t: int): int
    requires 0 <= t <= |sorted|
  {
    if t == 0 then 1 else End(sorted[t - 1])
  }

  /** Gap t ends here: at file t, or at the last block of the disk. */
  function ThisStart(sorted: seq<Entry>, numBlocks: int, t: int): int
    requires 0 <= t <= |sorted|
  {
    if t == |sorted| then numBlocks - 1 else sorted[t].start
  }

  ghost predicate TooSmall(sorted: seq<Entry>, numBlocks: int, b: int, t: int)
    requires 0 <= t <= |sorted|
  {
    ThisStart(sorted, numBlocks, t) - PrevEnd(sorted, t) < b
  }

  /** Gaps never have negative length, so the unsigned subtraction does not wrap. */
  lemma GapLength(files: seq<Entry>, sorted: seq<Entry>, numBlocks: int, t: int)
    requires FilesOk(files, numBlocks) && SortedCopy(files, sorted) && numBlocks >= 2 && 0 <= t <= |sorted|
    ensures 1 <= PrevEnd(sorted, t) <= ThisStart(sorted, numBlocks, t) <= numBlocks - 1
  {
    SortedLength(files, sorted);
    if 0 < t {
      assert sorted[t - 1] in sorted;
      if t < |sorted| {
        SortedInOrder(files, sorted, numBlocks, t - 1, t);
      }
    }
    if t < |sorted| {
      assert sorted[t] in sorted;
    }
  }

  /** A gap that is long enough has room at its beginning. */
  lemma RoomAt(files: seq<Entry>, sorted: seq<Entry>, numBlocks: int, b: int, t: int)
    requires FilesOk(files, numBlocks) && SortedCopy(files, sorted) && numBlocks >= 2 && 0 <= t <= |sorted|
    requires !TooSmall(sorted, numBlocks, b, t)
    ensures Gap(files, numBlocks, PrevEnd(sorted, t), b)
  {
    SortedLength(files, sorted);
    GapLength(files, sorted, numBlocks, t);
    forall e | e in files
      ensures Apart(PrevEnd(sorted, t), b, e.start, e.reserved)
    {
      assert e in sorted;
      var k :| 0 <= k < |sorted| && sorted[k] == e;
      if k < t - 1 {
        SortedInOrder(files, sorted, numBlocks, k, t - 1);
      } else if k > t {
        SortedInOrder(files, sorted, numBlocks, t, k);
      }
    }
  }

  /** While every gap before t is too small, nothing fits before gap t. */
  lemma {:induction false} NothingBefore(files: seq<Entry>, sorted: seq<Entry>, numBlocks: int, b: int, t: int, s: int)
    requires SortedCopy(files, sorted) && 0 <= t <= |sorted|
    requires forall k | 0 <= k < t :: TooSmall(sorted, numBlocks, b, k)
    requires Gap(files, numBlocks, s, b)
    ensures s >= PrevEnd(sorted, t)
    decreases t
  {
    if t > 0 {
      SortedLength(files, sorted);
      NothingBefore(files, sorted, numBlocks, b, t - 1, s);
      assert sorted[t - 1] in sorted;
      assert TooSmall(sorted, numBlocks, b, t - 1);
    }
  }

  // ---- The scan ----

  /** The gap scan from record t on, when the last file seen ends at prevEnd. */
  function Scan(sorted: seq<Entry>, numBlocks: int, b: int, t: nat, prevEnd: int): int
    requires t <= |sorted|
    decreases |sorted| - t
  {
    var thisStart := if t == |sorted| || Deleted(sorted[t]) then numBlocks - 1 else sorted[t].start;
    if (thisStart - prevEnd) % UINT64_LIMIT >= b then prevEnd
    else if t == |sorted| then 0
    else Scan(sorted, numBlocks, b, t + 1, End(sorted[t]))
  }

  lemma NoneDeleted(files: seq<Entry>, sorted: seq<Entry>, numBlocks: int)
    requires FilesOk(files, numBlocks) && SortedCopy(files, sorted)
    ensures forall e | e in sorted :: !Deleted(e)
  {
    SortedLength(files, sorted);
    assert forall e | e in files :: NameOk(e.name);
  }

  /** Deleted records that would leave room before the last block. */
  ghost predicate Misleads(dead: seq<Entry>, numBlocks: int, b: int) {
    exists i :: 0 <= i < |dead| && numBlocks - 1 - End(dead[i]) >= b
  }

  lemma MisleadsNext(d: Entry, dead: seq<Entry>, numBlocks: int, b: int)
    requires numBlocks - 1 - End(d) < b
    ensures Misleads([d] + dead, numBlocks, b) <==> Misleads(dead, numBlocks, b)
  {
    var all := [d] + dead;
    if j :| 0 <= j < |all| && numBlocks - 1 - End(all[j]) >= b {
      assert all[j] == dead[j - 1];
    }
    if j :| 0 <= j < |dead| && numBlocks - 1 - End(dead[j]) >= b {
      assert all[j + 1] == dead[j];
    }
  }

  /** Past the files, with no room after the last one, the scan takes the end of a deleted record for a free place. */
  lemma {:induction false} ScanDead(live: seq<Entry>, dead: seq<Entry>, numBlocks: int, b: int, i: nat, prevEnd: int)
    requires i <= |dead| && 1 <= b && numBlocks < 0x8000_0000
    requires (forall e | e in dead :: Deleted(e) && 1 <= End(e) <= numBlocks - 1)
    requires 1 <= prevEnd <= numBlocks - 1 && numBlocks - 1 - prevEnd < b
    ensures var r := Scan(live + dead, numBlocks, b, |live| + i, prevEnd);
      && (r == 0 <==> !Misleads(dead[i..], numBlocks, b))
      && (r != 0 ==> exists j :: i <= j < |dead| && r == End(dead[j]))
    decreases |dead| - i
  {
    if i < |dead| {
      var d := (live + dead)[|live| + i];
      assert d == dead[i] && d in dead;
      assert dead[i..] == [d] + dead[i + 1..];
      if numBlocks - 1 - End(d) >= b {
        assert dead[i..][0] == d;
      } else {
        ScanDead(live, dead, numBlocks, b, i + 1, End(d));
        MisleadsNext(d, dead[i + 1..], numBlocks, b);
      }
    }
  }

  /** The places where b blocks fit, scanning on from gap t when every gap before it is too small. */
  lemma {:induction false} ScanOn(files: seq<Entry>, live: seq<Entry>, dead: seq<Entry>, numBlocks: int, b: int, t: nat)
    requires FilesOk(files, numBlocks) && SortedCopy(files, live) && 2 <= numBlocks < 0x8000_0000 && 1 <= b && t <= |live|
    requires forall e | e in dead :: Deleted(e) && 1 <= End(e) <= numBlocks - 1
    requires forall k | 0 <= k < t :: TooSmall(live, numBlocks, b, k)
    ensures var r := Scan(live + dead, numBlocks, b, t, PrevEnd(live, t));
      && ((exists s :: Gap(files, numBlocks, s, b)) ==> Lowest(files, numBlocks, b, r))
      && (!(exists s :: Gap(files, numBlocks, s, b)) ==> (r == 0 <==> !Misleads(dead, numBlocks, b)))
    decreases |live| - t
  {
    var sorted, p := live + dead, PrevEnd(live, t);
    GapLength(files, live, numBlocks, t);
    NoneDeleted(files, live, numBlocks);
    if t < |live| {
      assert sorted[t] == live[t] && live[t] in live;
    } else if dead != [] {
      assert sorted[t] == dead[0] && dead[0] in dead;
    }
    if !TooSmall(live, numBlocks, b, t) {
      assert Scan(sorted, numBlocks, b, t, p) == p;
      RoomAt(files, live, numBlocks, b, t);
      forall s | Gap(files, numBlocks, s, b)
        ensures s >= p
      {
        NothingBefore(files, live, numBlocks, b, t, s);
      }
    } else if t < |live| {
      ScanOn(files, live, dead, numBlocks, b, t + 1);
    } else {
      forall s
        ensures !Gap(files, numBlocks, s, b)
      {
        if Gap(files, numBlocks, s, b) {
          NothingBefore(files, live, numBlocks, b, t, s);
        }
      }
      ScanDead(live, dead, numBlocks, b, 0, p);
      assert dead[0..] == dead;
    }
  }

  /** The lowest place where b blocks fit. */
  ghost predicate Lowest(files: seq<Entry>, numBlocks: int, b: int, r: int) {
    Gap(files, numBlocks, r, b) && forall s | s < r :: !Gap(files, numBlocks, s, b)
  }

  /** What create needs of the scan: the lowest place where the file fits, or 0 when it fits nowhere. */
  ghost predicate Right(files: seq<Entry>, numBlocks: int, b: int, r: int) {
    if exists s :: Gap(files, numBlocks, s, b) then Lowest(files, numBlocks, b, r) else r == 0
  }

  /**
    The scan is right iff the file fits somewhere or no deleted record ends as many blocks before the
    last block as the file takes.
   */
  lemma ScanExact(files: seq<Entry>, live: seq<Entry>, dead: seq<Entry>, numBlocks: int, b: int)
    requires FilesOk(files, numBlocks) && SortedCopy(files, live) && 2 <= numBlocks < 0x8000_0000 && 1 <= b
    requires forall e | e in dead :: Deleted(e) && 1 <= End(e) <= numBlocks - 1
    ensures Right(files, numBlocks, b, Scan(live + dead, numBlocks, b, 0, 1)) <==>
      (exists s :: Gap(files, numBlocks, s, b)) || !Misleads(dead, numBlocks, b)
  {
    ScanOn(files, live, dead, numBlocks, b, 0);
  }

  /** With nothing deleted the scan is right. */
  lemma ScanFiles(files: seq<Entry>, sorted: seq<Entry>, numBlocks: int, b: int)
    requires FilesOk(files, numBlocks) && SortedCopy(files, sorted) && 2 <= numBlocks < 0x8000_0000 && 1 <= b
    ensures var r := Scan(sorted, numBlocks, b, 0, 1);
      if r == 0 then forall s :: !Gap(files, numBlocks, s, b) else Lowest(files, numBlocks, b, r)
  {
    ScanExact(files, sorted, [], numBlocks, b);
    assert sorted + [] == sorted;
  }

  /** A deleted record for which a new file of 5 blocks is laid over the file in blocks 1 to 4. */
  lemma DeletedMisleads()
    ensures var live, dead := Entry("a", 1, 4, 0), Entry([1 as char, 'b'], 1, 1, 0);
      && FilesOk([live], 10) && Deleted(dead)
      && Scan([live, dead], 10, 5, 0, 1) == 2 && !Gap([live], 10, 2, 5) && Misleads([dead], 10, 5)
  {
    var live, dead := Entry("a", 1, 4, 0), Entry([1 as char, 'b'], 1, 1, 0);
    assert live in [live] && [dead][0] == dead;
    assert Scan([live, dead], 10, 5, 2, 2) == 2;
    assert Scan([live, dead], 10, 5, 1, 5) == 2;
  }

  /** b blocks of 2 MiB hold maxsize MiB, and no fewer do. */
  predicate LeastBlocks(b: int, maxsize: int) {
    2 * b >= maxsize && 2 * (b - 1) < maxsize
  }

  /** What does not fit in b blocks does not fit in more. */
  lemma NoLargerGap(files: seq<Entry>, numBlocks: int, b: int)
    requires forall s :: !Gap(files, numBlocks, s, b)
    ensures forall s, c | c >= b :: !Gap(files, numBlocks, s, c)
  {
    forall s, c | c >= b
      ensures !Gap(files, numBlocks, s, c)
    {
      var smaller := Gap(files, numBlocks, s, b);
    }
  }

  datatype Outcome = Created | AlreadyExists | NoEntry | NoSpace

  class Disk {
    const directory: array<Entry>
    const numBlocks: int

    ghost predicate Valid(n: int)
      reads directory
    {
      2 <= numBlocks < 0x8000_0000 && DirOk(directory[..], n, numBlocks)
    }

    /** The directory part of format, on a disk of numBlocks blocks of 2 MiB. */
    constructor Format(numBlocks: int)
      requires 2 <= numBlocks < 0x8000_0000
      ensures Valid(0) && this.numBlocks == numBlocks && fresh(directory)
    {
      this.numBlocks := numBlocks;
      directory := new Entry[MAX_ENTRIES](_ => END);
    }

    /** findfile, in a directory with n records before its end, some of them perhaps deleted. */
    method FindFile(filename: string, ghost n: int) returns (found: bool)
      requires Ended(directory[..], n) && NameOk(filename)
      ensures found <==> exists i :: 0 <= i < n && directory[i].name == filename
    {
      var i := 0;
      while i < MAX_ENTRIES
        invariant 0 <= i <= n || i == MAX_ENTRIES
        invariant forall j | 0 <= j < i && j < n :: directory[j].name != filename
      {
        if directory[i].name == "" {
          i := MAX_ENTRIES;
        } else {
          if !Deleted(directory[i]) && directory[i].name == filename {
            return true;
          }
          i := i + 1;
        }
      }
      return false;
    }

    /**
      The number of records in use or deleted, and where the new one goes: the first deleted record, or
      the end, or nowhere (-1). When all 64 records are taken the count is left at 0.
     */
    method CountEntries(ghost n: int) returns (used: int, firstFree: int)
      requires Ended(directory[..], n)
      ensures used == if n == MAX_ENTRIES then 0 else n
      ensures firstFree == -1 <==> n == MAX_ENTRIES && forall i | 0 <= i < n :: !Deleted(directory[i])
      ensures firstFree != -1 ==> 0 <= firstFree <= n && firstFree < MAX_ENTRIES
      ensures firstFree != -1 ==> firstFree == n || Deleted(directory[firstFree])
      ensures forall i | 0 <= i < firstFree :: !Deleted(directory[i])
    {
      used, firstFree := 0, -1;
      for i := 0 to MAX_ENTRIES
        invariant i <= n && used == 0
        invariant firstFree == -1 ==> forall j | 0 <= j < i :: !Deleted(directory[j])
        invariant firstFree != -1 ==> 0 <= firstFree < i && Deleted(directory[firstFree])
        invariant forall j | 0 <= j < firstFree :: !Deleted(directory[j])
      {
        if directory[i].name == "" {
          used := i;
          if firstFree == -1 {
            firstFree := i;
          }
          break;
        } else if Deleted(directory[i]) {
          if firstFree == -1 {
            firstFree := i;
          }
        }
      }
    }

    /** The gap scan over a sorted copy of the directory, deleted records last. */
    method FindGap(sorted: seq<Entry>, b: int) returns (start: int)
      ensures start == Scan(sorted, numBlocks, b, 0, 1)
    {
      start := 0;
      var prevEnd := 1;
      var t := 0;
      while t < |sorted| + 1
        invariant 0 <= t <= |sorted| + 1 && start == 0
        invariant Scan(sorted, numBlocks, b, 0, 1) == if t <= |sorted| then Scan(sorted, numBlocks, b, t, prevEnd) else 0
      {
        var thisStart := if t == |sorted| || Deleted(sorted[t]) then numBlocks - 1 else sorted[t].start;
        if (thisStart - prevEnd) % UINT64_LIMIT >= b {
          return prevEnd;
        }
        if t < |sorted| {
          prevEnd := sorted[t].start + sorted[t].reserved;
        }
        t := t + 1;
      }
    }

    /**
      create, for a file of maxsize MiB. `sorted` is what qsort makes of the records in use. A new file
      takes the lowest blocks where it fits, and is refused for lack of space iff it fits nowhere.
     */
    method Create(filename: string, maxsize: nat, sorted: seq<Entry>, ghost n: int) returns (r: Outcome)
      requires Valid(n) && NameOk(filename) && 1 <= maxsize < UINT64_LIMIT - 1 && SortedCopy(directory[..n], sorted)
      modifies directory
      ensures Valid(if r == Created then n + 1 else n)
      ensures r == AlreadyExists <==> exists i :: 0 <= i < n && old(directory[i].name) == filename
      ensures r == NoEntry ==> n == MAX_ENTRIES
      ensures r == NoSpace ==> n < MAX_ENTRIES && forall s, b | 2 * b >= maxsize :: !Gap(old(directory[..n]), numBlocks, s, b)
      ensures r != Created ==> directory[..] == old(directory[..])
      ensures r == Created ==> n < MAX_ENTRIES && var e := directory[n];
        && directory[..n] == old(directory[..n]) && e == Entry(filename, e.start, e.reserved, 0)
        && 2 * e.reserved >= maxsize && 2 * (e.reserved - 1) < maxsize
        && Gap(old(directory[..n]), numBlocks, e.start, e.reserved)
        && forall s | s < e.start :: !Gap(old(directory[..n]), numBlocks, s, e.reserved)
    {
      var rounded := if maxsize % 2 != 0 then maxsize + 1 else maxsize;
      DirEnded(directory[..], n, numBlocks);
      var found := FindFile(filename, n);
      if found {
        return AlreadyExists;
      }
      var blocks := rounded / 2;
      assert LeastBlocks(blocks, maxsize);
      var used, firstFree := CountEntries(n);
      if firstFree == -1 {
        return NoEntry;
      }
      ghost var files := directory[..n];
      hide Scan, Gap;
      ScanFiles(files, sorted, numBlocks, blocks);
      var start := FindGap(sorted, blocks);
      if start == 0 {
        NoLargerGap(files, numBlocks, blocks);
        return NoSpace;
      }
      AddFile(files, Entry(filename, start, blocks, 0), numBlocks);
      directory[firstFree] := Entry(filename, start, blocks, 0);
      if firstFree == used && used + 1 < MAX_ENTRIES {
        directory[used + 1] := directory[used + 1].(name := "");
      }
      assert directory[..n + 1] == files + [Entry(filename, start, blocks, 0)];
      hide FilesOk;
      return Created;
    }
  }

  lemma AddFile(files: seq<Entry>, e: Entry, numBlocks: int)
    requires FilesOk(files, numBlocks) && NameOk(e.name) && e.reserved >= 1
    requires Gap(files, numBlocks, e.start, e.reserved) && forall i | 0 <= i < |files| :: files[i].name != e.name
    ensures FilesOk(files + [e], numBlocks)
  {
    var after := files + [e];
    forall i, j | 0 <= i < j < |after|
      ensures Apart(after[i].start, after[i].reserved, after[j].start, after[j].reserved) && after[i].name != after[j].name
    {
      if j == |files| {
        assert files[i] in files;
      }
    }
  }
}
