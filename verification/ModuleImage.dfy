/**
  The image format shared by Toolchain/ModulePacker/main.c, which writes it, and
  Kernel/moduleLoader.c, which reads it: the kernel, then a count, then each module after its size.
 */
module ModuleImage {

  newtype byte = x: int | 0 <= x < 256

  const UINT32_LIMIT := 0x1_0000_0000

  /** A 32-bit unsigned integer as the four bytes the target machine stores. */
  function ToBytes(n: int): (r: seq<byte>)
    requires 0 <= n < UINT32_LIMIT
    ensures |r| == 4
  {
    [(n % 256) as byte, (n / 256 % 256) as byte, (n / 256 / 256 % 256) as byte, (n / 256 / 256 / 256) as byte]
  }

  function FromBytes(b: seq<byte>): (r: int)
    requires |b| == 4
    ensures 0 <= r < UINT32_LIMIT
  {
    b[0] as int + 256 * (b[1] as int) + 0x1_0000 * (b[2] as int) + 0x100_0000 * (b[3] as int)
  }

  lemma BytesRoundTrip(n: int)
    requires 0 <= n < UINT32_LIMIT
    ensures FromBytes(ToBytes(n)) == n
  {
    var q := n / 256;
    var r := q / 256;
    assert n == 256 * q + n % 256 && q == 256 * r + q % 256 && r == 256 * (r / 256) + r % 256;
  }

  /** The low byte comes first, as the machine that runs both programs stores integers. */
  lemma ByteOrder(n: int)
    requires 0 <= n < UINT32_LIMIT
    ensures var b := ToBytes(n);
      n == b[0] as int + 0x100 * (b[1] as int) + 0x1_0000 * (b[2] as int) + 0x100_0000 * (b[3] as int)
  {
    BytesRoundTrip(n);
  }

  lemma Digit(d: int, q: int)
    requires 0 <= d < 256 && q >= 0
    ensures (d + 256 * q) / 256 == q && (d + 256 * q) % 256 == d
  {
  }

  lemma WordRoundTrip(b: seq<byte>)
    requires |b| == 4
    ensures ToBytes(FromBytes(b)) == b
  {
    var r := b[2] as int + 256 * (b[3] as int);
    var q := b[1] as int + 256 * r;
    Digit(b[2] as int, b[3] as int);
    Digit(b[1] as int, r);
    Digit(b[0] as int, q);
    assert FromBytes(b) == b[0] as int + 256 * q;
  }

  /** The size of a module as written: st_size narrowed to uint32_t. */
  function Record(m: seq<byte>): seq<byte> {
    ToBytes(|m| % UINT32_LIMIT) + m
  }

  function Records(modules: seq<seq<byte>>): seq<byte> {
    if modules == [] then [] else Record(modules[0]) + Records(modules[1..])
  }

  /** Everything after the kernel. */
  function Payload(modules: seq<seq<byte>>): seq<byte>
    requires |modules| < UINT32_LIMIT
  {
    ToBytes(|modules|) + Records(modules)
  }

  function Image(files: seq<seq<byte>>): seq<byte>
    requires 0 < |files| <= UINT32_LIMIT
  {
    files[0] + Payload(files[1..])
  }

  // ---- The packer ----

  const BUFFER_SIZE := 128

  /** A C stream open for reading. End of file is only noticed by a read that comes up short. */
  class Source {
    const contents: seq<byte>
    var position: nat
    var eof: bool

    constructor (contents: seq<byte>)
      ensures this.contents == contents && position == 0 && !eof
    {
      this.contents, position, eof := contents, 0, false;
    }

    method Read(n: nat) returns (chunk: seq<byte>)
      requires position <= |contents|
      modifies this
      ensures old(position) <= position <= |contents| && chunk == contents[old(position)..position]
      ensures position == if old(position) + n <= |contents| then old(position) + n else |contents|
      ensures eof == (old(eof) || |chunk| < n)
    {
      var end := if position + n <= |contents| then position + n else |contents|;
      chunk := contents[position..end];
      eof := eof || |chunk| < n;
      position := end;
    }
  }

  class Target {
    var bytes: seq<byte>

    constructor ()
      ensures bytes == []
    {
      bytes := [];
    }

    method Write(chunk: seq<byte>)
      modifies this
      ensures bytes == old(bytes) + chunk
    {
      bytes := bytes + chunk;
    }
  }

  /** write_file: 128-byte chunks, with an empty one at the end of a file of a multiple of 128 bytes. */
  method WriteFile(target: Target, source: Source)
    requires source.position == 0 && !source.eof
    modifies target, source
    ensures target.bytes == old(target.bytes) + source.contents
  {
    while !source.eof
      invariant source.position <= |source.contents|
      invariant source.eof ==> source.position == |source.contents|
      invariant target.bytes == old(target.bytes) + source.contents[..source.position]
      decreases |source.contents| - source.position, !source.eof
    {
      ghost var was := source.position;
      var buffer := source.Read(BUFFER_SIZE);
      target.Write(buffer);
      assert source.contents[..was] + source.contents[was..source.position] == source.contents[..source.position];
    }
    assert source.contents[..|source.contents|] == source.contents;
  }

  /** buildImage, given the contents of the files named on the command line. */
  method BuildImage(files: seq<seq<byte>>) returns (image: seq<byte>)
    requires 0 < |files| <= 128
    ensures image == Image(files)
    ensures |image| >= |files[0]| && image[..|files[0]|] == files[0]
  {
    hide ToBytes, Records, Payload;
    var target := new Target();
    var kernel := new Source(files[0]);
    WriteFile(target, kernel);
    target.Write(ToBytes(|files| - 1));
    ghost var head := target.bytes;
    assert head == files[0] + ToBytes(|files| - 1);
    assert files[1..1] == [];
    NoRecords();
    for i := 1 to |files|
      invariant target.bytes == head + Records(files[1..i])
      invariant fresh(target)
    {
      ghost var before := target.bytes;
      var source := new Source(files[i]);
      target.Write(ToBytes(|files[i]| % UINT32_LIMIT));
      WriteFile(target, source);
      assert target.bytes == before + Record(files[i]);
      hide Record;
      RecordsAppend(files[1..i], files[i]);
      assert files[1..i] + [files[i]] == files[1..i + 1];
    }
    assert files[1..|files|] == files[1..];
    ImageIs(files);
    return target.bytes;
  }

  lemma NoRecords()
    ensures Records([]) == []
  {
  }

  lemma ImageIs(files: seq<seq<byte>>)
    requires 0 < |files| <= UINT32_LIMIT
    ensures files[0] + ToBytes(|files| - 1) + Records(files[1..]) == Image(files)
  {
  }

  lemma {:induction false} RecordsAppend(ms: seq<seq<byte>>, m: seq<byte>)
    ensures Records(ms + [m]) == Records(ms) + Record(m)
    decreases |ms|
  {
    if ms == [] {
      assert ms + [m] == [m];
      assert Records([m]) == Record(m) + Records([]);
    } else {
      hide Record;
      RecordsAppend(ms[1..], m);
      assert (ms + [m])[0] == ms[0] && (ms + [m])[1..] == ms[1..] + [m];
      assert Record(ms[0]) + (Records(ms[1..]) + Record(m)) == (Record(ms[0]) + Records(ms[1..])) + Record(m);
    }
  }

  // ---- memcpy ----

  /** Memory with len bytes at dest replaced by those at src. */
  function Copied(mem: seq<byte>, dest: nat, src: nat, len: nat): (r: seq<byte>)
    requires dest + len <= |mem| && src + len <= |mem|
    ensures |r| == |mem|
  {
    mem[..dest] + mem[src..src + len] + mem[dest + len..]
  }

  predicate Disjoint(a: nat, la: nat, b: nat, lb: nat) {
    a + la <= b || b + lb <= a
  }

  method Memcpy(mem: array<byte>, dest: nat, src: nat, len: nat)
    requires dest + len <= mem.Length && src + len <= mem.Length && Disjoint(dest, len, src, len)
    modifies mem
    ensures mem[..] == Copied(old(mem[..]), dest, src, len)
  {
    if dest % 4 == 0 && src % 4 == 0 && len % 4 == 0 {
      CopyWords(mem, dest, src, len / 4);
    } else {
      CopyBytes(mem, dest, src, len);
    }
  }

  method CopyBytes(mem: array<byte>, dest: nat, src: nat, len: nat)
    requires dest + len <= mem.Length && src + len <= mem.Length && Disjoint(dest, len, src, len)
    modifies mem
    ensures mem[..] == Copied(old(mem[..]), dest, src, len)
  {
    for i := 0 to len
      invariant forall a | 0 <= a < mem.Length ::
        mem[a] == if dest <= a < dest + i then old(mem[src + (a - dest)]) else old(mem[a])
    {
      mem[dest + i] := mem[src + i];
    }
  }

  /** The fast path: four bytes are loaded as one integer and stored again. */
  method CopyWords(mem: array<byte>, dest: nat, src: nat, words: nat)
    requires dest + 4 * words <= mem.Length && src + 4 * words <= mem.Length
    requires Disjoint(dest, 4 * words, src, 4 * words)
    modifies mem
    ensures mem[..] == Copied(old(mem[..]), dest, src, 4 * words)
  {
    for i := 0 to words
      invariant forall a | 0 <= a < mem.Length ::
        mem[a] == if dest <= a < dest + 4 * i then old(mem[src + (a - dest)]) else old(mem[a])
    {
      MoveWord(mem, dest + 4 * i, src + 4 * i);
    }
  }

  /** `d[i] = s[i]` on pointers to 32-bit words. */
  method MoveWord(mem: array<byte>, d: nat, s: nat)
    requires d + 4 <= mem.Length && s + 4 <= mem.Length
    modifies mem
    ensures forall a | 0 <= a < mem.Length :: mem[a] == if d <= a < d + 4 then old(mem[s + (a - d)]) else old(mem[a])
  {
    hide FromBytes, ToBytes;
    ghost var b := mem[s..s + 4];
    var word := FromBytes(mem[s..s + 4]);
    WordRoundTrip(b);
    var out := ToBytes(word);
    mem[d] := out[0];
    mem[d + 1] := out[1];
    mem[d + 2] := out[2];
    mem[d + 3] := out[3];
  }

  // ---- The loader ----

  lemma {:induction false} RecordsSplit(ms: seq<seq<byte>>, i: nat)
    requires i < |ms|
    ensures Records(ms) == Records(ms[..i]) + (Record(ms[i]) + Records(ms[i + 1..]))
    decreases i
  {
    if i == 0 {
      assert ms[..0] == [];
    } else {
      RecordsSplit(ms[1..], i - 1);
      assert ms[..i][1..] == ms[1..][..i - 1] && ms[1..][i..] == ms[i + 1..];
    }
  }

  /** The offset of record i in the payload. */
  ghost function Offset(ms: seq<seq<byte>>, i: nat): nat
    requires i <= |ms|
  {
    4 + |Records(ms[..i])|
  }

  lemma Middle(a: seq<byte>, b: seq<byte>, c: seq<byte>, d: seq<byte>, e: seq<byte>)
    ensures var p, o := a + (b + ((c + d) + e)), |a| + |b|;
      |p| == o + |c| + |d| + |e| && p[o..o + |c|] == c && p[o + |c|..o + |c| + |d|] == d
  {
  }

  /** Where record i lies in the payload, what it says, and where the next begins. */
  lemma RecordAt(ms: seq<seq<byte>>, i: nat)
    requires i < |ms| < UINT32_LIMIT && |ms[i]| < UINT32_LIMIT
    ensures var o, p := Offset(ms, i), Payload(ms);
      && Offset(ms, i + 1) == o + 4 + |ms[i]| <= |p|
      && p[o..o + 4] == ToBytes(|ms[i]|) && p[o + 4..o + 4 + |ms[i]|] == ms[i]
  {
    hide ToBytes, Records;
    RecordsSplit(ms, i);
    RecordsAppend(ms[..i], ms[i]);
    assert ms[..i] + [ms[i]] == ms[..i + 1];
    Middle(ToBytes(|ms|), Records(ms[..i]), ToBytes(|ms[i]|), ms[i], Records(ms[i + 1..]));
  }

  /** Where the size of file i stands: after the kernel, the count, and the modules before it with their sizes. */
  function SizeAt(files: seq<seq<byte>>, i: nat): nat
    requires 1 <= i <= |files|
  {
    if i == 1 then |files[0]| + 4 else SizeAt(files, i - 1) + 4 + |files[i - 1]|
  }

  lemma {:induction false} SizeAtOffset(files: seq<seq<byte>>, i: nat)
    requires 1 <= i <= |files| <= UINT32_LIMIT && forall j | 1 <= j < |files| :: |files[j]| < UINT32_LIMIT
    ensures SizeAt(files, i) == |files[0]| + Offset(files[1..], i - 1)
    decreases i
  {
    var ms := files[1..];
    if i == 1 {
      assert ms[..0] == [];
    } else {
      SizeAtOffset(files, i - 1);
      assert ms[i - 2] == files[i - 1];
      RecordAt(ms, i - 2);
    }
  }

  /** How the image begins, with the kernel and the number of modules, and where it ends. */
  lemma LayoutEnds(files: seq<seq<byte>>)
    requires 1 <= |files| <= UINT32_LIMIT && forall j | 1 <= j < |files| :: |files[j]| < UINT32_LIMIT
    ensures var image, k := Image(files), |files[0]|;
      && k + 4 <= |image| == SizeAt(files, |files|)
      && image[..k] == files[0] && FromBytes(image[k..k + 4]) == |files| - 1
  {
    var ms := files[1..];
    SizeAtOffset(files, |files|);
    PayloadBegins(ms);
    BytesRoundTrip(|ms|);
    hide ToBytes, Records, Offset, FromBytes, SizeAt, Payload;
    Sliced(files[0], Payload(ms), 0, 4);
  }

  /** Each module follows its size, right behind the module before it. */
  lemma Layout(files: seq<seq<byte>>, i: nat)
    requires 1 <= i < |files| <= UINT32_LIMIT && forall j | 1 <= j < |files| :: |files[j]| < UINT32_LIMIT
    ensures SizedAt(Image(files), SizeAt(files, i), files[i])
  {
    hide ToBytes, Records, Offset, FromBytes, SizeAt, Payload, SizedAt;
    var ms := files[1..];
    SizeAtOffset(files, i);
    ModuleAt(ms, i - 1);
    Behind(files[0], Payload(ms), Offset(ms, i - 1), ms[i - 1]);
  }

  lemma ModuleAt(ms: seq<seq<byte>>, i: nat)
    requires i < |ms| < UINT32_LIMIT && |ms[i]| < UINT32_LIMIT
    ensures SizedAt(Payload(ms), Offset(ms, i), ms[i])
  {
    RecordAt(ms, i);
    BytesRoundTrip(|ms[i]|);
    hide ToBytes, Records, Offset, FromBytes, Payload;
  }

  /** The module m stands at this place, after its size. */
  ghost predicate SizedAt(image: seq<byte>, at: nat, m: seq<byte>) {
    at + 4 + |m| <= |image| && FromBytes(image[at..at + 4]) == |m| && image[at + 4..at + 4 + |m|] == m
  }

  lemma Behind(a: seq<byte>, p: seq<byte>, o: nat, m: seq<byte>)
    requires SizedAt(p, o, m)
    ensures SizedAt(a + p, |a| + o, m)
  {
    hide FromBytes;
    Sliced(a, p, o, 4);
    Sliced(a, p, o + 4, |m|);
  }

  lemma PayloadBegins(ms: seq<seq<byte>>)
    requires |ms| < UINT32_LIMIT
    ensures |Payload(ms)| == Offset(ms, |ms|) && Payload(ms)[0..4] == ToBytes(|ms|)
  {
    hide Records, ToBytes;
    assert ms[..|ms|] == ms;
  }

  lemma Sliced(a: seq<byte>, p: seq<byte>, o: nat, n: nat)
    requires o + n <= |p|
    ensures (a + p)[|a| + o..|a| + o + n] == p[o..o + n]
  {
  }

  ghost predicate Holds(mem: seq<byte>, at: nat, bytes: seq<byte>) {
    at + |bytes| <= |mem| && mem[at..at + |bytes|] == bytes
  }

  lemma HoldsPart(mem: seq<byte>, at: nat, bytes: seq<byte>, from: nat, to: nat)
    requires Holds(mem, at, bytes) && from <= to <= |bytes|
    ensures Holds(mem, at + from, bytes[from..to])
  {
    assert forall j | 0 <= j < to - from ::
      mem[at + from..at + to][j] == mem[at..at + |bytes|][from + j] && bytes[from..to][j] == bytes[from + j];
  }

  /** A copy to dest leaves what lies apart from it as it was. */
  lemma CopyKeeps(mem: seq<byte>, dest: nat, src: nat, len: nat, at: nat, bytes: seq<byte>)
    requires dest + len <= |mem| && src + len <= |mem|
    requires Holds(mem, at, bytes) && Disjoint(dest, len, at, |bytes|)
    ensures Holds(Copied(mem, dest, src, len), at, bytes)
  {
    var after := Copied(mem, dest, src, len);
    assert forall a | at <= a < at + |bytes| :: after[a] == mem[a];
  }

  lemma CopyArrives(mem: seq<byte>, dest: nat, src: nat, bytes: seq<byte>)
    requires dest + |bytes| <= |mem| && Holds(mem, src, bytes)
    ensures Holds(Copied(mem, dest, src, |bytes|), dest, bytes)
  {
  }

  /** The number whose four bytes stand at the cursor, and the cursor moved past them. */
  method ReadUint32(mem: array<byte>, address: nat) returns (result: int, next: nat)
    requires address + 4 <= mem.Length
    ensures 0 <= result < UINT32_LIMIT && Holds(mem[..], address, ToBytes(result)) && next == address + 4
    ensures forall n | 0 <= n < UINT32_LIMIT && Holds(mem[..], address, ToBytes(n)) :: n == result
  {
    result := FromBytes(mem[address..address + 4]);
    next := address + 4;
    WordRoundTrip(mem[address..address + 4]);
    assert mem[..][address..address + 4] == mem[address..address + 4];
    hide FromBytes, ToBytes;
    forall n | 0 <= n < UINT32_LIMIT && Holds(mem[..], address, ToBytes(n))
      ensures n == result
    {
      BytesRoundTrip(n);
    }
  }

  method LoadModule(mem: array<byte>, at: nat, target: nat, ghost m: seq<byte>) returns (next: nat)
    requires |m| < UINT32_LIMIT && Holds(mem[..], at, ToBytes(|m|)) && Holds(mem[..], at + 4, m)
    requires target + |m| <= mem.Length && Disjoint(target, |m|, at + 4, |m|)
    modifies mem
    ensures next == at + 4 + |m| && mem[..] == Copied(old(mem[..]), target, at + 4, |m|)
  {
    hide FromBytes, ToBytes;
    var size, body := ReadUint32(mem, at);
    Memcpy(mem, target, body, size);
    next := body + size;
  }

  /** Each module has room at its target, apart from the other targets and from the payload. */
  ghost predicate Targets(length: nat, payload: nat, targets: seq<nat>, ms: seq<seq<byte>>) {
    && |ms| <= |targets| && |ms| < UINT32_LIMIT && payload + |Payload(ms)| <= length
    && (forall i | 0 <= i < |ms| ::
          |ms[i]| < UINT32_LIMIT && targets[i] + |ms[i]| <= length &&
          Disjoint(targets[i], |ms[i]|, payload, |Payload(ms)|))
    && (forall i, j | 0 <= i < j < |ms| :: Disjoint(targets[i], |ms[i]|, targets[j], |ms[j]|))
  }

  /** No target covers address a. */
  ghost predicate Untargeted(targets: seq<nat>, ms: seq<seq<byte>>, a: int)
    requires |ms| <= |targets|
  {
    forall i | 0 <= i < |ms| :: !(targets[i] <= a < targets[i] + |ms[i]|)
  }

  lemma CopyOutside(mem: seq<byte>, dest: nat, src: nat, len: nat, a: nat)
    requires dest + len <= |mem| && src + len <= |mem| && a < |mem| && !(dest <= a < dest + len)
    ensures Copied(mem, dest, src, len)[a] == mem[a]
  {
  }

  /** loadModules: every target ends up holding its module, and nothing else changes. */
  method LoadModules(mem: array<byte>, payload: nat, targets: seq<nat>, ghost ms: seq<seq<byte>>)
    requires Targets(mem.Length, payload, targets, ms) && Holds(mem[..], payload, Payload(ms))
    modifies mem
    ensures forall i | 0 <= i < |ms| :: Holds(mem[..], targets[i], ms[i])
    ensures forall a | 0 <= a < mem.Length && Untargeted(targets, ms, a) :: mem[a] == old(mem[a])
  {
    LoadedStart(mem[..], payload, targets, ms);
    var count, current := ReadUint32(mem, payload);
    assert count == |ms|;
    hide Payload, Offset, Holds, Copied, Records, Loaded, FromBytes, ToBytes;
    for i := 0 to count
      invariant current == payload + Offset(ms, i) && Loaded(old(mem[..]), mem[..], payload, targets, ms, i)
    {
      ghost var before := mem[..];
      RecordInMemory(old(mem[..]), before, payload, targets, ms, i);
      current := LoadModule(mem, current, targets[i], ms[i]);
      LoadedStep(old(mem[..]), before, payload, targets, ms, i);
    }
    LoadedEnd(old(mem[..]), mem[..], payload, targets, ms);
  }

  lemma LoadedStart(mem: seq<byte>, payload: nat, targets: seq<nat>, ms: seq<seq<byte>>)
    requires Targets(|mem|, payload, targets, ms) && Holds(mem, payload, Payload(ms))
    ensures payload + 4 <= |mem| && Holds(mem, payload, ToBytes(|ms|)) && Offset(ms, 0) == 4
    ensures Loaded(mem, mem, payload, targets, ms, 0)
  {
    HoldsPart(mem, payload, Payload(ms), 0, 4);
    assert Payload(ms)[0..4] == ToBytes(|ms|);
    assert ms[..0] == [];
  }

  lemma LoadedEnd(start: seq<byte>, mem: seq<byte>, payload: nat, targets: seq<nat>, ms: seq<seq<byte>>)
    requires |start| == |mem| && |ms| <= |targets| && |ms| < UINT32_LIMIT
    requires Loaded(start, mem, payload, targets, ms, |ms|)
    ensures forall i | 0 <= i < |ms| :: Holds(mem, targets[i], ms[i])
    ensures forall a | 0 <= a < |mem| && Untargeted(targets, ms, a) :: mem[a] == start[a]
  {
  }

  /** After i modules: they are in place, the payload is intact, and nothing else has changed. */
  ghost predicate Loaded(start: seq<byte>, mem: seq<byte>, payload: nat, targets: seq<nat>, ms: seq<seq<byte>>, i: nat)
    requires i <= |ms| <= |targets| && |ms| < UINT32_LIMIT && |start| == |mem|
  {
    && Holds(mem, payload, Payload(ms))
    && (forall j | 0 <= j < i :: Holds(mem, targets[j], ms[j]))
    && (forall a | 0 <= a < |mem| && Untargeted(targets, ms, a) :: mem[a] == start[a])
  }

  lemma RecordInMemory(start: seq<byte>, mem: seq<byte>, payload: nat, targets: seq<nat>, ms: seq<seq<byte>>, i: nat)
    requires |start| == |mem| && Targets(|mem|, payload, targets, ms) && i < |ms|
    requires Loaded(start, mem, payload, targets, ms, i)
    ensures var o := payload + Offset(ms, i);
      && |ms[i]| < UINT32_LIMIT && Holds(mem, o, ToBytes(|ms[i]|)) && Holds(mem, o + 4, ms[i])
      && o + 4 + |ms[i]| == payload + Offset(ms, i + 1) <= |mem|
      && targets[i] + |ms[i]| <= |mem| && Disjoint(targets[i], |ms[i]|, o + 4, |ms[i]|)
  {
    RecordAt(ms, i);
    hide Records, ToBytes, FromBytes;
    var p, o := Payload(ms), Offset(ms, i);
    hide Payload, Offset;
    HoldsPart(mem, payload, p, o, o + 4);
    HoldsPart(mem, payload, p, o + 4, o + 4 + |ms[i]|);
  }

  lemma LoadedStep(start: seq<byte>, mem: seq<byte>, payload: nat, targets: seq<nat>, ms: seq<seq<byte>>, i: nat)
    requires |start| == |mem| && Targets(|mem|, payload, targets, ms) && i < |ms|
    requires Loaded(start, mem, payload, targets, ms, i)
    requires var o := payload + Offset(ms, i) + 4; o + |ms[i]| <= |mem| && Holds(mem, o, ms[i])
    ensures var o := payload + Offset(ms, i) + 4;
      var after := Copied(mem, targets[i], o, |ms[i]|);
      |after| == |mem| && Loaded(start, after, payload, targets, ms, i + 1)
  {
    var o, t, n := payload + Offset(ms, i) + 4, targets[i], |ms[i]|;
    var after := Copied(mem, t, o, n);
    CopyKeeps(mem, t, o, n, payload, Payload(ms));
    CopyArrives(mem, t, o, ms[i]);
    assert Disjoint(t, n, payload, |Payload(ms)|);
    hide Copied, Payload, Records, Holds, ToBytes;
    forall j | 0 <= j < i
      ensures Holds(after, targets[j], ms[j])
    {
      CopyKeeps(mem, t, o, n, targets[j], ms[j]);
    }
    forall a | 0 <= a < |mem| && Untargeted(targets, ms, a)
      ensures after[a] == start[a]
    {
      CopyOutside(mem, t, o, n, a);
    }
  }

  /** Packing and then loading: with the packed image in memory at `base`, every target gets its file. */
  method PackAndLoad(files: seq<seq<byte>>, mem: array<byte>, base: nat, targets: seq<nat>)
    requires 0 < |files| <= 128 && base + |Image(files)| <= mem.Length
    requires Targets(mem.Length, base + |files[0]|, targets, files[1..])
    modifies mem
    ensures forall i | 1 <= i < |files| :: Holds(mem[..], targets[i - 1], files[i])
  {
    var image := BuildImage(files);
    for i := 0 to |image|
      invariant mem[base..base + i] == image[..i]
    {
      mem[base + i] := image[i];
    }
    assert image[|files[0]|..] == Payload(files[1..]);
    assert Holds(mem[..], base, image);
    HoldsPart(mem[..], base, image, |files[0]|, |image|);
    LoadModules(mem, base + |files[0]|, targets, files[1..]);
    forall i | 1 <= i < |files|
      ensures Holds(mem[..], targets[i - 1], files[i])
    {
      assert files[1..][i - 1] == files[i];
    }
  }
}
