/**
  The bit arrays of Kernel/libs/lib_bit.c: bits packed eight to a `char`. On this target `char` is
  signed, so every operand is first promoted to a 32-bit integer with its sign, and the result is
  narrowed back. The operations are proved to refine a map from bit index to bool.
 */
module LibBit {

  /** Integral promotion of a signed char. */
  function Promote(c: bv8): bv32 {
    if c & 0x80 != 0 then 0xFFFF_FF00 | (c as bv32) else c as bv32
  }

  /** Conversion of an int back to char keeps the low byte. */
  function Narrow(x: bv32): bv8 {
    (x & 0xFF) as bv8
  }

  /** `(b & m) == m` on promoted operands. */
  predicate TestChar(b: bv8, m: bv8) {
    Promote(b) & Promote(m) == Promote(m)
  }

  /** `b | m`, stored back into a char. */
  function SetChar(b: bv8, m: bv8): bv8 {
    Narrow(Promote(b) | Promote(m))
  }

  /** `b & ~m`, stored back into a char. */
  function ClearChar(b: bv8, m: bv8): bv8 {
    Narrow(Promote(b) & !Promote(m))
  }

  /** `1 << n` on the promoted int. */
  function OneShifted(n: nat): bv32 {
    if n == 0 then 1 else OneShifted(n - 1) << 1
  }

  /** The char value of `1 << (index % 8)`; for bit 7 this is the negative char -128. */
  function Mask(index: nat): bv8 {
    Narrow(OneShifted(index % 8))
  }

  /** Bit `n` of a byte, read by shifting it down to the low end. */
  predicate BitOf(b: bv8, n: nat) {
    if n == 0 then b & 1 == 1 else BitOf(b >> 1, n - 1)
  }

  /** Bit `index` of a packed array. */
  predicate On(bytes: seq<bv8>, index: nat)
    requires index < 8 * |bytes|
  {
    BitOf(bytes[index / 8], index % 8)
  }

  lemma MaskTable()
    ensures Mask(0) == 1 && Mask(1) == 2 && Mask(2) == 4 && Mask(3) == 8
    ensures Mask(4) == 16 && Mask(5) == 32 && Mask(6) == 64 && Mask(7) == 128
  {
    assert OneShifted(0) == 1;
    assert OneShifted(1) == 2;
    assert OneShifted(2) == 4;
    assert OneShifted(3) == 8;
    assert OneShifted(4) == 16;
    assert OneShifted(5) == 32;
    assert OneShifted(6) == 64;
    assert OneShifted(7) == 128;
  }

  lemma BitTable(b: bv8)
    ensures BitOf(b, 0) == (b & 1 != 0) && BitOf(b, 1) == (b & 2 != 0)
    ensures BitOf(b, 2) == (b & 4 != 0) && BitOf(b, 3) == (b & 8 != 0)
    ensures BitOf(b, 4) == (b & 16 != 0) && BitOf(b, 5) == (b & 32 != 0)
    ensures BitOf(b, 6) == (b & 64 != 0) && BitOf(b, 7) == (b & 128 != 0)
  {
    var c1 := b >> 1;
    var c2 := c1 >> 1;
    var c3 := c2 >> 1;
    var c4 := c3 >> 1;
    var c5 := c4 >> 1;
    var c6 := c5 >> 1;
    var c7 := c6 >> 1;
    assert BitOf(b, 1) == BitOf(c1, 0);
    assert BitOf(b, 2) == BitOf(c1, 1) == BitOf(c2, 0);
    assert BitOf(b, 3) == BitOf(c1, 2) == BitOf(c2, 1) == BitOf(c3, 0);
    assert BitOf(b, 4) == BitOf(c1, 3) == BitOf(c2, 2) == BitOf(c3, 1) == BitOf(c4, 0);
    assert BitOf(b, 5) == BitOf(c1, 4) == BitOf(c2, 3) == BitOf(c3, 2) == BitOf(c4, 1) == BitOf(c5, 0);
    assert BitOf(b, 6) == BitOf(c1, 5) == BitOf(c2, 4) == BitOf(c3, 3) == BitOf(c4, 2) == BitOf(c5, 1) == BitOf(c6, 0);
    assert BitOf(b, 7) == BitOf(c1, 6) == BitOf(c2, 5) == BitOf(c3, 4) == BitOf(c4, 3) == BitOf(c5, 2) == BitOf(c6, 1) == BitOf(c7, 0);
  }

  /** A position in a byte and the single-bit char that selects it. */
  ghost predicate Selects(m: bv8, i: nat) {
    (m == 1 && i == 0) || (m == 2 && i == 1) || (m == 4 && i == 2) || (m == 8 && i == 3) ||
    (m == 16 && i == 4) || (m == 32 && i == 5) || (m == 64 && i == 6) || (m == 128 && i == 7)
  }

  lemma MaskSelects(b: bv8, i: nat)
    requires i < 8
    ensures Selects(Mask(i), i)
    ensures BitOf(b, i) <==> b & Mask(i) != 0
  {
    MaskTable();
    BitTable(b);
  }

  lemma Promotion(b: bv8, m: bv8, n: bv8)
    requires m in {1, 2, 4, 8, 16, 32, 64, 128} && n in {1, 2, 4, 8, 16, 32, 64, 128}
    ensures TestChar(b, m) <==> b & m != 0
    ensures SetChar(b, m) & n != 0 <==> m == n || b & n != 0
    ensures ClearChar(b, m) & n != 0 <==> m != n && b & n != 0
  {
  }

  /** The byte-level facts behind the three operations, for every pair of bit positions. */
  lemma TestFact(b: bv8, i: nat)
    requires i < 8
    ensures TestChar(b, Mask(i)) <==> BitOf(b, i)
  {
    MaskSelects(b, i);
    Promotion(b, Mask(i), Mask(i));
  }

  lemma SetFact(b: bv8, i: nat, j: nat)
    requires i < 8 && j < 8
    ensures BitOf(SetChar(b, Mask(i)), j) <==> i == j || BitOf(b, j)
  {
    var m, n := Mask(i), Mask(j);
    MaskSelects(b, i);
    MaskSelects(b, j);
    MaskSelects(SetChar(b, m), j);
    SetTransfer(SetChar(b, m), b, m, n, i, j);
  }

  lemma SetTransfer(r: bv8, b: bv8, m: bv8, n: bv8, i: nat, j: nat)
    requires Selects(m, i) && Selects(n, j)
    requires r == SetChar(b, m)
    ensures r & n != 0 <==> i == j || b & n != 0
  {
    Promotion(b, m, n);
  }

  lemma ClearFact(b: bv8, i: nat, j: nat)
    requires i < 8 && j < 8
    ensures BitOf(ClearChar(b, Mask(i)), j) <==> i != j && BitOf(b, j)
  {
    var m, n := Mask(i), Mask(j);
    MaskSelects(b, i);
    MaskSelects(b, j);
    MaskSelects(ClearChar(b, m), j);
    ClearTransfer(ClearChar(b, m), b, m, n, i, j);
  }

  lemma ClearTransfer(r: bv8, b: bv8, m: bv8, n: bv8, i: nat, j: nat)
    requires Selects(m, i) && Selects(n, j)
    requires r == ClearChar(b, m)
    ensures r & n != 0 <==> i != j && b & n != 0
  {
    Promotion(b, m, n);
  }

  method IsBitSet(bytes: array<bv8>, index: nat) returns (r: bool)
    requires index < 8 * bytes.Length
    ensures r == On(bytes[..], index)
  {
    var b := bytes[index / 8];
    var m := Mask(index);
    r := TestChar(b, m);
    TestFact(b, index % 8);
  }

  method SetBit(bytes: array<bv8>, index: nat)
    requires index < 8 * bytes.Length
    modifies bytes
    ensures forall j: nat :: j < 8 * bytes.Length ==>
      (On(bytes[..], j) <==> j == index || old(On(bytes[..], j)))
  {
    var b := bytes[index / 8];
    var m := Mask(index);
    bytes[index / 8] := SetChar(b, m);
    forall j: nat | j < 8 * bytes.Length
      ensures On(bytes[..], j) <==> j == index || old(On(bytes[..], j))
    {
      SetFact(b, index % 8, j % 8);
    }
  }

  method ClearBit(bytes: array<bv8>, index: nat)
    requires index < 8 * bytes.Length
    modifies bytes
    ensures forall j: nat :: j < 8 * bytes.Length ==>
      (On(bytes[..], j) <==> j != index && old(On(bytes[..], j)))
  {
    var b := bytes[index / 8];
    var m := Mask(index);
    bytes[index / 8] := ClearChar(b, m);
    forall j: nat | j < 8 * bytes.Length
      ensures On(bytes[..], j) <==> j != index && old(On(bytes[..], j))
    {
      ClearFact(b, index % 8, j % 8);
    }
  }
}
