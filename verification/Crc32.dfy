/** The CRC-32 of section 3.2.9 of IEEE 802.3, computed byte by byte with an LSB-first register.
    A 32-bit word is held as its bits, least significant first, so that bit i of a word w is w[i]. */
module Checksum {
  import opened Basics

  type Word = w: seq<bool> | |w| == 32 witness Filled(32, false)

  /** n copies of one bit. */
  function Filled(n: nat, bit: bool): (w: seq<bool>)
    ensures |w| == n && forall i :: 0 <= i < n ==> w[i] == bit
  {
    seq(n, _ => bit)
  }

  const BITS: nat := 8
  const ZERO: Word := Filled(32, false)
  const ALL_ONES: Word := Filled(32, true)

  /** 0xEDB88320, nibble by nibble from the least significant one. */
  const POLYNOMIAL: Word :=
    [false, false, false, false] + [false, true, false, false] +
    [true, true, false, false] + [false, false, false, true] +
    [false, false, false, true] + [true, true, false, true] +
    [true, false, true, true] + [false, true, true, true]

  function XorBits(a: seq<bool>, b: seq<bool>): (r: seq<bool>)
    requires |a| == |b|
    ensures |r| == |a| && forall i :: 0 <= i < |r| ==> r[i] == (a[i] != b[i])
  {
    if a == [] then [] else [a[0] != b[0]] + XorBits(a[1..], b[1..])
  }

  function AndBits(a: seq<bool>, b: seq<bool>): (r: seq<bool>)
    requires |a| == |b|
    ensures |r| == |a| && forall i :: 0 <= i < |r| ==> r[i] == (a[i] && b[i])
  {
    if a == [] then [] else [a[0] && b[0]] + AndBits(a[1..], b[1..])
  }

  function Xor(a: Word, b: Word): Word { XorBits(a, b) }

  function And(a: Word, b: Word): Word { AndBits(a, b) }

  function ShiftRight(w: Word): Word {
    w[1..] + [false]
  }

  /** 0U - bit: all ones when the bit is set. */
  function Negated(bit: bool): Word {
    Filled(32, bit)
  }

  /** A short bit string zero-extended to a word. */
  function Extend(bits: seq<bool>): Word
    requires |bits| <= 32
  {
    bits + Filled(32 - |bits|, false)
  }

  function Pow2(n: nat): nat {
    if n == 0 then 1 else 2 * Pow2(n - 1)
  }

  /** The low n bits of a number, least significant first. */
  function NumberBits(v: nat, n: nat): (bits: seq<bool>)
    ensures |bits| == n
  {
    if n == 0 then [] else [v % 2 == 1] + NumberBits(v / 2, n - 1)
  }

  function Number(bits: seq<bool>): (v: nat)
    ensures v < Pow2(|bits|)
  {
    if bits == [] then 0 else (if bits[0] then 1 else 0) + 2 * Number(bits[1..])
  }

  function ByteWord(b: byte): Word {
    Extend(NumberBits(b, BITS))
  }

  /** One step of the inner loop: shift out a bit, reducing by the polynomial when it is set. */
  function Shift(w: Word): Word {
    Xor(ShiftRight(w), And(POLYNOMIAL, Negated(w[0])))
  }

  function ShiftN(w: Word, n: nat): Word
    decreases n
  {
    if n == 0 then w else ShiftN(Shift(w), n - 1)
  }

  /** The register after whole bytes: xor the byte in, then shift 8 times. */
  function FeedBytes(w: Word, data: bytes): Word
    decreases data
  {
    if data == [] then w else FeedBytes(ShiftN(Xor(w, ByteWord(data[0])), BITS), data[1..])
  }

  lemma Pow2Of32()
    ensures Pow2(32) == TWO_32
  {
    assert Pow2(4) == 16;
    assert Pow2(8) == 16 * Pow2(4);
    assert Pow2(12) == 16 * Pow2(8);
    assert Pow2(16) == 16 * Pow2(12);
    assert Pow2(20) == 16 * Pow2(16);
    assert Pow2(24) == 16 * Pow2(20);
    assert Pow2(28) == 16 * Pow2(24);
    assert Pow2(32) == 16 * Pow2(28);
  }

  function Crc32Of(data: bytes): (crc: u32) {
    Pow2Of32();
    Number(Xor(FeedBytes(ALL_ONES, data), ALL_ONES))
  }

  /** The nested loops of Crc32. */
  method Crc32(data: bytes) returns (result: u32)
    ensures result == Crc32Of(data)
  {
    var crc := ALL_ONES;
    var i := 0;
    while i < |data|
      invariant i <= |data|
      invariant FeedBytes(crc, data[i..]) == FeedBytes(ALL_ONES, data)
    {
      crc := Xor(crc, ByteWord(data[i]));
      ghost var start := crc;
      var bit := 0;
      while bit < BITS
        invariant bit <= BITS
        invariant ShiftN(crc, BITS - bit) == ShiftN(start, BITS)
      {
        var mask := Negated(crc[0]);
        crc := Xor(ShiftRight(crc), And(POLYNOMIAL, mask));
        bit := bit + 1;
      }
      assert data[i..][1..] == data[i + 1..];
      i := i + 1;
    }
    Pow2Of32();
    result := Number(Xor(crc, ALL_ONES));
  }
}
