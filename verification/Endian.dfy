/** Fixed-width integers as byte strings: little-endian on disk, big-endian on the wire. */
module Endian {
  import opened Basics

  /** Field widths in bytes. */
  const W8: nat := 1
  const W16: nat := 2
  const W32: nat := 4
  const W64: nat := 8

  function Pow256(n: nat): (p: nat)
    ensures p > 0
  {
    if n == 0 then 1 else 256 * Pow256(n - 1)
  }

  function LittleEndian(v: nat, n: nat): (b: bytes)
    ensures |b| == n
  {
    if n == 0 then [] else [v % 256] + LittleEndian(v / 256, n - 1)
  }

  function FromLittleEndian(b: bytes): nat {
    if b == [] then 0 else b[0] + 256 * FromLittleEndian(b[1..])
  }

  function BigEndian(v: nat, n: nat): (b: bytes)
    ensures |b| == n
  {
    if n == 0 then [] else BigEndian(v / 256, n - 1) + [v % 256]
  }

  function FromBigEndian(b: bytes): nat {
    if b == [] then 0 else 256 * FromBigEndian(b[..|b| - 1]) + b[|b| - 1]
  }

  lemma Pow256Values()
    ensures Pow256(W8) == 256
    ensures Pow256(W16) == 0x1_0000
    ensures Pow256(W32) == TWO_32
    ensures Pow256(W64) == TWO_64
  {
    assert Pow256(2) == 256 * Pow256(1);
    assert Pow256(3) == 256 * Pow256(2);
    assert Pow256(4) == 256 * Pow256(3);
    assert Pow256(5) == 256 * Pow256(4);
    assert Pow256(6) == 256 * Pow256(5);
    assert Pow256(7) == 256 * Pow256(6);
    assert Pow256(8) == 256 * Pow256(7);
  }

  lemma QuotientBelow(v: nat, p: nat)
    requires v < 256 * p
    ensures v / 256 < p && v == 256 * (v / 256) + v % 256
  {
  }

  lemma Scaled(scale: int, low: int, tail: int)
    ensures scale * (low + 256 * tail) == scale * low + scale * 256 * tail
  {
  }

  lemma SplitByte(low: byte, high: nat)
    ensures (low + 256 * high) % 256 == low && (low + 256 * high) / 256 == high
  {
  }

  lemma {:induction false} LittleEndianRead(v: nat, n: nat)
    requires v < Pow256(n)
    ensures FromLittleEndian(LittleEndian(v, n)) == v
  {
    if n != 0 {
      QuotientBelow(v, Pow256(n - 1));
      LittleEndianRead(v / 256, n - 1);
      assert LittleEndian(v, n)[1..] == LittleEndian(v / 256, n - 1);
    }
  }

  lemma {:induction false} LittleEndianWrite(b: bytes)
    ensures FromLittleEndian(b) < Pow256(|b|)
    ensures LittleEndian(FromLittleEndian(b), |b|) == b
  {
    if b != [] {
      LittleEndianWrite(b[1..]);
      SplitByte(b[0], FromLittleEndian(b[1..]));
    }
  }

  /** The last byte of a big-endian field and the number before it. */
  lemma BigEndianLast(v: nat, n: nat) returns (q: nat, last: byte)
    requires n > 0 && v < Pow256(n)
    ensures v == 256 * q + last && q < Pow256(n - 1)
    ensures BigEndian(v, n) == BigEndian(q, n - 1) + [last]
  {
    q, last := v / 256, v % 256;
    QuotientBelow(v, Pow256(n - 1));
  }

  lemma FromBigEndianLast(b: bytes, last: byte)
    ensures FromBigEndian(b + [last]) == 256 * FromBigEndian(b) + last
  {
    assert (b + [last])[..|b|] == b;
  }

  lemma {:induction false} BigEndianRead(v: nat, n: nat)
    requires v < Pow256(n)
    ensures FromBigEndian(BigEndian(v, n)) == v
    decreases n
  {
    if n != 0 {
      hide BigEndian, FromBigEndian, Pow256;
      var q, last := BigEndianLast(v, n);
      BigEndianRead(q, n - 1);
      FromBigEndianLast(BigEndian(q, n - 1), last);
    }
  }

  lemma {:induction false} BigEndianBound(b: bytes)
    ensures FromBigEndian(b) < Pow256(|b|)
  {
    if b != [] {
      BigEndianBound(b[..|b| - 1]);
    }
  }

  /** The byte-pushing loop of AppendLittleEndian: byte i is (value >> 8i) & 0xFF. */
  method AppendLittleEndian(value: nat, width: nat, output: bytes) returns (result: bytes)
    ensures result == output + LittleEndian(value, width)
  {
    result := output;
    var rest := value;
    var i := 0;
    while i < width
      invariant i <= width
      invariant result + LittleEndian(rest, width - i) == output + LittleEndian(value, width)
    {
      result := result + [rest % 256];
      rest := rest / 256;
      i := i + 1;
    }
  }

  /** The accumulating loop of ReadLittleEndian, with its truncation error. */
  method ReadLittleEndian(data: bytes, offset: nat, width: nat) returns (r: Result<nat>)
    ensures r == if |data| < offset + width then Err(Corruption)
                 else Ok(FromLittleEndian(data[offset..offset + width]))
  {
    if |data| < offset + width {
      return Err(Corruption);
    }
    var value, scale := 0, 1;
    var i := 0;
    ghost var field := data[offset..offset + width];
    while i < width
      invariant i <= width
      invariant value + scale * FromLittleEndian(field[i..]) == FromLittleEndian(field)
    {
      ghost var tail := FromLittleEndian(field[i + 1..]);
      assert field[i..][1..] == field[i + 1..];
      assert FromLittleEndian(field[i..]) == field[i] + 256 * tail;
      Scaled(scale, field[i], tail);
      value := value + scale * data[offset + i];
      scale := scale * 256;
      i := i + 1;
    }
    return Ok(value);
  }

  /** The byte-pushing loop of AppendBigEndian: byte i is (value >> 8 * (width - 1 - i)) & 0xFF. */
  method AppendBigEndian(value: nat, width: nat, output: bytes) returns (result: bytes)
    ensures result == output + BigEndian(value, width)
  {
    result := output;
    var i := 0;
    while i < width
      invariant i <= width
      invariant result == output + BigEndian(value, width)[..i]
    {
      var shifted := ShiftRight(value, width - 1 - i);
      BigEndianDigit(value, width, i);
      result := result + [shifted % 256];
      i := i + 1;
    }
  }

  function ShiftRight(value: nat, places: nat): nat {
    if places == 0 then value else ShiftRight(value / 256, places - 1)
  }

  lemma {:induction false} BigEndianDigit(value: nat, width: nat, i: nat)
    requires i < width
    ensures BigEndian(value, width)[i] == ShiftRight(value, width - 1 - i) % 256
  {
    if i < width - 1 {
      BigEndianDigit(value / 256, width - 1, i);
    }
  }

  /** The shift-and-or loop of ReadBigEndian, with its truncation error. */
  method ReadBigEndian(data: bytes, offset: nat, width: nat) returns (r: Result<nat>)
    ensures r == if |data| < offset + width then Err(InvalidArgument)
                 else Ok(FromBigEndian(data[offset..offset + width]))
  {
    if |data| < offset + width {
      return Err(InvalidArgument);
    }
    var value: nat := 0;
    var i := 0;
    while i < width
      invariant i <= width
      invariant value == FromBigEndian(data[offset..offset + i])
    {
      assert data[offset..offset + i + 1][..i] == data[offset..offset + i];
      value := value * 256 + data[offset + i];
      i := i + 1;
    }
    return Ok(value);
  }
}
