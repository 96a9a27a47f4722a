/** Why the CRC-32 catches bursts. */
module CrcBursts {
  import opened Basics
  import opened Checksum

  // ---- The register is linear, and a shift loses nothing ----

  lemma ShiftXor(a: Word, b: Word)
    ensures Shift(Xor(a, b)) == Xor(Shift(a), Shift(b))
  {
  }

  /** The polynomial has its top bit set, so the bit shifted out can be read back. */
  lemma ShiftZero(w: Word)
    ensures Shift(w) == ZERO <==> w == ZERO
  {
    var s := Shift(w);
    assert s[31] == w[0];
    assert forall i :: 0 <= i < 31 ==> s[i] == (w[i + 1] != (POLYNOMIAL[i] && w[0]));
    if s == ZERO {
      assert forall i :: 0 <= i < 31 ==> !s[i];
      forall j | 1 <= j < 32 ensures !w[j] {
        assert !s[j - 1];
      }
    }
  }

  lemma {:induction false} ShiftNZero(w: Word, n: nat)
    ensures ShiftN(w, n) == ZERO <==> w == ZERO
    decreases n
  {
    hide Shift;
    if n != 0 {
      ShiftZero(w);
      ShiftNZero(Shift(w), n - 1);
    }
  }

  // ---- Feeding one bit at a time ----

  /** The bit string of a message, LSB-first within each byte. */
  function Bits(data: bytes): (bits: seq<bool>)
    ensures |bits| == 8 * |data|
  {
    if data == [] then [] else NumberBits(data[0], BITS) + Bits(data[1..])
  }

  function FeedBits(w: Word, bits: seq<bool>): Word
    decreases bits
  {
    if bits == [] then w else FeedBits(Shift(Xor(w, Extend([bits[0]]))), bits[1..])
  }

  lemma {:induction false} FeedBitsConcat(w: Word, a: seq<bool>, b: seq<bool>)
    ensures FeedBits(w, a + b) == FeedBits(FeedBits(w, a), b)
    decreases a
  {
    if a == [] {
      assert a + b == b;
    } else {
      assert (a + b)[1..] == a[1..] + b;
      FeedBitsConcat(Shift(Xor(w, Extend([a[0]]))), a[1..], b);
    }
  }

  lemma ShiftExtend(w: Word, bits: seq<bool>)
    requires 0 < |bits| <= 32
    ensures Shift(Xor(w, Extend(bits))) == Xor(Shift(Xor(w, Extend([bits[0]]))), Extend(bits[1..]))
  {
  }

  /** Up to 32 bits fed one at a time equal the same bits xored in at once and shifted out. */
  lemma {:induction false} FeedBitsIsWord(w: Word, bits: seq<bool>)
    requires |bits| <= 32
    ensures FeedBits(w, bits) == ShiftN(Xor(w, Extend(bits)), |bits|)
    decreases bits
  {
    if bits == [] {
      assert Xor(w, Extend(bits)) == w;
    } else {
      ShiftExtend(w, bits);
      FeedBitsIsWord(Shift(Xor(w, Extend([bits[0]]))), bits[1..]);
    }
  }

  lemma {:induction false} FeedBytesIsBits(w: Word, data: bytes)
    ensures FeedBytes(w, data) == FeedBits(w, Bits(data))
    decreases data
  {
    if data != [] {
      FeedBitsIsWord(w, NumberBits(data[0], BITS));
      FeedBitsConcat(w, NumberBits(data[0], BITS), Bits(data[1..]));
      FeedBytesIsBits(ShiftN(Xor(w, ByteWord(data[0])), BITS), data[1..]);
    }
  }

  // ---- Differences ----

  /** Two messages drive two registers apart exactly as their difference drives the difference. */
  lemma {:induction false} FeedBitsDifference(v: Word, w: Word, a: seq<bool>, b: seq<bool>)
    requires |a| == |b|
    ensures Xor(FeedBits(v, a), FeedBits(w, b)) == FeedBits(Xor(v, w), XorBits(a, b))
    decreases a
  {
    if a != [] {
      var x, y := Xor(v, Extend([a[0]])), Xor(w, Extend([b[0]]));
      ShiftXor(x, y);
      assert Xor(x, y) == Xor(Xor(v, w), Extend([XorBits(a, b)[0]]));
      assert XorBits(a, b)[1..] == XorBits(a[1..], b[1..]);
      FeedBitsDifference(Shift(x), Shift(y), a[1..], b[1..]);
    }
  }

  lemma {:induction false} FeedZeros(w: Word, bits: seq<bool>)
    requires AllClear(bits)
    ensures FeedBits(w, bits) == ZERO <==> w == ZERO
    decreases bits
  {
    if bits != [] {
      assert Xor(w, Extend([bits[0]])) == w;
      ShiftZero(w);
      FeedZeros(Shift(w), bits[1..]);
    }
  }

  lemma WindowSurvives(bits: seq<bool>, hit: nat)
    requires hit < |bits| <= 32 && bits[hit]
    ensures FeedBits(ZERO, bits) != ZERO
  {
    var w := Xor(ZERO, Extend(bits));
    assert w[hit];
    FeedBitsIsWord(ZERO, bits);
    ShiftNZero(w, |bits|);
  }

  ghost predicate AllClear(bits: seq<bool>) {
    forall i :: 0 <= i < |bits| ==> !bits[i]
  }

  lemma SplitSurvives(pre: seq<bool>, mid: seq<bool>, post: seq<bool>, hit: nat)
    requires AllClear(pre) && AllClear(post)
    requires hit < |mid| <= 32 && mid[hit]
    ensures FeedBits(ZERO, pre + (mid + post)) != ZERO
  {
    hide FeedBits;
    FeedBitsConcat(ZERO, pre, mid + post);
    FeedZeros(ZERO, pre);
    FeedBitsConcat(ZERO, mid, post);
    WindowSurvives(mid, hit);
    FeedZeros(FeedBits(ZERO, mid), post);
  }

  /** A non-zero difference confined to 32 consecutive bits leaves a non-zero register. */
  lemma BurstSurvives(bits: seq<bool>, first: nat, hit: nat)
    requires hit < |bits| && bits[hit]
    requires forall i :: 0 <= i < |bits| && bits[i] ==> first <= i < first + 32
    ensures FeedBits(ZERO, bits) != ZERO
  {
    hide FeedBits;
    var last := Min(first + 32, |bits|);
    var pre, mid, post := bits[..first], bits[first..last], bits[last..];
    assert bits == pre + (mid + post);
    SplitSurvives(pre, mid, post, hit - first);
  }

  lemma {:induction false} NumberInjective(a: seq<bool>, b: seq<bool>)
    requires |a| == |b| && Number(a) == Number(b)
    ensures a == b
  {
    if a != [] {
      NumberInjective(a[1..], b[1..]);
    }
  }

  lemma {:induction false} NumberOfBits(v: nat, n: nat)
    requires v < Pow2(n)
    ensures Number(NumberBits(v, n)) == v
  {
    if n != 0 {
      NumberOfBits(v / 2, n - 1);
      assert NumberBits(v, n)[1..] == NumberBits(v / 2, n - 1);
    }
  }

  lemma {:induction false} BitsInjective(a: bytes, b: bytes)
    requires |a| == |b| && Bits(a) == Bits(b)
    ensures a == b
  {
    if a != [] {
      assert Bits(a)[..8] == NumberBits(a[0], BITS) && Bits(a)[8..] == Bits(a[1..]);
      assert Bits(b)[..8] == NumberBits(b[0], BITS) && Bits(b)[8..] == Bits(b[1..]);
      assert Pow2(BITS) == 256;
      NumberOfBits(a[0], BITS);
      NumberOfBits(b[0], BITS);
      BitsInjective(a[1..], b[1..]);
    }
  }

  /** The damage between two messages lies within 32 consecutive bits, LSB-first. */
  ghost predicate IsBurst(a: bytes, b: bytes, first: nat)
    requires |a| == |b|
  {
    forall i :: 0 <= i < 8 * |a| && Bits(a)[i] != Bits(b)[i] ==> first <= i < first + 32
  }

  lemma ComplementInjective(x: Word, y: Word)
    requires Xor(x, ALL_ONES) == Xor(y, ALL_ONES)
    ensures Xor(x, y) == ZERO
  {
    forall i | 0 <= i < 32 ensures x[i] == y[i] {
      assert x[i] == !Xor(x, ALL_ONES)[i];
      assert y[i] == !Xor(y, ALL_ONES)[i];
    }
  }

  lemma DifferenceHit(a: seq<bool>, b: seq<bool>) returns (hit: nat)
    requires |a| == |b| && a != b
    ensures hit < |a| && XorBits(a, b)[hit]
  {
    hit :| hit < |a| && a[hit] != b[hit];
  }

  /** Every burst of at most 32 bits changes the checksum. */
  lemma BurstDetected(a: bytes, b: bytes, first: nat)
    requires |a| == |b| && a != b && IsBurst(a, b, first)
    ensures Crc32Of(a) != Crc32Of(b)
  {
    hide FeedBytes, FeedBits, Bits, XorBits, Number;
    if Bits(a) == Bits(b) {
      BitsInjective(a, b);
    }
    var hit := DifferenceHit(Bits(a), Bits(b));
    BurstSurvives(XorBits(Bits(a), Bits(b)), first, hit);
    FeedBytesIsBits(ALL_ONES, a);
    FeedBytesIsBits(ALL_ONES, b);
    FeedBitsDifference(ALL_ONES, ALL_ONES, Bits(a), Bits(b));
    assert Xor(ALL_ONES, ALL_ONES) == ZERO;
    var x, y := FeedBytes(ALL_ONES, a), FeedBytes(ALL_ONES, b);
    assert Xor(x, y) != ZERO;
    if Crc32Of(a) == Crc32Of(b) {
      NumberInjective(Xor(x, ALL_ONES), Xor(y, ALL_ONES));
      ComplementInjective(x, y);
    }
  }
}
