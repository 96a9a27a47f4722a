/** The published check value of the checksum: that of the nine digits 1 to 9. */
module CrcCheckValue {
  import opened Basics
  import opened Checksum

  /** Four bits, the least significant one first. */
  datatype Nibble = Nibble(a: bool, b: bool, c: bool, d: bool)

  /** A machine word, the least significant nibble first. */
  datatype Register = Register(n0: Nibble, n1: Nibble, n2: Nibble, n3: Nibble,
                               n4: Nibble, n5: Nibble, n6: Nibble, n7: Nibble)

  function Digit(h: int): Nibble {
    var below8 := if h >= 8 then h - 8 else h;
    var below4 := if below8 >= 4 then below8 - 4 else below8;
    var below2 := if below4 >= 2 then below4 - 2 else below4;
    Nibble(below2 == 1, below4 >= 2, below8 >= 4, h >= 8)
  }

  /** Eight hexadecimal digits, the most significant one first. */
  function Hex(h7: int, h6: int, h5: int, h4: int, h3: int, h2: int, h1: int, h0: int): Register {
    Register(Digit(h0), Digit(h1), Digit(h2), Digit(h3), Digit(h4), Digit(h5), Digit(h6), Digit(h7))
  }

  const POLYNOMIAL_HEX: Register := Hex(14, 13, 11, 8, 8, 3, 2, 0)

  function NibbleXor(x: Nibble, y: Nibble): Nibble {
    Nibble(x.a != y.a, x.b != y.b, x.c != y.c, x.d != y.d)
  }

  function RegisterXor(x: Register, y: Register): Register {
    Register(NibbleXor(x.n0, y.n0), NibbleXor(x.n1, y.n1), NibbleXor(x.n2, y.n2), NibbleXor(x.n3, y.n3),
             NibbleXor(x.n4, y.n4), NibbleXor(x.n5, y.n5), NibbleXor(x.n6, y.n6), NibbleXor(x.n7, y.n7))
  }

  function NibbleShift(x: Nibble, top: bool): Nibble {
    Nibble(x.b, x.c, x.d, top)
  }

  function ShiftedRight(x: Register): Register {
    Register(NibbleShift(x.n0, x.n1.a), NibbleShift(x.n1, x.n2.a), NibbleShift(x.n2, x.n3.a), NibbleShift(x.n3, x.n4.a),
             NibbleShift(x.n4, x.n5.a), NibbleShift(x.n5, x.n6.a), NibbleShift(x.n6, x.n7.a), NibbleShift(x.n7, false))
  }

  /** One bit shifted out, reducing by 0xEDB88320 when it is set. */
  function Shifted(x: Register): Register {
    if x.n0.a then RegisterXor(ShiftedRight(x), POLYNOMIAL_HEX) else ShiftedRight(x)
  }

  function ShiftedTwice(x: Register): Register {
    Shifted(Shifted(x))
  }

  function ShiftedByte(x: Register): Register {
    ShiftedTwice(ShiftedTwice(ShiftedTwice(ShiftedTwice(x))))
  }

  /** The register after one more byte, given as its two hexadecimal digits. */
  function Fed(x: Register, high: int, low: int): Register {
    ShiftedByte(RegisterXor(x, Hex(0, 0, 0, 0, 0, 0, high, low)))
  }

  // ---- Registers and bit lists ----

  function Bits(x: Nibble): (s: seq<bool>)
    ensures |s| == 4
  {
    [x.a, x.b, x.c, x.d]
  }

  function BitsOf(x: Register): Word {
    Bits(x.n0) + (Bits(x.n1) + (Bits(x.n2) + (Bits(x.n3) + (Bits(x.n4) + (Bits(x.n5) + (Bits(x.n6) + Bits(x.n7)))))))
  }

  lemma XorOne(x: bool, y: bool, s: seq<bool>, t: seq<bool>)
    requires |s| == |t|
    ensures XorBits([x] + s, [y] + t) == [x != y] + XorBits(s, t)
  {
    assert ([x] + s)[1..] == s && ([y] + t)[1..] == t;
  }

  lemma BitByBit(x: Nibble, s: seq<bool>)
    ensures Bits(x) + s == [x.a] + ([x.b] + ([x.c] + ([x.d] + s)))
  {
  }

  lemma XorNext(x: Nibble, y: Nibble, s: seq<bool>, t: seq<bool>)
    requires |s| == |t|
    ensures XorBits(Bits(x) + s, Bits(y) + t) == Bits(NibbleXor(x, y)) + XorBits(s, t)
  {
    hide XorBits, Bits;
    BitByBit(x, s);
    BitByBit(y, t);
    BitByBit(NibbleXor(x, y), XorBits(s, t));
    XorOne(x.d, y.d, s, t);
    XorOne(x.c, y.c, [x.d] + s, [y.d] + t);
    XorOne(x.b, y.b, [x.c] + ([x.d] + s), [y.c] + ([y.d] + t));
    XorOne(x.a, y.a, [x.b] + ([x.c] + ([x.d] + s)), [y.b] + ([y.c] + ([y.d] + t)));
  }

  lemma XorLast(x: Nibble, y: Nibble)
    ensures XorBits(Bits(x), Bits(y)) == Bits(NibbleXor(x, y))
  {
    XorNext(x, y, [], []);
    assert Bits(x) + [] == Bits(x) && Bits(y) + [] == Bits(y);
    assert XorBits([], []) == [];
  }

  lemma XorOf(x: Register, y: Register)
    ensures Xor(BitsOf(x), BitsOf(y)) == BitsOf(RegisterXor(x, y))
  {
    hide XorBits, Bits, NibbleXor;
    XorLast(x.n7, y.n7);
    var (s6, t6) := (Bits(x.n6) + Bits(x.n7), Bits(y.n6) + Bits(y.n7));
    XorNext(x.n6, y.n6, Bits(x.n7), Bits(y.n7));
    var (s5, t5) := (Bits(x.n5) + s6, Bits(y.n5) + t6);
    XorNext(x.n5, y.n5, s6, t6);
    var (s4, t4) := (Bits(x.n4) + s5, Bits(y.n4) + t5);
    XorNext(x.n4, y.n4, s5, t5);
    var (s3, t3) := (Bits(x.n3) + s4, Bits(y.n3) + t4);
    XorNext(x.n3, y.n3, s4, t4);
    var (s2, t2) := (Bits(x.n2) + s3, Bits(y.n2) + t3);
    XorNext(x.n2, y.n2, s3, t3);
    var (s1, t1) := (Bits(x.n1) + s2, Bits(y.n1) + t2);
    XorNext(x.n1, y.n1, s2, t2);
    XorNext(x.n0, y.n0, s1, t1);
  }

  lemma ShiftNext(x: Nibble, s: seq<bool>)
    requires s != []
    ensures (Bits(x) + s)[1..] + [false] == Bits(NibbleShift(x, s[0])) + (s[1..] + [false])
  {
  }

  lemma ShiftLast(x: Nibble)
    ensures Bits(x)[1..] + [false] == Bits(NibbleShift(x, false))
  {
  }

  lemma FirstBit(x: Nibble, s: seq<bool>)
    ensures (Bits(x) + s)[0] == x.a && Bits(x)[0] == x.a
  {
  }

  lemma ShiftRightOf(x: Register)
    ensures ShiftRight(BitsOf(x)) == BitsOf(ShiftedRight(x)) && BitsOf(x)[0] == x.n0.a
  {
    hide Bits, NibbleShift;
    var s7 := Bits(x.n7);
    ShiftLast(x.n7);
    FirstBit(x.n7, []);
    var s6 := Bits(x.n6) + s7;
    ShiftNext(x.n6, s7);
    FirstBit(x.n6, s7);
    var s5 := Bits(x.n5) + s6;
    ShiftNext(x.n5, s6);
    FirstBit(x.n5, s6);
    var s4 := Bits(x.n4) + s5;
    ShiftNext(x.n4, s5);
    FirstBit(x.n4, s5);
    var s3 := Bits(x.n3) + s4;
    ShiftNext(x.n3, s4);
    FirstBit(x.n3, s4);
    var s2 := Bits(x.n2) + s3;
    ShiftNext(x.n2, s3);
    FirstBit(x.n2, s3);
    var s1 := Bits(x.n1) + s2;
    ShiftNext(x.n1, s2);
    FirstBit(x.n1, s2);
    ShiftNext(x.n0, s1);
    FirstBit(x.n0, s1);
  }

  lemma Regrouped(a: seq<bool>, b: seq<bool>, c: seq<bool>, d: seq<bool>,
                  e: seq<bool>, f: seq<bool>, g: seq<bool>, h: seq<bool>)
    ensures a + (b + (c + (d + (e + (f + (g + h)))))) == a + b + c + d + e + f + g + h
  {
    var t3 := e + (f + (g + h));
    assert t3 == e + f + g + h;
    var t := b + (c + (d + t3));
    assert t == b + c + d + t3;
    assert a + t == a + b + c + d + t3;
    assert a + b + c + d + (e + f + g + h) == a + b + c + d + e + f + g + h;
  }

  lemma PolynomialOf()
    ensures BitsOf(POLYNOMIAL_HEX) == POLYNOMIAL
  {
    var p := POLYNOMIAL_HEX;
    Regrouped(Bits(p.n0), Bits(p.n1), Bits(p.n2), Bits(p.n3), Bits(p.n4), Bits(p.n5), Bits(p.n6), Bits(p.n7));
  }

  lemma Masked(bit: bool)
    ensures And(POLYNOMIAL, Negated(bit)) == if bit then POLYNOMIAL else Filled(32, false)
  {
    hide POLYNOMIAL;
  }

  lemma XorZero(w: Word)
    ensures Xor(w, Filled(32, false)) == w
  {
  }

  lemma ShiftOf(x: Register)
    ensures Shift(BitsOf(x)) == BitsOf(Shifted(x))
  {
    hide Bits, BitsOf, RegisterXor, ShiftedRight, POLYNOMIAL, POLYNOMIAL_HEX, XorBits, AndBits, ShiftRight, Filled;
    ShiftRightOf(x);
    PolynomialOf();
    Masked(x.n0.a);
    if x.n0.a {
      XorOf(ShiftedRight(x), POLYNOMIAL_HEX);
    } else {
      XorZero(ShiftRight(BitsOf(x)));
    }
  }

  lemma ShiftsOf(x: Register)
    ensures ShiftN(BitsOf(x), BITS) == BitsOf(ShiftedByte(x))
  {
    hide Shift, BitsOf, Shifted;
    var x1 := Shifted(x);
    var x2 := Shifted(x1);
    var x3 := Shifted(x2);
    var x4 := Shifted(x3);
    var x5 := Shifted(x4);
    var x6 := Shifted(x5);
    var x7 := Shifted(x6);
    ShiftOf(x);
    ShiftOf(x1);
    ShiftOf(x2);
    ShiftOf(x3);
    ShiftOf(x4);
    ShiftOf(x5);
    ShiftOf(x6);
    ShiftOf(x7);
    assert ShiftN(BitsOf(x), 8) == ShiftN(BitsOf(x2), 6) == ShiftN(BitsOf(x4), 4) == ShiftN(BitsOf(x6), 2);
  }

  lemma DigitHalves(h: nat)
    requires h < 16
    ensures var x, h1, h2, h3 := Digit(h), h / 2, h / 2 / 2, h / 2 / 2 / 2;
      x.a == (h % 2 == 1) && x.b == (h1 % 2 == 1) && x.c == (h2 % 2 == 1) && x.d == (h3 % 2 == 1)
  {
  }

  lemma FourBits(h: nat)
    ensures var h1, h2, h3 := h / 2, h / 2 / 2, h / 2 / 2 / 2;
      NumberBits(h, 4) == [h % 2 == 1, h1 % 2 == 1, h2 % 2 == 1, h3 % 2 == 1]
  {
    var h1, h2, h3 := h / 2, h / 2 / 2, h / 2 / 2 / 2;
    assert NumberBits(h3, 1) == [h3 % 2 == 1];
    assert NumberBits(h2, 2) == [h2 % 2 == 1] + NumberBits(h3, 1);
    assert NumberBits(h1, 3) == [h1 % 2 == 1] + NumberBits(h2, 2);
  }

  lemma DigitBits(h: nat)
    requires h < 16
    ensures NumberBits(h, 4) == Bits(Digit(h))
  {
    hide NumberBits, Digit;
    FourBits(h);
    DigitHalves(h);
  }

  lemma TwoDigits(high: nat, low: nat)
    requires high < 16 && low < 16
    ensures NumberBits(16 * high + low, 8) == Bits(Digit(low)) + Bits(Digit(high))
  {
    hide Bits, Digit;
    var v := 16 * high + low;
    DigitBits(low);
    DigitBits(high);
    assert Pow2(4) == 16;
    LowBits(v, high, low, 4);
  }

  lemma {:induction false} LowBits(v: nat, high: nat, low: nat, k: nat)
    requires v == Pow2(k) * high + low && low < Pow2(k)
    ensures NumberBits(v, k + 4) == NumberBits(low, k) + NumberBits(high, 4)
    decreases k
  {
    if k != 0 {
      var half := Pow2(k - 1) * high;
      assert v == 2 * half + low;
      LowBits(v / 2, high, low / 2, k - 1);
    } else {
      assert v == high;
    }
  }

  lemma ZeroDigits()
    ensures Bits(Digit(0)) == Filled(4, false) && Bits(Digit(15)) == Filled(4, true)
  {
  }

  lemma ByteOf(high: nat, low: nat)
    requires high < 16 && low < 16
    ensures ByteWord(16 * high + low) == BitsOf(Hex(0, 0, 0, 0, 0, 0, high, low))
  {
    hide Bits, Digit, NumberBits;
    TwoDigits(high, low);
    ZeroDigits();
    var x, y, z := Bits(Digit(low)), Bits(Digit(high)), Filled(4, false);
    Regrouped(x, y, z, z, z, z, z, z);
    assert z + z == Filled(8, false) && Filled(8, false) + Filled(8, false) == Filled(16, false);
    assert x + y + z + z + z + z + z + z == x + y + (z + z + (z + z) + (z + z));
    assert Filled(16, false) + Filled(8, false) == Filled(24, false);
  }

  lemma FilledJoin(m: nat, n: nat, bit: bool)
    ensures Filled(m, bit) + Filled(n, bit) == Filled(m + n, bit)
  {
  }

  lemma OnesOf()
    ensures BitsOf(Hex(15, 15, 15, 15, 15, 15, 15, 15)) == ALL_ONES
  {
    hide Bits, Digit, Filled;
    ZeroDigits();
    var z := Filled(4, true);
    Regrouped(z, z, z, z, z, z, z, z);
    FilledJoin(4, 4, true);
    FilledJoin(8, 4, true);
    FilledJoin(12, 4, true);
    FilledJoin(16, 4, true);
    FilledJoin(20, 4, true);
    FilledJoin(24, 4, true);
    FilledJoin(28, 4, true);
  }

  function Value(x: Nibble): nat {
    (if x.a then 1 else 0) + 2 * (if x.b then 1 else 0) + 4 * (if x.c then 1 else 0) + 8 * (if x.d then 1 else 0)
  }

  lemma NumberNext(x: Nibble, s: seq<bool>)
    ensures Number(Bits(x) + s) == Value(x) + 16 * Number(s)
  {
    var t1, t2, t3 := [x.d] + s, [x.c] + ([x.d] + s), [x.b] + ([x.c] + ([x.d] + s));
    assert Bits(x) + s == [x.a] + t3;
    assert t1[1..] == s && t2[1..] == t1 && t3[1..] == t2 && ([x.a] + t3)[1..] == t3;
    assert Number(t1) == (if x.d then 1 else 0) + 2 * Number(s);
    assert Number(t2) == (if x.c then 1 else 0) + 2 * Number(t1);
    assert Number(t3) == (if x.b then 1 else 0) + 2 * Number(t2);
  }

  lemma NumberLast(x: Nibble)
    ensures Number(Bits(x)) == Value(x)
  {
    NumberNext(x, []);
    assert Bits(x) + [] == Bits(x);
  }

  lemma NumberOf(x: Register)
    ensures Number(BitsOf(x)) == Value(x.n0) + 16 * (Value(x.n1) + 16 * (Value(x.n2) + 16 * (Value(x.n3)
      + 16 * (Value(x.n4) + 16 * (Value(x.n5) + 16 * (Value(x.n6) + 16 * Value(x.n7)))))))
  {
    hide Bits, Value, Number;
    NumberLast(x.n7);
    var s6 := Bits(x.n6) + Bits(x.n7);
    NumberNext(x.n6, Bits(x.n7));
    var s5 := Bits(x.n5) + s6;
    NumberNext(x.n5, s6);
    var s4 := Bits(x.n4) + s5;
    NumberNext(x.n4, s5);
    var s3 := Bits(x.n3) + s4;
    NumberNext(x.n3, s4);
    var s2 := Bits(x.n2) + s3;
    NumberNext(x.n2, s3);
    var s1 := Bits(x.n1) + s2;
    NumberNext(x.n1, s2);
    NumberNext(x.n0, s1);
  }

  lemma FedOf(x: Register, high: nat, low: nat)
    requires high < 16 && low < 16
    ensures ShiftN(Xor(BitsOf(x), ByteWord(16 * high + low)), BITS) == BitsOf(Fed(x, high, low))
  {
    hide BitsOf, ByteWord, Hex, RegisterXor, ShiftedByte, ShiftN, XorBits;
    ByteOf(high, low);
    var y := Hex(0, 0, 0, 0, 0, 0, high, low);
    XorOf(x, y);
    ShiftsOf(RegisterXor(x, y));
  }

  /** A digit, as the text has it: 0x30 and its value. */
  lemma DigitFed(x: Register, digit: nat, rest: bytes)
    requires digit < 10
    ensures FeedBytes(BitsOf(x), [48 + digit] + rest) == FeedBytes(BitsOf(Fed(x, 3, digit)), rest)
  {
    hide BitsOf, ByteWord, Fed, ShiftN, XorBits;
    FedOf(x, 3, digit);
    assert ([48 + digit] + rest)[1..] == rest;
  }

  lemma TwoShifts(x: Register, y: Register, z: Register)
    requires Shifted(x) == y && Shifted(y) == z
    ensures ShiftedTwice(x) == z
  {
    hide Shifted;
  }

  lemma FirstShifts()
    ensures ShiftedByte(Hex(15, 15, 15, 15, 15, 15, 12, 14)) == Hex(7, 12, 2, 3, 1, 0, 4, 8)
  {
    hide ShiftedTwice;
    TwoShifts(Hex(15, 15, 15, 15, 15, 15, 12, 14), Hex(7, 15, 15, 15, 15, 15, 14, 7), Hex(13, 2, 4, 7, 7, 12, 13, 3));
    TwoShifts(Hex(13, 2, 4, 7, 7, 12, 13, 3), Hex(8, 4, 9, 11, 3, 13, 4, 9), Hex(10, 15, 15, 5, 1, 13, 8, 4));
    TwoShifts(Hex(10, 15, 15, 5, 1, 13, 8, 4), Hex(5, 7, 15, 10, 8, 14, 12, 2), Hex(2, 11, 15, 13, 4, 7, 6, 1));
    TwoShifts(Hex(2, 11, 15, 13, 4, 7, 6, 1), Hex(15, 8, 4, 6, 2, 0, 9, 0), Hex(7, 12, 2, 3, 1, 0, 4, 8));
  }

  lemma Step1()
    ensures Fed(Hex(15, 15, 15, 15, 15, 15, 15, 15), 3, 1) == Hex(7, 12, 2, 3, 1, 0, 4, 8)
  {
    hide ShiftedByte, NibbleXor, Digit;
    FirstDigits();
    FirstShifts();
  }

  lemma FirstDigits()
    ensures NibbleXor(Digit(15), Digit(0)) == Digit(15)
    ensures NibbleXor(Digit(15), Digit(3)) == Digit(12)
    ensures NibbleXor(Digit(15), Digit(1)) == Digit(14)
  {
  }

  lemma Step2()
    ensures Fed(Hex(7, 12, 2, 3, 1, 0, 4, 8), 3, 2) == Hex(11, 0, 10, 12, 11, 11, 3, 2)
  {
    hide ShiftedTwice;
    assert RegisterXor(Hex(7, 12, 2, 3, 1, 0, 4, 8), Hex(0, 0, 0, 0, 0, 0, 3, 2)) == Hex(7, 12, 2, 3, 1, 0, 7, 10);
    TwoShifts(Hex(7, 12, 2, 3, 1, 0, 7, 10), Hex(3, 14, 1, 1, 8, 8, 3, 13), Hex(15, 2, 11, 0, 4, 7, 3, 14));
    TwoShifts(Hex(15, 2, 11, 0, 4, 7, 3, 14), Hex(7, 9, 5, 8, 2, 3, 9, 15), Hex(13, 1, 1, 4, 9, 2, 14, 15));
    TwoShifts(Hex(13, 1, 1, 4, 9, 2, 14, 15), Hex(8, 5, 3, 2, 12, 10, 5, 7), Hex(10, 15, 2, 1, 14, 6, 0, 11));
    TwoShifts(Hex(10, 15, 2, 1, 14, 6, 0, 11), Hex(11, 10, 2, 8, 7, 0, 2, 5), Hex(11, 0, 10, 12, 11, 11, 3, 2));
  }

  lemma Step3()
    ensures Fed(Hex(11, 0, 10, 12, 11, 11, 3, 2), 3, 3) == Hex(7, 7, 11, 7, 9, 12, 2, 13)
  {
    hide ShiftedTwice;
    assert RegisterXor(Hex(11, 0, 10, 12, 11, 11, 3, 2), Hex(0, 0, 0, 0, 0, 0, 3, 3))
      == Hex(11, 0, 10, 12, 11, 11, 0, 1);
    TwoShifts(Hex(11, 0, 10, 12, 11, 11, 0, 1), Hex(11, 5, 14, 14, 13, 14, 10, 0), Hex(5, 10, 15, 7, 6, 15, 5, 0));
    TwoShifts(Hex(5, 10, 15, 7, 6, 15, 5, 0), Hex(2, 13, 7, 11, 11, 7, 10, 8), Hex(1, 6, 11, 13, 13, 11, 13, 4));
    TwoShifts(Hex(1, 6, 11, 13, 13, 11, 13, 4), Hex(0, 11, 5, 14, 14, 13, 14, 10), Hex(0, 5, 10, 15, 7, 6, 15, 5));
    TwoShifts(Hex(0, 5, 10, 15, 7, 6, 15, 5), Hex(14, 15, 6, 15, 3, 8, 5, 10), Hex(7, 7, 11, 7, 9, 12, 2, 13));
  }

  lemma Step4()
    ensures Fed(Hex(7, 7, 11, 7, 9, 12, 2, 13), 3, 4) == Hex(6, 4, 1, 12, 1, 15, 5, 12)
  {
    hide ShiftedTwice;
    assert RegisterXor(Hex(7, 7, 11, 7, 9, 12, 2, 13), Hex(0, 0, 0, 0, 0, 0, 3, 4)) == Hex(7, 7, 11, 7, 9, 12, 1, 9);
    TwoShifts(Hex(7, 7, 11, 7, 9, 12, 1, 9), Hex(13, 6, 6, 3, 4, 13, 2, 12), Hex(6, 11, 3, 1, 10, 6, 9, 6));
    TwoShifts(Hex(6, 11, 3, 1, 10, 6, 9, 6), Hex(3, 5, 9, 8, 13, 3, 4, 11), Hex(15, 7, 7, 4, 14, 10, 8, 5));
    TwoShifts(Hex(15, 7, 7, 4, 14, 10, 8, 5), Hex(9, 6, 0, 2, 15, 6, 6, 2), Hex(4, 11, 0, 1, 7, 11, 3, 1));
    TwoShifts(Hex(4, 11, 0, 1, 7, 11, 3, 1), Hex(12, 8, 3, 8, 3, 14, 11, 8), Hex(6, 4, 1, 12, 1, 15, 5, 12));
  }

  lemma Step5()
    ensures Fed(Hex(6, 4, 1, 12, 1, 15, 5, 12), 3, 5) == Hex(3, 4, 0, 10, 12, 5, 14, 3)
  {
    hide ShiftedTwice;
    assert RegisterXor(Hex(6, 4, 1, 12, 1, 15, 5, 12), Hex(0, 0, 0, 0, 0, 0, 3, 5)) == Hex(6, 4, 1, 12, 1, 15, 6, 9);
    TwoShifts(Hex(6, 4, 1, 12, 1, 15, 6, 9), Hex(13, 15, 11, 6, 8, 12, 9, 4), Hex(6, 15, 13, 11, 4, 6, 4, 10));
    TwoShifts(Hex(6, 15, 13, 11, 4, 6, 4, 10), Hex(3, 7, 14, 13, 10, 3, 2, 5), Hex(15, 6, 4, 14, 5, 2, 11, 2));
    TwoShifts(Hex(15, 6, 4, 14, 5, 2, 11, 2), Hex(7, 11, 2, 7, 2, 9, 5, 9), Hex(13, 0, 2, 11, 1, 7, 8, 12));
    TwoShifts(Hex(13, 0, 2, 11, 1, 7, 8, 12), Hex(6, 8, 1, 5, 8, 11, 12, 6), Hex(3, 4, 0, 10, 12, 5, 14, 3));
  }

  lemma Step6()
    ensures Fed(Hex(3, 4, 0, 10, 12, 5, 14, 3), 3, 6) == Hex(15, 6, 8, 13, 2, 12, 9, 14)
  {
    hide ShiftedTwice;
    assert RegisterXor(Hex(3, 4, 0, 10, 12, 5, 14, 3), Hex(0, 0, 0, 0, 0, 0, 3, 6)) == Hex(3, 4, 0, 10, 12, 5, 13, 5);
    TwoShifts(Hex(3, 4, 0, 10, 12, 5, 13, 5), Hex(15, 7, 11, 13, 14, 1, 12, 10), Hex(7, 11, 13, 14, 15, 0, 14, 5));
    TwoShifts(Hex(7, 11, 13, 14, 15, 0, 14, 5), Hex(13, 0, 5, 7, 15, 11, 5, 2), Hex(6, 8, 2, 11, 15, 13, 10, 9));
    TwoShifts(Hex(6, 8, 2, 11, 15, 13, 10, 9), Hex(13, 9, 10, 13, 7, 13, 15, 4), Hex(6, 12, 13, 6, 11, 14, 15, 10));
    TwoShifts(Hex(6, 12, 13, 6, 11, 14, 15, 10), Hex(3, 6, 6, 11, 5, 15, 7, 13), Hex(15, 6, 8, 13, 2, 12, 9, 14));
  }

  lemma Step7()
    ensures Fed(Hex(15, 6, 8, 13, 2, 12, 9, 14), 3, 7) == Hex(10, 15, 15, 12, 9, 6, 6, 0)
  {
    hide ShiftedTwice;
    assert RegisterXor(Hex(15, 6, 8, 13, 2, 12, 9, 14), Hex(0, 0, 0, 0, 0, 0, 3, 7)) == Hex(15, 6, 8, 13, 2, 12, 10, 9);
    TwoShifts(Hex(15, 6, 8, 13, 2, 12, 10, 9), Hex(9, 6, 15, 14, 1, 5, 7, 4), Hex(4, 11, 7, 15, 0, 10, 11, 10));
    TwoShifts(Hex(4, 11, 7, 15, 0, 10, 11, 10), Hex(2, 5, 11, 15, 8, 5, 5, 13), Hex(15, 15, 6, 7, 4, 1, 8, 14));
    TwoShifts(Hex(15, 15, 6, 7, 4, 1, 8, 14), Hex(7, 15, 11, 3, 10, 0, 12, 7), Hex(13, 2, 6, 1, 5, 3, 4, 3));
    TwoShifts(Hex(13, 2, 6, 1, 5, 3, 4, 3), Hex(8, 4, 8, 8, 2, 10, 8, 1), Hex(10, 15, 15, 12, 9, 6, 6, 0));
  }

  lemma Step8()
    ensures Fed(Hex(10, 15, 15, 12, 9, 6, 6, 0), 3, 8) == Hex(6, 5, 1, 15, 2, 5, 5, 0)
  {
    hide ShiftedTwice;
    assert RegisterXor(Hex(10, 15, 15, 12, 9, 6, 6, 0), Hex(0, 0, 0, 0, 0, 0, 3, 8)) == Hex(10, 15, 15, 12, 9, 6, 5, 8);
    TwoShifts(Hex(10, 15, 15, 12, 9, 6, 5, 8), Hex(5, 7, 15, 14, 4, 11, 2, 12), Hex(2, 11, 15, 15, 2, 5, 9, 6));
    TwoShifts(Hex(2, 11, 15, 15, 2, 5, 9, 6), Hex(1, 5, 15, 15, 9, 2, 12, 11), Hex(14, 7, 4, 7, 4, 10, 4, 5));
    TwoShifts(Hex(14, 7, 4, 7, 4, 10, 4, 5), Hex(9, 14, 1, 11, 2, 6, 0, 2), Hex(4, 15, 0, 13, 9, 3, 0, 1));
    TwoShifts(Hex(4, 15, 0, 13, 9, 3, 0, 1), Hex(12, 10, 3, 14, 4, 10, 10, 0), Hex(6, 5, 1, 15, 2, 5, 5, 0));
  }

  lemma Step9()
    ensures Fed(Hex(6, 5, 1, 15, 2, 5, 5, 0), 3, 9) == Hex(3, 4, 0, 11, 12, 6, 13, 9)
  {
    hide ShiftedTwice;
    assert RegisterXor(Hex(6, 5, 1, 15, 2, 5, 5, 0), Hex(0, 0, 0, 0, 0, 0, 3, 9)) == Hex(6, 5, 1, 15, 2, 5, 6, 9);
    TwoShifts(Hex(6, 5, 1, 15, 2, 5, 6, 9), Hex(13, 15, 3, 7, 1, 1, 9, 4), Hex(6, 15, 9, 11, 8, 8, 12, 10));
    TwoShifts(Hex(6, 15, 9, 11, 8, 8, 12, 10), Hex(3, 7, 12, 13, 12, 4, 6, 5), Hex(15, 6, 5, 14, 6, 1, 1, 2));
    TwoShifts(Hex(15, 6, 5, 14, 6, 1, 1, 2), Hex(7, 11, 2, 15, 3, 0, 8, 9), Hex(13, 0, 2, 15, 1, 11, 6, 4));
    TwoShifts(Hex(13, 0, 2, 15, 1, 11, 6, 4), Hex(6, 8, 1, 7, 8, 13, 11, 2), Hex(3, 4, 0, 11, 12, 6, 13, 9));
  }

  /** The checksum of "123456789" is 0xCBF43926, the check value of the CRC-32. */
  lemma CheckValue()
    ensures Crc32Of([49, 50, 51, 52, 53, 54, 55, 56, 57]) == 0xCBF43926
  {
    hide BitsOf, Fed, FeedBytes, Number, Xor, ALL_ONES, RegisterXor, Hex;
    Step1();
    Step2();
    Step3();
    Step4();
    Step5();
    Step6();
    Step7();
    Step8();
    Step9();
    OnesOf();
    DigitFed(Hex(15, 15, 15, 15, 15, 15, 15, 15), 1, [50, 51, 52, 53, 54, 55, 56, 57]);
    assert [49] + [50, 51, 52, 53, 54, 55, 56, 57] == [49, 50, 51, 52, 53, 54, 55, 56, 57];
    DigitFed(Hex(7, 12, 2, 3, 1, 0, 4, 8), 2, [51, 52, 53, 54, 55, 56, 57]);
    assert [50] + [51, 52, 53, 54, 55, 56, 57] == [50, 51, 52, 53, 54, 55, 56, 57];
    DigitFed(Hex(11, 0, 10, 12, 11, 11, 3, 2), 3, [52, 53, 54, 55, 56, 57]);
    assert [51] + [52, 53, 54, 55, 56, 57] == [51, 52, 53, 54, 55, 56, 57];
    DigitFed(Hex(7, 7, 11, 7, 9, 12, 2, 13), 4, [53, 54, 55, 56, 57]);
    assert [52] + [53, 54, 55, 56, 57] == [52, 53, 54, 55, 56, 57];
    DigitFed(Hex(6, 4, 1, 12, 1, 15, 5, 12), 5, [54, 55, 56, 57]);
    assert [53] + [54, 55, 56, 57] == [53, 54, 55, 56, 57];
    DigitFed(Hex(3, 4, 0, 10, 12, 5, 14, 3), 6, [55, 56, 57]);
    assert [54] + [55, 56, 57] == [54, 55, 56, 57];
    DigitFed(Hex(15, 6, 8, 13, 2, 12, 9, 14), 7, [56, 57]);
    assert [55] + [56, 57] == [55, 56, 57];
    DigitFed(Hex(10, 15, 15, 12, 9, 6, 6, 0), 8, [57]);
    assert [56] + [57] == [56, 57];
    DigitFed(Hex(6, 5, 1, 15, 2, 5, 5, 0), 9, []);
    assert [57] + [] == [57];
    NothingFed(Hex(3, 4, 0, 11, 12, 6, 13, 9));
    CheckNumber();
  }

  lemma NothingFed(x: Register)
    ensures FeedBytes(BitsOf(x), []) == BitsOf(x)
  {
  }

  lemma DigitValue(h: nat)
    requires h < 16
    ensures Value(Digit(h)) == h
  {
  }

  lemma CheckNumber()
    ensures Number(Xor(BitsOf(Hex(3, 4, 0, 11, 12, 6, 13, 9)), BitsOf(Hex(15, 15, 15, 15, 15, 15, 15, 15))))
      == 0xCBF43926
  {
    hide BitsOf, XorBits, RegisterXor, Value, Digit, Number;
    XorOf(Hex(3, 4, 0, 11, 12, 6, 13, 9), Hex(15, 15, 15, 15, 15, 15, 15, 15));
    FinalXor();
    NumberOf(Hex(12, 11, 15, 4, 3, 9, 2, 6));
    DigitValue(0xC);
    DigitValue(0xB);
    DigitValue(0xF);
    DigitValue(4);
    DigitValue(3);
    DigitValue(9);
    DigitValue(2);
    DigitValue(6);
  }

  lemma FinalXor()
    ensures RegisterXor(Hex(3, 4, 0, 11, 12, 6, 13, 9), Hex(15, 15, 15, 15, 15, 15, 15, 15))
      == Hex(12, 11, 15, 4, 3, 9, 2, 6)
  {
  }
}
