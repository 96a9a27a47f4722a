/** Decimal numbers as the broker prints them into member ids, file names and file bodies, and reads
    them back. */
module Decimal {
  import opened Basics

  predicate IsDigit(c: byte) { 48 <= c <= 57 }

  predicate AllDigits(s: bytes) {
    forall i :: 0 <= i < |s| ==> IsDigit(s[i])
  }

  /** std::to_string of a number that is not negative. */
  function Printed(n: nat): (s: bytes)
    ensures s != [] && AllDigits(s) && (n > 0 ==> s[0] != 48)
  {
    if n < 10 then [48 + n] else Printed(n / 10) + [48 + n % 10]
  }

  /** The number some digits stand for. */
  function Number(s: bytes): nat
    requires AllDigits(s)
  {
    if s == [] then 0 else 10 * Number(s[..|s| - 1]) + (s[|s| - 1] - 48)
  }

  lemma {:induction false} NumberOfPrinted(n: nat)
    ensures Number(Printed(n)) == n
  {
    if n >= 10 {
      NumberOfPrinted(n / 10);
      assert Printed(n)[..|Printed(n)| - 1] == Printed(n / 10);
    }
  }

  lemma PrintedInjective(a: nat, b: nat)
    requires Printed(a) == Printed(b)
    ensures a == b
  {
    NumberOfPrinted(a);
    NumberOfPrinted(b);
  }

  /** Only the canonical digits of a number are printed. */
  lemma {:induction false} PrintedOfNumber(s: bytes)
    requires AllDigits(s) && s != [] && (|s| > 1 ==> s[0] != 48)
    ensures Printed(Number(s)) == s
    ensures |s| > 1 ==> Number(s) >= 10
    ensures s[0] != 48 ==> Number(s) >= 1
    decreases |s|
  {
    var n := |s| - 1;
    var rest, digit := s[..n], s[n] - 48;
    assert Number(s) == 10 * Number(rest) + digit;
    if n > 0 {
      PrintedOfNumber(rest);
      assert Number(s) / 10 == Number(rest) && Number(s) % 10 == digit;
      assert s == rest + [s[n]];
    } else {
      assert rest == [] && Number(rest) == 0;
      assert s == [s[0]];
    }
  }

  // ---- Leading zeros ----

  function Zeros(n: nat): (s: bytes)
    ensures |s| == n && forall i :: 0 <= i < n ==> s[i] == 48
  {
    if n == 0 then [] else [48] + Zeros(n - 1)
  }

  /** std::setw(width) with std::setfill('0'). */
  function Padded(n: nat, width: nat): (s: bytes)
    ensures AllDigits(s) && s != []
  {
    var s := Printed(n);
    if |s| >= width then s else Zeros(width - |s|) + s
  }

  lemma {:induction false} ZerosCountNothing(zeros: nat, s: bytes)
    requires AllDigits(s)
    ensures AllDigits(Zeros(zeros) + s) && Number(Zeros(zeros) + s) == Number(s)
    decreases zeros + |s|
  {
    var t := Zeros(zeros) + s;
    if s != [] {
      ZerosCountNothing(zeros, s[..|s| - 1]);
      assert t[..|t| - 1] == Zeros(zeros) + s[..|s| - 1];
    } else if zeros > 0 {
      ZerosCountNothing(zeros - 1, []);
      assert t[..|t| - 1] == Zeros(zeros - 1) + [];
    }
  }

  lemma NumberOfPadded(n: nat, width: nat)
    ensures Number(Padded(n, width)) == n
  {
    NumberOfPrinted(n);
    var s := Printed(n);
    if |s| < width { ZerosCountNothing(width - |s|, s); }
  }

  // ---- Parsing with an overflow guard ----

  lemma {:induction false} NumberGrows(s: bytes, n: nat)
    requires AllDigits(s) && n <= |s|
    ensures Number(s[..n]) <= Number(s)
    decreases |s| - n
  {
    if n < |s| {
      NumberGrows(s, n + 1);
      assert s[..n + 1][..n] == s[..n];
    } else {
      assert s[..n] == s;
    }
  }

  /** The digit loops of ParseBaseOffset and ParseOffsetFilename: the guard before each digit rejects
      exactly the numbers beyond the limit, and nothing on the way overflows. */
  method ParseNumber(s: bytes, limit: nat) returns (r: Option<nat>)
    requires limit >= 9
    ensures r == if AllDigits(s) && Number(s) <= limit then Some(Number(s)) else None
  {
    var parsed: nat := 0;
    for i := 0 to |s|
      invariant AllDigits(s[..i]) && parsed == Number(s[..i]) <= limit
    {
      if s[i] < 48 || s[i] > 57 {
        return None;
      }
      var digit := s[i] - 48;
      assert s[..i + 1][..i] == s[..i];
      assert Number(s[..i + 1]) == 10 * parsed + digit;
      if parsed > (limit - digit) / 10 {
        if AllDigits(s) { NumberGrows(s, i + 1); }
        return None;
      }
      parsed := parsed * 10 + digit;
    }
    assert s[..|s|] == s;
    return Some(parsed);
  }
}
