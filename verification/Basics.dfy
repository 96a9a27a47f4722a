/** Machine integers, bytes and the Status/Result shape shared by every component. */
module Basics {
  const TWO_31: int := 0x8000_0000
  const TWO_32: int := 0x1_0000_0000
  const TWO_63: int := 0x8000_0000_0000_0000
  const TWO_64: int := 0x1_0000_0000_0000_0000

  const MAX_OFFSET: nat := 0x7FFF_FFFF_FFFF_FFFF

  type byte = x: int | 0 <= x < 256
  type u16 = x: int | 0 <= x < 0x1_0000
  type u32 = x: int | 0 <= x < 0x1_0000_0000
  type u64 = x: int | 0 <= x < 0x1_0000_0000_0000_0000
  type i32 = x: int | -0x8000_0000 <= x < 0x8000_0000
  type i64 = x: int | -0x8000_0000_0000_0000 <= x < 0x8000_0000_0000_0000

  type bytes = seq<byte>

  /** The cast of an unsigned 64-bit value to a signed one. */
  function ToI64(v: u64): (r: i64) {
    if v < TWO_63 then v else v - TWO_64
  }

  /** The cast of a signed 64-bit value to an unsigned one. */
  function FromI64(v: i64): (r: u64) {
    if v >= 0 then v else v + TWO_64
  }

  function ToI32(v: u32): (r: i32) {
    if v < TWO_31 then v else v - TWO_32
  }

  function FromI32(v: i32): (r: u32) {
    if v >= 0 then v else v + TWO_32
  }

  function Min(a: int, b: int): int { if a < b then a else b }
  function Max(a: int, b: int): int { if a < b then b else a }

  /** The error codes of Status that the modelled code tells apart. UnknownMember and
      IllegalGeneration are the two coordinator statuses the broker recognises by message. */
  datatype ErrorCode =
    | InvalidArgument
    | NotFound
    | IoError
    | Corruption
    | Internal
    | LengthError
    | UnknownMember
    | IllegalGeneration

  datatype Result<+T> = Ok(value: T) | Err(error: ErrorCode) {
    predicate IsFailure() { Err? }

    function PropagateFailure<U>(): Result<U>
      requires Err?
    {
      Err(error)
    }

    function Extract(): T
      requires Ok?
    {
      value
    }
  }

  datatype Option<+T> = None | Some(value: T)

  datatype Unit = Unit

  lemma SplitAt<T>(s: seq<T>, i: nat)
    requires i < |s|
    ensures s == s[..i] + ([s[i]] + s[i + 1..])
  {
  }

  lemma MiddleOf<T>(a: seq<T>, b: seq<T>, c: seq<T>, i: nat)
    requires i < |b|
    ensures (a + (b + c))[|a| + i] == b[i]
    ensures (a + (b + c))[..|a| + i] == a + b[..i]
  {
  }

  lemma SliceOfPrefix<T>(s: seq<T>, keep: nat, i: nat, j: nat)
    requires i <= j <= keep <= |s|
    ensures s[..keep][i..j] == s[i..j]
  {
  }
}
