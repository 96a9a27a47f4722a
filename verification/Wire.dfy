/** BodyReader's primitives, and the encoders they undo. */
module Wire {
  import opened Basics
  import opened Endian

  /** A value read from the front of a byte string, and what is left. */
  datatype Parsed<+T> = Parsed(value: T, rest: bytes)

  function TakeUInt(data: bytes, width: nat): (r: Result<Parsed<nat>>)
    ensures r.Ok? ==> r.value.value < Pow256(width) && |data| == width + |r.value.rest|
  {
    if |data| < width then Err(InvalidArgument)
    else
      BigEndianBound(data[..width]);
      Ok(Parsed(FromBigEndian(data[..width]), data[width..]))
  }

  function Take8(data: bytes): (r: Result<Parsed<byte>>)
    ensures r.Ok? ==> |data| == 1 + |r.value.rest|
  {
    Pow256Values();
    var v :- TakeUInt(data, W8);
    Ok(Parsed(v.value, v.rest))
  }

  function Take16(data: bytes): (r: Result<Parsed<u16>>)
    ensures r.Ok? ==> |data| == 2 + |r.value.rest|
  {
    Pow256Values();
    var v :- TakeUInt(data, W16);
    Ok(Parsed(v.value, v.rest))
  }

  function Take32(data: bytes): (r: Result<Parsed<u32>>)
    ensures r.Ok? ==> |data| == 4 + |r.value.rest|
  {
    Pow256Values();
    var v :- TakeUInt(data, W32);
    Ok(Parsed(v.value, v.rest))
  }

  function Take64(data: bytes): (r: Result<Parsed<u64>>)
    ensures r.Ok? ==> |data| == 8 + |r.value.rest|
  {
    Pow256Values();
    var v :- TakeUInt(data, W64);
    Ok(Parsed(v.value, v.rest))
  }

  function TakeString(data: bytes): (r: Result<Parsed<bytes>>)
    ensures r.Ok? ==> |data| == 4 + |r.value.value| + |r.value.rest|
  {
    var size :- Take32(data);
    if size.value > |size.rest| then Err(InvalidArgument)
    else Ok(Parsed(size.rest[..size.value], size.rest[size.value..]))
  }

  function Put8(v: byte): (b: bytes) ensures |b| == 1 { BigEndian(v, W8) }
  function Put16(v: u16): (b: bytes) ensures |b| == 2 { BigEndian(v, W16) }
  function Put32(v: u32): (b: bytes) ensures |b| == 4 { BigEndian(v, W32) }
  function Put64(v: u64): (b: bytes) ensures |b| == 8 { BigEndian(v, W64) }

  predicate Short(s: bytes) {
    |s| < TWO_32
  }

  function PutString(s: bytes): (b: bytes)
    ensures |b| == 4 + |s|
  {
    Put32(|s| % TWO_32) + s
  }

  lemma TakePut(v: nat, width: nat, rest: bytes)
    requires v < Pow256(width)
    ensures TakeUInt(BigEndian(v, width) + rest, width) == Ok(Parsed(v, rest))
  {
    hide BigEndian, FromBigEndian;
    BigEndianRead(v, width);
    var data := BigEndian(v, width) + rest;
    assert data[..width] == BigEndian(v, width) && data[width..] == rest;
  }

  lemma Take8Put(v: byte, rest: bytes)
    ensures Take8(Put8(v) + rest) == Ok(Parsed(v, rest))
  {
    Pow256Values();
    TakePut(v, W8, rest);
  }

  lemma Take16Put(v: u16, rest: bytes)
    ensures Take16(Put16(v) + rest) == Ok(Parsed(v, rest))
  {
    Pow256Values();
    TakePut(v, W16, rest);
  }

  lemma Take32Put(v: u32, rest: bytes)
    ensures Take32(Put32(v) + rest) == Ok(Parsed(v, rest))
  {
    Pow256Values();
    TakePut(v, W32, rest);
  }

  lemma Take64Put(v: u64, rest: bytes)
    ensures Take64(Put64(v) + rest) == Ok(Parsed(v, rest))
  {
    Pow256Values();
    TakePut(v, W64, rest);
  }

  lemma TakeStringPut(s: bytes, rest: bytes)
    requires Short(s)
    ensures TakeString(PutString(s) + rest) == Ok(Parsed(s, rest))
  {
    hide Take32, Put32;
    var data := PutString(s) + rest;
    assert data == Put32(|s|) + (s + rest);
    Take32Put(|s|, s + rest);
    assert (s + rest)[..|s|] == s && (s + rest)[|s|..] == rest;
  }

  /** BodyReader: a cursor over the body of one frame. A failed read leaves the cursor where the
      code leaves it: after the size when a string's bytes are missing. */
  class BodyReader {
    const data: bytes
    var offset: nat

    ghost predicate Valid()
      reads this
    {
      offset <= |data|
    }

    ghost function Rest(): bytes
      requires Valid()
      reads this
    {
      data[offset..]
    }

    constructor (body: bytes)
      ensures Valid() && data == body && Rest() == body
    {
      data := body;
      offset := 0;
    }

    method ReadUInt(width: nat) returns (r: Result<nat>)
      requires Valid()
      modifies this
      ensures Valid()
      ensures var taken := TakeUInt(old(Rest()), width);
        if taken.Err? then r == Err(taken.error) && offset == old(offset)
        else r == Ok(taken.value.value) && Rest() == taken.value.rest
    {
      hide FromBigEndian;
      r := ReadBigEndian(data, offset, width);
      if r.Ok? {
        assert Rest()[..width] == data[offset..offset + width];
        offset := offset + width;
      }
    }

    method ReadString() returns (r: Result<bytes>)
      requires Valid()
      modifies this
      ensures Valid()
      ensures var taken := TakeString(old(Rest()));
        if taken.Err? then r == Err(taken.error)
        else r == Ok(taken.value.value) && Rest() == taken.value.rest
    {
      hide TakeUInt;
      var size := ReadUInt(W32);
      if size.Err? {
        return Err(size.error);
      }
      if size.value > |data| - offset {
        return Err(InvalidArgument);
      }
      ghost var rest := Rest();
      assert rest[..size.value] == data[offset..offset + size.value];
      assert rest[size.value..] == data[offset + size.value..];
      r := Ok(data[offset..offset + size.value]);
      offset := offset + size.value;
    }
  }
}
