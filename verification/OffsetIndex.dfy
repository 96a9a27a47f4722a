/** The sparse in-memory index of one segment: some batch offsets and where those batches start. */
module OffsetIndexes {
  import opened Basics

  datatype IndexEntry = IndexEntry(offset: i64, position: nat)

  ghost predicate Sorted(keys: seq<int>) {
    forall i, j :: 0 <= i < j < |keys| ==> keys[i] <= keys[j]
  }

  /** std::upper_bound: how many of the sorted keys are at most value. */
  method UpperBound(keys: seq<int>, value: int) returns (k: nat)
    requires Sorted(keys)
    ensures k <= |keys|
    ensures forall i :: 0 <= i < k ==> keys[i] <= value
    ensures forall i :: k <= i < |keys| ==> value < keys[i]
  {
    var lo, hi := 0, |keys|;
    while lo < hi
      invariant 0 <= lo <= hi <= |keys|
      invariant forall i :: 0 <= i < lo ==> keys[i] <= value
      invariant forall i :: hi <= i < |keys| ==> value < keys[i]
    {
      var mid := lo + (hi - lo) / 2;
      if value < keys[mid] {
        hi := mid;
      } else {
        lo := mid + 1;
      }
    }
    k := lo;
  }

  function Offsets(entries: seq<IndexEntry>): (keys: seq<int>)
    ensures |keys| == |entries|
    ensures forall i :: 0 <= i < |keys| ==> keys[i] == entries[i].offset
  {
    seq(|entries|, i requires 0 <= i < |entries| => entries[i].offset)
  }

  /** The last entry whose offset is at most the one looked for. */
  function Floor(entries: seq<IndexEntry>, offset: i64): (r: Result<IndexEntry>)
    ensures r.Err? ==> r == Err(NotFound)
  {
    if entries == [] then Err(NotFound)
    else if entries[|entries| - 1].offset <= offset then Ok(entries[|entries| - 1])
    else Floor(entries[..|entries| - 1], offset)
  }

  lemma {:induction false} FloorAt(entries: seq<IndexEntry>, offset: i64, k: nat)
    requires k <= |entries|
    requires forall i :: 0 <= i < k ==> entries[i].offset <= offset
    requires forall i :: k <= i < |entries| ==> offset < entries[i].offset
    ensures Floor(entries, offset) == if k == 0 then Err(NotFound) else Ok(entries[k - 1])
  {
    if k < |entries| {
      FloorAt(entries[..|entries| - 1], offset, k);
    }
  }

  /** MaybeAppend as a function: the entries afterwards, or why they cannot be extended. */
  function Appended(base: i64, interval: nat, entries: seq<IndexEntry>, offset: i64, position: nat)
    : Result<seq<IndexEntry>>
  {
    if base < 0 || offset < base then Err(InvalidArgument)
    else if entries == [] then Ok([IndexEntry(offset, position)])
    else
      var last := entries[|entries| - 1];
      if offset <= last.offset || position < last.position then Err(InvalidArgument)
      else if position - last.position < interval then Ok(entries)
      else Ok(entries + [IndexEntry(offset, position)])
  }

  class OffsetIndex {
    const baseOffset: i64
    const intervalBytes: nat
    var entries: seq<IndexEntry>

    ghost predicate Valid()
      reads this
    {
      Sorted(Offsets(entries))
    }

    constructor (base: i64, interval: nat)
      ensures Valid() && baseOffset == base && entries == []
      ensures intervalBytes == if interval == 0 then 1 else interval
    {
      baseOffset := base;
      intervalBytes := if interval == 0 then 1 else interval;
      entries := [];
    }

    method FindFloor(offset: i64) returns (r: Result<IndexEntry>)
      requires Valid()
      ensures r == Floor(entries, offset)
    {
      if entries == [] || offset < entries[0].offset {
        assert Sorted(Offsets(entries));
        assert forall i :: 0 < i < |entries| ==> Offsets(entries)[0] <= Offsets(entries)[i];
        FloorAt(entries, offset, 0);
        return Err(NotFound);
      }
      var k := UpperBound(Offsets(entries), offset);
      assert k != 0 by { assert Offsets(entries)[0] <= offset; }
      FloorAt(entries, offset, k);
      return Ok(entries[k - 1]);
    }

    method MaybeAppend(offset: i64, position: nat) returns (r: Result<Unit>)
      requires Valid()
      modifies this
      ensures Valid()
      ensures var appended := Appended(baseOffset, intervalBytes, old(entries), offset, position);
        if appended.Ok? then r == Ok(Unit) && entries == appended.value
        else r == Err(appended.error) && entries == old(entries)
    {
      if baseOffset < 0 {
        return Err(InvalidArgument);
      }
      if offset < baseOffset {
        return Err(InvalidArgument);
      }
      if entries != [] {
        var last := entries[|entries| - 1];
        if offset <= last.offset {
          return Err(InvalidArgument);
        }
        if position < last.position {
          return Err(InvalidArgument);
        }
        if position - last.position < intervalBytes {
          return Ok(Unit);
        }
      }
      ghost var was := Offsets(entries);
      entries := entries + [IndexEntry(offset, position)];
      assert forall i :: 0 <= i < |was| ==> Offsets(entries)[i] == was[i];
      return Ok(Unit);
    }

    method Clear()
      modifies this
      ensures Valid() && entries == []
    {
      entries := [];
    }
  }
}
