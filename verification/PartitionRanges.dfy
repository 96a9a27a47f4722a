/** Range assignment: partitions dealt out to members in consecutive blocks, in 32-bit arithmetic. */
module PartitionRanges {
  import opened Basics

  function U32(x: int): u32 { x % TWO_32 }

  /** The casts and the arithmetic of AssignLocked for the member at one index; with a member count
      that casts to zero the source divides by zero, which is not modelled. */
  function BlockSize(partitions: u32, members: nat, index: nat): u32 {
    if U32(members) == 0 then 0
    else U32(partitions / U32(members) + if U32(index) < partitions % U32(members) then 1 else 0)
  }

  function BlockStart(partitions: u32, members: nat, index: nat): u32 {
    if U32(members) == 0 then 0
    else U32(U32(U32(index) * (partitions / U32(members))) + Min(U32(index), partitions % U32(members)))
  }

  /** Consecutive partition ids, as the signed numbers they are cast to. */
  function Ids(start: u32, count: nat): (ids: seq<i32>)
    ensures |ids| == count && forall i :: 0 <= i < count ==> ids[i] == ToI32(U32(start + i))
  {
    if count == 0 then [] else Ids(start, count - 1) + [ToI32(U32(start + count - 1))]
  }

  function Block(partitions: u32, members: nat, index: nat): seq<i32> {
    Ids(BlockStart(partitions, members, index), BlockSize(partitions, members, index))
  }

  function Blocks(partitions: u32, members: nat, n: nat): seq<i32> {
    if n == 0 then [] else Blocks(partitions, members, n - 1) + Block(partitions, members, n - 1)
  }

  // ---- Exactly balanced ----

  lemma TimesMonotone(a: int, b: int, c: nat)
    requires a <= b
    ensures a * c <= b * c
  {
  }

  lemma DivMod(p: nat, n: nat)
    requires n > 0
    ensures p == n * (p / n) + p % n && 0 <= p % n < n && 0 <= p / n <= p
  {
    var q := p / n;
    assert p == n * q + p % n && 0 <= p % n < n;
    if q < 0 {
      TimesMonotone(q, -1, n);
    } else {
      TimesMonotone(1, n, q);
    }
  }

  /** The sums of block arithmetic stay within the number of partitions. */
  lemma SumsFit(partitions: nat, members: nat, index: nat, base: nat, extra: nat)
    requires partitions == members * base + extra && extra < members && index < members
    ensures index * base <= partitions && index * base + Min(index, extra) <= partitions
    ensures index * base + Min(index, extra) + base + (if index < extra then 1 else 0) <= partitions
  {
    TimesMonotone(index + 1, members, base);
    var t := index * base;
    assert (index + 1) * base == t + base;
  }

  lemma U32Same(x: int)
    requires 0 <= x < TWO_32
    ensures U32(x) == x
  {
  }

  /** No intermediate of the arithmetic wraps around. */
  lemma NoWrap(partitions: u32, members: nat, index: nat)
    requires index < members < TWO_32
    ensures 0 <= partitions / members && 0 <= partitions % members
    ensures var (base, extra) := (partitions / members, partitions % members);
      && BlockSize(partitions, members, index) == base + (if index < extra then 1 else 0)
      && BlockStart(partitions, members, index) == index * base + Min(index, extra)
      && BlockStart(partitions, members, index) + BlockSize(partitions, members, index) <= partitions
  {
    hide U32;
    U32Same(members);
    U32Same(index);
    DivMod(partitions, members);
    var base: nat, extra: nat := partitions / members, partitions % members;
    SumsFit(partitions, members, index, base, extra);
    var t := index * base;
    TimesMonotone(0, index, base);
    U32Same(t);
    U32Same(t + Min(index, extra));
    U32Same(base + if index < extra then 1 else 0);
  }

  /** Sizes differ by at most one, earlier members getting the larger ones. */
  lemma BlocksBalanced(partitions: u32, members: nat, i: nat, j: nat)
    requires i < j < members < TWO_32
    ensures BlockSize(partitions, members, j) <= BlockSize(partitions, members, i)
         <= BlockSize(partitions, members, j) + 1
  {
    NoWrap(partitions, members, i);
    NoWrap(partitions, members, j);
  }

  /** Each block starts where the one before it ends, the first at 0 and the last ends at the count. */
  lemma BlocksAdjoin(partitions: u32, members: nat, index: nat)
    requires index < members < TWO_32
    ensures index == 0 ==> BlockStart(partitions, members, index) == 0
    ensures BlockStart(partitions, members, index) + BlockSize(partitions, members, index)
         == if index + 1 < members then BlockStart(partitions, members, index + 1) else partitions
  {
    var base, extra := partitions / members, partitions % members;
    NoWrap(partitions, members, index);
    DivMod(partitions, members);
    assert (index + 1) * base == index * base + base;
    if index + 1 < members {
      NoWrap(partitions, members, index + 1);
    }
  }

  lemma IdsJoin(start: u32, a: nat, b: nat)
    requires start + a < TWO_32
    ensures Ids(start, a) + Ids(start + a, b) == Ids(start, a + b)
  {
  }

  lemma {:induction false} BlocksCoverPrefix(partitions: u32, members: nat, n: nat)
    requires n < members < TWO_32
    ensures Blocks(partitions, members, n) == Ids(0, BlockStart(partitions, members, n))
  {
    hide BlockStart, BlockSize, Ids, U32, ToI32;
    if n == 0 {
      BlocksAdjoin(partitions, members, 0);
      assert Ids(0, 0) == [];
    } else {
      BlocksCoverPrefix(partitions, members, n - 1);
      BlocksAdjoin(partitions, members, n - 1);
      IdsJoin(0, BlockStart(partitions, members, n - 1), BlockSize(partitions, members, n - 1));
    }
  }

  /** The blocks of all members, one after another, are exactly the partitions 0, 1, 2 and so on. */
  lemma BlocksCover(partitions: u32, members: nat)
    requires 0 < members < TWO_32
    ensures Blocks(partitions, members, members) == Ids(0, partitions)
  {
    hide BlockStart, BlockSize;
    var n := members - 1;
    BlocksCoverPrefix(partitions, members, n);
    BlocksAdjoin(partitions, members, n);
    IdsJoin(0, BlockStart(partitions, members, n), BlockSize(partitions, members, n));
  }

  /** Partition p is in exactly one block. */
  predicate InBlock(partitions: u32, members: nat, index: nat, p: u32) {
    BlockStart(partitions, members, index) <= p
      < BlockStart(partitions, members, index) + BlockSize(partitions, members, index)
  }

  lemma BlockHolds(partitions: u32, members: nat, index: nat, p: u32)
    requires index < members < TWO_32
    ensures ToI32(p) in Block(partitions, members, index) <==> InBlock(partitions, members, index, p)
  {
    hide BlockStart, BlockSize;
    NoWrap(partitions, members, index);
    BlockIsIds(BlockStart(partitions, members, index), BlockSize(partitions, members, index), p);
  }

  lemma BlockIsIds(start: u32, count: nat, p: u32)
    requires start + count < TWO_32
    ensures ToI32(p) in Ids(start, count) <==> start <= p < start + count
  {
    if start <= p < start + count {
      assert Ids(start, count)[p - start] == ToI32(U32(start + (p - start)));
    }
  }

  lemma {:induction false} StartsGrow(partitions: u32, members: nat, i: nat, j: nat)
    requires i < j < members < TWO_32
    ensures BlockStart(partitions, members, i) + BlockSize(partitions, members, i) <= BlockStart(partitions, members, j)
    decreases j
  {
    hide BlockStart, BlockSize;
    BlocksAdjoin(partitions, members, i);
    if i + 1 < j {
      StartsGrow(partitions, members, i, j - 1);
      BlocksAdjoin(partitions, members, j - 1);
    }
  }

  /** No partition is dealt twice. */
  lemma BlocksDisjoint(partitions: u32, members: nat, i: nat, j: nat, p: u32)
    requires i < members < TWO_32 && j < members
    requires ToI32(p) in Block(partitions, members, i) && ToI32(p) in Block(partitions, members, j)
    ensures i == j
  {
    hide BlockStart, BlockSize, Block;
    BlockHolds(partitions, members, i, p);
    BlockHolds(partitions, members, j, p);
    if i < j { StartsGrow(partitions, members, i, j); }
    if j < i { StartsGrow(partitions, members, j, i); }
  }

  /** No partition is left out. */
  lemma {:induction false} BlockFor(partitions: u32, members: nat, p: u32, n: nat) returns (i: nat)
    requires n < members < TWO_32
    requires p < BlockStart(partitions, members, n) + BlockSize(partitions, members, n)
    ensures i <= n && ToI32(p) in Block(partitions, members, i)
    decreases n
  {
    hide BlockStart, BlockSize, Block;
    BlocksAdjoin(partitions, members, n);
    if BlockStart(partitions, members, n) <= p {
      i := n;
      BlockHolds(partitions, members, n, p);
    } else {
      BlocksAdjoin(partitions, members, n - 1);
      i := BlockFor(partitions, members, p, n - 1);
    }
  }

  /** The inner loop of AssignLocked. */
  method ListIds(start: u32, count: u32) returns (ids: seq<i32>)
    ensures ids == Ids(start, count)
  {
    ids := [];
    for i := 0 to count
      invariant ids == Ids(start, i)
    {
      ids := ids + [ToI32(U32(start + i))];
    }
  }
}
