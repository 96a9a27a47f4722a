/** The output buffer of a connection: bytes appended at one end and written to a socket from the
    other, with the consumed front dropped now and then. */
module Buffers {
  import opened Basics

  /** What one write call does: takes some of the bytes offered, takes none, would block, or fails. */
  datatype WriteResult = Wrote(count: nat) | WouldBlock | WriteFailed

  datatype Flushed = Flushed(count: nat, ok: bool)

  /** How much of the bytes still to be written a socket takes, from its i-th answer on, before it
      blocks, fails or has taken all, and whether it got there without a failure. */
  function Flush(available: nat, writes: nat -> WriteResult, i: nat): (f: Flushed)
    ensures f.count <= available
    decreases available
  {
    if available == 0 then Flushed(0, true)
    else
      match writes(i)
      case WriteFailed => Flushed(0, false)
      case WouldBlock => Flushed(0, true)
      case Wrote(count) =>
        if count == 0 then Flushed(0, true)
        else
          var n := Min(count, available);
          var rest := Flush(available - n, writes, i + 1);
          Flushed(n + rest.count, rest.ok)
  }

  class Buffer {
    var data: bytes
    var readerIndex: nat

    ghost predicate Valid()
      reads this
    {
      readerIndex <= |data|
    }

    /** The bytes still to be consumed. */
    ghost function Readable(): bytes
      reads this
      requires Valid()
    {
      data[readerIndex..]
    }

    constructor ()
      ensures Valid() && Readable() == []
    {
      data := [];
      readerIndex := 0;
    }

    method ReadableBytes() returns (n: nat)
      requires Valid()
      ensures n == |Readable()|
    {
      return |data| - readerIndex;
    }

    method Append(more: bytes)
      requires Valid()
      modifies this
      ensures Valid() && Readable() == old(Readable()) + more
    {
      data := data + more;
    }

    method Consume(count: nat)
      requires Valid()
      modifies this
      ensures Valid() && Readable() == old(Readable())[Min(count, |old(Readable())|)..]
    {
      readerIndex := readerIndex + Min(count, |data| - readerIndex);
      CompactIfNeeded();
    }

    method Clear()
      modifies this
      ensures Valid() && Readable() == [] && readerIndex == 0
    {
      data := [];
      readerIndex := 0;
    }

    /** Compaction is invisible, and keeps the consumed front no longer than what follows it. */
    method CompactIfNeeded()
      requires Valid()
      modifies this
      ensures Valid() && Readable() == old(Readable())
      ensures readerIndex <= |Readable()|
    {
      if readerIndex == 0 {
        return;
      }
      if readerIndex == |data| {
        Clear();
        return;
      }
      if readerIndex > |data| / 2 {
        data := data[readerIndex..];
        readerIndex := 0;
      }
    }

    /** WriteToFd, against a socket that answers the i-th write call with writes(i): what it takes is
        the front of what was readable, the rest stays. */
    method WriteToFd(writes: nat -> WriteResult) returns (ok: bool, sent: bytes)
      requires Valid()
      modifies this
      ensures Valid()
      ensures var f := Flush(|old(Readable())|, writes, 0);
        ok == f.ok && sent == old(Readable())[..f.count] && Readable() == old(Readable())[f.count..]
    {
      hide Flush;
      sent := [];
      ghost var total := Flush(|Readable()|, writes, 0);
      var i: nat := 0;
      while readerIndex < |data|
        invariant Valid() && sent + Readable() == old(Readable())
        invariant Remaining(total, |sent|, Flush(|Readable()|, writes, i))
        decreases |Readable()|
      {
        FlushOnce(|Readable()|, writes, i);
        var result := writes(i);
        i := i + 1;
        if result.WriteFailed? {
          TakenApart(sent, Readable());
          return false, sent;
        }
        if result.WouldBlock? || result.count == 0 {
          TakenApart(sent, Readable());
          return true, sent;
        }
        // a socket takes no more than it is offered
        var n := Min(result.count, |data| - readerIndex);
        FrontTaken(sent, Readable(), n);
        assert data[readerIndex..readerIndex + n] == Readable()[..n];
        sent := sent + data[readerIndex..readerIndex + n];
        Consume(n);
      }
      FlushNothing(writes, i);
      TakenApart(sent, Readable());
      return true, sent;
    }
  }

  lemma FlushNothing(writes: nat -> WriteResult, i: nat)
    ensures Flush(0, writes, i) == Flushed(0, true)
  {
  }

  /** What one answer of the socket makes of a flush. */
  lemma FlushOnce(available: nat, writes: nat -> WriteResult, i: nat)
    requires available > 0
    ensures var f := Flush(available, writes, i);
      if writes(i).WriteFailed? then f == Flushed(0, false)
      else if writes(i).WouldBlock? || writes(i).count == 0 then f == Flushed(0, true)
      else
        var n := Min(writes(i).count, available);
        var rest := Flush(available - n, writes, i + 1);
        f == Flushed(n + rest.count, rest.ok)
  {
  }

  /** The bytes n answers of the socket offer to take, from the i-th on. */
  function Offered(writes: nat -> WriteResult, i: nat, n: nat): nat
    decreases n
  {
    if n == 0 then 0 else (if writes(i).Wrote? then writes(i).count else 0) + Offered(writes, i + 1, n - 1)
  }

  /** The answer lets the flush go on. */
  predicate GoesOn(w: WriteResult) {
    w.Wrote? && w.count > 0
  }

  /** A flush goes on for n answers and takes all the bytes these offer to take, as far as there are any.
      It stops when everything is out, or at an answer that takes nothing; it fails if and only if
      something is left and that answer is a failure. */
  lemma {:induction false} FlushStops(available: nat, writes: nat -> WriteResult, i: nat) returns (n: nat)
    ensures var f := Flush(available, writes, i);
      && f.count == Min(available, Offered(writes, i, n))
      && (forall j :: i <= j < i + n ==> GoesOn(writes(j)))
      && (f.count == available || !GoesOn(writes(i + n)))
      && (f.ok <==> f.count == available || !writes(i + n).WriteFailed?)
    decreases available
  {
    n := 0;
    if available > 0 && GoesOn(writes(i)) {
      var taken := Min(writes(i).count, available);
      n := FlushStops(available - taken, writes, i + 1);
      n := n + 1;
    }
  }

  /** What is still to come of a flush once some bytes are out. */
  predicate Remaining(total: Flushed, sent: nat, f: Flushed) {
    sent + f.count == total.count && f.ok == total.ok
  }

  lemma FrontTaken(sent: bytes, readable: bytes, n: nat)
    requires n <= |readable|
    ensures (sent + readable[..n]) + readable[n..] == sent + readable
  {
  }

  lemma TakenApart(sent: bytes, readable: bytes)
    ensures sent == (sent + readable)[..|sent|] && readable == (sent + readable)[|sent|..]
  {
  }
}
