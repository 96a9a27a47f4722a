/** One connection: requests cut out of the byte stream wait their turn, one at a time goes to a
    worker, and responses go out in the order of the requests. */
module TcpConnections {
  import opened Basics
  import opened Protocol
  import opened Frames
  import opened Buffers

  /** What one read call brings; every read that brings nothing closes the connection. */
  datatype ReadResult = Chunk(data: bytes) | PeerGone

  /** How the worker pool and the error encoder answer when a request is submitted: whether there is
      room, and the error frame sent if there is not. */
  datatype Submission = Submission(accepted: bool, refusal: Option<bytes>)

  /** A request and the frame that answers it; the frame is empty if no response could be encoded. */
  datatype Exchange = Exchange(request: Request, response: bytes)

  function Asked(exchanges: seq<Exchange>): (rs: seq<Request>)
    ensures |rs| == |exchanges| && forall i :: 0 <= i < |rs| ==> rs[i] == exchanges[i].request
  {
    if exchanges == [] then [] else Asked(exchanges[..|exchanges| - 1]) + [exchanges[|exchanges| - 1].request]
  }

  function Replies(exchanges: seq<Exchange>): bytes {
    if exchanges == [] then [] else Replies(exchanges[..|exchanges| - 1]) + exchanges[|exchanges| - 1].response
  }

  /** The bytes that arrive before the peer is gone. */
  function DataOf(arrivals: seq<ReadResult>): bytes {
    if arrivals == [] || arrivals[0].PeerGone? then [] else arrivals[0].data + DataOf(arrivals[1..])
  }

  function AsSeq(r: Option<Request>): seq<Request> {
    if r.Some? then [r.value] else []
  }

  function FrameOr(frame: Option<bytes>): bytes {
    if frame.Some? then frame.value else []
  }

  /** Every decoded request is answered, in flight or waiting, in this order, and the bytes queued for
      output are the answers. */
  predicate InOrder(decoded: seq<Request>, exchanges: seq<Exchange>, inFlight: Option<Request>,
                    waiting: seq<Request>, queued: bytes) {
    decoded == Asked(exchanges) + AsSeq(inFlight) + waiting && queued == Replies(exchanges)
  }

  lemma Submitted(decoded: seq<Request>, exchanges: seq<Exchange>, waiting: seq<Request>, queued: bytes)
    requires InOrder(decoded, exchanges, None, waiting, queued) && waiting != []
    ensures InOrder(decoded, exchanges, Some(waiting[0]), waiting[1..], queued)
  {
    hide Asked, Replies;
    assert waiting == [waiting[0]] + waiting[1..];
    assert Asked(exchanges) + [] == Asked(exchanges);
  }

  lemma Answered(decoded: seq<Request>, exchanges: seq<Exchange>, request: Request, waiting: seq<Request>,
                 queued: bytes, response: bytes)
    requires InOrder(decoded, exchanges, Some(request), waiting, queued)
    ensures InOrder(decoded, exchanges + [Exchange(request, response)], None, waiting, queued + response)
  {
    var longer := exchanges + [Exchange(request, response)];
    assert longer[..|longer| - 1] == exchanges;
    assert Asked(longer) == Asked(exchanges) + [request];
    assert Asked(longer) + [] == Asked(longer);
  }

  lemma Arrived(decoded: seq<Request>, exchanges: seq<Exchange>, inFlight: Option<Request>, waiting: seq<Request>,
                queued: bytes, more: seq<Request>)
    requires InOrder(decoded, exchanges, inFlight, waiting, queued)
    ensures InOrder(decoded + more, exchanges, inFlight, waiting + more, queued)
  {
    hide Asked, Replies, AsSeq;
  }

  /** The stream so far is the decoded requests and what the decoder still holds. */
  predicate CutInto(received: bytes, decoded: seq<Request>, buffer: bytes, maxFrame: nat) {
    Drain(received, maxFrame) == Drained(decoded, buffer, None)
  }

  lemma CutMore(received: bytes, decoded: seq<Request>, buffer: bytes, maxFrame: nat, data: bytes)
    requires CutInto(received, decoded, buffer, maxFrame)
    ensures var d := Drain(buffer + data, maxFrame);
      d.error.None? ==> CutInto(received + data, decoded + d.requests, d.rest, maxFrame)
  {
    hide Drain;
    DrainInTwo(received, data, maxFrame);
  }

  lemma CutIsFine(received: bytes, decoded: seq<Request>, buffer: bytes, maxFrame: nat)
    requires CutInto(received, decoded, buffer, maxFrame)
    ensures Drain(received, maxFrame).error.None?
  {
    hide Drain;
  }

  /** Once a chunk completes a bad frame the stream as a whole has one. */
  lemma BadFrame(received: bytes, decoded: seq<Request>, buffer: bytes, maxFrame: nat, data: bytes, rest: bytes)
    requires CutInto(received, decoded, buffer, maxFrame) && Drain(buffer + data, maxFrame).error.Some?
    ensures Drain(received + (data + rest), maxFrame).error.Some?
  {
    hide Drain;
    DrainInTwo(received, data, maxFrame);
    DrainInTwo(received + data, rest, maxFrame);
    assert received + (data + rest) == (received + data) + rest;
  }

  lemma SentMore(sent: bytes, readable: bytes, queued: bytes, more: bytes)
    requires sent + readable == queued
    ensures sent + (readable + more) == queued + more
  {
    assert (sent + readable) + more == sent + (readable + more);
  }

  class TcpConnection {
    const decoder: FrameDecoder
    const output: Buffer
    var requests: seq<Request>
    var processing: bool
    var closing: bool
    var open: bool

    // what has happened so far
    ghost var received: bytes
    ghost var decoded: seq<Request>
    ghost var inFlight: Option<Request>
    ghost var exchanges: seq<Exchange>
    ghost var queuedBytes: bytes
    ghost var sent: bytes
    ghost var broken: bool

    ghost predicate Valid()
      reads this, decoder, output
    {
      && output.Valid()
      // every byte appended to the output is sent or still readable
      && sent + output.Readable() == queuedBytes
      && (processing <==> inFlight.Some?)
      && (broken ==> closing)
      // until a bad frame arrives: nothing is lost, repeated or reordered
      && (!broken ==>
            && CutInto(received, decoded, decoder.buffer, decoder.maxFrame)
            && InOrder(decoded, exchanges, inFlight, requests, queuedBytes))
    }

    /** Nothing that could go to a worker is held back. */
    ghost predicate Busy()
      reads this
    {
      processing || closing || requests == []
    }

    constructor (maxFrameBytes: u32)
      ensures Valid() && fresh(decoder) && fresh(output) && open && !closing && !processing && !broken
      ensures received == [] && exchanges == [] && sent == []
    {
      decoder := new FrameDecoder(maxFrameBytes);
      output := new Buffer();
      requests, processing, closing, open := [], false, false, true;
      received, decoded, inFlight, exchanges, queuedBytes, sent, broken := [], [], None, [], [], [], false;
    }

    /** Append a frame, if there is one, to the output. */
    method Enqueue(frame: Option<bytes>)
      requires output.Valid() && sent + output.Readable() == queuedBytes
      modifies output, `queuedBytes
      ensures output.Valid() && sent + output.Readable() == queuedBytes
      ensures queuedBytes == old(queuedBytes) + FrameOr(frame)
      ensures output.Readable() == old(output.Readable()) + FrameOr(frame)
    {
      SentMore(sent, output.Readable(), queuedBytes, FrameOr(frame));
      queuedBytes := queuedBytes + FrameOr(frame);
      if frame.Some? {
        output.Append(frame.value);
      } else {
        assert output.Readable() + [] == output.Readable();
      }
    }

    /** At most one request is with a worker. A refused request is answered with an error at once, and
        the connection takes no further ones. */
    method SubmitNext(s: Submission)
      requires Valid()
      modifies this, output
      ensures Valid() && received == old(received) && decoded == old(decoded) && broken == old(broken)
        && sent == old(sent)
      ensures open == old(open) && Busy()
      ensures if old(processing) || old(closing) || old(requests) == [] then
          requests == old(requests) && inFlight == old(inFlight) && exchanges == old(exchanges)
          && output.Readable() == old(output.Readable()) && closing == old(closing)
        else
          requests == old(requests)[1..] &&
          if s.accepted then
            inFlight == Some(old(requests)[0]) && exchanges == old(exchanges) && closing == old(closing)
            && output.Readable() == old(output.Readable())
          else
            inFlight == None && closing && exchanges == old(exchanges)
              + [Exchange(old(requests)[0], FrameOr(s.refusal))]
            && output.Readable() == old(output.Readable()) + FrameOr(s.refusal)
    {
      hide InOrder, CutInto;
      if processing || closing || requests == [] {
        return;
      }
      if !broken {
        Submitted(decoded, exchanges, requests, queuedBytes);
      }
      processing := true;
      var request := requests[0];
      requests := requests[1..];
      inFlight := Some(request);
      if !s.accepted {
        processing := false;
        inFlight := None;
        if !broken {
          Answered(decoded, exchanges, request, requests, queuedBytes, FrameOr(s.refusal));
        }
        Enqueue(s.refusal);
        exchanges := exchanges + [Exchange(request, FrameOr(s.refusal))];
        closing := true;
      }
    }

    /** The worker's answer to the request in flight, handed back to the loop that owns the connection. */
    method OnResponse(response: bytes, s: Submission)
      requires Valid() && processing
      modifies this, output
      ensures Valid() && received == old(received) && decoded == old(decoded) && broken == old(broken)
        && sent == old(sent)
      ensures old(exchanges) + [Exchange(old(inFlight).value, response)] <= exchanges
      ensures open == old(open) && (old(closing) ==> closing) && Busy()
      // whatever state the connection is in, the response goes out, and after it the refusal of the
      // next request if that is refused
      ensures var submitted := !old(closing) && old(requests) != [];
        output.Readable() == old(output.Readable()) + response
                             + (if submitted && !s.accepted then FrameOr(s.refusal) else [])
    {
      hide InOrder, CutInto;
      processing := false;
      if !broken {
        Answered(decoded, exchanges, inFlight.value, requests, queuedBytes, response);
      }
      exchanges := exchanges + [Exchange(inFlight.value, response)];
      inFlight := None;
      Enqueue(if response != [] then Some(response) else None);
      SubmitNext(s);
      assert old(output.Readable()) + response + [] == old(output.Readable()) + response;
    }

    /** One chunk that has been read. */
    method Receive(data: bytes, errorFrame: Option<bytes>) returns (ok: bool)
      requires Valid()
      modifies this, decoder, output
      ensures Valid() && sent == old(sent) && exchanges == old(exchanges) && open == old(open)
      ensures processing == old(processing) && inFlight == old(inFlight)
      ensures ok ==>
        && received == old(received) + data && broken == old(broken) && closing == old(closing)
        && output.Readable() == old(output.Readable())
        && requests == old(requests) + Drain(old(decoder.buffer) + data, decoder.maxFrame).requests
      ensures !ok ==>
        && broken && closing && requests == []
        && output.Readable() == old(output.Readable()) + FrameOr(errorFrame)
      ensures !ok && !old(broken) ==>
        forall rest :: Drain(old(received) + (data + rest), decoder.maxFrame).error.Some?
    {
      hide Drain, CutInto, InOrder;
      ghost var buffered := decoder.buffer;
      var pushed := decoder.Push(data);
      if pushed.Err? {
        if !broken {
          forall rest ensures Drain(received + (data + rest), decoder.maxFrame).error.Some? {
            BadFrame(received, decoded, buffered, decoder.maxFrame, data, rest);
          }
        }
        QueueErrorAndClose(errorFrame);
        return false;
      }
      if !broken {
        CutMore(received, decoded, buffered, decoder.maxFrame, data);
        Arrived(decoded, exchanges, inFlight, requests, queuedBytes, pushed.value);
      }
      received := received + data;
      decoded := decoded + pushed.value;
      requests := requests + pushed.value;
      return true;
    }

    /** HandleRead: the chunks that can be read now, until reading would block or the peer is gone. The
        connection breaks exactly when the bytes received so far contain a bad frame. */
    method HandleRead(arrivals: seq<ReadResult>, s: Submission, errorFrame: Option<bytes>)
      requires Valid() && open
      modifies this, decoder, output
      ensures Valid() && sent == old(sent) && old(exchanges) <= exchanges
      ensures !old(broken) ==>
        (broken <==> Drain(old(received) + DataOf(arrivals), decoder.maxFrame).error.Some?)
      ensures !broken ==> received == old(received) + DataOf(arrivals)
      ensures !broken && open ==> Busy()
      ensures !broken ==> (open <==> forall i :: 0 <= i < |arrivals| ==> arrivals[i].Chunk?)
      ensures broken && !old(broken) ==>
        closing && requests == [] && output.Readable() == old(output.Readable()) + FrameOr(errorFrame)
    {
      hide Drain, CutInto, InOrder;
      ghost var all := received + DataOf(arrivals);
      var i := 0;
      while i < |arrivals|
        invariant i <= |arrivals| && Valid() && sent == old(sent) && open
        invariant broken == old(broken) && exchanges == old(exchanges)
        invariant output.Readable() == old(output.Readable())
        invariant forall j :: 0 <= j < i ==> arrivals[j].Chunk?
        invariant received + DataOf(arrivals[i..]) == all
      {
        if arrivals[i].PeerGone? {
          assert received + [] == received;
          if !broken { CutIsFine(received, decoded, decoder.buffer, decoder.maxFrame); }
          HandleClose();
          return;
        }
        var data := arrivals[i].data;
        assert arrivals[i..][1..] == arrivals[i + 1..];
        ghost var rest := DataOf(arrivals[i + 1..]);
        assert all == received + (data + rest);
        assert (received + data) + rest == received + (data + rest);
        var ok := Receive(data, errorFrame);
        if !ok {
          return;
        }
        i := i + 1;
      }
      assert received + [] == received;
      if !broken { CutIsFine(received, decoded, decoder.buffer, decoder.maxFrame); }
      SubmitNext(s);
    }

    /** HandleWrite: write what the socket takes; the connection closes if that fails, and a closing one
        once all is out. */
    method HandleWrite(writes: nat -> WriteResult)
      requires Valid() && open
      modifies this, output
      ensures Valid()
      ensures exchanges == old(exchanges) && decoded == old(decoded) && requests == old(requests)
      ensures inFlight == old(inFlight) && broken == old(broken) && received == old(received) && closing == old(closing)
      ensures var f := Flush(|old(output.Readable())|, writes, 0);
        && sent == old(sent) + old(output.Readable())[..f.count]
        && output.Readable() == old(output.Readable())[f.count..]
        && (open <==> f.ok && !(closing && output.Readable() == []))
    {
      hide InOrder, CutInto, Flush;
      FrontTaken(sent, output.Readable(), Flush(|output.Readable()|, writes, 0).count);
      var ok, out := output.WriteToFd(writes);
      sent := sent + out;
      if !ok {
        HandleClose();
        return;
      }
      var left := output.ReadableBytes();
      if left == 0 && closing {
        HandleClose();
      }
    }

    method HandleClose()
      modifies this`open
      ensures !open
    {
      open := false;
    }

    method Shutdown()
      requires Valid()
      modifies this
      ensures Valid() && closing && (output.Readable() == [] ==> !open)
      ensures exchanges == old(exchanges) && decoded == old(decoded) && requests == old(requests) && sent == old(sent)
      ensures inFlight == old(inFlight) && broken == old(broken) && received == old(received)
    {
      closing := true;
      var left := output.ReadableBytes();
      if left == 0 {
        HandleClose();
      }
    }

    /** A bad frame: what waits is dropped, an error goes out, and nothing new is submitted. */
    method QueueErrorAndClose(errorFrame: Option<bytes>)
      requires output.Valid() && sent + output.Readable() == queuedBytes && (processing <==> inFlight.Some?)
      modifies this, decoder, output
      ensures Valid() && broken && closing && requests == [] && decoder.buffer == []
      ensures exchanges == old(exchanges) && inFlight == old(inFlight) && sent == old(sent) && open == old(open)
      ensures output.Readable() == old(output.Readable()) + FrameOr(errorFrame)
    {
      Enqueue(errorFrame);
      closing := true;
      broken := true;
      decoder.Clear();
      requests := [];
    }
  }

  // ---- What a client sees ----

  /** On a connection that has met no bad frame, after any reads, responses, short writes and
      compactions: a client that sent these requests has been answered for a prefix of them, in order,
      one frame each, and what it has received is a prefix of those frames. */
  lemma RepliesInOrder(c: TcpConnection, requests: seq<Request>, partial: bytes)
    requires c.Valid() && !c.broken
    requires forall i :: 0 <= i < |requests| ==> Sendable(requests[i], c.decoder.maxFrame)
    requires Incomplete(partial, c.decoder.maxFrame)
    requires c.received == FramesOf(requests, c.decoder.maxFrame) + partial
    ensures Asked(c.exchanges) + AsSeq(c.inFlight) + c.requests == ReceivedAll(requests)
    ensures c.sent + c.output.Readable() == Replies(c.exchanges)
    ensures c.requests == [] && !c.processing ==> Asked(c.exchanges) == ReceivedAll(requests)
  {
    hide Drain, Sendable, Incomplete, Asked, Replies;
    DrainFrames(requests, partial, c.decoder.maxFrame);
  }
}
