/** Request frames and the incremental decoder that cuts a byte stream into them. */
module Frames {
  import opened Basics
  import opened Endian
  import opened Protocol
  import opened Wire
  import opened RequestCodec

  function FrameHeader(total: u32, key: ApiKey, version: u16, requestId: u64): (h: bytes)
    ensures |h| == FRAME_HEADER_BYTES
  {
    Put32(total) + (Put16(KeyCode(key)) + (Put16(version) + Put64(requestId)))
  }

  /** EncodeRequest. */
  function EncodedRequest(request: Request): (r: Result<bytes>)
    ensures r.Ok? ==> FRAME_HEADER_BYTES <= |r.value| <= MAX_FRAME_BYTES
  {
    if !SupportedVersion(request.version) then Err(InvalidArgument)
    else
      var body :- EncodedBody(request);
      if |body| > MAX_FRAME_BYTES - FRAME_HEADER_BYTES then Err(InvalidArgument)
      else Ok(FrameHeader(FRAME_HEADER_BYTES + |body|, request.apiKey, request.version, request.requestId) + body)
  }

  /** PeekFrameLength. */
  function FrameLength(data: bytes): (n: nat)
    requires |data| >= 4
    ensures n < TWO_32
  {
    BigEndianBound(data[..4]);
    Pow256Values();
    FromBigEndian(data[..4])
  }

  /** ValidateFrame. */
  predicate ValidFrame(frame: bytes) {
    && |frame| >= FRAME_HEADER_BYTES
    && FRAME_HEADER_BYTES <= FrameLength(frame) <= MAX_FRAME_BYTES
    && FrameLength(frame) == |frame|
  }

  /** DecodeRequest. */
  function DecodedRequest(frame: bytes): Result<Request> {
    if !ValidFrame(frame) then Err(InvalidArgument)
    else
      var code :- Take16(frame[4..]);
      var key :- KeyOf(code.value);
      var version :- Take16(code.rest);
      if !SupportedVersion(version.value) then Err(InvalidArgument)
      else
        var requestId :- Take64(version.rest);
        var body :- DecodedBody(key, requestId.rest);
        Ok(Request(key, version.value, requestId.value, body))
  }

  function ReceivedRequest(request: Request): Request {
    request.(body := Received(request.body))
  }

  lemma FrameLengthOf(total: u32, rest: bytes)
    ensures FrameLength(Put32(total) + rest) == total
  {
    hide BigEndian, FromBigEndian;
    Pow256Values();
    BigEndianRead(total, W32);
    assert (Put32(total) + rest)[..4] == Put32(total);
  }

  lemma HeaderRoundTrip(key: ApiKey, version: u16, requestId: u64, body: bytes)
    ensures var rest := Put16(KeyCode(key)) + (Put16(version) + (Put64(requestId) + body));
      && Take16(rest) == Ok(Parsed(KeyCode(key), Put16(version) + (Put64(requestId) + body)))
      && Take16(Put16(version) + (Put64(requestId) + body)) == Ok(Parsed(version, Put64(requestId) + body))
      && Take64(Put64(requestId) + body) == Ok(Parsed(requestId, body))
      && KeyOf(KeyCode(key)) == Ok(key)
  {
    hide Take16, Take64, Put16, Put64;
    Take16Put(KeyCode(key), Put16(version) + (Put64(requestId) + body));
    Take16Put(version, Put64(requestId) + body);
    Take64Put(requestId, body);
  }

  /** Decoding an encoded frame gives the request back, without the retry metadata of produced records. */
  lemma RequestRoundTrip(request: Request)
    ensures EncodedRequest(request).Ok? ==>
      DecodedRequest(EncodedRequest(request).value) == Ok(ReceivedRequest(request))
  {
    hide Take16, Take64, Put16, Put32, Put64, PutBody, DecodedBody, Encodable, AllShort, FrameLength, KeyOf, KeyCode;
    if EncodedRequest(request).Ok? {
      var frame := EncodedRequest(request).value;
      var body := PutBody(request.body);
      var tail := Put16(KeyCode(request.apiKey)) + (Put16(request.version) + (Put64(request.requestId) + body));
      assert frame == Put32(FRAME_HEADER_BYTES + |body|) + tail;
      assert frame[4..] == tail;
      FrameLengthOf(FRAME_HEADER_BYTES + |body|, tail);
      HeaderRoundTrip(request.apiKey, request.version, request.requestId, body);
      BodyRoundTrip(request.body);
    }
  }

  // ---- FrameDecoder ----

  datatype Drained = Drained(requests: seq<Request>, rest: bytes, error: Option<ErrorCode>)

  /** Cutting whole frames off the front of a buffer until it runs short or a frame is bad. */
  function Drain(buffer: bytes, maxFrame: nat): Drained {
    if |buffer| < 4 then Drained([], buffer, None)
    else
      var length := FrameLength(buffer);
      if length < FRAME_HEADER_BYTES || length > maxFrame then Drained([], buffer, Some(InvalidArgument))
      else if |buffer| < length then Drained([], buffer, None)
      else
        var request := DecodedRequest(buffer[..length]);
        if request.Err? then Drained([], buffer, Some(request.error))
        else
          var others := Drain(buffer[length..], maxFrame);
          Drained([request.value] + others.requests, others.rest, others.error)
  }

  class FrameDecoder {
    const maxFrame: nat
    var buffer: bytes

    constructor (maxFrameBytes: u32)
      ensures buffer == [] && maxFrame == Max(maxFrameBytes, FRAME_HEADER_BYTES)
    {
      maxFrame := Max(maxFrameBytes, FRAME_HEADER_BYTES);
      buffer := [];
    }

    /** Push: a bad frame loses the requests decoded before it in the same call. */
    method Push(data: bytes) returns (r: Result<seq<Request>>)
      modifies this
      ensures var drained := Drain(old(buffer) + data, maxFrame);
        && buffer == drained.rest
        && r == if drained.error.Some? then Err(drained.error.value) else Ok(drained.requests)
    {
      hide DecodedRequest, FrameLength;
      buffer := buffer + data;
      ghost var drained := Drain(buffer, maxFrame);
      var requests: seq<Request> := [];
      while |buffer| >= 4
        invariant var rest := Drain(buffer, maxFrame);
          && drained.requests == requests + rest.requests && drained.rest == rest.rest && drained.error == rest.error
        decreases |buffer|
      {
        var length := FrameLength(buffer);
        if length < FRAME_HEADER_BYTES {
          return Err(InvalidArgument);
        }
        if length > maxFrame {
          return Err(InvalidArgument);
        }
        if |buffer| < length {
          break;
        }
        var request := DecodedRequest(buffer[..length]);
        if request.Err? {
          return Err(request.error);
        }
        requests := requests + [request.value];
        buffer := buffer[length..];
      }
      assert requests + [] == requests;
      return Ok(requests);
    }

    method Clear()
      modifies this
      ensures buffer == []
    {
      buffer := [];
    }
  }

  // ---- How a stream is cut into chunks does not matter ----

  function After(first: seq<Request>, d: Drained): Drained {
    d.(requests := first + d.requests)
  }

  /** Draining a longer buffer: drain its front, then what is left of it with the rest. Once a bad
      frame is met nothing that follows is looked at. */
  lemma {:induction false} DrainInTwo(a: bytes, b: bytes, maxFrame: nat)
    ensures var front := Drain(a, maxFrame);
      Drain(a + b, maxFrame) ==
        if front.error.Some? then front.(rest := front.rest + b)
        else After(front.requests, Drain(front.rest + b, maxFrame))
    decreases |a|
  {
    hide DecodedRequest, FrameLength;
    var all := a + b;
    if |a| >= 4 {
      LengthOfPrefix(a, b);
      var length := FrameLength(a);
      if FRAME_HEADER_BYTES <= length <= maxFrame && length <= |a| {
        assert all[..length] == a[..length] && all[length..] == a[length..] + b;
        if DecodedRequest(a[..length]).Ok? {
          DrainInTwo(a[length..], b, maxFrame);
          AfterTwice();
        }
      }
    }
  }

  lemma LengthOfPrefix(a: bytes, b: bytes)
    requires |a| >= 4
    ensures FrameLength(a + b) == FrameLength(a)
  {
    assert (a + b)[..4] == a[..4];
  }

  lemma AfterTwice()
    ensures forall x: seq<Request>, y: seq<Request>, d: Drained :: After(x, After(y, d)) == After(x + y, d)
  {
  }

  /** Pushing chunk after chunk until one fails; a failing Push delivers nothing. */
  function PushAll(buffer: bytes, chunks: seq<bytes>, maxFrame: nat): Drained
    decreases chunks
  {
    if chunks == [] then Drained([], buffer, None)
    else
      var first := Drain(buffer + chunks[0], maxFrame);
      if first.error.Some? then first.(requests := [])
      else After(first.requests, PushAll(first.rest, chunks[1..], maxFrame))
  }

  /** The read loop of a connection: push every chunk that arrives, stop at the first error. */
  method FeedChunks(decoder: FrameDecoder, chunks: seq<bytes>)
    returns (requests: seq<Request>, error: Option<ErrorCode>)
    modifies decoder
    ensures PushAll(old(decoder.buffer), chunks, decoder.maxFrame) == Drained(requests, decoder.buffer, error)
  {
    hide Drain;
    requests := [];
    ghost var all := PushAll(decoder.buffer, chunks, decoder.maxFrame);
    var i := 0;
    assert chunks[0..] == chunks;
    while i < |chunks|
      invariant i <= |chunks|
      invariant var rest := PushAll(decoder.buffer, chunks[i..], decoder.maxFrame);
        all.requests == requests + rest.requests && all.rest == rest.rest && all.error == rest.error
    {
      assert chunks[i..][1..] == chunks[i + 1..];
      var pushed := decoder.Push(chunks[i]);
      if pushed.Err? {
        assert requests + [] == requests;
        return requests, Some(pushed.error);
      }
      requests := requests + pushed.value;
      i := i + 1;
    }
    assert requests + [] == requests;
    return requests, None;
  }

  function Concat(chunks: seq<bytes>): bytes {
    if chunks == [] then [] else chunks[0] + Concat(chunks[1..])
  }

  /** A buffer the decoder leaves alone until more bytes arrive. */
  predicate Incomplete(buffer: bytes, maxFrame: nat) {
    |buffer| < 4 || (FRAME_HEADER_BYTES <= FrameLength(buffer) <= maxFrame && |buffer| < FrameLength(buffer))
  }

  lemma {:induction false} DrainLeavesIncomplete(buffer: bytes, maxFrame: nat)
    ensures var d := Drain(buffer, maxFrame);
      d.error.None? ==> Incomplete(d.rest, maxFrame) && Drain(d.rest, maxFrame) == Drained([], d.rest, None)
    decreases |buffer|
  {
    hide DecodedRequest, FrameLength;
    if |buffer| >= 4 {
      var length := FrameLength(buffer);
      if FRAME_HEADER_BYTES <= length <= maxFrame && length <= |buffer| && DecodedRequest(buffer[..length]).Ok? {
        DrainLeavesIncomplete(buffer[length..], maxFrame);
      }
    }
  }

  /** For any bytes and any split of them into chunks: the pushes all succeed exactly when one push of
      the whole would, and then deliver the same requests and leave the same buffer; otherwise they
      report the same error, having delivered a prefix of what precedes the bad frame. */
  lemma {:induction false} ChunkingDoesNotMatter(buffer: bytes, chunks: seq<bytes>, maxFrame: nat)
    requires Incomplete(buffer, maxFrame)
    ensures var whole, pushed := Drain(buffer + Concat(chunks), maxFrame), PushAll(buffer, chunks, maxFrame);
      if whole.error.None? then pushed == whole
      else pushed.error == whole.error && pushed.requests <= whole.requests
    decreases chunks
  {
    hide Drain;
    if chunks == [] {
      assert buffer + [] == buffer;
      DrainIncomplete(buffer, maxFrame);
    } else {
      var tail := Concat(chunks[1..]);
      assert buffer + Concat(chunks) == (buffer + chunks[0]) + tail;
      DrainInTwo(buffer + chunks[0], tail, maxFrame);
      DrainLeavesIncomplete(buffer + chunks[0], maxFrame);
      var first := Drain(buffer + chunks[0], maxFrame);
      if first.error.None? {
        ChunkingDoesNotMatter(first.rest, chunks[1..], maxFrame);
      }
    }
  }

  lemma DrainIncomplete(buffer: bytes, maxFrame: nat)
    requires Incomplete(buffer, maxFrame)
    ensures Drain(buffer, maxFrame) == Drained([], buffer, None)
  {
    hide FrameLength;
  }

  /** What a bad frame costs: the requests decoded before it in the same push, and nothing else. The
      pushes before it, chunks[..k], deliver front; the push of chunks[k] decodes last and fails. */
  lemma {:induction false} BadFrameLoses(buffer: bytes, chunks: seq<bytes>, maxFrame: nat) returns (k: nat)
    requires Incomplete(buffer, maxFrame) && Drain(buffer + Concat(chunks), maxFrame).error.Some?
    ensures k < |chunks|
    ensures var whole, pushed := Drain(buffer + Concat(chunks), maxFrame), PushAll(buffer, chunks, maxFrame);
      var front := Drain(buffer + Concat(chunks[..k]), maxFrame);
      var last := Drain(front.rest + chunks[k], maxFrame);
      && front.error.None? && last.error == whole.error
      && pushed.requests == front.requests && whole.requests == pushed.requests + last.requests
      && (pushed.requests == whole.requests <==> last.requests == [])
    decreases chunks
  {
    hide Drain;
    assert chunks != [] by {
      if chunks == [] { EmptyStreamFine(buffer, maxFrame); }
    }
    var rest := Concat(chunks[1..]);
    assert buffer + Concat(chunks) == (buffer + chunks[0]) + rest;
    DrainInTwo(buffer + chunks[0], rest, maxFrame);
    var first := Drain(buffer + chunks[0], maxFrame);
    if first.error.Some? {
      k := 0;
      assert buffer + Concat(chunks[..0]) == buffer;
      DrainIncomplete(buffer, maxFrame);
    } else {
      DrainLeavesIncomplete(buffer + chunks[0], maxFrame);
      var j := BadFrameLoses(first.rest, chunks[1..], maxFrame);
      k := j + 1;
      assert chunks[..k][1..] == chunks[1..][..j];
      var before := Concat(chunks[1..][..j]);
      assert buffer + Concat(chunks[..k]) == (buffer + chunks[0]) + before;
      DrainInTwo(buffer + chunks[0], before, maxFrame);
      AfterTwice();
    }
  }

  lemma EmptyStreamFine(buffer: bytes, maxFrame: nat)
    requires Incomplete(buffer, maxFrame)
    ensures Drain(buffer + Concat([]), maxFrame).error.None?
  {
    assert buffer + [] == buffer;
    DrainIncomplete(buffer, maxFrame);
  }

  // ---- Streams of encoded requests ----

  predicate Sendable(request: Request, maxFrame: nat) {
    EncodedRequest(request).Ok? && |EncodedRequest(request).value| <= maxFrame
  }

  function FramesOf(requests: seq<Request>, maxFrame: nat): bytes
    requires forall i :: 0 <= i < |requests| ==> Sendable(requests[i], maxFrame)
  {
    if requests == [] then []
    else
      assert Sendable(requests[0], maxFrame);
      EncodedRequest(requests[0]).value + FramesOf(requests[1..], maxFrame)
  }

  function ReceivedAll(requests: seq<Request>): seq<Request> {
    if requests == [] then [] else [ReceivedRequest(requests[0])] + ReceivedAll(requests[1..])
  }

  lemma FrameSaysItsLength(request: Request, rest: bytes)
    requires EncodedRequest(request).Ok?
    ensures FrameLength(EncodedRequest(request).value + rest) == |EncodedRequest(request).value|
  {
    hide FrameLength, Put16, Put32, Put64, EncodedBody;
    var frame := EncodedRequest(request).value;
    var body := EncodedBody(request).value;
    var tail := Put16(KeyCode(request.apiKey)) + (Put16(request.version) + Put64(request.requestId)) + body + rest;
    assert frame + rest == Put32(FRAME_HEADER_BYTES + |body|) + tail;
    FrameLengthOf(FRAME_HEADER_BYTES + |body|, tail);
  }

  lemma {:induction false} DrainFrames(requests: seq<Request>, partial: bytes, maxFrame: nat)
    requires forall i :: 0 <= i < |requests| ==> Sendable(requests[i], maxFrame)
    requires Incomplete(partial, maxFrame)
    ensures Drain(FramesOf(requests, maxFrame) + partial, maxFrame) == Drained(ReceivedAll(requests), partial, None)
    decreases requests
  {
    hide EncodedRequest, DecodedRequest, FrameLength, Incomplete;
    if requests == [] {
      assert FramesOf(requests, maxFrame) + partial == partial;
      DrainIncomplete(partial, maxFrame);
    } else {
      assert Sendable(requests[0], maxFrame);
      var frame := EncodedRequest(requests[0]).value;
      var tail := FramesOf(requests[1..], maxFrame) + partial;
      assert FramesOf(requests, maxFrame) + partial == frame + tail;
      FrameSaysItsLength(requests[0], tail);
      assert (frame + tail)[..|frame|] == frame && (frame + tail)[|frame|..] == tail;
      RequestRoundTrip(requests[0]);
      DrainFrames(requests[1..], partial, maxFrame);
    }
  }

  /** A proper prefix of a frame stays buffered. */
  lemma PartialFrameIncomplete(request: Request, cut: nat, maxFrame: nat)
    requires Sendable(request, maxFrame) && cut < |EncodedRequest(request).value|
    ensures Incomplete(EncodedRequest(request).value[..cut], maxFrame)
  {
    hide EncodedRequest, FrameLength;
    var frame := EncodedRequest(request).value;
    if cut >= 4 {
      FrameSaysItsLength(request, []);
      assert frame + [] == frame;
      assert frame == frame[..cut] + frame[cut..];
      LengthOfPrefix(frame[..cut], frame[cut..]);
    }
  }

  /** Any list of encodable requests, sent back to back with a partial frame behind them and cut into
      chunks anywhere: exactly those requests come out, in order, and the partial frame stays. */
  lemma StreamDelivered(requests: seq<Request>, partial: bytes, chunks: seq<bytes>, maxFrame: nat)
    requires forall i :: 0 <= i < |requests| ==> Sendable(requests[i], maxFrame)
    requires Incomplete(partial, maxFrame)
    requires Concat(chunks) == FramesOf(requests, maxFrame) + partial
    ensures PushAll([], chunks, maxFrame) == Drained(ReceivedAll(requests), partial, None)
  {
    hide Drain, PushAll, Sendable;
    DrainFrames(requests, partial, maxFrame);
    ChunkingDoesNotMatter([], chunks, maxFrame);
    assert [] + Concat(chunks) == Concat(chunks);
  }

  /** A header that declares a frame of no bytes. */
  const BAD_HEADER: bytes := [0, 0, 0, 0]

  /** The same bytes, cut differently: with the bad header in a chunk of its own the request before it is
      delivered, in one chunk with it the request is lost. */
  lemma CutDecidesDelivery(request: Request, maxFrame: nat)
    requires Sendable(request, maxFrame)
    ensures var frame := EncodedRequest(request).value;
      && PushAll([], [frame, BAD_HEADER], maxFrame)
           == Drained([ReceivedRequest(request)], BAD_HEADER, Some(InvalidArgument))
      && PushAll([], [frame + BAD_HEADER], maxFrame) == Drained([], BAD_HEADER, Some(InvalidArgument))
  {
    hide EncodedRequest, DecodedRequest, FrameLength, ReceivedRequest, Drain;
    var frame := EncodedRequest(request).value;
    DrainFrames([request], [], maxFrame);
    assert FramesOf([request], maxFrame) + [] == frame;
    assert [request][1..] == [] && ReceivedAll([request]) == [ReceivedRequest(request)];
    DrainInTwo(frame, BAD_HEADER, maxFrame);
    BadHeader(maxFrame);
    assert [] + frame == frame && [] + BAD_HEADER == BAD_HEADER && [] + (frame + BAD_HEADER) == frame + BAD_HEADER;
    assert [frame, BAD_HEADER][1..] == [BAD_HEADER];
  }

  lemma BadHeader(maxFrame: nat)
    ensures Drain(BAD_HEADER, maxFrame) == Drained([], BAD_HEADER, Some(InvalidArgument))
  {
    hide DecodedRequest;
    assert BAD_HEADER[..4] == BAD_HEADER;
    BigEndianZero();
  }

  lemma BigEndianZero()
    ensures FromBigEndian(BAD_HEADER) == 0
  {
    assert BAD_HEADER[..3] == [0, 0, 0] && BAD_HEADER[..3][..2] == [0, 0] && BAD_HEADER[..3][..2][..1] == [0];
    assert FromBigEndian([0]) == 0;
    assert FromBigEndian([0, 0]) == 0;
    assert FromBigEndian([0, 0, 0]) == 0;
  }
}
