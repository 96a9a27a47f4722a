/** Request frames: one encoder and one decoder per body, and the envelope around them. */
module RequestCodec {
  import opened Basics
  import Endian
  import opened Protocol
  import opened Wire

  // ---- Records ----

  /** AppendProtocolRecord, for a record whose strings fit their size fields; retry is not sent. */
  function PutRecord(r: ProtocolRecord): (b: bytes)
    ensures |b| == 16 + |r.key| + |r.value|
  {
    Put64(r.timestamp) + PutString(r.key) + PutString(r.value)
  }

  predicate RecordFits(r: ProtocolRecord) {
    Short(r.key) && Short(r.value)
  }

  function PutRecords(rs: seq<ProtocolRecord>): bytes {
    if rs == [] then [] else PutRecord(rs[0]) + PutRecords(rs[1..])
  }

  function WithoutRetry(r: ProtocolRecord): ProtocolRecord {
    r.(retry := None)
  }

  function AllWithoutRetry(rs: seq<ProtocolRecord>): (s: seq<ProtocolRecord>)
    ensures |s| == |rs|
  {
    if rs == [] then [] else [WithoutRetry(rs[0])] + AllWithoutRetry(rs[1..])
  }

  /** DecodeProtocolRecord. */
  function TakeRecord(data: bytes): (r: Result<Parsed<ProtocolRecord>>)
    ensures r.Ok? ==> |r.value.rest| < |data|
  {
    var timestamp :- Take64(data);
    var key :- TakeString(timestamp.rest);
    var value :- TakeString(key.rest);
    Ok(Parsed(ProtocolRecord(timestamp.value, key.value, value.value, None), value.rest))
  }

  function TakeRecords(data: bytes, count: nat): Result<Parsed<seq<ProtocolRecord>>>
    decreases count
  {
    if count == 0 then Ok(Parsed([], data))
    else
      var first :- TakeRecord(data);
      var others :- TakeRecords(first.rest, count - 1);
      Ok(Parsed([first.value] + others.value, others.rest))
  }

  lemma TakeRecordPut(r: ProtocolRecord, rest: bytes)
    requires RecordFits(r)
    ensures TakeRecord(PutRecord(r) + rest) == Ok(Parsed(WithoutRetry(r), rest))
  {
    hide Take64, Put64, TakeString, PutString;
    assert PutRecord(r) + rest == Put64(r.timestamp) + (PutString(r.key) + (PutString(r.value) + rest));
    Take64Put(r.timestamp, PutString(r.key) + (PutString(r.value) + rest));
    TakeStringPut(r.key, PutString(r.value) + rest);
    TakeStringPut(r.value, rest);
  }

  lemma {:induction false} TakeRecordsPut(rs: seq<ProtocolRecord>, rest: bytes)
    requires forall i :: 0 <= i < |rs| ==> RecordFits(rs[i])
    ensures TakeRecords(PutRecords(rs) + rest, |rs|) == Ok(Parsed(AllWithoutRetry(rs), rest))
  {
    hide TakeRecord, PutRecord, RecordFits;
    if rs == [] {
      assert PutRecords(rs) + rest == rest;
    } else {
      assert PutRecords(rs) + rest == PutRecord(rs[0]) + (PutRecords(rs[1..]) + rest);
      TakeRecordPut(rs[0], PutRecords(rs[1..]) + rest);
      TakeRecordsPut(rs[1..], rest);
    }
  }

  // ---- Bodies ----

  predicate AllShort(ss: seq<bytes>) {
    forall i :: 0 <= i < |ss| ==> Short(ss[i])
  }

  /** The strings of a body, all of which must fit a 32-bit size. */
  function Strings(body: RequestBody): seq<bytes> {
    match body
    case Produce(topic, _, _) => [topic]
    case Fetch(topic, _, _, _) => [topic]
    case Metadata(topic) => [topic]
    case CreateTopic(topic, _) => [topic]
    case CommitOffset(group, topic, _, _) => [group, topic]
    case FetchCommittedOffset(group, topic, _) => [group, topic]
    case JoinGroup(group, member, topic) => [group, member, topic]
    case SyncGroup(group, member, _) => [group, member]
    case Heartbeat(group, member, _) => [group, member]
    case LeaveGroup(group, member) => [group, member]
    case Nack(topic, _, _, reason) => [topic, reason]
  }

  /** What the body encoders insist on, besides string sizes. */
  predicate Encodable(body: RequestBody) {
    match body
    case Produce(_, _, records) =>
      0 < |records| < TWO_32 && forall i :: 0 <= i < |records| ==> RecordFits(records[i])
    case CommitOffset(_, _, _, offset) => offset >= 0
    case SyncGroup(_, _, generation) => generation >= 0
    case Heartbeat(_, _, generation) => generation >= 0
    case Nack(topic, partition, offset, _) => topic != [] && partition >= 0 && offset >= 0
    case _ => true
  }

  function PutBody(body: RequestBody): bytes {
    match body
    case Produce(topic, partition, records) =>
      PutString(topic) + (Put32(FromI32(partition)) + (Put32(|records| % TWO_32) + PutRecords(records)))
    case Fetch(topic, partition, offset, maxBytes) =>
      PutString(topic) + (Put32(FromI32(partition)) + (Put64(FromI64(offset)) + Put32(maxBytes)))
    case Metadata(topic) => PutString(topic)
    case CreateTopic(topic, count) => PutString(topic) + Put32(count)
    case CommitOffset(group, topic, partition, offset) =>
      PutString(group) + (PutString(topic) + (Put32(FromI32(partition)) + Put64(FromI64(offset))))
    case FetchCommittedOffset(group, topic, partition) =>
      PutString(group) + (PutString(topic) + Put32(FromI32(partition)))
    case JoinGroup(group, member, topic) => PutString(group) + (PutString(member) + PutString(topic))
    case SyncGroup(group, member, generation) => PutString(group) + (PutString(member) + Put32(FromI32(generation)))
    case Heartbeat(group, member, generation) => PutString(group) + (PutString(member) + Put32(FromI32(generation)))
    case LeaveGroup(group, member) => PutString(group) + PutString(member)
    case Nack(topic, partition, offset, reason) =>
      PutString(topic) + (Put32(FromI32(partition)) + (Put64(FromI64(offset)) + PutString(reason)))
  }

  /** EncodeRequestBody. */
  function EncodedBody(request: Request): Result<bytes> {
    if KeyFor(request.body) != request.apiKey then Err(InvalidArgument)
    else if !Encodable(request.body) || !AllShort(Strings(request.body)) then Err(InvalidArgument)
    else Ok(PutBody(request.body))
  }

  /** A finished body: nothing may follow its last field. */
  function Finished(body: RequestBody, rest: bytes): Result<RequestBody> {
    if rest == [] then Ok(body) else Err(InvalidArgument)
  }

  function DecodedProduce(data: bytes): Result<RequestBody> {
    var topic :- TakeString(data);
    var partition :- Take32(topic.rest);
    var records :- LastRecords(partition.rest);
    Ok(Produce(topic.value, ToI32(partition.value), records))
  }

  /** The counted records that end a Produce body. */
  function LastRecords(data: bytes): Result<seq<ProtocolRecord>> {
    var count :- Take32(data);
    if count.value == 0 then Err(InvalidArgument)
    else
      var records :- TakeRecords(count.rest, count.value);
      if records.rest == [] then Ok(records.value) else Err(InvalidArgument)
  }

  function DecodedFetch(data: bytes): Result<RequestBody> {
    var topic :- TakeString(data);
    var partition :- Take32(topic.rest);
    var offset :- Take64(partition.rest);
    var maxBytes :- Take32(offset.rest);
    Finished(Fetch(topic.value, ToI32(partition.value), ToI64(offset.value), maxBytes.value), maxBytes.rest)
  }

  function DecodedMetadata(data: bytes): Result<RequestBody> {
    var topic :- TakeString(data);
    Finished(Metadata(topic.value), topic.rest)
  }

  function DecodedCreateTopic(data: bytes): Result<RequestBody> {
    var topic :- TakeString(data);
    var count :- Take32(topic.rest);
    Finished(CreateTopic(topic.value, count.value), count.rest)
  }

  function DecodedCommitOffset(data: bytes): Result<RequestBody> {
    var group :- TakeString(data);
    var topic :- TakeString(group.rest);
    var partition :- Take32(topic.rest);
    var offset :- Take64(partition.rest);
    Finished(CommitOffset(group.value, topic.value, ToI32(partition.value), ToI64(offset.value)), offset.rest)
  }

  function DecodedFetchCommittedOffset(data: bytes): Result<RequestBody> {
    var group :- TakeString(data);
    var topic :- TakeString(group.rest);
    var partition :- Take32(topic.rest);
    Finished(FetchCommittedOffset(group.value, topic.value, ToI32(partition.value)), partition.rest)
  }

  function DecodedJoinGroup(data: bytes): Result<RequestBody> {
    var group :- TakeString(data);
    var member :- TakeString(group.rest);
    var topic :- TakeString(member.rest);
    Finished(JoinGroup(group.value, member.value, topic.value), topic.rest)
  }

  /** DecodeGenerationId rejects values that are negative as signed. */
  function TakeGeneration(data: bytes): Result<Parsed<i32>> {
    var generation :- Take32(data);
    if generation.value >= TWO_31 then Err(InvalidArgument)
    else Ok(Parsed(generation.value, generation.rest))
  }

  function DecodedSyncGroup(data: bytes): Result<RequestBody> {
    var group :- TakeString(data);
    var member :- TakeString(group.rest);
    var generation :- TakeGeneration(member.rest);
    Finished(SyncGroup(group.value, member.value, generation.value), generation.rest)
  }

  function DecodedHeartbeat(data: bytes): Result<RequestBody> {
    var group :- TakeString(data);
    var member :- TakeString(group.rest);
    var generation :- TakeGeneration(member.rest);
    Finished(Heartbeat(group.value, member.value, generation.value), generation.rest)
  }

  function DecodedLeaveGroup(data: bytes): Result<RequestBody> {
    var group :- TakeString(data);
    var member :- TakeString(group.rest);
    Finished(LeaveGroup(group.value, member.value), member.rest)
  }

  function DecodedNack(data: bytes): Result<RequestBody> {
    var topic :- TakeString(data);
    var partition :- Take32(topic.rest);
    var offset :- Take64(partition.rest);
    var reason :- TakeString(offset.rest);
    if reason.rest != [] || topic.value == [] || ToI32(partition.value) < 0 || offset.value >= TWO_63
    then Err(InvalidArgument)
    else Ok(Nack(topic.value, ToI32(partition.value), offset.value, reason.value))
  }

  /** DecodeRequestBody. */
  function DecodedBody(key: ApiKey, data: bytes): Result<RequestBody> {
    match key
    case KeyProduce => DecodedProduce(data)
    case KeyFetch => DecodedFetch(data)
    case KeyMetadata => DecodedMetadata(data)
    case KeyCreateTopic => DecodedCreateTopic(data)
    case KeyCommitOffset => DecodedCommitOffset(data)
    case KeyFetchCommittedOffset => DecodedFetchCommittedOffset(data)
    case KeyJoinGroup => DecodedJoinGroup(data)
    case KeySyncGroup => DecodedSyncGroup(data)
    case KeyHeartbeat => DecodedHeartbeat(data)
    case KeyLeaveGroup => DecodedLeaveGroup(data)
    case KeyNack => DecodedNack(data)
  }

  /** What arrives of a body that is sent: everything but the retry metadata of produced records. */
  function Received(body: RequestBody): RequestBody {
    match body
    case Produce(topic, partition, records) => Produce(topic, partition, AllWithoutRetry(records))
    case _ => body
  }

  /** Take32Put where the field ends the body. */
  lemma Take32Last(v: u32)
    ensures Take32(Put32(v)) == Ok(Parsed(v, []))
  {
    hide Take32, Put32;
    Take32Put(v, []);
    assert Put32(v) + [] == Put32(v);
  }

  lemma Take64Last(v: u64)
    ensures Take64(Put64(v)) == Ok(Parsed(v, []))
  {
    hide Take64, Put64;
    Take64Put(v, []);
    assert Put64(v) + [] == Put64(v);
  }

  lemma TakeStringLast(s: bytes)
    requires Short(s)
    ensures TakeString(PutString(s)) == Ok(Parsed(s, []))
  {
    hide TakeString, PutString;
    TakeStringPut(s, []);
    assert PutString(s) + [] == PutString(s);
  }

  lemma ProduceInSteps(data: bytes, topic: bytes, a: bytes, partition: u32, b: bytes, count: u32, c: bytes,
                       records: seq<ProtocolRecord>)
    requires TakeString(data) == Ok(Parsed(topic, a)) && Take32(a) == Ok(Parsed(partition, b))
    requires Take32(b) == Ok(Parsed(count, c)) && count > 0 && TakeRecords(c, count) == Ok(Parsed(records, []))
    ensures DecodedProduce(data) == Ok(Produce(topic, ToI32(partition), records))
  {
    hide Take32, TakeString, TakeRecords;
  }

  lemma ProduceParts(topic: bytes, partition: i32, records: seq<ProtocolRecord>)
    requires |records| < TWO_32
    ensures PutBody(Produce(topic, partition, records))
         == PutString(topic) + (Put32(FromI32(partition)) + (Put32(|records|) + PutRecords(records)))
  {
    hide PutString, Put32, PutRecords;
  }

  lemma ProduceRoundTrip(topic: bytes, partition: i32, records: seq<ProtocolRecord>)
    requires Short(topic) && 0 < |records| < TWO_32
    requires forall i :: 0 <= i < |records| ==> RecordFits(records[i])
    ensures DecodedProduce(PutBody(Produce(topic, partition, records)))
         == Ok(Produce(topic, partition, AllWithoutRetry(records)))
  {
    hide Take32, TakeString, Put32, PutString, TakeRecords, PutRecords, AllWithoutRetry, RecordFits, DecodedProduce,
      PutBody;
    var c := PutRecords(records);
    var b := Put32(|records|) + c;
    var a := Put32(FromI32(partition)) + b;
    ProduceParts(topic, partition, records);
    TakeStringPut(topic, a);
    Take32Put(FromI32(partition), b);
    Take32Put(|records|, c);
    TakeAllRecordsPut(records);
    ProduceInSteps(PutString(topic) + a, topic, a, FromI32(partition), b, |records|, c, AllWithoutRetry(records));
  }

  lemma TakeAllRecordsPut(rs: seq<ProtocolRecord>)
    requires forall i :: 0 <= i < |rs| ==> RecordFits(rs[i])
    ensures TakeRecords(PutRecords(rs), |rs|) == Ok(Parsed(AllWithoutRetry(rs), []))
  {
    hide TakeRecords, PutRecords, AllWithoutRetry, RecordFits;
    TakeRecordsPut(rs, []);
    assert PutRecords(rs) + [] == PutRecords(rs);
  }

  lemma TwoStrings(a: bytes, b: bytes, rest: bytes)
    requires Short(a) && Short(b)
    ensures TakeString(PutString(a) + (PutString(b) + rest)) == Ok(Parsed(a, PutString(b) + rest))
    ensures TakeString(PutString(b) + rest) == Ok(Parsed(b, rest))
  {
    hide TakeString, PutString;
    TakeStringPut(a, PutString(b) + rest);
    TakeStringPut(b, rest);
  }

  lemma TopicRoundTrip(body: RequestBody)
    requires body.Fetch? || body.Metadata? || body.CreateTopic? || body.Nack?
    requires Encodable(body) && AllShort(Strings(body))
    ensures DecodedBody(KeyFor(body), PutBody(body)) == Ok(body)
  {
    hide Take32, Take64, TakeString, Put32, Put64, PutString, Short;
    assert Short(Strings(body)[0]);
    match body
    case Fetch(topic, partition, offset, maxBytes) =>
      var rest := Put64(FromI64(offset)) + Put32(maxBytes);
      TakeStringPut(topic, Put32(FromI32(partition)) + rest);
      Take32Put(FromI32(partition), rest);
      Take64Put(FromI64(offset), Put32(maxBytes));
      Take32Last(maxBytes);
    case Metadata(topic) =>
      TakeStringLast(topic);
    case CreateTopic(topic, count) =>
      TakeStringPut(topic, Put32(count));
      Take32Last(count);
    case Nack(topic, partition, offset, reason) =>
      assert Short(Strings(body)[1]);
      var rest := Put64(FromI64(offset)) + PutString(reason);
      TakeStringPut(topic, Put32(FromI32(partition)) + rest);
      Take32Put(FromI32(partition), rest);
      Take64Put(FromI64(offset), PutString(reason));
      TakeStringLast(reason);
  }

  lemma GroupRoundTrip(body: RequestBody)
    requires !body.Fetch? && !body.Metadata? && !body.CreateTopic? && !body.Nack? && !body.Produce?
    requires Encodable(body) && AllShort(Strings(body))
    ensures DecodedBody(KeyFor(body), PutBody(body)) == Ok(body)
  {
    hide Take32, Take64, TakeString, Put32, Put64, PutString, Short;
    var ss := Strings(body);
    assert Short(ss[0]) && Short(ss[1]);
    match body
    case CommitOffset(group, topic, partition, offset) =>
      TwoStrings(group, topic, Put32(FromI32(partition)) + Put64(FromI64(offset)));
      Take32Put(FromI32(partition), Put64(FromI64(offset)));
      Take64Last(FromI64(offset));
    case FetchCommittedOffset(group, topic, partition) =>
      TwoStrings(group, topic, Put32(FromI32(partition)));
      Take32Last(FromI32(partition));
    case JoinGroup(group, member, topic) =>
      assert Short(ss[2]);
      TwoStrings(group, member, PutString(topic));
      TakeStringLast(topic);
    case SyncGroup(group, member, generation) =>
      TwoStrings(group, member, Put32(FromI32(generation)));
      Take32Last(FromI32(generation));
    case Heartbeat(group, member, generation) =>
      TwoStrings(group, member, Put32(FromI32(generation)));
      Take32Last(FromI32(generation));
    case LeaveGroup(group, member) =>
      TakeStringPut(group, PutString(member));
      TakeStringLast(member);
  }

  /** Decoding an encoded body gives it back, for every kind of request. */
  lemma BodyRoundTrip(body: RequestBody)
    requires Encodable(body) && AllShort(Strings(body))
    ensures DecodedBody(KeyFor(body), PutBody(body)) == Ok(Received(body))
  {
    hide PutBody, DecodedProduce, DecodedFetch, DecodedNack, DecodedMetadata, DecodedCreateTopic, DecodedCommitOffset,
      DecodedFetchCommittedOffset, DecodedJoinGroup, DecodedSyncGroup, DecodedHeartbeat, DecodedLeaveGroup, Short;
    match body
    case Produce(topic, partition, records) =>
      assert Short(Strings(body)[0]);
      ProduceRoundTrip(topic, partition, records);
    case Fetch(_, _, _, _) => TopicRoundTrip(body);
    case Metadata(_) => TopicRoundTrip(body);
    case CreateTopic(_, _) => TopicRoundTrip(body);
    case Nack(_, _, _, _) => TopicRoundTrip(body);
    case _ => GroupRoundTrip(body);
  }

  // ---- The loops of the Produce encoder and decoder ----

  method AppendString(s: bytes, output: bytes) returns (status: Result<Unit>, result: bytes)
    ensures if Short(s) then status == Ok(Unit) && result == output + PutString(s)
            else status == Err(InvalidArgument) && result == output
  {
    if |s| >= TWO_32 {
      return Err(InvalidArgument), output;
    }
    var sized := Endian.AppendBigEndian(|s| % TWO_32, Endian.W32, output);
    assert sized + s == output + PutString(s);
    return Ok(Unit), sized + s;
  }

  method AppendProtocolRecord(record: ProtocolRecord, output: bytes) returns (status: Result<Unit>, result: bytes)
    ensures if RecordFits(record) then status == Ok(Unit) && result == output + PutRecord(record)
            else status == Err(InvalidArgument)
  {
    hide PutString, Short, Endian.BigEndian;
    result := Endian.AppendBigEndian(record.timestamp, Endian.W64, output);
    status, result := AppendString(record.key, result);
    if status.Err? {
      return status, result;
    }
    status, result := AppendString(record.value, result);
    if status.Ok? {
      assert result == output + PutRecord(record);
    }
  }

  method EncodeProduceBody(topic: bytes, partition: i32, records: seq<ProtocolRecord>) returns (r: Result<bytes>)
    ensures r == EncodedBody(Request(KeyProduce, PROTOCOL_VERSION, 0, Produce(topic, partition, records)))
  {
    hide PutString, Short, PutRecord, RecordFits, Endian.BigEndian;
    ghost var body := Produce(topic, partition, records);
    assert AllShort(Strings(body)) <==> Short(topic) by {
      assert Strings(body)[0] == topic;
    }
    if records == [] || |records| >= TWO_32 {
      return Err(InvalidArgument);
    }
    var status, output := AppendString(topic, []);
    if status.Err? {
      return Err(status.error);
    }
    output := Endian.AppendBigEndian(FromI32(partition), Endian.W32, output);
    output := Endian.AppendBigEndian(|records| % TWO_32, Endian.W32, output);
    ghost var header := output;
    for i := 0 to |records|
      invariant forall j :: 0 <= j < i ==> RecordFits(records[j])
      invariant output + PutRecords(records[i..]) == header + PutRecords(records)
    {
      assert records[i..][1..] == records[i + 1..];
      status, output := AppendProtocolRecord(records[i], output);
      if status.Err? {
        return Err(status.error);
      }
    }
    assert records[|records|..] == [] && output + [] == output;
    assert header + PutRecords(records) == PutBody(body);
    return Ok(output);
  }

  method ReadU32(reader: BodyReader) returns (r: Result<u32>)
    requires reader.Valid()
    modifies reader
    ensures reader.Valid()
    ensures var taken := Take32(old(reader.Rest()));
      if taken.Err? then r == Err(taken.error) else r == Ok(taken.value.value) && reader.Rest() == taken.value.rest
  {
    hide TakeUInt;
    Endian.Pow256Values();
    var value := reader.ReadUInt(Endian.W32);
    if value.Err? {
      return Err(value.error);
    }
    return Ok(value.value);
  }

  method ReadU64(reader: BodyReader) returns (r: Result<u64>)
    requires reader.Valid()
    modifies reader
    ensures reader.Valid()
    ensures var taken := Take64(old(reader.Rest()));
      if taken.Err? then r == Err(taken.error) else r == Ok(taken.value.value) && reader.Rest() == taken.value.rest
  {
    hide TakeUInt;
    Endian.Pow256Values();
    var value := reader.ReadUInt(Endian.W64);
    if value.Err? {
      return Err(value.error);
    }
    return Ok(value.value);
  }

  method DecodeProtocolRecord(reader: BodyReader) returns (r: Result<ProtocolRecord>)
    requires reader.Valid()
    modifies reader
    ensures reader.Valid()
    ensures var taken := TakeRecord(old(reader.Rest()));
      if taken.Err? then r == Err(taken.error) else r == Ok(taken.value.value) && reader.Rest() == taken.value.rest
  {
    hide Take64, TakeString;
    var timestamp := ReadU64(reader);
    if timestamp.Err? {
      return Err(timestamp.error);
    }
    var key := reader.ReadString();
    if key.Err? {
      return Err(key.error);
    }
    var value := reader.ReadString();
    if value.Err? {
      return Err(value.error);
    }
    return Ok(ProtocolRecord(timestamp.value, key.value, value.value, None));
  }

  method DecodeProtocolRecords(reader: BodyReader, count: nat) returns (r: Result<seq<ProtocolRecord>>)
    requires reader.Valid()
    modifies reader
    ensures reader.Valid()
    ensures var taken := TakeRecords(old(reader.Rest()), count);
      if taken.Err? then r == Err(taken.error) else r == Ok(taken.value.value) && reader.Rest() == taken.value.rest
  {
    hide TakeRecord;
    var records: seq<ProtocolRecord> := [];
    ghost var all := TakeRecords(reader.Rest(), count);
    for i := 0 to count
      invariant reader.Valid()
      invariant var rest := TakeRecords(reader.Rest(), count - i);
        if rest.Err? then all == rest
        else all.Ok? && all.value.value == records + rest.value.value && all.value.rest == rest.value.rest
    {
      var record := DecodeProtocolRecord(reader);
      if record.Err? {
        return Err(record.error);
      }
      records := records + [record.value];
    }
    assert records + [] == records;
    return Ok(records);
  }

  method DecodeLastRecords(reader: BodyReader) returns (r: Result<seq<ProtocolRecord>>)
    requires reader.Valid()
    modifies reader
    ensures reader.Valid() && r == LastRecords(old(reader.Rest()))
  {
    hide Take32, TakeRecords;
    var count := ReadU32(reader);
    if count.Err? {
      return Err(count.error);
    }
    if count.value == 0 {
      return Err(InvalidArgument);
    }
    var records := DecodeProtocolRecords(reader, count.value);
    if records.Err? {
      return Err(records.error);
    }
    if reader.offset != |reader.data| {
      return Err(InvalidArgument);
    }
    return Ok(records.value);
  }

  method DecodeProduceBody(body: bytes) returns (r: Result<RequestBody>)
    ensures r == DecodedProduce(body)
  {
    hide Take32, TakeString, LastRecords;
    var reader := new BodyReader(body);
    var topic := reader.ReadString();
    if topic.Err? {
      return Err(topic.error);
    }
    var partition := ReadU32(reader);
    if partition.Err? {
      return Err(partition.error);
    }
    var records := DecodeLastRecords(reader);
    if records.Err? {
      return Err(records.error);
    }
    return Ok(Produce(topic.value, ToI32(partition.value), records.value));
  }
}
