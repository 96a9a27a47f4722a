/** The wire protocol: big-endian frames around typed request and response bodies. */
module Protocol {
  import opened Basics

  datatype ApiKey =
    | KeyProduce | KeyFetch | KeyMetadata | KeyCreateTopic | KeyCommitOffset | KeyFetchCommittedOffset
    | KeyJoinGroup | KeySyncGroup | KeyHeartbeat | KeyLeaveGroup | KeyNack

  const PROTOCOL_VERSION: u16 := 1
  const RETRY_PROTOCOL_VERSION: u16 := 2
  const FRAME_HEADER_BYTES: nat := 16
  const MAX_FRAME_BYTES: nat := 0x100_0000

  predicate SupportedVersion(version: u16) {
    version == PROTOCOL_VERSION || version == RETRY_PROTOCOL_VERSION
  }

  datatype RetryMetadata = RetryMetadata(
    retryCount: u32, nextVisibleTime: u64, originalTopic: bytes, failureReason: bytes,
    originalPartition: i32, originalOffset: i64)

  datatype ProtocolRecord = ProtocolRecord(timestamp: u64, key: bytes, value: bytes, retry: Option<RetryMetadata>)

  datatype RequestBody =
    | Produce(topic: bytes, partition: i32, records: seq<ProtocolRecord>)
    | Fetch(topic: bytes, partition: i32, offset: i64, maxBytes: u32)
    | Metadata(topic: bytes)
    | CreateTopic(topic: bytes, partitionCount: u32)
    | CommitOffset(groupId: bytes, topic: bytes, partition: i32, offset: i64)
    | FetchCommittedOffset(groupId: bytes, topic: bytes, partition: i32)
    | JoinGroup(groupId: bytes, memberId: bytes, topic: bytes)
    | SyncGroup(groupId: bytes, memberId: bytes, generationId: i32)
    | Heartbeat(groupId: bytes, memberId: bytes, generationId: i32)
    | LeaveGroup(groupId: bytes, memberId: bytes)
    | Nack(topic: bytes, partition: i32, offset: i64, reason: bytes)

  datatype Request = Request(apiKey: ApiKey, version: u16, requestId: u64, body: RequestBody)

  function KeyCode(k: ApiKey): u16 {
    match k
    case KeyProduce => 1
    case KeyFetch => 2
    case KeyMetadata => 3
    case KeyCreateTopic => 4
    case KeyCommitOffset => 5
    case KeyFetchCommittedOffset => 6
    case KeyJoinGroup => 7
    case KeySyncGroup => 8
    case KeyHeartbeat => 9
    case KeyLeaveGroup => 10
    case KeyNack => 11
  }

  /** ParseApiKey. */
  function KeyOf(code: u16): (r: Result<ApiKey>)
    ensures r.Ok? ==> KeyCode(r.value) == code
  {
    if code == 1 then Ok(KeyProduce)
    else if code == 2 then Ok(KeyFetch)
    else if code == 3 then Ok(KeyMetadata)
    else if code == 4 then Ok(KeyCreateTopic)
    else if code == 5 then Ok(KeyCommitOffset)
    else if code == 6 then Ok(KeyFetchCommittedOffset)
    else if code == 7 then Ok(KeyJoinGroup)
    else if code == 8 then Ok(KeySyncGroup)
    else if code == 9 then Ok(KeyHeartbeat)
    else if code == 10 then Ok(KeyLeaveGroup)
    else if code == 11 then Ok(KeyNack)
    else Err(InvalidArgument)
  }

  /** The key a body belongs to. */
  function KeyFor(body: RequestBody): ApiKey {
    match body
    case Produce(_, _, _) => KeyProduce
    case Fetch(_, _, _, _) => KeyFetch
    case Metadata(_) => KeyMetadata
    case CreateTopic(_, _) => KeyCreateTopic
    case CommitOffset(_, _, _, _) => KeyCommitOffset
    case FetchCommittedOffset(_, _, _) => KeyFetchCommittedOffset
    case JoinGroup(_, _, _) => KeyJoinGroup
    case SyncGroup(_, _, _) => KeySyncGroup
    case Heartbeat(_, _, _) => KeyHeartbeat
    case LeaveGroup(_, _) => KeyLeaveGroup
    case Nack(_, _, _, _) => KeyNack
  }

  datatype ProtocolErrorCode =
    | NoError | InvalidRequest | TopicNotFound | OffsetOutOfRange | InternalError
    | UnsupportedVersion | UnknownMemberError | IllegalGenerationError

  function ErrorNumber(e: ProtocolErrorCode): u16 {
    match e
    case NoError => 0
    case InvalidRequest => 1
    case TopicNotFound => 2
    case OffsetOutOfRange => 3
    case InternalError => 4
    case UnsupportedVersion => 5
    case UnknownMemberError => 6
    case IllegalGenerationError => 7
  }

  /** ParseProtocolErrorCode. */
  function ErrorOf(code: u16): (r: Result<ProtocolErrorCode>)
    ensures r.Ok? ==> ErrorNumber(r.value) == code
  {
    if code == 0 then Ok(NoError)
    else if code == 1 then Ok(InvalidRequest)
    else if code == 2 then Ok(TopicNotFound)
    else if code == 3 then Ok(OffsetOutOfRange)
    else if code == 4 then Ok(InternalError)
    else if code == 5 then Ok(UnsupportedVersion)
    else if code == 6 then Ok(UnknownMemberError)
    else if code == 7 then Ok(IllegalGenerationError)
    else Err(InvalidArgument)
  }

  datatype FetchResponse = FetchResponse(baseOffset: i64, highWatermark: i64, records: seq<ProtocolRecord>)
}
