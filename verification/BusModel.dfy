/** What the virtual bus stores and sends, as values. */
module BusModel {
  import opened Bytes
  import opened Lin
  import opened Options

  const QUEUE_SIZE := 64

  datatype Response = Response(data: seq<byte>, checksumType: ChecksumType)

  /** The checks made before the lock is taken; absent data means removal. */
  function PublishCheck(id: uint8, data: Option<seq<byte>>): Option<Error> {
    if id > MAX_ID then Some(IdOutOfRange)
    else if data.Some? && |data.value| == 0 then Some(InvalidFrame)
    else if data.Some? && |data.value| > MAX_DATA_LEN then Some(PayloadTooLarge)
    else None
  }

  function Register(responses: map<uint8, Response>, id: uint8, data: Option<seq<byte>>, ct: ChecksumType)
    : map<uint8, Response>
  {
    match data
    case None => responses - {id}
    case Some(bytes) => responses[id := Response(bytes, ct)]
  }

  /** PublishFrame knows only two checksum types: everything that is not classic is registered as enhanced. */
  function RegisteredType(ct: ChecksumType): ChecksumType {
    if ct == CLASSIC then CLASSIC else ENHANCED
  }

  /** One to eight bytes, or none to remove the registration, for an identifier in range. */
  predicate Acceptable(id: uint8, data: Option<seq<byte>>) {
    id <= 0x3F && (data.Some? ==> 1 <= |data.value| <= 8)
  }

  /** The argument checks, in their order: identifier, empty payload, payload too long. */
  lemma CheckIsExact(id: uint8, data: Option<seq<byte>>)
    ensures PublishCheck(id, data) == None <==> Acceptable(id, data)
    ensures PublishCheck(id, data) == Some(IdOutOfRange) <==> id > 0x3F
    ensures PublishCheck(id, data) == Some(InvalidFrame) <==> id <= 0x3F && data == Some([])
    ensures PublishCheck(id, data) == Some(PayloadTooLarge) <==> id <= 0x3F && data.Some? && |data.value| > 8
  {
  }

  /** The table says what was published: nothing after a removal, else the bytes with one of the two types. */
  predicate TableSays(responses: map<uint8, Response>, id: uint8, data: Option<seq<byte>>, ct: ChecksumType) {
    match data
    case None => id !in responses
    case Some(bytes) =>
      id in responses && responses[id] == Response(bytes, if ct == CLASSIC then CLASSIC else ENHANCED)
  }

  predicate WellFormedResponses(responses: map<uint8, Response>) {
    forall id: uint8 :: id in responses ==> id <= MAX_ID && 1 <= |responses[id].data| <= MAX_DATA_LEN
  }

  lemma RegisterKeepsWellFormed(responses: map<uint8, Response>, id: uint8, data: Option<seq<byte>>, ct: ChecksumType)
    requires WellFormedResponses(responses) && PublishCheck(id, data).None?
    ensures WellFormedResponses(Register(responses, id, data, ct))
  {
  }

  /** The frame synthesised from a registered response. */
  function ResponseFrame(id: uint8, r: Response): Frame {
    Frame(id, r.data, Checksum(Pid(id), r.data, r.checksumType), r.checksumType)
  }

  /** The frame a response table yields for an identifier it contains. */
  predicate Yields(responses: map<uint8, Response>, id: uint8, f: Frame) {
    id in responses && f == ResponseFrame(id, responses[id])
  }

  /**
   * Everything but the checksum rule of diagnostic frames holds of a synthesised frame; that rule is up to the
   * registration.
   */
  lemma YieldedFrameIsValid(responses: map<uint8, Response>, id: uint8, f: Frame)
    requires WellFormedResponses(responses) && Yields(responses, id, f)
    ensures f.id == id <= MAX_ID && 1 <= |f.data| <= MAX_DATA_LEN
    ensures f.checksum == Checksum(Pid(id), f.data, f.checksumType)
    ensures ValidateFrame(f).Ok? <==> (IsDiagnosticId(id) ==> responses[id].checksumType == CLASSIC)
  {
  }

  /** A frame of these bytes with the checksum they were published with. */
  predicate Carries(f: Frame, id: uint8, data: seq<byte>, ct: ChecksumType) {
    && f.id == id && f.data == data
    && (ct == CLASSIC ==> f.checksumType == CLASSIC && Val(f.checksum) == 255 - EndAround(Sum(data)))
    && (ct != CLASSIC ==> f.checksumType == ENHANCED && Val(f.checksum) == 255 - EndAround(Val(Pid(id)) + Sum(data)))
  }

  /** The frame of a table entry carries what was published. */
  lemma YieldedFrameCarries(
    responses: map<uint8, Response>, id: uint8, data: Option<seq<byte>>, ct: ChecksumType, f: Frame)
    requires TableSays(responses, id, data, ct) && Yields(responses, id, f)
    ensures data.Some? && Carries(f, id, data.value, ct)
  {
    ChecksumIs(Pid(id), data.value, responses[id].checksumType);
  }

  // ---------- 64-bit counters ----------

  const WRAP := 0x1_0000_0000_0000_0000

  datatype Counters = Counters(
    written: nat, delivered: nat, dropped: nat, bytesWritten: nat, bytesDelivered: nat, errors: nat)

  function Bump(counter: nat, n: nat): nat {
    (counter + n) % WRAP
  }
}
