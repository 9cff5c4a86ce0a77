/**
 The messages the two programs exchange and the byte stream of each:
 a header, then the payload. Client and server agree on these layouts only if their
 independent readers and writers are proved against them.
 */
module Protocol {
  import opened Bytes
  import opened Framing

  const CLIENT_VERSION: Byte := 2
  const SERVER_VERSION: Byte := 2

  // Message types; any other byte travels too, the server does not look at it.
  const REQUEST_SYMMETRIC_KEY: Byte := 0
  const SEND_SYMMETRIC_KEY: Byte := 1
  const SEND_TEXT_MESSAGE: Byte := 2
  const SEND_FILE: Byte := 3

  datatype ParseStatus = UNDONE | DONE

  // ---------- Requests ----------

  /** A request; the client names ids in hex digits, the server as UUIDs. */
  datatype Request<+Id> =
    | Register(userName: Bytes, publicKey: Bytes)
    | ListClients
    | GetPublicKey(dest: Id)
    | SendMessage(dest: Id, messageType: Byte, content: Bytes)
    | PullMessages

  datatype Envelope<+Id> = Envelope(clientId: Id, version: Byte, request: Request<Id>)

  function RequestCode<Id>(r: Request<Id>): nat {
    match r
    case Register(_, _) => 1100
    case ListClients => 1101
    case GetPublicKey(_) => 1102
    case SendMessage(_, _, _) => 1103
    case PullMessages => 1104
  }

  /** The header's payload size, a 32-bit number in the constructor that computes it. */
  function RequestPayloadSize<Id>(r: Request<Id>): nat {
    match r
    case Register(_, _) => 415
    case ListClients => 0
    case GetPublicKey(_) => 16
    case SendMessage(_, _, content) => (21 + |content|) % 0x1_0000_0000
    case PullMessages => 0
  }

  /** What the client's constructors are given: names and keys that fit their fields, contents that can be counted. */
  predicate Writable<Id>(r: Request<Id>) {
    match r
    case Register(name, key) => |name| <= 255 && |key| == 160
    case SendMessage(_, _, content) => |content| < 0x1_0000_0000
    case _ => true
  }

  function RequestHeader(id: Uuid, version: Byte, code: nat, payloadSize: nat): (h: Bytes)
    ensures |h| == 23
  {
    id + LE(version, 1) + LE(code, 2) + LE(payloadSize, 4)
  }

  function RequestPayload(r: Request<Uuid>): Bytes
    requires Writable(r)
  {
    match r
    case Register(name, key) => name + Zeros(255 - |name|) + key
    case ListClients => []
    case GetPublicKey(dest) => dest
    case SendMessage(dest, messageType, content) => dest + LE(messageType, 1) + LE(|content|, 4) + content
    case PullMessages => []
  }

  function RequestStream(e: Envelope<Uuid>): Bytes
    requires Writable(e.request)
  {
    RequestHeader(e.clientId, e.version, RequestCode(e.request), RequestPayloadSize(e.request)) + RequestPayload(e.request)
  }

  function UnHexRequest(r: Request<HexId>): Request<Uuid> {
    match r
    case Register(name, key) => Register(name, key)
    case ListClients => ListClients
    case GetPublicKey(dest) => GetPublicKey(UnHex(dest))
    case SendMessage(dest, messageType, content) => SendMessage(UnHex(dest), messageType, content)
    case PullMessages => PullMessages
  }

  /** The ids of a client's request as the bytes it sends for them. */
  function UnHexEnvelope(e: Envelope<HexId>): Envelope<Uuid> {
    Envelope(UnHex(e.clientId), e.version, UnHexRequest(e.request))
  }

  function RequestFrames(e: Envelope<HexId>): seq<Frame>
    requires Writable(e.request)
  {
    Frames(RequestStream(UnHexEnvelope(e)))
  }

  // ---------- Responses ----------

  datatype StoredMessage = StoredMessage(id: nat, to: Uuid, from: Uuid, messageType: Byte, content: Bytes)

  datatype Response =
    | RegisterSuccess(clientId: Uuid)
    | ClientsList(clients: seq<(Uuid, Bytes)>)
    | PublicKeySuccess(clientId: Uuid, publicKey: Bytes)
    | MessageSent(clientId: Uuid, messageId: nat)
    | MessagesPulled(messages: seq<StoredMessage>, size: nat)
    | GeneralError

  function ResponseCode(r: Response): nat {
    match r
    case RegisterSuccess(_) => 2100
    case ClientsList(_) => 2101
    case PublicKeySuccess(_, _) => 2102
    case MessageSent(_, _) => 2103
    case MessagesPulled(_, _) => 2104
    case GeneralError => 9000
  }

  function ResponseHeader(code: nat, payloadSize: nat): (h: Bytes)
    ensures |h| == 7
  {
    LE(SERVER_VERSION, 1) + LE(code, 2) + LE(payloadSize, 4)
  }
}
