/** client/ServerResponse.cpp (parsing) and the read loop of client/TCPNetworkClientManager.cpp. */
module ResponseReader {
  import opened Wrappers
  import opened Bytes
  import opened Framing
  import opened Protocol
  import opened Records

  datatype ResponseError = EndOfFile | InvalidResponseCode | InvalidPayloadSize

  /** What the client has in hand after parsing a response. */
  datatype Decoded =
    | Registered(clientId: HexId)
    | Clients(list: seq<ClientEntry<HexId>>)
    | PublicKey(clientId: HexId, publicKey: Bytes)
    | Sent(clientId: HexId, messageId: nat)
    | Messages(messages: seq<Record<HexId>>)
    | ServerError

  // ---------- The reader as a function of the frames that arrive ----------

  predicate IsBig(code: nat) {
    code == 2101 || code == 2104
  }

  /** parsePayload of the four responses that fit in one frame. */
  function DecodeSmall(code: nat, size: nat, f: Frame): Result<Decoded, ResponseError>
    requires !IsBig(code)
  {
    if code == 2100 then
      if size == 16 then Success(Registered(Hex(f[7..23]))) else Failure(InvalidPayloadSize)
    else if code == 2102 then
      if size == 176 then Success(PublicKey(Hex(f[7..23]), f[23..183])) else Failure(InvalidPayloadSize)
    else if code == 2103 then
      if size == 20 then Success(Sent(Hex(f[7..23]), FromLE(f[23..27]))) else Failure(InvalidPayloadSize)
    else if code == 9000 then
      if size == 0 then Success(ServerError) else Failure(InvalidPayloadSize)
    else Failure(InvalidResponseCode)
  }

  /** parseDataList on the whole payload. */
  function DecodeBig(code: nat, payload: Bytes): Result<Decoded, ResponseError>
    requires IsBig(code) && (code == 2101 ==> |payload| % 271 == 0)
  {
    if code == 2101 then Success(Clients(ParseClients(payload)))
    else
      match ParseRecords(payload)
      case None => Failure(InvalidPayloadSize)
      case Some(rs) => Success(Messages(HexRecords(rs)))
  }

  function Counted(d: Result<Decoded, ResponseError>, frames: nat): Result<(Decoded, nat), ResponseError> {
    if d.Success? then Success((d.value, frames)) else Failure(d.error)
  }

  /** The decoded response and the number of frames read from the connection, or why the client gives up. */
  function DecodeFrames(frames: seq<Frame>): Result<(Decoded, nat), ResponseError> {
    if frames == [] then Failure(EndOfFile)
    else
      var code, size := FromLE(frames[0][1..3]), FromLE(frames[0][3..7]);
      if !IsBig(code) then
        Counted(DecodeSmall(code, size, frames[0]), 1)
      else if code == 2101 && size % 271 != 0 then Failure(InvalidPayloadSize)
      else if NumFrames(7 + size) > |frames| then Failure(EndOfFile)
      else Counted(DecodeBig(code, Flatten(frames)[7..7 + size]), NumFrames(7 + size))
  }

  // ---------- The reader as the program runs it ----------

  /** Sums up shifted bytes in 32-bit arithmetic; no carry is lost for up to four bytes. */
  method GetNumFromBuffer(buffer: array<Byte>, offset: nat, numOfBytes: nat) returns (num: uint32)
    requires offset + numOfBytes <= buffer.Length && numOfBytes <= 4
    ensures num as nat == FromLE(buffer[offset..offset + numOfBytes])
  {
    num := 0;
    for i := 0 to numOfBytes
      invariant num as nat == FromLE(buffer[offset..offset + i])
    {
      FromLESnoc(buffer[offset..offset + i], buffer[offset + i]);
      assert buffer[offset..offset + i + 1] == buffer[offset..offset + i] + [buffer[offset + i]];
      LEofFromLE(buffer[offset..offset + i + 1]);
      Pow256Values();
      var shifted: uint32 := (buffer[offset + i] * Pow256(i)) as uint32;
      num := num + shifted;
    }
  }

  /** A byte as std::hex prints it: one digit below sixteen, two otherwise. */
  function PrintHex(b: Byte): string {
    if b < 16 then [HexDigit(b)] else [HexDigit(b / 16), HexDigit(b % 16)]
  }

  method GetClientIdFromBuffer(buffer: array<Byte>, offset: nat) returns (clientId: HexId)
    requires offset + 16 <= buffer.Length
    ensures clientId == Hex(buffer[offset..offset + 16])
  {
    var text := "";
    ghost var id := buffer[offset..offset + 16];
    for i := 0 to 16
      invariant text == HexText(id)[..2 * i]
    {
      HexAt(id, i);
      assert id[i] == buffer[offset + i];
      if buffer[offset + i] > 0xF {
        text := text + PrintHex(buffer[offset + i]);
      } else {
        text := text + "0" + PrintHex(buffer[offset + i]);
      }
    }
    HexIsHex(id);
    clientId := text;
  }

  /** The loop body of PullMessagesSuccessResponse::parseDataList: offsets are 32-bit numbers, and no sum or difference of them wraps. */
  method ParseMessage(payload: array<Byte>, payloadSize: uint32, offset: uint32) returns (r: Option<Record<HexId>>, currentOffset: uint32)
    requires payload.Length == payloadSize as int && offset < payloadSize
    ensures match ParseRecord(payload[offset..]) {
        case None => r == None
        case Some((record, n)) => r == Some(HexRecord(record)) && currentOffset as int == offset as int + n
      }
  {
    currentOffset := offset;
    if payloadSize - currentOffset < 25 {
      return None, currentOffset;
    }
    var clientId := GetClientIdFromBuffer(payload, currentOffset as int);
    currentOffset := currentOffset + 16;
    var messageId := GetNumFromBuffer(payload, currentOffset as int, 4);
    currentOffset := currentOffset + 4;
    var messageType := payload[currentOffset];
    currentOffset := currentOffset + 1;
    var messageSize := GetNumFromBuffer(payload, currentOffset as int, 4);
    currentOffset := currentOffset + 4;
    ghost var rest := payload[..][offset..];
    assert rest == payload[offset..];
    SliceOfTail(payload[..], offset as int, 0, 16);
    SliceOfTail(payload[..], offset as int, 16, 20);
    SliceOfTail(payload[..], offset as int, 21, 25);
    assert rest[..16] == rest[0..16] && rest[20] == messageType;
    if payloadSize - currentOffset < messageSize {
      return None, currentOffset;
    }
    var content := payload[currentOffset..currentOffset + messageSize];
    SliceOfTail(payload[..], offset as int, 25, 25 + messageSize as int);
    currentOffset := currentOffset + messageSize;
    r := Some(Record(clientId, messageId as nat, messageType, content));
  }

  /** PullMessagesSuccessResponse::parseDataList */
  method ParseMessageList(payload: array<Byte>, payloadSize: uint32) returns (list: Option<seq<Record<HexId>>>)
    requires payload.Length == payloadSize as int
    ensures list.Some? <==> ParseRecords(payload[..]).Some?
    ensures list.Some? ==> list.value == HexRecords(ParseRecords(payload[..]).value)
  {
    var records := [];
    var currentOffset: uint32 := 0;
    ghost var parsed: seq<Record<Uuid>> := [];
    ghost var all := ParseRecords(payload[..]);
    assert payload[0..] == payload[..];
    assert all.Some? ==> [] + all.value == all.value;
    while currentOffset < payloadSize
      invariant currentOffset <= payloadSize
      invariant records == HexRecords(parsed)
      invariant var tail := ParseRecords(payload[currentOffset..]);
        all == match tail { case None => None case Some(rs) => Some(parsed + rs) }
    {
      ghost var rest := payload[currentOffset..];
      var record, next := ParseMessage(payload, payloadSize, currentOffset);
      if record.None? {
        return None;
      }
      ghost var (r, n) := ParseRecord(rest).value;
      assert payload[next..] == rest[n..];
      ghost var tail := ParseRecords(rest[n..]);
      if tail.Some? {
        assert parsed + ([r] + tail.value) == (parsed + [r]) + tail.value;
      }
      currentOffset := next;
      records := records + [record.value];
      parsed := parsed + [r];
    }
    assert payload[currentOffset..] == [];
    assert parsed + [] == parsed;
    list := Some(records);
  }

  lemma SliceOfTail(p: Bytes, start: nat, lo: nat, hi: nat)
    requires lo <= hi && start + hi <= |p|
    ensures p[start..][lo..hi] == p[start + lo..start + hi]
  {
  }

  /** ListClientsSuccessResponse::parseDataList */
  method ParseClientList(payload: array<Byte>, numOfClients: nat) returns (list: seq<ClientEntry<HexId>>)
    requires payload.Length == 271 * numOfClients
    ensures list == ParseClients(payload[..])
  {
    list := [];
    for i := 0 to numOfClients
      invariant list == ParseClients(payload[..])[..i]
    {
      var offset := 271 * i;
      var clientId := GetClientIdFromBuffer(payload, offset);
      var clientName := CString(payload[offset + 16..offset + 271]);
      assert payload[..][offset..offset + 271][..16] == payload[offset..offset + 16];
      assert payload[..][offset..offset + 271][16..] == payload[offset + 16..offset + 271];
      list := list + [ClientEntry(clientId, clientName)];
    }
  }

  lemma DecodeEmpty(code: nat)
    requires IsBig(code)
    ensures DecodeBig(code, []) == Success(if code == 2101 then Clients([]) else Messages([]))
  {
    assert ParseClients([]) == [];
    assert HexRecords([]) == [];
  }

  /** A finished parse reports what the specification computes. */
  predicate Delivers(status: Result<ParseStatus, ResponseError>, decoded: Option<Decoded>, spec: Result<Decoded, ResponseError>) {
    if spec.Success? then status == Success(DONE) && decoded == Some(spec.value) else status == Failure(spec.error)
  }

  /** How many bytes of a p-byte payload lie in the first k frames, behind the 7-byte header. */
  function Copied(p: nat, k: nat): nat {
    if k == 0 then 0 else Min(p, 1024 * k - 7)
  }

  /** The bytes of a p-byte payload that the frames hold. */
  function PayloadIn(frames: seq<Frame>, p: nat): Bytes {
    if frames == [] then [] else Flatten(frames)[7..7 + Copied(p, |frames|)]
  }

  /** BigResponse and its two subclasses, told apart by the response code. */
  class BigResponse {
    const code: nat
    const payloadSize: uint32
    const payload: array<Byte>
    var payloadCopiedSize: uint32
    var decoded: Option<Decoded>
    ghost var framesRead: seq<Frame>

    /** The part copied so far is the matching part of the payload in the frames read so far. */
    ghost predicate Valid()
      reads this, payload
    {
      && IsBig(code) && (code == 2101 ==> payloadSize as int % 271 == 0)
      && payload.Length == payloadSize as int
      && payloadCopiedSize as int == Copied(payloadSize as int, |framesRead|)
      && payload[..payloadCopiedSize] == PayloadIn(framesRead, payloadSize as int)
    }

    constructor (code: nat, payloadSize: uint32)
      requires IsBig(code) && (code == 2101 ==> payloadSize as int % 271 == 0)
      ensures Valid() && fresh(payload) && framesRead == [] && this.code == code && this.payloadSize == payloadSize
    {
      this.code := code;
      this.payloadSize := payloadSize;
      payload := new Byte[payloadSize];
      payloadCopiedSize := 0;
      decoded := None;
      framesRead := [];
    }

    /** Copies 1017 payload bytes from the first frame and 1024 from each later one; parses the list once all are there. */
    method ParsePayload(buffer: array<Byte>) returns (status: Result<ParseStatus, ResponseError>)
      requires Valid() && buffer.Length == 1024 && buffer != payload
      requires framesRead == [] || |framesRead| < NumFrames(7 + payloadSize as int)
      modifies this, payload
      ensures framesRead == old(framesRead) + [buffer[..]]
      ensures |framesRead| < NumFrames(7 + payloadSize as int) ==> status == Success(UNDONE) && Valid()
      ensures |framesRead| == NumFrames(7 + payloadSize as int) ==>
        payload[..] == Flatten(framesRead)[7..7 + payloadSize as int] && Delivers(status, decoded, DecodeBig(code, payload[..]))
    {
      hide DecodeBig, Flatten, FromLE;
      ghost var was := framesRead;
      framesRead := framesRead + [buffer[..]];
      if payloadSize == 0 {
        decoded := Some(if code == 2101 then Clients([]) else Messages([]));
        DecodeEmpty(code);
        assert payload[..] == [];
        return Success(DONE);
      }
      var bufferStartIndex: uint32 := if payloadCopiedSize != 0 then 0 else 7;
      var numOfBytesToCopy: uint32;
      CopyStep(was, buffer[..], payloadSize as int);
      if payloadSize - payloadCopiedSize > 1024 - bufferStartIndex {
        numOfBytesToCopy := 1024 - bufferStartIndex;
      } else {
        numOfBytesToCopy := payloadSize - payloadCopiedSize;
      }
      CopyIntoPayload(buffer, bufferStartIndex, numOfBytesToCopy);
      if payloadCopiedSize != payloadSize {
        return Success(UNDONE);
      }
      assert payload[..] == payload[..payloadCopiedSize];
      status := ParseDataList();
    }

    method CopyIntoPayload(buffer: array<Byte>, start: uint32, count: uint32)
      requires buffer.Length == 1024 && buffer != payload && start as int + count as int <= 1024
      requires payload.Length == payloadSize as int && payloadCopiedSize as int + count as int <= payloadSize as int
      modifies `payloadCopiedSize, payload
      ensures payloadCopiedSize == old(payloadCopiedSize) + count
      ensures payload[..payloadCopiedSize] == old(payload[..payloadCopiedSize]) + buffer[start..start + count]
    {
      forall i | 0 <= i < count as int {
        payload[payloadCopiedSize as int + i] := buffer[start as int + i];
      }
      payloadCopiedSize := payloadCopiedSize + count;
    }

    method ParseDataList() returns (status: Result<ParseStatus, ResponseError>)
      requires IsBig(code) && (code == 2101 ==> payloadSize as int % 271 == 0)
      requires payload.Length == payloadSize as int
      modifies `decoded
      ensures Delivers(status, decoded, DecodeBig(code, payload[..]))
    {
      if code == 2101 {
        var list := ParseClientList(payload, payload.Length / 271);
        decoded := Some(Clients(list));
        return Success(DONE);
      }
      var list := ParseMessageList(payload, payloadSize);
      match list
      case None =>
        return Failure(InvalidPayloadSize);
      case Some(records) =>
        decoded := Some(Messages(records));
        return Success(DONE);
    }
  }

  /** The reader's arithmetic: what one more frame adds, and that the payload is complete exactly with the last frame. */
  lemma CopyStep(frames: seq<Frame>, f: Frame, p: nat)
    requires p > 0 && |frames| < NumFrames(7 + p)
    ensures var c, c' := Copied(p, |frames|), Copied(p, |frames| + 1);
      var start := if c != 0 then 0 else 7;
      && c' == c + Min(p - c, 1024 - start)
      && (c' == p <==> |frames| + 1 == NumFrames(7 + p))
      && PayloadIn(frames + [f], p) == PayloadIn(frames, p) + f[start..start + (c' - c)]
  {
    assert (frames + [f])[..|frames|] == frames;
    var c, c' := Copied(p, |frames|), Copied(p, |frames| + 1);
    if frames == [] {
      assert Flatten([f]) == f;
    } else {
      assert c == 1024 * |frames| - 7;
      assert (Flatten(frames) + f)[7..7 + c'] == Flatten(frames)[7..7 + c] + f[..c' - c];
    }
  }

  /** The read loop of TCPNetworkClientManager::HandleRequest over the frames that arrive before the connection ends. */
  method ReadResponse(frames: seq<Frame>) returns (r: Result<(Decoded, nat), ResponseError>)
    ensures r == DecodeFrames(frames)
  {
    if |frames| == 0 {
      return Failure(EndOfFile);
    }
    var data := new Byte[1024];
    ReadFrame(frames[0], data);
    var code := GetNumFromBuffer(data, 1, 2);
    var size := GetNumFromBuffer(data, 3, 4);
    assert data[1..3] == frames[0][1..3] && data[3..7] == frames[0][3..7];
    if code != 2101 && code != 2104 {
      return Counted(DecodeSmall(code as nat, size as nat, data[..]), 1);
    }
    if code == 2101 && size % 271 != 0 {
      return Failure(InvalidPayloadSize);
    }
    r := ReadBigResponse(frames, code as nat, size, data);
  }

  lemma PayloadOfPrefix(frames: seq<Frame>, k: nat, size: nat)
    requires k <= |frames| && 7 + size <= 1024 * k
    ensures Flatten(frames[..k])[7..7 + size] == Flatten(frames)[7..7 + size]
  {
    FlattenPrefix(frames, k);
    hide Flatten;
    SliceOfTake(Flatten(frames), 1024 * k, 7, 7 + size);
  }

  lemma SliceOfTake(s: Bytes, n: nat, lo: nat, hi: nat)
    requires lo <= hi <= n <= |s|
    ensures s[..n][lo..hi] == s[lo..hi]
  {
  }

  method ReadBigResponse(frames: seq<Frame>, code: nat, size: uint32, data: array<Byte>) returns (r: Result<(Decoded, nat), ResponseError>)
    requires |frames| > 0 && data.Length == 1024 && data[..] == frames[0]
    requires IsBig(code) && (code == 2101 ==> size as int % 271 == 0)
    modifies data
    ensures NumFrames(7 + size as int) > |frames| ==> r == Failure(EndOfFile)
    ensures NumFrames(7 + size as int) <= |frames| ==>
      r == Counted(DecodeBig(code, Flatten(frames)[7..7 + size as int]), NumFrames(7 + size as int))
  {
    var response := new BigResponse(code, size);
    var status, consumed := ReadPayload(frames, response, data);
    if status == Success(UNDONE) {
      return Failure(EndOfFile);
    }
    PayloadOfPrefix(frames, consumed, size as nat);
    if status.Failure? {
      return Failure(status.error);
    }
    r := Success((response.decoded.value, consumed));
  }

  /** Feeds frames to the response until it is complete or the connection ends. */
  method ReadPayload(frames: seq<Frame>, response: BigResponse, data: array<Byte>) returns (status: Result<ParseStatus, ResponseError>, consumed: nat)
    requires response.Valid() && response.framesRead == [] && response.payload != data
    requires |frames| > 0 && data.Length == 1024 && data[..] == frames[0]
    modifies response, response.payload, data
    ensures consumed == Min(|frames|, NumFrames(7 + response.payloadSize as int))
    ensures consumed < NumFrames(7 + response.payloadSize as int) ==> status == Success(UNDONE)
    ensures consumed == NumFrames(7 + response.payloadSize as int) ==>
      response.payload[..] == Flatten(frames[..consumed])[7..7 + response.payloadSize as int] && Delivers(status, response.decoded, DecodeBig(response.code, response.payload[..]))
  {
    hide DecodeBig, Flatten;
    ghost var total := NumFrames(7 + response.payloadSize as int);
    status := response.ParsePayload(data);
    consumed := 1;
    assert response.framesRead == frames[..1];
    while status == Success(UNDONE) && consumed < |frames|
      invariant 1 <= consumed <= |frames| && consumed <= total
      invariant response.framesRead == frames[..consumed]
      invariant consumed < total ==> status == Success(UNDONE) && response.Valid()
      invariant consumed == total ==>
        response.payload[..] == Flatten(response.framesRead)[7..7 + response.payloadSize as int] && Delivers(status, response.decoded, DecodeBig(response.code, response.payload[..]))
    {
      ReadFrame(frames[consumed], data);
      status := response.ParsePayload(data);
      assert frames[..consumed + 1] == frames[..consumed] + [frames[consumed]];
      consumed := consumed + 1;
    }
  }

  method ReadFrame(frame: Frame, data: array<Byte>)
    requires data.Length == 1024
    modifies data
    ensures data[..] == frame
  {
    forall i | 0 <= i < 1024 {
      data[i] := frame[i];
    }
  }
}
