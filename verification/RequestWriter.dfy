/** client/ServerRequest.cpp and the write loop of client/TCPNetworkClientManager.cpp. */
module RequestWriter {
  import opened Bytes
  import opened Framing
  import opened Protocol

  lemma OverlayAppend(b: Bytes, off: nat, x: Bytes, y: Bytes)
    requires off + |x| + |y| <= |b|
    ensures Overlay(Overlay(b, off, x), off + |x|, y) == Overlay(b, off, x + y)
  {
  }

  lemma OverlayZeros(n: nat, x: Bytes)
    requires |x| <= n
    ensures Overlay(Zeros(n), 0, x) == x + Zeros(n - |x|)
  {
  }

  /** Bytes that a writer skips in a cleared buffer stay zero. */
  lemma OverlayGap(x: Bytes, gap: nat, y: Bytes)
    requires |x| + gap + |y| <= 1024
    ensures Overlay(Overlay(Zeros(1024), 0, x), |x| + gap, y) == Overlay(Zeros(1024), 0, x + Zeros(gap) + y)
  {
  }

  lemma OverlayPiece(before: Bytes, piece: Bytes)
    requires |before| + |piece| <= 1024
    ensures Overlay(Overlay(Zeros(1024), 0, before), |before|, piece) == before + piece + Zeros(1024 - |before| - |piece|)
  {
    OverlayAppend(Zeros(1024), 0, before, piece);
    OverlayZeros(1024, before + piece);
  }

  /** Frame k of a content, written behind the fields or from the start of the cleared buffer. */
  lemma FramePiece(fields: Bytes, content: Bytes, k: nat)
    requires |fields| == 44 && k < NumFrames(44 + |content|)
    ensures var i, j := Cursor(|content|, k), Cursor(|content|, k + 1);
      var before := if k == 0 then fields else [];
      && i <= j <= |content| && |before| + j - i <= 1024
      && Overlay(Overlay(Zeros(1024), 0, before), |before|, content[i..j]) == FrameAt(fields + content, k)
  {
    CursorStep(|content|, k);
    ContentFrame(fields, content, k);
    hide FrameAt, Zeros, Overlay;
    var i, j := Cursor(|content|, k), Cursor(|content|, k + 1);
    OverlayPiece(if k == 0 then fields else [], content[i..j]);
  }

  lemma NothingOver()
    ensures Zeros(1024) == Overlay(Zeros(1024), 0, [])
  {
    OverlayZeros(1024, []);
  }

  lemma FieldsBuffer(header: Bytes, id: Bytes, messageType: Bytes, size: Bytes)
    requires |header| == 23 && |id| == 16 && |messageType| == 1 && |size| == 4
    ensures Overlay(Overlay(Overlay(Overlay(Zeros(1024), 0, header), 23, id), 39, messageType), 40, size)
         == Overlay(Zeros(1024), 0, header + id + messageType + size)
  {
    hide Overlay, Zeros;
    OverlayAppend(Zeros(1024), 0, header, id);
    OverlayAppend(Zeros(1024), 0, header + id, messageType);
    OverlayAppend(Zeros(1024), 0, header + id + messageType, size);
  }

  lemma SendStream(e: Envelope<Uuid>)
    requires Writable(e.request) && e.request.SendMessage?
    ensures var SendMessage(dest, messageType, content) := e.request;
      var header := RequestHeader(e.clientId, e.version, RequestCode(e.request), RequestPayloadSize(e.request));
      |header| == 23 && RequestStream(e) == header + dest + LE(messageType, 1) + LE(|content|, 4) + content
  {
    hide RequestHeader, LE;
    var SendMessage(dest, messageType, content) := e.request;
    var header := RequestHeader(e.clientId, e.version, RequestCode(e.request), RequestPayloadSize(e.request));
    assert header + (dest + LE(messageType, 1) + LE(|content|, 4) + content) == header + dest + LE(messageType, 1) + LE(|content|, 4) + content;
  }

  lemma RegisterBuffer(header: Bytes, name: Bytes, key: Bytes)
    requires |header| == 23 && |name| <= 255 && |key| == 160
    ensures var s := header + name + Zeros(255 - |name|) + key;
      Overlay(Overlay(Overlay(Zeros(1024), 0, header), 23, name), 278, key) == s + Zeros(1024 - |s|)
  {
    hide Overlay, Zeros;
    OverlayAppend(Zeros(1024), 0, header, name);
    OverlayGap(header + name, 255 - |name|, key);
    OverlayZeros(1024, header + name + Zeros(255 - |name|) + key);
  }

  /** The streams of the requests that fit in one frame. */
  lemma SmallStream(e: Envelope<Uuid>)
    requires Writable(e.request) && !e.request.SendMessage?
    ensures var header := RequestHeader(e.clientId, e.version, RequestCode(e.request), RequestPayloadSize(e.request));
      && |header| == 23 && |RequestStream(e)| <= 1024
      && RequestStream(e) ==
        match e.request
        case Register(name, key) => header + name + Zeros(255 - |name|) + key
        case GetPublicKey(dest) => header + dest
        case _ => header
  {
    hide RequestHeader;
    var header := RequestHeader(e.clientId, e.version, RequestCode(e.request), RequestPayloadSize(e.request));
    assert header + [] == header;
    if e.request.Register? {
      var name, key := e.request.userName, e.request.publicKey;
      assert header + (name + Zeros(255 - |name|) + key) == header + name + Zeros(255 - |name|) + key;
    }
  }

  /** Writes the low `numOfBytes` bytes of `num` at `offset`, one shift and mask at a time. */
  method ParseNumIntoBuffer(buffer: array<Byte>, offset: nat, num: uint32, numOfBytes: nat)
    requires offset + numOfBytes <= buffer.Length && numOfBytes <= 4
    modifies buffer
    ensures buffer[..] == Overlay(old(buffer[..]), offset, LE(num as nat, numOfBytes))
  {
    for i := 0 to numOfBytes
      invariant forall j :: 0 <= j < buffer.Length && !(offset <= j < offset + i) ==> buffer[j] == old(buffer[j])
      invariant forall j :: offset <= j < offset + i ==> buffer[j] == LE(num as nat, numOfBytes)[j - offset]
    {
      LEIndex(num as nat, numOfBytes, i);
      buffer[offset + i] := num as nat / Pow256(i) % 256;
    }
  }

  /** Writes the sixteen bytes that the 32 hex digits of an id stand for. */
  method ParseClientId(offset: nat, clientId: HexId, buffer: array<Byte>)
    requires offset + 16 <= buffer.Length
    modifies buffer
    ensures buffer[..] == Overlay(old(buffer[..]), offset, UnHex(clientId))
  {
    for i := 0 to 16
      invariant forall j :: 0 <= j < buffer.Length && !(offset <= j < offset + i) ==> buffer[j] == old(buffer[j])
      invariant forall j :: offset <= j < offset + i ==> buffer[j] == UnHex(clientId)[j - offset]
    {
      var num := clientId[2 * i..2 * i + 2];
      buffer[offset + i] := 16 * DigitValue(num[0]) + DigitValue(num[1]);
    }
  }

  method Copy(source: Bytes, buffer: array<Byte>, offset: nat)
    requires offset + |source| <= buffer.Length
    modifies buffer
    ensures buffer[..] == Overlay(old(buffer[..]), offset, source)
  {
    forall i | 0 <= i < |source| {
      buffer[offset + i] := source[i];
    }
  }

  /** TCPNetworkClientManager::clear */
  method Clear(buffer: array<Byte>)
    requires buffer.Length == 1024
    modifies buffer
    ensures buffer[..] == Zeros(1024)
  {
    for i := 0 to 1024
      invariant forall j :: 0 <= j < i ==> buffer[j] == 0
    {
      buffer[i] := 0;
    }
  }

  /** The five request classes of the client; only SendMessageServerRequest keeps a cursor. */
  class ServerRequest {
    const envelope: Envelope<HexId>
    var sentMessageContentPayload: uint32
    ghost var framesWritten: nat

    ghost predicate Valid()
      reads this
    {
      && Writable(envelope.request)
      && framesWritten <= |RequestFrames(envelope)|
      && (envelope.request.SendMessage? ==>
            var n := |envelope.request.content|;
            sentMessageContentPayload as int == Cursor(n, framesWritten))
    }

    constructor (envelope: Envelope<HexId>)
      requires Writable(envelope.request)
      ensures Valid() && this.envelope == envelope && framesWritten == 0
    {
      this.envelope := envelope;
      sentMessageContentPayload := 0;
      framesWritten := 0;
    }

    method ParseHeaderIntoBuffer(buffer: array<Byte>)
      requires buffer.Length == 1024 && Writable(envelope.request)
      modifies buffer
      ensures var e := envelope;
        buffer[..] == Overlay(old(buffer[..]), 0, RequestHeader(UnHex(e.clientId), e.version, RequestCode(e.request), RequestPayloadSize(e.request)))
    {
      ghost var b := buffer[..];
      ghost var id := UnHex(envelope.clientId);
      ghost var v := LE(envelope.version, 1);
      ghost var c := LE(RequestCode(envelope.request), 2);
      ParseClientId(0, envelope.clientId, buffer);
      ParseNumIntoBuffer(buffer, 16, envelope.version as uint32, 1);
      OverlayAppend(b, 0, id, v);
      ParseNumIntoBuffer(buffer, 17, RequestCode(envelope.request) as uint32, 2);
      OverlayAppend(b, 0, id + v, c);
      ParseNumIntoBuffer(buffer, 19, RequestPayloadSize(envelope.request) as uint32, 4);
      OverlayAppend(b, 0, id + v + c, LE(RequestPayloadSize(envelope.request), 4));
    }

    /** Each call fills the cleared buffer with the next frame of the request's stream, and says DONE on the last one. */
    method PrepareRequestBuffer(buffer: array<Byte>) returns (status: ParseStatus)
      requires Valid() && framesWritten < |RequestFrames(envelope)|
      requires buffer.Length == 1024 && buffer[..] == Zeros(1024)
      modifies this, buffer
      ensures Valid() && framesWritten == old(framesWritten) + 1
      ensures buffer[..] == RequestFrames(envelope)[old(framesWritten)]
      ensures status == DONE <==> framesWritten == |RequestFrames(envelope)|
    {
      if envelope.request.SendMessage? {
        status := PrepareSendMessage(buffer);
        return;
      }
      ParseHeaderIntoBuffer(buffer);
      PrepareSmallPayload(buffer);
      SingleFrame(RequestStream(UnHexEnvelope(envelope)));
      status := DONE;
      framesWritten := framesWritten + 1;
    }

    /** The payload behind the header, for the requests that fit in one frame. */
    method PrepareSmallPayload(buffer: array<Byte>)
      requires Writable(envelope.request) && !envelope.request.SendMessage?
      requires buffer.Length == 1024
      requires var e := UnHexEnvelope(envelope);
        buffer[..] == Overlay(Zeros(1024), 0, RequestHeader(e.clientId, e.version, RequestCode(e.request), RequestPayloadSize(e.request)))
      modifies buffer
      ensures var s := RequestStream(UnHexEnvelope(envelope));
        |s| <= 1024 && buffer[..] == s + Zeros(1024 - |s|)
    {
      ghost var e := UnHexEnvelope(envelope);
      ghost var header := RequestHeader(e.clientId, e.version, RequestCode(e.request), RequestPayloadSize(e.request));
      ghost var s := RequestStream(e);
      SmallStream(e);
      hide RequestHeader, UnHex, LE, Overlay, RequestStream, RequestPayload;
      match envelope.request
      case Register(name, key) =>
        Copy(name, buffer, 23);
        Copy(key, buffer, 278);
        RegisterBuffer(header, name, key);
      case GetPublicKey(dest) =>
        ParseClientId(23, dest, buffer);
        OverlayAppend(Zeros(1024), 0, header, UnHex(dest));
        OverlayZeros(1024, s);
      case ListClients =>
        OverlayZeros(1024, s);
      case PullMessages =>
        OverlayZeros(1024, s);
    }

    method PrepareSendMessage(buffer: array<Byte>) returns (status: ParseStatus)
      requires Valid() && framesWritten < |RequestFrames(envelope)| && envelope.request.SendMessage?
      requires buffer.Length == 1024 && buffer[..] == Zeros(1024)
      modifies this, buffer
      ensures Valid() && framesWritten == old(framesWritten) + 1
      ensures buffer[..] == RequestFrames(envelope)[old(framesWritten)]
      ensures status == DONE <==> framesWritten == |RequestFrames(envelope)|
    {
      var SendMessage(dest, messageType, content) := envelope.request;
      ghost var e := UnHexEnvelope(envelope);
      ghost var header := RequestHeader(e.clientId, e.version, RequestCode(e.request), RequestPayloadSize(e.request));
      ghost var fields := header + UnHex(dest) + LE(messageType, 1) + LE(|content|, 4);
      ghost var k := framesWritten;
      SendStream(e);
      hide RequestHeader, UnHex, LE, FrameAt, Overlay, Zeros, RequestStream, RequestPayload;
      CursorStep(|content|, k);
      if sentMessageContentPayload > 0 {
        NothingOver();
        status := ParseMessageContentIntoBuffer(buffer, fields, k);
      } else {
        ParseHeaderIntoBuffer(buffer);
        ParseClientId(23, dest, buffer);
        ParseNumIntoBuffer(buffer, 39, messageType as uint32, 1);
        ParseNumIntoBuffer(buffer, 40, |content| as uint32, 4);
        FieldsBuffer(header, UnHex(dest), LE(messageType, 1), LE(|content|, 4));
        status := ParseMessageContentIntoBuffer(buffer, fields, k);
      }
      framesWritten := framesWritten + 1;
    }

    /** Fills the buffer behind the `before` already written there with the content from the cursor on, as far as it fits. */
    method ParseMessageContentIntoBuffer(buffer: array<Byte>, ghost fields: Bytes, ghost k: nat) returns (status: ParseStatus)
      requires envelope.request.SendMessage? && |envelope.request.content| < 0x1_0000_0000
      requires |fields| == 44 && k < NumFrames(44 + |envelope.request.content|)
      requires sentMessageContentPayload as int == Cursor(|envelope.request.content|, k)
      requires buffer.Length == 1024
      requires buffer[..] == Overlay(Zeros(1024), 0, if k == 0 then fields else [])
      modifies `sentMessageContentPayload, buffer
      ensures sentMessageContentPayload as int == Cursor(|envelope.request.content|, k + 1)
      ensures buffer[..] == FrameAt(fields + envelope.request.content, k)
      ensures status == DONE <==> k + 1 == NumFrames(44 + |envelope.request.content|)
    {
      var content := envelope.request.content;
      var sent := sentMessageContentPayload as int;
      CursorStep(|content|, k);
      var bufferStartIndex := if sent != 0 then 0 else 44;
      var numOfBytesToWrite;
      if |content| - sent > 1024 - bufferStartIndex {
        status := UNDONE;
        numOfBytesToWrite := 1024 - bufferStartIndex;
      } else {
        status := DONE;
        numOfBytesToWrite := |content| - sent;
      }
      FramePiece(fields, content, k);
      hide FrameAt, Zeros, Overlay, NumFrames, Cursor;
      Copy(content[sent..sent + numOfBytesToWrite], buffer, bufferStartIndex);
      sentMessageContentPayload := sentMessageContentPayload + numOfBytesToWrite as uint32;
    }
  }

  lemma SomeFrame(e: Envelope<HexId>)
    requires Writable(e.request)
    ensures |RequestFrames(e)| > 0
  {
    hide RequestHeader, RequestPayload;
  }

  lemma NextFrame(frames: seq<Frame>, k: nat)
    requires k < |frames|
    ensures frames[..k + 1] == frames[..k] + [frames[k]]
  {
  }

  /** The write loop of TCPNetworkClientManager::HandleRequest: one reused buffer, cleared after every frame. */
  method WriteRequest(request: ServerRequest) returns (frames: seq<Frame>)
    requires request.Valid() && request.framesWritten == 0
    modifies request
    ensures frames == RequestFrames(request.envelope)
  {
    SomeFrame(request.envelope);
    hide RequestFrames, Writable, Zeros, Cursor;
    frames := [];
    var data := new Byte[1024];
    Clear(data);
    var parseStatus := UNDONE;
    while parseStatus == UNDONE
      invariant request.Valid() && fresh(data) && data.Length == 1024
      invariant data[..] == Zeros(1024)
      invariant request.framesWritten == |frames| <= |RequestFrames(request.envelope)|
      invariant frames == RequestFrames(request.envelope)[..|frames|]
      invariant parseStatus == DONE <==> |frames| == |RequestFrames(request.envelope)|
      decreases |RequestFrames(request.envelope)| - |frames|
    {
      parseStatus := request.PrepareRequestBuffer(data);
      NextFrame(RequestFrames(request.envelope), |frames|);
      frames := frames + [data[..]];
      Clear(data);
    }
  }
}
