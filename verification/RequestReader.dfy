/** server/request_parser.py, server/request.py and the receive loop of server/message_u_server.py. */
module RequestReader {
  import opened Wrappers
  import opened Bytes
  import opened Framing
  import opened Protocol

  datatype RequestError = NoData | StructError | InvalidRequestType | InvalidPayloadSize

  // ---------- Python's sequence operations ----------

  /** b[lo:hi], bounds clipped as Python clips them. */
  function Slice(b: Bytes, lo: nat, hi: nat): Bytes {
    if lo < hi && lo < |b| then b[lo..Min(hi, |b|)] else []
  }

  /** The bytearray after b[lo:hi] = x: it grows or shrinks when x is not hi - lo bytes long. */
  function SliceAssign(b: Bytes, lo: nat, hi: nat, x: Bytes): Bytes
    requires lo <= hi
  {
    b[..Min(lo, |b|)] + x + b[Min(hi, |b|)..]
  }

  /** bytes.rstrip("\x00") */
  function RStrip(s: Bytes): (r: Bytes)
    ensures |r| <= |s|
  {
    if s != [] && s[|s| - 1] == 0 then RStrip(s[..|s| - 1]) else s
  }

  // ---------- Headers and single-frame requests ----------

  datatype Header = Header(clientId: Uuid, version: Byte, code: nat, payloadSize: nat)

  /** RequestParserFactory.get_request_parser: the parser object is its header. */
  function GetRequestParser(chunk: Bytes): Result<Header, RequestError> {
    if chunk == [] then Failure(NoData)
    else if |chunk| < 23 then Failure(StructError)
    else
      var code := FromLE(chunk[17..19]);
      if 1100 <= code <= 1104 then Success(Header(chunk[..16], chunk[16], code, FromLE(chunk[19..23])))
      else Failure(InvalidRequestType)
  }

  /** parse_request of the four parsers whose requests fit in one frame. */
  function ParseSingleFrame(h: Header, chunk: Bytes): Result<Request<Uuid>, RequestError>
    requires h.code != 1103
  {
    if h.code == 1100 then
      if h.payloadSize != 415 then Failure(InvalidPayloadSize)
      else if |chunk| < 438 then Failure(StructError)
      else Success(Register(RStrip(chunk[23..278]), chunk[278..438]))
    else if h.code == 1101 then
      if h.payloadSize != 0 then Failure(InvalidPayloadSize) else Success(ListClients)
    else if h.code == 1102 then
      if h.payloadSize != 16 then Failure(InvalidPayloadSize)
      else if |chunk| < 39 then Failure(StructError)
      else Success(GetPublicKey(chunk[23..39]))
    else
      if h.payloadSize != 0 then Failure(InvalidPayloadSize) else Success(PullMessages)
  }

  // ---------- Send-message requests ----------

  /** The mutable part of a SendMessageRequest: its bytearray and its cursor. */
  datatype Content = Content(size: nat, payload: Bytes, index: nat)

  function FreshContent(size: nat): Content {
    Content(size, Zeros(size), 0)
  }

  function StartIndex(c: Content): nat {
    if c.index != 0 then 0 else 44
  }

  predicate IsLastStep(c: Content) {
    c.size - c.index <= 1024 - StartIndex(c)
  }

  function Absorb(c: Content, chunk: Bytes): (c': Content)
    requires c.index <= c.size
    ensures c'.size == c.size && c.index <= c'.index <= c.size
    ensures IsLastStep(c) <==> c'.index == c.size
  {
    var start := StartIndex(c);
    var n := Min(c.size - c.index, 1024 - start);
    Content(c.size, SliceAssign(c.payload, c.index, c.index + n, Slice(chunk, start, start + n)), c.index + n)
  }

  /** What recv returns i calls from now: nothing once the peer has closed the connection. */
  function ChunkAt(chunks: seq<Bytes>, i: nat): Bytes {
    if i < |chunks| then chunks[i] else []
  }

  /** The content once the cursor has reached the announced size, starting with the i-th chunk. */
  function AbsorbFrom(c: Content, chunks: seq<Bytes>, i: nat): Bytes
    requires c.index <= c.size
    decreases c.size - c.index, if IsLastStep(c) then 0 else 1
  {
    var c' := Absorb(c, ChunkAt(chunks, i));
    if IsLastStep(c) then c'.payload else AbsorbFrom(c', chunks, i + 1)
  }

  /** The request the server works on, as a function of everything recv returns. */
  function Receive(chunks: seq<Bytes>): Result<Envelope<Uuid>, RequestError> {
    var first := ChunkAt(chunks, 0);
    var h :- GetRequestParser(first);
    if h.code == 1103 then
      if |first| < 44 then Failure(StructError)
      else
        var size := FromLE(first[40..44]);
        Success(Envelope(h.clientId, h.version, SendMessage(first[23..39], first[39], AbsorbFrom(FreshContent(size), chunks, 0))))
    else
      var r :- ParseSingleFrame(h, first);
      Success(Envelope(h.clientId, h.version, r))
  }

  class SendMessageRequest {
    const clientId: Uuid
    const clientVersion: Byte
    const destClientId: Uuid
    const messageType: Byte
    const contentSize: nat
    var payload: Bytes
    var payloadIndex: nat

    ghost function View(): Content
      reads this
    {
      Content(contentSize, payload, payloadIndex)
    }

    constructor (clientId: Uuid, clientVersion: Byte, destClientId: Uuid, messageType: Byte, contentSize: nat)
      ensures View() == FreshContent(contentSize)
      ensures this.clientId == clientId && this.clientVersion == clientVersion
      ensures this.destClientId == destClientId && this.messageType == messageType && this.contentSize == contentSize
    {
      this.clientId := clientId;
      this.clientVersion := clientVersion;
      this.destClientId := destClientId;
      this.messageType := messageType;
      this.contentSize := contentSize;
      payload := Zeros(contentSize);
      payloadIndex := 0;
    }

    /** SendMessageRequestParser._parse_content */
    method ParseContent(chunk: Bytes) returns (status: ParseStatus)
      requires payloadIndex <= contentSize
      modifies this
      ensures View() == Absorb(old(View()), chunk)
      ensures status == DONE <==> payloadIndex == contentSize
    {
      var start := if payloadIndex != 0 then 0 else 44;
      var numberOfBytesToRead;
      if contentSize - payloadIndex > 1024 - start {
        status := UNDONE;
        numberOfBytesToRead := 1024 - start;
      } else {
        status := DONE;
        numberOfBytesToRead := contentSize - payloadIndex;
      }
      payload := SliceAssign(payload, payloadIndex, payloadIndex + numberOfBytesToRead, Slice(chunk, start, start + numberOfBytesToRead));
      payloadIndex := payloadIndex + numberOfBytesToRead;
    }
  }

  /** The receive loop of MessageUServer._handle_session; `chunks` is what successive recv calls return. */
  method ReceiveRequest(chunks: seq<Bytes>) returns (r: Result<Envelope<Uuid>, RequestError>)
    ensures r == Receive(chunks)
  {
    var data := ChunkAt(chunks, 0);
    var parser := GetRequestParser(data);
    if parser.Failure? {
      return Failure(parser.error);
    }
    var h := parser.value;
    if h.code != 1103 {
      var single := ParseSingleFrame(h, data);
      if single.Failure? {
        return Failure(single.error);
      }
      return Success(Envelope(h.clientId, h.version, single.value));
    }
    if |data| < 44 {
      return Failure(StructError);
    }
    var request := new SendMessageRequest(h.clientId, h.version, data[23..39], data[39], FromLE(data[40..44]));
    ghost var whole := AbsorbFrom(request.View(), chunks, 0);
    var received := 1;
    var status := request.ParseContent(data);
    while status == UNDONE
      invariant fresh(request) && request.payloadIndex <= request.contentSize
      invariant status == DONE <==> request.payloadIndex == request.contentSize
      invariant status == UNDONE ==> AbsorbFrom(request.View(), chunks, received) == whole
      invariant status == DONE ==> request.payload == whole
      decreases request.contentSize - request.payloadIndex, if status == UNDONE then 1 else 0
    {
      data := ChunkAt(chunks, received);
      received := received + 1;
      status := request.ParseContent(data);
    }
    r := Success(Envelope(request.clientId, request.clientVersion, SendMessage(request.destClientId, request.messageType, request.payload)));
  }

  // ---------- The reader inverts the client's writer ----------

  lemma {:induction false} RStripZeros(s: Bytes, n: nat)
    ensures RStrip(s + Zeros(n)) == RStrip(s)
  {
    if n == 0 {
      assert s + Zeros(0) == s;
    } else {
      assert (s + Zeros(n))[..|s| + n - 1] == s + Zeros(n - 1);
      RStripZeros(s, n - 1);
    }
  }

  /** Stripping keeps a name exactly when it does not end in a zero byte. */
  lemma RStripKeeps(s: Bytes)
    ensures RStrip(s) == s <==> s == [] || s[|s| - 1] != 0
  {
  }

  lemma LEValues(n: nat, k: nat)
    ensures k <= 4 && n < Pow256(k) ==> FromLE(LE(n, k)) == n
  {
    FromLEofLE(n, k);
  }

  /** The two size fields of a send-message request are exact up to 2^32, the header's for 21 bytes less. */
  lemma SizeFieldsExact(r: Request<Uuid>)
    requires r.SendMessage?
    ensures FromLE(LE(|r.content|, 4)) == |r.content| <==> |r.content| < 0x1_0000_0000
    ensures FromLE(LE(RequestPayloadSize(r), 4)) == 21 + |r.content| <==> 21 + |r.content| < 0x1_0000_0000
  {
    Pow256Values();
    hide FromLE, LE;
    FromLEofLE(|r.content|, 4);
    FromLEofLE(RequestPayloadSize(r), 4);
  }

  /** The first frame of a stream starts with the stream's first bytes. */
  lemma FirstFrame(s: Bytes, lo: nat, hi: nat)
    requires lo <= hi <= |s| && hi <= 1024 && s != []
    ensures FrameAt(s, 0)[lo..hi] == s[lo..hi]
  {
  }

  lemma HeaderReadBack(e: Envelope<Uuid>)
    requires Writable(e.request)
    ensures var s := RequestStream(e);
      GetRequestParser(Frames(s)[0]) == Success(Header(e.clientId, e.version, RequestCode(e.request), RequestPayloadSize(e.request)))
  {
    var s := RequestStream(e);
    var f := Frames(s)[0];
    var code, size := RequestCode(e.request), RequestPayloadSize(e.request);
    Pow256Values();
    FirstFrame(s, 0, 16);
    FirstFrame(s, 16, 17);
    FirstFrame(s, 17, 19);
    FirstFrame(s, 19, 23);
    assert s[..16] == e.clientId;
    assert f[..16] == f[0..16] && s[..16] == s[0..16];
    assert s[16..17] == LE(e.version, 1) && f[16] == f[16..17][0];
    assert s[17..19] == LE(code, 2) && s[19..23] == LE(size, 4);
    LEValues(code, 2);
    LEValues(size, 4);
  }

  function PartlyReceived(content: Bytes, k: nat): Content {
    var i := Cursor(|content|, k);
    Content(|content|, content[..i] + Zeros(|content| - i), i)
  }

  lemma SliceMiddle(a: Bytes, b: Bytes, c: Bytes)
    ensures Slice(a + b + c, |a|, |a| + |b|) == b
  {
  }

  lemma SliceAssignMiddle(a: Bytes, b: Bytes, c: Bytes, x: Bytes)
    ensures SliceAssign(a + b + c, |a|, |a| + |b|, x) == a + x + c
  {
    var s := a + b + c;
    assert s[..|a|] == a && s[|a| + |b|..] == c;
  }

  lemma AbsorbPiece(c: Content, before: Bytes, x: Bytes, pad: Bytes, done: Bytes, rest: nat)
    requires c.payload == done + Zeros(|x|) + Zeros(rest) && c.index == |done| && c.size == |done| + |x| + rest
    requires |before| == StartIndex(c) && |x| == Min(c.size - c.index, 1024 - |before|)
    ensures Absorb(c, before + x + pad) == Content(c.size, done + x + Zeros(rest), c.index + |x|)
  {
    SliceMiddle(before, x, pad);
    SliceAssignMiddle(done, Zeros(|x|), Zeros(rest), x);
  }

  /** After every whole frame the reader holds the prefix the writer has sent, its cursor is the writer's, and it stops on the same frame. */
  lemma AbsorbFrame(fields: Bytes, content: Bytes, k: nat)
    requires |fields| == 44 && k < NumFrames(44 + |content|)
    ensures Absorb(PartlyReceived(content, k), FrameAt(fields + content, k)) == PartlyReceived(content, k + 1)
    ensures IsLastStep(PartlyReceived(content, k)) <==> k + 1 == NumFrames(44 + |content|)
  {
    var n := |content|;
    var c := PartlyReceived(content, k);
    var i, j := Cursor(n, k), Cursor(n, k + 1);
    CursorStep(n, k);
    ContentFrame(fields, content, k);
    assert Zeros(n - i) == Zeros(j - i) + Zeros(n - j);
    assert content[..i] + content[i..j] == content[..j];
    AbsorbPiece(c, if k == 0 then fields else [], content[i..j], Zeros((if k == 0 then 980 else 1024) - (j - i)), content[..i], n - j);
  }

  /** What is left of a content of which only the first k frames arrive before the connection closes. */
  function ReceivedContent(content: Bytes, k: nat): Bytes
    requires 0 < k
  {
    if k >= NumFrames(44 + |content|) then content
    else AbsorbFrom(PartlyReceived(content, k), [], 0)
  }

  /** One recv fills its part of the buffer exactly when it returns as many bytes as the parser takes; a shorter one makes the bytearray shrink. */
  lemma ChunkKeepsLength(c: Content, chunk: Bytes)
    requires c.index <= c.size == |c.payload|
    ensures var start := StartIndex(c);
      var n := Min(c.size - c.index, 1024 - start);
      |Absorb(c, chunk).payload| == c.size <==> n == 0 || |chunk| >= start + n
  {
    var start := StartIndex(c);
    var n := Min(c.size - c.index, 1024 - start);
    assert |Slice(chunk, start, start + n)| == Max(0, Min(|chunk| - start, n));
    assert |Absorb(c, chunk).payload| == c.size - n + |Slice(chunk, start, start + n)|;
  }

  lemma {:induction false} AbsorbNothing(c: Content, chunks: seq<Bytes>, i: nat)
    requires c.index <= c.size && i >= |chunks|
    ensures AbsorbFrom(c, chunks, i) == AbsorbFrom(c, [], 0)
    decreases c.size - c.index, if IsLastStep(c) then 0 else 1
  {
    if !IsLastStep(c) {
      AbsorbNothing(Absorb(c, []), chunks, i + 1);
      AbsorbNothing(Absorb(c, []), [], 1);
    }
  }

  lemma {:induction false} AbsorbFrames(fields: Bytes, content: Bytes, chunks: seq<Bytes>, i: nat)
    requires |fields| == 44 && 0 < |chunks| <= NumFrames(44 + |content|) && i <= |chunks|
    requires i < NumFrames(44 + |content|)
    requires chunks == Frames(fields + content)[..|chunks|]
    ensures AbsorbFrom(PartlyReceived(content, i), chunks, i) == ReceivedContent(content, |chunks|)
    decreases |chunks| - i
  {
    var c := PartlyReceived(content, i);
    if i == |chunks| {
      AbsorbNothing(c, chunks, i);
    } else {
      AbsorbFrame(fields, content, i);
      assert chunks[i] == FrameAt(fields + content, i);
      if IsLastStep(c) {
        assert PartlyReceived(content, i + 1).payload == content;
      } else {
        AbsorbFrames(fields, content, chunks, i + 1);
      }
    }
  }

  lemma {:induction false} AbsorbNothingShrinks(c: Content)
    requires c.index <= c.size
    ensures |AbsorbFrom(c, [], 0)| <= |c.payload|
    ensures c.index < c.size && |c.payload| == c.size ==> |AbsorbFrom(c, [], 0)| < c.size
    decreases c.size - c.index, if IsLastStep(c) then 0 else 1
  {
    if !IsLastStep(c) {
      AbsorbNothing(Absorb(c, []), [], 1);
      AbsorbNothingShrinks(Absorb(c, []));
    }
  }

  /** A content survives exactly when every one of its frames arrived: closing the connection earlier stores something shorter. */
  lemma ContentIntactIffAllFramesArrive(content: Bytes, k: nat)
    requires 0 < k
    ensures ReceivedContent(content, k) == content <==> k >= NumFrames(44 + |content|)
  {
    if k < NumFrames(44 + |content|) {
      AbsorbNothingShrinks(PartlyReceived(content, k));
    }
  }

  /** The server's request for a client's envelope of which k frames arrived. */
  function Received(e: Envelope<HexId>, k: nat): Envelope<Uuid>
    requires 0 < k
  {
    Envelope(UnHex(e.clientId), e.version,
      match e.request
      case Register(name, key) => Register(RStrip(name), key)
      case SendMessage(dest, messageType, content) => SendMessage(UnHex(dest), messageType, ReceivedContent(content, k))
      case _ => UnHexRequest(e.request))
  }

  lemma ReceiveSend(e: Envelope<HexId>, chunks: seq<Bytes>)
    requires Writable(e.request) && e.request.SendMessage?
    requires 0 < |chunks| <= |RequestFrames(e)| && chunks == RequestFrames(e)[..|chunks|]
    ensures Receive(chunks) == Success(Received(e, |chunks|))
  {
    hide RequestHeader, LE, FromLE, UnHex, GetRequestParser, ReceivedContent, AbsorbFrom, PartlyReceived, FrameAt;
    var u := UnHexEnvelope(e);
    var s := RequestStream(u);
    var f := Frames(s)[0];
    var SendMessage(dest, messageType, content) := u.request;
    var header := RequestHeader(u.clientId, u.version, RequestCode(u.request), RequestPayloadSize(u.request));
    var fields := header + dest + LE(messageType, 1) + LE(|content|, 4);
    assert s == fields + content;
    assert chunks[0] == f;
    HeaderReadBack(u);
    FieldsReadBack(u);
    NothingReceived(content);
    AbsorbFrames(fields, content, chunks, 0);
  }

  lemma NothingReceived(content: Bytes)
    ensures PartlyReceived(content, 0) == FreshContent(|content|)
  {
  }

  /** The fields behind the header of a send-message request, read from its first frame. */
  lemma FieldsReadBack(u: Envelope<Uuid>)
    requires Writable(u.request) && u.request.SendMessage?
    ensures var f := Frames(RequestStream(u))[0];
      f[23..39] == u.request.dest && f[39] == u.request.messageType && FromLE(f[40..44]) == |u.request.content|
  {
    assert LE(u.request.messageType, 1) == [u.request.messageType];
    hide RequestHeader, LE, FromLE;
    var SendMessage(dest, messageType, content) := u.request;
    var s := RequestStream(u);
    var f := Frames(s)[0];
    FirstFrame(s, 23, 39);
    FirstFrame(s, 39, 40);
    FirstFrame(s, 40, 44);
    assert s[23..39] == dest && s[39..40] == LE(messageType, 1) && s[40..44] == LE(|content|, 4);
    assert f[39] == f[39..40][0];
    Pow256Values();
    LEValues(|content|, 4);
  }

  lemma ReceiveSingle(e: Envelope<HexId>)
    requires Writable(e.request) && !e.request.SendMessage?
    ensures |RequestFrames(e)| == 1
    ensures Receive(RequestFrames(e)) == Success(Received(e, 1))
  {
    var u := UnHexEnvelope(e);
    var s := RequestStream(u);
    var f := Frames(s)[0];
    HeaderReadBack(u);
    match u.request
    case Register(name, key) =>
      FirstFrame(s, 23, 278);
      FirstFrame(s, 278, 438);
      assert s[23..278] == name + Zeros(255 - |name|) && s[278..438] == key;
      RStripZeros(name, 255 - |name|);
    case GetPublicKey(dest) =>
      FirstFrame(s, 23, 39);
      assert s[23..39] == dest;
    case _ =>
  }

  /** Whatever the client writes, the server reads back from the frames that reach it. */
  lemma ReceiveFrames(e: Envelope<HexId>, k: nat)
    requires Writable(e.request) && k <= |RequestFrames(e)|
    ensures Receive(RequestFrames(e)[..k]) == if k == 0 then Failure(NoData) else Success(Received(e, k))
  {
    if k > 0 {
      if e.request.SendMessage? {
        ReceiveSend(e, RequestFrames(e)[..k]);
      } else {
        ReceiveSingle(e);
        assert RequestFrames(e)[..1] == RequestFrames(e);
      }
    }
  }
}
