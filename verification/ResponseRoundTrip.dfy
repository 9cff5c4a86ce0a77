/** The client's reassembly inverts the server's packing, frame for frame. */
module ResponseRoundTrip {
  import opened Wrappers
  import opened Bytes
  import opened Framing
  import opened Protocol
  import opened Records
  import opened ResponseReader
  import opened ResponseWriter

  /** What the client makes of a response: ids as hex digits, names cut at a zero byte, keys of 160 bytes. */
  function View(r: Response): Decoded {
    match r
    case RegisterSuccess(id) => Registered(Hex(id))
    case ClientsList(clients) => Clients(ListedClients(EntriesOf(clients)))
    case PublicKeySuccess(id, key) => PublicKey(Hex(id), PadTo(key, 160))
    case MessageSent(id, messageId) => Sent(Hex(id), messageId)
    case MessagesPulled(messages, _) => Messages(HexRecords(RecordsOf(messages)))
    case GeneralError => ServerError
  }

  lemma HeaderFields(code: nat, size: nat, payload: Bytes)
    requires code < 0x1_0000 && size < 0x1_0000_0000
    ensures var f := FrameAt(ResponseHeader(code, size) + payload, 0);
      FromLE(f[1..3]) == code && FromLE(f[3..7]) == size
  {
    var h := ResponseHeader(code, size);
    var f := FrameAt(h + payload, 0);
    assert f[..7] == h;
    assert f[1..3] == h[1..3] == LE(code, 2);
    assert f[3..7] == h[3..7] == LE(size, 4);
    Pow256Values();
    FromLEofLE(code, 2);
    FromLEofLE(size, 4);
  }

  lemma SmallFrame(code: nat, payload: Bytes)
    requires |payload| <= 1017
    ensures var fs := Frames(ResponseHeader(code, |payload|) + payload);
      |fs| == 1 && fs[0][7..7 + |payload|] == payload
  {
    hide ResponseHeader;
    var s := ResponseHeader(code, |payload|) + payload;
    SingleFrame(s);
    assert (s + Zeros(1024 - |s|))[7..|s|] == payload;
  }

  lemma DecodeSmallFrame(r: Response)
    requires SizeExact(r) && Encodable(r) && !IsBig(ResponseCode(r))
    ensures |ResponseFrames(r)| == 1
    ensures DecodeSmall(ResponseCode(r), AnnouncedSize(r), ResponseFrames(r)[0]) == Success(View(r))
  {
    AnnouncedSizeExact(r);
    hide ResponseHeader, Frames, PadTo, Hex, LE, FromLE;
    SmallFrame(ResponseCode(r), Payload(r));
    var f := ResponseFrames(r)[0];
    match r
    case RegisterSuccess(id) =>
    case PublicKeySuccess(id, key) =>
      SubFields(f, id, PadTo(key, 160));
    case MessageSent(id, messageId) =>
      SubFields(f, id, LE(messageId, 4));
      Pow256Values();
      FromLEofLE(messageId, 4);
    case GeneralError =>
  }

  lemma SubFields(f: Frame, id: Uuid, rest: Bytes)
    requires |rest| <= 1000 && f[7..7 + 16 + |rest|] == id + rest
    ensures f[7..23] == id && f[23..23 + |rest|] == rest
  {
    var p := f[7..7 + 16 + |rest|];
    assert p[..16] == f[7..23] && p[16..] == f[23..23 + |rest|];
  }

  lemma DecodePayload(r: Response)
    requires SizeExact(r) && Encodable(r) && IsBig(ResponseCode(r))
    ensures r.ClientsList? ==> |Payload(r)| % 271 == 0
    ensures DecodeBig(ResponseCode(r), Payload(r)) == Success(View(r))
  {
    match r
    case ClientsList(clients) =>
      ParseEncodedClients(EntriesOf(clients));
    case MessagesPulled(messages, _) =>
      RecordCodecExact(Payload(r), RecordsOf(messages));
  }

  /** Reassembly: the client reads exactly the frames of the stream, and parses exactly the payload in it. */
  lemma Reassembly(code: nat, payload: Bytes, k: nat)
    requires IsBig(code) && |payload| < 0x1_0000_0000 && (code == 2101 ==> |payload| % 271 == 0)
    requires 0 < k <= NumFrames(7 + |payload|)
    ensures DecodeFrames(Frames(ResponseHeader(code, |payload|) + payload)[..k]) ==
      if k == NumFrames(7 + |payload|) then Counted(DecodeBig(code, payload), k) else Failure(EndOfFile)
  {
    HeaderFields(code, |payload|, payload);
    var s := ResponseHeader(code, |payload|) + payload;
    hide ResponseHeader, DecodeBig, FromLE;
    var frames := Frames(s)[..k];
    assert frames[0] == FrameAt(s, 0);
    if k == NumFrames(7 + |payload|) {
      FramesHoldStream(s);
      assert frames == Frames(s);
      assert (s + Zeros(1024 * k - |s|))[7..|s|] == payload;
    }
  }

  lemma DecodeBigFrames(r: Response, k: nat)
    requires SizeExact(r) && Encodable(r) && IsBig(ResponseCode(r)) && 0 < k <= |ResponseFrames(r)|
    ensures |ResponseFrames(r)| == NumFrames(7 + AnnouncedSize(r))
    ensures DecodeFrames(ResponseFrames(r)[..k]) ==
      if k == |ResponseFrames(r)| then Success((View(r), k)) else Failure(EndOfFile)
  {
    AnnouncedSizeExact(r);
    DecodePayload(r);
    hide Payload, View, ResponseHeader, DecodeBig, DecodeFrames, SizeExact;
    Reassembly(ResponseCode(r), Payload(r), k);
  }

  /**
   For every response the server can pack, the client reads exactly the frames the server sends and
   decodes exactly that response; with fewer frames it reports the end of the connection.
   */
  lemma ReadWhatWasWritten(r: Response, k: nat)
    requires SizeExact(r) && Encodable(r) && k <= |ResponseFrames(r)|
    ensures |ResponseFrames(r)| == NumFrames(7 + AnnouncedSize(r))
    ensures DecodeFrames(ResponseFrames(r)[..k]) ==
      if k == |ResponseFrames(r)| then Success((View(r), k)) else Failure(EndOfFile)
  {
    AnnouncedSizeExact(r);
    assert |ResponseStream(r)| == 7 + AnnouncedSize(r);
    if k > 0 {
      if IsBig(ResponseCode(r)) {
        DecodeBigFrames(r, k);
      } else {
        DecodeSmallFrame(r);
        HeaderFields(ResponseCode(r), AnnouncedSize(r), Payload(r));
        assert ResponseFrames(r)[..k][0] == FrameAt(ResponseStream(r), 0);
      }
    }
  }
}
