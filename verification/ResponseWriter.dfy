/** server/response_handler.py: a struct format and its data, built in separate loops and packed into one zeroed buffer. */
module ResponseWriter {
  import opened Wrappers
  import opened Bytes
  import opened Framing
  import opened Protocol
  import opened Records

  function RecordOf(m: StoredMessage): Record<Uuid> {
    Record(m.from, m.id, m.messageType, m.content)
  }

  function RecordsOf(ms: seq<StoredMessage>): (rs: seq<Record<Uuid>>)
    ensures |rs| == |ms|
    ensures forall i :: 0 <= i < |ms| ==> rs[i] == RecordOf(ms[i])
  {
    seq(|ms|, i requires 0 <= i < |ms| => RecordOf(ms[i]))
  }

  function EntriesOf(cs: seq<(Uuid, Bytes)>): (es: seq<ClientEntry<Uuid>>)
    ensures |es| == |cs|
    ensures forall i :: 0 <= i < |cs| ==> es[i] == ClientEntry(cs[i].0, cs[i].1)
  {
    seq(|cs|, i requires 0 <= i < |cs| => ClientEntry(cs[i].0, cs[i].1))
  }

  // ---------- What a response looks like on the wire ----------

  function Payload(r: Response): Bytes {
    match r
    case RegisterSuccess(id) => id
    case ClientsList(clients) => EncodeClients(EntriesOf(clients))
    case PublicKeySuccess(id, key) => id + PadTo(key, 160)
    case MessageSent(id, messageId) => id + LE(messageId, 4)
    case MessagesPulled(messages, _) => EncodeRecords(RecordsOf(messages))
    case GeneralError => []
  }

  /** The size announced in the header, as the handlers' constructors compute it. */
  function AnnouncedSize(r: Response): nat {
    match r
    case RegisterSuccess(_) => 16
    case ClientsList(clients) => |clients| * 271
    case PublicKeySuccess(_, _) => 176
    case MessageSent(_, _) => 20
    case MessagesPulled(_, size) => size
    case GeneralError => 0
  }

  /** The pull handler is told the size by its caller. */
  predicate SizeExact(r: Response) {
    r.MessagesPulled? ==> r.size == RecordsSize(RecordsOf(r.messages))
  }

  lemma AnnouncedSizeExact(r: Response)
    requires SizeExact(r)
    ensures |Payload(r)| == AnnouncedSize(r)
  {
  }

  /** struct refuses numbers that do not fit their field. */
  predicate Encodable(r: Response) {
    && AnnouncedSize(r) < 0x1_0000_0000
    && (r.MessageSent? ==> r.messageId < 0x1_0000_0000)
    && (r.MessagesPulled? ==> AllFit(RecordsOf(r.messages)))
  }

  function ResponseStream(r: Response): Bytes {
    ResponseHeader(ResponseCode(r), AnnouncedSize(r)) + Payload(r)
  }

  function ResponseFrames(r: Response): seq<Frame> {
    Frames(ResponseStream(r))
  }

  // ---------- Python's struct module, standard sizes, little-endian ----------

  datatype Format = S(count: nat) | B | H | I
  datatype Value = Str(bytes: Bytes) | Num(n: nat)

  /** One field; None is struct.error. */
  function PackField(f: Format, v: Value): Option<Bytes> {
    match (f, v)
    case (S(count), Str(bytes)) => Some(PadTo(bytes, count))
    case (B, Num(n)) => if n < 0x100 then Some(LE(n, 1)) else None
    case (H, Num(n)) => if n < 0x1_0000 then Some(LE(n, 2)) else None
    case (I, Num(n)) => if n < 0x1_0000_0000 then Some(LE(n, 4)) else None
    case _ => None
  }

  function Append(a: Option<Bytes>, b: Option<Bytes>): Option<Bytes> {
    if a.Some? && b.Some? then Some(a.value + b.value) else None
  }

  function Pack(fs: seq<Format>, vs: seq<Value>): Option<Bytes> {
    if |fs| != |vs| then None
    else if fs == [] then Some([])
    else Append(PackField(fs[0], vs[0]), Pack(fs[1..], vs[1..]))
  }

  lemma {:induction false} PackConcat(fs: seq<Format>, vs: seq<Value>, gs: seq<Format>, ws: seq<Value>)
    requires |fs| == |vs|
    ensures Pack(fs + gs, vs + ws) == Append(Pack(fs, vs), Pack(gs, ws))
  {
    if fs == [] {
      assert fs + gs == gs && vs + ws == ws;
      if Pack(gs, ws).Some? {
        assert [] + Pack(gs, ws).value == Pack(gs, ws).value;
      }
    } else {
      assert (fs + gs)[1..] == fs[1..] + gs && (vs + ws)[1..] == vs[1..] + ws;
      PackConcat(fs[1..], vs[1..], gs, ws);
      var a, b, c := PackField(fs[0], vs[0]), Pack(fs[1..], vs[1..]), Pack(gs, ws);
      if a.Some? && b.Some? && c.Some? {
        assert a.value + (b.value + c.value) == (a.value + b.value) + c.value;
      }
    }
  }

  // ---------- Formats and data of the list responses ----------

  function MessageFormat(m: StoredMessage): seq<Format> {
    [S(16), I, B, I, S(|m.content|)]
  }

  function MessageData(m: StoredMessage): seq<Value> {
    [Str(m.from), Num(m.id), Num(m.messageType), Num(|m.content|), Str(m.content)]
  }

  function MessageFormats(ms: seq<StoredMessage>): seq<Format> {
    if ms == [] then [] else MessageFormats(ms[..|ms| - 1]) + MessageFormat(ms[|ms| - 1])
  }

  function MessagesData(ms: seq<StoredMessage>): (vs: seq<Value>)
    ensures |vs| == |MessageFormats(ms)|
  {
    if ms == [] then [] else MessagesData(ms[..|ms| - 1]) + MessageData(ms[|ms| - 1])
  }

  function ClientFormats(n: nat): seq<Format> {
    if n == 0 then [] else ClientFormats(n - 1) + [S(16), S(255)]
  }

  function ClientsData(cs: seq<(Uuid, Bytes)>): (vs: seq<Value>)
    ensures |vs| == |ClientFormats(|cs|)|
  {
    if cs == [] then [] else ClientsData(cs[..|cs| - 1]) + [Str(cs[|cs| - 1].0), Str(cs[|cs| - 1].1)]
  }

  method GetMessagesFormat(ms: seq<StoredMessage>) returns (fmt: seq<Format>)
    ensures fmt == MessageFormats(ms)
  {
    fmt := [];
    for i := 0 to |ms|
      invariant fmt == MessageFormats(ms[..i])
    {
      assert ms[..i + 1][..i] == ms[..i];
      fmt := fmt + [S(16), I, B, I, S(|ms[i].content|)];
    }
    assert ms[..|ms|] == ms;
  }

  method GetMessagesPackData(ms: seq<StoredMessage>) returns (flat: seq<Value>)
    ensures flat == MessagesData(ms)
  {
    flat := [];
    for i := 0 to |ms|
      invariant flat == MessagesData(ms[..i])
    {
      assert ms[..i + 1][..i] == ms[..i];
      ghost var was := flat;
      flat := flat + [Str(ms[i].from)];
      flat := flat + [Num(ms[i].id)];
      flat := flat + [Num(ms[i].messageType)];
      flat := flat + [Num(|ms[i].content|)];
      flat := flat + [Str(ms[i].content)];
      assert flat == was + MessageData(ms[i]);
    }
    assert ms[..|ms|] == ms;
  }

  method GetClientsPackData(cs: seq<(Uuid, Bytes)>) returns (flat: seq<Value>)
    ensures flat == ClientsData(cs)
  {
    flat := [];
    for i := 0 to |cs|
      invariant flat == ClientsData(cs[..i])
    {
      assert cs[..i + 1][..i] == cs[..i];
      ghost var was := flat;
      flat := flat + [Str(cs[i].0)];
      flat := flat + [Str(cs[i].1)];
      assert flat == was + [Str(cs[i].0), Str(cs[i].1)];
    }
    assert cs[..|cs|] == cs;
  }

  lemma PadToSelf(s: Bytes)
    ensures PadTo(s, |s|) == s
  {
  }

  /** Two fields at a time. */
  lemma PackPair(f: Format, v: Value, g: Format, w: Value)
    ensures Pack([f, g], [v, w]) == Append(PackField(f, v), PackField(g, w))
  {
    assert [f, g][1..] == [g] && [v, w][1..] == [w];
    assert [g][1..] == [] && [w][1..] == [];
    assert Pack([g], [w]) == Append(PackField(g, w), Pack([], []));
    if PackField(g, w).Some? {
      assert PackField(g, w).value + [] == PackField(g, w).value;
    }
  }

  /** The three fields that follow the two fields of a message's head. */
  lemma PackTail(messageType: Byte, size: nat, content: Bytes)
    requires |content| == size
    ensures Pack([B, I, S(size)], [Num(messageType), Num(size), Str(content)]) ==
      if size < 0x1_0000_0000 then Some(LE(messageType, 1) + LE(size, 4) + content) else None
  {
    hide LE;
    PackPair(B, Num(messageType), I, Num(size));
    assert [S(size)][1..] == [] && [Str(content)][1..] == [];
    PackConcat([B, I], [Num(messageType), Num(size)], [S(size)], [Str(content)]);
    assert [B, I, S(size)] == [B, I] + [S(size)];
    assert [Num(messageType), Num(size), Str(content)] == [Num(messageType), Num(size)] + [Str(content)];
    PadToSelf(content);
    assert content + [] == content;
  }

  lemma PackMessage(m: StoredMessage)
    ensures Pack(MessageFormat(m), MessageData(m)) == if Fits(RecordOf(m)) then Some(EncodeRecord(RecordOf(m))) else None
  {
    var size := |m.content|;
    PackTail(m.messageType, size, m.content);
    PackPair(S(16), Str(m.from), I, Num(m.id));
    PadToSelf(m.from);
    PackConcat([S(16), I], [Str(m.from), Num(m.id)], [B, I, S(size)], [Num(m.messageType), Num(size), Str(m.content)]);
    hide Pack, LE;
    assert MessageFormat(m) == [S(16), I] + [B, I, S(size)];
    assert MessageData(m) == [Str(m.from), Num(m.id)] + [Num(m.messageType), Num(size), Str(m.content)];
    if Fits(RecordOf(m)) {
      assert m.from + LE(m.id, 4) + (LE(m.messageType, 1) + LE(size, 4) + m.content) == EncodeRecord(RecordOf(m));
    }
  }

  lemma {:induction false} EncodeRecordsSnoc(rs: seq<Record<Uuid>>, r: Record<Uuid>)
    ensures EncodeRecords(rs + [r]) == EncodeRecords(rs) + EncodeRecord(r)
  {
    if rs == [] {
      assert ([] + [r])[1..] == [];
      assert EncodeRecord(r) + [] == EncodeRecord(r);
    } else {
      assert (rs + [r])[1..] == rs[1..] + [r];
      EncodeRecordsSnoc(rs[1..], r);
    }
  }

  /** Packing the data with the format gives the record encoding, or fails exactly when a number does not fit. */
  lemma {:induction false} PackMessages(ms: seq<StoredMessage>)
    ensures Pack(MessageFormats(ms), MessagesData(ms)) == if AllFit(RecordsOf(ms)) then Some(EncodeRecords(RecordsOf(ms))) else None
  {
    if ms != [] {
      var init, last := ms[..|ms| - 1], ms[|ms| - 1];
      hide EncodeRecord, LE, Pack, MessageFormat, MessageData;
      PackMessages(init);
      PackMessage(last);
      PackConcat(MessageFormats(init), MessagesData(init), MessageFormat(last), MessageData(last));
      assert RecordsOf(ms) == RecordsOf(init) + [RecordOf(last)];
      EncodeRecordsSnoc(RecordsOf(init), RecordOf(last));
      AllFitSnoc(RecordsOf(init), RecordOf(last));
      hide RecordsOf, RecordOf, Fits, AllFit, EncodeRecords;
    }
  }

  lemma AllFitSnoc(rs: seq<Record<Uuid>>, r: Record<Uuid>)
    ensures AllFit(rs + [r]) <==> AllFit(rs) && Fits(r)
  {
    hide Fits;
    assert (rs + [r])[|rs|] == r;
    assert forall i :: 0 <= i < |rs| ==> (rs + [r])[i] == rs[i];
  }

  lemma {:induction false} PackClients(cs: seq<(Uuid, Bytes)>)
    ensures Pack(ClientFormats(|cs|), ClientsData(cs)) == Some(EncodeClients(EntriesOf(cs)))
  {
    if cs != [] {
      var init, last := cs[..|cs| - 1], cs[|cs| - 1];
      PackClients(init);
      PackPair(S(16), Str(last.0), S(255), Str(last.1));
      PadToSelf(last.0);
      PackConcat(ClientFormats(|init|), ClientsData(init), [S(16), S(255)], [Str(last.0), Str(last.1)]);
      assert EntriesOf(cs)[..|init|] == EntriesOf(init);
    }
  }

  /** _get_parse_formatter and _get_pack_data of the six handlers, without the header. */
  method GetFormatAndData(r: Response) returns (fmt: seq<Format>, data: seq<Value>)
    ensures |fmt| == |data|
    ensures Encodable(r) ==> Pack(fmt, data) == Some(Payload(r))
    ensures !Encodable(r) && AnnouncedSize(r) < 0x1_0000_0000 ==> Pack(fmt, data) == None
  {
    match r
    case RegisterSuccess(id) =>
      fmt, data := [S(16)], [Str(id)];
      PadToSelf(id);
      assert fmt[1..] == [] && data[1..] == [] && id + [] == id;
    case ClientsList(clients) =>
      fmt := ClientFormats(|clients|);
      data := GetClientsPackData(clients);
      PackClients(clients);
    case PublicKeySuccess(id, key) =>
      fmt, data := [S(16), S(160)], [Str(id), Str(key)];
      PackPair(S(16), Str(id), S(160), Str(key));
      PadToSelf(id);
    case MessageSent(id, messageId) =>
      fmt, data := [S(16), I], [Str(id), Num(messageId)];
      PackPair(S(16), Str(id), I, Num(messageId));
      PadToSelf(id);
    case MessagesPulled(messages, size) =>
      fmt := GetMessagesFormat(messages);
      data := GetMessagesPackData(messages);
      PackMessages(messages);
    case GeneralError =>
      fmt, data := [], [];
  }

  lemma PackHeader(code: nat, size: nat)
    requires code < 0x1_0000
    ensures Pack([B, H, I], [Num(SERVER_VERSION), Num(code), Num(size)]) == if size < 0x1_0000_0000 then Some(ResponseHeader(code, size)) else None
  {
    PackPair(B, Num(SERVER_VERSION), H, Num(code));
    assert [I][1..] == [] && [Num(size)][1..] == [];
    PackConcat([B, H], [Num(SERVER_VERSION), Num(code)], [I], [Num(size)]);
    assert [B, H, I] == [B, H] + [I];
    assert [Num(SERVER_VERSION), Num(code), Num(size)] == [Num(SERVER_VERSION), Num(code)] + [Num(size)];
    assert LE(size, 4) + [] == LE(size, 4);
  }

  /** ResponseHandler.create_response: None when struct raises, else the response's stream in a zeroed buffer of whole frames. */
  method CreateResponse(r: Response) returns (buffer: Option<array<Byte>>)
    requires SizeExact(r)
    ensures buffer.Some? <==> Encodable(r)
    ensures buffer.Some? ==> fresh(buffer.value) && buffer.value[..] == Flatten(ResponseFrames(r))
  {
    hide Payload, ResponseHeader, LE, Flatten;
    AnnouncedSizeExact(r);
    var bufferSize := NumFrames(7 + AnnouncedSize(r)) * 1024;
    var bytes := new Byte[bufferSize](_ => 0);
    var fmt, data := GetFormatAndData(r);
    PackHeader(ResponseCode(r), AnnouncedSize(r));
    PackConcat([B, H, I], [Num(SERVER_VERSION), Num(ResponseCode(r)), Num(AnnouncedSize(r))], fmt, data);
    var packed := Pack([B, H, I] + fmt, [Num(SERVER_VERSION), Num(ResponseCode(r)), Num(AnnouncedSize(r))] + data);
    if packed.None? || |packed.value| > bytes.Length {
      return None;
    }
    assert packed.value == ResponseStream(r);
    forall i | 0 <= i < |packed.value| {
      bytes[i] := packed.value[i];
    }
    FramesHoldStream(ResponseStream(r));
    assert bytes[..] == packed.value + Zeros(bufferSize - |packed.value|);
    buffer := Some(bytes);
  }
}
