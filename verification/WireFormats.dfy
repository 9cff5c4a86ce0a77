/** Exactly which bytes each side reads as what, whoever sent them. */
module WireFormats {
  import opened Wrappers
  import opened Bytes
  import opened Framing
  import opened Protocol
  import opened Records
  import opened RequestReader
  import opened ResponseReader
  import opened ResponseWriter

  /** The field holds the number. */
  lemma FieldRead(field: Bytes, n: nat)
    ensures FromLE(field) == n <==> n < Pow256(|field|) && field == LE(n, |field|)
  {
    LEofFromLE(field);
    FromLEofLE(n, |field|);
    if n < Pow256(|field|) {
      SmallMod(n, Pow256(|field|));
    }
  }

  lemma SmallMod(n: nat, p: nat)
    requires n < p
    ensures n % p == n
  {
  }

  // ---------- What the server reads ----------

  /** The first chunk starts like a request with this code and payload size. */
  predicate Starts(first: Bytes, code: nat, size: nat) {
    |first| >= 23 && first[17..19] == LE(code, 2) && first[19..23] == LE(size, 4)
  }

  predicate StartsSend(first: Bytes) {
    |first| >= 44 && first[17..19] == LE(1103, 2)
  }

  /** The first chunk holds one of the five requests, with its payload size, which only a send-message request may get wrong. */
  predicate Readable(first: Bytes) {
    || (Starts(first, 1100, 415) && |first| >= 438)
    || Starts(first, 1101, 0)
    || (Starts(first, 1102, 16) && |first| >= 39)
    || StartsSend(first)
    || Starts(first, 1104, 0)
  }

  lemma HeaderRead(first: Bytes)
    requires |first| >= 23
    ensures forall code: nat :: code < 0x1_0000 ==> (FromLE(first[17..19]) == code <==> first[17..19] == LE(code, 2))
    ensures forall size: nat :: size < 0x1_0000_0000 ==> (FromLE(first[19..23]) == size <==> first[19..23] == LE(size, 4))
  {
    Pow256Values();
    forall code: nat | code < 0x1_0000 ensures FromLE(first[17..19]) == code <==> first[17..19] == LE(code, 2) {
      FieldRead(first[17..19], code);
    }
    forall size: nat | size < 0x1_0000_0000 ensures FromLE(first[19..23]) == size <==> first[19..23] == LE(size, 4) {
      FieldRead(first[19..23], size);
    }
  }

  /** The server reads a request exactly when the first chunk holds one; everything else it refuses. */
  lemma ReadIffReadable(chunks: seq<Bytes>)
    ensures Receive(chunks).Success? <==> Readable(ChunkAt(chunks, 0))
  {
    var first := ChunkAt(chunks, 0);
    if |first| >= 23 {
      HeaderRead(first);
    }
    hide LE, FromLE, AbsorbFrom, ChunkAt, RStrip;
  }

  /** What the fields of the first chunk become. */
  predicate FieldsOf(first: Bytes, e: Envelope<Uuid>)
    requires |first| >= 23
  {
    && e.clientId == first[..16] && e.version == first[16]
    && match e.request
       case Register(name, key) => Starts(first, 1100, 415) && |first| >= 438 && name == RStrip(first[23..278]) && key == first[278..438]
       case ListClients => Starts(first, 1101, 0)
       case GetPublicKey(dest) => Starts(first, 1102, 16) && |first| >= 39 && dest == first[23..39]
       case SendMessage(dest, messageType, _) => StartsSend(first) && dest == first[23..39] && messageType == first[39]
       case PullMessages => Starts(first, 1104, 0)
  }

  /** What the server reads is what the fields say. */
  lemma ReadAsFields(chunks: seq<Bytes>)
    requires Readable(ChunkAt(chunks, 0))
    ensures Receive(chunks).Success? && FieldsOf(ChunkAt(chunks, 0), Receive(chunks).value)
  {
    var first := ChunkAt(chunks, 0);
    ReadIffReadable(chunks);
    HeaderRead(first);
    hide LE, FromLE, AbsorbFrom, ChunkAt, RStrip;
  }

  // ---------- What the client reads ----------

  /** The payload of a response with this code means d. */
  ghost predicate Means(code: nat, p: Bytes, d: Decoded) {
    match d
    case Registered(id) => code == 2100 && |p| == 16 && id == Hex(p)
    case Clients(list) =>
      && code == 2101 && |p| == 271 * |list|
      && forall i :: 0 <= i < |list| ==> list[i] == ClientEntry(Hex(p[271 * i..271 * i + 16]), CString(p[271 * i + 16..271 * i + 271]))
    case PublicKey(id, key) => code == 2102 && |p| == 176 && id == Hex(p[..16]) && key == p[16..]
    case Sent(id, messageId) => code == 2103 && |p| == 20 && id == Hex(p[..16]) && p[16..] == LE(messageId, 4) && FourBytes(messageId)
    case Messages(ms) => code == 2104 && exists rs :: AllFit(rs) && EncodeRecords(rs) == p && ms == HexRecords(rs)
    case ServerError => code == 9000 && p == []
  }

  /** Where the fields of a message record lie. */
  lemma RecordFields(r: Record<Uuid>)
    ensures var e := EncodeRecord(r);
      && |e| == 25 + |r.content| && e[..16] == r.from && e[16..20] == LE(r.id, 4) && e[20] == r.messageType
      && e[21..25] == LE(|r.content|, 4) && e[25..] == r.content
  {
    var e := EncodeRecord(r);
    assert e[20] == e[20..21][0] && LE(r.messageType, 1) == [r.messageType];
    hide LE;
    assert e[20..21] == LE(r.messageType, 1);
  }

  /** How a response begins: the server's version, the code, the size of the payload, which follows. */
  lemma ResponseFields(r: Response)
    requires SizeExact(r)
    ensures var s := ResponseStream(r);
      && |s| == 7 + |Payload(r)| && s[0] == 2 && s[3..7] == LE(|Payload(r)|, 4) && s[7..] == Payload(r)
      && s[1..3] == LE(
           match r
           case RegisterSuccess(_) => 2100
           case ClientsList(_) => 2101
           case PublicKeySuccess(_, _) => 2102
           case MessageSent(_, _) => 2103
           case MessagesPulled(_, _) => 2104
           case GeneralError => 9000, 2)
  {
    AnnouncedSizeExact(r);
    var s := ResponseStream(r);
    assert LE(2, 1) == [2];
    hide LE, Payload;
    assert s[0] == s[0..1][0] && s[0..1] == LE(2, 1);
  }

  /** The first frame announces the code and the payload's size, each of which fits its field. */
  predicate Announces(f: Frame, code: nat, size: nat) {
    f[1..3] == LE(code, 2) && f[3..7] == LE(size, 4) && code < 0x1_0000 && size < 0x1_0000_0000
  }

  lemma AnnouncedRead(f: Frame, code: nat, size: nat)
    ensures Announces(f, code, size) <==> FromLE(f[1..3]) == code && FromLE(f[3..7]) == size
  {
    Pow256Values();
    FieldRead(f[1..3], code);
    FieldRead(f[3..7], size);
    hide LE, FromLE;
  }

  /** The frames hold, from the seventh byte of the first on, the announced payload, which means d and ends in the k-th of them. */
  ghost predicate Spells(frames: seq<Frame>, code: nat, size: nat, d: Decoded, k: nat) {
    && frames != [] && Announces(frames[0], code, size) && k == NumFrames(7 + size) <= |frames|
    && Means(code, Flatten(frames)[7..7 + size], d)
  }

  lemma SmallMeans(code: nat, size: nat, f: Frame, d: Decoded)
    requires !IsBig(code) && size <= 1017
    ensures DecodeSmall(code, size, f) == Success(d) <==> Means(code, f[7..7 + size], d)
  {
    var p := f[7..7 + size];
    if size >= 16 {
      assert p[..16] == f[7..23] && p[16..] == f[23..7 + size];
    }
    if size == 20 {
      SentMeans(p, d);
      FourBytesBound(FromLE(p[16..]));
      FieldRead(p[16..], FromLE(p[16..]));
      Pow256Values();
    }
    hide Hex, LE, FromLE, FourBytes;
  }

  lemma SentMeans(p: Bytes, d: Decoded)
    requires |p| == 20
    ensures d.Sent? ==> (p[16..] == LE(d.messageId, 4) && FourBytes(d.messageId) <==> FromLE(p[16..]) == d.messageId)
  {
    if d.Sent? {
      FieldRead(p[16..], d.messageId);
      FourBytesBound(d.messageId);
      Pow256Values();
    }
    hide LE, FromLE;
  }

  lemma SmallSizes(code: nat, size: nat, f: Frame)
    requires !IsBig(code) && DecodeSmall(code, size, f).Success?
    ensures size <= 1017
  {
  }

  lemma BigMeans(code: nat, p: Bytes, d: Decoded)
    requires IsBig(code) && (code == 2101 ==> |p| % 271 == 0)
    ensures DecodeBig(code, p) == Success(d) <==> Means(code, p, d)
  {
    hide Hex, CString;
    if code == 2101 {
      ListMeans(p, d);
    } else {
      RecordsMean(p, d);
    }
  }

  lemma ListMeans(p: Bytes, d: Decoded)
    requires |p| % 271 == 0
    ensures d == Clients(ParseClients(p)) <==> Means(2101, p, d)
  {
    hide Hex, CString;
    var list := ParseClients(p);
    forall i | 0 <= i < |list| ensures list[i] == ClientEntry(Hex(p[271 * i..271 * i + 16]), CString(p[271 * i + 16..271 * i + 271])) {
      var e := p[271 * i..271 * i + 271];
      assert e[..16] == p[271 * i..271 * i + 16] && e[16..] == p[271 * i + 16..271 * i + 271];
    }
  }

  lemma RecordsMean(p: Bytes, d: Decoded)
    ensures DecodeBig(2104, p) == Success(d) <==> Means(2104, p, d)
  {
    hide Hex, EncodeRecords, ParseRecords, AllFit;
    if ParseRecords(p).Some? {
      RecordCodecExact(p, ParseRecords(p).value);
    }
    if d.Messages? && Means(2104, p, d) {
      var rs :| AllFit(rs) && EncodeRecords(rs) == p && d.messages == HexRecords(rs);
      RecordCodecExact(p, rs);
    }
  }

  /** The client decodes frames as d, reading k of them, exactly when they spell it; everything else it refuses. */
  lemma DecodedIffSpelled(frames: seq<Frame>, d: Decoded, k: nat)
    ensures DecodeFrames(frames) == Success((d, k)) <==> exists code, size :: Spells(frames, code, size, d, k)
  {
    if frames != [] {
      var code, size := FromLE(frames[0][1..3]), FromLE(frames[0][3..7]);
      AnnouncedRead(frames[0], code, size);
      DecodedWith(frames, code, size, d, k);
      forall code', size' | Spells(frames, code', size', d, k) ensures code' == code && size' == size {
        AnnouncedRead(frames[0], code', size');
      }
      hide DecodeFrames, Means, Announces, FromLE;
    }
  }

  lemma DecodedWith(frames: seq<Frame>, code: nat, size: nat, d: Decoded, k: nat)
    requires frames != [] && code == FromLE(frames[0][1..3]) && size == FromLE(frames[0][3..7]) && Announces(frames[0], code, size)
    ensures DecodeFrames(frames) == Success((d, k)) <==> Spells(frames, code, size, d, k)
  {
    hide DecodeSmall, DecodeBig, Means, FromLE, Announces;
    if IsBig(code) {
      if NumFrames(7 + size) <= |frames| && (code == 2101 ==> size % 271 == 0) {
        BigMeans(code, Flatten(frames)[7..7 + size], d);
      }
      if code == 2101 && size % 271 != 0 && NumFrames(7 + size) <= |frames| {
        ListLength(Flatten(frames)[7..7 + size], d);
      }
    } else if size <= 1017 {
      FirstOfFlatten(frames);
      SmallMeans(code, size, frames[0], d);
      SliceOfTake(Flatten(frames), 1024, 7, 7 + size);
    } else {
      if DecodeSmall(code, size, frames[0]).Success? {
        SmallSizes(code, size, frames[0]);
      }
      if NumFrames(7 + size) <= |frames| {
        SmallLength(code, Flatten(frames)[7..7 + size], d);
      }
    }
  }

  lemma FirstOfFlatten(frames: seq<Frame>)
    requires frames != []
    ensures Flatten(frames)[..1024] == frames[0]
  {
    SliceOfFlatten(frames, 0);
    hide Flatten;
    assert Flatten(frames)[0..1024] == Flatten(frames)[..1024];
  }

  lemma ListLength(p: Bytes, d: Decoded)
    requires |p| % 271 != 0
    ensures !Means(2101, p, d)
  {
    hide Hex, CString, LE;
  }

  lemma SmallLength(code: nat, p: Bytes, d: Decoded)
    requires !IsBig(code) && |p| > 1017
    ensures !Means(code, p, d)
  {
    hide Hex, CString, LE;
  }
}
