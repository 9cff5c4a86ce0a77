/** What the server makes of a send-message request when recv returns other pieces of the stream than whole frames. */
module RecvPieces {
  import opened Wrappers
  import opened Bytes
  import opened Framing
  import opened Protocol
  import opened RequestReader

  /** How many bytes the first i pieces have. */
  function Offset(sizes: seq<nat>, i: nat): nat
    requires i <= |sizes|
  {
    if i == 0 then 0 else Offset(sizes, i - 1) + sizes[i - 1]
  }

  /** What successive recv calls return of a stream: pieces of the given sizes. */
  function Pieces(stream: Bytes, sizes: seq<nat>): (ps: seq<Bytes>)
    ensures |ps| == |sizes|
  {
    seq(|sizes|, i requires 0 <= i < |sizes| => Slice(stream, Offset(sizes, i), Offset(sizes, i + 1)))
  }

  /** Where the content ends in frame k of a send-message request. */
  function Need(n: nat, k: nat): int {
    Min(1024, 44 + n - 1024 * k)
  }

  /** Each piece before the last needed one is a whole frame, and that one covers the rest. */
  predicate WholeFrames(sizes: seq<nat>, n: nat) {
    var last := NumFrames(44 + n) - 1;
    |sizes| > last && sizes[last] >= Need(n, last) && forall i :: 0 <= i < last ==> sizes[i] == 1024
  }

  lemma {:induction false} OffsetOfFrames(sizes: seq<nat>, k: nat)
    requires k <= |sizes| && forall i :: 0 <= i < k ==> sizes[i] == 1024
    ensures Offset(sizes, k) == 1024 * k
  {
    if k > 0 {
      OffsetOfFrames(sizes, k - 1);
    }
  }

  /** After whole frames, the next piece is the beginning of the next frame. */
  lemma PieceAfterFrames(s: Bytes, sizes: seq<nat>, k: nat)
    requires k < NumFrames(|s|) && (forall i :: 0 <= i < k && i < |sizes| ==> sizes[i] == 1024) && forall i :: 0 <= i < |sizes| ==> sizes[i] <= 1024
    ensures ChunkAt(Pieces(Flatten(Frames(s)), sizes), k) == if k < |sizes| then FrameAt(s, k)[..sizes[k]] else []
  {
    hide Flatten, FrameAt;
    if k < |sizes| {
      var fs := Frames(s);
      OffsetOfFrames(sizes, k);
      assert Offset(sizes, k + 1) == 1024 * k + sizes[k];
      assert fs[k] == FrameAt(s, k);
      hide Offset, Frames;
      SliceInFrame(fs, k, sizes[k]);
    }
  }

  lemma SliceInFrame(fs: seq<Frame>, k: nat, size: nat)
    requires k < |fs| && size <= 1024
    ensures Slice(Flatten(fs), 1024 * k, 1024 * k + size) == fs[k][..size]
  {
    SliceOfFlatten(fs, k);
    hide Flatten;
    var t := Flatten(fs);
    assert t[1024 * k..1024 * k + 1024][..size] == t[1024 * k..1024 * k + size];
  }

  // ---------- Pieces that are long enough ----------

  /** The parser takes from a chunk only the bytes up to the content's end. */
  lemma AbsorbBeginning(fields: Bytes, content: Bytes, k: nat, size: nat)
    requires |fields| == 44 && k < NumFrames(44 + |content|) && Need(|content|, k) <= size <= 1024
    ensures Absorb(PartlyReceived(content, k), FrameAt(fields + content, k)[..size]) == PartlyReceived(content, k + 1)
  {
    AbsorbFrame(fields, content, k);
    CursorStep(|content|, k);
    var f := FrameAt(fields + content, k);
    var c := PartlyReceived(content, k);
    var start := StartIndex(c);
    assert start + Min(c.size - c.index, 1024 - start) == Need(|content|, k);
    hide FrameAt, PartlyReceived;
    SliceOfBeginning(f, start, Need(|content|, k), size);
  }

  lemma SliceOfBeginning(f: Bytes, lo: nat, hi: nat, size: nat)
    requires hi <= size <= |f|
    ensures Slice(f[..size], lo, hi) == Slice(f, lo, hi)
  {
  }

  /** Whole frames bring the reader to the state it has after as many frames. */
  lemma {:induction false} AbsorbWhole(fields: Bytes, content: Bytes, sizes: seq<nat>, k: nat)
    requires |fields| == 44 && k < NumFrames(44 + |content|) && k <= |sizes|
    requires (forall i :: 0 <= i < k ==> sizes[i] == 1024) && forall i :: 0 <= i < |sizes| ==> sizes[i] <= 1024
    ensures var ps := Pieces(Flatten(Frames(fields + content)), sizes);
      AbsorbFrom(FreshContent(|content|), ps, 0) == AbsorbFrom(PartlyReceived(content, k), ps, k)
  {
    NothingReceived(content);
    if k > 0 {
      AbsorbWhole(fields, content, sizes, k - 1);
      PieceAfterFrames(fields + content, sizes, k - 1);
      AbsorbBeginning(fields, content, k - 1, 1024);
      AbsorbFrame(fields, content, k - 1);
      hide Pieces, Flatten, Frames, FrameAt, PartlyReceived, Absorb, FreshContent;
    }
  }

  lemma AllReceived(content: Bytes, k: nat)
    requires k == NumFrames(44 + |content|)
    ensures PartlyReceived(content, k).payload == content
  {
  }

  lemma AbsorbLast(fields: Bytes, content: Bytes, sizes: seq<nat>)
    requires |fields| == 44 && WholeFrames(sizes, |content|) && forall i :: 0 <= i < |sizes| ==> sizes[i] <= 1024
    ensures AbsorbFrom(FreshContent(|content|), Pieces(Flatten(Frames(fields + content)), sizes), 0) == content
  {
    var last := NumFrames(44 + |content|) - 1;
    AbsorbWhole(fields, content, sizes, last);
    PieceAfterFrames(fields + content, sizes, last);
    AbsorbBeginning(fields, content, last, sizes[last]);
    AbsorbFrame(fields, content, last);
    AllReceived(content, last + 1);
    hide Pieces, Flatten, Frames, FrameAt, PartlyReceived, Absorb, FreshContent;
  }

  // ---------- Pieces that are too short ----------

  /** A place behind which the cursor already is keeps its zero. */
  lemma {:induction false} HoleStays(c: Content, chunks: seq<Bytes>, i: nat, hole: nat)
    requires hole < c.index <= c.size && hole < |c.payload| && c.payload[hole] == 0
    ensures var r := AbsorbFrom(c, chunks, i); hole < |r| && r[hole] == 0
    decreases c.size - c.index, if IsLastStep(c) then 0 else 1
  {
    var c' := Absorb(c, ChunkAt(chunks, i));
    assert hole < |c'.payload| && c'.payload[hole] == 0;
    if !IsLastStep(c) {
      HoleStays(c', chunks, i + 1, hole);
    }
  }

  /** A chunk that gives the parser less than it takes moves the cursor all the same. */
  lemma AbsorbShort(c: Content, done: Bytes, chunk: Bytes) returns (got: Bytes, rest: nat)
    requires c.index == |done| <= c.size && c.payload == done + Zeros(c.size - |done|)
    ensures var start := StartIndex(c);
      var n := Min(c.size - c.index, 1024 - start);
      && got == Slice(chunk, start, start + n) && rest == c.size - c.index - n
      && Absorb(c, chunk) == Content(c.size, done + got + Zeros(rest), c.index + n)
  {
    var start := StartIndex(c);
    var n := Min(c.size - c.index, 1024 - start);
    got := Slice(chunk, start, start + n);
    rest := c.size - c.index - n;
    assert Zeros(c.size - |done|) == Zeros(n) + Zeros(rest);
    assert done + (Zeros(n) + Zeros(rest)) == done + Zeros(n) + Zeros(rest);
    SliceAssignMiddle(done, Zeros(n), Zeros(rest), got);
  }

  /** A piece that ends too early leaves a hole in the content, or a content that is too short. */
  lemma ShortPiece(content: Bytes, chunks: seq<Bytes>, k: nat)
    requires k < NumFrames(44 + |content|) && |ChunkAt(chunks, k)| < Need(|content|, k)
    requires k == 0 ==> |ChunkAt(chunks, k)| >= 44
    requires 0 !in content
    ensures AbsorbFrom(PartlyReceived(content, k), chunks, k) != content
  {
    var c, chunk := PartlyReceived(content, k), ChunkAt(chunks, k);
    var done := content[..Cursor(|content|, k)];
    CursorStep(|content|, k);
    var got, rest := AbsorbShort(c, done, chunk);
    GotTooLittle(|content|, k, chunk);
    hide *;
    HoleShows(c, chunks, k, done + got, rest, content);
  }

  lemma GotTooLittle(n: nat, k: nat, chunk: Bytes)
    requires k < NumFrames(44 + n) && |chunk| < Need(n, k) && (k == 0 ==> |chunk| >= 44)
    ensures var start, i := if k == 0 then 44 else 0, Cursor(n, k);
      |Slice(chunk, start, start + Min(n - i, 1024 - start))| < Min(n - i, 1024 - start)
  {
  }

  lemma HoleShows(c: Content, chunks: seq<Bytes>, k: nat, whole: Bytes, rest: nat, content: Bytes)
    requires c.index <= c.size == |content| && 0 !in content
    requires var c' := Absorb(c, ChunkAt(chunks, k)); |whole| < c'.index && c'.payload == whole + Zeros(rest) && rest == c.size - c'.index
    ensures AbsorbFrom(c, chunks, k) != content
  {
    var c' := Absorb(c, ChunkAt(chunks, k));
    hide Absorb, ChunkAt;
    if rest > 0 {
      assert c'.payload[|whole|] == 0;
      HoleStays(c', chunks, k + 1, |whole|);
      assert content[|whole|] in content;
    }
  }

  /** The first piece that is too short. */
  lemma {:induction false} FirstShort(sizes: seq<nat>, n: nat, from: nat) returns (k: nat)
    requires from < NumFrames(44 + n) && from <= |sizes| && !WholeFrames(sizes, n)
    requires (forall i :: 0 <= i < from ==> sizes[i] == 1024) && forall i :: 0 <= i < |sizes| ==> sizes[i] <= 1024
    ensures k < NumFrames(44 + n) && k <= |sizes| && (forall i :: 0 <= i < k ==> sizes[i] == 1024)
    ensures k < |sizes| ==> sizes[k] < Need(n, k)
    decreases NumFrames(44 + n) - from
  {
    if from == |sizes| || sizes[from] < Need(n, from) {
      k := from;
    } else {
      assert from + 1 < NumFrames(44 + n);
      k := FirstShort(sizes, n, from + 1);
    }
  }

  // ---------- The whole request ----------

  function WithContent<Id>(e: Envelope<Id>, content: Bytes): Envelope<Id>
    requires e.request.SendMessage?
  {
    e.(request := SendMessage(e.request.dest, e.request.messageType, content))
  }

  /** What the server reads of a client's request that recv returns in these pieces. */
  function ReadInPieces(e: Envelope<HexId>, sizes: seq<nat>): Result<Envelope<Uuid>, RequestError>
    requires Writable(e.request)
  {
    Receive(Pieces(Flatten(RequestFrames(e)), sizes))
  }

  /** A first piece with the fields before the content reads like the first frame. */
  lemma FirstPiece(u: Envelope<Uuid>, size: nat)
    requires Writable(u.request) && u.request.SendMessage? && 44 <= size <= 1024
    ensures var chunk := Frames(RequestStream(u))[0][..size];
      && GetRequestParser(chunk) == Success(Header(u.clientId, u.version, 1103, RequestPayloadSize(u.request)))
      && chunk[23..39] == u.request.dest && chunk[39] == u.request.messageType && FromLE(chunk[40..44]) == |u.request.content|
  {
    HeaderReadBack(u);
    FieldsReadBack(u);
    var f := Frames(RequestStream(u))[0];
    var chunk := f[..size];
    hide FromLE, RequestStream, Frames;
    assert chunk[..16] == f[..16] && chunk[17..19] == f[17..19] && chunk[19..23] == f[19..23];
    assert chunk[23..39] == f[23..39] && chunk[40..44] == f[40..44];
  }

  lemma StreamOf(u: Envelope<Uuid>) returns (fields: Bytes)
    requires Writable(u.request) && u.request.SendMessage?
    ensures |fields| == 44 && RequestStream(u) == fields + u.request.content
  {
    hide RequestHeader, LE;
    var SendMessage(dest, messageType, content) := u.request;
    fields := RequestHeader(u.clientId, u.version, RequestCode(u.request), RequestPayloadSize(u.request)) + dest + LE(messageType, 1) + LE(|content|, 4);
    assert RequestStream(u) == fields + content;
  }

  lemma ReadContent(e: Envelope<HexId>, sizes: seq<nat>, chunks: seq<Bytes>)
    requires Writable(e.request) && e.request.SendMessage? && forall i :: 0 <= i < |sizes| ==> sizes[i] <= 1024
    requires chunks == Pieces(Flatten(RequestFrames(e)), sizes)
    ensures var first := ChunkAt(chunks, 0);
      if |first| < 44 then Receive(chunks).Failure? || !Receive(chunks).value.request.SendMessage?
      else Receive(chunks) == Success(WithContent(UnHexEnvelope(e), AbsorbFrom(FreshContent(|e.request.content|), chunks, 0)))
  {
    var u := UnHexEnvelope(e);
    var fields := StreamOf(u);
    PieceAfterFrames(RequestStream(u), sizes, 0);
    if |ChunkAt(chunks, 0)| >= 44 {
      FirstPiece(u, sizes[0]);
    }
    hide GetRequestParser, AbsorbFrom, Pieces, Flatten, FromLE, UnHex, RequestStream, ChunkAt;
  }

  /** A request received in whole frames is read as it was sent. */
  lemma WholeIsRead(e: Envelope<HexId>, sizes: seq<nat>)
    requires Writable(e.request) && e.request.SendMessage? && forall i :: 0 <= i < |sizes| ==> sizes[i] <= 1024
    requires WholeFrames(sizes, |e.request.content|)
    ensures ReadInPieces(e, sizes) == Success(UnHexEnvelope(e))
  {
    var u := UnHexEnvelope(e);
    var fields := StreamOf(u);
    ReadContent(e, sizes, Pieces(Flatten(RequestFrames(e)), sizes));
    AbsorbLast(fields, e.request.content, sizes);
    PieceAfterFrames(RequestStream(u), sizes, 0);
    hide AbsorbFrom, Pieces, Flatten, UnHex, RequestStream, Receive;
  }

  /** A content without zeros is read as it was sent only if it was received in whole frames. */
  lemma OnlyWholeIsRead(e: Envelope<HexId>, sizes: seq<nat>)
    requires Writable(e.request) && e.request.SendMessage? && forall i :: 0 <= i < |sizes| ==> sizes[i] <= 1024
    requires 0 !in e.request.content && ReadInPieces(e, sizes) == Success(UnHexEnvelope(e))
    ensures WholeFrames(sizes, |e.request.content|)
  {
    var u, content := UnHexEnvelope(e), e.request.content;
    var fields := StreamOf(u);
    var chunks := Pieces(Flatten(RequestFrames(e)), sizes);
    ReadContent(e, sizes, chunks);
    hide AbsorbFrom, Pieces, Flatten, UnHex, RequestStream, Receive, WholeFrames;
    if !WholeFrames(sizes, |content|) {
      var k := FirstShort(sizes, |content|, 0);
      AbsorbWhole(fields, content, sizes, k);
      PieceAfterFrames(fields + content, sizes, k);
      ShortPiece(content, chunks, k);
    }
  }

  /**
   Which divisions of the stream the receive loop copes with: for pieces of at most 1024 bytes, every content of n bytes is
   read as it was sent if and only if each piece before the last needed one is a whole frame and that one covers the rest.
   */
  lemma ReadWholeIffWholeFrames(e: Envelope<HexId>, n: nat, sizes: seq<nat>)
    requires e.request.SendMessage? && n < 0x1_0000_0000 && forall i :: 0 <= i < |sizes| ==> sizes[i] <= 1024
    ensures (forall content: Bytes :: |content| == n ==> ReadInPieces(WithContent(e, content), sizes) == Success(UnHexEnvelope(WithContent(e, content))))
       <==> WholeFrames(sizes, n)
  {
    hide ReadInPieces, WholeFrames, UnHex;
    if WholeFrames(sizes, n) {
      forall content: Bytes | |content| == n ensures ReadInPieces(WithContent(e, content), sizes) == Success(UnHexEnvelope(WithContent(e, content))) {
        WholeIsRead(WithContent(e, content), sizes);
      }
    }
    var ones: Bytes := seq(n, _ => 1);
    if ReadInPieces(WithContent(e, ones), sizes) == Success(UnHexEnvelope(WithContent(e, ones))) {
      OnlyWholeIsRead(WithContent(e, ones), sizes);
    }
  }
}
