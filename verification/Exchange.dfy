/**
 One exchange over the wire: the client's writer, the server's session and the client's reader, composed.
 The framed exchange refines one atomic call of the manager.
 */
module Exchange {
  import opened Wrappers
  import opened Bytes
  import opened Framing
  import opened Protocol
  import opened RequestWriter
  import opened RequestReader
  import opened ResponseReader
  import opened ResponseWriter
  import opened ResponseRoundTrip
  import opened Storage
  import opened Manager
  import opened Server
  import Delivery

  /** The request as the client means it: the server sees names without the zeros at their end. */
  function Intended(e: Envelope<HexId>): Envelope<Uuid> {
    Envelope(UnHex(e.clientId), e.version, if e.request.Register? then Register(RStrip(e.request.userName), e.request.publicKey) else UnHexRequest(e.request))
  }

  function Arrived(e: Envelope<HexId>, k: nat): Result<Envelope<Uuid>, RequestError> {
    if k == 0 then Failure(NoData) else Success(Received(e, k))
  }

  lemma ReceivedWhole(e: Envelope<HexId>, k: nat)
    requires Writable(e.request) && k >= |RequestFrames(e)|
    ensures k > 0 && Received(e, k) == Intended(e)
  {
    hide RStrip, UnHex, LE;
    if e.request.SendMessage? {
      var u := UnHexEnvelope(e);
      assert |RequestStream(u)| == 44 + |e.request.content|;
    }
  }

  /** What the client decodes from the first j frames of what the server sent. */
  lemma SentDecodes(db: Db, response: Response, env: Env, j: nat)
    requires SizeExact(response)
    ensures var o := Respond(db, response, env);
      && (o.complete <==> Encodable(response) && env.sendsBeforeFailure >= |ResponseFrames(response)|)
      && (o.complete ==> o.sent == ResponseFrames(response))
      && (j <= |o.sent| ==> DecodeFrames(o.sent[..j]) == if o.complete && j == |o.sent| then Success((View(response), j)) else Failure(EndOfFile))
  {
    hide ResponseFrames, Encodable, SizeExact, DecodeFrames, View, WithoutIds, Ids;
    var o := Respond(db, response, env);
    if Encodable(response) {
      var frames := ResponseFrames(response);
      assert o.sent <= frames;
      if j <= |o.sent| {
        assert o.sent[..j] == frames[..j];
        ReadWhatWasWritten(response, j);
      }
    } else if j <= |o.sent| {
      DecodeNothing(o.sent[..j]);
    }
  }

  lemma DecodeNothing(frames: seq<Frame>)
    requires frames == []
    ensures DecodeFrames(frames) == Failure(EndOfFile)
  {
  }

  /** A session on the first k frames of a client's request: the server handles what arrived, the client decodes what was handled. */
  lemma FramedSession(db: Db, e: Envelope<HexId>, k: nat, env: Env, j: nat)
    requires Writable(e.request) && k <= |RequestFrames(e)|
    ensures var o := Session(db, RequestFrames(e)[..k], env);
      && o == Serve(db, Arrived(e, k), env)
      && (j <= |o.sent| ==> DecodeFrames(o.sent[..j]) == if o.complete && j == |o.sent| then Success((View(o.response), j)) else Failure(EndOfFile))
  {
    ReceiveFrames(e, k);
    Delivery.SessionEffect(db, RequestFrames(e)[..k], env);
    hide Receive, Received, RequestFrames, Handle, Respond, SizeExact, DecodeFrames, View;
    var request := Arrived(e, k);
    match request
    case Failure(_) =>
      Delivery.RespondEffect(db, GeneralError, env);
      SentDecodes(db, GeneralError, env, j);
    case Success(q) =>
      var (db', response) := Handle(db, q, env.uuid4);
      Delivery.RespondEffect(db', response, env);
      SentDecodes(db', response, env, j);
  }

  /**
   Byte-level refinement: running a request through frames, buffers and cursors on both sides changes the tables as the
   atomic call does, and gives the client the atomic call's response exactly when that response can be packed and sent.
   */
  lemma ByteLevelRefinement(db: Db, e: Envelope<HexId>, env: Env)
    requires Writable(e.request)
    ensures var (db', response) := Handle(db, Intended(e), env.uuid4);
      var o := Session(db, RequestFrames(e), env);
      var delivered := Encodable(response) && env.sendsBeforeFailure >= |ResponseFrames(response)|;
      && o.response == response
      && o.db == (if delivered && response.MessagesPulled? && env.deleteWorks then db'.(messages := WithoutIds(db'.messages, Ids(response.messages))) else db')
      && DecodeFrames(o.sent) == if delivered then Success((View(response), |ResponseFrames(response)|)) else Failure(EndOfFile)
  {
    var k := |RequestFrames(e)|;
    assert RequestFrames(e)[..k] == RequestFrames(e);
    ReceivedWhole(e, k);
    hide RequestFrames, Received, Intended, Handle, DecodeFrames, View, Encodable, ResponseFrames, WithoutIds, Ids;
    var (db', response) := Handle(db, Intended(e), env.uuid4);
    var o := Session(db, RequestFrames(e), env);
    FramedSession(db, e, k, env, |o.sent|);
    assert o == Respond(db', response, env);
    assert o.sent[..|o.sent|] == o.sent;
  }

  /**
   A content in the last 25 sizes that the client can send is accepted and stored, where the table itself sets no limit, and
   then blocks its receiver's queue for good: it is never deleted nor completely sent, and neither is anything saved for that
   client after it.
   */
  lemma OversizedBlocks(hs: seq<Delivery.History>, vs: seq<Delivery.Visit>, i: nat, j: nat, e: Envelope<HexId>, env: Env)
    requires Delivery.IsRun(hs, vs) && i < j <= |vs|
    requires Writable(e.request) && e.request.SendMessage? && !FourBytes(25 + |e.request.content|)
    requires vs[i] == Delivery.Visit(RequestFrames(e), env)
    requires HasClient(hs[i].db, UnHex(e.clientId)) && HasClient(hs[i].db, UnHex(e.request.dest))
    ensures var to := UnHex(e.request.dest);
      var b, saved, stored := |QueueOf(hs[i].saved, to)|, QueueOf(hs[j].saved, to), QueueOf(hs[j].db.messages, to);
      && b < |saved| && saved[b].from == UnHex(e.clientId) && saved[b].content == e.request.content
      && |saved| - b <= |stored| && stored[|stored| - (|saved| - b)..] == saved[b..]
      && forall m :: m in saved[b..] ==> !Delivery.EverSent(hs[j], m)
  {
    hide *;
    Delivery.RunStep(hs, vs, i);
    var m := StoredMessage(hs[i].db.lastId + 1, UnHex(e.request.dest), UnHex(e.clientId), e.request.messageType, e.request.content);
    TooBig(m);
    MessageQueued(hs, vs, i, e, env, m);
    Delivery.BlockedForGood(hs, vs, i + 1, j, m.to, |QueueOf(hs[i].saved, m.to)|);
  }

  lemma TooBig(m: StoredMessage)
    requires !FourBytes(25 + |m.content|)
    ensures !Delivery.Deliverable(m)
  {
  }

  lemma MessageQueued(hs: seq<Delivery.History>, vs: seq<Delivery.Visit>, i: nat, e: Envelope<HexId>, env: Env, m: StoredMessage)
    requires Delivery.IsRun(hs, vs) && i < |vs| && Writable(e.request) && e.request.SendMessage? && vs[i] == Delivery.Visit(RequestFrames(e), env)
    requires HasClient(hs[i].db, UnHex(e.clientId)) && HasClient(hs[i].db, UnHex(e.request.dest))
    requires m == StoredMessage(hs[i].db.lastId + 1, UnHex(e.request.dest), UnHex(e.clientId), e.request.messageType, e.request.content)
    ensures var b, queue := |QueueOf(hs[i].saved, m.to)|, QueueOf(hs[i + 1].saved, m.to);
      |queue| == b + 1 && queue[b] == m
  {
    assert hs[i + 1] == Delivery.AfterVisit(hs[i], vs[i]);
    hide *;
    Delivery.AlwaysConsistent(hs, vs, i);
    MessageSaved(hs[i], e, env, m);
    Delivery.QueueOfConcat(hs[i].saved, [m], m.to);
    OneInQueue(m);
  }

  lemma OneInQueue(m: StoredMessage)
    ensures QueueOf([m], m.to) == [m]
  {
    assert [m][..0] == [];
  }

  /** An honest message between registered clients is saved whole. */
  lemma MessageSaved(h: Delivery.History, e: Envelope<HexId>, env: Env, m: StoredMessage)
    requires Consistent(h.db) && Writable(e.request) && e.request.SendMessage?
    requires HasClient(h.db, UnHex(e.clientId)) && HasClient(h.db, UnHex(e.request.dest))
    requires m == StoredMessage(h.db.lastId + 1, UnHex(e.request.dest), UnHex(e.clientId), e.request.messageType, e.request.content)
    ensures Delivery.AfterVisit(h, Delivery.Visit(RequestFrames(e), env)).saved == h.saved + [m]
  {
    hide Session, RequestFrames, UnHex, HasClient, UniqueRows, Writable, Delivery.Saves;
    SessionSaves(h.db, e, env, m);
    Delivery.SinceOne(h.db, Session(h.db, RequestFrames(e), env).db, m);
  }

  lemma SessionSaves(db: Db, e: Envelope<HexId>, env: Env, m: StoredMessage)
    requires Writable(e.request) && e.request.SendMessage? && HasClient(db, UnHex(e.clientId)) && HasClient(db, UnHex(e.request.dest))
    requires m == StoredMessage(db.lastId + 1, UnHex(e.request.dest), UnHex(e.clientId), e.request.messageType, e.request.content)
    ensures Delivery.Saves(db, Session(db, RequestFrames(e), env).db, m)
  {
    ByteLevelRefinement(db, e, env);
    HandleSaves(db, e, env.uuid4, m);
    hide Session, RequestFrames, UnHex, HasClient, ResponseFrames, DecodeFrames, View, Encodable, Handle, Intended, WithoutIds, Ids;
  }

  lemma HandleSaves(db: Db, e: Envelope<HexId>, freshId: Uuid, m: StoredMessage)
    requires e.request.SendMessage? && HasClient(db, UnHex(e.clientId)) && HasClient(db, UnHex(e.request.dest))
    requires m == StoredMessage(db.lastId + 1, UnHex(e.request.dest), UnHex(e.clientId), e.request.messageType, e.request.content)
    ensures Handle(db, Intended(e), freshId) == (db.(messages := db.messages + [m], lastId := m.id), MessageSent(m.to, m.id))
  {
    hide UnHex, HasClient;
  }

  /** TCPNetworkClientManager::HandleRequest against the running server, with every frame arriving. */
  method HandleRequest(server: MessageUServer, e: Envelope<HexId>, env: Env) returns (r: Result<Decoded, ResponseError>)
    requires Writable(e.request)
    modifies server.manager.storage
    ensures var (db', response) := Handle(old(server.manager.storage.View()), Intended(e), env.uuid4);
      var delivered := Encodable(response) && env.sendsBeforeFailure >= |ResponseFrames(response)|;
      && server.manager.storage.View() == (if delivered && response.MessagesPulled? && env.deleteWorks then db'.(messages := WithoutIds(db'.messages, Ids(response.messages))) else db')
      && r == if delivered then Success(View(response)) else Failure(EndOfFile)
  {
    hide Handle, Session, RequestFrames, DecodeFrames, View, Encodable, ResponseFrames, Intended, WithoutIds;
    ghost var db := server.manager.storage.View();
    ByteLevelRefinement(db, e, env);
    var request := new ServerRequest(e);
    var frames := WriteRequest(request);
    var replies := server.HandleSession(frames, env);
    var decoded := ReadResponse(replies);
    if decoded.Failure? {
      return Failure(decoded.error);
    }
    r := Success(decoded.value.0);
  }
}
