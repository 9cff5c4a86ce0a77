/** Undisturbed rounds: a client runs one command, everything arrives, and the response is handled. */
module Rounds {
  import opened Wrappers
  import opened Bytes
  import opened Protocol
  import opened Records
  import opened RequestReader
  import opened ResponseWriter
  import opened ResponseRoundTrip
  import opened Storage
  import opened Manager
  import opened Server
  import opened Exchange
  import opened DataManager
  import opened Client
  import opened Runs
  import opened Registration
  import opened KeyAgreement
  import opened Delivery

  // ---------- One undisturbed exchange ----------

  /** The three steps in which host i runs a command and nothing goes wrong. */
  function RoundSteps(w: World, i: nat, cmd: Command, rnd: Random, e: Envelope<HexId>, response: Response, uuid: Uuid): seq<Step>
    requires Writable(e.request)
  {
    var n := |ResponseFrames(response)|;
    [Issue(i, cmd, rnd), Step.Serve(|w.connections|, |RequestFrames(e)|, Env(uuid, n, true)), Deliver(i, n)]
  }

  /** Host i is idle, and its command succeeds. */
  ghost predicate CanIssue(w: World, i: nat, cmd: Command, rnd: Random, e: Envelope<HexId>, c: Crypto) {
    && i < |w.hosts| && w.hosts[i].waitingFor.None? && Accepted(w.hosts[i].process, cmd)
    && CreateRequest(w.hosts[i].process.state, cmd, rnd, c).1 == Success(e) && Writable(e.request)
  }

  /** The tables and host i after the round; every other host stays. */
  ghost predicate AfterRound(w: World, w': World, i: nat, db: Db, process: Process)
    requires i < |w.hosts|
  {
    && w'.db == db && |w'.hosts| == |w.hosts|
    && w'.hosts[i].process == process && w'.hosts[i].waitingFor.None?
    && forall x :: 0 <= x < |w.hosts| && x != i ==> w'.hosts[x] == w.hosts[x]
  }

  lemma {:induction false} AtomicRunConcat(w: World, steps: seq<Step>, more: seq<Step>, c: Crypto)
    ensures AtomicRun(w, steps + more, c) == AtomicRun(AtomicRun(w, steps, c), more, c)
  {
    if more == [] {
      assert steps + more == steps;
    } else {
      hide AtomicNext;
      assert (steps + more)[..|steps + more| - 1] == steps + more[..|more| - 1];
      AtomicRunConcat(w, steps, more[..|more| - 1], c);
    }
  }

  lemma ThreeSteps(w: World, a: Step, b: Step, d: Step, c: Crypto)
    ensures AtomicRun(w, [a, b, d], c) == AtomicNext(AtomicNext(AtomicNext(w, a, c), b, c), d, c)
  {
    hide AtomicNext;
    assert [a, b, d][..2] == [a, b] && [a, b][..1] == [a] && [a][..0] == [];
    assert AtomicRun(w, [a], c) == AtomicNext(w, a, c);
    assert AtomicRun(w, [a, b], c) == AtomicNext(AtomicRun(w, [a], c), b, c);
  }

  /** The tables once a response has been sent completely and what it delivered has been deleted. */
  function Settled(db: Db, response: Response): Db {
    if response.MessagesPulled? then db.(messages := WithoutIds(db.messages, Ids(response.messages))) else db
  }

  /** A session in which everything arrives answers with the atomic call's response, completely. */
  lemma UndisturbedServe(db: Db, e: Envelope<HexId>, uuid: Uuid, db': Db, response: Response)
    requires Writable(e.request) && Handle(db, Intended(e), uuid) == (db', response) && Encodable(response)
    ensures Server.Serve(db, Arrived(e, |RequestFrames(e)|), Env(uuid, |ResponseFrames(response)|, true))
         == Outcome(Settled(db', response), response, ResponseFrames(response), true)
  {
    ReceivedWhole(e, |RequestFrames(e)|);
    hide Handle, Intended, Encodable, ResponseFrames, RequestFrames, Received, Writable, WithoutIds, Ids;
  }

  lemma Round(w: World, i: nat, cmd: Command, rnd: Random, e: Envelope<HexId>, uuid: Uuid, db': Db, response: Response, c: Crypto)
    requires CanIssue(w, i, cmd, rnd, e, c)
    requires Handle(w.db, Intended(e), uuid) == (db', response) && Encodable(response)
    ensures var st' := CreateRequest(w.hosts[i].process.state, cmd, rnd, c).0;
      var (st'', shown) := HandleResponse(st', View(response), c);
      AfterRound(w, AtomicRun(w, RoundSteps(w, i, cmd, rnd, e, response, uuid), c), i, Settled(db', response),
        Process(st'', w.hosts[i].process.isUserRegistered || shown == Success(Registration)))
  {
    hide CreateRequest, HandleResponse, Handle, Intended, Encodable, View, Accepted, Writable, PlainOf, Settled;
    var steps := RoundSteps(w, i, cmd, rnd, e, response, uuid);
    var n := |w.connections|;
    var w1 := IssueStep(w, i, cmd, rnd, c);
    assert AtomicNext(w, steps[0], c) == w1;
    var o := Outcome(Settled(db', response), response, ResponseFrames(response), true);
    UndisturbedServe(w.db, e, uuid, db', response);
    hide ResponseFrames, RequestFrames, Arrived, Server.Serve;
    assert w1.connections[n] == Connection(i, e, PlainOf(cmd), None);
    var w2 := ServeStep(w1, n, true, o);
    assert AtomicNext(w1, steps[1], c) == w2;
    var w3 := DeliverStep(w2, i, Reply(o, |o.sent|), c);
    assert AtomicNext(w2, steps[2], c) == w3;
    hide AtomicNext, Enabled;
    ThreeSteps(w, steps[0], steps[1], steps[2], c);
  }

  // ---------- The rounds of the run ----------

  /** Host i is the idle registered client u. */
  ghost predicate Idle(w: World, i: nat, u: Uuid) {
    i < |w.hosts| && w.hosts[i].waitingFor.None? && w.hosts[i].process.state.clientId == Some(Hex(u)) && HasClient(w.db, u)
  }

  /** It knows the client v as `name`, with v's public key as given, and has no symmetric key for it. */
  ghost predicate Knows(w: World, i: nat, name: Bytes, v: Uuid, publicKey: Bytes)
    requires i < |w.hosts|
  {
    var st := w.hosts[i].process.state;
    name in st.names && st.names[name] == Hex(v) && Hex(v) in st.peers && st.peers[Hex(v)] == Peer(name, publicKey, [])
  }

  /** Host i registers under a name and an id that are new. */
  lemma RegisterRound(w: World, i: nat, name: Bytes, uuid: Uuid, rnd: Random, keys: seq<Bytes>, c: Crypto) returns (steps: seq<Step>)
    requires Keys(keys, c) && Lawful(c) && i < |w.hosts| && i < |keys|
    requires w.hosts[i].waitingFor.None? && !w.hosts[i].process.isUserRegistered && w.hosts[i].process.state.privateKey == keys[i]
    requires 0 < |name| <= 254 && name[|name| - 1] != 0 && !HasName(w.db, name) && !HasClient(w.db, uuid)
    ensures AfterRound(w, AtomicRun(w, steps, c), i, w.db.(clients := w.db.clients + [ClientRow(uuid, name, c.publicKeyOf(keys[i]))]),
      Process(w.hosts[i].process.state.(userName := name, clientId := Some(Hex(uuid))), true))
  {
    var cmd := RegisterUser(name);
    var e := Envelope(FAKE_ID, CLIENT_VERSION, Register(name, c.publicKeyOf(keys[i])));
    var response := RegisterSuccess(uuid);
    assert |c.publicKeyOf(keys[i])| == 160;
    RStripKeeps(name);
    hide Lawful, Keys, RStrip, UnHex, Hex, AtomicRun;
    steps := RoundSteps(w, i, cmd, rnd, e, response, uuid);
    var db' := w.db.(clients := w.db.clients + [ClientRow(uuid, name, c.publicKeyOf(keys[i]))]);
    assert Handle(w.db, Intended(e), uuid) == (db', response);
    hide Handle, AfterRound, RoundSteps;
    Round(w, i, cmd, rnd, e, uuid, db', response, c);
  }

  /** Host i asks for the client list. */
  lemma ListRound(w: World, i: nat, u: Uuid, rnd: Random, c: Crypto) returns (steps: seq<Step>)
    requires i < |w.hosts| && w.hosts[i].waitingFor.None? && w.hosts[i].process.state.clientId == Some(Hex(u)) && HasClient(w.db, u)
    requires FourBytes(271 * |OtherClients(w.db.clients, u)|)
    ensures var st := w.hosts[i].process.state;
      AfterRound(w, AtomicRun(w, steps, c), i, w.db,
        w.hosts[i].process.(state := InsertClients(st, ListedClients(EntriesOf(OtherClients(w.db.clients, u))))))
  {
    hide *;
    var e := Envelope(Hex(u), CLIENT_VERSION, ListClients);
    var response := Response.ClientsList(OtherClients(w.db.clients, u));
    ListAnswered(w.db, u);
    ListIssued(w, i, u, rnd, c);
    SettledSame(w.db, response);
    steps := RoundSteps(w, i, Command.ClientsList, rnd, e, response, u);
    Round(w, i, Command.ClientsList, rnd, e, u, w.db, response, c);
    ListHandled(w.hosts[i].process.state, OtherClients(w.db.clients, u), c);
  }

  lemma ListAnswered(db: Db, u: Uuid)
    requires HasClient(db, u) && FourBytes(271 * |OtherClients(db.clients, u)|)
    ensures var response := Response.ClientsList(OtherClients(db.clients, u));
      Handle(db, Intended(Envelope(Hex(u), CLIENT_VERSION, ListClients)), u) == (db, response) && Encodable(response)
  {
    UnHexOfHex(u);
    FourBytesBound(271 * |OtherClients(db.clients, u)|);
    hide UnHex, Hex, HasClient, OtherClients, FourBytes;
  }

  lemma ListIssued(w: World, i: nat, u: Uuid, rnd: Random, c: Crypto)
    requires i < |w.hosts| && w.hosts[i].waitingFor.None? && w.hosts[i].process.state.clientId == Some(Hex(u))
    ensures var st, e := w.hosts[i].process.state, Envelope(Hex(u), CLIENT_VERSION, ListClients);
      CreateRequest(st, Command.ClientsList, rnd, c) == (st, Success(e)) && CanIssue(w, i, Command.ClientsList, rnd, e, c) && Writable(e.request)
  {
    hide Hex;
  }

  lemma ListHandled(st: ClientState, list: seq<(Uuid, Bytes)>, c: Crypto)
    ensures var (st', shown) := HandleResponse(st, View(Response.ClientsList(list)), c);
      st' == InsertClients(st, ListedClients(EntriesOf(list))) && shown != Success(Registration)
  {
    hide InsertClients, Hex, CString, PadTo;
  }

  /** Host i asks for the public key of the client with id v, which it knows as `target`. */
  lemma KeyRound(w: World, i: nat, u: Uuid, target: Bytes, v: Uuid, rnd: Random, c: Crypto) returns (steps: seq<Step>)
    requires i < |w.hosts| && w.hosts[i].waitingFor.None? && w.hosts[i].process.state.clientId == Some(Hex(u)) && HasClient(w.db, u)
    requires |target| <= 254 && PublicKeyOf(w.db.clients, v).Some? && |PublicKeyOf(w.db.clients, v).value| == 160
    requires var st := w.hosts[i].process.state; target in st.names && st.names[target] == Hex(v) && Hex(v) in st.peers
    ensures var st := w.hosts[i].process.state;
      AfterRound(w, AtomicRun(w, steps, c), i, w.db, w.hosts[i].process.(state := SetPublicKey(st, Hex(v), PublicKeyOf(w.db.clients, v).value)))
  {
    hide *;
    var st := w.hosts[i].process.state;
    var key := PublicKeyOf(w.db.clients, v).value;
    var cmd := RequestPublicKey(target);
    var e := Envelope(Hex(u), CLIENT_VERSION, GetPublicKey(Hex(v)));
    var response := PublicKeySuccess(v, key);
    KeyAnswered(w.db, u, v);
    KeyStored(st, v, key, c);
    KeyIssued(w, i, cmd, rnd, e, c, st);
    SettledSame(w.db, response);
    steps := RoundSteps(w, i, cmd, rnd, e, response, u);
    Round(w, i, cmd, rnd, e, u, w.db, response, c);
  }

  lemma KeyIssued(w: World, i: nat, cmd: Command, rnd: Random, e: Envelope<HexId>, c: Crypto, st: ClientState)
    requires i < |w.hosts| && w.hosts[i].waitingFor.None? && w.hosts[i].process.state == st && st.clientId == Some(e.clientId)
    requires cmd.RequestPublicKey? && |cmd.target| <= 254 && cmd.target in st.names
    requires e == Envelope(e.clientId, CLIENT_VERSION, GetPublicKey(st.names[cmd.target]))
    ensures CreateRequest(st, cmd, rnd, c) == (st, Success(e)) && CanIssue(w, i, cmd, rnd, e, c) && Writable(e.request)
  {
  }

  lemma KeyAnswered(db: Db, u: Uuid, v: Uuid)
    requires HasClient(db, u) && PublicKeyOf(db.clients, v).Some? && PublicKeyOf(db.clients, v).value != []
    ensures Handle(db, Intended(Envelope(Hex(u), CLIENT_VERSION, GetPublicKey(Hex(v)))), u) == (db, PublicKeySuccess(v, PublicKeyOf(db.clients, v).value))
    ensures Encodable(PublicKeySuccess(v, PublicKeyOf(db.clients, v).value))
  {
    UnHexOfHex(u);
    UnHexOfHex(v);
    hide UnHex, Hex, PublicKeyOf, HasClient;
  }

  lemma KeyStored(st: ClientState, v: Uuid, key: Bytes, c: Crypto)
    requires Hex(v) in st.peers && |key| == 160
    ensures HandleResponse(st, View(PublicKeySuccess(v, key)), c) == (SetPublicKey(st, Hex(v), key), Success(KeyRetrieved))
  {
    PadToSelf(key);
    hide Hex, PadTo, SetPublicKey;
  }

  /** Host i makes the key k for the client v, whose private key is `priv`, and sends it. */
  lemma SendKeyRound(w: World, i: nat, u: Uuid, name: Bytes, v: Uuid, priv: Bytes, rnd: Random, c: Crypto) returns (steps: seq<Step>, content: Bytes)
    requires Lawful(c) && c.isPrivateKey(priv) && Idle(w, i, u) && Knows(w, i, name, v, c.publicKeyOf(priv)) && HasClient(w.db, v)
    requires |name| <= 254 && w.db.lastId < 0xFFFF_FFFF
    ensures |content| == 128 && c.rsaDecrypt(priv, content) == Some(rnd.symmetricKey)
    ensures steps != [] && MakesKey(w, steps[0], i, Hex(v), c) && steps[0].rnd == rnd
    ensures var st := w.hosts[i].process.state;
      AfterRound(w, AtomicRun(w, steps, c), i,
        w.db.(messages := w.db.messages + [StoredMessage(w.db.lastId + 1, v, u, SEND_SYMMETRIC_KEY, content)], lastId := w.db.lastId + 1),
        w.hosts[i].process.(state := SetSymmetricKey(st, Hex(v), rnd.symmetricKey)))
  {
    hide *;
    var st', response;
    content, st', response := SendKeyIssued(w, i, u, name, v, priv, rnd, c);
    var cmd, e := SendSymmetricKey(name), KeyEnvelope(u, v, content);
    steps := RoundSteps(w, i, cmd, rnd, e, response, u);
    FirstStep(w, i, cmd, rnd, e, response, u);
    var db' := KeySaved(w.db, u, v, content);
    Round(w, i, cmd, rnd, e, u, db', response, c);
    SentShown(st', v, w.db.lastId + 1, c);
    SettledSame(db', response);
  }

  lemma FirstStep(w: World, i: nat, cmd: Command, rnd: Random, e: Envelope<HexId>, response: Response, uuid: Uuid)
    requires Writable(e.request)
    ensures var steps := RoundSteps(w, i, cmd, rnd, e, response, uuid); |steps| == 3 && steps[0] == Issue(i, cmd, rnd)
  {
    hide ResponseFrames, RequestFrames;
  }

  function KeyEnvelope(u: Uuid, v: Uuid, content: Bytes): Envelope<HexId> {
    Envelope(Hex(u), CLIENT_VERSION, SendMessage(Hex(v), SEND_SYMMETRIC_KEY, content))
  }

  lemma SendKeyIssued(w: World, i: nat, u: Uuid, name: Bytes, v: Uuid, priv: Bytes, rnd: Random, c: Crypto) returns (content: Bytes, st': ClientState, response: Response)
    requires Lawful(c) && c.isPrivateKey(priv) && Idle(w, i, u) && Knows(w, i, name, v, c.publicKeyOf(priv)) && |name| <= 254
    requires w.db.lastId < 0xFFFF_FFFF
    ensures |content| == 128 && c.rsaDecrypt(priv, content) == Some(rnd.symmetricKey)
    ensures Writable(KeyEnvelope(u, v, content).request) && HasClient(w.db, u)
    ensures response == MessageSent(v, w.db.lastId + 1) && Encodable(response)
    ensures var st, cmd, e := w.hosts[i].process.state, SendSymmetricKey(name), KeyEnvelope(u, v, content);
      && Hex(v) in st.peers && st' == SetSymmetricKey(st, Hex(v), rnd.symmetricKey)
      && CreateRequest(st, cmd, rnd, c) == (st', Success(e))
      && CanIssue(w, i, cmd, rnd, e, c) && MakesKey(w, Issue(i, cmd, rnd), i, Hex(v), c)
  {
    assert |c.publicKeyOf(priv)| == 160;
    var encrypted := c.rsaEncrypt(c.publicKeyOf(priv), rnd.symmetricKey, rnd.seed);
    assert encrypted.Some? && |encrypted.value| == 128 && c.rsaDecrypt(priv, encrypted.value) == Some(rnd.symmetricKey);
    content := encrypted.value;
    st' := SetSymmetricKey(w.hosts[i].process.state, Hex(v), rnd.symmetricKey);
    response := MessageSent(v, w.db.lastId + 1);
    hide Lawful, Hex, HasClient;
  }

  lemma SettledSame(db: Db, response: Response)
    requires !response.MessagesPulled?
    ensures Settled(db, response) == db
  {
  }

  lemma KeySaved(db: Db, u: Uuid, v: Uuid, content: Bytes) returns (db': Db)
    requires HasClient(db, u) && HasClient(db, v)
    ensures db' == db.(messages := db.messages + [StoredMessage(db.lastId + 1, v, u, SEND_SYMMETRIC_KEY, content)], lastId := db.lastId + 1)
    ensures Handle(db, Intended(KeyEnvelope(u, v, content)), u) == (db', MessageSent(v, db.lastId + 1))
  {
    UnHexOfHex(u);
    UnHexOfHex(v);
    hide UnHex, Hex, HasClient;
    db' := db.(messages := db.messages + [StoredMessage(db.lastId + 1, v, u, SEND_SYMMETRIC_KEY, content)], lastId := db.lastId + 1);
  }

  lemma SentShown(st: ClientState, v: Uuid, id: nat, c: Crypto)
    ensures HandleResponse(st, View(MessageSent(v, id)), c) == (st, Success(MessageAccepted))
  {
    hide Hex;
  }

  /** Host i pulls the one message m waiting for it, a key from the client v. */
  lemma PullKeyRound(w: World, i: nat, u: Uuid, v: Uuid, m: StoredMessage, k: Bytes, rnd: Random, c: Crypto) returns (steps: seq<Step>)
    requires Idle(w, i, u) && Hex(v) in w.hosts[i].process.state.peers && w.hosts[i].process.state.privateKey != []
    requires QueueOf(w.db.messages, u) == [m] && m.from == v && m.messageType == SEND_SYMMETRIC_KEY
    requires |m.content| == 128 && m.id < 0x1_0000_0000 && c.rsaDecrypt(w.hosts[i].process.state.privateKey, m.content) == Some(k)
    ensures var st := w.hosts[i].process.state;
      AfterRound(w, AtomicRun(w, steps, c), i, w.db.(messages := WithoutIds(w.db.messages, {m.id})), w.hosts[i].process.(state := SetSymmetricKey(st, Hex(v), k)))
  {
    hide *;
    var e := Envelope(Hex(u), CLIENT_VERSION, PullMessages);
    var response := MessagesPulled([m], 153);
    PullIssued(w, i, u, rnd, c);
    PullAnswered(w.db, u, m);
    PullHandled(w.hosts[i].process.state, m, k, c);
    steps := RoundSteps(w, i, RequestWaitingMessages, rnd, e, response, u);
    Round(w, i, RequestWaitingMessages, rnd, e, u, w.db, response, c);
  }

  lemma PullIssued(w: World, i: nat, u: Uuid, rnd: Random, c: Crypto)
    requires Idle(w, i, u)
    ensures i < |w.hosts|
    ensures var st, e := w.hosts[i].process.state, Envelope(Hex(u), CLIENT_VERSION, PullMessages);
      && CreateRequest(st, RequestWaitingMessages, rnd, c) == (st, Success(e)) && CanIssue(w, i, RequestWaitingMessages, rnd, e, c)
      && Writable(e.request) && HasClient(w.db, u)
  {
    hide Hex;
  }

  lemma PullAnswered(db: Db, u: Uuid, m: StoredMessage)
    requires HasClient(db, u) && QueueOf(db.messages, u) == [m] && |m.content| == 128 && m.id < 0x1_0000_0000
    ensures var response := MessagesPulled([m], 153);
      && Handle(db, Intended(Envelope(Hex(u), CLIENT_VERSION, PullMessages)), u) == (db, response)
      && Encodable(response) && Settled(db, response) == db.(messages := WithoutIds(db.messages, {m.id}))
  {
    UnHexOfHex(u);
    hide UnHex, Hex, HasClient, QueueOf, WithoutIds;
    assert [m][1..] == [];
    assert BudgetCount([m], 0) == 1 && Pulled(db, u) == [m];
    PackedSizeCons(m, []);
    assert [m] + [] == [m];
    assert Ids([m]) == {m.id} by {
      assert m in [m];
    }
    assert RecordsOf([m])[..0] == [];
  }

  lemma PullHandled(st: ClientState, m: StoredMessage, k: Bytes, c: Crypto)
    requires Hex(m.from) in st.peers && st.privateKey != [] && m.messageType == SEND_SYMMETRIC_KEY && c.rsaDecrypt(st.privateKey, m.content) == Some(k)
    ensures var (st', shown) := HandleResponse(st, View(MessagesPulled([m], 153)), c);
      st' == SetSymmetricKey(st, Hex(m.from), k) && shown != Success(Registration)
  {
    hide Hex;
    var rs := HexRecords(RecordsOf([m]));
    assert rs[..0] == [];
    assert HandleMessages(st, [], c) == (st, []);
    assert HandleMessages(st, rs, c).0 == HandleMessage(st, rs[0], c).0;
  }

  /** A round of host i that registers nobody leaves every other host as it is, and all idle. */
  lemma StillIdle(w: World, w': World, i: nat, x: nat, u: Uuid, db: Db, process: Process)
    requires i < |w.hosts| && AfterRound(w, w', i, db, process) && db.clients == w.db.clients && Idle(w, x, u)
    requires x == i ==> process.state.clientId == Some(Hex(u))
    ensures Idle(w', x, u) && (x != i ==> w'.hosts[x] == w.hosts[x])
  {
    HasClientGrows(w.db, w'.db, u);
    hide Hex, HasClient;
  }

  lemma OthersSnoc(rows: seq<ClientRow>, row: ClientRow, id: Uuid)
    ensures OtherClients(rows + [row], id) == OtherClients(rows, id) + if row.id == id then [] else [(row.id, row.name)]
  {
    assert (rows + [row])[..|rows|] == rows;
  }
}
