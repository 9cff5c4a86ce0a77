/** client/UserCommand.cpp, the handleResponse methods of client/ServerResponse.cpp, and one turn of client/MessageUClient.cpp. */
module Client {
  import opened Wrappers
  import opened Bytes
  import opened Framing
  import opened Protocol
  import opened Records
  import opened ResponseReader
  import opened DataManager
  import RequestWriter

  /** The crypto library, as functions; None where it throws. */
  datatype Crypto = Crypto(
    isPrivateKey: Bytes -> bool,
    publicKeyOf: Bytes -> Bytes,
    rsaEncrypt: (Bytes, Bytes, nat) -> Option<Bytes>,
    rsaDecrypt: (Bytes, Bytes) -> Option<Bytes>,
    aesEncrypt: (Bytes, Bytes) -> Bytes,
    aesDecrypt: (Bytes, Bytes) -> Option<Bytes>)

  /** Decryption inverts encryption; key and ciphertext sizes of 1024-bit RSA. Nothing is assumed about secrecy. */
  ghost predicate Lawful(c: Crypto) {
    && (forall priv :: c.isPrivateKey(priv) ==> |c.publicKeyOf(priv)| == 160)
    && (forall priv, x, seed :: c.isPrivateKey(priv) && |x| == 16 ==>
          var e := c.rsaEncrypt(c.publicKeyOf(priv), x, seed);
          e.Some? && |e.value| == 128 && c.rsaDecrypt(priv, e.value) == Some(x))
    && (forall key, x :: |key| == 16 ==> c.aesDecrypt(key, c.aesEncrypt(key, x)) == Some(x))
  }

  /** The laws can be met, so nothing proved from them is empty. */
  lemma LawsCanBeMet()
    ensures exists c :: Lawful(c)
  {
    var c := Crypto(
      priv => true,
      priv => Zeros(160),
      (pub, x, seed) => if |x| == 16 then Some(x + Zeros(112)) else None,
      (priv, e) => if |e| == 128 then Some(e[..16]) else None,
      (key, x) => x,
      (key, x) => Some(x));
    forall priv, x: Bytes, seed: nat | c.isPrivateKey(priv) && |x| == 16
      ensures var e := c.rsaEncrypt(c.publicKeyOf(priv), x, seed); e.Some? && |e.value| == 128 && c.rsaDecrypt(priv, e.value) == Some(x)
    {
      assert (x + Zeros(112))[..16] == x;
    }
    assert Lawful(c);
  }

  type AesKey = k: Bytes | |k| == 16 witness Zeros(16)

  /** The random choices a command may make. */
  datatype Random = Random(symmetricKey: AesKey, seed: nat)

  datatype Command =
    | RegisterUser(name: Bytes)
    | ClientsList
    | RequestPublicKey(target: Bytes)
    | RequestWaitingMessages
    | SendText(target: Bytes, text: Bytes)
    | SendRequestSymmetricKey(target: Bytes)
    | SendSymmetricKey(target: Bytes)
    | SendFileContent(target: Bytes, file: Option<Bytes>)

  /** The id a client must send before it has one. */
  const FAKE_ID: HexId := "CB10D6FB5FD741F39BE43BC3F0B7564C"

  // ---------- Building requests ----------

  function Own(st: ClientState, r: Request<HexId>): Envelope<HexId>
    requires st.clientId.Some?
  {
    Envelope(st.clientId.value, CLIENT_VERSION, r)
  }

  function Target(st: ClientState, name: Bytes): Result<HexId, ClientError> {
    if st.clientId.None? then Failure(NoClientId)
    else if name !in st.names then Failure(UserNotFound)
    else Success(st.names[name])
  }

  /** A text or file request: content encrypted with the target's symmetric key. */
  function EncryptedRequest(st: ClientState, name: Bytes, messageType: Byte, plain: Option<Bytes>, c: Crypto): Result<Envelope<HexId>, ClientError> {
    var id :- Target(st, name);
    if id !in st.peers then Failure(ClientNotFound)
    else if st.peers[id].symmetricKey == [] then Failure(NoSymmetricKey)
    else if |st.peers[id].symmetricKey| != 16 then Failure(BadKey)
    else if plain.None? then Failure(FileNotFound)
    else Success(Own(st, SendMessage(id, messageType, c.aesEncrypt(st.peers[id].symmetricKey, plain.value))))
  }

  /** SendSymmetricKeyUserCommand: the key is made once, and kept even when what follows fails. */
  function SymmetricKeyRequest(st: ClientState, name: Bytes, rnd: Random, c: Crypto): (ClientState, Result<Envelope<HexId>, ClientError>) {
    match Target(st, name)
    case Failure(e) => (st, Failure(e))
    case Success(id) =>
      if id !in st.peers then (st, Failure(ClientNotFound))
      else if st.peers[id].publicKey == [] then (st, Failure(NoPublicKey))
      else
        var st' := if st.peers[id].symmetricKey == [] then SetSymmetricKey(st, id, rnd.symmetricKey) else st;
        match c.rsaEncrypt(st.peers[id].publicKey, st'.peers[id].symmetricKey, rnd.seed)
        case None => (st', Failure(BadKey))
        case Some(content) => (st', Success(Own(st', SendMessage(id, SEND_SYMMETRIC_KEY, content))))
  }

  /** createServerRequest of the eight commands. */
  function CreateRequest(st: ClientState, cmd: Command, rnd: Random, c: Crypto): (ClientState, Result<Envelope<HexId>, ClientError>) {
    match cmd
    case RegisterUser(name) =>
      var st' := st.(userName := name);
      if st.privateKey == [] then (st', Failure(NoPrivateKey))
      else if !c.isPrivateKey(st.privateKey) then (st', Failure(BadKey))
      else (st', Success(Envelope(FAKE_ID, CLIENT_VERSION, Register(name, c.publicKeyOf(st.privateKey)))))
    case ClientsList => (st, if st.clientId.None? then Failure(NoClientId) else Success(Own(st, ListClients)))
    case RequestPublicKey(target) =>
      var id := Target(st, target);
      (st, if id.Failure? then Failure(id.error) else Success(Own(st, GetPublicKey(id.value))))
    case RequestWaitingMessages => (st, if st.clientId.None? then Failure(NoClientId) else Success(Own(st, PullMessages)))
    case SendText(target, text) => (st, EncryptedRequest(st, target, SEND_TEXT_MESSAGE, Some(text), c))
    case SendRequestSymmetricKey(target) =>
      var id := Target(st, target);
      (st, if id.Failure? then Failure(id.error) else Success(Own(st, SendMessage(id.value, REQUEST_SYMMETRIC_KEY, []))))
    case SendSymmetricKey(target) => SymmetricKeyRequest(st, target, rnd, c)
    case SendFileContent(target, file) => (st, EncryptedRequest(st, target, SEND_FILE, file, c))
  }

  // ---------- Handling responses ----------

  datatype Body = KeyRequest | KeyReceived | CantDecrypt | Text(plain: Bytes) | File(plain: Bytes) | Nothing

  /** What is displayed for one pulled message. */
  datatype Item = UnknownUserId | From(name: Bytes, body: Body)

  /** decrypteMessage, with its exceptions caught. */
  function Decrypt(key: Bytes, content: Bytes, c: Crypto): Option<Bytes> {
    if |key| != 16 then None else c.aesDecrypt(key, content)
  }

  function HandleMessage(st: ClientState, m: Record<HexId>, c: Crypto): (ClientState, Item) {
    if m.from !in st.peers then (st, UnknownUserId)
    else
      var peer := st.peers[m.from];
      if m.messageType == REQUEST_SYMMETRIC_KEY then (st, From(peer.name, KeyRequest))
      else if m.messageType == SEND_SYMMETRIC_KEY then
        var key := if st.privateKey == [] then None else c.rsaDecrypt(st.privateKey, m.content);
        if key.None? then (st, From(peer.name, CantDecrypt))
        else (SetSymmetricKey(st, m.from, key.value), From(peer.name, KeyReceived))
      else if m.messageType == SEND_TEXT_MESSAGE || m.messageType == SEND_FILE then
        var plain := Decrypt(peer.symmetricKey, m.content, c);
        (st, From(peer.name, if plain.None? then CantDecrypt else if m.messageType == SEND_FILE then File(plain.value) else Text(plain.value)))
      else (st, From(peer.name, Nothing))
  }

  function HandleMessages(st: ClientState, ms: seq<Record<HexId>>, c: Crypto): (r: (ClientState, seq<Item>))
    ensures |r.1| == |ms|
  {
    if ms == [] then (st, [])
    else
      var (st', items) := HandleMessages(st, ms[..|ms| - 1], c);
      var (st'', item) := HandleMessage(st', ms[|ms| - 1], c);
      (st'', items + [item])
  }

  datatype Display = Registration | ListOfClients(list: seq<ClientEntry<HexId>>) | KeyRetrieved | MessageAccepted | Inbox(items: seq<Item>) | ServerErrorText

  function HandleResponse(st: ClientState, d: Decoded, c: Crypto): (ClientState, Result<Display, ClientError>) {
    match d
    case Registered(id) =>
      if st.userName == [] then (st, Failure(NoUserName))
      else if st.privateKey == [] then (st, Failure(NoPrivateKey))
      else (st.(clientId := Some(id)), Success(Registration))
    case Clients(list) => (InsertClients(st, list), Success(ListOfClients(list)))
    case PublicKey(id, key) =>
      if id !in st.peers then (st, Failure(ClientNotFound)) else (SetPublicKey(st, id, key), Success(KeyRetrieved))
    case Sent(_, _) => (st, Success(MessageAccepted))
    case Messages(ms) =>
      var (st', items) := HandleMessages(st, ms, c);
      (st', Success(Inbox(items)))
    case ServerError => (st, Success(ServerErrorText))
  }

  // ---------- The client process ----------

  /** A running client: its data manager and MessageUClient's flag. */
  datatype Process = Process(state: ClientState, isUserRegistered: bool)

  /** What the console lets through: names of at most 254 bytes, registration only once. */
  predicate Accepted(p: Process, cmd: Command) {
    match cmd
    case RegisterUser(name) => !p.isUserRegistered && |name| <= 254
    case RequestPublicKey(target) => |target| <= 254
    case SendText(target, _) => |target| <= 254
    case SendRequestSymmetricKey(target) => |target| <= 254
    case SendSymmetricKey(target) => |target| <= 254
    case SendFileContent(target, _) => |target| <= 254
    case _ => true
  }

  function Finish(p: Process, reply: Result<(Decoded, nat), ResponseError>, c: Crypto): Process {
    if reply.Failure? then p
    else
      var (st', shown) := HandleResponse(p.state, reply.value.0, c);
      Process(st', p.isUserRegistered || shown == Success(Registration))
  }

  // ---------- The same on the classes ----------

  method CreateEncrypted(dm: ClientInMemoryDataManager, target: Bytes, messageType: Byte, plain: Option<Bytes>, c: Crypto) returns (r: Result<Envelope<HexId>, ClientError>)
    ensures r == EncryptedRequest(dm.View(), target, messageType, plain, c)
  {
    if dm.clientId.None? {
      return Failure(NoClientId);
    }
    var id := dm.GetClientClientId(target);
    if id.Failure? {
      return Failure(id.error);
    }
    var key := dm.GetClientSymmetricKey(id.value, true);
    if key.Failure? {
      return Failure(key.error);
    }
    if |key.value| != 16 {
      return Failure(BadKey);
    }
    if plain.None? {
      return Failure(FileNotFound);
    }
    r := Success(Envelope(dm.clientId.value, CLIENT_VERSION, SendMessage(id.value, messageType, c.aesEncrypt(key.value, plain.value))));
  }

  method CreateSymmetricKeyRequest(dm: ClientInMemoryDataManager, target: Bytes, rnd: Random, c: Crypto) returns (r: Result<Envelope<HexId>, ClientError>)
    requires dm.Valid()
    modifies dm.clientIdToClientDataMap.Values
    ensures dm.Valid() && (dm.View(), r) == SymmetricKeyRequest(old(dm.View()), target, rnd, c)
  {
    if dm.clientId.None? {
      return Failure(NoClientId);
    }
    var id := dm.GetClientClientId(target);
    if id.Failure? {
      return Failure(id.error);
    }
    var symmetricKey := dm.GetClientSymmetricKey(id.value, false);
    if symmetricKey.Failure? {
      return Failure(symmetricKey.error);
    }
    var publicKey := dm.GetClientPublicKey(id.value);
    if publicKey.Failure? {
      return Failure(publicKey.error);
    }
    var key := symmetricKey.value;
    if key == [] {
      key := rnd.symmetricKey;
      var added := dm.AddSymmetricKey(id.value, key);
    }
    var content := c.rsaEncrypt(publicKey.value, key, rnd.seed);
    if content.None? {
      return Failure(BadKey);
    }
    r := Success(Envelope(dm.clientId.value, CLIENT_VERSION, SendMessage(id.value, SEND_SYMMETRIC_KEY, content.value)));
  }

  method CreateServerRequest(dm: ClientInMemoryDataManager, cmd: Command, rnd: Random, c: Crypto) returns (r: Result<Envelope<HexId>, ClientError>)
    requires dm.Valid()
    modifies dm, dm.clientIdToClientDataMap.Values
    ensures dm.Valid() && (dm.View(), r) == CreateRequest(old(dm.View()), cmd, rnd, c)
    ensures dm.clientIdToClientDataMap == old(dm.clientIdToClientDataMap)
  {
    match cmd
    case RegisterUser(name) =>
      dm.SetUserName(name);
      if dm.privateKey == [] {
        return Failure(NoPrivateKey);
      }
      if !c.isPrivateKey(dm.privateKey) {
        return Failure(BadKey);
      }
      r := Success(Envelope(FAKE_ID, CLIENT_VERSION, Register(name, c.publicKeyOf(dm.privateKey))));
    case ClientsList =>
      r := if dm.clientId.None? then Failure(NoClientId) else Success(Envelope(dm.clientId.value, CLIENT_VERSION, ListClients));
    case RequestPublicKey(target) =>
      var id := dm.GetClientClientId(target);
      r := if dm.clientId.None? then Failure(NoClientId) else if id.Failure? then Failure(id.error)
        else Success(Envelope(dm.clientId.value, CLIENT_VERSION, GetPublicKey(id.value)));
    case RequestWaitingMessages =>
      r := if dm.clientId.None? then Failure(NoClientId) else Success(Envelope(dm.clientId.value, CLIENT_VERSION, PullMessages));
    case SendText(target, text) =>
      r := CreateEncrypted(dm, target, SEND_TEXT_MESSAGE, Some(text), c);
    case SendRequestSymmetricKey(target) =>
      var id := dm.GetClientClientId(target);
      r := if dm.clientId.None? then Failure(NoClientId) else if id.Failure? then Failure(id.error)
        else Success(Envelope(dm.clientId.value, CLIENT_VERSION, SendMessage(id.value, REQUEST_SYMMETRIC_KEY, [])));
    case SendSymmetricKey(target) =>
      r := CreateSymmetricKeyRequest(dm, target, rnd, c);
    case SendFileContent(target, file) =>
      r := CreateEncrypted(dm, target, SEND_FILE, file, c);
  }

  method HandlePulledMessage(dm: ClientInMemoryDataManager, m: Record<HexId>, c: Crypto) returns (item: Item)
    requires dm.Valid()
    modifies dm.clientIdToClientDataMap.Values
    ensures dm.Valid() && (dm.View(), item) == HandleMessage(old(dm.View()), m, c)
  {
    var userName := dm.GetClientUserName(m.from);
    if userName.Failure? {
      return UnknownUserId;
    }
    var body := Nothing;
    if m.messageType == REQUEST_SYMMETRIC_KEY {
      body := KeyRequest;
    } else if m.messageType == SEND_SYMMETRIC_KEY {
      var key := if dm.privateKey == [] then None else c.rsaDecrypt(dm.privateKey, m.content);
      if key.None? {
        body := CantDecrypt;
      } else {
        var added := dm.AddSymmetricKey(m.from, key.value);
        body := KeyReceived;
      }
    } else if m.messageType == SEND_TEXT_MESSAGE || m.messageType == SEND_FILE {
      var key := dm.GetClientSymmetricKey(m.from, true);
      var plain := if key.Failure? then None else Decrypt(key.value, m.content, c);
      body := if plain.None? then CantDecrypt else if m.messageType == SEND_FILE then File(plain.value) else Text(plain.value);
    }
    item := From(userName.value, body);
  }

  method HandlePulledMessages(dm: ClientInMemoryDataManager, ms: seq<Record<HexId>>, c: Crypto) returns (items: seq<Item>)
    requires dm.Valid()
    modifies dm.clientIdToClientDataMap.Values
    ensures dm.Valid() && (dm.View(), items) == HandleMessages(old(dm.View()), ms, c)
  {
    items := [];
    ghost var before := dm.View();
    for i := 0 to |ms|
      invariant dm.Valid() && (dm.View(), items) == HandleMessages(before, ms[..i], c)
    {
      assert ms[..i + 1][..i] == ms[..i];
      var item := HandlePulledMessage(dm, ms[i], c);
      items := items + [item];
    }
    assert ms[..|ms|] == ms;
  }

  method HandleServerResponse(dm: ClientInMemoryDataManager, d: Decoded, c: Crypto) returns (shown: Result<Display, ClientError>)
    requires dm.Valid()
    modifies dm, dm.clientIdToClientDataMap.Values
    ensures dm.Valid() && (dm.View(), shown) == HandleResponse(old(dm.View()), d, c)
    ensures fresh(dm.clientIdToClientDataMap.Values - old(dm.clientIdToClientDataMap.Values))
  {
    hide InsertClients, HandleMessages;
    match d
    case Registered(id) =>
      if dm.userName == [] {
        return Failure(NoUserName);
      }
      if dm.privateKey == [] {
        return Failure(NoPrivateKey);
      }
      dm.SetClientId(id);
      shown := Success(Registration);
    case Clients(list) =>
      dm.InsertClientsData(list);
      shown := Success(ListOfClients(list));
    case PublicKey(id, key) =>
      var r := dm.AddPublicKey(id, key);
      shown := if r.Failure? then Failure(r.error) else Success(KeyRetrieved);
    case Sent(_, _) =>
      shown := Success(MessageAccepted);
    case Messages(ms) =>
      var items := HandlePulledMessages(dm, ms, c);
      shown := Success(Inbox(items));
    case ServerError =>
      shown := Success(ServerErrorText);
  }

  class MessageUClient {
    const dm: ClientInMemoryDataManager
    var isUserRegistered: bool

    constructor (dm: ClientInMemoryDataManager)
      ensures this.dm == dm && !isUserRegistered
    {
      this.dm := dm;
      isUserRegistered := false;
    }

    ghost function View(): Process
      reads this, dm, dm.clientIdToClientDataMap.Values
    {
      Process(dm.View(), isUserRegistered)
    }

    /** One turn of startClient: the frames the command sends, and what becomes of the client when `replies` arrive. */
    method Turn(cmd: Command, rnd: Random, replies: seq<Frame>, c: Crypto) returns (sent: seq<Frame>)
      requires dm.Valid() && Accepted(View(), cmd)
      requires var r := CreateRequest(dm.View(), cmd, rnd, c).1; r.Success? ==> Writable(r.value.request)
      modifies this, dm, dm.clientIdToClientDataMap.Values
      ensures dm.Valid()
      ensures var (st', r) := CreateRequest(old(dm.View()), cmd, rnd, c);
        var p := old(View()).(state := st');
        && sent == (if r.Success? then RequestFrames(r.value) else [])
        && View() == if r.Success? then Finish(p, DecodeFrames(replies), c) else p
    {
      hide CreateRequest, HandleResponse, DecodeFrames, RequestFrames, Writable, Accepted, Finish;
      var request := CreateServerRequest(dm, cmd, rnd, c);
      if request.Failure? {
        return [];
      }
      sent := SendRequest(request.value);
      HandleReplies(replies, c);
    }

    method SendRequest(e: Envelope<HexId>) returns (sent: seq<Frame>)
      requires Writable(e.request)
      ensures sent == RequestFrames(e)
    {
      var writer := new RequestWriter.ServerRequest(e);
      sent := RequestWriter.WriteRequest(writer);
    }

    method HandleReplies(replies: seq<Frame>, c: Crypto)
      requires dm.Valid()
      modifies this, dm, dm.clientIdToClientDataMap.Values
      ensures dm.Valid() && View() == Finish(old(View()), DecodeFrames(replies), c)
    {
      hide HandleResponse, DecodeFrames;
      var reply := ReadResponse(replies);
      if reply.Success? {
        var shown := HandleServerResponse(dm, reply.value.0, c);
        if !isUserRegistered {
          isUserRegistered := shown == Success(Registration);
        }
      }
    }
  }
}
