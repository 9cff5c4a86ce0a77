/** Commands that send something, from the sender's console to the receiver's: what was said is what is shown. */
module Conversation {
  import opened Wrappers
  import opened Bytes
  import opened Framing
  import opened Protocol
  import opened Records
  import opened ResponseReader
  import opened ResponseWriter
  import opened ResponseRoundTrip
  import opened Storage
  import opened Manager
  import opened Server
  import opened Exchange
  import opened DataManager
  import opened Client
  import opened Displays
  import opened Answers
  import Delivery

  // ---------- When commands succeed ----------

  /** The client has an id and knows a client by that name. */
  predicate CanAddress(st: ClientState, name: Bytes) {
    st.clientId.Some? && name in st.names
  }

  /** And it has that client's record, with a key of the right length. */
  predicate CanEncryptFor(st: ClientState, name: Bytes) {
    CanAddress(st, name) && st.names[name] in st.peers && |st.peers[st.names[name]].symmetricKey| == 16
  }

  /** And it has that client's public key, which encrypts the key there is or the one to be made. */
  predicate CanWrapFor(st: ClientState, name: Bytes, rnd: Random, c: Crypto) {
    && CanAddress(st, name) && st.names[name] in st.peers && st.peers[st.names[name]].publicKey != []
    && var peer := st.peers[st.names[name]];
       c.rsaEncrypt(peer.publicKey, if peer.symmetricKey == [] then rnd.symmetricKey else peer.symmetricKey, rnd.seed).Some?
  }

  /** Each command builds a request exactly when the client has what the command needs. */
  lemma CommandSucceedsIff(st: ClientState, cmd: Command, rnd: Random, c: Crypto)
    ensures CreateRequest(st, cmd, rnd, c).1.Success? <==>
      match cmd
      case RegisterUser(_) => st.privateKey != [] && c.isPrivateKey(st.privateKey)
      case ClientsList => st.clientId.Some?
      case RequestPublicKey(target) => CanAddress(st, target)
      case RequestWaitingMessages => st.clientId.Some?
      case SendText(target, _) => CanEncryptFor(st, target)
      case SendRequestSymmetricKey(target) => CanAddress(st, target)
      case SendSymmetricKey(target) => CanWrapFor(st, target, rnd, c)
      case SendFileContent(target, file) => CanEncryptFor(st, target) && file.Some?
  {
  }

  /** What the commands that send no message ask the server. */
  lemma CommandAsks(st: ClientState, cmd: Command, rnd: Random, c: Crypto)
    requires CreateRequest(st, cmd, rnd, c).1.Success?
    ensures var e := CreateRequest(st, cmd, rnd, c).1.value;
      && e.version == 2
      && match cmd
         case RegisterUser(name) => e.clientId == "CB10D6FB5FD741F39BE43BC3F0B7564C" && e.request == Register(name, c.publicKeyOf(st.privateKey))
         case ClientsList => Some(e.clientId) == st.clientId && e.request == ListClients
         case RequestPublicKey(target) => Some(e.clientId) == st.clientId && target in st.names && e.request == GetPublicKey(st.names[target])
         case RequestWaitingMessages => Some(e.clientId) == st.clientId && e.request == PullMessages
         case _ => Some(e.clientId) == st.clientId && e.request.SendMessage?
  {
  }

  /** A registration command sets the name; sending a key makes one when there is none; nothing else changes the client. */
  lemma CommandChanges(st: ClientState, cmd: Command, rnd: Random, c: Crypto)
    ensures CreateRequest(st, cmd, rnd, c).0 ==
      match cmd
      case RegisterUser(name) => st.(userName := name)
      case SendSymmetricKey(target) =>
        if CanAddress(st, target) && st.names[target] in st.peers && st.peers[st.names[target]].publicKey != [] && st.peers[st.names[target]].symmetricKey == []
        then SetSymmetricKey(st, st.names[target], rnd.symmetricKey) else st
      case _ => st
  {
  }

  // ---------- What is sent ----------

  /** Something to tell another client: a text, a file, or the wish for a key. */
  datatype Word = Said(text: Bytes) | Gave(file: Bytes) | AskedForKey

  function CommandFor(word: Word, target: Bytes): Command {
    match word
    case Said(text) => SendText(target, text)
    case Gave(file) => SendFileContent(target, Some(file))
    case AskedForKey => SendRequestSymmetricKey(target)
  }

  /** How it travels: the message type, and the content under the key that the two share. */
  function Letter(word: Word, key: Bytes, c: Crypto): (Byte, Bytes) {
    match word
    case Said(text) => (2, c.aesEncrypt(key, text))
    case Gave(file) => (3, c.aesEncrypt(key, file))
    case AskedForKey => (0, [])
  }

  /** How it is to be shown. */
  function Meaning(word: Word): Body {
    match word
    case Said(text) => Text(text)
    case Gave(file) => File(file)
    case AskedForKey => KeyRequest
  }

  /** The client with id u knows v by that name; a word that is encrypted needs a key of 16 bytes. */
  ghost predicate Speaks(st: ClientState, u: Uuid, name: Bytes, v: Uuid, word: Word, key: Bytes) {
    && st.clientId == Some(Hex(u)) && name in st.names && st.names[name] == Hex(v) && Hex(v) in st.peers
    && (!word.AskedForKey? ==> |key| == 16 && SymmetricKey(st, Hex(v)) == key)
  }

  ghost predicate Listens(st: ClientState, v: Uuid, u: Uuid, word: Word, key: Bytes) {
    && st.clientId == Some(Hex(v)) && Hex(u) in st.peers
    && (!word.AskedForKey? ==> SymmetricKey(st, Hex(u)) == key)
  }

  function MessageFor(db: Db, u: Uuid, v: Uuid, word: Word, key: Bytes, c: Crypto): StoredMessage {
    StoredMessage(db.lastId + 1, v, u, Letter(word, key, c).0, Letter(word, key, c).1)
  }

  /** Speaking builds the request for the letter, and leaves the client as it was. */
  lemma WordIsSent(st: ClientState, u: Uuid, name: Bytes, v: Uuid, word: Word, key: Bytes, rnd: Random, c: Crypto)
    requires Speaks(st, u, name, v, word, key)
    ensures var (messageType, content) := Letter(word, key, c);
      CreateRequest(st, CommandFor(word, name), rnd, c) == (st, Success(Envelope(Hex(u), CLIENT_VERSION, SendMessage(Hex(v), messageType, content))))
  {
    hide Hex;
  }

  /** The server stores the letter, between registered clients. */
  lemma WordIsStored(db: Db, u: Uuid, v: Uuid, word: Word, key: Bytes, env: Env, c: Crypto)
    requires HasRow(db, u) && HasRow(db, v) && FourBytes(|Letter(word, key, c).1|)
    ensures var (messageType, content) := Letter(word, key, c);
      var e := Envelope(Hex(u), CLIENT_VERSION, SendMessage(Hex(v), messageType, content));
      var m := MessageFor(db, u, v, word, key, c);
      Writable(e.request) && Session(db, RequestFrames(e), env).db == db.(messages := db.messages + [m], lastId := m.id)
  {
    var (messageType, content) := Letter(word, key, c);
    var e := Envelope(Hex(u), CLIENT_VERSION, SendMessage(Hex(v), messageType, content));
    FourBytesBound(|content|);
    hide Hex, UnHex, Letter, FourBytes, Session, RequestFrames, HasRow, ResponseFrames, DecodeFrames, View, Encodable, Handle;
    UnHexOfHex(u);
    UnHexOfHex(v);
    ByteLevelRefinement(db, e, env);
    SendAnswer(db, Intended(e), env.uuid4);
  }

  // ---------- What is read ----------

  /** The whole queue fits one response, so an undisturbed pull takes it all. */
  lemma WholeQueueIsPulled(db: Db, v: Uuid)
    requires FourBytes(PackedSize(QueueOf(db.messages, v)))
    ensures Pulled(db, v) == QueueOf(db.messages, v)
  {
    var q := QueueOf(db.messages, v);
    PullFillsField(db, v, |q|);
    assert q[..|q|] == q;
    hide QueueOf, PackedSize, FourBytes;
  }

  /** An undisturbed pull of a queue that fits is read message by message, and empties the queue. */
  lemma QueueIsRead(db: Db, st: ClientState, v: Uuid, rnd: Random, c: Crypto, env: Env)
    requires Consistent(db) && HasRow(db, v) && st.clientId == Some(Hex(v)) && Delivery.Undisturbed(env)
    requires FourBytes(PackedSize(QueueOf(db.messages, v))) && FourBytes(db.lastId)
    ensures var e := Envelope(Hex(v), CLIENT_VERSION, PullMessages);
      var o := Session(db, RequestFrames(e), env);
      && CreateRequest(st, RequestWaitingMessages, rnd, c) == (st, Success(e))
      && DecodeFrames(o.sent).Success? && DecodeFrames(o.sent).value.0 == Messages(HexRecords(RecordsOf(QueueOf(db.messages, v))))
      && QueueOf(o.db.messages, v) == []
  {
    var e := Envelope(Hex(v), CLIENT_VERSION, PullMessages);
    var q := QueueOf(db.messages, v);
    var response := MessagesPulled(q, PackedSize(q));
    assert env.deleteWorks && env.sendsBeforeFailure >= NumFrames(7 + MAX_PULLED_MESSAGES_DATA);
    assert Writable(e.request) && response.MessagesPulled? && SizeExact(response);
    hide *;
    PullCommand(st, v, rnd, c);
    QueueIsPackable(db, v);
    WholeQueueIsPulled(db, v);
    WholePullAnswer(db, v, env.uuid4);
    ByteLevelRefinement(db, e, env);
    QueueIsEmptied(db, v);
    ViewOfPull(response);
  }

  lemma ViewOfPull(response: Response)
    requires response.MessagesPulled?
    ensures View(response) == Messages(HexRecords(RecordsOf(response.messages)))
  {
  }

  lemma PullCommand(st: ClientState, v: Uuid, rnd: Random, c: Crypto)
    requires st.clientId == Some(Hex(v))
    ensures var e := Envelope(Hex(v), CLIENT_VERSION, PullMessages);
      CreateRequest(st, RequestWaitingMessages, rnd, c) == (st, Success(e)) && Writable(e.request)
  {
    hide Hex;
  }

  lemma WholePullAnswer(db: Db, v: Uuid, freshId: Uuid)
    requires HasRow(db, v) && Pulled(db, v) == QueueOf(db.messages, v)
    ensures var q := QueueOf(db.messages, v);
      Handle(db, Intended(Envelope(Hex(v), CLIENT_VERSION, PullMessages)), freshId) == (db, MessagesPulled(q, PackedSize(q)))
  {
    UnHexOfHex(v);
    ClientHasRow(db, v);
    hide Hex, UnHex, HasClient, QueueOf, Pulled, PackedSize, HasRow;
  }

  lemma QueueIsPackable(db: Db, v: Uuid)
    requires Consistent(db) && FourBytes(PackedSize(QueueOf(db.messages, v))) && FourBytes(db.lastId)
    ensures var q := QueueOf(db.messages, v);
      Encodable(MessagesPulled(q, PackedSize(q))) && |ResponseFrames(MessagesPulled(q, PackedSize(q)))| <= NumFrames(7 + MAX_PULLED_MESSAGES_DATA)
  {
    var q := QueueOf(db.messages, v);
    QueueMembers(db.messages, v);
    hide QueueOf, UniqueRows, HasClient;
    FourBytesBound(PackedSize(q));
    FourBytesBound(db.lastId);
    forall m | m in q ensures FourBytes(m.id) {
      FourBytesBound(m.id);
    }
    hide FourBytes, PackedSize;
    PulledFit(q);
    Delivery.FrameCountWithin(MessagesPulled(q, PackedSize(q)));
  }

  lemma QueueIsEmptied(db: Db, v: Uuid)
    requires Consistent(db) && Pulled(db, v) == QueueOf(db.messages, v)
    ensures QueueOf(WithoutIds(db.messages, Ids(QueueOf(db.messages, v))), v) == []
  {
    Delivery.PulledPrefix(db, v);
    hide QueueOf, WithoutIds, Ids, Consistent, Pulled;
  }

  /** No key message from u that waits for v would change the key that v has for u. */
  ghost predicate KeyIsSettled(st: ClientState, queue: seq<StoredMessage>, u: Uuid, key: Bytes, c: Crypto) {
    forall m :: m in queue && m.from == u && m.messageType == 1 ==>
      var k := c.rsaDecrypt(st.privateKey, m.content); k.None? || k.value == key
  }

  /** The last of the messages that a client reads, a letter from u, is shown as what it means, under the name of u. */
  lemma LetterIsShown(st: ClientState, queue: seq<StoredMessage>, m: StoredMessage, u: Uuid, v: Uuid, word: Word, key: Bytes, c: Crypto) returns (items: seq<Item>)
    requires Lawful(c) && Listens(st, v, u, word, key) && (!word.AskedForKey? ==> |key| == 16 && KeyIsSettled(st, queue, u, key, c))
    requires m.from == u && (m.messageType, m.content) == Letter(word, key, c)
    ensures var rs := HexRecords(RecordsOf(queue + [m]));
      && HandleResponse(st, Messages(rs), c).1 == Success(Inbox(items)) && |items| == |queue| + 1
      && items[|queue|] == From(st.peers[Hex(u)].name, Meaning(word))
  {
    var rs := HexRecords(RecordsOf(queue + [m]));
    var before := rs[..|queue|];
    items := PullIsShown(st, rs, c);
    assert rs[|queue|] == HexRecord(RecordOf(m));
    if !word.AskedForKey? {
      forall r | r in before ensures KeyFrom(st, r, Hex(u), c).None? || KeyFrom(st, r, Hex(u), c).value == key {
        var k :| 0 <= k < |before| && before[k] == r;
        assert r == HexRecord(RecordOf(queue[k])) && queue[k] in queue;
        HexInjective(queue[k].from, u);
      }
      KeyStays(st, before, c, Hex(u));
    }
    assert ShownRight(st, rs, c, |queue|, items[|queue|]);
    hide Hex, KeyAfter, KeyFrom, HandleResponse;
  }

  /**
   What is said arrives. A, with id u, knows B, with id v, by a name, and B knows A; for a text or a file they have the same
   key. Then A's command always builds a request, whose session stores exactly one message more, and B's next undisturbed
   pull, if its queue fits one response, shows one item for each waiting message, the last one under A's name with exactly
   what A said, and leaves the queue empty.
   */
  lemma WordsArrive(db: Db, stA: ClientState, stB: ClientState, u: Uuid, v: Uuid, name: Bytes, word: Word, key: Bytes, rnd: Random, env: Env, env': Env, c: Crypto)
    returns (e: Envelope<HexId>, pull: Envelope<HexId>, items: seq<Item>)
    requires Lawful(c) && Consistent(db) && HasRow(db, u) && HasRow(db, v)
    requires Speaks(stA, u, name, v, word, key) && Listens(stB, v, u, word, key)
    requires !word.AskedForKey? ==> KeyIsSettled(stB, QueueOf(db.messages, v), u, key, c)
    requires FourBytes(PackedSize(QueueOf(db.messages, v)) + 25 + |Letter(word, key, c).1|) && FourBytes(db.lastId + 1)
    requires Delivery.Undisturbed(env')
    ensures CreateRequest(stA, CommandFor(word, name), rnd, c) == (stA, Success(e)) && Writable(e.request)
    ensures CreateRequest(stB, RequestWaitingMessages, rnd, c) == (stB, Success(pull)) && Writable(pull.request)
    ensures var stored := Session(db, RequestFrames(e), env).db;
      var o := Session(stored, RequestFrames(pull), env');
      && stored.messages == db.messages + [MessageFor(db, u, v, word, key, c)]
      && DecodeFrames(o.sent).Success? && HandleResponse(stB, DecodeFrames(o.sent).value.0, c).1 == Success(Inbox(items))
      && |items| == |QueueOf(db.messages, v)| + 1 && items[|items| - 1] == From(stB.peers[Hex(u)].name, Meaning(word))
      && QueueOf(o.db.messages, v) == []
  {
    hide *;
    var m := MessageFor(db, u, v, word, key, c);
    LetterOfMessage(db, u, v, word, key, c);
    SpeakerIs(stA, u, name, v, word, key);
    LetterFits(PackedSize(QueueOf(db.messages, v)), |m.content|);
    WordIsSent(stA, u, name, v, word, key, rnd, c);
    WordIsStored(db, u, v, word, key, env, c);
    e := Envelope(Hex(u), CLIENT_VERSION, SendMessage(Hex(v), m.messageType, m.content));
    pull := Envelope(Hex(v), CLIENT_VERSION, PullMessages);
    var stored := Session(db, RequestFrames(e), env).db;
    StoredStaysConsistent(db, e, env, m);
    ListenerIs(stB, v, u, word, key);
    PullCommand(stB, v, rnd, c);
    items := LetterIsRead(db.messages, stored, stB, m, u, v, word, key, rnd, env', c);
  }

  /** The receiver's half: what it reads when a letter is the last message stored. */
  lemma LetterIsRead(before: seq<StoredMessage>, db: Db, st: ClientState, m: StoredMessage, u: Uuid, v: Uuid, word: Word, key: Bytes, rnd: Random, env: Env, c: Crypto)
    returns (items: seq<Item>)
    requires Lawful(c) && Consistent(db) && HasRow(db, v) && db.messages == before + [m] && Delivery.Undisturbed(env)
    requires Listens(st, v, u, word, key) && (!word.AskedForKey? ==> |key| == 16 && KeyIsSettled(st, QueueOf(before, v), u, key, c))
    requires m.to == v && m.from == u && (m.messageType, m.content) == Letter(word, key, c)
    requires FourBytes(PackedSize(QueueOf(before, v)) + 25 + |m.content|) && FourBytes(db.lastId)
    ensures Hex(u) in st.peers
    ensures var o := Session(db, RequestFrames(Envelope(Hex(v), CLIENT_VERSION, PullMessages)), env);
      && DecodeFrames(o.sent).Success? && HandleResponse(st, DecodeFrames(o.sent).value.0, c).1 == Success(Inbox(items))
      && |items| == |QueueOf(before, v)| + 1 && items[|items| - 1] == From(st.peers[Hex(u)].name, Meaning(word))
      && QueueOf(o.db.messages, v) == []
  {
    hide *;
    var queue := QueueOf(before, v);
    QueueWithOneMore(before, m);
    ListenerIs(st, v, u, word, key);
    QueueIsRead(db, st, v, rnd, c, env);
    items := LetterIsShown(st, queue, m, u, v, word, key, c);
  }

  lemma LetterOfMessage(db: Db, u: Uuid, v: Uuid, word: Word, key: Bytes, c: Crypto)
    ensures var m := MessageFor(db, u, v, word, key, c);
      m.id == db.lastId + 1 && m.to == v && m.from == u && (m.messageType, m.content) == Letter(word, key, c)
  {
  }

  lemma SpeakerIs(st: ClientState, u: Uuid, name: Bytes, v: Uuid, word: Word, key: Bytes)
    requires Speaks(st, u, name, v, word, key)
    ensures !word.AskedForKey? ==> |key| == 16
  {
  }

  lemma ListenerIs(st: ClientState, v: Uuid, u: Uuid, word: Word, key: Bytes)
    requires Listens(st, v, u, word, key)
    ensures st.clientId == Some(Hex(v)) && Hex(u) in st.peers
  {
  }

  lemma LetterFits(size: nat, length: nat)
    requires FourBytes(size + 25 + length)
    ensures FourBytes(length)
  {
    FourBytesBound(size + 25 + length);
    FourBytesBound(length);
  }

  lemma QueueWithOneMore(ms: seq<StoredMessage>, m: StoredMessage)
    ensures var queue := QueueOf(ms, m.to);
      QueueOf(ms + [m], m.to) == queue + [m] && PackedSize(queue + [m]) == PackedSize(queue) + 25 + |m.content|
  {
    Delivery.QueueOfConcat(ms, [m], m.to);
    OneInQueue(m);
    PackedSizeSnoc(QueueOf(ms, m.to), m);
  }

  lemma StoredStaysConsistent(db: Db, e: Envelope<HexId>, env: Env, m: StoredMessage)
    requires Consistent(db) && Writable(e.request) && Session(db, RequestFrames(e), env).db == db.(messages := db.messages + [m], lastId := m.id)
    ensures Consistent(Session(db, RequestFrames(e), env).db)
    ensures forall id :: HasRow(db, id) ==> HasRow(Session(db, RequestFrames(e), env).db, id)
  {
    hide Session, RequestFrames, Consistent;
    Delivery.SessionKeepsConsistent(db, RequestFrames(e), env);
  }
}
