/**
 Key agreement between two clients A and B, whatever everybody else does, however steps interleave, and whichever
 connections break: they agree at every point of a run exactly when their key makings do not cross.
 */
module KeyAgreement {
  import opened Wrappers
  import opened Bytes
  import opened Framing
  import opened Protocol
  import opened Records
  import opened RequestReader
  import opened ResponseWriter
  import opened ResponseRoundTrip
  import opened Storage
  import opened Server
  import opened Exchange
  import opened DataManager
  import opened Client
  import opened Runs
  import opened Registration
  import opened Steps

  /** Hosts a and b, and the ids x and y that the server gave them. */
  datatype Pair = Pair(a: nat, b: nat, x: HexId, y: HexId)

  /** The private keys of the two. */
  datatype Privates = Privates(ofA: Bytes, ofB: Bytes)

  function Privs(p: Pair, keys: seq<Bytes>): Privates {
    Privates(if p.a < |keys| then keys[p.a] else [], if p.b < |keys| then keys[p.b] else [])
  }

  /** A's key for B. */
  function KeyOfA(w: World, p: Pair): Bytes {
    if p.a < |w.hosts| then SymmetricKey(w.hosts[p.a].process.state, p.y) else []
  }

  /** B's key for A. */
  function KeyOfB(w: World, p: Pair): Bytes {
    if p.b < |w.hosts| then SymmetricKey(w.hosts[p.b].process.state, p.x) else []
  }

  /** The key they have, when one of them has one and they do not disagree. */
  function CommonKey(w: World, p: Pair): Bytes {
    if KeyOfA(w, p) != [] then KeyOfA(w, p) else KeyOfB(w, p)
  }

  predicate Between(p: Pair, from: HexId, to: HexId) {
    (from == p.x && to == p.y) || (from == p.y && to == p.x)
  }

  /** A message on its way between the two: keys wrap the common key for the receiver, texts are under it. */
  ghost predicate LetterOk(p: Pair, key: Bytes, priv: Privates, c: Crypto, from: HexId, to: HexId, messageType: Byte, content: Bytes, plain: Option<Bytes>) {
    && (from == p.x && to == p.y && messageType == SEND_SYMMETRIC_KEY ==> key != [] && c.rsaDecrypt(priv.ofB, content) == Some(key))
    && (from == p.y && to == p.x && messageType == SEND_SYMMETRIC_KEY ==> key != [] && c.rsaDecrypt(priv.ofA, content) == Some(key))
    && (Between(p, from, to) && IsSecret(messageType) && plain.Some? ==> |key| == 16 && content == c.aesEncrypt(key, plain.value))
  }

  function PlainOfId(plains: map<nat, Bytes>, id: nat): Option<Bytes> {
    if id in plains then Some(plains[id]) else None
  }

  ghost predicate MessageOk(p: Pair, key: Bytes, priv: Privates, c: Crypto, plains: map<nat, Bytes>, m: StoredMessage) {
    LetterOk(p, key, priv, c, Hex(m.from), Hex(m.to), m.messageType, m.content, PlainOfId(plains, m.id))
  }

  ghost predicate MessagesOk(p: Pair, key: Bytes, priv: Privates, c: Crypto, plains: map<nat, Bytes>, ms: seq<StoredMessage>) {
    forall m :: m in ms ==> MessageOk(p, key, priv, c, plains, m)
  }

  /** A request on its way; a wrapped key is so short that it is never cut. */
  ghost predicate RequestLetterOk(p: Pair, key: Bytes, priv: Privates, c: Crypto, conn: Connection) {
    conn.request.request.SendMessage? ==>
      var SendMessage(dest, messageType, content) := conn.request.request;
      && Canonical(dest) && Canonical(conn.request.clientId)
      && LetterOk(p, key, priv, c, conn.request.clientId, dest, messageType, content, conn.plain)
      && (messageType == SEND_SYMMETRIC_KEY && Between(p, conn.request.clientId, dest) ==> |content| == 128)
  }

  ghost predicate AnswerLettersOk(p: Pair, key: Bytes, priv: Privates, c: Crypto, plains: map<nat, Bytes>, last: nat, conn: Connection) {
    conn.answer.Some? && conn.answer.value.outcome.response.MessagesPulled? ==>
      var ms := conn.answer.value.outcome.response.messages;
      MessagesOk(p, key, priv, c, plains, ms) && forall m :: m in ms ==> m.id <= last
  }

  /** The ids are those of the two hosts, once they know them. */
  ghost predicate IdsOk(w: World, p: Pair) {
    && p.a != p.b && p.a < |w.hosts| && p.b < |w.hosts|
    && (w.hosts[p.a].process.state.clientId.Some? ==> w.hosts[p.a].process.state.clientId.value == p.x)
    && (w.hosts[p.b].process.state.clientId.Some? ==> w.hosts[p.b].process.state.clientId.value == p.y)
    && (p.x in Dir(w) ==> Dir(w)[p.x].owner == p.a)
    && (p.y in Dir(w) ==> Dir(w)[p.y].owner == p.b)
  }

  /** Each of the two has no key for the other or the common one, and everything on its way between them is under it. */
  ghost predicate KeyInv(w: World, p: Pair, keys: seq<Bytes>, c: Crypto) {
    && p.a < |keys| && p.b < |keys|
    && var key, priv := CommonKey(w, p), Privs(p, keys);
    && (key == [] || |key| == 16)
    && (KeyOfA(w, p) == [] || KeyOfA(w, p) == key)
    && (KeyOfB(w, p) == [] || KeyOfB(w, p) == key)
    && MessagesOk(p, key, priv, c, w.plains, w.db.messages)
    && (forall s :: 0 <= s < |w.connections| ==> RequestLetterOk(p, key, priv, c, w.connections[s]))
    && (forall s :: 0 <= s < |w.connections| ==> AnswerLettersOk(p, key, priv, c, w.plains, w.db.lastId, w.connections[s]))
    && (forall id :: id in w.plains ==> id <= w.db.lastId)
  }

  // ---------- Making keys ----------

  /** The command makes a key for the peer h: it may be sent, h's public key is known, and there is no key yet. */
  predicate Makes(st: ClientState, cmd: Command, h: HexId) {
    && cmd.SendSymmetricKey? && st.clientId.Some? && cmd.target in st.names && st.names[cmd.target] == h
    && h in st.peers && st.peers[h].publicKey != [] && st.peers[h].symmetricKey == []
  }

  /** In this step, host i makes a key for the peer h. */
  ghost predicate MakesKey(w: World, step: Step, i: nat, h: HexId, c: Crypto): (made: bool)
    ensures made ==> step.Issue?
  {
    Enabled(w, step, c) && step.Issue? && step.host == i < |w.hosts| && Makes(w.hosts[i].process.state, step.cmd, h)
  }

  /** Neither of the two makes a key in this step while the other has a different one. */
  ghost predicate NoClash(w: World, step: Step, p: Pair, c: Crypto) {
    && (MakesKey(w, step, p.a, p.y, c) ==> KeyOfB(w, p) == [] || KeyOfB(w, p) == step.rnd.symmetricKey)
    && (MakesKey(w, step, p.b, p.x, c) ==> KeyOfA(w, p) == [] || KeyOfA(w, p) == step.rnd.symmetricKey)
  }

  /** How the two keys move in a step: each is written once, with the key made in this step or with the common one. */
  ghost predicate KeyMoves(w: World, step: Step, w': World, p: Pair, c: Crypto) {
    && (|| KeyOfA(w', p) == KeyOfA(w, p)
        || (KeyOfA(w, p) == [] && (KeyOfA(w', p) == CommonKey(w, p) || (MakesKey(w, step, p.a, p.y, c) && KeyOfA(w', p) == step.rnd.symmetricKey))))
    && (|| KeyOfB(w', p) == KeyOfB(w, p)
        || (KeyOfB(w, p) == [] && (KeyOfB(w', p) == CommonKey(w, p) || (MakesKey(w, step, p.b, p.x, c) && KeyOfB(w', p) == step.rnd.symmetricKey))))
  }

  /** The common key is written once. */
  ghost predicate CommonStep(w: World, w': World, p: Pair) {
    CommonKey(w', p) == CommonKey(w, p) || (CommonKey(w, p) == [] && |CommonKey(w', p)| == 16)
  }

  // ---------- Issuing ----------

  /** Only sending a symmetric key makes one, for its target, and only when there is none. */
  lemma RequestKeys(st: ClientState, cmd: Command, rnd: Random, c: Crypto, h: HexId)
    ensures SymmetricKey(CreateRequest(st, cmd, rnd, c).0, h) == if Makes(st, cmd, h) then rnd.symmetricKey else SymmetricKey(st, h)
    ensures Makes(st, cmd, h) ==> SymmetricKey(st, h) == []
  {
  }

  lemma OldLetters(w: World, w': World, p: Pair, priv: Privates, c: Crypto, conn: Connection, last: nat)
    requires CommonStep(w, w', p)
    ensures RequestLetterOk(p, CommonKey(w, p), priv, c, conn) ==> RequestLetterOk(p, CommonKey(w', p), priv, c, conn)
    ensures AnswerLettersOk(p, CommonKey(w, p), priv, c, w.plains, last, conn) ==> AnswerLettersOk(p, CommonKey(w', p), priv, c, w.plains, last, conn)
  {
    hide Hex, UnHex;
  }

  lemma OldMessages(w: World, w': World, p: Pair, priv: Privates, c: Crypto, ms: seq<StoredMessage>)
    requires CommonStep(w, w', p) && MessagesOk(p, CommonKey(w, p), priv, c, w.plains, ms)
    ensures MessagesOk(p, CommonKey(w', p), priv, c, w.plains, ms)
  {
    hide Hex;
  }

  /** The two keys after a command: only its client's key changes, when it makes one. */
  lemma IssueKeys(w: World, i: nat, cmd: Command, rnd: Random, p: Pair, c: Crypto)
    requires Enabled(w, Issue(i, cmd, rnd), c) && i < |w.hosts|
    ensures var step, w' := Issue(i, cmd, rnd), IssueStep(w, i, cmd, rnd, c);
      && (KeyOfA(w', p) == if MakesKey(w, step, p.a, p.y, c) then rnd.symmetricKey else KeyOfA(w, p))
      && (KeyOfB(w', p) == if MakesKey(w, step, p.b, p.x, c) then rnd.symmetricKey else KeyOfB(w, p))
      && (MakesKey(w, step, p.a, p.y, c) ==> KeyOfA(w, p) == [])
      && (MakesKey(w, step, p.b, p.x, c) ==> KeyOfB(w, p) == [])
      && KeyMoves(w, step, w', p, c)
  {
    RequestKeys(w.hosts[i].process.state, cmd, rnd, c, p.y);
    RequestKeys(w.hosts[i].process.state, cmd, rnd, c, p.x);
    IssueHosts(w, i, cmd, rnd, c);
    hide CreateRequest, SymmetricKey, IssueStep, Enabled, Makes;
  }

  lemma IssueCommon(w: World, i: nat, cmd: Command, rnd: Random, p: Pair, keys: seq<Bytes>, c: Crypto)
    requires KeyInv(w, p, keys, c) && p.a != p.b
    requires Enabled(w, Issue(i, cmd, rnd), c) && i < |w.hosts| && NoClash(w, Issue(i, cmd, rnd), p, c)
    ensures var w' := IssueStep(w, i, cmd, rnd, c);
      && CommonStep(w, w', p)
      && (KeyOfA(w', p) == [] || KeyOfA(w', p) == CommonKey(w', p))
      && (KeyOfB(w', p) == [] || KeyOfB(w', p) == CommonKey(w', p))
  {
    IssueKeys(w, i, cmd, rnd, p, c);
    assert !(MakesKey(w, Issue(i, cmd, rnd), p.a, p.y, c) && MakesKey(w, Issue(i, cmd, rnd), p.b, p.x, c));
    hide KeyOfA, KeyOfB, IssueStep, MakesKey, MessagesOk, RequestLetterOk, AnswerLettersOk, Enabled;
  }

  /** A new request between the two clients is under the common key. */
  lemma IssueLetter(w: World, i: nat, cmd: Command, rnd: Random, p: Pair, keys: seq<Bytes>, c: Crypto)
    requires Inv(w, keys, c) && IdsOk(w, p) && KeyInv(w, p, keys, c) && Lawful(c) && Keys(keys, c)
    requires Enabled(w, Issue(i, cmd, rnd), c) && i < |w.hosts| && NoClash(w, Issue(i, cmd, rnd), p, c)
    ensures var (st', r) := CreateRequest(w.hosts[i].process.state, cmd, rnd, c);
      r.Success? ==> RequestLetterOk(p, CommonKey(IssueStep(w, i, cmd, rnd, c), p), Privs(p, keys), c, Connection(i, r.value, PlainOf(cmd), None))
  {
    var st := w.hosts[i].process.state;
    var w' := IssueStep(w, i, cmd, rnd, c);
    var (st', r) := CreateRequest(st, cmd, rnd, c);
    assert HostOk(Dir(w), keys, c, i, w.hosts[i].process);
    if r.Success? && r.value.request.SendMessage? {
      RequestContent(st, cmd, rnd, c);
      IssueCommon(w, i, cmd, rnd, p, keys, c);
      DirCanonical(w, r.value.request.dest);
      DirCanonical(w, r.value.clientId);
      assert Dir(w)[r.value.clientId].owner == i;
      assert w'.hosts[i].process.state == st';
      hide CreateRequest, Hex, UnHex, DirectoryOf, Consistent, UniqueRows, TwoMapsAgree, RStrip, CString, PadTo, ResponseOk, RequestOk, WaitOk, MessagesOk, RequestLetterOk, AnswerLettersOk, IssueStep, IdentityOk, Enabled;
      NewLetter(w, w', i, cmd, rnd, p, keys, c, st, st', r.value);
    }
  }

  lemma NewLetter(w: World, w': World, i: nat, cmd: Command, rnd: Random, p: Pair, keys: seq<Bytes>, c: Crypto, st: ClientState, st': ClientState, e: Envelope<HexId>)
    requires IdsOk(w, p) && p.a < |keys| && p.b < |keys| && Lawful(c) && Keys(keys, c) && DirOk(Dir(w), keys, c) && PeersOk(Dir(w), st)
    requires i < |w.hosts| == |w'.hosts| && w.hosts[i].process.state == st && w'.hosts[i].process.state == st'
    requires CommonKey(w, p) == [] || |CommonKey(w, p)| == 16
    requires KeyOfA(w, p) == [] || KeyOfA(w, p) == CommonKey(w, p)
    requires KeyOfB(w, p) == [] || KeyOfB(w, p) == CommonKey(w, p)
    requires KeyOfA(w', p) == [] || KeyOfA(w', p) == CommonKey(w', p)
    requires KeyOfB(w', p) == [] || KeyOfB(w', p) == CommonKey(w', p)
    requires CommonStep(w, w', p)
    requires e.request.SendMessage? && e.clientId in Dir(w) && Dir(w)[e.clientId].owner == i
    requires Canonical(e.clientId) && Canonical(e.request.dest)
    requires var SendMessage(dest, messageType, content) := e.request;
      && dest in st.peers
      && (messageType == SEND_SYMMETRIC_KEY ==>
            && st.peers[dest].publicKey != [] && SymmetricKey(st', dest) != []
            && c.rsaEncrypt(st.peers[dest].publicKey, SymmetricKey(st', dest), rnd.seed) == Some(content))
      && (IsSecret(messageType) ==>
            && PlainOf(cmd).Some? && |SymmetricKey(st, dest)| == 16
            && content == c.aesEncrypt(SymmetricKey(st, dest), PlainOf(cmd).value))
    ensures RequestLetterOk(p, CommonKey(w', p), Privs(p, keys), c, Connection(i, e, PlainOf(cmd), None))
  {
    hide Hex, UnHex, Canonical, DirectoryOf, TwoMapsAgree, CString, PadTo, PlainOf, SymmetricKey;
    var SendMessage(dest, messageType, content) := e.request;
    if e.clientId == p.x && dest == p.y {
      assert i == p.a;
      if messageType == SEND_SYMMETRIC_KEY {
        assert st.peers[dest].publicKey == c.publicKeyOf(keys[p.b]);
        assert |CommonKey(w', p)| == 16;
      }
    } else if e.clientId == p.y && dest == p.x {
      assert i == p.b;
      if messageType == SEND_SYMMETRIC_KEY {
        assert st.peers[dest].publicKey == c.publicKeyOf(keys[p.a]);
        assert |CommonKey(w', p)| == 16;
      }
    }
  }

  lemma IssueKeepsKeys(w: World, i: nat, cmd: Command, rnd: Random, p: Pair, keys: seq<Bytes>, c: Crypto)
    requires Inv(w, keys, c) && IdsOk(w, p) && KeyInv(w, p, keys, c) && Lawful(c) && Keys(keys, c)
    requires Enabled(w, Issue(i, cmd, rnd), c) && i < |w.hosts| && NoClash(w, Issue(i, cmd, rnd), p, c)
    ensures KeyInv(IssueStep(w, i, cmd, rnd, c), p, keys, c)
  {
    var w' := IssueStep(w, i, cmd, rnd, c);
    IssueLetter(w, i, cmd, rnd, p, keys, c);
    IssueCommon(w, i, cmd, rnd, p, keys, c);
    OldMessages(w, w', p, Privs(p, keys), c, w.db.messages);
    IssueFrame(w, i, cmd, rnd, c);
    CommonIsShort(w, w', p);
    hide CreateRequest, IssueStep, Inv, IdsOk, Lawful, Keys, NoClash, MessagesOk, RequestLetterOk, AnswerLettersOk, CommonKey, KeyOfA, KeyOfB, CommonStep, Enabled, PlainOf;
    forall s | 0 <= s < |w'.connections|
      ensures RequestLetterOk(p, CommonKey(w', p), Privs(p, keys), c, w'.connections[s])
      ensures AnswerLettersOk(p, CommonKey(w', p), Privs(p, keys), c, w'.plains, w'.db.lastId, w'.connections[s])
    {
      IssueConnection(w, w', s, p, keys, c);
    }
  }

  lemma IssueConnection(w: World, w': World, s: nat, p: Pair, keys: seq<Bytes>, c: Crypto)
    requires KeyInv(w, p, keys, c) && CommonStep(w, w', p) && s < |w'.connections|
    requires w'.db == w.db && w'.plains == w.plains
    requires if s < |w.connections| then w'.connections[s] == w.connections[s]
      else w'.connections[s].answer.None? && RequestLetterOk(p, CommonKey(w', p), Privs(p, keys), c, w'.connections[s])
    ensures RequestLetterOk(p, CommonKey(w', p), Privs(p, keys), c, w'.connections[s])
    ensures AnswerLettersOk(p, CommonKey(w', p), Privs(p, keys), c, w'.plains, w'.db.lastId, w'.connections[s])
  {
    hide MessagesOk, RequestLetterOk, CommonKey, KeyOfA, KeyOfB, CommonStep;
    if s < |w.connections| {
      OldLetters(w, w', p, Privs(p, keys), c, w.connections[s], w.db.lastId);
    }
  }

  lemma CommonIsShort(w: World, w': World, p: Pair)
    requires CommonStep(w, w', p) && (CommonKey(w, p) == [] || |CommonKey(w, p)| == 16)
    ensures CommonKey(w', p) == [] || |CommonKey(w', p)| == 16
  {
    hide CommonKey;
  }

  // ---------- Serving ----------

  lemma CutContent(content: Bytes, k: nat, whole: bool)
    requires k > 0 && (whole ==> k >= NumFrames(44 + |content|))
    ensures whole || |content| == 128 ==> ReceivedContent(content, k) == content
  {
  }

  /** Saving the message of an honest request. */
  lemma SavedMessageOk(p: Pair, key: Bytes, priv: Privates, c: Crypto, conn: Connection, k: nat, plain: Option<Bytes>, m: StoredMessage)
    requires k > 0 && conn.request.request.SendMessage? && RequestLetterOk(p, key, priv, c, conn)
    requires m.to == UnHex(conn.request.request.dest) && m.from == UnHex(conn.request.clientId) && m.messageType == conn.request.request.messageType
    requires m.content == ReceivedContent(conn.request.request.content, k)
    requires plain.Some? ==> plain == conn.plain && k >= NumFrames(44 + |conn.request.request.content|)
    ensures LetterOk(p, key, priv, c, Hex(m.from), Hex(m.to), m.messageType, m.content, plain)
  {
    var content := conn.request.request.content;
    CutContent(content, k, plain.Some?);
    hide ReceivedContent, Hex, UnHex;
  }

  lemma ServePlains(w: World, s: nat, k: nat, o: Outcome, whole: bool)
    requires s < |w.connections| && w.db.lastId <= o.db.lastId
    requires forall id :: id in w.plains ==> id <= w.db.lastId
    ensures var w' := ServeStep(w, s, whole, o);
      && PlainsGrow(w, w')
      && (forall id :: id in w'.plains ==> id <= w'.db.lastId)
      && (w.db.lastId < o.db.lastId ==>
            PlainOfId(w'.plains, o.db.lastId) == if whole then w.connections[s].plain else None)
  {
  }

  lemma ServeMessagesOk(w: World, s: nat, k: nat, o: Outcome, whole: bool, p: Pair, key: Bytes, priv: Privates, c: Crypto)
    requires s < |w.connections| && RequestLetterOk(p, key, priv, c, w.connections[s])
    requires w.db.lastId <= o.db.lastId && MessagesOk(p, key, priv, c, w.plains, w.db.messages)
    requires forall id :: id in w.plains ==> id <= w.db.lastId
    requires forall m :: m in w.db.messages ==> m.id <= w.db.lastId
    requires var e := w.connections[s].request;
      && (whole && e.request.SendMessage? ==> k >= NumFrames(44 + |e.request.content|))
      && forall m :: m in o.db.messages && m !in w.db.messages ==>
           && k > 0 && e.request.SendMessage? && o.db.lastId == w.db.lastId + 1
           && m == StoredMessage(o.db.lastId, UnHex(e.request.dest), UnHex(e.clientId), e.request.messageType, ReceivedContent(e.request.content, k))
    ensures var w' := ServeStep(w, s, whole, o);
      MessagesOk(p, key, priv, c, w'.plains, o.db.messages)
  {
    var w' := ServeStep(w, s, whole, o);
    ServePlains(w, s, k, o, whole);
    hide ServeStep, ReceivedContent, Hex, UnHex, LetterOk, RequestLetterOk;
    forall m | m in o.db.messages ensures MessageOk(p, key, priv, c, w'.plains, m) {
      if m in w.db.messages {
        OldMessageOk(w, w', p, key, priv, c, m);
      } else {
        SavedMessageOk(p, key, priv, c, w.connections[s], k, PlainOfId(w'.plains, m.id), m);
      }
    }
  }

  lemma ServeConnectionsOk(w: World, s: nat, k: nat, o: Outcome, whole: bool, p: Pair, key: Bytes, priv: Privates, c: Crypto, t: nat)
    requires s < |w.connections| && t < |w.connections| && w.db.lastId <= o.db.lastId
    requires MessagesOk(p, key, priv, c, w.plains, w.db.messages)
    requires RequestLetterOk(p, key, priv, c, w.connections[t]) && AnswerLettersOk(p, key, priv, c, w.plains, w.db.lastId, w.connections[t])
    requires forall id :: id in w.plains ==> id <= w.db.lastId
    requires forall m :: m in w.db.messages ==> m.id <= w.db.lastId
    requires o.response.MessagesPulled? ==> forall m :: m in o.response.messages ==> m in w.db.messages
    ensures var w' := ServeStep(w, s, whole, o);
      && RequestLetterOk(p, key, priv, c, w'.connections[t])
      && AnswerLettersOk(p, key, priv, c, w'.plains, w'.db.lastId, w'.connections[t])
  {
    var w' := ServeStep(w, s, whole, o);
    ServePlains(w, s, k, o, whole);
    hide MessageOk, RequestLetterOk;
    SameRequestOk(p, key, priv, c, w.connections[t], w'.connections[t]);
    if t == s {
      if o.response.MessagesPulled? {
        forall m | m in o.response.messages ensures MessageOk(p, key, priv, c, w'.plains, m) {
          OldMessageOk(w, w', p, key, priv, c, m);
        }
      }
    } else {
      OldAnswerOk(w, w', p, key, priv, c, w.connections[t]);
    }
  }

  lemma StoredIds(w: World, keys: seq<Bytes>, c: Crypto)
    requires Inv(w, keys, c)
    ensures forall m :: m in w.db.messages ==> m.id <= w.db.lastId
  {
    hide UniqueRows, DirOk, HostOk, RequestOk, ResponseOk, WaitOk;
  }

  lemma ServeKeepsKeys(w: World, s: nat, k: nat, env: Env, p: Pair, keys: seq<Bytes>, c: Crypto)
    requires Inv(w, keys, c) && KeyInv(w, p, keys, c) && Enabled(w, Step.Serve(s, k, env), c)
    ensures var w' := AtomicNext(w, Step.Serve(s, k, env), c);
      KeyInv(w', p, keys, c) && KeyOfA(w', p) == KeyOfA(w, p) && KeyOfB(w', p) == KeyOfB(w, p)
  {
    hide AtomicNext, Enabled, Server.Serve, RequestFrames, Arrived, Writable, ReceivedContent, Hex, UnHex, MessagesOk, RequestLetterOk, AnswerLettersOk, PlainsGrow;
    ServeUnfold(w, s, k, env, c);
    var conn := w.connections[s];
    var e := conn.request;
    var o := Server.Serve(w.db, Arrived(e, k), env);
    var whole := k == |RequestFrames(e)|;
    var w' := ServeStep(w, s, whole, o);
    var key, priv := CommonKey(w, p), Privs(p, keys);
    StoredIds(w, keys, c);
    assert KeyOfA(w', p) == KeyOfA(w, p) && KeyOfB(w', p) == KeyOfB(w, p) && CommonKey(w', p) == key;
    hide Inv, KeyOfA, KeyOfB, CommonKey, Privs;
    ServeMessages(w.db, e, k, env);
    if e.request.SendMessage? {
      FrameCount(e);
    }
    ServePlains(w, s, k, o, whole);
    ServeMessagesOk(w, s, k, o, whole, p, key, priv, c);
    hide PlainOfId;
    forall t | 0 <= t < |w'.connections|
      ensures RequestLetterOk(p, key, priv, c, w'.connections[t])
      ensures AnswerLettersOk(p, key, priv, c, w'.plains, w'.db.lastId, w'.connections[t])
    {
      ServeConnectionsOk(w, s, k, o, whole, p, key, priv, c, t);
    }
  }

  lemma FrameCount(e: Envelope<HexId>)
    requires Writable(e.request) && e.request.SendMessage?
    ensures |RequestFrames(e)| == NumFrames(44 + |e.request.content|)
  {
    hide UnHex, LE;
    assert |RequestStream(UnHexEnvelope(e))| == 44 + |e.request.content|;
  }

  lemma SameRequestOk(p: Pair, key: Bytes, priv: Privates, c: Crypto, conn: Connection, conn': Connection)
    requires RequestLetterOk(p, key, priv, c, conn) && conn'.request == conn.request && conn'.plain == conn.plain
    ensures RequestLetterOk(p, key, priv, c, conn')
  {
    hide LetterOk, Canonical;
  }

  /** New plaintexts are recorded under new ids only. */
  ghost predicate PlainsGrow(w: World, w': World) {
    forall id :: 0 <= id <= w.db.lastId ==> PlainOfId(w'.plains, id) == PlainOfId(w.plains, id)
  }

  lemma OldMessageOk(w: World, w': World, p: Pair, key: Bytes, priv: Privates, c: Crypto, m: StoredMessage)
    requires PlainsGrow(w, w') && MessageOk(p, key, priv, c, w.plains, m) && m.id <= w.db.lastId
    ensures MessageOk(p, key, priv, c, w'.plains, m)
  {
    hide Hex, LetterOk;
    assert PlainOfId(w'.plains, m.id) == PlainOfId(w.plains, m.id);
  }

  lemma OldAnswerOk(w: World, w': World, p: Pair, key: Bytes, priv: Privates, c: Crypto, conn: Connection)
    requires PlainsGrow(w, w') && w.db.lastId <= w'.db.lastId && AnswerLettersOk(p, key, priv, c, w.plains, w.db.lastId, conn)
    ensures AnswerLettersOk(p, key, priv, c, w'.plains, w'.db.lastId, conn)
  {
    hide MessageOk;
    if conn.answer.Some? && conn.answer.value.outcome.response.MessagesPulled? {
      var ms := conn.answer.value.outcome.response.messages;
      forall m | m in ms ensures MessageOk(p, key, priv, c, w'.plains, m) {
        OldMessageOk(w, w', p, key, priv, c, m);
      }
    }
  }

  // ---------- Delivering ----------

  /** Pulled messages change the key for a sender only to what its key messages wrap. */
  lemma {:induction false} PulledKeys(st: ClientState, ms: seq<Record<HexId>>, c: Crypto, h: HexId, key: Bytes)
    requires forall n :: 0 <= n < |ms| && ms[n].from == h && ms[n].messageType == SEND_SYMMETRIC_KEY ==> c.rsaDecrypt(st.privateKey, ms[n].content) == Some(key)
    ensures var st' := HandleMessages(st, ms, c).0;
      SymmetricKey(st', h) == SymmetricKey(st, h) || SymmetricKey(st', h) == key
  {
    if ms != [] {
      var init := ms[..|ms| - 1];
      assert forall n :: 0 <= n < |init| ==> init[n] == ms[n];
      PulledKeys(st, init, c, h, key);
      HandleMessagesKeeps(st, init, c);
    }
  }

  /** One key message from a known sender is enough: afterwards the key for that sender is the wrapped one. */
  lemma {:induction false} KeyArrives(st: ClientState, ms: seq<Record<HexId>>, c: Crypto, h: HexId, key: Bytes, n: nat)
    requires forall k :: 0 <= k < |ms| && ms[k].from == h && ms[k].messageType == SEND_SYMMETRIC_KEY ==> c.rsaDecrypt(st.privateKey, ms[k].content) == Some(key)
    requires n < |ms| && ms[n].from == h && ms[n].messageType == SEND_SYMMETRIC_KEY && h in st.peers && st.privateKey != []
    ensures SymmetricKey(HandleMessages(st, ms, c).0, h) == key
  {
    var init := ms[..|ms| - 1];
    assert forall k :: 0 <= k < |init| ==> init[k] == ms[k];
    HandleMessagesKeeps(st, init, c);
    if n < |init| {
      KeyArrives(st, init, c, h, key, n);
    }
  }

  lemma {:induction false} ListKeys(st: ClientState, cs: seq<ClientEntry<HexId>>, h: HexId)
    ensures SymmetricKey(InsertClients(st, cs), h) == SymmetricKey(st, h)
  {
    if cs != [] {
      ListKeys(st, cs[..|cs| - 1], h);
    }
  }

  /** Any other response leaves all symmetric keys alone. */
  lemma OtherKeys(st: ClientState, r: Response, c: Crypto, h: HexId)
    requires !r.MessagesPulled?
    ensures SymmetricKey(HandleResponse(st, View(r), c).0, h) == SymmetricKey(st, h)
  {
    hide Hex;
    if r.ClientsList? {
      ListKeys(st, ListedClients(EntriesOf(r.clients)), h);
    }
  }

  /** The key messages from `h` in an answer wrap `key`. */
  ghost predicate Wrapped(r: Response, priv: Bytes, c: Crypto, h: HexId, key: Bytes) {
    r.MessagesPulled? ==> forall m :: m in r.messages && Hex(m.from) == h && m.messageType == SEND_SYMMETRIC_KEY ==> c.rsaDecrypt(priv, m.content) == Some(key)
  }

  /** A host's key for `h` after its answer arrived. */
  lemma DeliverKey(w: World, i: nat, j: nat, c: Crypto, h: HexId, key: Bytes)
    requires Enabled(w, Deliver(i, j), c)
    requires Wrapped(AnswerTo(w, i), w.hosts[i].process.state.privateKey, c, h, key)
    ensures i < |AtomicNext(w, Deliver(i, j), c).hosts|
    ensures var before, after := SymmetricKey(w.hosts[i].process.state, h), SymmetricKey(AtomicNext(w, Deliver(i, j), c).hosts[i].process.state, h);
      after == before || after == key
  {
    DeliverFrame(w, i, j, c);
    hide Enabled, AtomicNext;
    var st := w.hosts[i].process.state;
    var r := AnswerTo(w, i);
    if r.MessagesPulled? {
      var ms := HexRecords(RecordsOf(r.messages));
      forall n | 0 <= n < |ms| && ms[n].from == h && ms[n].messageType == SEND_SYMMETRIC_KEY ensures c.rsaDecrypt(st.privateKey, ms[n].content) == Some(key) {
        assert r.messages[n] in r.messages;
      }
      PulledKeys(st, ms, c, h, key);
      hide HandleMessages;
    } else {
      OtherKeys(st, r, c, h);
      hide HandleResponse, View;
    }
  }

  /** What A or B pulls is addressed to it, so the letters in it are ones the invariant speaks of. */
  lemma DeliverAddressed(w: World, i: nat, j: nat, p: Pair, keys: seq<Bytes>, c: Crypto)
    requires Inv(w, keys, c) && IdsOk(w, p) && KeyInv(w, p, keys, c) && Enabled(w, Deliver(i, j), c)
    ensures i == p.a ==> Wrapped(AnswerTo(w, i), w.hosts[i].process.state.privateKey, c, p.y, CommonKey(w, p))
    ensures i == p.b ==> Wrapped(AnswerTo(w, i), w.hosts[i].process.state.privateKey, c, p.x, CommonKey(w, p))
  {
    DeliverFrame(w, i, j, c);
    var r := AnswerTo(w, i);
    var conn := w.connections[w.hosts[i].waitingFor.value];
    hide Enabled, AtomicNext, Hex, UnHex, DirectoryOf, Consistent, UniqueRows, TwoMapsAgree, PeersOk, RStrip, CString, PadTo, DirOk, RequestLetterOk, CommonKey, KeyOfB;
    if r.MessagesPulled? && (i == p.a || i == p.b) {
      assert WaitOk(w, i) && HostOk(Dir(w), keys, c, i, w.hosts[i].process);
      assert RequestOk(w, keys, c, conn);
      assert ResponseOk(Dir(w), conn, r);
      assert AnswerLettersOk(p, CommonKey(w, p), Privs(p, keys), c, w.plains, w.db.lastId, conn);
      DirCanonical(w, conn.request.clientId);
    }
  }

  lemma DeliverKeepsKeys(w: World, i: nat, j: nat, p: Pair, keys: seq<Bytes>, c: Crypto)
    requires Inv(w, keys, c) && IdsOk(w, p) && KeyInv(w, p, keys, c) && Enabled(w, Deliver(i, j), c)
    ensures var w' := AtomicNext(w, Deliver(i, j), c);
      KeyInv(w', p, keys, c) && KeyMoves(w, Deliver(i, j), w', p, c)
  {
    DeliverAddressed(w, i, j, p, keys, c);
    DeliverFrame(w, i, j, c);
    hide Inv, AtomicNext, Enabled, Hex, DirectoryOf, KeyInv, HandleResponse, View, Wrapped, CommonKey, MakesKey;
    if i == p.a {
      DeliverKey(w, i, j, c, p.y, CommonKey(w, p));
    } else if i == p.b {
      DeliverKey(w, i, j, c, p.x, CommonKey(w, p));
    }
    KeysKept(w, Deliver(i, j), AtomicNext(w, Deliver(i, j), c), p, keys, c);
  }

  /** A step that only changes hosts keeps the invariant when each key stays or becomes the common one. */
  lemma KeysKept(w: World, step: Step, w': World, p: Pair, keys: seq<Bytes>, c: Crypto)
    requires KeyInv(w, p, keys, c)
    requires w'.db == w.db && w'.plains == w.plains && w'.connections == w.connections
    requires KeyOfA(w', p) == KeyOfA(w, p) || KeyOfA(w', p) == CommonKey(w, p)
    requires KeyOfB(w', p) == KeyOfB(w, p) || KeyOfB(w', p) == CommonKey(w, p)
    ensures KeyInv(w', p, keys, c) && KeyMoves(w, step, w', p, c)
  {
    hide KeyOfA, KeyOfB, MessagesOk, RequestLetterOk, AnswerLettersOk, MakesKey;
    assert CommonKey(w', p) == CommonKey(w, p);
  }

  // ---------- Runs ----------

  lemma AtomicNextKeepsKeys(w: World, step: Step, p: Pair, keys: seq<Bytes>, c: Crypto)
    requires Inv(w, keys, c) && IdsOk(w, p) && KeyInv(w, p, keys, c) && Lawful(c) && Keys(keys, c) && NoClash(w, step, p, c)
    ensures var w' := AtomicNext(w, step, c);
      KeyInv(w', p, keys, c) && KeyMoves(w, step, w', p, c)
  {
    hide Inv, IdsOk, KeyInv, Lawful, Keys, NoClash, KeyOfA, KeyOfB, MakesKey;
    if Enabled(w, step, c) {
      match step
      case Issue(i, cmd, rnd) =>
        IssueKeepsKeys(w, i, cmd, rnd, p, keys, c);
        IssueKeys(w, i, cmd, rnd, p, c);
        hide KeyMoves;
      case Serve(s, k, env) =>
        ServeKeepsKeys(w, s, k, env, p, keys, c);
      case Deliver(i, j) =>
        DeliverKeepsKeys(w, i, j, p, keys, c);
        hide KeyMoves;
      case GiveUp(i) =>
        GiveUpKeepsKeys(w, i, p, keys, c);
        hide KeyMoves;
    }
  }

  lemma GiveUpKeepsKeys(w: World, i: nat, p: Pair, keys: seq<Bytes>, c: Crypto)
    requires KeyInv(w, p, keys, c) && i < |w.hosts|
    ensures var w' := w.(hosts := w.hosts[i := w.hosts[i].(waitingFor := None)]);
      KeyInv(w', p, keys, c) && KeyMoves(w, GiveUp(i), w', p, c)
  {
    hide KeyInv, KeyMoves;
    KeysKept(w, GiveUp(i), w.(hosts := w.hosts[i := w.hosts[i].(waitingFor := None)]), p, keys, c);
  }

  /** An id, once known, stays, and rows stay with their owners: the ids at the end of a step were right before it. */
  lemma IdsBefore(w: World, step: Step, p: Pair, keys: seq<Bytes>, c: Crypto)
    requires Inv(w, keys, c) && Keys(keys, c) && Lawful(c) && IdsOk(AtomicNext(w, step, c), p)
    ensures IdsOk(w, p)
  {
    IdsGrow(w, step, keys, c);
    hide Inv, AtomicNext, DirectoryOf, Keys, Lawful;
  }

  /** Known ids stay known, and registered ids stay with their owners. */
  lemma IdsGrow(w: World, step: Step, keys: seq<Bytes>, c: Crypto)
    requires Inv(w, keys, c) && Keys(keys, c) && Lawful(c)
    ensures SameIds(w.hosts, AtomicNext(w, step, c).hosts) && Extends(Dir(w), Dir(AtomicNext(w, step, c)))
  {
    hide DirectoryOf, HostOk, DirOk, ResponseOk, UniqueRows, Consistent;
    if Enabled(w, step, c) {
      match step
      case Issue(i, cmd, rnd) =>
        hide Inv;
        CreateRequestKeeps(w.hosts[i].process.state, cmd, rnd, c);
        hide CreateRequest, SamePeers;
      case Serve(s, k, env) =>
        ServeDirectory(w, s, k, env, keys, c);
        ServeUnfold(w, s, k, env, c);
        hide Server.Serve, Inv, RequestFrames, Enabled, AtomicNext;
      case Deliver(i, j) =>
        var conn := w.connections[w.hosts[i].waitingFor.value];
        assert WaitOk(w, i);
        FinishKeeps(Dir(w), keys, c, i, w.hosts[i].process, conn, conn.answer.value.outcome, j);
        hide Inv, Finish;
      case GiveUp(i) =>
    }
  }

  /** The ids the two have in the end are the ones they ever had. */
  lemma {:induction false} IdsAt(keys: seq<Bytes>, steps: seq<Step>, n: nat, p: Pair, c: Crypto)
    requires n <= |steps| && Keys(keys, c) && Lawful(c) && IdsOk(At(keys, steps, |steps|, c), p)
    ensures IdsOk(At(keys, steps, n, c), p)
    decreases |steps| - n
  {
    hide *;
    if n < |steps| {
      IdsAt(keys, steps, n + 1, p, c);
      AtNext(keys, steps, n, c);
      IdsBefore(At(keys, steps, n, c), steps[n], p, keys, c);
    }
  }

  /** Both are registered when the run ends, A as x and B as y. */
  ghost predicate BothRegistered(keys: seq<Bytes>, steps: seq<Step>, p: Pair, c: Crypto) {
    var w := At(keys, steps, |steps|, c);
    && p.a != p.b && p.a < |w.hosts| && p.b < |w.hosts|
    && w.hosts[p.a].process.state.clientId == Some(p.x) && w.hosts[p.b].process.state.clientId == Some(p.y)
  }

  lemma RegisteredIds(keys: seq<Bytes>, steps: seq<Step>, n: nat, p: Pair, c: Crypto)
    requires n <= |steps| && Keys(keys, c) && Lawful(c) && BothRegistered(keys, steps, p, c)
    ensures IdsOk(At(keys, steps, n, c), p) && Inv(At(keys, steps, n, c), keys, c)
  {
    assert steps[..|steps|] == steps;
    RunInv(steps, keys, c);
    RunInv(steps[..n], keys, c);
    hide Run;
    var w := At(keys, steps, |steps|, c);
    assert IdsOk(w, p) by {
      assert HostOk(Dir(w), keys, c, p.a, w.hosts[p.a].process) && HostOk(Dir(w), keys, c, p.b, w.hosts[p.b].process);
    }
    hide *;
    IdsAt(keys, steps, n, p, c);
  }

  ghost predicate NoClashBefore(keys: seq<Bytes>, steps: seq<Step>, n: nat, p: Pair, c: Crypto)
    requires n <= |steps|
  {
    forall m: nat :: m < n ==> NoClash(At(keys, steps, m, c), steps[m], p, c)
  }

  /** One step of a run without clashes. */
  lemma StepKeeps(keys: seq<Bytes>, steps: seq<Step>, n: nat, p: Pair, c: Crypto)
    requires n < |steps| && Keys(keys, c) && Lawful(c) && BothRegistered(keys, steps, p, c)
    requires KeyInv(At(keys, steps, n, c), p, keys, c) && NoClash(At(keys, steps, n, c), steps[n], p, c)
    ensures KeyInv(At(keys, steps, n + 1, c), p, keys, c)
    ensures KeyMoves(At(keys, steps, n, c), steps[n], At(keys, steps, n + 1, c), p, c)
  {
    hide *;
    RegisteredIds(keys, steps, n, p, c);
    AtNext(keys, steps, n, c);
    AtomicNextKeepsKeys(At(keys, steps, n, c), steps[n], p, keys, c);
  }

  lemma KeysAtStart(keys: seq<Bytes>, steps: seq<Step>, p: Pair, c: Crypto)
    requires Keys(keys, c) && Lawful(c) && BothRegistered(keys, steps, p, c)
    ensures KeyInv(At(keys, steps, 0, c), p, keys, c)
    ensures KeyOfA(At(keys, steps, 0, c), p) == [] && KeyOfB(At(keys, steps, 0, c), p) == []
  {
    assert steps[..0] == [];
    RegisteredIds(keys, steps, 0, p, c);
    hide BothRegistered, Keys, Lawful;
  }

  /** Without clashes before step n, the invariant holds there. */
  lemma {:induction false} KeysAt(keys: seq<Bytes>, steps: seq<Step>, n: nat, p: Pair, c: Crypto)
    requires n <= |steps| && Keys(keys, c) && Lawful(c) && BothRegistered(keys, steps, p, c) && NoClashBefore(keys, steps, n, p, c)
    ensures KeyInv(At(keys, steps, n, c), p, keys, c)
  {
    hide At, KeyInv, Keys, Lawful, BothRegistered, NoClash;
    if n == 0 {
      KeysAtStart(keys, steps, p, c);
    } else {
      KeysAt(keys, steps, n - 1, p, c);
      assert NoClash(At(keys, steps, n - 1, c), steps[n - 1], p, c);
      StepKeeps(keys, steps, n - 1, p, c);
    }
  }

  /** Each key, once there, stays. */
  lemma {:induction false} KeysStay(keys: seq<Bytes>, steps: seq<Step>, m: nat, n: nat, p: Pair, c: Crypto)
    requires m <= n <= |steps| && Keys(keys, c) && Lawful(c) && BothRegistered(keys, steps, p, c) && NoClashBefore(keys, steps, n, p, c)
    ensures var w, w' := At(keys, steps, m, c), At(keys, steps, n, c);
      (KeyOfA(w, p) != [] ==> KeyOfA(w', p) == KeyOfA(w, p)) && (KeyOfB(w, p) != [] ==> KeyOfB(w', p) == KeyOfB(w, p))
  {
    hide At, KeyInv, Keys, Lawful, BothRegistered, NoClash, KeyOfA, KeyOfB, CommonKey, MakesKey;
    if m < n {
      KeysStay(keys, steps, m, n - 1, p, c);
      KeysAt(keys, steps, n - 1, p, c);
      assert NoClash(At(keys, steps, n - 1, c), steps[n - 1], p, c);
      StepKeeps(keys, steps, n - 1, p, c);
    }
  }

  // ---------- Crossing keys ----------

  /** A makes a key for B in step i, B makes another one for A in step j. */
  ghost predicate Crossing(keys: seq<Bytes>, steps: seq<Step>, i: nat, j: nat, p: Pair, c: Crypto)
    requires i < |steps| && j < |steps|
  {
    && MakesKey(At(keys, steps, i, c), steps[i], p.a, p.y, c) && MakesKey(At(keys, steps, j, c), steps[j], p.b, p.x, c)
    && steps[i].rnd.symmetricKey != steps[j].rnd.symmetricKey
  }

  ghost predicate KeysCross(keys: seq<Bytes>, steps: seq<Step>, p: Pair, c: Crypto) {
    exists i: nat, j: nat :: i < |steps| && j < |steps| && Crossing(keys, steps, i, j, p, c)
  }

  /** B made, before step n, the key k for A. */
  ghost predicate MadeByB(keys: seq<Bytes>, steps: seq<Step>, n: nat, k: Bytes, p: Pair, c: Crypto)
    requires n <= |steps|
  {
    exists j: nat :: j < n && MakesKey(At(keys, steps, j, c), steps[j], p.b, p.x, c) && steps[j].rnd.symmetricKey == k
  }

  ghost predicate MadeByA(keys: seq<Bytes>, steps: seq<Step>, n: nat, k: Bytes, p: Pair, c: Crypto)
    requires n <= |steps|
  {
    exists i: nat :: i < n && MakesKey(At(keys, steps, i, c), steps[i], p.a, p.y, c) && steps[i].rnd.symmetricKey == k
  }

  /** A key that only one of the two has was made by that one. */
  lemma {:induction false} KeyOrigin(keys: seq<Bytes>, steps: seq<Step>, n: nat, p: Pair, c: Crypto)
    requires n <= |steps| && Keys(keys, c) && Lawful(c) && BothRegistered(keys, steps, p, c) && NoClashBefore(keys, steps, n, p, c)
    ensures var w := At(keys, steps, n, c);
      && (KeyOfA(w, p) == [] && KeyOfB(w, p) != [] ==> MadeByB(keys, steps, n, KeyOfB(w, p), p, c))
      && (KeyOfB(w, p) == [] && KeyOfA(w, p) != [] ==> MadeByA(keys, steps, n, KeyOfA(w, p), p, c))
  {
    hide At, KeyInv, Keys, Lawful, BothRegistered, NoClash, KeyOfA, KeyOfB, MakesKey;
    if n == 0 {
      KeysAtStart(keys, steps, p, c);
    } else {
      KeyOrigin(keys, steps, n - 1, p, c);
      KeysAt(keys, steps, n - 1, p, c);
      assert NoClash(At(keys, steps, n - 1, c), steps[n - 1], p, c);
      StepKeeps(keys, steps, n - 1, p, c);
    }
  }

  lemma MakersHadNone(w: World, step: Step, p: Pair, c: Crypto)
    ensures MakesKey(w, step, p.a, p.y, c) ==> KeyOfA(w, p) == []
    ensures MakesKey(w, step, p.b, p.x, c) ==> KeyOfB(w, p) == []
  {
    hide Enabled;
  }

  /** When no keys cross, nobody ever makes a key while the other has a different one. */
  lemma {:induction false} NoCrossingNoClash(keys: seq<Bytes>, steps: seq<Step>, n: nat, p: Pair, c: Crypto)
    requires n <= |steps| && Keys(keys, c) && Lawful(c) && BothRegistered(keys, steps, p, c) && !KeysCross(keys, steps, p, c)
    ensures NoClashBefore(keys, steps, n, p, c)
  {
    hide At, Keys, Lawful, BothRegistered, KeyOfA, KeyOfB, MakesKey;
    if n > 0 {
      var w, step := At(keys, steps, n - 1, c), steps[n - 1];
      NoCrossingNoClash(keys, steps, n - 1, p, c);
      KeyOrigin(keys, steps, n - 1, p, c);
      MakersHadNone(w, step, p, c);
      if MakesKey(w, step, p.a, p.y, c) && KeyOfB(w, p) != [] {
        var j: nat :| j < n - 1 && MakesKey(At(keys, steps, j, c), steps[j], p.b, p.x, c) && steps[j].rnd.symmetricKey == KeyOfB(w, p);
        assert !Crossing(keys, steps, n - 1, j, p, c);
      }
      if MakesKey(w, step, p.b, p.x, c) && KeyOfA(w, p) != [] {
        var i: nat :| i < n - 1 && MakesKey(At(keys, steps, i, c), steps[i], p.a, p.y, c) && steps[i].rnd.symmetricKey == KeyOfA(w, p);
        assert !Crossing(keys, steps, i, n - 1, p, c);
      }
    }
  }
  // ---------- What is displayed ----------

  function Revealed(messageType: Byte, plain: Bytes): Body {
    if messageType == SEND_FILE then File(plain) else Text(plain)
  }

  /** An item shows the plaintext or nothing of it. */
  predicate Truthful(item: Item, messageType: Byte, plain: Bytes) {
    item.UnknownUserId? || item.body == CantDecrypt || item.body == Revealed(messageType, plain)
  }

  /** Messages encrypted under the agreed key show their plaintext; before the key arrived they show nothing. */
  lemma {:induction false} ShownItems(st: ClientState, ms: seq<Record<HexId>>, c: Crypto, h: HexId, key: Bytes, n: nat, plain: Bytes)
    requires Lawful(c) && |key| == 16
    requires forall k :: 0 <= k < |ms| && ms[k].from == h && ms[k].messageType == SEND_SYMMETRIC_KEY ==> c.rsaDecrypt(st.privateKey, ms[k].content) == Some(key)
    requires SymmetricKey(st, h) == [] || SymmetricKey(st, h) == key
    requires n < |ms| && ms[n].from == h && IsSecret(ms[n].messageType) && ms[n].content == c.aesEncrypt(key, plain)
    ensures var item := HandleMessages(st, ms, c).1[n];
      && Truthful(item, ms[n].messageType, plain)
      && (SymmetricKey(st, h) == key ==> h in st.peers && item == From(st.peers[h].name, Revealed(ms[n].messageType, plain)))
  {
    var init := ms[..|ms| - 1];
    assert forall k :: 0 <= k < |init| ==> init[k] == ms[k];
    PulledKeys(st, init, c, h, key);
    HandleMessagesKeeps(st, init, c);
    if n < |init| {
      ShownItems(st, init, c, h, key, n, plain);
    } else {
      assert c.aesDecrypt(key, ms[n].content) == Some(plain);
    }
  }

  /** The item that a client in state `st` shows for the n-th of the messages it pulled is true. */
  ghost predicate ItemTrue(st: ClientState, ms: seq<StoredMessage>, plains: map<nat, Bytes>, other: HexId, n: nat, item: Item)
    requires n < |ms|
  {
    Hex(ms[n].from) == other && IsSecret(ms[n].messageType) && ms[n].id in plains ==>
      && Truthful(item, ms[n].messageType, plains[ms[n].id])
      && (SymmetricKey(st, other) != [] ==> other in st.peers && item == From(st.peers[other].name, Revealed(ms[n].messageType, plains[ms[n].id])))
  }

  /** Host i, handling the answer that is under way to it, shows an item for every message, and every secret message of `other` truthfully. */
  ghost predicate ReadsTruly(w: World, i: nat, other: HexId, c: Crypto)
    requires i < |w.hosts|
  {
    HasAnswer(w, i) && AnswerTo(w, i).MessagesPulled? ==>
      var st, ms := w.hosts[i].process.state, AnswerTo(w, i).messages;
      var shown := HandleResponse(st, View(AnswerTo(w, i)), c).1;
      && shown.Success? && shown.value.Inbox? && |shown.value.items| == |ms|
      && forall n :: 0 <= n < |ms| ==> ItemTrue(st, ms, w.plains, other, n, shown.value.items[n])
  }

  lemma ItemIsTrue(st: ClientState, ms: seq<StoredMessage>, plains: map<nat, Bytes>, other: HexId, key: Bytes, c: Crypto, n: nat)
    requires Lawful(c) && n < |ms|
    requires SymmetricKey(st, other) == [] || SymmetricKey(st, other) == key
    requires Wrapped(MessagesPulled(ms, 0), st.privateKey, c, other, key)
    requires forall m :: m in ms && Hex(m.from) == other && IsSecret(m.messageType) && m.id in plains ==> |key| == 16 && m.content == c.aesEncrypt(key, plains[m.id])
    ensures ItemTrue(st, ms, plains, other, n, HandleMessages(st, HexRecords(RecordsOf(ms)), c).1[n])
  {
    hide Lawful, HandleMessages, Hex;
    if Hex(ms[n].from) == other && IsSecret(ms[n].messageType) && ms[n].id in plains {
      assert ms[n] in ms;
      var rs := HexRecords(RecordsOf(ms));
      forall k | 0 <= k < |rs| && rs[k].from == other && rs[k].messageType == SEND_SYMMETRIC_KEY ensures c.rsaDecrypt(st.privateKey, rs[k].content) == Some(key) {
        assert ms[k] in ms;
      }
      ShownItems(st, rs, c, other, key, n, plains[ms[n].id]);
    }
  }

  lemma ReadsTrulyAt(w: World, i: nat, p: Pair, keys: seq<Bytes>, c: Crypto)
    requires Inv(w, keys, c) && IdsOk(w, p) && KeyInv(w, p, keys, c) && Lawful(c) && (i == p.a || i == p.b)
    ensures ReadsTruly(w, i, if i == p.a then p.y else p.x, c)
  {
    if HasAnswer(w, i) && AnswerTo(w, i).MessagesPulled? {
      AnswerLetters(w, i, p, keys, c);
      KeyOfReader(w, i, p, keys, c);
      hide *;
      var other := if i == p.a then p.y else p.x;
      AnswerReadsTruly(w, i, other, CommonKey(w, p), c);
    }
  }

  lemma KeyOfReader(w: World, i: nat, p: Pair, keys: seq<Bytes>, c: Crypto)
    requires KeyInv(w, p, keys, c) && i < |w.hosts| && (i == p.a || i == p.b)
    ensures var key := SymmetricKey(w.hosts[i].process.state, if i == p.a then p.y else p.x); key == [] || key == CommonKey(w, p)
  {
    hide SymmetricKey, MessagesOk, RequestLetterOk, AnswerLettersOk, CommonKey;
  }

  lemma AnswerReadsTruly(w: World, i: nat, other: HexId, key: Bytes, c: Crypto)
    requires Lawful(c) && i < |w.hosts| && HasAnswer(w, i) && AnswerTo(w, i).MessagesPulled?
    requires SymmetricKey(w.hosts[i].process.state, other) == [] || SymmetricKey(w.hosts[i].process.state, other) == key
    requires Wrapped(AnswerTo(w, i), w.hosts[i].process.state.privateKey, c, other, key)
    requires forall m :: m in AnswerTo(w, i).messages && Hex(m.from) == other && IsSecret(m.messageType) && m.id in w.plains ==>
      |key| == 16 && m.content == c.aesEncrypt(key, w.plains[m.id])
    ensures ReadsTruly(w, i, other, c)
  {
    var st, r := w.hosts[i].process.state, AnswerTo(w, i);
    var items := HandleMessages(st, HexRecords(RecordsOf(r.messages)), c).1;
    assert HandleResponse(st, View(r), c).1 == Success(Inbox(items));
    hide Lawful, ItemTrue, Hex, SymmetricKey, HandleMessages, HandleResponse, View, IsSecret;
    forall n | 0 <= n < |r.messages| ensures ItemTrue(st, r.messages, w.plains, other, n, items[n]) {
      ItemIsTrue(st, r.messages, w.plains, other, key, c, n);
    }
  }

  /** What an answer to A or B holds from the other of the two. */
  lemma AnswerLetters(w: World, i: nat, p: Pair, keys: seq<Bytes>, c: Crypto)
    requires Inv(w, keys, c) && IdsOk(w, p) && KeyInv(w, p, keys, c) && (i == p.a || i == p.b)
    requires HasAnswer(w, i) && AnswerTo(w, i).MessagesPulled?
    ensures var other, key := if i == p.a then p.y else p.x, CommonKey(w, p);
      && Wrapped(AnswerTo(w, i), w.hosts[i].process.state.privateKey, c, other, key)
      && forall m :: m in AnswerTo(w, i).messages && Hex(m.from) == other && IsSecret(m.messageType) && m.id in w.plains ==>
           |key| == 16 && m.content == c.aesEncrypt(key, w.plains[m.id])
  {
    var r := AnswerTo(w, i);
    var conn := w.connections[w.hosts[i].waitingFor.value];
    hide Hex, UnHex, DirectoryOf, Consistent, UniqueRows, TwoMapsAgree, PeersOk, RStrip, CString, PadTo, DirOk, RequestLetterOk, CommonKey, KeyOfB;
    assert WaitOk(w, i) && HostOk(Dir(w), keys, c, i, w.hosts[i].process);
    assert RequestOk(w, keys, c, conn);
    assert ResponseOk(Dir(w), conn, r);
    assert AnswerLettersOk(p, CommonKey(w, p), Privs(p, keys), c, w.plains, w.db.lastId, conn);
    DirCanonical(w, conn.request.clientId);
    forall m | m in r.messages && Hex(m.from) == (if i == p.a then p.y else p.x) && IsSecret(m.messageType) && m.id in w.plains
      ensures |CommonKey(w, p)| == 16 && m.content == c.aesEncrypt(CommonKey(w, p), w.plains[m.id])
    {
      assert MessageOk(p, CommonKey(w, p), Privs(p, keys), c, w.plains, m);
    }
  }

  /** Agreement between A and B: there is one key, and everything between them is under it. */
  ghost predicate Agreed(w: World, p: Pair, keys: seq<Bytes>, c: Crypto) {
    && p.a < |w.hosts| && p.b < |w.hosts| && p.a < |keys| && p.b < |keys|
    && var key := CommonKey(w, p);
    && (key == [] || |key| == 16)
    && (KeyOfA(w, p) == [] || KeyOfA(w, p) == key)
    && (KeyOfB(w, p) == [] || KeyOfB(w, p) == key)
    && (forall m :: m in w.db.messages && Hex(m.from) == p.x && Hex(m.to) == p.y && m.messageType == SEND_SYMMETRIC_KEY ==> c.rsaDecrypt(keys[p.b], m.content) == Some(key))
    && (forall m :: m in w.db.messages && Hex(m.from) == p.y && Hex(m.to) == p.x && m.messageType == SEND_SYMMETRIC_KEY ==> c.rsaDecrypt(keys[p.a], m.content) == Some(key))
    && (forall m :: m in w.db.messages && Between(p, Hex(m.from), Hex(m.to)) && IsSecret(m.messageType) && m.id in w.plains ==> m.content == c.aesEncrypt(key, w.plains[m.id]))
    && ReadsTruly(w, p.a, p.y, c) && ReadsTruly(w, p.b, p.x, c)
  }

  lemma AgreedAt(keys: seq<Bytes>, steps: seq<Step>, n: nat, p: Pair, c: Crypto)
    requires n <= |steps| && Keys(keys, c) && Lawful(c) && BothRegistered(keys, steps, p, c) && !KeysCross(keys, steps, p, c)
    ensures Agreed(At(keys, steps, n, c), p, keys, c)
  {
    hide At, KeyInv, BothRegistered, KeysCross;
    var w := At(keys, steps, n, c);
    NoCrossingNoClash(keys, steps, n, p, c);
    KeysAt(keys, steps, n, p, c);
    RegisteredIds(keys, steps, n, p, c);
    ReadsTrulyAt(w, p.a, p, keys, c);
    ReadsTrulyAt(w, p.b, p, keys, c);
    InvAgreed(w, p, keys, c);
  }

  lemma InvAgreed(w: World, p: Pair, keys: seq<Bytes>, c: Crypto)
    requires KeyInv(w, p, keys, c) && IdsOk(w, p) && ReadsTruly(w, p.a, p.y, c) && ReadsTruly(w, p.b, p.x, c)
    ensures Agreed(w, p, keys, c)
  {
    hide ReadsTruly, CommonKey, KeyOfA, KeyOfB, Hex, RequestLetterOk, AnswerLettersOk, DirectoryOf;
    forall m | m in w.db.messages ensures MessageOk(p, CommonKey(w, p), Privs(p, keys), c, w.plains, m) {
    }
  }

  /** When the two agree after a step, it was no clash: a clash leaves them with different keys. */
  lemma ClashSplits(w: World, step: Step, p: Pair, keys: seq<Bytes>, c: Crypto)
    requires p.a != p.b && Agreed(AtomicNext(w, step, c), p, keys, c)
    ensures NoClash(w, step, p, c)
  {
    if step.Issue? && Enabled(w, step, c) {
      IssueKeys(w, step.host, step.cmd, step.rnd, p, c);
      assert AtomicNext(w, step, c) == IssueStep(w, step.host, step.cmd, step.rnd, c);
      assert |step.rnd.symmetricKey| == 16;
      hide KeyOfA, KeyOfB, ReadsTruly, IssueStep, Makes, Hex, AtomicNext;
    }
  }

  lemma MadeStaysA(keys: seq<Bytes>, steps: seq<Step>, i: nat, n: nat, p: Pair, c: Crypto)
    requires i < n <= |steps| && Keys(keys, c) && Lawful(c) && BothRegistered(keys, steps, p, c) && NoClashBefore(keys, steps, n, p, c)
    requires MakesKey(At(keys, steps, i, c), steps[i], p.a, p.y, c)
    ensures KeyOfA(At(keys, steps, n, c), p) == steps[i].rnd.symmetricKey
  {
    hide *;
    MakersMake(keys, steps, i, p, c);
    KeysStay(keys, steps, i + 1, n, p, c);
  }

  lemma MadeStaysB(keys: seq<Bytes>, steps: seq<Step>, i: nat, n: nat, p: Pair, c: Crypto)
    requires i < n <= |steps| && Keys(keys, c) && Lawful(c) && BothRegistered(keys, steps, p, c) && NoClashBefore(keys, steps, n, p, c)
    requires MakesKey(At(keys, steps, i, c), steps[i], p.b, p.x, c)
    ensures KeyOfB(At(keys, steps, n, c), p) == steps[i].rnd.symmetricKey
  {
    hide *;
    MakersMake(keys, steps, i, p, c);
    KeysStay(keys, steps, i + 1, n, p, c);
  }

  lemma MakersMake(keys: seq<Bytes>, steps: seq<Step>, i: nat, p: Pair, c: Crypto)
    requires i < |steps| && Keys(keys, c) && Lawful(c) && BothRegistered(keys, steps, p, c)
    ensures MakesKey(At(keys, steps, i, c), steps[i], p.a, p.y, c) ==> KeyOfA(At(keys, steps, i + 1, c), p) == steps[i].rnd.symmetricKey != []
    ensures MakesKey(At(keys, steps, i, c), steps[i], p.b, p.x, c) ==> KeyOfB(At(keys, steps, i + 1, c), p) == steps[i].rnd.symmetricKey != []
  {
    hide At, Keys, Lawful, BothRegistered, Enabled, KeyOfA, KeyOfB, Makes, IssueStep;
    var w, step := At(keys, steps, i, c), steps[i];
    AtNext(keys, steps, i, c);
    if step.Issue? && Enabled(w, step, c) && step.host < |w.hosts| {
      IssueKeys(w, step.host, step.cmd, step.rnd, p, c);
      assert |step.rnd.symmetricKey| == 16;
    }
  }

  lemma AgreedMeansNoCrossing(keys: seq<Bytes>, steps: seq<Step>, i: nat, j: nat, p: Pair, c: Crypto)
    requires i < |steps| && j < |steps| && Keys(keys, c) && Lawful(c) && BothRegistered(keys, steps, p, c)
    requires forall n: nat :: n <= |steps| ==> Agreed(At(keys, steps, n, c), p, keys, c)
    ensures !Crossing(keys, steps, i, j, p, c)
  {
    hide At, Keys, Lawful, Agreed, KeyInv, Enabled;
    assert p.a != p.b;
    hide BothRegistered;
    forall n: nat | n < |steps| ensures NoClash(At(keys, steps, n, c), steps[n], p, c) {
      AtNext(keys, steps, n, c);
      assert Agreed(At(keys, steps, n + 1, c), p, keys, c);
      ClashSplits(At(keys, steps, n, c), steps[n], p, keys, c);
    }
    hide NoClash;
    if Crossing(keys, steps, i, j, p, c) {
      if i < j {
        MadeStaysA(keys, steps, i, j, p, c);
      } else {
        MadeStaysB(keys, steps, j, i, p, c);
      }
    }
  }

  /**
   Key agreement. Take any run in which A and B get registered. At every point of it the two agree (each has no key for the
   other or the one common key, every stored key message between them unwraps to it, every stored text or file between them
   that arrived whole is under it, and whoever reads a message of the other sees the plaintext or nothing, and always the
   plaintext once it has the key) if and only if their key makings do not cross: A and B never each make a key for the other,
   unless they happen to draw the same one.
   */
  lemma KeysAgree(steps: seq<Step>, p: Pair, keys: seq<Bytes>, c: Crypto)
    requires Keys(keys, c) && Lawful(c) && BothRegistered(keys, steps, p, c)
    ensures (forall n: nat :: n <= |steps| ==> Agreed(At(keys, steps, n, c), p, keys, c)) <==> !KeysCross(keys, steps, p, c)
  {
    hide At, Keys, Lawful, Agreed, BothRegistered, Crossing;
    if !KeysCross(keys, steps, p, c) {
      forall n: nat | n <= |steps| ensures Agreed(At(keys, steps, n, c), p, keys, c) {
        AgreedAt(keys, steps, n, p, c);
      }
    }
    if forall n: nat :: n <= |steps| ==> Agreed(At(keys, steps, n, c), p, keys, c) {
      forall i: nat, j: nat | i < |steps| && j < |steps| ensures !Crossing(keys, steps, i, j, p, c) {
        AgreedMeansNoCrossing(keys, steps, i, j, p, c);
      }
    }
  }

  /** So the two agree at every point when B never makes a key for A; it may send A the key it got from A. */
  lemma OneMakerAgrees(steps: seq<Step>, p: Pair, keys: seq<Bytes>, c: Crypto, n: nat)
    requires Keys(keys, c) && Lawful(c) && BothRegistered(keys, steps, p, c) && n <= |steps|
    requires forall j: nat :: j < |steps| ==> !MakesKey(At(keys, steps, j, c), steps[j], p.b, p.x, c)
    ensures Agreed(At(keys, steps, n, c), p, keys, c)
  {
    hide At, Keys, Lawful, Agreed, BothRegistered, MakesKey;
    KeysAgree(steps, p, keys, c);
  }

  /** The keys of the two are written once: in a run without crossing keys, whatever they are at some point, they are at the end. */
  lemma KeyIsWrittenOnce(steps: seq<Step>, n: nat, p: Pair, keys: seq<Bytes>, c: Crypto)
    requires Keys(keys, c) && Lawful(c) && n <= |steps|
    requires BothRegistered(keys, steps, p, c) && !KeysCross(keys, steps, p, c)
    ensures var w, w' := At(keys, steps, n, c), At(keys, steps, |steps|, c);
      (KeyOfA(w, p) != [] ==> KeyOfA(w', p) == KeyOfA(w, p)) && (KeyOfB(w, p) != [] ==> KeyOfB(w', p) == KeyOfB(w, p))
  {
    hide *;
    NoCrossingNoClash(keys, steps, |steps|, p, c);
    KeysStay(keys, steps, n, |steps|, p, c);
  }
}
