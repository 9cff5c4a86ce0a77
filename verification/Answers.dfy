/** When a request is answered and when it is refused, what the answer says, and what the client shows of it. */
module Answers {
  import opened Wrappers
  import opened Bytes
  import opened Protocol
  import opened Records
  import opened RequestReader
  import opened ResponseReader
  import opened ResponseWriter
  import opened ResponseRoundTrip
  import opened Storage
  import opened Manager
  import opened Server
  import opened Exchange
  import opened DataManager
  import opened Client
  import Delivery

  // ---------- The server's answers ----------

  predicate HasRow(db: Db, id: Uuid) {
    exists row :: row in db.clients && row.id == id
  }

  lemma ClientHasRow(db: Db, id: Uuid)
    ensures HasClient(db, id) <==> HasRow(db, id)
  {
    if HasClient(db, id) {
      var i :| 0 <= i < |db.clients| && db.clients[i].id == id;
      assert db.clients[i] in db.clients;
    }
  }

  lemma NameHasRow(db: Db, name: Bytes)
    ensures HasName(db, name) <==> exists row :: row in db.clients && row.name == name
  {
    if HasName(db, name) {
      var i :| 0 <= i < |db.clients| && db.clients[i].name == name;
      assert db.clients[i] in db.clients;
    }
  }

  /** A registration is refused exactly when the name or the new id is taken; otherwise the client gets its row. */
  lemma RegisterAnswer(db: Db, e: Envelope<Uuid>, freshId: Uuid)
    requires e.request.Register?
    ensures var (db', r) := Handle(db, e, freshId);
      if exists row :: row in db.clients && (row.name == e.request.userName || row.id == freshId) then db' == db && r == GeneralError
      else db' == db.(clients := db.clients + [ClientRow(freshId, e.request.userName, e.request.publicKey)]) && r == RegisterSuccess(freshId)
  {
    NameHasRow(db, e.request.userName);
    ClientHasRow(db, freshId);
    hide HasName, HasClient;
  }

  /** The list names every other registered client, once, and nobody else. */
  ghost predicate ListsOthers(rows: seq<ClientRow>, asker: Uuid, list: seq<(Uuid, Bytes)>) {
    && (forall row :: row in rows && row.id != asker ==> (row.id, row.name) in list)
    && (forall l :: l in list ==> l.0 != asker && exists row :: row in rows && row.id == l.0 && row.name == l.1)
    && Once(list)
  }

  ghost predicate Once(list: seq<(Uuid, Bytes)>) {
    forall i, j :: 0 <= i < j < |list| ==> list[i].0 != list[j].0
  }

  lemma OnceSnoc(list: seq<(Uuid, Bytes)>, last: (Uuid, Bytes))
    requires Once(list) && forall l :: l in list ==> l.0 != last.0
    ensures Once(list + [last])
  {
    forall i | 0 <= i < |list| ensures list[i].0 != last.0 {
      assert list[i] in list;
    }
  }

  lemma NewRow(rows: seq<ClientRow>)
    requires UniqueRows(rows) && rows != []
    ensures var init, last := rows[..|rows| - 1], rows[|rows| - 1];
      UniqueRows(init) && forall row :: row in init ==> row.id != last.id
  {
  }

  lemma {:induction false} OthersOnce(rows: seq<ClientRow>, asker: Uuid)
    requires UniqueRows(rows)
    ensures Once(OtherClients(rows, asker))
  {
    if rows != [] {
      var init, last := rows[..|rows| - 1], rows[|rows| - 1];
      NewRow(rows);
      OthersOnce(init, asker);
      OtherClientsMembers(init, asker);
      var list := OtherClients(init, asker);
      assert OtherClients(rows, asker) == if last.id == asker then list + [] else list + [(last.id, last.name)];
      hide OtherClients, UniqueRows, Once;
      assert list + [] == list;
      if last.id != asker {
        OnceSnoc(list, (last.id, last.name));
      }
    }
  }

  /** A list is refused exactly when the asker has no row. */
  lemma ListAnswer(db: Db, e: Envelope<Uuid>, freshId: Uuid)
    requires e.request.ListClients? && UniqueRows(db.clients)
    ensures var (db', r) := Handle(db, e, freshId);
      db' == db && if HasRow(db, e.clientId) then r.ClientsList? && ListsOthers(db.clients, e.clientId, r.clients) else r == GeneralError
  {
    ClientHasRow(db, e.clientId);
    OthersOnce(db.clients, e.clientId);
    OtherClientsMembers(db.clients, e.clientId);
    hide HasClient, OtherClients;
    assert HasRow(db, e.clientId) ==> Handle(db, e, freshId).1 == Response.ClientsList(OtherClients(db.clients, e.clientId));
  }

  lemma {:induction false} KeyOfRow(rows: seq<ClientRow>, row: ClientRow)
    requires UniqueRows(rows) && row in rows
    ensures PublicKeyOf(rows, row.id) == Some(row.publicKey)
  {
    if rows[0] != row {
      assert UniqueRows(rows[1..]);
      KeyOfRow(rows[1..], row);
    }
  }

  /** A public key is refused exactly when the asker has no row, or the client asked for has none or an empty key. */
  lemma KeyAnswer(db: Db, e: Envelope<Uuid>, freshId: Uuid)
    requires e.request.GetPublicKey? && UniqueRows(db.clients)
    ensures var (db', r) := Handle(db, e, freshId);
      && db' == db
      && (r == GeneralError <==> !HasRow(db, e.clientId) || forall row :: row in db.clients && row.id == e.request.dest ==> row.publicKey == [])
      && forall row :: r != GeneralError && row in db.clients && row.id == e.request.dest ==> r == PublicKeySuccess(row.id, row.publicKey)
  {
    ClientHasRow(db, e.clientId);
    PublicKeyOfMember(db.clients, e.request.dest);
    forall row | row in db.clients && row.id == e.request.dest ensures PublicKeyOf(db.clients, row.id) == Some(row.publicKey) {
      KeyOfRow(db.clients, row);
    }
    hide HasClient, PublicKeyOf, UniqueRows;
  }

  /** A message is refused exactly when its sender or its receiver has no row; otherwise it is stored as it came. */
  lemma SendAnswer(db: Db, e: Envelope<Uuid>, freshId: Uuid)
    requires e.request.SendMessage?
    ensures var (db', r) := Handle(db, e, freshId);
      var m := StoredMessage(db.lastId + 1, e.request.dest, e.clientId, e.request.messageType, e.request.content);
      if HasRow(db, e.clientId) && HasRow(db, e.request.dest)
      then db' == db.(messages := db.messages + [m], lastId := m.id) && r == MessageSent(m.to, m.id)
      else db' == db && r == GeneralError
  {
    ClientHasRow(db, e.clientId);
    ClientHasRow(db, e.request.dest);
    hide HasClient;
  }

  /** A pull is refused exactly when the asker has no row; otherwise it gets as much of its queue as the size field holds. */
  lemma PullAnswer(db: Db, e: Envelope<Uuid>, freshId: Uuid)
    requires e.request.PullMessages?
    ensures var (db', r) := Handle(db, e, freshId);
      var q := QueueOf(db.messages, e.clientId);
      && db' == db
      && if HasRow(db, e.clientId)
         then r.MessagesPulled? && r.messages <= q && r.size == PackedSize(r.messages)
           && forall j :: 0 <= j <= |q| ==> (j <= |r.messages| <==> FourBytes(PackedSize(q[..j])))
         else r == GeneralError
  {
    ClientHasRow(db, e.clientId);
    var q := QueueOf(db.messages, e.clientId);
    forall j | 0 <= j <= |q| ensures j <= |Pulled(db, e.clientId)| <==> FourBytes(PackedSize(q[..j])) {
      PullFillsField(db, e.clientId, j);
    }
    hide HasClient, QueueOf, BudgetCount, PackedSize, FourBytes;
  }

  // ---------- What can be packed ----------

  /** A response can be packed exactly when the fields for its payload's size and for the ids in it hold them. */
  lemma PackableIffFieldsHold(r: Response)
    requires SizeExact(r)
    ensures Encodable(r) <==>
      && FourBytes(|Payload(r)|)
      && (r.MessageSent? ==> FourBytes(r.messageId))
      && (r.MessagesPulled? ==> forall m :: m in r.messages ==> FourBytes(m.id))
  {
    AnnouncedSizeExact(r);
    FourBytesBound(|Payload(r)|);
    if r.MessageSent? {
      FourBytesBound(r.messageId);
    }
    if r.MessagesPulled? && FourBytes(|Payload(r)|) {
      PulledFit(r.messages);
    }
    hide FourBytes, Payload;
  }

  lemma PulledFit(ms: seq<StoredMessage>)
    requires PackedSize(ms) < 0x1_0000_0000
    ensures AllFit(RecordsOf(ms)) <==> forall m :: m in ms ==> FourBytes(m.id)
  {
    hide FourBytes, PackedSize;
    forall i | 0 <= i < |ms| ensures Fits(RecordsOf(ms)[i]) <==> FourBytes(ms[i].id) {
      Delivery.ContentBelowPacked(ms, i);
      FourBytesBound(ms[i].id);
    }
    if AllFit(RecordsOf(ms)) {
      forall m | m in ms ensures FourBytes(m.id) {
        var i :| 0 <= i < |ms| && ms[i] == m;
        assert Fits(RecordsOf(ms)[i]);
      }
    }
  }

  // ---------- What is shown ----------

  /** A client list is shown entry by entry, the names cut at their first zero byte, and its clients are known from then on. */
  lemma ListIsShown(st: ClientState, list: seq<(Uuid, Bytes)>, c: Crypto) returns (shown: seq<ClientEntry<HexId>>)
    requires forall l :: l in list ==> |l.1| <= 255
    ensures var (st', display) := HandleResponse(st, View(Response.ClientsList(list)), c);
      && display == Success(ListOfClients(shown)) && |shown| == |list|
      && (forall k :: 0 <= k < |list| ==> shown[k] == ClientEntry(Hex(list[k].0), CString(list[k].1)))
      && (forall k :: 0 <= k < |list| ==> shown[k].id in st'.peers)
  {
    shown := ListedClients(EntriesOf(list));
    InsertKeepsRecords(st, shown);
    hide Hex, CString, PadTo, InsertClients;
    forall k | 0 <= k < |list| ensures shown[k] == ClientEntry(Hex(list[k].0), CString(list[k].1)) {
      assert shown[k] == ListedClient(EntriesOf(list)[k]) && list[k] in list;
      ShownName(list[k].1);
    }
  }

  /** A refusal is shown as the server's error, and an accepted message as accepted; neither changes the client. */
  lemma NoticesAreShown(st: ClientState, to: Uuid, id: nat, c: Crypto)
    ensures HandleResponse(st, View(GeneralError), c) == (st, Success(ServerErrorText))
    ensures HandleResponse(st, View(MessageSent(to, id)), c) == (st, Success(MessageAccepted))
  {
    hide Hex;
  }

  /** A public key is shown as retrieved when its client is known, and only that client's record gets it. */
  lemma KeyIsShown(st: ClientState, id: Uuid, key: Bytes, c: Crypto)
    requires |key| == 160
    ensures var (st', display) := HandleResponse(st, View(PublicKeySuccess(id, key)), c);
      if Hex(id) in st.peers
      then display == Success(KeyRetrieved) && st'.(peers := st.peers) == st && st'.peers == st.peers[Hex(id) := st.peers[Hex(id)].(publicKey := key)]
      else display.Failure? && st' == st
  {
    PadToSelf(key);
    hide Hex, PadTo;
  }

  /** A registration is shown, and gives the client its id, exactly when it has a name and a private key. */
  lemma RegistrationIsShown(st: ClientState, id: Uuid, c: Crypto)
    ensures var (st', display) := HandleResponse(st, View(RegisterSuccess(id)), c);
      if st.userName != [] && st.privateKey != []
      then display == Success(Registration) && st' == st.(clientId := Some(Hex(id)))
      else display.Failure? && st' == st
  {
    hide Hex;
  }

  // ---------- Two exchanges with an empty hand ----------

  /** A registered client with an empty queue that pulls is told so: it reads a list of no messages. */
  lemma EmptyPullIsRead(db: Db, e: Envelope<HexId>, env: Env)
    requires e.request.PullMessages? && HasRow(db, UnHex(e.clientId)) && QueueOf(db.messages, UnHex(e.clientId)) == []
    requires env.sendsBeforeFailure >= 1
    ensures var o := Session(db, RequestFrames(e), env);
      o.db == db && DecodeFrames(o.sent) == Success((Messages([]), 1))
  {
    ClientHasRow(db, UnHex(e.clientId));
    ByteLevelRefinement(db, e, env);
    var response := MessagesPulled([], 0);
    EmptyResponse();
    hide Session, RequestFrames, DecodeFrames, ResponseFrames, Encodable, UnHex, HasClient, QueueOf, WithoutIds;
    assert Pulled(db, UnHex(e.clientId)) == [];
    assert Handle(db, Intended(e), env.uuid4) == (db, response);
    hide Handle, Intended;
    Delivery.WithoutDisjoint(db.messages, {});
    assert Ids([]) == {};
  }

  lemma EmptyResponse()
    ensures var r := MessagesPulled([], 0);
      Encodable(r) && |ResponseFrames(r)| == 1 && View(r) == Messages([])
  {
    var r := MessagesPulled([], 0);
    assert RecordsOf([]) == [];
    assert HexRecords([]) == [];
    ReadWhatWasWritten(r, 0);
  }

  /** Whatever the server cannot read as a request is answered with the error response, which the peer reads as such. */
  lemma UnreadableIsRefused(db: Db, chunks: seq<Bytes>, env: Env)
    requires Receive(chunks).Failure? && env.sendsBeforeFailure >= 1
    ensures var o := Session(db, chunks, env);
      o.db == db && DecodeFrames(o.sent) == Success((ServerError, 1))
  {
    hide Receive;
    ReadWhatWasWritten(GeneralError, 1);
    assert ResponseFrames(GeneralError)[..1] == ResponseFrames(GeneralError);
    hide DecodeFrames, ResponseFrames;
  }
}
