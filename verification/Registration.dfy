/** Who is who: what every reachable state of the whole system keeps about ids, names and public keys. */
module Registration {
  import opened Wrappers
  import opened Bytes
  import opened Protocol
  import opened Records
  import opened RequestReader
  import opened ResponseReader
  import opened ResponseWriter
  import opened ResponseRoundTrip
  import opened Storage
  import opened Manager
  import opened Server
  import opened Exchange
  import opened DataManager
  import opened Client
  import opened Runs
  import opened Delivery

  // ---------- The clients table as a directory ----------

  datatype Entry = Entry(name: Bytes, publicKey: Bytes, owner: nat)

  type Directory = map<HexId, Entry>

  /** The rows by hex id, with the client that registered each. */
  function DirectoryOf(rows: seq<ClientRow>, owners: seq<nat>): Directory {
    if rows == [] || |owners| != |rows| then map[]
    else
      var n := |rows| - 1;
      DirectoryOf(rows[..n], owners[..n])[Hex(rows[n].id) := Entry(rows[n].name, rows[n].publicKey, owners[n])]
  }

  function Dir(w: World): Directory {
    DirectoryOf(w.db.clients, w.owners)
  }

  lemma {:induction false} DirectoryEntry(rows: seq<ClientRow>, owners: seq<nat>, i: nat)
    requires |owners| == |rows| && UniqueRows(rows) && i < |rows|
    ensures Hex(rows[i].id) in DirectoryOf(rows, owners)
    ensures DirectoryOf(rows, owners)[Hex(rows[i].id)] == Entry(rows[i].name, rows[i].publicKey, owners[i])
  {
    var n := |rows| - 1;
    hide Hex;
    if i < n {
      DirectoryEntry(rows[..n], owners[..n], i);
      if Hex(rows[i].id) == Hex(rows[n].id) {
        HexInjective(rows[i].id, rows[n].id);
      }
    }
  }

  lemma {:induction false} DirectoryRow(rows: seq<ClientRow>, owners: seq<nat>, h: HexId) returns (i: nat)
    requires |owners| == |rows| && h in DirectoryOf(rows, owners)
    ensures i < |rows| && h == Hex(rows[i].id) && DirectoryOf(rows, owners)[h] == Entry(rows[i].name, rows[i].publicKey, owners[i])
  {
    var n := |rows| - 1;
    if h == Hex(rows[n].id) {
      i := n;
    } else {
      i := DirectoryRow(rows[..n], owners[..n], h);
    }
  }

  /** An id as the server writes it. */
  predicate Canonical(h: HexId) {
    Hex(UnHex(h)) == h
  }

  lemma DirCanonical(w: World, h: HexId)
    requires |w.owners| == |w.db.clients| && h in Dir(w)
    ensures Canonical(h)
  {
    var i := DirectoryRow(w.db.clients, w.owners, h);
    UnHexOfHex(w.db.clients[i].id);
  }

  ghost predicate Extends(d: Directory, d': Directory) {
    forall h :: h in d ==> h in d' && d'[h] == d[h]
  }

  // ---------- The invariant ----------

  ghost predicate DirOk(d: Directory, keys: seq<Bytes>, c: Crypto) {
    forall h :: h in d ==> d[h].owner < |keys| && d[h].publicKey == c.publicKeyOf(keys[d[h].owner])
  }

  /** A peer's record says what its row says. */
  ghost predicate PeerTrue(d: Directory, h: HexId, peer: Peer) {
    && h in d
    && peer.name == CString(PadTo(d[h].name, 255))
    && (peer.publicKey == [] || peer.publicKey == d[h].publicKey)
  }

  ghost predicate PeersOk(d: Directory, st: ClientState) {
    && TwoMapsAgree(st)
    && forall h :: h in st.peers ==> PeerTrue(d, h, st.peers[h])
  }

  /** Host i is the one that its id's row says, under the name the row says. */
  ghost predicate IdentityOk(d: Directory, i: nat, p: Process) {
    && (p.isUserRegistered <==> p.state.clientId.Some?)
    && (p.state.clientId.Some? ==>
          var id := p.state.clientId.value;
          id in d && d[id].owner == i && d[id].name == RStrip(p.state.userName))
  }

  ghost predicate HostOk(d: Directory, keys: seq<Bytes>, c: Crypto, i: nat, p: Process) {
    && i < |keys| && p.state.privateKey == keys[i]
    && IdentityOk(d, i, p) && PeersOk(d, p.state)
  }

  ghost predicate RequestOk(w: World, keys: seq<Bytes>, c: Crypto, conn: Connection) {
    && conn.client < |w.hosts| && conn.client < |keys|
    && if conn.request.request.Register? then conn.request.request.publicKey == c.publicKeyOf(keys[conn.client])
       else w.hosts[conn.client].process.state.clientId == Some(conn.request.clientId)
  }

  ghost predicate ResponseOk(d: Directory, conn: Connection, r: Response) {
    match r
    case RegisterSuccess(id) =>
      && conn.request.request.Register?
      && Hex(id) in d && d[Hex(id)].owner == conn.client && d[Hex(id)].name == RStrip(conn.request.request.userName)
    case ClientsList(list) => forall e :: e in list ==> Hex(e.0) in d && d[Hex(e.0)].name == e.1
    case PublicKeySuccess(id, key) => Hex(id) in d && d[Hex(id)].publicKey == key
    case MessagesPulled(ms, _) => !conn.request.request.Register? && forall m :: m in ms ==> m.to == UnHex(conn.request.clientId)
    case _ => true
  }

  /** A client waits for its own connection, and while a registration is under way its name is the one requested. */
  ghost predicate WaitOk(w: World, i: nat) requires i < |w.hosts| {
    var host := w.hosts[i];
    host.waitingFor.Some? ==>
      && host.waitingFor.value < |w.connections|
      && var conn := w.connections[host.waitingFor.value];
         && conn.client == i
         && (conn.request.request.Register? ==> host.process.state.userName == conn.request.request.userName && host.process.state.clientId.None?)
  }

  ghost predicate Keys(keys: seq<Bytes>, c: Crypto) {
    forall i :: 0 <= i < |keys| ==> keys[i] != [] && c.isPrivateKey(keys[i])
  }

  ghost predicate Inv(w: World, keys: seq<Bytes>, c: Crypto) {
    && |w.hosts| == |keys| && |w.owners| == |w.db.clients|
    && Consistent(w.db) && UniqueRows(w.db.clients)
    && DirOk(Dir(w), keys, c)
    && (forall i :: 0 <= i < |w.hosts| ==> HostOk(Dir(w), keys, c, i, w.hosts[i].process))
    && (forall s :: 0 <= s < |w.connections| ==> RequestOk(w, keys, c, w.connections[s]))
    && (forall s :: 0 <= s < |w.connections| && w.connections[s].answer.Some? ==> ResponseOk(Dir(w), w.connections[s], w.connections[s].answer.value.outcome.response))
    && (forall i :: 0 <= i < |w.hosts| ==> WaitOk(w, i))
  }

  lemma InitialInv(keys: seq<Bytes>, c: Crypto)
    requires Keys(keys, c)
    ensures Inv(Initial(keys), keys, c)
  {
  }

  // ---------- Issuing a command ----------

  /** What creating a request may change in a client. */
  lemma CreateRequestKeeps(st: ClientState, cmd: Command, rnd: Random, c: Crypto)
    ensures var (st', r) := CreateRequest(st, cmd, rnd, c);
      && st'.privateKey == st.privateKey && st'.clientId == st.clientId && st'.names == st.names
      && (!cmd.RegisterUser? ==> st'.userName == st.userName)
      && SamePeers(st, st')
      && (r.Success? ==>
            && (r.value.request.Register? ==> cmd.RegisterUser? && r.value.request.userName == cmd.name == st'.userName && r.value.request.publicKey == c.publicKeyOf(st.privateKey))
            && (!r.value.request.Register? ==> st.clientId == Some(r.value.clientId)))
  {
  }

  /** The same peers, except for symmetric keys. */
  ghost predicate SamePeers(st: ClientState, st': ClientState) {
    && st'.peers.Keys == st.peers.Keys
    && forall h :: h in st.peers ==> st'.peers[h].name == st.peers[h].name && st'.peers[h].publicKey == st.peers[h].publicKey
  }

  lemma SamePeersOk(d: Directory, st: ClientState, st': ClientState)
    requires PeersOk(d, st) && SamePeers(st, st') && st'.names == st.names
    ensures PeersOk(d, st')
  {
  }

  /** The process that issued a command is still who it was. */
  lemma IssueHostOk(d: Directory, keys: seq<Bytes>, c: Crypto, i: nat, p: Process, cmd: Command, rnd: Random)
    requires HostOk(d, keys, c, i, p) && Accepted(p, cmd)
    ensures HostOk(d, keys, c, i, p.(state := CreateRequest(p.state, cmd, rnd, c).0))
  {
    CreateRequestKeeps(p.state, cmd, rnd, c);
    SamePeersOk(d, p.state, CreateRequest(p.state, cmd, rnd, c).0);
    hide CreateRequest, PeersOk, SamePeers, RStrip;
  }

  /** The hosts' ids are what requests are checked against. */
  ghost predicate SameIds(hosts: seq<Host>, hosts': seq<Host>) {
    && |hosts'| == |hosts|
    && forall i :: 0 <= i < |hosts| && hosts[i].process.state.clientId.Some? ==> hosts'[i].process.state.clientId == hosts[i].process.state.clientId
  }

  lemma RequestsKept(w: World, w': World, keys: seq<Bytes>, c: Crypto, s: nat)
    requires s < |w.connections| && s < |w'.connections| && RequestOk(w, keys, c, w.connections[s])
    requires SameIds(w.hosts, w'.hosts)
    requires w'.connections[s].client == w.connections[s].client && w'.connections[s].request == w.connections[s].request
    ensures RequestOk(w', keys, c, w'.connections[s])
  {
  }

  lemma IssueRequestOk(w: World, i: nat, cmd: Command, rnd: Random, keys: seq<Bytes>, c: Crypto)
    requires i < |w.hosts| == |keys| && w.hosts[i].process.state.privateKey == keys[i]
    requires w.hosts[i].process.state.clientId.Some? ==> w.hosts[i].process.isUserRegistered
    requires Accepted(w.hosts[i].process, cmd)
    ensures var w' := IssueStep(w, i, cmd, rnd, c);
      && SameIds(w.hosts, w'.hosts)
      && |w.connections| <= |w'.connections| <= |w.connections| + 1
      && w'.connections[..|w.connections|] == w.connections
      && (|w'.connections| > |w.connections| ==>
            RequestOk(w', keys, c, w'.connections[|w.connections|]) && w'.connections[|w.connections|].answer.None?)
      && (w.hosts[i].waitingFor.None? ==> WaitOk(w', i))
  {
    CreateRequestKeeps(w.hosts[i].process.state, cmd, rnd, c);
    hide CreateRequest, SamePeers;
  }

  lemma IssueHosts(w: World, i: nat, cmd: Command, rnd: Random, c: Crypto)
    requires i < |w.hosts|
    ensures var w' := IssueStep(w, i, cmd, rnd, c);
      && w'.owners == w.owners && |w'.hosts| == |w.hosts|
      && (forall j :: 0 <= j < |w.hosts| && j != i ==> w'.hosts[j] == w.hosts[j])
      && w'.hosts[i].process == w.hosts[i].process.(state := CreateRequest(w.hosts[i].process.state, cmd, rnd, c).0)
  {
    hide CreateRequest;
  }

  lemma IssueKeeps(w: World, i: nat, cmd: Command, rnd: Random, keys: seq<Bytes>, c: Crypto)
    requires Inv(w, keys, c) && Enabled(w, Issue(i, cmd, rnd), c)
    ensures Inv(IssueStep(w, i, cmd, rnd, c), keys, c)
  {
    var w' := IssueStep(w, i, cmd, rnd, c);
    IssueHostOk(Dir(w), keys, c, i, w.hosts[i].process, cmd, rnd);
    IssueRequestOk(w, i, cmd, rnd, keys, c);
    IssueFrame(w, i, cmd, rnd, c);
    IssueHosts(w, i, cmd, rnd, c);
    hide IssueStep, SameIds, CreateRequest, Consistent, UniqueRows, DirOk, DirectoryOf, ResponseOk, RequestOk, HostOk, Accepted, Writable;
    assert Dir(w') == Dir(w);
    forall s | 0 <= s < |w'.connections| ensures RequestOk(w', keys, c, w'.connections[s]) {
      if s < |w.connections| {
        RequestsKept(w, w', keys, c, s);
      }
    }
    forall s | 0 <= s < |w'.connections| && w'.connections[s].answer.Some?
      ensures ResponseOk(Dir(w'), w'.connections[s], w'.connections[s].answer.value.outcome.response)
    {
      assert w'.connections[s] == w.connections[s];
    }
    forall j | 0 <= j < |w'.hosts| ensures WaitOk(w', j) {
      if j != i {
        assert WaitOk(w, j);
      }
    }
  }

  // ---------- Serving a connection ----------

  /** The directory after a session: unchanged, or with one entry for a new id. */
  lemma DirectoryAppend(rows: seq<ClientRow>, owners: seq<nat>, row: ClientRow, owner: nat)
    requires |owners| == |rows| && UniqueRows(rows + [row])
    ensures var d, d' := DirectoryOf(rows, owners), DirectoryOf(rows + [row], owners + [owner]);
      && Hex(row.id) !in d && d' == d[Hex(row.id) := Entry(row.name, row.publicKey, owner)]
  {
    assert (rows + [row])[..|rows|] == rows && (owners + [owner])[..|owners|] == owners;
    forall i | 0 <= i < |rows| ensures rows[i].id != row.id {
      assert (rows + [row])[i].id != (rows + [row])[|rows|].id;
    }
    if Hex(row.id) in DirectoryOf(rows, owners) {
      var i := DirectoryRow(rows, owners, Hex(row.id));
      HexInjective(rows[i].id, row.id);
    }
  }

  /** What the table of clients and the response are after the server served an envelope. */
  ghost predicate Served(db: Db, e: Envelope<Uuid>, db': Db, r: Response) {
    && (|| (db'.clients == db.clients && !r.RegisterSuccess?)
        || (e.request.Register? && r.RegisterSuccess? && db'.clients == db.clients + [ClientRow(r.clientId, e.request.userName, e.request.publicKey)]))
    && (r.ClientsList? ==> r.clients == OtherClients(db.clients, e.clientId) && HasClient(db, e.clientId) && e.request.ListClients?)
    && (r.PublicKeySuccess? ==> PublicKeyOf(db.clients, r.clientId) == Some(r.publicKey))
    && (r.MessagesPulled? ==> e.request.PullMessages? && r.messages == Pulled(db, e.clientId))
  }

  lemma ServeServed(db: Db, e: Envelope<HexId>, k: nat, env: Env)
    requires k > 0
    ensures var o := Server.Serve(db, Arrived(e, k), env);
      Served(db, Received(e, k), o.db, o.response)
  {
    hide Pulled, OtherClients, PublicKeyOf, ReceivedContent, RStrip, UnHex;
    var q := Received(e, k);
    var (db', response) := Handle(db, q, env.uuid4);
    RespondEffect(db', response, env);
    assert Server.Serve(db, Arrived(e, k), env) == Respond(db', response, env);
    hide Respond;
  }

  lemma ServedResponseOk(w: World, conn: Connection, k: nat, o: Outcome, d': Directory)
    requires k > 0 && Served(w.db, Received(conn.request, k), o.db, o.response)
    requires |w.owners| == |w.db.clients| && UniqueRows(w.db.clients)
    requires Extends(Dir(w), d')
    requires o.response.RegisterSuccess? ==>
      Hex(o.response.clientId) in d' && d'[Hex(o.response.clientId)].owner == conn.client && d'[Hex(o.response.clientId)].name == Received(conn.request, k).request.userName
    ensures ResponseOk(d', conn, o.response)
  {
    hide RStrip, UnHex, ReceivedContent, DirectoryOf, Hex, UniqueRows, OtherClients, PublicKeyOf;
    var rows := w.db.clients;
    match o.response
    case ClientsList(list) =>
      OtherClientsMembers(rows, Received(conn.request, k).clientId);
      forall e | e in list ensures Hex(e.0) in d' && d'[Hex(e.0)].name == e.1 {
        var row :| row in rows && row.id == e.0 && row.name == e.1;
        var i :| 0 <= i < |rows| && rows[i] == row;
        DirectoryEntry(rows, w.owners, i);
      }
    case PublicKeySuccess(id, key) =>
      PublicKeyOfMember(rows, id);
      var row :| row in rows && row.id == id && row.publicKey == key;
      var i :| 0 <= i < |rows| && rows[i] == row;
      DirectoryEntry(rows, w.owners, i);
    case MessagesPulled(ms, _) =>
      var id := UnHex(conn.request.clientId);
      QueueMembers(w.db.messages, id);
      forall m | m in ms ensures m.to == id {
        assert m in QueueOf(w.db.messages, id);
      }
    case _ =>
  }

  lemma ServeDirectory(w: World, s: nat, k: nat, env: Env, keys: seq<Bytes>, c: Crypto)
    requires Inv(w, keys, c) && Enabled(w, Step.Serve(s, k, env), c)
    ensures var conn := w.connections[s];
      var o := Server.Serve(w.db, Arrived(conn.request, k), env);
      var w' := ServeStep(w, s, k == |RequestFrames(conn.request)|, o);
      && Consistent(o.db) && UniqueRows(o.db.clients) && |w'.owners| == |o.db.clients|
      && Extends(Dir(w), Dir(w')) && DirOk(Dir(w'), keys, c)
      && ResponseOk(Dir(w'), conn, o.response)
  {
    var conn := w.connections[s];
    assert RequestOk(w, keys, c, conn);
    var o := Server.Serve(w.db, Arrived(conn.request, k), env);
    FramedSession(w.db, conn.request, k, env, 0);
    SessionKeepsConsistent(w.db, RequestFrames(conn.request)[..k], env);
    RowsStayUnique(w.db, RequestFrames(conn.request)[..k], env);
    hide Session, RequestFrames, Consistent;
    if k > 0 {
      ServeServed(w.db, conn.request, k, env);
      hide Server.Serve, Enabled, Arrived, UniqueRows;
      ServedDirectory(w, s, k, o, k == |RequestFrames(conn.request)|, keys, c);
    } else {
      RespondEffect(w.db, GeneralError, env);
    }
  }

  lemma ServedDirectory(w: World, s: nat, k: nat, o: Outcome, whole: bool, keys: seq<Bytes>, c: Crypto)
    requires k > 0 && s < |w.connections| && Served(w.db, Received(w.connections[s].request, k), o.db, o.response)
    requires |w.owners| == |w.db.clients| && UniqueRows(w.db.clients) && UniqueRows(o.db.clients)
    requires DirOk(Dir(w), keys, c) && RequestOk(w, keys, c, w.connections[s])
    ensures var w' := ServeStep(w, s, whole, o);
      && |w'.owners| == |o.db.clients|
      && Extends(Dir(w), Dir(w')) && DirOk(Dir(w'), keys, c)
      && ResponseOk(Dir(w'), w.connections[s], o.response)
  {
    var conn := w.connections[s];
    hide UniqueRows, ReceivedContent, RStrip, UnHex, DirectoryOf;
    var w' := ServeStep(w, s, whole, o);
    if o.db.clients != w.db.clients {
      var row := ClientRow(o.response.clientId, Received(conn.request, k).request.userName, Received(conn.request, k).request.publicKey);
      DirectoryAppend(w.db.clients, w.owners, row, conn.client);
    }
    hide Served, DirOk, Received, RequestOk;
    ServedResponseOk(w, conn, k, o, Dir(w'));
  }

  lemma HostOkExtends(d: Directory, d': Directory, keys: seq<Bytes>, c: Crypto, i: nat, p: Process)
    requires HostOk(d, keys, c, i, p) && Extends(d, d')
    ensures HostOk(d', keys, c, i, p)
  {
    hide TwoMapsAgree, RStrip;
  }

  lemma ResponseOkExtends(d: Directory, d': Directory, conn: Connection, conn': Connection, r: Response)
    requires ResponseOk(d, conn, r) && Extends(d, d') && conn'.client == conn.client && conn'.request == conn.request
    ensures ResponseOk(d', conn', r)
  {
    hide RStrip, Hex;
  }

  lemma ServeKeeps(w: World, s: nat, k: nat, env: Env, keys: seq<Bytes>, c: Crypto)
    requires Inv(w, keys, c) && Enabled(w, Step.Serve(s, k, env), c)
    ensures Inv(AtomicNext(w, Step.Serve(s, k, env), c), keys, c)
  {
    var conn := w.connections[s];
    var o := Server.Serve(w.db, Arrived(conn.request, k), env);
    var w' := ServeStep(w, s, k == |RequestFrames(conn.request)|, o);
    assert AtomicNext(w, Step.Serve(s, k, env), c) == w';
    ServeDirectory(w, s, k, env, keys, c);
    hide Server.Serve, RequestFrames, Consistent, UniqueRows, DirOk, DirectoryOf, ResponseOk, HostOk, Enabled, AtomicNext;
    forall i | 0 <= i < |w'.hosts| ensures HostOk(Dir(w'), keys, c, i, w'.hosts[i].process) && WaitOk(w', i) {
      HostOkExtends(Dir(w), Dir(w'), keys, c, i, w.hosts[i].process);
      assert WaitOk(w, i);
    }
    forall t | 0 <= t < |w'.connections| ensures RequestOk(w', keys, c, w'.connections[t]) {
      assert RequestOk(w, keys, c, w.connections[t]);
    }
    forall t | 0 <= t < |w'.connections| && w'.connections[t].answer.Some?
      ensures ResponseOk(Dir(w'), w'.connections[t], w'.connections[t].answer.value.outcome.response)
    {
      if t == s {
        ResponseOkExtends(Dir(w'), Dir(w'), conn, w'.connections[t], o.response);
      } else {
        ResponseOkExtends(Dir(w), Dir(w'), w.connections[t], w'.connections[t], w.connections[t].answer.value.outcome.response);
      }
    }
  }

  // ---------- Delivering an answer ----------

  lemma {:induction false} HandleMessagesKeeps(st: ClientState, ms: seq<Record<HexId>>, c: Crypto)
    ensures var st' := HandleMessages(st, ms, c).0;
      SamePeers(st, st') && st'.(peers := st.peers) == st
  {
    if ms != [] {
      HandleMessagesKeeps(st, ms[..|ms| - 1], c);
    }
  }

  lemma InsertPeersOk(d: Directory, st: ClientState, list: seq<(Uuid, Bytes)>)
    requires PeersOk(d, st)
    requires forall e :: e in list ==> Hex(e.0) in d && d[Hex(e.0)].name == e.1
    ensures PeersOk(d, InsertClients(st, ListedClients(EntriesOf(list))))
  {
    hide TwoMapsAgree, Inserted, InsertClients, PeersOk, NewPeer, PeerTrue;
    var cs := ListedClients(EntriesOf(list));
    AgreementOf(d, st);
    InsertKeepsAgreement(st, cs);
    InsertKeepsRecords(st, cs);
    forall h, peer | NewPeer(cs, h, peer) ensures PeerTrue(d, h, peer) {
      ListedPeer(d, list, h, peer);
    }
    PeersOkInserted(d, st, InsertClients(st, cs), cs);
  }

  lemma AgreementOf(d: Directory, st: ClientState)
    requires PeersOk(d, st)
    ensures TwoMapsAgree(st)
  {
  }

  lemma PeersOkInserted(d: Directory, st: ClientState, st': ClientState, cs: seq<ClientEntry<HexId>>)
    requires PeersOk(d, st) && TwoMapsAgree(st') && Inserted(st, st', cs)
    requires forall h, peer :: NewPeer(cs, h, peer) ==> PeerTrue(d, h, peer)
    ensures PeersOk(d, st')
  {
    hide TwoMapsAgree, NewPeer, PeerTrue;
  }

  lemma ListedPeer(d: Directory, list: seq<(Uuid, Bytes)>, h: HexId, peer: Peer)
    requires forall e :: e in list ==> Hex(e.0) in d && d[Hex(e.0)].name == e.1
    requires NewPeer(ListedClients(EntriesOf(list)), h, peer)
    ensures PeerTrue(d, h, peer)
  {
    var cs := ListedClients(EntriesOf(list));
    hide Hex, CString, PadTo;
    var i :| 0 <= i < |cs| && cs[i].id == h && peer == Peer(cs[i].name, [], []);
    assert cs[i] == ListedClient(EntriesOf(list)[i]);
    assert list[i] in list;
  }

  /** A client that handles a true response keeps its identity and its peers true. */
  lemma FinishKeeps(d: Directory, keys: seq<Bytes>, c: Crypto, i: nat, p: Process, conn: Connection, o: Outcome, j: nat)
    requires HostOk(d, keys, c, i, p) && DirOk(d, keys, c) && Keys(keys, c) && Lawful(c)
    requires ResponseOk(d, conn, o.response) && conn.client == i
    requires conn.request.request.Register? ==> p.state.userName == conn.request.request.userName && p.state.clientId.None?
    ensures HostOk(d, keys, c, i, Finish(p, Reply(o, j), c))
    ensures p.state.clientId.Some? ==> Finish(p, Reply(o, j), c).state.clientId == p.state.clientId
  {
    if Reply(o, j).Success? {
      HandleKeeps(d, keys, c, i, p.state, conn, o.response);
      hide HandleResponse, PeersOk, ResponseOk, Lawful, DirOk, RStrip, Hex, View;
    }
  }

  lemma SetPublicKeyOk(d: Directory, st: ClientState, h: HexId, key: Bytes)
    requires PeersOk(d, st) && h in d && d[h].publicKey == key
    ensures h in st.peers ==> PeersOk(d, SetPublicKey(st, h, key))
  {
    if h in st.peers {
      SetKeysKeepAgreement(st, h, key);
      hide TwoMapsAgree, CString, PadTo;
      assert SetPublicKey(st, h, key).peers[h].publicKey == d[h].publicKey;
    }
  }

  lemma HandleKeeps(d: Directory, keys: seq<Bytes>, c: Crypto, i: nat, st: ClientState, conn: Connection, r: Response)
    requires PeersOk(d, st) && DirOk(d, keys, c) && Keys(keys, c) && Lawful(c)
    requires ResponseOk(d, conn, r)
    ensures var (st', shown) := HandleResponse(st, View(r), c);
      && PeersOk(d, st') && st'.privateKey == st.privateKey && st'.userName == st.userName
      && (shown == Success(Registration) <==> r.RegisterSuccess? && st'.clientId == Some(Hex(r.clientId)) && st.userName != [] && st.privateKey != [])
      && (shown != Success(Registration) ==> st'.clientId == st.clientId)
  {
    match r
    case RegisterSuccess(id) =>
      hide RStrip, Hex, PeersOk, DirOk, Lawful;
    case ClientsList(list) =>
      InsertPeersOk(d, st, list);
      InsertKeepsRecords(st, ListedClients(EntriesOf(list)));
      hide InsertClients, PeersOk, DirOk, Lawful, RStrip, Hex;
    case PublicKeySuccess(id, key) =>
      assert |key| == 160;
      PadToSelf(key);
      hide Lawful, RStrip, DirOk, PeersOk;
      SetPublicKeyOk(d, st, Hex(id), key);
    case MessagesPulled(ms, _) =>
      HandleMessagesKeeps(st, HexRecords(RecordsOf(ms)), c);
      hide HandleMessages, Lawful, RStrip, Hex, DirOk, ResponseOk;
      SamePeersOk(d, st, HandleMessages(st, HexRecords(RecordsOf(ms)), c).0);
    case _ =>
      hide Lawful, DirOk, PeersOk;
  }

  lemma DeliverKeeps(w: World, i: nat, j: nat, keys: seq<Bytes>, c: Crypto)
    requires Inv(w, keys, c) && Enabled(w, Deliver(i, j), c) && Keys(keys, c) && Lawful(c)
    ensures Inv(AtomicNext(w, Deliver(i, j), c), keys, c)
  {
    hide Enabled, AtomicNext, Consistent, UniqueRows, DirOk, DirectoryOf, ResponseOk, RequestOk, HostOk, Finish, Reply, Lawful, Keys;
    DeliverUnfold(w, i, j, c);
    var conn := w.connections[w.hosts[i].waitingFor.value];
    var o := conn.answer.value.outcome;
    var w' := DeliverStep(w, i, Reply(o, j), c);
    assert WaitOk(w, i);
    FinishKeeps(Dir(w), keys, c, i, w.hosts[i].process, conn, o, j);
    assert Dir(w') == Dir(w);
    FinishSameIds(w, i, o, j, keys, c);
    forall t | 0 <= t < |w'.connections| ensures RequestOk(w', keys, c, w'.connections[t]) {
      RequestsKept(w, w', keys, c, t);
    }
    forall x | 0 <= x < |w'.hosts| ensures WaitOk(w', x) {
      assert WaitOk(w, x);
    }
  }

  lemma FinishSameIds(w: World, i: nat, o: Outcome, j: nat, keys: seq<Bytes>, c: Crypto)
    requires i < |w.hosts| && w.hosts[i].waitingFor.Some? && w.hosts[i].waitingFor.value < |w.connections|
    requires w.connections[w.hosts[i].waitingFor.value].answer.Some?
    requires var st := w.hosts[i].process.state; st.clientId.Some? ==> Finish(w.hosts[i].process, Reply(o, j), c).state.clientId == st.clientId
    ensures SameIds(w.hosts, DeliverStep(w, i, Reply(o, j), c).hosts)
  {
    hide Finish, Reply;
  }

  lemma GiveUpKeeps(w: World, i: nat, keys: seq<Bytes>, c: Crypto)
    requires Inv(w, keys, c) && i < |w.hosts|
    ensures Inv(w.(hosts := w.hosts[i := w.hosts[i].(waitingFor := None)]), keys, c)
  {
    hide Consistent, UniqueRows, DirOk, DirectoryOf, ResponseOk, HostOk;
    var w' := w.(hosts := w.hosts[i := w.hosts[i].(waitingFor := None)]);
    assert Dir(w') == Dir(w);
    forall x | 0 <= x < |w'.hosts| ensures WaitOk(w', x) {
      assert WaitOk(w, x);
    }
    forall t | 0 <= t < |w'.connections| ensures RequestOk(w', keys, c, w'.connections[t]) {
      assert RequestOk(w, keys, c, w.connections[t]);
    }
  }

  lemma NextKeeps(w: World, step: Step, keys: seq<Bytes>, c: Crypto)
    requires Inv(w, keys, c) && Keys(keys, c) && Lawful(c)
    ensures Inv(AtomicNext(w, step, c), keys, c)
  {
    if Enabled(w, step, c) {
      match step
      case Issue(i, cmd, rnd) =>
        IssueKeeps(w, i, cmd, rnd, keys, c);
      case Serve(s, k, env) =>
        ServeKeeps(w, s, k, env, keys, c);
      case Deliver(i, j) =>
        DeliverKeeps(w, i, j, keys, c);
      case GiveUp(i) =>
        GiveUpKeeps(w, i, keys, c);
    }
  }

  lemma {:induction false} RunKeeps(steps: seq<Step>, keys: seq<Bytes>, c: Crypto)
    requires Keys(keys, c) && Lawful(c)
    ensures Inv(AtomicRun(Initial(keys), steps, c), keys, c)
  {
    if steps == [] {
      InitialInv(keys, c);
    } else {
      var init := steps[..|steps| - 1];
      RunKeeps(init, keys, c);
      hide Inv, AtomicNext, Keys, Lawful;
      NextKeeps(AtomicRun(Initial(keys), init, c), steps[|steps| - 1], keys, c);
    }
  }

  // ---------- The theorems, on runs over frames ----------

  lemma RunInv(steps: seq<Step>, keys: seq<Bytes>, c: Crypto)
    requires Keys(keys, c) && Lawful(c)
    ensures Inv(Run(Initial(keys), steps, c), keys, c) && FramesTrue(Run(Initial(keys), steps, c))
    ensures Run(Initial(keys), steps, c) == AtomicRun(Initial(keys), steps, c)
  {
    RunIsAtomic(Initial(keys), steps, c);
    RunKeeps(steps, keys, c);
  }

  /** The row of a client that knows its id is its own: its id, its name and the public half of its private key. */
  ghost predicate OwnRow(w: World, i: nat, keys: seq<Bytes>, c: Crypto, row: ClientRow)
    requires i < |w.hosts| && i < |keys|
  {
    var st := w.hosts[i].process.state;
    row in w.db.clients && st.clientId == Some(Hex(row.id)) && row.name == RStrip(st.userName) && row.publicKey == c.publicKeyOf(keys[i])
  }

  /** What a client believes of a peer is what that peer's row says; a cached public key is the registered one. */
  ghost predicate PeerRow(w: World, h: HexId, peer: Peer, row: ClientRow) {
    row in w.db.clients && h == Hex(row.id) && peer.name == CString(PadTo(row.name, 255)) && (peer.publicKey == [] || peer.publicKey == row.publicKey)
  }

  /**
   In every reachable state of every run: ids and names in the table are unique; every client that has an id is bound to the
   row it registered; no two clients have the same id; whatever a client has learned about a peer is that peer's row; and the
   two maps of every client agree.
   */
  lemma RegistrationBinding(steps: seq<Step>, keys: seq<Bytes>, c: Crypto)
    requires Keys(keys, c) && Lawful(c)
    ensures var w := Run(Initial(keys), steps, c);
      && |w.hosts| == |keys| && UniqueRows(w.db.clients)
      && (forall i :: 0 <= i < |w.hosts| && w.hosts[i].process.state.clientId.Some? ==> exists row :: OwnRow(w, i, keys, c, row))
      && (forall i, j :: 0 <= i < j < |w.hosts| && w.hosts[i].process.state.clientId.Some? ==>
            w.hosts[i].process.state.clientId != w.hosts[j].process.state.clientId)
      && (forall i, h :: 0 <= i < |w.hosts| && h in w.hosts[i].process.state.peers ==> exists row :: PeerRow(w, h, w.hosts[i].process.state.peers[h], row))
      && (forall i :: 0 <= i < |w.hosts| ==> TwoMapsAgree(w.hosts[i].process.state))
  {
    RunInv(steps, keys, c);
    hide Run, FramesTrue, Lawful, Keys, Consistent, UniqueRows, DirectoryOf, ResponseOk, RequestOk, WaitOk, RStrip, CString, PadTo, Hex, TwoMapsAgree;
    var w := Run(Initial(keys), steps, c);
    forall i | 0 <= i < |w.hosts| && w.hosts[i].process.state.clientId.Some? ensures exists row :: OwnRow(w, i, keys, c, row) {
      assert HostOk(Dir(w), keys, c, i, w.hosts[i].process);
      var r := DirectoryRow(w.db.clients, w.owners, w.hosts[i].process.state.clientId.value);
      assert OwnRow(w, i, keys, c, w.db.clients[r]);
    }
    forall i, j | 0 <= i < j < |w.hosts| && w.hosts[i].process.state.clientId.Some?
      ensures w.hosts[i].process.state.clientId != w.hosts[j].process.state.clientId
    {
      assert HostOk(Dir(w), keys, c, i, w.hosts[i].process) && HostOk(Dir(w), keys, c, j, w.hosts[j].process);
    }
    forall i | 0 <= i < |w.hosts| ensures TwoMapsAgree(w.hosts[i].process.state) {
      assert HostOk(Dir(w), keys, c, i, w.hosts[i].process);
    }
    forall i, h | 0 <= i < |w.hosts| && h in w.hosts[i].process.state.peers ensures exists row :: PeerRow(w, h, w.hosts[i].process.state.peers[h], row) {
      assert HostOk(Dir(w), keys, c, i, w.hosts[i].process);
      var r := DirectoryRow(w.db.clients, w.owners, h);
      assert PeerRow(w, h, w.hosts[i].process.state.peers[h], w.db.clients[r]);
    }
  }

  lemma NextRows(w: World, step: Step, c: Crypto)
    ensures w.db.clients <= Next(w, step, c).db.clients
  {
    hide Session, RequestFrames, CreateRequest, DecodeFrames, Finish, Accepted, Writable;
    if Enabled(w, step, c) && step.Serve? {
      var e := w.connections[step.connection].request;
      SessionEffect(w.db, RequestFrames(e)[..step.arriving], step.env);
    }
  }

  /** A registered row is never changed or removed. */
  lemma {:induction false} RowsAreImmutable(w: World, steps: seq<Step>, c: Crypto)
    ensures w.db.clients <= Run(w, steps, c).db.clients
  {
    if steps != [] {
      RowsAreImmutable(w, steps[..|steps| - 1], c);
      hide Next;
      NextRows(Run(w, steps[..|steps| - 1], c), steps[|steps| - 1], c);
    }
  }
}
