/** Which senders a client can put a name to, and what becomes of names on their way through the system. */
module Attribution {
  import opened Wrappers
  import opened Bytes
  import opened Protocol
  import opened Records
  import opened RequestReader
  import opened ResponseReader
  import opened ResponseWriter
  import opened ResponseRoundTrip
  import opened Storage
  import opened Server
  import opened Exchange
  import opened DataManager
  import opened Client
  import opened Runs
  import opened Registration
  import opened Steps
  import opened Displays
  import Delivery

  // ---------- Names ----------

  lemma {:induction false} CStringHasNoZero(s: Bytes)
    ensures 0 !in CString(s)
  {
    if s != [] && s[0] != 0 {
      CStringHasNoZero(s[1..]);
    }
  }

  function NameShownToPeers(name: Bytes): Bytes {
    CString(PadTo(RStrip(name), 255))
  }

  /**
   A name that a client registers is the name its peers list it under exactly when it has no zero byte:
   through padding, rstrip, packing in 255 bytes, and the C string that ends at the first zero.
   */
  lemma RegisteredNameListed(name: Bytes)
    requires |name| <= 255
    ensures NameShownToPeers(name) == name <==> 0 !in name
  {
    if 0 !in name {
      RStripKeeps(name);
      ListedNameKept(name);
    }
    CStringHasNoZero(PadTo(RStrip(name), 255));
  }

  ghost predicate ShortNames(rows: seq<ClientRow>) {
    forall row :: row in rows ==> |row.name| <= 255
  }

  lemma ServeShortNames(w: World, s: nat, k: nat, env: Env, c: Crypto)
    requires ShortNames(w.db.clients) && Enabled(w, Step.Serve(s, k, env), c)
    ensures ShortNames(AtomicNext(w, Step.Serve(s, k, env), c).db.clients)
  {
    hide AtomicNext, Enabled, Server.Serve, RequestFrames, UnHex, ReceivedContent, RStrip;
    ServeUnfold(w, s, k, env, c);
    var e := w.connections[s].request;
    if k > 0 {
      ServeServed(w.db, e, k, env);
    } else {
      Delivery.RespondEffect(w.db, GeneralError, env);
      assert Server.Serve(w.db, Arrived(e, k), env) == Respond(w.db, GeneralError, env) by {
        NothingServed(w.db, env);
      }
    }
  }

  lemma NothingServed(db: Db, env: Env)
    ensures Server.Serve(db, Failure(NoData), env) == Respond(db, GeneralError, env)
  {
  }

  lemma {:induction false} RunShortNames(steps: seq<Step>, keys: seq<Bytes>, c: Crypto)
    ensures ShortNames(AtomicRun(Initial(keys), steps, c).db.clients)
  {
    if steps != [] {
      var init, last := steps[..|steps| - 1], steps[|steps| - 1];
      RunShortNames(init, keys, c);
      var w := AtomicRun(Initial(keys), init, c);
      hide ShortNames, Enabled, CreateRequest, Finish, Reply, Server.Serve, RequestFrames;
      if Enabled(w, last, c) && last.Serve? {
        ServeShortNames(w, last.connection, last.arriving, last.env, c);
      }
    }
  }

  /** Each peer is found under its own name, and each name leads to a peer of that name. */
  ghost predicate MapsInverse(st: ClientState) {
    && (forall n :: n in st.names ==> st.names[n] in st.peers && st.peers[st.names[n]].name == n)
    && (forall h :: h in st.peers ==> st.peers[h].name in st.names && st.names[st.peers[h].name] == h)
  }

  /** Two different clients that host i knows are listed alike: their names are the same up to the first zero byte. */
  ghost predicate NamesClash(w: World, i: nat)
    requires i < |w.hosts|
  {
    exists r, r' :: r in w.db.clients && r' in w.db.clients && r != r' && CString(r.name) == CString(r'.name)
      && Hex(r.id) in w.hosts[i].process.state.peers && Hex(r'.id) in w.hosts[i].process.state.peers
  }

  /** What a client calls a peer, by that peer's row. */
  lemma PeerName(w: World, h: HexId, peer: Peer, row: ClientRow)
    requires PeerRow(w, h, peer, row) && ShortNames(w.db.clients)
    ensures peer.name == CString(row.name) && h == Hex(row.id) && row in w.db.clients
  {
    ShownName(row.name);
  }

  /** In every reachable state, the two maps of a client are inverse to each other exactly when no names of its peers clash. */
  lemma MapsAreInverse(steps: seq<Step>, keys: seq<Bytes>, c: Crypto, i: nat)
    requires Keys(keys, c) && Lawful(c) && i < |Run(Initial(keys), steps, c).hosts|
    ensures var w := Run(Initial(keys), steps, c);
      MapsInverse(w.hosts[i].process.state) <==> !NamesClash(w, i)
  {
    hide Run, AtomicRun, Keys, Lawful, FramesTrue, Inv;
    RunInv(steps, keys, c);
    RunShortNames(steps, keys, c);
    RegistrationBinding(steps, keys, c);
    InverseUnlessClash(Run(Initial(keys), steps, c), i);
  }

  lemma InverseUnlessClash(w: World, i: nat)
    requires i < |w.hosts| && UniqueRows(w.db.clients) && ShortNames(w.db.clients) && TwoMapsAgree(w.hosts[i].process.state)
    requires forall h :: h in w.hosts[i].process.state.peers ==> exists row :: PeerRow(w, h, w.hosts[i].process.state.peers[h], row)
    ensures MapsInverse(w.hosts[i].process.state) <==> !NamesClash(w, i)
  {
    hide *;
    if NamesClash(w, i) {
      ClashBreaks(w, i);
    } else {
      NoClashInverts(w, i);
    }
  }

  lemma ClashBreaks(w: World, i: nat)
    requires i < |w.hosts| && UniqueRows(w.db.clients) && ShortNames(w.db.clients) && NamesClash(w, i)
    requires forall h :: h in w.hosts[i].process.state.peers ==> exists row :: PeerRow(w, h, w.hosts[i].process.state.peers[h], row)
    ensures !MapsInverse(w.hosts[i].process.state)
  {
    var st := w.hosts[i].process.state;
    var r, r' :| r in w.db.clients && r' in w.db.clients && r != r' && CString(r.name) == CString(r'.name) && Hex(r.id) in st.peers && Hex(r'.id) in st.peers;
    hide Hex, CString, PeerRow, ShortNames, UniqueRows, NamesClash;
    RowOfPeer(w, i, r);
    RowOfPeer(w, i, r');
    DistinctRows(w.db.clients, r, r');
    assert st.peers[Hex(r.id)].name == st.peers[Hex(r'.id)].name;
  }

  lemma NoClashInverts(w: World, i: nat)
    requires i < |w.hosts| && ShortNames(w.db.clients) && !NamesClash(w, i) && TwoMapsAgree(w.hosts[i].process.state)
    requires forall h :: h in w.hosts[i].process.state.peers ==> exists row :: PeerRow(w, h, w.hosts[i].process.state.peers[h], row)
    ensures MapsInverse(w.hosts[i].process.state)
  {
    var st := w.hosts[i].process.state;
    hide Hex, CString, PeerRow, ShortNames;
    forall a, b | a in st.peers && b in st.peers && st.peers[a].name == st.peers[b].name ensures a == b {
      var rowA :| PeerRow(w, a, st.peers[a], rowA);
      var rowB :| PeerRow(w, b, st.peers[b], rowB);
      PeerName(w, a, st.peers[a], rowA);
      PeerName(w, b, st.peers[b], rowB);
    }
    MapsInverseIffNamesUnique(st);
  }

  lemma DistinctRows(rows: seq<ClientRow>, r: ClientRow, r': ClientRow)
    requires UniqueRows(rows) && r in rows && r' in rows && r != r'
    ensures Hex(r.id) != Hex(r'.id) && r.name != r'.name
  {
    HexInjective(r.id, r'.id);
    hide Hex;
  }

  lemma RowOfPeer(w: World, i: nat, r: ClientRow)
    requires i < |w.hosts| && UniqueRows(w.db.clients) && ShortNames(w.db.clients) && r in w.db.clients
    requires var peers := w.hosts[i].process.state.peers;
      Hex(r.id) in peers && exists row :: PeerRow(w, Hex(r.id), peers[Hex(r.id)], row)
    ensures w.hosts[i].process.state.peers[Hex(r.id)].name == CString(r.name)
  {
    var peer := w.hosts[i].process.state.peers[Hex(r.id)];
    var row :| PeerRow(w, Hex(r.id), peer, row);
    PeerName(w, Hex(r.id), peer, row);
    hide Hex, CString, PeerRow, ShortNames, UniqueRows;
    if row != r {
      DistinctRows(w.db.clients, row, r);
    }
  }

  /** Names without a zero byte never clash. */
  lemma PlainNamesInvert(steps: seq<Step>, keys: seq<Bytes>, c: Crypto, i: nat)
    requires Keys(keys, c) && Lawful(c)
    requires var w := Run(Initial(keys), steps, c);
      i < |w.hosts| && forall row :: row in w.db.clients ==> 0 !in row.name
    ensures MapsInverse(Run(Initial(keys), steps, c).hosts[i].process.state)
  {
    MapsAreInverse(steps, keys, c, i);
    RegistrationBinding(steps, keys, c);
    hide Run, MapsInverse, Hex;
    var w := Run(Initial(keys), steps, c);
    if NamesClash(w, i) {
      var r, r' :| r in w.db.clients && r' in w.db.clients && r != r' && CString(r.name) == CString(r'.name);
      CStringKeeps(r.name);
      CStringKeeps(r'.name);
      DistinctRows(w.db.clients, r, r');
    }
  }

  // ---------- Senders ----------

  /** The client knows the row's owner, or is it. */
  ghost predicate Knows(st: ClientState, row: ClientRow) {
    Hex(row.id) in st.peers || st.clientId == Some(Hex(row.id))
  }

  ghost predicate KnowsFirst(st: ClientState, rows: seq<ClientRow>, n: nat) {
    n <= |rows| && forall r :: 0 <= r < n ==> Knows(st, rows[r])
  }

  ghost predicate Lists(list: seq<(Uuid, Bytes)>, id: Uuid) {
    exists e :: e in list && e.0 == id
  }

  /** A client list holds every row there was when it was served, except the asking client's. */
  ghost predicate ListComplete(conn: Connection, rows: seq<ClientRow>) {
    conn.answer.Some? ==>
      && conn.answer.value.rows <= |rows|
      && (conn.answer.value.outcome.response.ClientsList? ==>
            && !conn.request.request.Register?
            && forall r :: 0 <= r < conn.answer.value.rows ==>
                 rows[r].id == UnHex(conn.request.clientId) || Lists(conn.answer.value.outcome.response.clients, rows[r].id))
  }

  ghost predicate KnowsInv(w: World) {
    && (forall i :: 0 <= i < |w.hosts| ==> KnowsFirst(w.hosts[i].process.state, w.db.clients, w.hosts[i].listed))
    && (forall s :: 0 <= s < |w.connections| ==> ListComplete(w.connections[s], w.db.clients))
  }

  lemma KnowsMore(st: ClientState, st': ClientState, rows: seq<ClientRow>, rows': seq<ClientRow>, n: nat)
    requires KnowsFirst(st, rows, n) && rows <= rows'
    requires st.peers.Keys <= st'.peers.Keys && (st.clientId.Some? ==> st'.clientId == st.clientId)
    ensures KnowsFirst(st', rows', n)
  {
    hide Hex;
    forall r | 0 <= r < n ensures Knows(st', rows'[r]) {
      assert Knows(st, rows[r]) && rows'[r] == rows[r];
    }
  }

  lemma ListStaysComplete(conn: Connection, rows: seq<ClientRow>, rows': seq<ClientRow>)
    requires ListComplete(conn, rows) && rows <= rows'
    ensures ListComplete(conn, rows')
  {
    hide UnHex, Lists;
  }

  /** Handling a response loses no peer and no id. */
  lemma FinishKnows(p: Process, o: Outcome, j: nat, c: Crypto)
    requires o.response.RegisterSuccess? ==> p.state.clientId.None?
    ensures var st, st' := p.state, Finish(p, Reply(o, j), c).state;
      st.peers.Keys <= st'.peers.Keys && (st.clientId.Some? ==> st'.clientId == st.clientId)
  {
    hide Hex, CString, PadTo;
    match o.response
    case ClientsList(list) =>
      InsertKeepsRecords(p.state, ListedClients(EntriesOf(list)));
      hide InsertClients;
    case MessagesPulled(ms, _) =>
      HandleMessagesKeeps(p.state, HexRecords(RecordsOf(ms)), c);
      hide HandleMessages;
    case _ =>
  }

  /** After a delivered list, everyone in it is known. */
  lemma ListDelivered(p: Process, o: Outcome, j: nat, c: Crypto, conn: Connection, rows: seq<ClientRow>)
    requires o.response.ClientsList? && Reply(o, j).Success?
    requires conn.answer.Some? && conn.answer.value.outcome == o && ListComplete(conn, rows)
    requires p.state.clientId == Some(conn.request.clientId) && Canonical(conn.request.clientId)
    ensures KnowsFirst(Finish(p, Reply(o, j), c).state, rows, conn.answer.value.rows)
  {
    var list := o.response.clients;
    var cs := ListedClients(EntriesOf(list));
    InsertKeepsRecords(p.state, cs);
    hide InsertClients, Hex, UnHex, CString, PadTo;
    var st' := Finish(p, Reply(o, j), c).state;
    forall r | 0 <= r < conn.answer.value.rows ensures Knows(st', rows[r]) {
      if rows[r].id != UnHex(conn.request.clientId) {
        var e :| e in list && e.0 == rows[r].id;
        var k :| 0 <= k < |list| && list[k] == e;
        assert cs[k] == ListedClient(EntriesOf(list)[k]);
        assert cs[k].id in st'.peers;
      }
    }
  }

  lemma IssueKnows(w: World, i: nat, cmd: Command, rnd: Random, c: Crypto)
    requires KnowsInv(w) && i < |w.hosts|
    ensures KnowsInv(IssueStep(w, i, cmd, rnd, c))
  {
    var w' := IssueStep(w, i, cmd, rnd, c);
    CreateRequestKeeps(w.hosts[i].process.state, cmd, rnd, c);
    hide CreateRequest, KnowsFirst;
    KnowsMore(w.hosts[i].process.state, w'.hosts[i].process.state, w.db.clients, w'.db.clients, w.hosts[i].listed);
  }

  lemma ServedList(w: World, e: Envelope<HexId>, k: nat, env: Env)
    ensures var o := Server.Serve(w.db, Arrived(e, k), env);
      && w.db.clients <= o.db.clients
      && (o.response.ClientsList? ==>
            && k > 0 && !e.request.Register? && o.db.clients == w.db.clients
            && forall row :: row in w.db.clients && row.id != UnHex(e.clientId) ==> Lists(o.response.clients, row.id))
  {
    var o := Server.Serve(w.db, Arrived(e, k), env);
    if k == 0 {
      Delivery.RespondEffect(w.db, GeneralError, env);
    } else {
      ServeServed(w.db, e, k, env);
      hide Server.Serve, UnHex, ReceivedContent, RStrip;
      if o.response.ClientsList? {
        OtherClientsMembers(w.db.clients, UnHex(e.clientId));
      }
    }
  }

  lemma ServeKnows(w: World, s: nat, k: nat, env: Env, c: Crypto)
    requires KnowsInv(w) && Enabled(w, Step.Serve(s, k, env), c)
    ensures KnowsInv(AtomicNext(w, Step.Serve(s, k, env), c))
  {
    hide AtomicNext, Enabled, Server.Serve, RequestFrames, Arrived, Writable, KnowsFirst, Hex, UnHex, Lists;
    ServeUnfold(w, s, k, env, c);
    var e := w.connections[s].request;
    var o := Server.Serve(w.db, Arrived(e, k), env);
    var w' := ServeStep(w, s, k == |RequestFrames(e)|, o);
    ServedList(w, e, k, env);
    forall i | 0 <= i < |w'.hosts| ensures KnowsFirst(w'.hosts[i].process.state, w'.db.clients, w'.hosts[i].listed) {
      KnowsMore(w.hosts[i].process.state, w.hosts[i].process.state, w.db.clients, w'.db.clients, w.hosts[i].listed);
    }
    forall t | 0 <= t < |w'.connections| ensures ListComplete(w'.connections[t], w'.db.clients) {
      if t != s {
        ListStaysComplete(w.connections[t], w.db.clients, w'.db.clients);
      }
    }
  }

  lemma DeliverKnows(w: World, i: nat, j: nat, keys: seq<Bytes>, c: Crypto)
    requires KnowsInv(w) && Inv(w, keys, c) && Enabled(w, Deliver(i, j), c)
    ensures KnowsInv(AtomicNext(w, Deliver(i, j), c))
  {
    var conn := w.connections[w.hosts[i].waitingFor.value];
    var o := conn.answer.value.outcome;
    var p := w.hosts[i].process;
    assert AtomicNext(w, Deliver(i, j), c) == DeliverStep(w, i, Reply(o, j), c);
    assert WaitOk(w, i) && RequestOk(w, keys, c, conn) && ResponseOk(Dir(w), conn, o.response) && HostOk(Dir(w), keys, c, i, p);
    hide AtomicNext, Enabled, DirectoryOf, Hex, UnHex, RStrip, PeersOk, Consistent, UniqueRows, DirOk;
    if p.state.clientId.Some? {
      DirCanonical(w, p.state.clientId.value);
    }
    FinishKnows(p, o, j, c);
    KnowsMore(p.state, Finish(p, Reply(o, j), c).state, w.db.clients, w.db.clients, w.hosts[i].listed);
    hide Inv, WaitOk, RequestOk, ResponseOk, HostOk, KnowsFirst, Finish;
    if Reply(o, j).Success? && o.response.ClientsList? {
      ListDelivered(p, o, j, c, conn, w.db.clients);
    }
    hide ListComplete;
    OnlyListsAreLists(o, j);
    hide Reply;
  }

  lemma OnlyListsAreLists(o: Outcome, j: nat)
    ensures Reply(o, j).Success? ==> (Reply(o, j).value.0.Clients? <==> o.response.ClientsList?)
  {
  }

  lemma NextKnows(w: World, step: Step, keys: seq<Bytes>, c: Crypto)
    requires KnowsInv(w) && Inv(w, keys, c)
    ensures KnowsInv(AtomicNext(w, step, c))
  {
    hide KnowsFirst, ListComplete;
    if Enabled(w, step, c) {
      match step
      case Issue(i, cmd, rnd) =>
        IssueKnows(w, i, cmd, rnd, c);
      case Serve(s, k, env) =>
        ServeKnows(w, s, k, env, c);
      case Deliver(i, j) =>
        DeliverKnows(w, i, j, keys, c);
      case GiveUp(i) =>
        hide Inv;
    }
  }

  lemma {:induction false} RunKnows(steps: seq<Step>, keys: seq<Bytes>, c: Crypto)
    requires Keys(keys, c) && Lawful(c)
    ensures KnowsInv(AtomicRun(Initial(keys), steps, c))
  {
    if steps != [] {
      var init := steps[..|steps| - 1];
      RunKnows(init, keys, c);
      RunKeeps(init, keys, c);
      hide KnowsInv, Inv, AtomicNext, Keys, Lawful;
      NextKnows(AtomicRun(Initial(keys), init, c), steps[|steps| - 1], keys, c);
    }
  }

  lemma {:induction false} RunConcat(w: World, steps: seq<Step>, more: seq<Step>, c: Crypto)
    ensures Run(w, steps + more, c) == Run(Run(w, steps, c), more, c)
  {
    if more == [] {
      assert steps + more == steps;
    } else {
      hide Next;
      assert (steps + more)[..|steps + more| - 1] == steps + more[..|more| - 1];
      RunConcat(w, steps, more[..|more| - 1], c);
    }
  }

  // ---------- Nobody writes to himself ----------

  /** A client has no peers before it has an id, and is never its own peer. */
  ghost predicate NotOwnPeer(st: ClientState) {
    if st.clientId.None? then st.peers == map[] else st.clientId.value !in st.peers
  }

  /** A message names another client than its sender, and a list leaves out the client that asked for it. */
  ghost predicate OthersOnly(conn: Connection) {
    && (conn.request.request.SendMessage? ==> UnHex(conn.request.request.dest) != UnHex(conn.request.clientId))
    && (conn.answer.Some? && conn.answer.value.outcome.response.ClientsList? ==>
          && !conn.request.request.Register?
          && forall e :: e in conn.answer.value.outcome.response.clients ==> e.0 != UnHex(conn.request.clientId))
  }

  ghost predicate NoSelfMail(w: World) {
    && (forall i :: 0 <= i < |w.hosts| ==> NotOwnPeer(w.hosts[i].process.state))
    && (forall s :: 0 <= s < |w.connections| ==> OthersOnly(w.connections[s]))
    && (forall m :: m in w.db.messages ==> m.from != m.to)
  }

  /** A client sends only to its peers, so not to itself. */
  lemma RequestToOthers(w: World, i: nat, cmd: Command, rnd: Random, keys: seq<Bytes>, c: Crypto)
    requires Inv(w, keys, c) && i < |w.hosts| && NotOwnPeer(w.hosts[i].process.state)
    ensures var r := CreateRequest(w.hosts[i].process.state, cmd, rnd, c).1;
      r.Success? && r.value.request.SendMessage? ==> UnHex(r.value.request.dest) != UnHex(r.value.clientId)
  {
    var st := w.hosts[i].process.state;
    var r := CreateRequest(st, cmd, rnd, c).1;
    assert HostOk(Dir(w), keys, c, i, w.hosts[i].process);
    RequestContent(st, cmd, rnd, c);
    hide CreateRequest, DirectoryOf, Hex, UnHex, PlainOf, SymmetricKey, RStrip;
    if r.Success? && r.value.request.SendMessage? {
      DirCanonical(w, r.value.clientId);
      DirCanonical(w, r.value.request.dest);
    }
  }

  lemma IssueToOthers(w: World, i: nat, cmd: Command, rnd: Random, keys: seq<Bytes>, c: Crypto)
    requires NoSelfMail(w) && Inv(w, keys, c) && i < |w.hosts|
    ensures NoSelfMail(IssueStep(w, i, cmd, rnd, c))
  {
    RequestToOthers(w, i, cmd, rnd, keys, c);
    CreateRequestKeeps(w.hosts[i].process.state, cmd, rnd, c);
    IssueFrame(w, i, cmd, rnd, c);
    IssueHosts(w, i, cmd, rnd, c);
    hide CreateRequest, IssueStep, UnHex, Inv, PlainOf;
    var w' := IssueStep(w, i, cmd, rnd, c);
    assert NotOwnPeer(w.hosts[i].process.state);
    forall s | 0 <= s < |w'.connections| ensures OthersOnly(w'.connections[s]) {
      assert s < |w.connections| ==> w'.connections[s] == w.connections[s];
    }
  }

  lemma ServeToOthers(w: World, s: nat, k: nat, env: Env, c: Crypto)
    requires NoSelfMail(w) && Enabled(w, Step.Serve(s, k, env), c)
    ensures NoSelfMail(AtomicNext(w, Step.Serve(s, k, env), c))
  {
    hide AtomicNext, Enabled, Server.Serve, RequestFrames, Arrived, Writable, UnHex, ReceivedContent;
    ServeUnfold(w, s, k, env, c);
    var e := w.connections[s].request;
    var o := Server.Serve(w.db, Arrived(e, k), env);
    ServeMessages(w.db, e, k, env);
    ServedToOthers(w.db, e, k, env);
    var w' := ServeStep(w, s, k == |RequestFrames(e)|, o);
    assert OthersOnly(w.connections[s]);
    forall t | 0 <= t < |w'.connections| ensures OthersOnly(w'.connections[t]) {
      assert OthersOnly(w.connections[t]);
    }
  }

  lemma ServedToOthers(db: Db, e: Envelope<HexId>, k: nat, env: Env)
    ensures var o := Server.Serve(db, Arrived(e, k), env);
      o.response.ClientsList? ==> !e.request.Register? && forall l :: l in o.response.clients ==> l.0 != UnHex(e.clientId)
  {
    if k == 0 {
      Delivery.RespondEffect(db, GeneralError, env);
    } else {
      ServeServed(db, e, k, env);
      OtherClientsMembers(db.clients, UnHex(e.clientId));
      hide Server.Serve, UnHex, ReceivedContent, RStrip, OtherClients;
    }
  }

  /** Handling an answer gives a client only peers that are not itself. */
  lemma HandledNotOwnPeer(st: ClientState, conn: Connection, r: Response, c: Crypto)
    requires NotOwnPeer(st) && conn.answer.Some? && conn.answer.value.outcome.response == r && OthersOnly(conn)
    requires st.clientId.Some? ==> Canonical(st.clientId.value)
    requires r.RegisterSuccess? ==> st.clientId.None?
    requires r.ClientsList? ==> st.clientId == Some(conn.request.clientId)
    ensures NotOwnPeer(HandleResponse(st, View(r), c).0)
  {
    hide Hex, UnHex, CString, PadTo;
    match r
    case ClientsList(list) =>
      var cs := ListedClients(EntriesOf(list));
      InsertKeepsRecords(st, cs);
      hide InsertClients;
      forall i | 0 <= i < |cs| ensures cs[i].id != conn.request.clientId {
        assert cs[i] == ListedClient(EntriesOf(list)[i]) && list[i] in list;
        UnHexOfHex(list[i].0);
      }
    case MessagesPulled(ms, _) =>
      HandleMessagesKeeps(st, HexRecords(RecordsOf(ms)), c);
      hide HandleMessages;
    case _ =>
  }

  lemma DeliverToOthers(w: World, i: nat, j: nat, keys: seq<Bytes>, c: Crypto)
    requires NoSelfMail(w) && Inv(w, keys, c) && Enabled(w, Deliver(i, j), c)
    ensures NoSelfMail(AtomicNext(w, Deliver(i, j), c))
  {
    DeliverFrame(w, i, j, c);
    var st := w.hosts[i].process.state;
    var conn := w.connections[w.hosts[i].waitingFor.value];
    assert WaitOk(w, i) && RequestOk(w, keys, c, conn) && ResponseOk(Dir(w), conn, AnswerTo(w, i)) && HostOk(Dir(w), keys, c, i, w.hosts[i].process);
    assert OthersOnly(conn) && NotOwnPeer(st);
    hide AtomicNext, Enabled, DirectoryOf, Hex, UnHex, RStrip, PeersOk, HandleResponse, View;
    if st.clientId.Some? {
      DirCanonical(w, st.clientId.value);
    }
    hide Inv;
    HandledNotOwnPeer(st, conn, AnswerTo(w, i), c);
  }

  lemma NextToOthers(w: World, step: Step, keys: seq<Bytes>, c: Crypto)
    requires NoSelfMail(w) && Inv(w, keys, c)
    ensures NoSelfMail(AtomicNext(w, step, c))
  {
    if Enabled(w, step, c) {
      match step
      case Issue(i, cmd, rnd) =>
        IssueToOthers(w, i, cmd, rnd, keys, c);
      case Serve(s, k, env) =>
        ServeToOthers(w, s, k, env, c);
      case Deliver(i, j) =>
        DeliverToOthers(w, i, j, keys, c);
      case GiveUp(i) =>
        hide Inv, OthersOnly;
    }
  }

  /** In no reachable state is there a message from a client to itself. */
  lemma {:induction false} RunToOthers(steps: seq<Step>, keys: seq<Bytes>, c: Crypto)
    requires Keys(keys, c) && Lawful(c)
    ensures NoSelfMail(AtomicRun(Initial(keys), steps, c))
  {
    if steps != [] {
      var init := steps[..|steps| - 1];
      RunToOthers(init, keys, c);
      RunKeeps(init, keys, c);
      hide NoSelfMail, Inv, AtomicNext, Keys, Lawful;
      NextToOthers(AtomicRun(Initial(keys), init, c), steps[|steps| - 1], keys, c);
    }
  }

  // ---------- Every sender has a name ----------

  /** The client names the sender of `m` as the sender's row does. */
  ghost predicate NamesSender(w: World, i: nat, m: StoredMessage)
    requires i < |w.hosts|
  {
    var st := w.hosts[i].process.state;
    Hex(m.from) in st.peers && exists row: ClientRow :: row.id == m.from && PeerRow(w, Hex(m.from), st.peers[Hex(m.from)], row)
  }

  /**
   Once a client has been given a client list, it can name the sender of every message that was stored when the list was
   served, at every later time, by the name registered for that sender. The only messages it has no name for are those it
   sent itself, and none of these is ever addressed to it.
   */
  lemma SendersAreNamed(steps: seq<Step>, more: seq<Step>, keys: seq<Bytes>, c: Crypto, i: nat, m: StoredMessage)
    requires Keys(keys, c) && Lawful(c)
    requires m in Run(Initial(keys), steps, c).db.messages
    requires var w := Run(Initial(keys), steps + more, c);
      i < |w.hosts| && w.hosts[i].listed >= |Run(Initial(keys), steps, c).db.clients|
    ensures var w := Run(Initial(keys), steps + more, c);
      && (w.hosts[i].process.state.clientId == Some(Hex(m.to)) ==> NamesSender(w, i, m))
      && (NamesSender(w, i, m) <==> w.hosts[i].process.state.clientId != Some(Hex(m.from)))
  {
    hide Run, AtomicRun, Keys, Lawful, Hex, FramesTrue, CString, PadTo;
    var w, w' := Run(Initial(keys), steps, c), Run(Initial(keys), steps + more, c);
    RunInv(steps, keys, c);
    RunInv(steps + more, keys, c);
    RunKnows(steps + more, keys, c);
    RunToOthers(steps, keys, c);
    RunToOthers(steps + more, keys, c);
    RunConcat(Initial(keys), steps, more, c);
    RowsAreImmutable(w, more, c);
    RegistrationBinding(steps + more, keys, c);
    assert HasClient(w.db, m.from) by {
      hide UniqueRows, DirOk, HostOk, RequestOk, ResponseOk, WaitOk;
    }
    hide Inv;
    var r :| 0 <= r < |w.db.clients| && w.db.clients[r].id == m.from;
    assert w'.db.clients[r] == w.db.clients[r];
    assert Knows(w'.hosts[i].process.state, w'.db.clients[r]);
    assert NotOwnPeer(w'.hosts[i].process.state);
    HexInjective(m.from, m.to);
    if Hex(m.from) in w'.hosts[i].process.state.peers {
      var row :| PeerRow(w', Hex(m.from), w'.hosts[i].process.state.peers[Hex(m.from)], row);
      HexInjective(row.id, m.from);
    }
  }

  /** What a pull under way to host i holds is addressed to it. */
  lemma PulledIsOwn(w: World, i: nat, keys: seq<Bytes>, c: Crypto, m: StoredMessage)
    requires Inv(w, keys, c) && i < |w.hosts| && HasAnswer(w, i) && AnswerTo(w, i).MessagesPulled? && m in AnswerTo(w, i).messages
    ensures w.hosts[i].process.state.clientId == Some(Hex(m.to))
  {
    var conn := w.connections[w.hosts[i].waitingFor.value];
    hide Hex, UnHex, DirectoryOf, Consistent, UniqueRows, PeersOk, RStrip, DirOk;
    assert WaitOk(w, i) && HostOk(Dir(w), keys, c, i, w.hosts[i].process);
    assert RequestOk(w, keys, c, conn) && ResponseOk(Dir(w), conn, AnswerTo(w, i));
    DirCanonical(w, conn.request.clientId);
  }

  /** Host i shows an item for every message of the pull under way to it, the n-th under this name. */
  ghost predicate ShownUnder(w: World, i: nat, n: nat, name: Bytes, c: Crypto)
    requires i < |w.hosts| && HasAnswer(w, i) && AnswerTo(w, i).MessagesPulled? && n < |AnswerTo(w, i).messages|
  {
    var shown := HandleResponse(w.hosts[i].process.state, View(AnswerTo(w, i)), c).1;
    && shown.Success? && shown.value.Inbox? && |shown.value.items| == |AnswerTo(w, i).messages|
    && shown.value.items[n].From? && shown.value.items[n].name == name
  }

  lemma ShownUnderPeerName(w: World, i: nat, n: nat, c: Crypto)
    requires i < |w.hosts| && HasAnswer(w, i) && AnswerTo(w, i).MessagesPulled? && n < |AnswerTo(w, i).messages|
    requires Hex(AnswerTo(w, i).messages[n].from) in w.hosts[i].process.state.peers
    ensures ShownUnder(w, i, n, w.hosts[i].process.state.peers[Hex(AnswerTo(w, i).messages[n].from)].name, c)
  {
    var rs := HexRecords(RecordsOf(AnswerTo(w, i).messages));
    var items := PullIsShown(w.hosts[i].process.state, rs, c);
    assert ShownRight(w.hosts[i].process.state, rs, c, n, items[n]);
    assert View(AnswerTo(w, i)) == Messages(rs);
    hide Hex, HandleResponse, View, KeyAfter, KeyFrom, PlainOfContent;
  }

  /** So a message stored when the list was served is shown under its sender's registered name, in whichever later pull it comes. */
  lemma PulledSenderIsShown(steps: seq<Step>, more: seq<Step>, keys: seq<Bytes>, c: Crypto, i: nat, n: nat)
    requires Keys(keys, c) && Lawful(c)
    requires var w := Run(Initial(keys), steps + more, c);
      && i < |w.hosts| && w.hosts[i].listed >= |Run(Initial(keys), steps, c).db.clients|
      && HasAnswer(w, i) && AnswerTo(w, i).MessagesPulled? && n < |AnswerTo(w, i).messages|
      && AnswerTo(w, i).messages[n] in Run(Initial(keys), steps, c).db.messages
    ensures var w := Run(Initial(keys), steps + more, c);
      exists row :: row in w.db.clients && row.id == AnswerTo(w, i).messages[n].from && ShownUnder(w, i, n, CString(PadTo(row.name, 255)), c)
  {
    hide Run, AtomicRun, Keys, Lawful, Hex, FramesTrue, CString, PadTo, HandleResponse;
    var w := Run(Initial(keys), steps + more, c);
    var m := AnswerTo(w, i).messages[n];
    RunInv(steps + more, keys, c);
    PulledIsOwn(w, i, keys, c, m);
    hide Inv, ShownUnder;
    SendersAreNamed(steps, more, keys, c, i, m);
    ShownUnderPeerName(w, i, n, c);
  }
}
