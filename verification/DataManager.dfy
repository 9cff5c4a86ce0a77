/** client/ClientInMemoryDataManager.cpp: what a client knows about itself and its peers. */
module DataManager {
  import opened Wrappers
  import opened Bytes
  import opened Records

  datatype ClientError =
    | NoPrivateKey | NoClientId | NoUserName | NameTooLong | UserNotFound | ClientNotFound | NoPublicKey | NoSymmetricKey
    | BadKey | FileNotFound

  /** An unset field is empty, as in the client. */
  datatype Peer = Peer(name: Bytes, publicKey: Bytes, symmetricKey: Bytes)

  datatype ClientState = ClientState(
    privateKey: Bytes,
    clientId: Option<HexId>,
    userName: Bytes,
    names: map<Bytes, HexId>,
    peers: map<HexId, Peer>)

  /** A client already known keeps its record; a name already known keeps its id. */
  function InsertClient(st: ClientState, c: ClientEntry<HexId>): ClientState {
    if c.id in st.peers then st
    else st.(
      peers := st.peers[c.id := Peer(c.name, [], [])],
      names := if c.name in st.names then st.names else st.names[c.name := c.id])
  }

  function InsertClients(st: ClientState, cs: seq<ClientEntry<HexId>>): ClientState {
    if cs == [] then st else InsertClient(InsertClients(st, cs[..|cs| - 1]), cs[|cs| - 1])
  }

  function SetPublicKey(st: ClientState, id: HexId, key: Bytes): ClientState
    requires id in st.peers
  {
    st.(peers := st.peers[id := st.peers[id].(publicKey := key)])
  }

  function SetSymmetricKey(st: ClientState, id: HexId, key: Bytes): ClientState
    requires id in st.peers
  {
    st.(peers := st.peers[id := st.peers[id].(symmetricKey := key)])
  }

  function SymmetricKey(st: ClientState, id: HexId): Bytes {
    if id in st.peers then st.peers[id].symmetricKey else []
  }

  // ---------- The two maps agree ----------

  /** Every name leads to a record of that name, and every record's name leads somewhere. */
  ghost predicate TwoMapsAgree(st: ClientState) {
    && (forall n :: n in st.names ==> st.names[n] in st.peers && st.peers[st.names[n]].name == n)
    && (forall id :: id in st.peers ==> st.peers[id].name in st.names)
  }

  lemma {:induction false} InsertKeepsAgreement(st: ClientState, cs: seq<ClientEntry<HexId>>)
    requires TwoMapsAgree(st)
    ensures TwoMapsAgree(InsertClients(st, cs))
  {
    if cs != [] {
      InsertKeepsAgreement(st, cs[..|cs| - 1]);
    }
  }

  /** Setting a key of a known peer touches neither names nor the other peers. */
  lemma SetKeysKeepAgreement(st: ClientState, id: HexId, key: Bytes)
    requires TwoMapsAgree(st) && id in st.peers
    ensures TwoMapsAgree(SetPublicKey(st, id, key)) && TwoMapsAgree(SetSymmetricKey(st, id, key))
    ensures SetPublicKey(st, id, key).names == SetSymmetricKey(st, id, key).names == st.names
    ensures SetPublicKey(st, id, key).peers - {id} == SetSymmetricKey(st, id, key).peers - {id} == st.peers - {id}
  {
  }

  /** `st'` knows what `st` knew, unchanged, and the listed clients, without keys. */
  ghost predicate Inserted(st: ClientState, st': ClientState, cs: seq<ClientEntry<HexId>>) {
    && (forall id :: id in st.peers ==> id in st'.peers && st'.peers[id] == st.peers[id])
    && (forall n :: n in st.names ==> n in st'.names && st'.names[n] == st.names[n])
    && (forall i :: 0 <= i < |cs| ==> cs[i].id in st'.peers)
    && (forall id :: id in st'.peers && id !in st.peers ==> NewPeer(cs, id, st'.peers[id]))
    && st'.(names := st.names, peers := st.peers) == st
  }

  ghost predicate NewPeer(cs: seq<ClientEntry<HexId>>, id: HexId, peer: Peer) {
    exists i :: 0 <= i < |cs| && cs[i].id == id && peer == Peer(cs[i].name, [], [])
  }

  lemma NewPeerStays(cs: seq<ClientEntry<HexId>>, c: ClientEntry<HexId>, id: HexId, peer: Peer)
    requires NewPeer(cs, id, peer)
    ensures NewPeer(cs + [c], id, peer)
  {
    var i :| 0 <= i < |cs| && cs[i].id == id && peer == Peer(cs[i].name, [], []);
    assert (cs + [c])[i] == cs[i];
  }

  lemma InsertOne(st: ClientState, mid: ClientState, cs: seq<ClientEntry<HexId>>, c: ClientEntry<HexId>)
    requires Inserted(st, mid, cs)
    ensures Inserted(st, InsertClient(mid, c), cs + [c])
  {
    var st' := InsertClient(mid, c);
    forall id | id in st'.peers && id !in st.peers ensures NewPeer(cs + [c], id, st'.peers[id]) {
      if id in mid.peers {
        NewPeerStays(cs, c, id, mid.peers[id]);
      } else {
        assert (cs + [c])[|cs|] == c;
      }
    }
  }

  /** Inserting a list leaves known records and names, keys included, as they are; afterwards every listed client is known. */
  lemma {:induction false} InsertKeepsRecords(st: ClientState, cs: seq<ClientEntry<HexId>>)
    ensures Inserted(st, InsertClients(st, cs), cs)
  {
    if cs != [] {
      var init := cs[..|cs| - 1];
      InsertKeepsRecords(st, init);
      InsertOne(st, InsertClients(st, init), init, cs[|cs| - 1]);
      hide Inserted;
      assert init + [cs[|cs| - 1]] == cs;
    }
  }

  lemma {:induction false} InsertKnown(st: ClientState, cs: seq<ClientEntry<HexId>>)
    requires forall i :: 0 <= i < |cs| ==> cs[i].id in st.peers
    ensures InsertClients(st, cs) == st
  {
    if cs != [] {
      InsertKnown(st, cs[..|cs| - 1]);
    }
  }

  /** Inserting the same list a second time changes nothing. */
  lemma InsertTwice(st: ClientState, cs: seq<ClientEntry<HexId>>)
    ensures InsertClients(InsertClients(st, cs), cs) == InsertClients(st, cs)
  {
    InsertKeepsRecords(st, cs);
    InsertKnown(InsertClients(st, cs), cs);
  }

  /** The maps are inverse to each other exactly when no two peers share a name. */
  lemma MapsInverseIffNamesUnique(st: ClientState)
    requires TwoMapsAgree(st)
    ensures (forall id :: id in st.peers ==> st.names[st.peers[id].name] == id)
       <==> (forall a, b :: a in st.peers && b in st.peers && st.peers[a].name == st.peers[b].name ==> a == b)
  {
  }

  // ---------- The classes ----------

  class ClientData {
    const userName: Bytes
    const clientId: HexId
    var publicKey: Bytes
    var symmetricKey: Bytes

    constructor (userName: Bytes, clientId: HexId)
      ensures this.userName == userName && this.clientId == clientId && publicKey == symmetricKey == []
    {
      this.userName := userName;
      this.clientId := clientId;
      publicKey, symmetricKey := [], [];
    }

    function View(): Peer
      reads this
    {
      Peer(userName, publicKey, symmetricKey)
    }
  }

  class ClientInMemoryDataManager {
    var privateKey: Bytes
    var clientId: Option<HexId>
    var userName: Bytes
    var userNameToClientId: map<Bytes, HexId>
    var clientIdToClientDataMap: map<HexId, ClientData>

    /** No two ids share a record object. */
    ghost predicate Valid()
      reads this
    {
      forall a, b :: a in clientIdToClientDataMap && b in clientIdToClientDataMap && a != b ==> clientIdToClientDataMap[a] != clientIdToClientDataMap[b]
    }

    ghost function View(): ClientState
      reads this, clientIdToClientDataMap.Values
    {
      ClientState(privateKey, clientId, userName, userNameToClientId, map id | id in clientIdToClientDataMap :: clientIdToClientDataMap[id].View())
    }

    constructor (privateKey: Bytes)
      ensures Valid() && View() == ClientState(privateKey, None, [], map[], map[])
      ensures clientIdToClientDataMap == map[]
    {
      this.privateKey := privateKey;
      clientId, userName := None, [];
      userNameToClientId, clientIdToClientDataMap := map[], map[];
    }

    method SetUserName(name: Bytes)
      requires Valid()
      modifies `userName
      ensures Valid() && View() == old(View()).(userName := name)
    {
      userName := name;
    }

    method SetClientId(id: HexId)
      requires Valid()
      modifies `clientId
      ensures Valid() && View() == old(View()).(clientId := Some(id))
    {
      clientId := Some(id);
    }

    method InsertClientsData(clients: seq<ClientEntry<HexId>>)
      requires Valid()
      modifies `userNameToClientId, `clientIdToClientDataMap
      ensures Valid() && View() == InsertClients(old(View()), clients)
      ensures fresh(clientIdToClientDataMap.Values - old(clientIdToClientDataMap.Values))
    {
      ghost var before := View();
      for i := 0 to |clients|
        invariant Valid() && View() == InsertClients(before, clients[..i])
        invariant fresh(clientIdToClientDataMap.Values - old(clientIdToClientDataMap.Values))
      {
        assert clients[..i + 1][..i] == clients[..i];
        InsertClientData(clients[i]);
      }
      assert clients[..|clients|] == clients;
    }

    method InsertClientData(c: ClientEntry<HexId>)
      requires Valid()
      modifies `userNameToClientId, `clientIdToClientDataMap
      ensures Valid() && View() == InsertClient(old(View()), c)
      ensures fresh(clientIdToClientDataMap.Values - old(clientIdToClientDataMap.Values))
    {
      if c.id !in clientIdToClientDataMap {
        var clientData := new ClientData(c.name, c.id);
        forall id | id in clientIdToClientDataMap ensures clientIdToClientDataMap[id] != clientData {
          assert clientIdToClientDataMap[id] in clientIdToClientDataMap.Values;
        }
        clientIdToClientDataMap := clientIdToClientDataMap[c.id := clientData];
        if c.name !in userNameToClientId {
          userNameToClientId := userNameToClientId[c.name := c.id];
        }
        assert View().peers == InsertClient(old(View()), c).peers;
      }
    }

    method AddPublicKey(id: HexId, key: Bytes) returns (r: Result<(), ClientError>)
      requires Valid()
      modifies clientIdToClientDataMap.Values
      ensures Valid() && r == if id in old(View()).peers then Success(()) else Failure(ClientNotFound)
      ensures View() == if r.Success? then SetPublicKey(old(View()), id, key) else old(View())
    {
      if id !in clientIdToClientDataMap {
        return Failure(ClientNotFound);
      }
      clientIdToClientDataMap[id].publicKey := key;
      assert View().peers == SetPublicKey(old(View()), id, key).peers;
      r := Success(());
    }

    method AddSymmetricKey(id: HexId, key: Bytes) returns (r: Result<(), ClientError>)
      requires Valid()
      modifies clientIdToClientDataMap.Values
      ensures Valid() && r == if id in old(View()).peers then Success(()) else Failure(ClientNotFound)
      ensures View() == if r.Success? then SetSymmetricKey(old(View()), id, key) else old(View())
    {
      if id !in clientIdToClientDataMap {
        return Failure(ClientNotFound);
      }
      clientIdToClientDataMap[id].symmetricKey := key;
      assert View().peers == SetSymmetricKey(old(View()), id, key).peers;
      r := Success(());
    }

    method GetClientClientId(name: Bytes) returns (r: Result<HexId, ClientError>)
      ensures r == if name in View().names then Success(View().names[name]) else Failure(UserNotFound)
    {
      r := if name in userNameToClientId then Success(userNameToClientId[name]) else Failure(UserNotFound);
    }

    method GetClientPublicKey(id: HexId) returns (r: Result<Bytes, ClientError>)
      ensures r == if id !in View().peers then Failure(ClientNotFound)
        else if View().peers[id].publicKey == [] then Failure(NoPublicKey) else Success(View().peers[id].publicKey)
    {
      if id !in clientIdToClientDataMap {
        return Failure(ClientNotFound);
      }
      var key := clientIdToClientDataMap[id].publicKey;
      r := if key == [] then Failure(NoPublicKey) else Success(key);
    }

    method GetClientSymmetricKey(id: HexId, throwOnNonExist: bool) returns (r: Result<Bytes, ClientError>)
      ensures r == if id !in View().peers then Failure(ClientNotFound)
        else if throwOnNonExist && View().peers[id].symmetricKey == [] then Failure(NoSymmetricKey) else Success(View().peers[id].symmetricKey)
    {
      if id !in clientIdToClientDataMap {
        return Failure(ClientNotFound);
      }
      var key := clientIdToClientDataMap[id].symmetricKey;
      r := if throwOnNonExist && key == [] then Failure(NoSymmetricKey) else Success(key);
    }

    method GetClientUserName(id: HexId) returns (r: Result<Bytes, ClientError>)
      ensures r == if id !in View().peers then Failure(ClientNotFound) else Success(View().peers[id].name)
    {
      if id !in clientIdToClientDataMap {
        return Failure(ClientNotFound);
      }
      r := Success(clientIdToClientDataMap[id].userName);
    }
  }
}
