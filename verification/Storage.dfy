/** server/storage_handler.py: the clients table and the messages table. */
module Storage {
  import opened Wrappers
  import opened Bytes
  import opened Protocol

  datatype ClientRow = ClientRow(id: Uuid, name: Bytes, publicKey: Bytes)

  // Rows in insertion order; `lastId` is the AUTOINCREMENT counter, which deletions do not lower.
  datatype Db = Db(clients: seq<ClientRow>, messages: seq<StoredMessage>, lastId: nat)

  const EMPTY_DB := Db([], [], 0)

  predicate HasClient(db: Db, id: Uuid) {
    exists i :: 0 <= i < |db.clients| && db.clients[i].id == id
  }

  predicate HasName(db: Db, name: Bytes) {
    exists i :: 0 <= i < |db.clients| && db.clients[i].name == name
  }

  /** Unique ids and names, every message between registered clients, message ids ascending up to the counter. */
  ghost predicate Consistent(db: Db) {
    && UniqueRows(db.clients)
    && (forall m :: m in db.messages ==> HasClient(db, m.to) && HasClient(db, m.from))
    && Ascending(db.messages, db.lastId)
  }

  ghost predicate UniqueRows(rows: seq<ClientRow>) {
    && (forall i, j :: 0 <= i < j < |rows| ==> rows[i].id != rows[j].id)
    && (forall i, j :: 0 <= i < j < |rows| ==> rows[i].name != rows[j].name)
  }

  ghost predicate Ascending(ms: seq<StoredMessage>, last: nat) {
    && (forall i, j :: 0 <= i < j < |ms| ==> ms[i].id < ms[j].id)
    && (forall i :: 0 <= i < |ms| ==> ms[i].id <= last)
  }

  /** select * from messages where ToClient = to */
  function QueueOf(ms: seq<StoredMessage>, to: Uuid): seq<StoredMessage> {
    if ms == [] then []
    else
      var last := ms[|ms| - 1];
      QueueOf(ms[..|ms| - 1], to) + if last.to == to then [last] else []
  }

  /** delete from messages where ID in (...): the client they are for plays no role */
  function WithoutIds(ms: seq<StoredMessage>, ids: set<nat>): seq<StoredMessage> {
    if ms == [] then []
    else
      var last := ms[|ms| - 1];
      WithoutIds(ms[..|ms| - 1], ids) + if last.id in ids then [] else [last]
  }

  function Ids(ms: seq<StoredMessage>): set<nat> {
    set m | m in ms :: m.id
  }

  function SetOf(ids: seq<nat>): set<nat> {
    set id | id in ids
  }

  function IdList(ms: seq<StoredMessage>): (ids: seq<nat>)
    ensures SetOf(ids) == Ids(ms)
  {
    var ids := seq(|ms|, i requires 0 <= i < |ms| => ms[i].id);
    assert forall i :: 0 <= i < |ms| ==> ids[i] == ms[i].id && ms[i] in ms;
    ids
  }

  /** select ID, UserName from clients where ID <> excluded */
  function OtherClients(rows: seq<ClientRow>, excluded: Uuid): seq<(Uuid, Bytes)> {
    if rows == [] then []
    else
      var last := rows[|rows| - 1];
      OtherClients(rows[..|rows| - 1], excluded) + if last.id == excluded then [] else [(last.id, last.name)]
  }

  /** select PublicKey from clients where ID = id */
  function PublicKeyOf(rows: seq<ClientRow>, id: Uuid): Option<Bytes> {
    if rows == [] then None
    else if rows[0].id == id then Some(rows[0].publicKey)
    else PublicKeyOf(rows[1..], id)
  }

  lemma {:induction false} QueueMembers(ms: seq<StoredMessage>, to: Uuid)
    ensures forall m :: m in QueueOf(ms, to) <==> m in ms && m.to == to
  {
    if ms != [] {
      QueueMembers(ms[..|ms| - 1], to);
      assert ms == ms[..|ms| - 1] + [ms[|ms| - 1]];
    }
  }

  lemma {:induction false} WithoutMembers(ms: seq<StoredMessage>, ids: set<nat>)
    ensures forall m :: m in WithoutIds(ms, ids) <==> m in ms && m.id !in ids
  {
    if ms != [] {
      WithoutMembers(ms[..|ms| - 1], ids);
      assert ms == ms[..|ms| - 1] + [ms[|ms| - 1]];
    }
  }

  /** A client list holds every other registered client, and only registered clients. */
  lemma {:induction false} OtherClientsMembers(rows: seq<ClientRow>, excluded: Uuid)
    ensures forall row :: row in rows && row.id != excluded ==> (row.id, row.name) in OtherClients(rows, excluded)
    ensures forall c :: c in OtherClients(rows, excluded) ==> c.0 != excluded && exists row :: row in rows && row.id == c.0 && row.name == c.1
  {
    if rows != [] {
      OtherClientsMembers(rows[..|rows| - 1], excluded);
      var last := rows[|rows| - 1];
      assert rows == rows[..|rows| - 1] + [last];
      assert last in rows;
    }
  }

  lemma {:induction false} PublicKeyOfMember(rows: seq<ClientRow>, id: Uuid)
    ensures PublicKeyOf(rows, id).Some? ==> exists row :: row in rows && row.id == id && row.publicKey == PublicKeyOf(rows, id).value
  {
    if rows != [] && rows[0].id != id {
      PublicKeyOfMember(rows[1..], id);
      if PublicKeyOf(rows, id).Some? {
        var row :| row in rows[1..] && row.id == id && row.publicKey == PublicKeyOf(rows[1..], id).value;
        assert row in rows;
      }
    }
  }

  class SQLStorageHandler {
    var clients: seq<ClientRow>
    var messages: seq<StoredMessage>
    var lastId: nat

    function View(): Db
      reads this
    {
      Db(clients, messages, lastId)
    }

    constructor ()
      ensures View() == EMPTY_DB
    {
      clients, messages, lastId := [], [], 0;
    }

    /** Inserting fails on a duplicate id or name: both columns are unique. */
    method AddClient(id: Uuid, name: Bytes, publicKey: Bytes) returns (ok: bool)
      modifies this
      ensures ok <==> !HasClient(old(View()), id) && !HasName(old(View()), name)
      ensures View() == if ok then old(View()).(clients := old(clients) + [ClientRow(id, name, publicKey)]) else old(View())
    {
      ok := !HasClient(View(), id) && !HasName(View(), name);
      if ok {
        clients := clients + [ClientRow(id, name, publicKey)];
      }
    }

    method SaveMessage(to: Uuid, from: Uuid, messageType: Byte, content: Bytes) returns (messageId: nat)
      modifies this
      ensures messageId == old(lastId) + 1 == lastId
      ensures clients == old(clients) && messages == old(messages) + [StoredMessage(messageId, to, from, messageType, content)]
    {
      lastId := lastId + 1;
      messageId := lastId;
      messages := messages + [StoredMessage(messageId, to, from, messageType, content)];
    }

    method DeleteClientMessages(ids: seq<nat>)
      modifies this
      ensures View() == old(View()).(messages := WithoutIds(old(messages), SetOf(ids)))
    {
      if |ids| == 0 {
        WithoutNothing(messages);
        assert SetOf(ids) == {};
        return;
      }
      messages := WithoutIds(messages, SetOf(ids));
    }
  }

  lemma {:induction false} WithoutNothing(ms: seq<StoredMessage>)
    ensures WithoutIds(ms, {}) == ms
  {
    if ms != [] {
      WithoutNothing(ms[..|ms| - 1]);
    }
  }
}
