/** server/message_u_manager.py */
module Manager {
  import opened Wrappers
  import opened Bytes
  import opened Protocol
  import opened Records
  import opened ResponseWriter
  import opened Storage

  const MAX_PULLED_MESSAGES_DATA: nat := 0xFFFF_FFFF

  function PackedSize(ms: seq<StoredMessage>): nat {
    RecordsSize(RecordsOf(ms))
  }

  /** How many messages a pull takes from a queue when `size` bytes are already taken. */
  function BudgetCount(q: seq<StoredMessage>, size: nat): (k: nat)
    ensures k <= |q|
  {
    if q == [] || 25 + |q[0].content| > MAX_PULLED_MESSAGES_DATA - size then 0
    else 1 + BudgetCount(q[1..], size + 25 + |q[0].content|)
  }

  function Pulled(db: Db, id: Uuid): seq<StoredMessage> {
    var q := QueueOf(db.messages, id);
    q[..BudgetCount(q, 0)]
  }

  lemma PackedSizeCons(m: StoredMessage, ms: seq<StoredMessage>)
    ensures PackedSize([m] + ms) == 25 + |m.content| + PackedSize(ms)
  {
    assert RecordsOf([m] + ms)[1..] == RecordsOf(ms);
  }

  lemma {:induction false} PackedSizeSnoc(ms: seq<StoredMessage>, m: StoredMessage)
    ensures PackedSize(ms + [m]) == PackedSize(ms) + 25 + |m.content|
  {
    if ms == [] {
      PackedSizeCons(m, []);
      assert [m] + [] == [] + [m] == [m];
    } else {
      assert ms + [m] == [ms[0]] + (ms[1..] + [m]) && ms == [ms[0]] + ms[1..];
      PackedSizeCons(ms[0], ms[1..] + [m]);
      PackedSizeCons(ms[0], ms[1..]);
      PackedSizeSnoc(ms[1..], m);
    }
  }

  /** A pull takes the longest prefix of the queue whose packed size is within the budget. */
  lemma {:induction false} BudgetIsLongestPrefix(q: seq<StoredMessage>, size: nat, j: nat)
    requires j <= |q| && size <= MAX_PULLED_MESSAGES_DATA
    ensures size + PackedSize(q[..j]) <= MAX_PULLED_MESSAGES_DATA <==> j <= BudgetCount(q, size)
  {
    if j > 0 {
      assert q[..j] == [q[0]] + q[1..][..j - 1];
      PackedSizeCons(q[0], q[1..][..j - 1]);
      var size' := size + 25 + |q[0].content|;
      if size' <= MAX_PULLED_MESSAGES_DATA {
        BudgetIsLongestPrefix(q[1..], size', j - 1);
      }
    }
  }

  /** A pull takes the longest prefix of the queue whose packed size the response's four-byte size field holds. */
  lemma PullFillsField(db: Db, id: Uuid, j: nat)
    requires j <= |QueueOf(db.messages, id)|
    ensures j <= |Pulled(db, id)| <==> FourBytes(PackedSize(QueueOf(db.messages, id)[..j]))
  {
    BudgetIsLongestPrefix(QueueOf(db.messages, id), 0, j);
    FourBytesBound(PackedSize(QueueOf(db.messages, id)[..j]));
  }

  /** Messages arriving behind the queue never shorten what a pull takes. */
  lemma {:induction false} BudgetGrows(q: seq<StoredMessage>, more: seq<StoredMessage>, size: nat)
    ensures BudgetCount(q, size) <= BudgetCount(q + more, size)
  {
    if q != [] {
      assert (q + more)[1..] == q[1..] + more;
      BudgetGrows(q[1..], more, size + 25 + |q[0].content|);
    }
  }

  /** What the server does with a request, exceptions included; `freshId` is what uuid4 returns. */
  function Handle(db: Db, e: Envelope<Uuid>, freshId: Uuid): (Db, Response) {
    if e.request.Register? then
      var Register(name, key) := e.request;
      if HasName(db, name) || HasClient(db, freshId) then (db, GeneralError)
      else (db.(clients := db.clients + [ClientRow(freshId, name, key)]), RegisterSuccess(freshId))
    else if !HasClient(db, e.clientId) then (db, GeneralError)
    else
      match e.request
      case ListClients => (db, ClientsList(OtherClients(db.clients, e.clientId)))
      case GetPublicKey(dest) =>
        var key := PublicKeyOf(db.clients, dest);
        (db, if key.None? || key.value == [] then GeneralError else PublicKeySuccess(dest, key.value))
      case SendMessage(dest, messageType, content) =>
        if !HasClient(db, dest) then (db, GeneralError)
        else
          var m := StoredMessage(db.lastId + 1, dest, e.clientId, messageType, content);
          (db.(messages := db.messages + [m], lastId := m.id), MessageSent(dest, m.id))
      case PullMessages =>
        (db, MessagesPulled(Pulled(db, e.clientId), PackedSize(Pulled(db, e.clientId))))
  }

  class MessageUManager {
    const storage: SQLStorageHandler

    constructor (storage: SQLStorageHandler)
      ensures this.storage == storage
    {
      this.storage := storage;
    }

    method RegisterClient(userName: Bytes, publicKey: Bytes, uuid4: Uuid) returns (r: Option<Uuid>)
      modifies storage
      ensures r == if HasName(old(storage.View()), userName) || HasClient(old(storage.View()), uuid4) then None else Some(uuid4)
      ensures storage.View() == if r.None? then old(storage.View()) else
        old(storage.View()).(clients := old(storage.clients) + [ClientRow(uuid4, userName, publicKey)])
    {
      if HasName(storage.View(), userName) {
        return None;
      }
      var ok := storage.AddClient(uuid4, userName, publicKey);
      r := if ok then Some(uuid4) else None;
    }

    /** The loop over the stored messages, which stops at the first one that does not fit any more. */
    method PullMessages(clientId: Uuid) returns (messages: seq<StoredMessage>, size: nat)
      ensures messages == Pulled(storage.View(), clientId)
      ensures size == PackedSize(messages) && FourBytes(size)
      ensures var queue := QueueOf(storage.View().messages, clientId);
        forall j :: 0 <= j <= |queue| && FourBytes(PackedSize(queue[..j])) ==> j <= |messages|
    {
      ghost var db := storage.View();
      var queue := QueueOf(storage.messages, clientId);
      messages, size := [], 0;
      var i := 0;
      while i < |queue|
        invariant i <= |queue| && messages == queue[..i]
        invariant size == PackedSize(messages) <= MAX_PULLED_MESSAGES_DATA
        invariant BudgetCount(queue, 0) == i + BudgetCount(queue[i..], size)
      {
        var sizeOfMessage := |queue[i].content| + 25;
        if sizeOfMessage <= MAX_PULLED_MESSAGES_DATA - size {
          PackedSizeSnoc(messages, queue[i]);
          assert queue[..i + 1] == queue[..i] + [queue[i]];
          assert queue[i..][1..] == queue[i + 1..];
          messages := messages + [queue[i]];
          size := size + sizeOfMessage;
        } else {
          break;
        }
        i := i + 1;
      }
      FourBytesBound(size);
      forall j | 0 <= j <= |queue| && FourBytes(PackedSize(queue[..j])) ensures j <= |messages| {
        PullFillsField(db, clientId, j);
      }
    }

    /** The dispatch of MessageUServer._handle_request over the manager's methods; None is an exception. */
    method HandleRequest(e: Envelope<Uuid>, uuid4: Uuid) returns (response: Option<Response>)
      modifies storage
      ensures var (db, r) := Handle(old(storage.View()), e, uuid4);
        storage.View() == db && response == if r == GeneralError then None else Some(r)
      ensures response.Some? ==> SizeExact(response.value)
    {
      match e.request
      case Register(userName, publicKey) =>
        var id := RegisterClient(userName, publicKey, uuid4);
        response := if id.Some? then Some(RegisterSuccess(id.value)) else None;
      case ListClients =>
        if !HasClient(storage.View(), e.clientId) {
          return None;
        }
        response := Some(ClientsList(OtherClients(storage.clients, e.clientId)));
      case GetPublicKey(dest) =>
        if !HasClient(storage.View(), e.clientId) {
          return None;
        }
        var key := PublicKeyOf(storage.clients, dest);
        response := if key.None? || key.value == [] then None else Some(PublicKeySuccess(dest, key.value));
      case SendMessage(dest, messageType, content) =>
        if !HasClient(storage.View(), e.clientId) || !HasClient(storage.View(), dest) {
          return None;
        }
        var messageId := storage.SaveMessage(dest, e.clientId, messageType, content);
        response := Some(MessageSent(dest, messageId));
      case PullMessages =>
        if !HasClient(storage.View(), e.clientId) {
          return None;
        }
        var messages, size := PullMessages(e.clientId);
        response := Some(MessagesPulled(messages, size));
    }

    method DeleteMessages(ids: seq<nat>)
      modifies storage
      ensures storage.View() == old(storage.View()).(messages := WithoutIds(old(storage.messages), SetOf(ids)))
    {
      storage.DeleteClientMessages(ids);
    }
  }
}
