/**
 Runs of the server over arbitrary sessions: any bytes from any peers, any failure of encoding, sending or deleting.
 Three history variables record what ever happened to messages.
 */
module Delivery {
  import opened Wrappers
  import opened Bytes
  import opened Framing
  import opened Protocol
  import opened Records
  import opened RequestReader
  import opened ResponseWriter
  import opened Storage
  import opened Manager
  import opened Server

  /** A session: what the peer's connection yields, and the session's luck. */
  datatype Visit = Visit(chunks: seq<Bytes>, env: Env)

  /** `saved`: every message ever stored; `acked`: every message ever deleted; `pulls`: what each completely sent pull response held. */
  datatype History = History(db: Db, saved: seq<StoredMessage>, acked: seq<StoredMessage>, pulls: seq<seq<StoredMessage>>)

  const START := History(EMPTY_DB, [], [], [])

  /** Rows of a table that are new since the counter stood at `last`. */
  function Since(ms: seq<StoredMessage>, last: nat): seq<StoredMessage> {
    if ms == [] then []
    else
      var m := ms[|ms| - 1];
      Since(ms[..|ms| - 1], last) + if m.id > last then [m] else []
  }

  /** The histories after a session with outcome `o`. */
  function Note(h: History, o: Outcome): History {
    History(o.db,
      h.saved + Since(o.db.messages, h.db.lastId),
      h.acked + WithoutIds(h.db.messages, Ids(o.db.messages)),
      h.pulls + if o.complete && o.response.MessagesPulled? then [o.response.messages] else [])
  }

  function AfterVisit(h: History, v: Visit): History {
    Note(h, Session(h.db, v.chunks, v.env))
  }

  /** The histories along a run: empty tables first, then one session after the other. */
  ghost predicate IsRun(hs: seq<History>, vs: seq<Visit>) {
    && |hs| == |vs| + 1 && hs[0] == START
    && forall i :: 0 <= i < |vs| ==> hs[i + 1] == AfterVisit(hs[i], vs[i])
  }

  lemma RunStep(hs: seq<History>, vs: seq<Visit>, i: nat)
    requires IsRun(hs, vs) && i <= |vs|
    ensures |hs| == |vs| + 1 && hs[0] == START
    ensures i > 0 ==> hs[i] == AfterVisit(hs[i - 1], vs[i - 1])
  {
    hide AfterVisit;
    if i > 0 {
      assert hs[i - 1 + 1] == AfterVisit(hs[i - 1], vs[i - 1]);
    }
  }

  lemma RunExtends(hs: seq<History>, vs: seq<Visit>, v: Visit)
    requires IsRun(hs, vs)
    ensures IsRun(hs + [AfterVisit(hs[|vs|], v)], vs + [v])
  {
    hide AfterVisit;
  }

  // ---------- Filters ----------

  lemma {:induction false} QueueOfConcat(a: seq<StoredMessage>, b: seq<StoredMessage>, to: Uuid)
    ensures QueueOf(a + b, to) == QueueOf(a, to) + QueueOf(b, to)
  {
    if b == [] {
      assert a + b == a;
    } else {
      assert (a + b)[..|a + b| - 1] == a + b[..|b| - 1];
      QueueOfConcat(a, b[..|b| - 1], to);
    }
  }

  lemma {:induction false} WithoutConcat(a: seq<StoredMessage>, b: seq<StoredMessage>, ids: set<nat>)
    ensures WithoutIds(a + b, ids) == WithoutIds(a, ids) + WithoutIds(b, ids)
  {
    if b == [] {
      assert a + b == a;
    } else {
      assert (a + b)[..|a + b| - 1] == a + b[..|b| - 1];
      WithoutConcat(a, b[..|b| - 1], ids);
    }
  }

  lemma {:induction false} WithoutDisjoint(ms: seq<StoredMessage>, ids: set<nat>)
    requires forall m :: m in ms ==> m.id !in ids
    ensures WithoutIds(ms, ids) == ms
  {
    if ms != [] {
      WithoutDisjoint(ms[..|ms| - 1], ids);
    }
  }

  lemma {:induction false} WithoutAll(ms: seq<StoredMessage>, ids: set<nat>)
    requires forall m :: m in ms ==> m.id in ids
    ensures WithoutIds(ms, ids) == []
  {
    if ms != [] {
      WithoutAll(ms[..|ms| - 1], ids);
    }
  }

  lemma {:induction false} FiltersCommute(ms: seq<StoredMessage>, ids: set<nat>, to: Uuid)
    ensures QueueOf(WithoutIds(ms, ids), to) == WithoutIds(QueueOf(ms, to), ids)
  {
    if ms != [] {
      var init, last := ms[..|ms| - 1], ms[|ms| - 1];
      FiltersCommute(init, ids, to);
      WithoutConcat(QueueOf(init, to), if last.to == to then [last] else [], ids);
      QueueOfConcat(WithoutIds(init, ids), if last.id in ids then [] else [last], to);
      assert [last][..0] == [];
    }
  }

  lemma AscendingSnoc(ms: seq<StoredMessage>, m: StoredMessage, last: nat)
    requires Ascending(ms, last) && m.id <= last && forall x :: x in ms ==> x.id < m.id
    ensures Ascending(ms + [m], last)
  {
    forall i | 0 <= i < |ms| ensures ms[i].id < m.id {
      assert ms[i] in ms;
    }
  }

  /** The rows before the last one have smaller ids. */
  lemma AscendingInit(ms: seq<StoredMessage>, last: nat)
    requires Ascending(ms, last) && ms != []
    ensures var init, m := ms[..|ms| - 1], ms[|ms| - 1];
      Ascending(init, last) && m.id <= last && forall x :: x in init ==> x.id < m.id
  {
  }

  lemma {:induction false} WithoutAscending(ms: seq<StoredMessage>, ids: set<nat>, last: nat)
    requires Ascending(ms, last)
    ensures Ascending(WithoutIds(ms, ids), last)
  {
    if ms != [] {
      var init, m := ms[..|ms| - 1], ms[|ms| - 1];
      AscendingInit(ms, last);
      WithoutAscending(init, ids, last);
      WithoutMembers(init, ids);
      assert WithoutIds(ms, ids) == if m.id in ids then WithoutIds(init, ids) + [] else WithoutIds(init, ids) + [m];
      hide WithoutIds, Ascending;
      assert WithoutIds(init, ids) + [] == WithoutIds(init, ids);
      if m.id !in ids {
        AscendingSnoc(WithoutIds(init, ids), m, last);
      }
    }
  }

  lemma {:induction false} QueueAscending(ms: seq<StoredMessage>, to: Uuid, last: nat)
    requires Ascending(ms, last)
    ensures Ascending(QueueOf(ms, to), last)
  {
    if ms != [] {
      var init, m := ms[..|ms| - 1], ms[|ms| - 1];
      AscendingInit(ms, last);
      QueueAscending(init, to, last);
      QueueMembers(init, to);
      assert QueueOf(ms, to) == if m.to == to then QueueOf(init, to) + [m] else QueueOf(init, to) + [];
      hide QueueOf, Ascending;
      assert QueueOf(init, to) + [] == QueueOf(init, to);
      if m.to == to {
        AscendingSnoc(QueueOf(init, to), m, last);
      }
    }
  }

  lemma {:induction false} SinceNothing(ms: seq<StoredMessage>, last: nat)
    requires forall m :: m in ms ==> m.id <= last
    ensures Since(ms, last) == []
  {
    if ms != [] {
      SinceNothing(ms[..|ms| - 1], last);
    }
  }

  lemma SameIdSameMessage(ms: seq<StoredMessage>, last: nat, a: StoredMessage, b: StoredMessage)
    requires Ascending(ms, last) && a in ms && b in ms && a.id == b.id
    ensures a == b
  {
  }

  // ---------- What one session can do to the tables ----------

  ghost predicate Saves(db: Db, db': Db, m: StoredMessage) {
    && db'.clients == db.clients && db'.messages == db.messages + [m]
    && m.id == db.lastId + 1 == db'.lastId && HasClient(db, m.from) && HasClient(db, m.to)
  }

  ghost predicate PullBy(db: Db, o: Outcome, id: Uuid) {
    o.response.MessagesPulled? && o.response.messages == Pulled(db, id)
  }

  ghost predicate Removes(db: Db, o: Outcome) {
    && o.complete && o.response.MessagesPulled?
    && o.db == db.(messages := WithoutIds(db.messages, Ids(o.response.messages)))
  }

  /** A session leaves the messages alone, appends one, or removes exactly what it sent to one client from that client's queue. */
  ghost predicate Effect(db: Db, o: Outcome) {
    && (o.response.MessagesPulled? ==> exists id :: PullBy(db, o, id))
    && ( || (o.db.messages == db.messages && o.db.lastId == db.lastId)
         || (!o.response.MessagesPulled? && exists m :: Saves(db, o.db, m))
         || Removes(db, o))
  }

  lemma RespondEffect(db: Db, response: Response, env: Env)
    ensures var o := Respond(db, response, env);
      && o.response == response && o.db.clients == db.clients
      && (o.db == db || Removes(db, o))
      && (!response.MessagesPulled? ==> o.db == db)
  {
    hide ResponseFrames, Encodable, WithoutIds, Ids;
  }

  lemma HandleEffect(db: Db, e: Envelope<Uuid>, freshId: Uuid)
    ensures var (db', response) := Handle(db, e, freshId);
      && db.clients <= db'.clients
      && (response.MessagesPulled? ==> db' == db && response.messages == Pulled(db, e.clientId) && response.size == PackedSize(response.messages))
      && ((db'.messages == db.messages && db'.lastId == db.lastId) || (e.request.SendMessage? && !response.MessagesPulled? && Saves(db, db', StoredMessage(db.lastId + 1, e.request.dest, e.clientId, e.request.messageType, e.request.content))))
  {
    hide Pulled, PackedSize, OtherClients, PublicKeyOf;
  }

  /** Whatever bytes arrive and whatever fails. */
  lemma SessionEffect(db: Db, chunks: seq<Bytes>, env: Env)
    ensures Effect(db, Session(db, chunks, env))
    ensures SizeExact(Session(db, chunks, env).response)
    ensures db.clients <= Session(db, chunks, env).db.clients
  {
    hide Receive, Handle, Respond, Pulled;
    match Receive(chunks)
    case Failure(_) =>
      RespondEffect(db, GeneralError, env);
    case Success(e) =>
      var (db', response) := Handle(db, e, env.uuid4);
      HandleEffect(db, e, env.uuid4);
      RespondEffect(db', response, env);
      var o := Session(db, chunks, env);
      assert o == Respond(db', response, env);
      if response.MessagesPulled? {
        assert PullBy(db, o, e.clientId);
        assert o.db == db || Removes(db, o);
      } else {
        assert o.db == db';
        if db'.messages != db.messages || db'.lastId != db.lastId {
          assert Saves(db, o.db, StoredMessage(db.lastId + 1, e.request.dest, e.clientId, e.request.messageType, e.request.content));
        }
      }
  }

  // ---------- Consistency of the tables ----------

  lemma HasClientGrows(db: Db, db': Db, id: Uuid)
    requires db.clients <= db'.clients && HasClient(db, id)
    ensures HasClient(db', id)
  {
    var i :| 0 <= i < |db.clients| && db.clients[i].id == id;
    assert db'.clients[i] == db.clients[i];
  }

  lemma RowsStayUnique(db: Db, chunks: seq<Bytes>, env: Env)
    requires UniqueRows(db.clients)
    ensures UniqueRows(Session(db, chunks, env).db.clients)
  {
    hide Receive, Respond, Pulled, PackedSize, OtherClients, PublicKeyOf;
    match Receive(chunks)
    case Failure(_) =>
      RespondEffect(db, GeneralError, env);
    case Success(e) =>
      var (db', response) := Handle(db, e, env.uuid4);
      RespondEffect(db', response, env);
      assert UniqueRows(db'.clients);
  }

  /** Whatever bytes arrive and whatever fails, ids and names stay unique and every stored message is between registered clients. */
  lemma SessionKeepsConsistent(db: Db, chunks: seq<Bytes>, env: Env)
    requires Consistent(db)
    ensures Consistent(Session(db, chunks, env).db)
  {
    hide Session;
    var o := Session(db, chunks, env);
    SessionEffect(db, chunks, env);
    RowsStayUnique(db, chunks, env);
    if Removes(db, o) {
      DeletionKeepsConsistent(db, Ids(o.response.messages));
    }
    hide UniqueRows, WithoutIds, HasClient;
    forall m | m in o.db.messages ensures HasClient(o.db, m.to) && HasClient(o.db, m.from) {
      assert Removes(db, o) || (HasClient(db, m.to) && HasClient(db, m.from));
      if !Removes(db, o) {
        HasClientGrows(db, o.db, m.to);
        HasClientGrows(db, o.db, m.from);
      }
    }
  }

  lemma DeletionKeepsConsistent(db: Db, ids: set<nat>)
    requires Consistent(db)
    ensures Consistent(db.(messages := WithoutIds(db.messages, ids)))
  {
    var db' := db.(messages := WithoutIds(db.messages, ids));
    WithoutMembers(db.messages, ids);
    WithoutAscending(db.messages, ids, db.lastId);
    hide WithoutIds;
    forall m | m in db'.messages ensures HasClient(db', m.to) && HasClient(db', m.from) {
      HasClientGrows(db, db', m.to);
      HasClientGrows(db, db', m.from);
    }
  }

  // ---------- First in, first out, and nothing lost ----------

  /** Everything ever saved for a client is what was deleted, followed by what is stored. */
  ghost predicate Conserved(h: History, to: Uuid) {
    QueueOf(h.saved, to) == QueueOf(h.acked, to) + QueueOf(h.db.messages, to)
  }

  lemma WithoutPrefix(q: seq<StoredMessage>, k: nat, ids: set<nat>)
    requires k <= |q|
    requires forall m :: m in q[..k] ==> m.id in ids
    requires forall m :: m in q[k..] ==> m.id !in ids
    ensures WithoutIds(q, ids) == q[k..]
  {
    assert q == q[..k] + q[k..];
    WithoutConcat(q[..k], q[k..], ids);
    WithoutAll(q[..k], ids);
    WithoutDisjoint(q[k..], ids);
  }

  lemma WithoutSuffix(q: seq<StoredMessage>, k: nat, ids: set<nat>)
    requires k <= |q|
    requires forall m :: m in q[..k] ==> m.id !in ids
    requires forall m :: m in q[k..] ==> m.id in ids
    ensures WithoutIds(q, ids) == q[..k]
  {
    assert q == q[..k] + q[k..];
    WithoutConcat(q[..k], q[k..], ids);
    WithoutDisjoint(q[..k], ids);
    WithoutAll(q[k..], ids);
  }

  /** How many messages of `to` a pull by `id` takes. */
  function TakenFrom(db: Db, id: Uuid, to: Uuid): nat {
    if to == id then |Pulled(db, id)| else 0
  }

  /** The ids a pull takes single out a prefix of its client's queue, although the deletion looks at ids only. */
  lemma PulledIds(db: Db, id: Uuid, to: Uuid)
    requires Ascending(db.messages, db.lastId)
    ensures var q, k, ids := QueueOf(db.messages, to), TakenFrom(db, id, to), Ids(Pulled(db, id));
      && k <= |q|
      && (forall m :: m in q[..k] ==> m.id in ids)
      && (forall m :: m in q[k..] ==> m.id !in ids)
  {
    var q, k, ids := QueueOf(db.messages, to), TakenFrom(db, id, to), Ids(Pulled(db, id));
    QueueMembers(db.messages, to);
    QueueMembers(db.messages, id);
    QueueAscending(db.messages, to, db.lastId);
    hide QueueOf, BudgetCount;
    forall m | m in q[..k] ensures m.id in ids {
      assert m in Pulled(db, id);
    }
    forall m | m in q[k..] ensures m.id !in ids {
      var j :| 0 <= j < |q| - k && q[k..][j] == m;
      NotPulled(db, id, to, k + j);
    }
  }

  lemma NotPulled(db: Db, id: Uuid, to: Uuid, j: nat)
    requires Ascending(db.messages, db.lastId)
    requires TakenFrom(db, id, to) <= j < |QueueOf(db.messages, to)|
    ensures QueueOf(db.messages, to)[j].id !in Ids(Pulled(db, id))
  {
    var q := QueueOf(db.messages, to);
    var p := Pulled(db, id);
    QueueMembers(db.messages, to);
    QueueMembers(db.messages, id);
    QueueAscending(db.messages, to, db.lastId);
    hide QueueOf, BudgetCount;
    assert q[j] in q;
    forall i | 0 <= i < |p| ensures p[i].id != q[j].id {
      assert p[i] in QueueOf(db.messages, id);
      if to == id {
        assert p[i] == q[i];
      } else if p[i].id == q[j].id {
        SameIdSameMessage(db.messages, db.lastId, p[i], q[j]);
      }
    }
  }

  /** A pull's deletion removes a prefix of that client's queue and no message of anyone else. */
  lemma RemovalIsPrefix(db: Db, id: Uuid, to: Uuid)
    requires Ascending(db.messages, db.lastId)
    ensures var q, k := QueueOf(db.messages, to), TakenFrom(db, id, to);
      var rest := WithoutIds(db.messages, Ids(Pulled(db, id)));
      && k <= |q|
      && QueueOf(rest, to) == q[k..]
      && QueueOf(WithoutIds(db.messages, Ids(rest)), to) == q[..k]
  {
    var q, k, ids := QueueOf(db.messages, to), TakenFrom(db, id, to), Ids(Pulled(db, id));
    var rest := WithoutIds(db.messages, ids);
    PulledIds(db, id, to);
    FiltersCommute(db.messages, ids, to);
    FiltersCommute(db.messages, Ids(rest), to);
    WithoutMembers(db.messages, ids);
    QueueMembers(db.messages, to);
    hide QueueOf, WithoutIds, Pulled;
    WithoutPrefix(q, k, ids);
    forall m | m in q[..k] ensures m.id !in Ids(rest) {
    }
    forall m | m in q[k..] ensures m.id in Ids(rest) {
      assert m in q;
      assert m in rest;
    }
    WithoutSuffix(q, k, Ids(rest));
  }

  /** The messages a session sent completely to one client. */
  function SentTo(o: Outcome, to: Uuid): seq<StoredMessage> {
    if o.complete && o.response.MessagesPulled? then QueueOf(o.response.messages, to) else []
  }

  /** One session, seen by one client: its queue loses a prefix of what was sent, and gains what was saved. */
  ghost predicate MovesQueue(h: History, h': History, to: Uuid, k: nat, added: seq<StoredMessage>) {
    var q := QueueOf(h.db.messages, to);
    && k <= |q|
    && QueueOf(h'.db.messages, to) == q[k..] + added
    && QueueOf(h'.acked, to) == QueueOf(h.acked, to) + q[..k]
    && QueueOf(h'.saved, to) == QueueOf(h.saved, to) + added
  }

  lemma {:induction false} QueueOfAll(ms: seq<StoredMessage>, to: Uuid)
    requires forall m :: m in ms ==> m.to == to
    ensures QueueOf(ms, to) == ms
  {
    if ms != [] {
      QueueOfAll(ms[..|ms| - 1], to);
    }
  }

  lemma {:induction false} QueueOfNone(ms: seq<StoredMessage>, to: Uuid)
    requires forall m :: m in ms ==> m.to != to
    ensures QueueOf(ms, to) == []
  {
    if ms != [] {
      QueueOfNone(ms[..|ms| - 1], to);
    }
  }

  /** A pull sends its own client the first messages of the queue, and other clients nothing. */
  lemma PulledTo(db: Db, id: Uuid, to: Uuid)
    ensures TakenFrom(db, id, to) <= |QueueOf(db.messages, to)|
    ensures QueueOf(Pulled(db, id), to) == QueueOf(db.messages, to)[..TakenFrom(db, id, to)]
  {
    QueueMembers(db.messages, id);
    forall m | m in Pulled(db, id) ensures m.to == id {
      assert m in QueueOf(db.messages, id);
    }
    if to == id {
      QueueOfAll(Pulled(db, id), to);
    } else {
      QueueOfNone(Pulled(db, id), to);
    }
  }

  /** Whatever a session sends completely to a client is a prefix of that client's queue. */
  lemma SentIsPrefix(db: Db, o: Outcome, to: Uuid)
    requires Effect(db, o)
    ensures SentTo(o, to) <= QueueOf(db.messages, to)
  {
    hide QueueOf, Pulled, WithoutIds;
    if o.complete && o.response.MessagesPulled? {
      var id :| PullBy(db, o, id);
      PulledTo(db, id, to);
    }
  }

  lemma NoteUnchanged(h: History, o: Outcome, to: Uuid)
    requires Ascending(h.db.messages, h.db.lastId)
    requires o.db.messages == h.db.messages && o.db.lastId == h.db.lastId
    ensures MovesQueue(h, Note(h, o), to, 0, [])
  {
    SinceNothing(o.db.messages, h.db.lastId);
    WithoutAll(h.db.messages, Ids(o.db.messages));
    hide QueueOf, WithoutIds, Since;
    assert h.acked + [] == h.acked && h.saved + [] == h.saved;
  }

  lemma SinceOne(db: Db, db': Db, m: StoredMessage)
    requires Ascending(db.messages, db.lastId) && Saves(db, db', m)
    ensures Since(db'.messages, db.lastId) == [m]
  {
    SinceNothing(db.messages, db.lastId);
    assert db'.messages[..|db.messages|] == db.messages;
  }

  lemma NothingRemoved(ms: seq<StoredMessage>, m: StoredMessage)
    ensures WithoutIds(ms, Ids(ms + [m])) == []
  {
    forall x | x in ms ensures x.id in Ids(ms + [m]) {
      assert x in ms + [m];
    }
    WithoutAll(ms, Ids(ms + [m]));
  }

  lemma NoteValue(h: History, o: Outcome)
    ensures Note(h, o).db == o.db && Note(h, o).saved == h.saved + Since(o.db.messages, h.db.lastId)
    ensures Note(h, o).acked == h.acked + WithoutIds(h.db.messages, Ids(o.db.messages))
  {
  }

  lemma AppendsOne(h: History, h': History, to: Uuid, m: StoredMessage)
    requires h'.db.messages == h.db.messages + [m] && h'.saved == h.saved + [m] && h'.acked == h.acked + []
    requires QueueOf(h'.db.messages, to) == QueueOf(h.db.messages, to) + QueueOf([m], to)
    requires QueueOf(h'.saved, to) == QueueOf(h.saved, to) + QueueOf([m], to)
    ensures MovesQueue(h, h', to, 0, QueueOf([m], to))
  {
    hide QueueOf;
    assert h.acked + [] == h.acked;
  }

  lemma NoteSaved(h: History, o: Outcome, to: Uuid, m: StoredMessage)
    requires Ascending(h.db.messages, h.db.lastId) && Saves(h.db, o.db, m)
    ensures MovesQueue(h, Note(h, o), to, 0, QueueOf([m], to))
  {
    SinceOne(h.db, o.db, m);
    QueueOfConcat(h.db.messages, [m], to);
    QueueOfConcat(h.saved, [m], to);
    NothingRemoved(h.db.messages, m);
    hide *;
    NoteValue(h, o);
    AppendsOne(h, Note(h, o), to, m);
  }

  lemma NoteRemoved(h: History, o: Outcome, to: Uuid, id: Uuid)
    requires Ascending(h.db.messages, h.db.lastId) && Removes(h.db, o) && PullBy(h.db, o, id)
    ensures MovesQueue(h, Note(h, o), to, TakenFrom(h.db, id, to), [])
  {
    hide Pulled, Since;
    RemovalIsPrefix(h.db, id, to);
    WithoutMembers(h.db.messages, Ids(o.response.messages));
    QueueOfConcat(h.acked, WithoutIds(h.db.messages, Ids(o.db.messages)), to);
    hide QueueOf, WithoutIds;
    forall m | m in o.db.messages ensures m.id <= h.db.lastId {
      assert m in h.db.messages;
    }
    SinceNothing(o.db.messages, h.db.lastId);
    assert h.saved + [] == h.saved;
  }

  lemma NoteForClient(h: History, o: Outcome, to: Uuid) returns (k: nat, added: seq<StoredMessage>)
    requires Ascending(h.db.messages, h.db.lastId) && Effect(h.db, o)
    ensures MovesQueue(h, Note(h, o), to, k, added) && k <= |SentTo(o, to)|
  {
    hide QueueOf, WithoutIds, Pulled, Since, MovesQueue;
    if o.db.messages == h.db.messages && o.db.lastId == h.db.lastId {
      k, added := 0, [];
      NoteUnchanged(h, o, to);
    } else if m :| Saves(h.db, o.db, m) {
      k, added := 0, QueueOf([m], to);
      NoteSaved(h, o, to, m);
    } else {
      var id :| PullBy(h.db, o, id);
      k, added := TakenFrom(h.db, id, to), [];
      NoteRemoved(h, o, to, id);
      PulledTo(h.db, id, to);
    }
  }

  /** One session keeps saved = acknowledged + stored. */
  lemma VisitConserves(h: History, v: Visit, to: Uuid)
    requires Consistent(h.db) && Conserved(h, to)
    ensures Conserved(AfterVisit(h, v), to)
  {
    hide Session, QueueOf, Note;
    var o := Session(h.db, v.chunks, v.env);
    SessionEffect(h.db, v.chunks, v.env);
    var k, added := NoteForClient(h, o, to);
    var q := QueueOf(h.db.messages, to);
    assert q[..k] + q[k..] == q;
  }

  lemma StartConserved(to: Uuid)
    ensures Conserved(START, to)
  {
  }

  lemma StartConsistent()
    ensures Consistent(START.db)
  {
  }

  lemma VisitConsistent(h: History, v: Visit)
    requires Consistent(h.db)
    ensures Consistent(AfterVisit(h, v).db)
  {
    hide Session, Consistent;
    NoteValue(h, Session(h.db, v.chunks, v.env));
    SessionKeepsConsistent(h.db, v.chunks, v.env);
  }

  /** Whatever bytes ever arrived and whatever ever failed, the tables are consistent. */
  lemma {:induction false} AlwaysConsistent(hs: seq<History>, vs: seq<Visit>, i: nat)
    requires IsRun(hs, vs) && i <= |vs|
    ensures Consistent(hs[i].db)
  {
    hide *;
    RunStep(hs, vs, i);
    StartConsistent();
    if i > 0 {
      AlwaysConsistent(hs, vs, i - 1);
      VisitConsistent(hs[i - 1], vs[i - 1]);
    }
  }

  lemma {:induction false} AlwaysConserved(hs: seq<History>, vs: seq<Visit>, i: nat, to: Uuid)
    requires IsRun(hs, vs) && i <= |vs|
    ensures Conserved(hs[i], to)
  {
    hide *;
    RunStep(hs, vs, i);
    StartConserved(to);
    if i > 0 {
      AlwaysConserved(hs, vs, i - 1, to);
      AlwaysConsistent(hs, vs, i - 1);
      VisitConserves(hs[i - 1], vs[i - 1], to);
    }
  }

  /**
   In every reachable state and for every client, the messages ever saved are exactly the acknowledged ones
   followed by the stored ones, in order: first in, first out, nothing lost, nothing duplicated.
   */
  lemma FifoConservation(hs: seq<History>, vs: seq<Visit>, i: nat, to: Uuid)
    requires IsRun(hs, vs) && i <= |vs|
    ensures QueueOf(hs[i].saved, to) == QueueOf(hs[i].acked, to) + QueueOf(hs[i].db.messages, to)
  {
    hide IsRun, QueueOf;
    AlwaysConserved(hs, vs, i, to);
  }

  // ---------- At least once ----------

  /** Was `m` in a pull response of which every frame was sent, on a connection that claimed the id it is addressed to? */
  ghost predicate EverSent(h: History, m: StoredMessage) {
    exists i :: 0 <= i < |h.pulls| && m in h.pulls[i]
  }

  /** The messages ever sent to a client are exactly the first n saved for it, and all acknowledged ones are among them. */
  ghost predicate SentExactly(h: History, to: Uuid, n: nat) {
    && |QueueOf(h.acked, to)| <= n <= |QueueOf(h.saved, to)|
    && forall m: StoredMessage :: m.to == to ==> (EverSent(h, m) <==> m in QueueOf(h.saved, to)[..n])
  }

  lemma EverSentNext(h: History, o: Outcome, m: StoredMessage)
    ensures EverSent(Note(h, o), m) <==> EverSent(h, m) || m in SentTo(o, m.to)
  {
    hide QueueOf, WithoutIds, Since;
    var h' := Note(h, o);
    if EverSent(h, m) {
      var i :| 0 <= i < |h.pulls| && m in h.pulls[i];
      assert m in h'.pulls[i];
    }
    if o.complete && o.response.MessagesPulled? {
      QueueMembers(o.response.messages, m.to);
      if m in o.response.messages {
        assert m in h'.pulls[|h.pulls|];
      }
    }
  }

  lemma NoteSends(h: History, o: Outcome, to: Uuid, n: nat)
    requires Ascending(h.db.messages, h.db.lastId) && Effect(h.db, o) && Conserved(h, to) && SentExactly(h, to, n)
    ensures exists n' :: n <= n' && SentExactly(Note(h, o), to, n')
  {
    hide QueueOf, Note, EverSent, SentTo, Effect;
    var h' := Note(h, o);
    var sent := SentTo(o, to);
    var q, a := QueueOf(h.db.messages, to), QueueOf(h.acked, to);
    var saved := QueueOf(h.saved, to);
    SentIsPrefix(h.db, o, to);
    var k, added := NoteForClient(h, o, to);
    var n' := Max(n, |a| + |sent|);
    assert saved == a + q;
    assert saved[|a|..|a| + |sent|] == sent;
    assert QueueOf(h'.saved, to)[..n'] == saved[..n'];
    forall m: StoredMessage | m.to == to ensures EverSent(h', m) <==> m in QueueOf(h'.saved, to)[..n'] {
      EverSentNext(h, o, m);
      InLongerPrefix(saved, n, |a|, |a| + |sent|, m);
    }
    assert SentExactly(h', to, n');
  }

  lemma NextSends(h: History, v: Visit, to: Uuid, n: nat)
    requires Consistent(h.db) && Conserved(h, to) && SentExactly(h, to, n)
    ensures exists n' :: n <= n' && SentExactly(AfterVisit(h, v), to, n')
  {
    assert AfterVisit(h, v) == Note(h, Session(h.db, v.chunks, v.env));
    hide Session, Note, QueueOf, SentExactly;
    SessionEffect(h.db, v.chunks, v.env);
    NoteSends(h, Session(h.db, v.chunks, v.env), to, n);
  }

  lemma InLongerPrefix(s: seq<StoredMessage>, n: nat, lo: nat, hi: nat, m: StoredMessage)
    requires lo <= n <= |s| && lo <= hi <= |s|
    ensures m in s[..Max(n, hi)] <==> m in s[..n] || m in s[lo..hi]
  {
    if hi > n && m in s[..hi] && m !in s[..n] {
      var i :| 0 <= i < hi && s[i] == m;
      assert s[lo..hi][i - lo] == m;
    }
    if m in s[lo..hi] {
      var i :| 0 <= i < hi - lo && s[lo..hi][i] == m;
      assert s[..Max(n, hi)][lo + i] == m;
    }
    if m in s[..n] {
      var i :| 0 <= i < n && s[i] == m;
      assert s[..Max(n, hi)][i] == m;
    }
  }

  lemma StartSent(to: Uuid)
    ensures SentExactly(START, to, 0)
  {
  }

  /**
   In every reachable state and for every client, the messages for it that were ever completely sent, to whoever claimed its
   id, are a prefix of those ever saved for it, and a deleted message is always a sent one: encode, send and delete failures
   lose nothing.
   */
  lemma {:induction false} AtLeastOnce(hs: seq<History>, vs: seq<Visit>, i: nat, to: Uuid)
    requires IsRun(hs, vs) && i <= |vs|
    ensures exists n :: SentExactly(hs[i], to, n)
  {
    hide *;
    RunStep(hs, vs, i);
    StartSent(to);
    if i > 0 {
      AtLeastOnce(hs, vs, i - 1, to);
      var n: nat :| SentExactly(hs[i - 1], to, n);
      AlwaysConserved(hs, vs, i - 1, to);
      AlwaysConsistent(hs, vs, i - 1);
      NextSends(hs[i - 1], vs[i - 1], to, n);
    }
  }

  lemma UnsentInQueue(h: History, n: nat, m: StoredMessage)
    requires Conserved(h, m.to) && SentExactly(h, m.to, n) && m in h.saved && !EverSent(h, m)
    ensures m in h.db.messages
  {
    hide EverSent, QueueOf;
    QueueMembers(h.saved, m.to);
    QueueMembers(h.db.messages, m.to);
    var a, q := QueueOf(h.acked, m.to), QueueOf(h.db.messages, m.to);
    var saved := QueueOf(h.saved, m.to);
    assert saved == a + q && m in saved;
    assert saved[..n] == a + q[..n - |a|];
  }

  /** A message that was never completely sent is still stored. */
  lemma UnsentIsStored(hs: seq<History>, vs: seq<Visit>, i: nat, m: StoredMessage)
    requires IsRun(hs, vs) && i <= |vs|
    requires m in hs[i].saved && !EverSent(hs[i], m)
    ensures m in hs[i].db.messages
  {
    hide *;
    RunStep(hs, vs, i);
    AlwaysConserved(hs, vs, i, m.to);
    AtLeastOnce(hs, vs, i, m.to);
    var n: nat :| SentExactly(hs[i], m.to, n);
    UnsentInQueue(hs[i], n, m);
  }

  // ---------- Messages that fit no response ----------

  /** The message fits a response: the four-byte fields for the size of its record and for its id hold them. */
  predicate Deliverable(m: StoredMessage) {
    FourBytes(25 + |m.content|) && FourBytes(m.id)
  }

  lemma DeliverableBounds(m: StoredMessage)
    ensures Deliverable(m) <==> 25 + |m.content| < 0x1_0000_0000 && m.id < 0x1_0000_0000
  {
    FourBytesBound(25 + |m.content|);
    FourBytesBound(m.id);
    hide FourBytes;
  }

  lemma CompleteIsEncodable(db: Db, chunks: seq<Bytes>, env: Env)
    ensures var o := Session(db, chunks, env); o.complete ==> Encodable(o.response)
  {
    hide Receive, Handle, Encodable, ResponseFrames, WithoutIds, Ids;
  }

  /** Whatever is sent completely fits. */
  lemma SentIsDeliverable(db: Db, chunks: seq<Bytes>, env: Env, m: StoredMessage)
    requires var o := Session(db, chunks, env); o.complete && o.response.MessagesPulled? && m in o.response.messages
    ensures Deliverable(m)
  {
    CompleteIsEncodable(db, chunks, env);
    SessionEffect(db, chunks, env);
    var ms := Session(db, chunks, env).response.messages;
    hide Session, Effect;
    var i :| 0 <= i < |ms| && ms[i] == m;
    ContentBelowPacked(ms, i);
    assert Fits(RecordsOf(ms)[i]);
    DeliverableBounds(m);
  }

  /** So whatever was ever sent completely fits, in every reachable state. */
  lemma {:induction false} EverSentIsDeliverable(hs: seq<History>, vs: seq<Visit>, i: nat, m: StoredMessage)
    requires IsRun(hs, vs) && i <= |vs| && EverSent(hs[i], m)
    ensures Deliverable(m)
  {
    RunStep(hs, vs, i);
    hide IsRun, Deliverable;
    if i > 0 {
      var o := Session(hs[i - 1].db, vs[i - 1].chunks, vs[i - 1].env);
      EverSentNext(hs[i - 1], o, m);
      hide EverSent, Session;
      if EverSent(hs[i - 1], m) {
        EverSentIsDeliverable(hs, vs, i - 1, m);
      } else {
        QueueMembers(o.response.messages, m.to);
        SentIsDeliverable(hs[i - 1].db, vs[i - 1].chunks, vs[i - 1].env, m);
      }
    }
  }

  /** A session adds at most one message to those ever saved, under the next id. */
  lemma SavedNext(h: History, o: Outcome)
    requires Ascending(h.saved, h.db.lastId) && Consistent(h.db) && Effect(h.db, o)
    ensures Ascending(Note(h, o).saved, o.db.lastId) && h.saved <= Note(h, o).saved
  {
    hide *;
    NoteValue(h, o);
    if m :| Saves(h.db, o.db, m) {
      SavesOne(h, o, m);
    } else {
      SavesNone(h, o);
    }
  }

  lemma SavesOne(h: History, o: Outcome, m: StoredMessage)
    requires Ascending(h.saved, h.db.lastId) && Consistent(h.db) && Saves(h.db, o.db, m)
    ensures h.saved + Since(o.db.messages, h.db.lastId) == h.saved + [m] && Ascending(h.saved + [m], o.db.lastId)
  {
    SinceOne(h.db, o.db, m);
    hide Since, HasClient, UniqueRows;
  }

  lemma SavesNone(h: History, o: Outcome)
    requires Consistent(h.db) && Effect(h.db, o) && forall m :: !Saves(h.db, o.db, m)
    ensures h.saved + Since(o.db.messages, h.db.lastId) == h.saved && o.db.lastId == h.db.lastId
  {
    hide HasClient, UniqueRows, Pulled, Ids, Saves;
    if Removes(h.db, o) {
      WithoutMembers(h.db.messages, Ids(o.response.messages));
      hide WithoutIds;
      assert forall m :: m in o.db.messages ==> m in h.db.messages;
    }
    SinceNothing(o.db.messages, h.db.lastId);
    assert h.saved + [] == h.saved;
  }

  lemma SavedStep(hs: seq<History>, vs: seq<Visit>, i: nat)
    requires IsRun(hs, vs) && i < |vs| && Ascending(hs[i].saved, hs[i].db.lastId)
    ensures Ascending(hs[i + 1].saved, hs[i + 1].db.lastId) && hs[i].saved <= hs[i + 1].saved
  {
    var h, v := hs[i], vs[i];
    var o := Session(h.db, v.chunks, v.env);
    assert hs[i + 1] == Note(h, o) && Note(h, o).db == o.db;
    hide *;
    AlwaysConsistent(hs, vs, i);
    SessionEffect(h.db, v.chunks, v.env);
    SavedNext(h, o);
  }

  /** Ids are never reused, not even those of deleted messages. */
  lemma {:induction false} SavedAscending(hs: seq<History>, vs: seq<Visit>, i: nat)
    requires IsRun(hs, vs) && i <= |vs|
    ensures Ascending(hs[i].saved, hs[i].db.lastId)
  {
    RunStep(hs, vs, i);
    if i > 0 {
      hide *;
      SavedAscending(hs, vs, i - 1);
      SavedStep(hs, vs, i - 1);
    }
  }

  lemma {:induction false} SavedGrows(hs: seq<History>, vs: seq<Visit>, i: nat, j: nat)
    requires IsRun(hs, vs) && i <= j <= |vs|
    ensures hs[i].saved <= hs[j].saved
  {
    hide *;
    RunStep(hs, vs, j);
    if i < j {
      SavedGrows(hs, vs, i, j - 1);
      SavedAscending(hs, vs, j - 1);
      SavedStep(hs, vs, j - 1);
    }
  }

  lemma QueueGrows(ms: seq<StoredMessage>, ms': seq<StoredMessage>, to: Uuid)
    requires ms <= ms'
    ensures QueueOf(ms, to) <= QueueOf(ms', to)
  {
    assert ms' == ms + ms'[|ms|..];
    QueueOfConcat(ms, ms'[|ms|..], to);
  }

  /**
   A message that fits no response blocks its queue for good. If the b-th message ever saved for a client is one, then at every
   later time everything saved for that client from there on is still stored, as the end of its queue, and none of it has
   ever been completely sent.
   */
  lemma BlockedForGood(hs: seq<History>, vs: seq<Visit>, i: nat, j: nat, to: Uuid, b: nat)
    requires IsRun(hs, vs) && i <= j <= |vs|
    requires b < |QueueOf(hs[i].saved, to)| && !Deliverable(QueueOf(hs[i].saved, to)[b])
    ensures var saved, stored := QueueOf(hs[j].saved, to), QueueOf(hs[j].db.messages, to);
      && b < |saved| && saved[b] == QueueOf(hs[i].saved, to)[b]
      && |saved| - b <= |stored| && stored[|stored| - (|saved| - b)..] == saved[b..]
      && forall m :: m in saved[b..] ==> !EverSent(hs[j], m)
  {
    hide *;
    RunStep(hs, vs, j);
    SavedGrows(hs, vs, i, j);
    QueueGrows(hs[i].saved, hs[j].saved, to);
    AlwaysConserved(hs, vs, j, to);
    SavedAscending(hs, vs, j);
    QueueAscending(hs[j].saved, to, hs[j].db.lastId);
    AtLeastOnce(hs, vs, j, to);
    var n: nat :| SentExactly(hs[j], to, n);
    var blocker := QueueOf(hs[j].saved, to)[b];
    if EverSent(hs[j], blocker) {
      EverSentIsDeliverable(hs, vs, j, blocker);
    }
    QueueMembers(hs[j].saved, to);
    BlockedTail(hs[j], to, b, n);
  }

  lemma BlockedTail(h: History, to: Uuid, b: nat, n: nat)
    requires Conserved(h, to) && SentExactly(h, to, n) && Ascending(QueueOf(h.saved, to), h.db.lastId)
    requires b < |QueueOf(h.saved, to)| && !EverSent(h, QueueOf(h.saved, to)[b])
    requires forall m :: m in QueueOf(h.saved, to) ==> m.to == to
    ensures var saved, stored := QueueOf(h.saved, to), QueueOf(h.db.messages, to);
      && |saved| - b <= |stored| && stored[|stored| - (|saved| - b)..] == saved[b..]
      && forall m :: m in saved[b..] ==> !EverSent(h, m)
  {
    hide QueueOf, EverSent;
    var saved := QueueOf(h.saved, to);
    assert n <= b;
    assert forall m :: m in saved[b..] ==> m !in saved[..n];
  }

  // ---------- Draining a queue ----------

  /** A pull session in which nothing fails on the way. */
  ghost predicate Undisturbed(env: Env) {
    env.deleteWorks && env.sendsBeforeFailure >= NumFrames(7 + MAX_PULLED_MESSAGES_DATA)
  }

  function PullOnce(db: Db, id: Uuid, env: Env): Db {
    Serve(db, Success(Envelope(id, CLIENT_VERSION, PullMessages)), env).db
  }

  predicate IdsFit(ms: seq<StoredMessage>) {
    forall m :: m in ms ==> FourBytes(m.id)
  }

  /** The queue's head fits a response at all, and every id to be packed fits its field. */
  predicate Pullable(db: Db, id: Uuid) {
    var q := QueueOf(db.messages, id);
    q != [] && FourBytes(25 + |q[0].content|) && IdsFit(Pulled(db, id))
  }

  lemma PullEncodable(db: Db, id: Uuid)
    ensures var p := Pulled(db, id);
      PackedSize(p) <= MAX_PULLED_MESSAGES_DATA && (Encodable(MessagesPulled(p, PackedSize(p))) <==> IdsFit(p))
  {
    hide QueueOf, FourBytes;
    var p := Pulled(db, id);
    BudgetIsLongestPrefix(QueueOf(db.messages, id), 0, |p|);
    forall i | 0 <= i < |p| ensures Fits(RecordsOf(p)[i]) <==> FourBytes(p[i].id) {
      ContentBelowPacked(p, i);
      FourBytesBound(p[i].id);
    }
  }

  /** An undisturbed pull deletes what it took, or nothing when it cannot be encoded. */
  lemma UndisturbedPull(db: Db, id: Uuid, env: Env)
    requires HasClient(db, id) && Undisturbed(env)
    ensures var p := Pulled(db, id);
      PullOnce(db, id, env) ==
        if IdsFit(p) then db.(messages := WithoutIds(db.messages, Ids(p))) else db
  {
    hide Pulled, WithoutIds, Ids, PackedSize, IdsFit;
    var p := Pulled(db, id);
    var response := MessagesPulled(p, PackedSize(p));
    PullEncodable(db, id);
    FrameCountWithin(response);
    assert Handle(db, Envelope(id, CLIENT_VERSION, PullMessages), env.uuid4) == (db, response);
    hide Encodable, ResponseFrames, Handle;
    assert PullOnce(db, id, env) == Respond(db, response, env).db;
  }

  lemma FrameCountWithin(response: Response)
    requires response.MessagesPulled? && response.size == PackedSize(response.messages) <= MAX_PULLED_MESSAGES_DATA
    ensures |ResponseFrames(response)| <= NumFrames(7 + MAX_PULLED_MESSAGES_DATA)
  {
    AnnouncedSizeExact(response);
  }

  /** An undisturbed pull shortens its client's queue exactly when the size fields hold its head and the pulled ids. */
  lemma PullProgress(db: Db, id: Uuid, env: Env)
    requires Consistent(db) && HasClient(db, id) && Undisturbed(env)
    ensures |QueueOf(PullOnce(db, id, env).messages, id)| < |QueueOf(db.messages, id)| <==> Pullable(db, id)
    ensures Pullable(db, id) ==> QueueOf(PullOnce(db, id, env).messages, id) == QueueOf(db.messages, id)[|Pulled(db, id)|..]
  {
    UndisturbedPull(db, id, env);
    RemovalIsPrefix(db, id, id);
    var q := QueueOf(db.messages, id);
    if q != [] {
      FourBytesBound(25 + |q[0].content|);
    }
    assert Pulled(db, id) != [] <==> q != [] && FourBytes(25 + |q[0].content|);
    hide QueueOf, PullOnce, WithoutIds, Pulled, FourBytes;
  }

  lemma {:induction false} ContentBelowPacked(ms: seq<StoredMessage>, i: nat)
    requires i < |ms|
    ensures 25 + |ms[i].content| <= PackedSize(ms)
  {
    assert ms == [ms[0]] + ms[1..];
    PackedSizeCons(ms[0], ms[1..]);
    if i > 0 {
      ContentBelowPacked(ms[1..], i - 1);
    }
  }

  function PullRepeatedly(db: Db, id: Uuid, envs: seq<Env>): Db
    decreases |envs|
  {
    if envs == [] then db else PullRepeatedly(PullOnce(db, id, envs[0]), id, envs[1..])
  }

  ghost predicate AllDeliverable(db: Db, id: Uuid) {
    forall m :: m in QueueOf(db.messages, id) ==> Deliverable(m)
  }

  /** As many undisturbed pulls as there are messages empty the queue exactly when every stored message fits a response. */
  lemma {:induction false} PullsDrain(db: Db, id: Uuid, envs: seq<Env>)
    requires Consistent(db) && HasClient(db, id)
    requires |envs| >= |QueueOf(db.messages, id)|
    requires forall i :: 0 <= i < |envs| ==> Undisturbed(envs[i])
    ensures QueueOf(PullRepeatedly(db, id, envs).messages, id) == [] <==> AllDeliverable(db, id)
    decreases |envs|
  {
    hide *;
    if AllDeliverable(db, id) {
      PullsEmpty(db, id, envs);
    } else {
      PullsStick(db, id, envs);
    }
  }

  lemma {:induction false} PullsEmpty(db: Db, id: Uuid, envs: seq<Env>)
    requires Consistent(db) && HasClient(db, id) && AllDeliverable(db, id)
    requires |envs| >= |QueueOf(db.messages, id)|
    requires forall i :: 0 <= i < |envs| ==> Undisturbed(envs[i])
    ensures QueueOf(PullRepeatedly(db, id, envs).messages, id) == []
    decreases |envs|
  {
    hide *;
    PullRepeatedlyStep(db, id, envs);
    if envs != [] {
      PullShortens(db, id, envs[0]);
      PullsEmpty(PullOnce(db, id, envs[0]), id, envs[1..]);
    }
  }

  /** However often it is pulled, a queue with a message that fits no response is never emptied. */
  lemma {:induction false} PullsStick(db: Db, id: Uuid, envs: seq<Env>)
    requires Consistent(db) && HasClient(db, id) && !AllDeliverable(db, id)
    requires forall i :: 0 <= i < |envs| ==> Undisturbed(envs[i])
    ensures QueueOf(PullRepeatedly(db, id, envs).messages, id) != []
    decreases |envs|
  {
    hide *;
    PullRepeatedlyStep(db, id, envs);
    if envs == [] {
      StuckNotEmpty(db, id);
    } else {
      PullSticks(db, id, envs[0]);
      PullsStick(PullOnce(db, id, envs[0]), id, envs[1..]);
    }
  }

  lemma StuckNotEmpty(db: Db, id: Uuid)
    requires !AllDeliverable(db, id)
    ensures QueueOf(db.messages, id) != []
  {
    hide QueueOf;
  }

  lemma PullSticks(db: Db, id: Uuid, env: Env)
    requires Consistent(db) && HasClient(db, id) && !AllDeliverable(db, id) && Undisturbed(env)
    ensures var db' := PullOnce(db, id, env);
      Consistent(db') && HasClient(db', id) && !AllDeliverable(db', id)
  {
    var db' := PullOnce(db, id, env);
    var q := QueueOf(db.messages, id);
    var k := PullKeeps(db, id, env);
    hide PullOnce, QueueOf, Consistent, Pulled, HasClient, Undisturbed, Deliverable;
    var m :| m in q && !Deliverable(m);
    var i :| 0 <= i < |q| && q[i] == m;
    assert i >= k;
    assert q[k..][i - k] == m;
  }

  lemma PullRepeatedlyStep(db: Db, id: Uuid, envs: seq<Env>)
    ensures PullRepeatedly(db, id, envs) == if envs == [] then db else PullRepeatedly(PullOnce(db, id, envs[0]), id, envs[1..])
  {
    hide PullOnce;
  }

  lemma PullShortens(db: Db, id: Uuid, env: Env)
    requires Consistent(db) && HasClient(db, id) && AllDeliverable(db, id) && Undisturbed(env)
    ensures var db' := PullOnce(db, id, env);
      && Consistent(db') && HasClient(db', id) && AllDeliverable(db', id)
      && (QueueOf(db'.messages, id) == [] || |QueueOf(db'.messages, id)| < |QueueOf(db.messages, id)|)
  {
    var db' := PullOnce(db, id, env);
    var q := QueueOf(db.messages, id);
    var k := PullKeeps(db, id, env);
    if q != [] {
      PullProgress(db, id, env);
      AllDeliverableNow(db, id);
    }
    hide PullOnce, QueueOf, Consistent, Pulled, HasClient, Undisturbed, Pullable;
    assert forall m :: m in q[k..] ==> m in q;
  }

  lemma AllDeliverableNow(db: Db, id: Uuid)
    requires AllDeliverable(db, id) && QueueOf(db.messages, id) != []
    ensures Pullable(db, id)
  {
    hide QueueOf, FourBytes;
    var q := QueueOf(db.messages, id);
    assert q[0] in q;
    forall m | m in Pulled(db, id) ensures FourBytes(m.id) {
      assert m in q;
    }
  }

  lemma PulledAreDeliverable(db: Db, id: Uuid)
    requires IdsFit(Pulled(db, id))
    ensures forall i :: 0 <= i < |Pulled(db, id)| ==> Deliverable(Pulled(db, id)[i])
  {
    PullEncodable(db, id);
    var p := Pulled(db, id);
    hide Pulled, FourBytes;
    forall i | 0 <= i < |p| ensures Deliverable(p[i]) {
      ContentBelowPacked(p, i);
      FourBytesBound(25 + |p[i].content|);
    }
  }

  /** An undisturbed pull keeps the tables consistent and only takes from the front of the queue. */
  lemma PullKeeps(db: Db, id: Uuid, env: Env) returns (k: nat)
    requires Consistent(db) && HasClient(db, id) && Undisturbed(env)
    ensures Consistent(PullOnce(db, id, env)) && HasClient(PullOnce(db, id, env), id)
    ensures k <= |QueueOf(db.messages, id)| && QueueOf(PullOnce(db, id, env).messages, id) == QueueOf(db.messages, id)[k..]
    ensures forall i :: 0 <= i < k ==> Deliverable(QueueOf(db.messages, id)[i])
  {
    hide *;
    UndisturbedPull(db, id, env);
    PulledPrefix(db, id);
    k := if IdsFit(Pulled(db, id)) then |Pulled(db, id)| else 0;
    HasClientGrows(db, db.(messages := WithoutIds(db.messages, Ids(Pulled(db, id)))), id);
    if k != 0 {
      PulledAreDeliverable(db, id);
    }
  }

  /** What deleting the pulled messages leaves. */
  lemma PulledPrefix(db: Db, id: Uuid)
    requires Consistent(db)
    ensures var p, q := Pulled(db, id), QueueOf(db.messages, id);
      && |p| <= |q| && p == q[..|p|]
      && QueueOf(WithoutIds(db.messages, Ids(p)), id) == q[|p|..]
      && Consistent(db.(messages := WithoutIds(db.messages, Ids(p))))
  {
    RemovalIsPrefix(db, id, id);
    DeletionKeepsConsistent(db, Ids(Pulled(db, id)));
    hide QueueOf, WithoutIds, UniqueRows, HasClient;
  }
}
