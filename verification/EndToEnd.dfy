/** What a client can count on: its messages stay on the server until they were completely sent to it. */
module EndToEnd {
  import opened Wrappers
  import opened Protocol
  import opened Records
  import opened Bytes
  import opened ResponseReader
  import opened ResponseWriter
  import opened Storage
  import opened Server
  import opened Exchange
  import opened Client
  import opened Runs
  import opened Registration
  import opened Steps
  import Delivery

  /** The answer on connection s held m, and every frame of it was sent. */
  ghost predicate Handed(w: World, s: nat, m: StoredMessage) {
    && s < |w.connections| && w.connections[s].answer.Some?
    && var o := w.connections[s].answer.value.outcome;
       o.complete && o.response.MessagesPulled? && m in o.response.messages
  }

  /**
   And the connection is one of the client that m is addressed to, which decodes all of the answer's messages, m among them,
   when it reads all of its frames.
   */
  ghost predicate HandedToReceiver(w: World, s: nat, m: StoredMessage) {
    && Handed(w, s, m)
    && var conn := w.connections[s];
       var o := conn.answer.value.outcome;
       && conn.client < |w.hosts| && w.hosts[conn.client].process.state.clientId == Some(Hex(m.to))
       && DecodeFrames(o.sent) == Success((Messages(HexRecords(RecordsOf(o.response.messages))), |o.sent|))
  }

  /** A message that a session deletes is in the answer that the session sent completely. */
  lemma DeletedIsSent(db: Db, o: Outcome, m: StoredMessage)
    requires Consistent(db) && Delivery.Effect(db, o) && m in db.messages && m !in o.db.messages
    ensures o.complete && o.response.MessagesPulled? && m in o.response.messages
  {
    hide UniqueRows, HasClient;
    assert Delivery.Removes(db, o);
    WithoutMembers(db.messages, Ids(o.response.messages));
    var p :| p in o.response.messages && p.id == m.id;
    var id :| Delivery.PullBy(db, o, id);
    QueueMembers(db.messages, id);
    assert p in QueueOf(db.messages, id);
    Delivery.SameIdSameMessage(db.messages, db.lastId, p, m);
  }

  lemma ServeHands(w: World, s: nat, k: nat, env: Env, c: Crypto, m: StoredMessage)
    requires Enabled(w, Step.Serve(s, k, env), c) && Consistent(w.db) && m in w.db.messages
    ensures var w' := AtomicNext(w, Step.Serve(s, k, env), c);
      m in w'.db.messages || Handed(w', s, m)
  {
    hide AtomicNext, Enabled, Server.Serve, Session, RequestFrames, Arrived, Writable, Consistent, Delivery.Effect;
    ServeUnfold(w, s, k, env, c);
    var e := w.connections[s].request;
    var o := Server.Serve(w.db, Arrived(e, k), env);
    SessionTrue(w.db, e, k, env);
    Delivery.SessionEffect(w.db, RequestFrames(e)[..k], env);
    if m !in o.db.messages {
      DeletedIsSent(w.db, o, m);
    }
  }

  /** Answers are never taken back or changed. */
  lemma HandedStays(w: World, step: Step, c: Crypto, s: nat, m: StoredMessage)
    requires Handed(w, s, m)
    ensures Handed(AtomicNext(w, step, c), s, m)
  {
    hide CreateRequest, Finish, Reply, Server.Serve, Arrived, RequestFrames, Accepted, Writable;
  }

  /** A step loses no message that it did not hand over. */
  lemma NextHands(w: World, step: Step, keys: seq<Bytes>, c: Crypto, m: StoredMessage)
    requires Inv(w, keys, c) && m in w.db.messages
    ensures var w' := AtomicNext(w, step, c);
      m in w'.db.messages || exists s :: Handed(w', s, m)
  {
    assert Consistent(w.db);
    hide Inv, Handed, Consistent;
    if Enabled(w, step, c) {
      match step
      case Issue(i, cmd, rnd) =>
        IssueFrame(w, i, cmd, rnd, c);
        hide IssueStep, CreateRequest;
      case Serve(s, k, env) =>
        ServeHands(w, s, k, env, c, m);
        hide AtomicNext;
      case Deliver(i, j) =>
        DeliverFrame(w, i, j, c);
        hide AtomicNext;
      case GiveUp(i) =>
    }
  }

  lemma {:induction false} StoredOrHanded(keys: seq<Bytes>, steps: seq<Step>, i: nat, j: nat, m: StoredMessage, c: Crypto)
    requires i <= j <= |steps| && Keys(keys, c) && Lawful(c) && m in At(keys, steps, i, c).db.messages
    ensures m in At(keys, steps, j, c).db.messages || exists s :: Handed(At(keys, steps, j, c), s, m)
  {
    hide *;
    if i < j {
      var w, step := At(keys, steps, j - 1, c), steps[j - 1];
      StoredOrHanded(keys, steps, i, j - 1, m, c);
      AtNext(keys, steps, j - 1, c);
      if m in w.db.messages {
        NextHands(w, step, keys, c, m);
      } else {
        var s :| Handed(w, s, m);
        HandedStays(w, step, c, s, m);
      }
    }
  }

  /** Who gets an answer with m, and what it reads. */
  lemma HandedIsReceivers(w: World, keys: seq<Bytes>, c: Crypto, s: nat, m: StoredMessage)
    requires Inv(w, keys, c) && FramesTrue(w) && Handed(w, s, m)
    ensures HandedToReceiver(w, s, m)
  {
    var conn := w.connections[s];
    var o := conn.answer.value.outcome;
    hide Hex, UnHex, DirectoryOf, Consistent, UniqueRows, PeersOk, DirOk, DecodeFrames;
    assert RequestOk(w, keys, c, conn) && ResponseOk(Dir(w), conn, o.response);
    assert HostOk(Dir(w), keys, c, conn.client, w.hosts[conn.client].process);
    DirCanonical(w, conn.request.clientId);
    assert AnswerTrue(o);
    ReplyTrue(o, |o.sent|);
    assert o.sent[..|o.sent|] == o.sent;
  }

  /**
   End to end, in every run of the whole system: a message that was ever stored is, at every later point, still stored, or
   it was in an answer of which every frame was sent on a connection of the client it is addressed to, and which that client
   decodes, m included, when it reads it to its end.
   */
  lemma StoredOrHandedToReceiver(keys: seq<Bytes>, steps: seq<Step>, i: nat, j: nat, m: StoredMessage, c: Crypto)
    requires i <= j <= |steps| && Keys(keys, c) && Lawful(c) && m in At(keys, steps, i, c).db.messages
    ensures m in At(keys, steps, j, c).db.messages || exists s :: HandedToReceiver(At(keys, steps, j, c), s, m)
  {
    var w := At(keys, steps, j, c);
    RunInv(steps[..j], keys, c);
    hide *;
    StoredOrHanded(keys, steps, i, j, m, c);
    if m !in w.db.messages {
      var s :| Handed(w, s, m);
      HandedIsReceivers(w, keys, c, s, m);
    }
  }
}
