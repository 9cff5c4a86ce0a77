/** What single steps of the whole system do to requests, stored messages and client states. */
module Steps {
  import opened Wrappers
  import opened Bytes
  import opened Protocol
  import opened RequestReader
  import opened ResponseRoundTrip
  import opened Storage
  import opened Manager
  import opened Server
  import opened Exchange
  import opened DataManager
  import opened Client
  import opened Runs
  import opened Registration
  import Delivery

  // ---------- Points of a run ----------

  /** The state after the first n steps. */
  ghost function At(keys: seq<Bytes>, steps: seq<Step>, n: nat, c: Crypto): World
    requires n <= |steps|
  {
    Run(Initial(keys), steps[..n], c)
  }

  lemma AtNext(keys: seq<Bytes>, steps: seq<Step>, n: nat, c: Crypto)
    requires n < |steps| && Keys(keys, c) && Lawful(c)
    ensures Inv(At(keys, steps, n, c), keys, c) && At(keys, steps, n + 1, c) == AtomicNext(At(keys, steps, n, c), steps[n], c)
  {
    assert steps[..n + 1][..n] == steps[..n];
    hide Next, AtomicNext, Inv, Keys, Lawful, FramesTrue;
    RunInv(steps[..n], keys, c);
    NextIsAtomic(At(keys, steps, n, c), steps[n], c);
  }

  // ---------- Single steps ----------

  predicate IsSecret(messageType: Byte) {
    messageType == SEND_TEXT_MESSAGE || messageType == SEND_FILE
  }

  /** What a send-message request says. */
  lemma RequestContent(st: ClientState, cmd: Command, rnd: Random, c: Crypto)
    requires TwoMapsAgree(st)
    ensures var (st', r) := CreateRequest(st, cmd, rnd, c);
      && (r.Success? && r.value.request.SendMessage? ==>
            var SendMessage(dest, messageType, content) := r.value.request;
            && dest in st.peers && st.clientId == Some(r.value.clientId)
            && (messageType == SEND_SYMMETRIC_KEY ==>
                  && cmd.SendSymmetricKey? && cmd.target in st.names && st.names[cmd.target] == dest
                  && st.peers[dest].publicKey != [] && SymmetricKey(st', dest) != []
                  && c.rsaEncrypt(st.peers[dest].publicKey, SymmetricKey(st', dest), rnd.seed) == Some(content))
            && (IsSecret(messageType) ==>
                  && PlainOf(cmd).Some? && |SymmetricKey(st, dest)| == 16
                  && content == c.aesEncrypt(SymmetricKey(st, dest), PlainOf(cmd).value)))
  {
  }

  /** Every message after a session was there before, or is the one the request asked to send, cut if not all frames arrived. */
  lemma ServeMessages(db: Db, e: Envelope<HexId>, k: nat, env: Env)
    ensures var o := Server.Serve(db, Arrived(e, k), env);
      && db.lastId <= o.db.lastId
      && (forall m :: m in o.db.messages && m !in db.messages ==>
            && k > 0 && e.request.SendMessage? && o.db.lastId == db.lastId + 1
            && m == StoredMessage(o.db.lastId, UnHex(e.request.dest), UnHex(e.clientId), e.request.messageType, ReceivedContent(e.request.content, k)))
      && (o.response.MessagesPulled? ==> forall m :: m in o.response.messages ==> m in db.messages)
  {
    var o := Server.Serve(db, Arrived(e, k), env);
    if k == 0 {
      Delivery.RespondEffect(db, GeneralError, env);
    } else {
      var q := Received(e, k);
      var (db', response) := Handle(db, q, env.uuid4);
      Delivery.HandleEffect(db, q, env.uuid4);
      Delivery.RespondEffect(db', response, env);
      assert o == Respond(db', response, env);
      hide Handle, Respond, ReceivedContent, UnHex, RStrip, Server.Serve;
      if Delivery.Removes(db', o) {
        WithoutMembers(db'.messages, Ids(response.messages));
      }
      if response.MessagesPulled? {
        QueueMembers(db.messages, q.clientId);
        forall m | m in response.messages ensures m in db.messages {
          assert m in QueueOf(db.messages, q.clientId);
        }
      }
    }
  }

  predicate HasAnswer(w: World, i: nat)
    requires i < |w.hosts|
  {
    w.hosts[i].waitingFor.Some? && w.hosts[i].waitingFor.value < |w.connections| && w.connections[w.hosts[i].waitingFor.value].answer.Some?
  }

  /** The answer under way to host i. */
  function AnswerTo(w: World, i: nat): Response
    requires i < |w.hosts| && HasAnswer(w, i)
  {
    w.connections[w.hosts[i].waitingFor.value].answer.value.outcome.response
  }

  /** A delivered answer changes its client, as handling the response does, or not at all. */
  lemma DeliverFrame(w: World, i: nat, j: nat, c: Crypto)
    requires Enabled(w, Deliver(i, j), c)
    ensures i < |w.hosts| && w.hosts[i].waitingFor.Some? && w.hosts[i].waitingFor.value < |w.connections|
    ensures w.connections[w.hosts[i].waitingFor.value].answer.Some?
    ensures var w' := AtomicNext(w, Deliver(i, j), c);
      && w'.db == w.db && w'.plains == w.plains && w'.connections == w.connections && w'.owners == w.owners && |w'.hosts| == |w.hosts|
      && (forall x :: 0 <= x < |w.hosts| && x != i ==> w'.hosts[x] == w.hosts[x])
      && (w'.hosts[i].process.state == w.hosts[i].process.state || w'.hosts[i].process.state == HandleResponse(w.hosts[i].process.state, View(AnswerTo(w, i)), c).0)
  {
    DeliverUnfold(w, i, j, c);
    hide HandleResponse, View, Enabled, AtomicNext;
  }
}
