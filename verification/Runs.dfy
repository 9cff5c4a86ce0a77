/**
 Runs of the whole system: any number of clients and one server, their steps interleaved in any order.
 A connection carries one request and its answer as frames; it may break off in either direction, the client may give
 up at any time, and the server may serve a request long after its client gave up.
 */
module Runs {
  import opened Wrappers
  import opened Bytes
  import opened Protocol
  import opened ResponseReader
  import opened ResponseRoundTrip
  import opened Storage
  import opened Server
  import opened Exchange
  import opened DataManager
  import opened Client
  import Delivery

  /** The session's outcome, whose `sent` frames travel back, and how many clients were registered then. */
  datatype Answer = Answer(outcome: Outcome, rows: nat)

  /** `plain` is the text or file a request's content encrypts; neither program reads it. */
  datatype Connection = Connection(client: nat, request: Envelope<HexId>, plain: Option<Bytes>, answer: Option<Answer>)

  /** `listed`: the number of registered clients when the last list the client got was served. */
  datatype Host = Host(process: Process, waitingFor: Option<nat>, listed: nat)

  /** `owners[i]` registered row i; `plains` maps the ids of stored messages to what their content encrypts. Both are history only. */
  datatype World = World(db: Db, hosts: seq<Host>, connections: seq<Connection>, owners: seq<nat>, plains: map<nat, Bytes>)

  datatype Step =
    | Issue(host: nat, cmd: Command, rnd: Random)      // a client runs a command and writes its request
    | Serve(connection: nat, arriving: nat, env: Env)  // the server serves a connection of which some frames arrived
    | Deliver(host: nat, arriving: nat)                // a client reads the frames of its answer that arrive
    | GiveUp(host: nat)                                // a client's connection fails

  function Initial(keys: seq<Bytes>): World {
    World(EMPTY_DB, seq(|keys|, i requires 0 <= i < |keys| => Host(Process(ClientState(keys[i], None, [], map[], map[]), false), None, 0)), [], [], map[])
  }

  function PlainOf(cmd: Command): Option<Bytes> {
    match cmd
    case SendText(_, text) => Some(text)
    case SendFileContent(_, file) => file
    case _ => None
  }

  ghost predicate Enabled(w: World, step: Step, c: Crypto) {
    match step
    case Issue(i, cmd, rnd) =>
      && i < |w.hosts| && w.hosts[i].waitingFor.None? && Accepted(w.hosts[i].process, cmd)
      && var r := CreateRequest(w.hosts[i].process.state, cmd, rnd, c).1; r.Success? ==> Writable(r.value.request)
    case Serve(s, k, _) =>
      && s < |w.connections| && w.connections[s].answer.None?
      && Writable(w.connections[s].request.request) && k <= |RequestFrames(w.connections[s].request)|
    case Deliver(i, j) =>
      && i < |w.hosts| && w.hosts[i].waitingFor.Some? && w.hosts[i].waitingFor.value < |w.connections|
      && var answer := w.connections[w.hosts[i].waitingFor.value].answer; answer.Some? && j <= |answer.value.outcome.sent|
    case GiveUp(i) => i < |w.hosts|
  }

  function IssueStep(w: World, i: nat, cmd: Command, rnd: Random, c: Crypto): World
    requires i < |w.hosts|
  {
    var (st', r) := CreateRequest(w.hosts[i].process.state, cmd, rnd, c);
    var process := w.hosts[i].process.(state := st');
    if r.Failure? then w.(hosts := w.hosts[i := w.hosts[i].(process := process)])
    else w.(
      hosts := w.hosts[i := w.hosts[i].(process := process, waitingFor := Some(|w.connections|))],
      connections := w.connections + [Connection(i, r.value, PlainOf(cmd), None)])
  }

  /** What issuing changes besides the client itself: at most one new connection. */
  lemma IssueFrame(w: World, i: nat, cmd: Command, rnd: Random, c: Crypto)
    requires i < |w.hosts|
    ensures var w', r := IssueStep(w, i, cmd, rnd, c), CreateRequest(w.hosts[i].process.state, cmd, rnd, c).1;
      && w'.db == w.db && w'.plains == w.plains
      && w'.connections == if r.Success? then w.connections + [Connection(i, r.value, PlainOf(cmd), None)] else w.connections
  {
    hide CreateRequest, PlainOf;
  }

  function ServeStep(w: World, s: nat, whole: bool, o: Outcome): World
    requires s < |w.connections|
  {
    var conn := w.connections[s];
    World(o.db, w.hosts,
      w.connections[s := conn.(answer := Some(Answer(o, |o.db.clients|)))],
      if |o.db.clients| > |w.db.clients| then w.owners + [conn.client] else w.owners,
      if o.db.lastId > w.db.lastId && whole && conn.plain.Some? then w.plains[o.db.lastId := conn.plain.value] else w.plains)
  }

  function DeliverStep(w: World, i: nat, reply: Result<(Decoded, nat), ResponseError>, c: Crypto): World
    requires i < |w.hosts| && w.hosts[i].waitingFor.Some? && w.hosts[i].waitingFor.value < |w.connections|
    requires w.connections[w.hosts[i].waitingFor.value].answer.Some?
  {
    var host := w.hosts[i];
    var rows := w.connections[host.waitingFor.value].answer.value.rows;
    var listed := if reply.Success? && reply.value.0.Clients? then Max(host.listed, rows) else host.listed;
    w.(hosts := w.hosts[i := Host(Finish(host.process, reply, c), None, listed)])
  }

  /** The step as the programs take it, on frames; a step that is not enabled changes nothing. */
  ghost function Next(w: World, step: Step, c: Crypto): World {
    if !Enabled(w, step, c) then w
    else
      match step
      case Issue(i, cmd, rnd) => IssueStep(w, i, cmd, rnd, c)
      case Serve(s, k, env) =>
        var frames := RequestFrames(w.connections[s].request);
        ServeStep(w, s, k == |frames|, Session(w.db, frames[..k], env))
      case Deliver(i, j) =>
        DeliverStep(w, i, DecodeFrames(w.connections[w.hosts[i].waitingFor.value].answer.value.outcome.sent[..j]), c)
      case GiveUp(i) => w.(hosts := w.hosts[i := w.hosts[i].(waitingFor := None)])
  }

  ghost function Run(w: World, steps: seq<Step>, c: Crypto): World {
    if steps == [] then w else Next(Run(w, steps[..|steps| - 1], c), steps[|steps| - 1], c)
  }

  // ---------- The same steps without frames ----------

  /** What a client decodes when `arriving` frames of an answer reach it. */
  function Reply(o: Outcome, arriving: nat): Result<(Decoded, nat), ResponseError> {
    if o.complete && arriving == |o.sent| then Success((View(o.response), arriving)) else Failure(EndOfFile)
  }

  ghost function AtomicNext(w: World, step: Step, c: Crypto): World {
    if !Enabled(w, step, c) then w
    else
      match step
      case Issue(i, cmd, rnd) => IssueStep(w, i, cmd, rnd, c)
      case Serve(s, k, env) =>
        var e := w.connections[s].request;
        ServeStep(w, s, k == |RequestFrames(e)|, Server.Serve(w.db, Arrived(e, k), env))
      case Deliver(i, j) =>
        DeliverStep(w, i, Reply(w.connections[w.hosts[i].waitingFor.value].answer.value.outcome, j), c)
      case GiveUp(i) => w.(hosts := w.hosts[i := w.hosts[i].(waitingFor := None)])
  }

  lemma ServeUnfold(w: World, s: nat, k: nat, env: Env, c: Crypto)
    requires Enabled(w, Step.Serve(s, k, env), c)
    ensures s < |w.connections| && w.connections[s].answer.None? && Writable(w.connections[s].request.request)
    ensures k <= |RequestFrames(w.connections[s].request)|
    ensures var e := w.connections[s].request;
      AtomicNext(w, Step.Serve(s, k, env), c) == ServeStep(w, s, k == |RequestFrames(e)|, Server.Serve(w.db, Arrived(e, k), env))
  {
    hide ServeStep, Server.Serve, RequestFrames, Arrived, Writable;
  }

  lemma DeliverUnfold(w: World, i: nat, j: nat, c: Crypto)
    requires Enabled(w, Deliver(i, j), c)
    ensures i < |w.hosts| && w.hosts[i].waitingFor.Some? && w.hosts[i].waitingFor.value < |w.connections|
    ensures var answer := w.connections[w.hosts[i].waitingFor.value].answer;
      answer.Some? && AtomicNext(w, Deliver(i, j), c) == DeliverStep(w, i, Reply(answer.value.outcome, j), c)
  {
    hide DeliverStep, Reply;
  }

  ghost function AtomicRun(w: World, steps: seq<Step>, c: Crypto): World {
    if steps == [] then w else AtomicNext(AtomicRun(w, steps[..|steps| - 1], c), steps[|steps| - 1], c)
  }

  /** Every prefix of an answer's frames decodes to that answer or to the end of the connection. */
  ghost predicate FramesTrue(w: World) {
    forall s :: 0 <= s < |w.connections| && w.connections[s].answer.Some? ==> AnswerTrue(w.connections[s].answer.value.outcome)
  }

  ghost predicate AnswerTrue(o: Outcome) {
    forall j: nat :: j <= |o.sent| ==> DecodeFrames(o.sent[..j]) == Reply(o, j)
  }

  lemma SessionTrue(db: Db, e: Envelope<HexId>, k: nat, env: Env)
    requires Writable(e.request) && k <= |RequestFrames(e)|
    ensures Session(db, RequestFrames(e)[..k], env) == Server.Serve(db, Arrived(e, k), env)
    ensures AnswerTrue(Session(db, RequestFrames(e)[..k], env))
  {
    hide Session, Server.Serve, DecodeFrames, RequestFrames, Arrived, View, Writable;
    var o := Session(db, RequestFrames(e)[..k], env);
    FramedSession(db, e, k, env, 0);
    forall j: nat | j <= |o.sent| ensures DecodeFrames(o.sent[..j]) == Reply(o, j) {
      FramedSession(db, e, k, env, j);
    }
  }

  lemma NextIsAtomic(w: World, step: Step, c: Crypto)
    requires FramesTrue(w)
    ensures Next(w, step, c) == AtomicNext(w, step, c) && FramesTrue(Next(w, step, c))
  {
    hide Session, Server.Serve, DecodeFrames, RequestFrames, Arrived, CreateRequest, Finish, Accepted, Writable, Reply, AnswerTrue;
    if Enabled(w, step, c) {
      match step
      case Issue(i, cmd, rnd) =>
      case Serve(s, k, env) =>
        SessionTrue(w.db, w.connections[s].request, k, env);
      case Deliver(i, j) =>
        ReplyTrue(w.connections[w.hosts[i].waitingFor.value].answer.value.outcome, j);
      case GiveUp(i) =>
    }
  }

  lemma ReplyTrue(o: Outcome, j: nat)
    requires AnswerTrue(o) && j <= |o.sent|
    ensures DecodeFrames(o.sent[..j]) == Reply(o, j)
  {
  }

  /** Every run on frames is the run on whole requests and responses. */
  lemma {:induction false} RunIsAtomic(w: World, steps: seq<Step>, c: Crypto)
    requires FramesTrue(w)
    ensures Run(w, steps, c) == AtomicRun(w, steps, c) && FramesTrue(Run(w, steps, c))
  {
    if steps != [] {
      RunIsAtomic(w, steps[..|steps| - 1], c);
      hide Next, AtomicNext, FramesTrue;
      NextIsAtomic(Run(w, steps[..|steps| - 1], c), steps[|steps| - 1], c);
    }
  }

  /** The server's part of a run of the whole system is a run of visits, so what holds of all those holds here. */
  lemma {:induction false} RunIsVisits(keys: seq<Bytes>, steps: seq<Step>, c: Crypto) returns (hs: seq<Delivery.History>, vs: seq<Delivery.Visit>)
    ensures Delivery.IsRun(hs, vs) && hs[|vs|].db == Run(Initial(keys), steps, c).db
  {
    if steps == [] {
      hs, vs := [Delivery.START], [];
    } else {
      var init, last := steps[..|steps| - 1], steps[|steps| - 1];
      hs, vs := RunIsVisits(keys, init, c);
      var w := Run(Initial(keys), init, c);
      assert Run(Initial(keys), steps, c) == Next(w, last, c);
      NextDb(w, last, c);
      hide Run, Next, Enabled, Session, RequestFrames, Delivery.IsRun;
      if Enabled(w, last, c) && last.Serve? {
        var visit := ServeVisit(w, last);
        Delivery.RunExtends(hs, vs, visit);
        hs, vs := hs + [Delivery.AfterVisit(hs[|vs|], visit)], vs + [visit];
      }
    }
  }

  function ServeVisit(w: World, step: Step): Delivery.Visit
    requires step.Serve? && step.connection < |w.connections| && Writable(w.connections[step.connection].request.request)
    requires step.arriving <= |RequestFrames(w.connections[step.connection].request)|
  {
    Delivery.Visit(RequestFrames(w.connections[step.connection].request)[..step.arriving], step.env)
  }

  /** Only serving touches the tables, and it does what a visit does. */
  lemma NextDb(w: World, step: Step, c: Crypto)
    ensures Enabled(w, step, c) && step.Serve? ==>
      && step.connection < |w.connections| && Writable(w.connections[step.connection].request.request)
      && step.arriving <= |RequestFrames(w.connections[step.connection].request)|
      && Next(w, step, c).db == Session(w.db, ServeVisit(w, step).chunks, step.env).db
    ensures !(Enabled(w, step, c) && step.Serve?) ==> Next(w, step, c).db == w.db
  {
    hide Session, RequestFrames, CreateRequest, DecodeFrames, Finish, Accepted, Writable;
  }
}
