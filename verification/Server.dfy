/** server/message_u_server.py: one session, from the bytes received to the frames sent and the messages deleted. */
module Server {
  import opened Wrappers
  import opened Bytes
  import opened Framing
  import opened Protocol
  import opened RequestReader
  import opened ResponseWriter
  import opened Storage
  import opened Manager

  /** What the session does not decide: the random id, how many sends succeed before the connection fails, whether the delete succeeds. */
  datatype Env = Env(uuid4: Uuid, sendsBeforeFailure: nat, deleteWorks: bool)

  datatype Outcome = Outcome(db: Db, response: Response, sent: seq<Frame>, complete: bool)

  /** Encoding, sending and, once every frame has been sent, deleting what was pulled. */
  function Respond(db: Db, response: Response, env: Env): Outcome {
    if !Encodable(response) then Outcome(db, response, [], false)
    else
      var frames := ResponseFrames(response);
      if env.sendsBeforeFailure < |frames| then Outcome(db, response, frames[..env.sendsBeforeFailure], false)
      else if response.MessagesPulled? && env.deleteWorks then
        Outcome(db.(messages := WithoutIds(db.messages, Ids(response.messages))), response, frames, true)
      else Outcome(db, response, frames, true)
  }

  function Serve(db: Db, request: Result<Envelope<Uuid>, RequestError>, env: Env): Outcome {
    match request
    case Failure(_) => Respond(db, GeneralError, env)
    case Success(e) =>
      var (db', response) := Handle(db, e, env.uuid4);
      Respond(db', response, env)
  }

  /** The whole session as a function of the database and of everything recv returns. */
  function Session(db: Db, chunks: seq<Bytes>, env: Env): Outcome {
    Serve(db, Receive(chunks), env)
  }

  class MessageUServer {
    const manager: MessageUManager

    constructor (manager: MessageUManager)
      ensures this.manager == manager
    {
      this.manager := manager;
    }

    method HandleSession(chunks: seq<Bytes>, env: Env) returns (sent: seq<Frame>)
      modifies manager.storage
      ensures var o := Session(old(manager.storage.View()), chunks, env);
        manager.storage.View() == o.db && sent == o.sent
    {
      sent := [];
      var request := ReceiveRequest(chunks);
      var handled := None;
      if request.Success? {
        handled := manager.HandleRequest(request.value, env.uuid4);
      }
      var response := if handled.Some? then handled.value else GeneralError;
      var buffer := CreateResponse(response);
      if buffer.None? {
        return;
      }
      var complete;
      sent, complete := SendBuffer(buffer.value, ResponseFrames(response), env);
      if complete {
        AfterSendProcess(response, env);
      }
    }

    /** Sends the buffer slice by slice until the connection fails. */
    method SendBuffer(buffer: array<Byte>, ghost frames: seq<Frame>, env: Env) returns (sent: seq<Frame>, complete: bool)
      requires buffer[..] == Flatten(frames)
      ensures complete <==> env.sendsBeforeFailure >= |frames|
      ensures sent == if complete then frames else frames[..env.sendsBeforeFailure]
    {
      sent := [];
      var start := 0;
      while start < buffer.Length
        invariant start == 1024 * |sent| <= buffer.Length
        invariant |sent| <= env.sendsBeforeFailure && sent == frames[..|sent|]
      {
        if |sent| == env.sendsBeforeFailure {
          return sent, false;
        }
        SliceOfFlatten(frames, |sent|);
        assert buffer[start..start + 1024] == buffer[..][start..start + 1024];
        sent := sent + [buffer[start..start + 1024]];
        start := start + 1024;
      }
      complete := true;
    }

    method AfterSendProcess(response: Response, env: Env)
      modifies manager.storage
      ensures manager.storage.View() ==
        if response.MessagesPulled? && env.deleteWorks then
          old(manager.storage.View()).(messages := WithoutIds(old(manager.storage.messages), Ids(response.messages)))
        else old(manager.storage.View())
    {
      if response.MessagesPulled? && env.deleteWorks {
        manager.DeleteMessages(IdList(response.messages));
      }
    }
  }
}
