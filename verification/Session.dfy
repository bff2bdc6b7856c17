/** server::session: the object whose handlers the I/O service calls. Each
    method is proved against its function in SessionModel.dfy. */
module ServerSession {
  import opened Chars
  import opened RequestParsing
  import opened Http = HttpRequest
  import opened Routing
  import opened HostHandlers
  import opened Model = SessionModel

  /** What one pass of the loop comes to: a soft redirect, a response or an
      exception. */
  datatype HostCall = Rewritten | Sent(buffers: seq<string>) | Failed(status: int)

  function AsPass(r: Request, call: HostCall): Pass {
    match call
    case Rewritten => Again(r)
    case Sent(buffers) => End(Replied(r, buffers))
    case Failed(status) => End(Refused(r, status))
  }

  /** What is queued and started when the host came to an end. */
  ghost function AfterServed(c: Conn, served: Served): Conn {
    match served
    case Refused(r, status) => Finish(c.(request := r), Rejected(r, status))
    case Replied(r, buffers) =>
      var c1 := Finish(c.(request := r), Answered(c.request, buffers));
      if r.keepAlive then Model.AddRequestHandler(c1) else c1
  }

  /** Where a pass of the loop leads, for the response to `c.request`. */
  lemma PassLeads(cfg: Config, c: Conn, r: Request)
    requires Halts(cfg, r) && Halts(cfg, c.request)
    requires Serve(cfg, |c.handled|, r) == Serve(cfg, |c.handled|, c.request)
    ensures var pass := HostPass(cfg, |c.handled|, r);
            && (pass.Again? ==>
                  && Halts(cfg, pass.request) && |pass.request.path| < |r.path|
                  && Serve(cfg, |c.handled|, pass.request) == Serve(cfg, |c.handled|, c.request))
            && (pass.End? ==> Model.Respond(cfg, c) == AfterServed(c, pass.served))
  {
    if HostPass(cfg, |c.handled|, r).Again? {
      AgainHalts(cfg, |c.handled|, r);
    }
    hide HostPass, Halts, Finish;
  }

  class Session {
    const cfg: Config
    const stream: InputStream
    const request: HttpRequest
    var responsesQueue: seq<Response>
    var sending: bool
    var processingNewRequest: bool
    // Operations handed to the I/O service and not completed yet.
    var pendingReads: seq<ReadOp>
    var pendingWrites: seq<Response>
    // How many requests were handled: what tells one call of a host from another.
    var count: nat

    ghost var delivered: string
    ghost var handled: seq<Handled>
    ghost var pushed: seq<Response>
    ghost var started: seq<Response>
    ghost var popped: seq<Response>
    ghost var readFailed: bool
    ghost var writeFailed: bool

    ghost predicate Valid()
      reads this, stream, request
    {
      BodyReady(State()) && count == |handled|
    }

    ghost function State(): Conn
      reads this, stream, request
    {
      Conn(stream.data, request.Data(), processingNewRequest, responsesQueue, sending, pendingReads,
           pendingWrites, delivered, handled, pushed, started, popped, readFailed, writeFailed)
    }

    /** The constructor and session::run: starts reading the first head. */
    constructor (config: Config)
      ensures Valid() && fresh(stream) && fresh(request)
      ensures cfg == config && State() == NEW_CONNECTION
    {
      cfg := config;
      stream := new InputStream("");
      request := new HttpRequest();
      responsesQueue, sending, processingNewRequest := [], false, true;
      pendingReads, pendingWrites, count := [], [], 0;
      delivered, handled, pushed, started, popped := "", [], [], [], [];
      readFailed, writeFailed := false, false;
      new;
      AddRequestHandler();
    }

    method AddRequestHandler()
      modifies `pendingReads
      ensures State() == Model.AddRequestHandler(old(State()))
    {
      pendingReads := pendingReads + [UntilBlankLine];
    }

    method AddResponseHandler()
      modifies `sending, `pendingWrites, `started
      ensures State() == Model.AddResponseHandler(old(State()))
    {
      if sending || responsesQueue == [] {
        return;
      }
      sending := true;
      pendingWrites := pendingWrites + [responsesQueue[0]];
      started := started + [responsesQueue[0]];
    }

    method SendResponse(r: Response)
      modifies `responsesQueue, `pushed, `sending, `pendingWrites, `started
      ensures State() == Model.SendResponse(old(State()), r)
    {
      responsesQueue := responsesQueue + [r];
      pushed := pushed + [r];
      AddResponseHandler();
    }

    /** A catch clause of process_request. */
    method HandleError(status: int)
      modifies `responsesQueue, `pushed, `sending, `pendingWrites, `started, `handled, `count
      ensures State() == Finish(old(State()), Rejected(old(request.Data()), status))
      ensures count == old(count) + 1 && |handled| == |old(handled)| + 1
    {
      handled := handled + [Rejected(request.Data(), status)];
      count := count + 1;
      SendResponse(PhonyResponse(status, request.verb, request.version));
    }

    /** process_request up to a complete request; `ready` says there is one. */
    method ReadRequest() returns (ready: bool)
      requires Valid() && Returns(cfg, State())
      modifies this, stream, request
      ensures count == |handled|
      ensures ready ==> Halts(cfg, request.Data())
      ensures Model.ProcessRequest(cfg, old(State())) == if ready then Model.Respond(cfg, State()) else State()
    {
      hide Serve, Model.Respond, Finish, ParseRequest, ReadBody;
      ready := false;
      var required := 0;
      var err := None;
      if processingNewRequest {
        required, err := request.ProcessStream(stream, cfg.maxBody);
      } else {
        required := request.ProcessStreamAgain(stream);
      }
      if err.Some? {
        HandleError(StatusOf(err.value));
        return;
      }
      if required > 0 {
        processingNewRequest := false;
        pendingReads := pendingReads + [AtLeast(required)];
        return;
      }
      processingNewRequest := true;
      ready := true;
    }

    method ProcessRequest()
      requires Valid() && Returns(cfg, State())
      modifies this, stream, request
      ensures Valid() && State() == Model.ProcessRequest(cfg, old(State()))
    {
      ProcessKeepsBody(cfg, State());
      var ready := ReadRequest();
      if ready {
        Reprocess();
      }
    }

    /** One pass of the loop in process_request. */
    method CallHost() returns (call: HostCall)
      modifies request`path
      ensures AsPass(request.Data(), call) == HostPass(cfg, count, old(request.Data()))
    {
      if request.port != cfg.serverPort {
        return Failed(STATUS_BAD_REQUEST);
      }
      if request.host !in cfg.hosts || request.port !in cfg.hosts[request.host].ports {
        return Failed(STATUS_NOT_FOUND);
      }
      var result := HostHandlers.Respond(cfg.hosts[request.host].root, request);
      hide Dispatch;
      match result {
        case HostError(status) => call := Failed(status);
        case NullResponse => call := Rewritten;
        case ResponseOf(handler) =>
          match cfg.handle(count, handler, request.Data()) {
            case Fails(status) => call := Failed(status);
            case Reply(buffers) => call := Sent(buffers);
          }
      }
    }

    /** The loop was entered in state `c` and goes on with the same verdict. */
    ghost predicate GoesOn(c: Conn)
      reads this, stream, request
    {
      && State() == c.(request := request.Data()) && count == |c.handled|
      && Halts(cfg, c.request) && Halts(cfg, request.Data())
      && Serve(cfg, count, request.Data()) == Serve(cfg, count, c.request)
    }

    ghost predicate Ends(c: Conn)
      reads this, stream, request
      requires Halts(cfg, c.request)
    {
      State() == Model.Respond(cfg, c) && count == |handled|
    }

    /** The body of the loop. */
    method CallAndAnswer(ghost c: Conn) returns (again: bool)
      requires GoesOn(c)
      modifies this, request`path
      ensures if again then GoesOn(c) && |request.path| < |old(request.path)| else Ends(c)
    {
      PassLeads(cfg, c, request.Data());
      hide HostPass, Halts, Serve, Model.Respond, AfterServed;
      var call := CallHost();
      again := call.Rewritten?;
      if !again {
        Answer(c, call);
      }
    }

    /** A response or an exception goes out. */
    method Answer(ghost c: Conn, call: HostCall)
      requires !call.Rewritten? && State() == c.(request := request.Data()) && count == |c.handled|
      modifies this
      ensures State() == AfterServed(c, AsPass(old(request.Data()), call).served) && count == |handled|
    {
      hide Finish, Model.AddRequestHandler;
      match call {
        case Sent(buffers) => Complete(c.request, buffers);
        case Failed(status) => HandleError(status);
      }
    }

    /** The loop itself: calls the host until it answers. */
    method Reprocess()
      requires Halts(cfg, request.Data()) && count == |handled|
      modifies this, request`path
      ensures count == |handled| && State() == Model.Respond(cfg, old(State()))
    {
      ghost var c := State();
      var again := true;
      hide Halts, Serve, Model.Respond;
      while again
        invariant if again then GoesOn(c) else Ends(c)
        decreases again, |request.path|
      {
        again := CallAndAnswer(c);
      }
    }

    /** The response goes out; a keep-alive connection is read again. */
    method Complete(ghost asked: Request, buffers: seq<string>)
      modifies `responsesQueue, `pushed, `sending, `pendingWrites, `started, `handled, `count, `pendingReads
      ensures count == old(count) + 1 && |handled| == |old(handled)| + 1
      ensures var c := Finish(old(State()), Answered(asked, buffers));
              State() == if request.keepAlive then Model.AddRequestHandler(c) else c
    {
      handled := handled + [Answered(asked, buffers)];
      count := count + 1;
      SendResponse(HostResponse(buffers));
      if request.keepAlive {
        AddRequestHandler();
      }
    }

    /** What the I/O service did before it calls request_handler. */
    method Receive(op: nat, bytes: string)
      requires op < |pendingReads|
      modifies `pendingReads, `delivered, stream
      ensures State() == Deliver(old(State()), op, bytes)
    {
      stream.data := stream.data + bytes;
      delivered := delivered + bytes;
      pendingReads := Without(pendingReads, op);
    }

    /** The read `op` completes with `bytes`; `failed` is its error code. */
    method RequestHandler(op: nat, bytes: string, failed: bool)
      requires Valid() && op < |pendingReads|
      requires failed <==> !Satisfied(pendingReads[op], stream.data, bytes)
      requires !failed ==> Returns(cfg, Deliver(State(), op, bytes))
      modifies this, stream, request
      ensures State() == Step(cfg, old(State()), if failed then ReadFailed(op, bytes) else ReadDone(op, bytes))
      ensures Valid()
    {
      Receive(op, bytes);
      if !failed {
        ProcessRequest();
        return;
      }
      readFailed := true;
    }

    /** response_handler up to the test of the error code. */
    method PopFront(op: nat)
      requires op < |pendingWrites|
      modifies `responsesQueue, `sending, `pendingWrites, `popped
      ensures State() == PopResponse(old(State()), op)
    {
      pendingWrites := Without(pendingWrites, op);
      sending := false;
      popped := popped + (if responsesQueue == [] then [] else [responsesQueue[0]]);
      responsesQueue := if responsesQueue == [] then [] else responsesQueue[1..];
    }

    /** The write `op` completes. */
    method ResponseHandler(op: nat, failed: bool)
      requires Valid() && op < |pendingWrites|
      modifies `responsesQueue, `sending, `pendingWrites, `started, `popped, `writeFailed
      ensures Valid()
      ensures State() == Step(cfg, old(State()), if failed then WriteFailed(op) else WriteDone(op))
    {
      hide BodyOk, PopResponse, Model.AddResponseHandler, Model.ProcessRequest, Deliver;
      PopFront(op);
      if !failed {
        AddResponseHandler();
        return;
      }
      writeFailed := true;
    }
  }
}
