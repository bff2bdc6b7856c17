/** server::session as a state machine over completed reads and writes. The
    class in Session.dfy is proved against these functions. */
module SessionModel {
  import opened Chars
  import opened RequestParsing
  import opened RequestStability
  import opened Routing

  /** What a host's own code comes to: a response or an exception. */
  datatype HandlerResult = Reply(buffers: seq<string>) | Fails(status: int)

  datatype VirtualHost = VirtualHost(ports: set<nat>, root: Host)

  /** `handle` is everything the model does not look into (files, database,
      clock): the result of the handler for the i-th request. */
  datatype Config = Config(
    serverPort: nat,
    maxBody: nat,
    hosts: map<string, VirtualHost>,
    handle: (nat, Host, Request) -> HandlerResult)

  datatype Served = Replied(request: Request, buffers: seq<string>) | Refused(request: Request, status: int)

  /** One pass of the loop in process_request. */
  datatype Pass = Again(request: Request) | End(served: Served)

  predicate Reachable(cfg: Config, r: Request) {
    r.port == cfg.serverPort && r.host in cfg.hosts && r.port in cfg.hosts[r.host].ports
  }

  function HostPass(cfg: Config, i: nat, r: Request): Pass {
    if r.port != cfg.serverPort then End(Refused(r, STATUS_BAD_REQUEST))
    else if !Reachable(cfg, r) then End(Refused(r, STATUS_NOT_FOUND))
    else
      match Dispatch(cfg.hosts[r.host].root, r)
      case Throws(r1, status) => End(Refused(r1, status))
      case SoftRedirect(r1) => Again(r1)
      case Answers(r1, handler) => (
        match cfg.handle(i, handler, r1)
        case Reply(buffers) => End(Replied(r1, buffers))
        case Fails(status) => End(Refused(r1, status)))
  }

  /** The reprocess loop ends for `r`. */
  ghost predicate Halts(cfg: Config, r: Request) {
    Reachable(cfg, r) ==> Terminates(cfg.hosts[r.host].root, r)
  }

  lemma AgainHalts(cfg: Config, i: nat, r: Request)
    requires Halts(cfg, r) && HostPass(cfg, i, r).Again?
    ensures var r1 := HostPass(cfg, i, r).request;
            Halts(cfg, r1) && |r1.path| < |r.path| && r1 == r.(path := r1.path)
  {
    var root := cfg.hosts[r.host].root;
    DispatchShortens(root, r);
    TerminatingStep(root, r);
    hide Dispatch, Terminates, RewrittenFrom;
  }

  /** The reprocess loop of process_request for the i-th request. */
  ghost function Serve(cfg: Config, i: nat, r: Request): Served
    requires Halts(cfg, r)
    decreases |r.path|
  {
    match HostPass(cfg, i, r)
    case End(served) => served
    case Again(r1) =>
      AgainHalts(cfg, i, r);
      Serve(cfg, i, r1)
  }

  datatype Response =
    | HostResponse(buffers: seq<string>)
    | PhonyResponse(status: int, verb: Method, version: Version)

  /** What became of one request. */
  datatype Handled =
    | Answered(request: Request, buffers: seq<string>)
    | Rejected(request: Request, status: int)

  function ResponseTo(h: Handled): Response {
    match h
    case Answered(_, buffers) => HostResponse(buffers)
    case Rejected(r, status) => PhonyResponse(status, r.verb, r.version)
  }

  /** Operations that the I/O service will complete. */
  datatype ReadOp = UntilBlankLine | AtLeast(n: nat)

  /** The fields of the session, the operations it started, and histories:
      bytes delivered, requests handled, responses pushed, writes started and
      responses popped. */
  datatype Conn = Conn(
    buffer: string,
    request: Request,
    processingNew: bool,
    queue: seq<Response>,
    sending: bool,
    pendingReads: seq<ReadOp>,
    pendingWrites: seq<Response>,
    delivered: string,
    handled: seq<Handled>,
    pushed: seq<Response>,
    started: seq<Response>,
    popped: seq<Response>,
    readFailed: bool,
    writeFailed: bool)

  const NEW_CONNECTION :=
    Conn("", FRESH_REQUEST, true, [], false, [UntilBlankLine], [], "", [], [], [], [], false, false)

  function StatusOf(e: Error): int {
    match e
    case UnsupportedVersion => 505
    case BodyNotAllocated => 500
    case _ => STATUS_BAD_REQUEST
  }

  function AddRequestHandler(c: Conn): Conn {
    c.(pendingReads := c.pendingReads + [UntilBlankLine])
  }

  function AddResponseHandler(c: Conn): Conn {
    if c.sending || c.queue == [] then c
    else c.(sending := true, pendingWrites := c.pendingWrites + [c.queue[0]], started := c.started + [c.queue[0]])
  }

  function SendResponse(c: Conn, r: Response): Conn {
    AddResponseHandler(c.(queue := c.queue + [r], pushed := c.pushed + [r]))
  }

  /** Records the verdict on the current request and queues its response. */
  function Finish(c: Conn, h: Handled): Conn {
    SendResponse(c.(handled := c.handled + [h]), ResponseTo(h))
  }

  /** process_request behind the complete request. */
  ghost function Respond(cfg: Config, c: Conn): Conn
    requires Halts(cfg, c.request)
  {
    match Serve(cfg, |c.handled|, c.request)
    case Refused(r, status) => Finish(c.(request := r), Rejected(r, status))
    case Replied(r, buffers) =>
      var c1 := Finish(c.(request := r), Answered(c.request, buffers));
      if r.keepAlive then AddRequestHandler(c1) else c1
  }

  predicate BodyReady(c: Conn) {
    c.processingNew || BodyOk(c.request)
  }

  function ReadRequest(c: Conn, maxBody: nat): Outcome
    requires BodyReady(c)
  {
    if c.processingNew then ParseRequest(c.buffer, maxBody) else ReadBody(c.request, c.buffer)
  }

  /** process_request returns: the request is incomplete, in error, or one for
      which the reprocess loop ends. */
  ghost predicate Returns(cfg: Config, c: Conn)
    requires BodyReady(c)
  {
    var o := ReadRequest(c, cfg.maxBody);
    o.err.None? && o.required == 0 ==> Halts(cfg, o.request)
  }

  /** process_request */
  ghost function ProcessRequest(cfg: Config, c: Conn): Conn
    requires BodyReady(c) && Returns(cfg, c)
  {
    var o := ReadRequest(c, cfg.maxBody);
    var c1 := c.(buffer := o.rest, request := o.request);
    if o.err.Some? then Finish(c1, Rejected(o.request, StatusOf(o.err.value)))
    else if o.required > 0 then
      c1.(processingNew := false, pendingReads := c1.pendingReads + [AtLeast(o.required)])
    else Respond(cfg, c1.(processingNew := true))
  }

  // ----- Completions -----

  datatype Event =
    | ReadDone(op: nat, bytes: string)
    | ReadFailed(op: nat, bytes: string)
    | WriteDone(op: nat)
    | WriteFailed(op: nat)

  /** The bytes that arrived are enough for the operation. */
  predicate Satisfied(op: ReadOp, buffer: string, bytes: string) {
    match op
    case UntilBlankLine => HasBlankLine(buffer + bytes)
    case AtLeast(n) => |bytes| >= n
  }

  predicate Enabled(c: Conn, e: Event) {
    match e
    case ReadDone(op, bytes) => op < |c.pendingReads| && Satisfied(c.pendingReads[op], c.buffer, bytes)
    case ReadFailed(op, bytes) => op < |c.pendingReads| && !Satisfied(c.pendingReads[op], c.buffer, bytes)
    case WriteDone(op) => op < |c.pendingWrites|
    case WriteFailed(op) => op < |c.pendingWrites|
  }

  function Without<T>(s: seq<T>, i: nat): seq<T>
    requires i < |s|
  {
    s[..i] + s[i + 1..]
  }

  /** The bytes of a completed operation are in the buffer. */
  function Deliver(c: Conn, op: nat, bytes: string): Conn
    requires op < |c.pendingReads|
  {
    c.(buffer := c.buffer + bytes, delivered := c.delivered + bytes, pendingReads := Without(c.pendingReads, op))
  }

  /** response_handler up to the test of the error code. */
  function PopResponse(c: Conn, op: nat): Conn
    requires op < |c.pendingWrites|
  {
    c.(sending := false, pendingWrites := Without(c.pendingWrites, op),
       queue := if c.queue == [] then [] else c.queue[1..],
       popped := c.popped + (if c.queue == [] then [] else [c.queue[0]]))
  }

  /** The completion can happen, and its handler returns. */
  ghost predicate CanHandle(cfg: Config, c: Conn, e: Event) {
    && BodyReady(c) && Enabled(c, e)
    && (e.ReadDone? ==> Returns(cfg, Deliver(c, e.op, e.bytes)))
  }

  ghost function Step(cfg: Config, c: Conn, e: Event): Conn
    requires CanHandle(cfg, c, e)
  {
    match e
    case ReadDone(op, bytes) => ProcessRequest(cfg, Deliver(c, op, bytes))
    case ReadFailed(op, bytes) => Deliver(c, op, bytes).(readFailed := true)
    case WriteDone(op) => AddResponseHandler(PopResponse(c, op))
    case WriteFailed(op) => PopResponse(c, op).(writeFailed := true)
  }

  /** A run: the states it goes through and the completion between each two. */
  datatype Run = Run(states: seq<Conn>, events: seq<Event>)

  ghost predicate CanStep(cfg: Config, before: Conn, e: Event, after: Conn) {
    CanHandle(cfg, before, e) && after == Step(cfg, before, e)
  }

  ghost predicate IsRun(cfg: Config, run: Run) {
    && |run.states| == |run.events| + 1 && run.states[0] == NEW_CONNECTION
    && (forall i :: 0 <= i < |run.events| ==> CanStep(cfg, run.states[i], run.events[i], run.states[i + 1]))
  }

  lemma FinishKeeps(c: Conn, h: Handled)
    ensures var c1 := Finish(c, h);
            c1.request == c.request && c1.processingNew == c.processingNew && c1.buffer == c.buffer
            && c1.pendingReads == c.pendingReads && c1.delivered == c.delivered && c1.handled == c.handled + [h]
            && c1.popped == c.popped && c1.writeFailed == c.writeFailed && c1.readFailed == c.readFailed
            && c1.pushed == c.pushed + [ResponseTo(h)] && c1.queue == c.queue + [ResponseTo(h)]
  {}

  lemma ReadRequestLeaves(c: Conn, maxBody: nat)
    requires BodyReady(c)
    ensures var o := ReadRequest(c, maxBody);
            o.required > 0 ==> Unfinished(o)
  {
    if c.processingNew {
      ParseRequired(c.buffer, maxBody);
    } else {
      BodyProgress(c.request, c.buffer);
    }
  }

  lemma RespondKeepsNew(cfg: Config, c: Conn)
    requires Halts(cfg, c.request)
    ensures Respond(cfg, c).processingNew == c.processingNew
  {
    hide Serve;
  }

  lemma ProcessKeepsBody(cfg: Config, c: Conn)
    requires BodyReady(c) && Returns(cfg, c)
    ensures BodyReady(ProcessRequest(cfg, c))
  {
    ReadRequestLeaves(c, cfg.maxBody);
    hide ReadRequest, Respond;
    var o := ReadRequest(c, cfg.maxBody);
    var c1 := c.(buffer := o.rest, request := o.request);
    if o.err.Some? {
      var h := Rejected(o.request, StatusOf(o.err.value));
      ParseErrorsAreNew(c, cfg.maxBody);
      FinishKeeps(c1, h);
    } else if o.required == 0 {
      RespondKeepsNew(cfg, c1.(processingNew := true));
    }
  }

  /** Only parsing a head can fail; the rest of a body never does. */
  lemma ParseErrorsAreNew(c: Conn, maxBody: nat)
    requires BodyReady(c) && ReadRequest(c, maxBody).err.Some?
    ensures c.processingNew
  {
    hide ParseRequest;
  }
}
