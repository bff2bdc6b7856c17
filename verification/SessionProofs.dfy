/** Properties of every run of a session. */
module SessionProofs {
  import opened Chars
  import opened RequestParsing
  import opened RequestStability
  import opened Routing
  import opened SessionModel

  // ----- The response queue -----

  function Responses(handled: seq<Handled>): seq<Response> {
    if handled == [] then []
    else Responses(handled[..|handled| - 1]) + [ResponseTo(handled[|handled| - 1])]
  }

  lemma ResponsesAppend(handled: seq<Handled>, h: Handled)
    ensures Responses(handled + [h]) == Responses(handled) + [ResponseTo(h)]
  {
    assert (handled + [h])[..|handled|] == handled;
  }

  /** One write at most, of the queue's front; everything pushed was popped or
      is queued, everything started was popped or is being written. */
  predicate QueueInv(c: Conn) {
    && (c.sending ==> c.queue != [])
    && c.pendingWrites == (if c.sending then [c.queue[0]] else [])
    && c.pushed == c.popped + c.queue
    && c.started == c.popped + c.pendingWrites
    && (!c.writeFailed && c.queue != [] ==> c.sending)
  }

  lemma AddResponseKeepsQueue(c: Conn)
    requires c.sending ==> c.queue != []
    requires c.pendingWrites == (if c.sending then [c.queue[0]] else [])
    requires c.pushed == c.popped + c.queue && c.started == c.popped + c.pendingWrites
    ensures QueueInv(AddResponseHandler(c))
  {
    if !c.sending && c.queue != [] {
      assert c.started == c.popped;
    }
  }

  lemma SendKeepsQueue(c: Conn, r: Response)
    requires QueueInv(c)
    ensures QueueInv(SendResponse(c, r))
  {
    var c1 := c.(queue := c.queue + [r], pushed := c.pushed + [r]);
    Assoc(c.popped, c.queue, [r]);
    assert c.sending ==> c1.queue[0] == c.queue[0];
    AddResponseKeepsQueue(c1);
  }

  lemma PopKeepsQueue(c: Conn, op: nat)
    requires QueueInv(c) && op < |c.pendingWrites|
    ensures var c1 := PopResponse(c, op);
            && c1.pendingWrites == [] && c1.pushed == c1.popped + c1.queue && c1.started == c1.popped
            && c1.popped == c.popped + c.pendingWrites
  {
    assert c.queue == [c.queue[0]] + c.queue[1..];
    Assoc(c.popped, [c.queue[0]], c.queue[1..]);
  }

  // ----- The requests -----

  predicate Continues(h: Handled) {
    h.Answered? && h.request.keepAlive
  }

  /** Only the last request handled may be one that ends the connection. */
  predicate AllContinue(handled: seq<Handled>) {
    forall i :: 0 <= i < |handled| ==> Continues(handled[i])
  }

  predicate ReadInv(c: Conn) {
    && |c.pendingReads| <= 1
    && (c.pendingReads != [] && c.pendingReads[0].UntilBlankLine? ==> c.processingNew)
    && (c.pendingReads != [] && c.pendingReads[0].AtLeast? ==>
          && !c.processingNew && c.buffer == ""
          && c.pendingReads[0].n == c.request.contentLength - c.request.bodyBytesRead > 0)
    && (c.pendingReads != [] ==> AllContinue(c.handled) && !c.readFailed)
    && (c.handled != [] ==> AllContinue(c.handled[..|c.handled| - 1]))
  }

  ghost predicate Inv(c: Conn) {
    && BodyReady(c) && QueueInv(c) && ReadInv(c) && c.pushed == Responses(c.handled)
  }

  lemma {:induction false} ServeKeepsRequest(cfg: Config, i: nat, r: Request)
    requires Halts(cfg, r)
    ensures var s := Serve(cfg, i, r); s.request == r.(path := s.request.path)
    decreases |r.path|
  {
    if Reachable(cfg, r) {
      DispatchShortens(cfg.hosts[r.host].root, r);
    }
    if HostPass(cfg, i, r).Again? {
      AgainHalts(cfg, i, r);
      ServeKeepsRequest(cfg, i, HostPass(cfg, i, r).request);
    }
    hide Dispatch, Terminates, RewrittenFrom;
  }

  /** What handling one request leaves: no pending read, earlier requests all
      keep-alive. */
  predicate Handling(c: Conn) {
    QueueInv(c) && c.pendingReads == [] && AllContinue(c.handled) && c.pushed == Responses(c.handled)
  }

  lemma FinishKeepsInv(c: Conn, h: Handled)
    requires Handling(c)
    ensures var c1 := Finish(c, h);
            && QueueInv(c1) && c1.pushed == Responses(c1.handled)
            && c1.handled == c.handled + [h] && AllContinue(c1.handled[..|c1.handled| - 1])
            && (Continues(h) ==> AllContinue(c1.handled))
  {
    FinishKeeps(c, h);
    SendKeepsQueue(c.(handled := c.handled + [h]), ResponseTo(h));
    ResponsesAppend(c.handled, h);
    assert (c.handled + [h])[..|c.handled|] == c.handled;
  }

  lemma VerdictKeepsInv(c: Conn, h: Handled)
    requires Handling(c) && c.processingNew && !c.readFailed
    ensures Inv(Finish(c, h))
    ensures Continues(h) ==> Inv(AddRequestHandler(Finish(c, h)))
  {
    FinishKeeps(c, h);
    FinishKeepsInv(c, h);
    hide Finish, Responses, AllContinue;
    var c1 := Finish(c, h);
    assert c1.pendingReads == [];
    assert AddRequestHandler(c1).pendingReads == [UntilBlankLine];
  }

  lemma RespondKeepsInv(cfg: Config, c: Conn)
    requires Halts(cfg, c.request) && Handling(c) && c.processingNew && !c.readFailed
    ensures Inv(Respond(cfg, c))
  {
    var i := |c.handled|;
    ServeKeepsRequest(cfg, i, c.request);
    var r := Serve(cfg, i, c.request).request;
    assert Handling(c.(request := r));
    hide Serve, Finish, AddRequestHandler, Inv, Handling;
    match Serve(cfg, i, c.request)
    case Refused(_, status) =>
      VerdictKeepsInv(c.(request := r), Rejected(r, status));
    case Replied(_, buffers) =>
      VerdictKeepsInv(c.(request := r), Answered(c.request, buffers));
  }

  lemma ProcessKeepsInv(cfg: Config, c: Conn)
    requires Handling(c) && BodyReady(c) && Returns(cfg, c) && !c.readFailed
    ensures Inv(ProcessRequest(cfg, c))
  {
    ReadRequestLeaves(c, cfg.maxBody);
    var o := ReadRequest(c, cfg.maxBody);
    var c1 := c.(buffer := o.rest, request := o.request);
    assert Handling(c1) && Handling(c1.(processingNew := true));
    if o.err.Some? {
      ParseErrorsAreNew(c, cfg.maxBody);
      hide ReadRequest, Respond, Finish, Inv, Handling;
      VerdictKeepsInv(c1, Rejected(o.request, StatusOf(o.err.value)));
    } else if o.required == 0 {
      hide ReadRequest, Respond, Finish, Inv, Handling;
      RespondKeepsInv(cfg, c1.(processingNew := true));
    } else {
      hide ReadRequest, Respond, Finish, Responses, QueueInv;
      AllButLast(c.handled);
    }
  }

  lemma AllButLast(handled: seq<Handled>)
    requires AllContinue(handled)
    ensures handled != [] ==> AllContinue(handled[..|handled| - 1])
  {}

  lemma DeliverKeepsInv(c: Conn, op: nat, bytes: string)
    requires Inv(c) && op < |c.pendingReads|
    ensures var c1 := Deliver(c, op, bytes);
            Handling(c1) && BodyReady(c1) && !c1.readFailed && Inv(c1.(readFailed := true))
  {
    assert Without(c.pendingReads, op) == [];
    AllButLast(c.handled);
  }

  /** Same session apart from its response queue. */
  predicate SameReading(c: Conn, c1: Conn) {
    && c1.request == c.request && c1.processingNew == c.processingNew && c1.buffer == c.buffer
    && c1.pendingReads == c.pendingReads && c1.delivered == c.delivered && c1.handled == c.handled
    && c1.pushed == c.pushed && c1.readFailed == c.readFailed
  }

  lemma WritesOnlyQueue(c: Conn, op: nat)
    requires op < |c.pendingWrites|
    ensures SameReading(c, PopResponse(c, op))
    ensures SameReading(c, AddResponseHandler(PopResponse(c, op)))
  {}

  lemma SameReadingKeepsInv(c: Conn, c1: Conn)
    requires Inv(c) && SameReading(c, c1) && QueueInv(c1)
    ensures Inv(c1)
  {
    hide QueueInv, Responses;
  }

  lemma PopQueueInv(c: Conn, op: nat)
    requires QueueInv(c) && op < |c.pendingWrites|
    ensures QueueInv(AddResponseHandler(PopResponse(c, op)))
    ensures QueueInv(PopResponse(c, op).(writeFailed := true))
  {
    PopKeepsQueue(c, op);
    AddResponseKeepsQueue(PopResponse(c, op));
  }

  lemma WriteKeepsInv(c: Conn, op: nat)
    requires Inv(c) && op < |c.pendingWrites|
    ensures Inv(AddResponseHandler(PopResponse(c, op)))
    ensures Inv(PopResponse(c, op).(writeFailed := true))
  {
    PopQueueInv(c, op);
    WritesOnlyQueue(c, op);
    hide PopResponse, AddResponseHandler, QueueInv, Inv;
    SameReadingKeepsInv(c, AddResponseHandler(PopResponse(c, op)));
    SameReadingKeepsInv(c, PopResponse(c, op).(writeFailed := true));
  }

  lemma StepKeepsInv(cfg: Config, c: Conn, e: Event)
    requires Inv(c) && CanHandle(cfg, c, e)
    ensures Inv(Step(cfg, c, e))
  {
    assert BodyReady(c);
    hide ProcessRequest, Responses, Inv, Handling, AddResponseHandler, PopResponse, Deliver;
    match e
    case ReadDone(op, bytes) =>
      DeliverKeepsInv(c, op, bytes);
      ProcessKeepsInv(cfg, Deliver(c, op, bytes));
    case ReadFailed(op, bytes) =>
      DeliverKeepsInv(c, op, bytes);
    case WriteDone(op) =>
      WriteKeepsInv(c, op);
    case WriteFailed(op) =>
      WriteKeepsInv(c, op);
  }

  lemma NewConnectionInv()
    ensures Inv(NEW_CONNECTION)
  {}

  lemma RunStarts(cfg: Config, run: Run)
    requires IsRun(cfg, run)
    ensures |run.states| == |run.events| + 1 && run.states[0] == NEW_CONNECTION
  {}

  lemma RunSteps(cfg: Config, run: Run, i: nat)
    requires IsRun(cfg, run) && i < |run.events|
    ensures CanHandle(cfg, run.states[i], run.events[i])
    ensures run.states[i + 1] == Step(cfg, run.states[i], run.events[i])
  {
    hide Step, CanHandle;
    assert CanStep(cfg, run.states[i], run.events[i], run.states[i + 1]);
  }

  /** In every state of every run. */
  lemma {:induction false} RunKeepsInv(cfg: Config, run: Run, i: nat)
    requires IsRun(cfg, run) && i < |run.states|
    ensures Inv(run.states[i])
  {
    hide *;
    RunStarts(cfg, run);
    if i == 0 {
      NewConnectionInv();
    } else {
      RunKeepsInv(cfg, run, i - 1);
      RunSteps(cfg, run, i - 1);
      StepKeepsInv(cfg, run.states[i - 1], run.events[i - 1]);
    }
  }

  // ----- Section 6.3.2 of RFC 7230: responses in request order -----

  ghost predicate InOrder(c: Conn) {
    && c.pushed == Responses(c.handled) && |c.pushed| == |c.handled|
    && c.started <= c.pushed && c.popped <= c.started
    && |c.pendingWrites| <= 1
    && (c.pendingWrites != [] ==>
          c.queue != [] && |c.popped| < |c.pushed| && c.pendingWrites[0] == c.queue[0] == c.pushed[|c.popped|])
  }

  lemma InvInOrder(c: Conn)
    requires Inv(c)
    ensures InOrder(c)
  {
    OneResponseEach(c.handled);
    var rest := if c.sending then c.queue[1..] else c.queue;
    assert c.queue == c.pendingWrites + rest;
    hide Responses, ReadInv;
    Assoc(c.popped, c.pendingWrites, rest);
  }

  lemma {:induction false} OneResponseEach(handled: seq<Handled>)
    ensures |Responses(handled)| == |handled|
  {
    if handled != [] {
      OneResponseEach(handled[..|handled| - 1]);
    }
  }

  /** Over every run: one response per request, at most one write, always of
      the queue's front, and writes start in request order. */
  lemma ResponsesInOrder(cfg: Config, run: Run, i: nat)
    requires IsRun(cfg, run) && i < |run.states|
    ensures InOrder(run.states[i])
  {
    RunKeepsInv(cfg, run, i);
    InvInOrder(run.states[i]);
    hide Inv, InOrder;
  }

  /** No lost wakeup, and nothing is left when nothing is pending. */
  lemma CleanQuiescence(cfg: Config, run: Run, i: nat)
    requires IsRun(cfg, run) && i < |run.states|
    ensures var c := run.states[i];
            && (!c.writeFailed && c.queue != [] ==> c.sending && c.pendingWrites != [])
            && (!c.writeFailed && c.pendingReads == [] && c.pendingWrites == [] ==>
                  c.queue == [] && c.popped == c.started == Responses(c.handled))
  {
    RunKeepsInv(cfg, run, i);
    hide IsRun, Responses;
  }

  ghost predicate Sequential(c: Conn) {
    && |c.pendingReads| <= 1
    && (forall i :: 0 <= i < |c.handled| - 1 ==> Continues(c.handled[i]))
    && (c.handled != [] && !Continues(c.handled[|c.handled| - 1]) ==> c.pendingReads == [])
  }

  lemma InvSequential(c: Conn)
    requires Inv(c)
    ensures Sequential(c)
  {
    hide Responses, QueueInv, BodyReady;
    forall i | 0 <= i < |c.handled| - 1
      ensures Continues(c.handled[i])
    {
      assert c.handled[..|c.handled| - 1][i] == c.handled[i];
    }
  }

  /** At most one read at a time; none once a request was rejected or did not
      ask for keep-alive, and no request is handled after that one. */
  lemma OneReadAtATime(cfg: Config, run: Run, i: nat)
    requires IsRun(cfg, run) && i < |run.states|
    ensures Sequential(run.states[i])
  {
    RunKeepsInv(cfg, run, i);
    InvSequential(run.states[i]);
    hide Inv, Sequential;
  }

  lemma TopUpCompletes(cfg: Config, c: Conn, bytes: string)
    requires Inv(c) && c.pendingReads != [] && c.pendingReads[0].AtLeast?
    requires CanHandle(cfg, c, ReadDone(0, bytes))
    ensures var c1 := Step(cfg, c, ReadDone(0, bytes));
            c1.processingNew && |c1.handled| == |c.handled| + 1
  {
    var c0 := Deliver(c, 0, bytes);
    assert c0.buffer == bytes && ReadRequest(c0, cfg.maxBody) == ReadBody(c0.request, bytes);
    BodyProgress(c0.request, bytes);
    var o := ReadBody(c0.request, bytes);
    hide ReadBody, ReadRequest, Respond;
    RespondHandles(cfg, c0.(buffer := o.rest, request := o.request, processingNew := true));
  }

  lemma RespondHandles(cfg: Config, c: Conn)
    requires Halts(cfg, c.request)
    ensures var c1 := Respond(cfg, c);
            c1.processingNew == c.processingNew && |c1.handled| == |c.handled| + 1
  {
    match Serve(cfg, |c.handled|, c.request)
    case Refused(r, status) => FinishKeeps(c.(request := r), Rejected(r, status));
    case Replied(r, buffers) => FinishKeeps(c.(request := r), Answered(c.request, buffers));
  }

  /** A body needs at most one top-up read: when it completes, the request is
      handled. */
  lemma OneTopUp(cfg: Config, run: Run, i: nat)
    requires IsRun(cfg, run) && i < |run.events| && run.events[i].ReadDone?
    requires run.states[i].pendingReads != [] && run.states[i].pendingReads[0].AtLeast?
    ensures run.states[i + 1].processingNew
    ensures |run.states[i + 1].handled| == |run.states[i].handled| + 1
  {
    RunKeepsInv(cfg, run, i);
    RunSteps(cfg, run, i);
    assert run.events[i] == ReadDone(0, run.events[i].bytes);
    TopUpCompletes(cfg, run.states[i], run.events[i].bytes);
    hide IsRun, Step;
  }
}
