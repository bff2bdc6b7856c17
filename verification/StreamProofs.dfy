/** The requests a session handles depend on the bytes delivered, not on how
    they were cut into reads. */
module StreamProofs {
  import opened Chars
  import opened RequestParsing
  import opened RequestStability
  import opened RequestPrinting
  import opened SessionModel
  import opened SessionProofs

  /** The reference: what the whole stream `s` comes to when it is parsed in
      one go, from the i-th request on. */
  ghost function OneShot(cfg: Config, i: nat, s: string): seq<Handled>
    decreases |s|, 0
  {
    if !HasBlankLine(s) then []
    else
      BlankLineIsNonempty(s);
      ParseShrinks(s, cfg.maxBody);
      Verdicts(cfg, i, ParseRequest(s, cfg.maxBody))
  }

  /** What the host makes of the i-th request. */
  ghost function Verdict(cfg: Config, i: nat, r: Request): Handled
    requires Halts(cfg, r)
  {
    match Serve(cfg, i, r)
    case Refused(r1, status) => Rejected(r1, status)
    case Replied(_, buffers) => Answered(r, buffers)
  }

  /** The verdict on one parsed request, then on what is behind it. Nothing is
      handled from a request on that is redirected forever. */
  ghost function Verdicts(cfg: Config, i: nat, o: Outcome): seq<Handled>
    decreases |o.rest|, 1
  {
    if o.err.Some? then [Rejected(o.request, StatusOf(o.err.value))]
    else if o.required > 0 || !Halts(cfg, o.request) then []
    else
      [Verdict(cfg, i, o.request)]
      + if Continues(Verdict(cfg, i, o.request)) then OneShot(cfg, i + 1, o.rest) else []
  }

  lemma BlankLineIsNonempty(s: string)
    requires HasBlankLine(s)
    ensures s != ""
  {}

  /** What the session will still handle if `more` arrives. */
  ghost function Future(cfg: Config, c: Conn, more: string): seq<Handled>
    requires BodyReady(c)
  {
    if c.pendingReads == [] then []
    else if c.pendingReads[0].UntilBlankLine? then OneShot(cfg, |c.handled|, c.buffer + more)
    else if c.processingNew then []
    else Verdicts(cfg, |c.handled|, ReadBody(c.request, c.buffer + more))
  }

  lemma ReadStable(c: Conn, more: string, maxBody: nat)
    requires BodyReady(c) && (c.processingNew ==> HasBlankLine(c.buffer))
    ensures var o := ReadRequest(c, maxBody);
            && (o.required > 0 ==> Unfinished(o))
            && ReadRequest(c.(buffer := c.buffer + more), maxBody) == Continue(o, more)
  {
    ReadRequestLeaves(c, maxBody);
    if c.processingNew {
      ParseStable(c.buffer, more, maxBody);
    } else {
      BodyStable(c.request, c.buffer, more);
    }
  }

  ghost function Total(cfg: Config, c: Conn, more: string): seq<Handled>
    requires BodyReady(c)
  {
    c.handled + Future(cfg, c, more)
  }

  lemma RespondFuture(cfg: Config, c: Conn, more: string)
    requires Halts(cfg, c.request) && c.pendingReads == [] && c.processingNew
    ensures BodyReady(Respond(cfg, c))
    ensures c.handled + Verdicts(cfg, |c.handled|, Outcome(c.request, c.buffer + more, None, 0))
         == Total(cfg, Respond(cfg, c), more)
  {
    var i := |c.handled|;
    var h := Verdict(cfg, i, c.request);
    ServeKeepsRequest(cfg, i, c.request);
    FinishKeeps(c.(request := Serve(cfg, i, c.request).request), h);
    hide OneShot, Serve, Finish, Halts;
    if Continues(h) {
      Assoc(c.handled, [h], OneShot(cfg, i + 1, c.buffer + more));
    } else {
      assert [h] + [] == [h];
      assert Total(cfg, Respond(cfg, c), more) == (c.handled + [h]) + [];
    }
  }

  lemma ErrorFuture(cfg: Config, c: Conn, o: Outcome, more: string)
    requires c.pendingReads == [] && o.err.Some? && c.processingNew
    ensures var c1 := Finish(c, Rejected(o.request, StatusOf(o.err.value)));
            && BodyReady(c1)
            && c.handled + Verdicts(cfg, |c.handled|, Append(o, more)) == Total(cfg, c1, more)
  {
    var h := Rejected(o.request, StatusOf(o.err.value));
    FinishKeeps(c, h);
    hide Finish, OneShot, Serve;
    assert (c.handled + [h]) + [] == c.handled + [h];
  }

  lemma TopUpFuture(cfg: Config, c: Conn, o: Outcome, more: string)
    requires c.pendingReads == [] && o.required > 0 && Unfinished(o)
    requires c.buffer == o.rest && c.request == o.request
    ensures var c1 := c.(processingNew := false, pendingReads := c.pendingReads + [AtLeast(o.required)]);
            && BodyReady(c1)
            && c.handled + Verdicts(cfg, |c.handled|, ReadBody(o.request, more)) == Total(cfg, c1, more)
  {
    assert "" + more == more;
    hide Verdicts, OneShot;
  }

  /** One call of process_request keeps the total. */
  lemma ProcessFuture(cfg: Config, c: Conn, more: string)
    requires BodyReady(c) && Returns(cfg, c) && c.pendingReads == []
    requires c.processingNew ==> HasBlankLine(c.buffer)
    ensures BodyReady(ProcessRequest(cfg, c))
    ensures c.handled + Verdicts(cfg, |c.handled|, ReadRequest(c.(buffer := c.buffer + more), cfg.maxBody))
         == Total(cfg, ProcessRequest(cfg, c), more)
  {
    ProcessKeepsBody(cfg, c);
    ReadStable(c, more, cfg.maxBody);
    var o := ReadRequest(c, cfg.maxBody);
    var c1 := c.(buffer := o.rest, request := o.request);
    if o.err.Some? {
      ParseErrorsAreNew(c, cfg.maxBody);
      RequiredOrError(c, cfg.maxBody);
      hide ReadRequest, Respond, Verdicts, Total, Finish;
      ErrorFuture(cfg, c1, o, more);
    } else if o.required > 0 {
      hide ReadRequest, Respond, Verdicts, Total;
      TopUpFuture(cfg, c1, o, more);
    } else {
      hide ReadRequest, Respond, Verdicts, Total;
      RespondFuture(cfg, c1.(processingNew := true), more);
    }
  }

  lemma RequiredOrError(c: Conn, maxBody: nat)
    requires BodyReady(c)
    ensures var o := ReadRequest(c, maxBody); o.err.Some? ==> o.required == 0
  {
    ReadRequestLeaves(c, maxBody);
  }

  /** The session handled, and will handle, what the one-shot parse of all
      bytes handles. */
  ghost predicate Agrees(cfg: Config, c: Conn, more: string) {
    BodyReady(c) && OneShot(cfg, 0, c.delivered + more) == Total(cfg, c, more)
  }

  /** A pending read looks forward to what the delivered bytes then give. */
  lemma DeliverFuture(cfg: Config, c: Conn, op: nat, bytes: string, more: string)
    requires Inv(c) && Enabled(c, ReadDone(op, bytes))
    ensures var c0 := Deliver(c, op, bytes);
            && BodyReady(c0) && (c0.processingNew ==> HasBlankLine(c0.buffer))
            && Future(cfg, c, bytes + more)
               == Verdicts(cfg, |c0.handled|, ReadRequest(c0.(buffer := c0.buffer + more), cfg.maxBody))
  {
    var c0 := Deliver(c, op, bytes);
    hide Verdicts, QueueInv, Responses, AllContinue;
    assert c.pendingReads == [c.pendingReads[0]];
    Assoc(c.buffer, bytes, more);
    if c.pendingReads[0].UntilBlankLine? {
      BlankLineStays(c0.buffer, more);
    }
  }

  lemma ReadDoneAgrees(cfg: Config, c: Conn, op: nat, bytes: string, more: string)
    requires Inv(c) && CanHandle(cfg, c, ReadDone(op, bytes))
    requires Agrees(cfg, c, bytes + more)
    ensures Agrees(cfg, Step(cfg, c, ReadDone(op, bytes)), more)
  {
    var c0 := Deliver(c, op, bytes);
    DeliverKeepsInv(c, op, bytes);
    DeliverFuture(cfg, c, op, bytes, more);
    Assoc(c.delivered, bytes, more);
    ProcessFuture(cfg, c0, more);
    ProcessDelivers(cfg, c0);
    hide Inv, Verdicts, Future, OneShot, ProcessRequest, ReadRequest, BodyReady;
  }

  lemma RespondDelivers(cfg: Config, c: Conn)
    requires Halts(cfg, c.request)
    ensures Respond(cfg, c).delivered == c.delivered && Respond(cfg, c).readFailed == c.readFailed
  {
    match Serve(cfg, |c.handled|, c.request)
    case Refused(r, status) => FinishKeeps(c.(request := r), Rejected(r, status));
    case Replied(r, buffers) => FinishKeeps(c.(request := r), Answered(c.request, buffers));
  }

  lemma ProcessDelivers(cfg: Config, c: Conn)
    requires BodyReady(c) && Returns(cfg, c)
    ensures ProcessRequest(cfg, c).delivered == c.delivered
    ensures ProcessRequest(cfg, c).readFailed == c.readFailed
  {
    var o := ReadRequest(c, cfg.maxBody);
    var c1 := c.(buffer := o.rest, request := o.request);
    hide ReadRequest, Respond, Finish;
    if o.err.Some? {
      FinishKeeps(c1, Rejected(o.request, StatusOf(o.err.value)));
    } else if o.required == 0 {
      RespondDelivers(cfg, c1.(processingNew := true));
    }
  }

  lemma ReadFailedAgrees(cfg: Config, c: Conn, op: nat, bytes: string)
    requires Inv(c) && CanHandle(cfg, c, ReadFailed(op, bytes))
    requires Agrees(cfg, c, bytes)
    ensures Agrees(cfg, Step(cfg, c, ReadFailed(op, bytes)), "")
  {
    DeliverKeepsInv(c, op, bytes);
    assert c.delivered + bytes + "" == c.delivered + bytes;
    if c.pendingReads[0].AtLeast? {
      assert c.buffer + bytes == bytes;
      assert ReadBody(c.request, bytes).required > 0;
    }
    hide OneShot, Verdicts;
  }

  lemma WriteAgrees(cfg: Config, c: Conn, op: nat, more: string)
    requires Agrees(cfg, c, more) && op < |c.pendingWrites|
    ensures Agrees(cfg, AddResponseHandler(PopResponse(c, op)), more)
    ensures Agrees(cfg, PopResponse(c, op).(writeFailed := true), more)
  {
    hide OneShot, Verdicts;
  }

  lemma StepAgrees(cfg: Config, c: Conn, e: Event, more: string)
    requires Inv(c) && CanHandle(cfg, c, e)
    requires e.ReadFailed? ==> more == ""
    requires Agrees(cfg, c, if e.ReadDone? || e.ReadFailed? then e.bytes + more else more)
    ensures Agrees(cfg, Step(cfg, c, e), more)
  {
    hide OneShot, Agrees, ProcessRequest, Inv;
    match e
    case ReadDone(op, bytes) => ReadDoneAgrees(cfg, c, op, bytes, more);
    case ReadFailed(op, bytes) =>
      assert bytes + "" == bytes;
      ReadFailedAgrees(cfg, c, op, bytes);
    case WriteDone(op) => WriteAgrees(cfg, c, op, more);
    case WriteFailed(op) => WriteAgrees(cfg, c, op, more);
  }

  lemma StepReadFailed(cfg: Config, c: Conn, e: Event)
    requires Inv(c) && CanHandle(cfg, c, e)
    ensures Step(cfg, c, e).readFailed <==> c.readFailed || e.ReadFailed?
    ensures c.readFailed ==> !e.ReadDone? && !e.ReadFailed?
  {
    if e.ReadDone? {
      ProcessDelivers(cfg, Deliver(c, e.op, e.bytes));
    }
    hide ProcessRequest, QueueInv, BodyReady;
  }

  /** Whatever the events so far: the session is on its way to the one-shot
      result for the bytes delivered and any that may still come. */
  lemma {:induction false} RunAgrees(cfg: Config, run: Run, i: nat, more: string)
    requires IsRun(cfg, run) && i < |run.states|
    requires run.states[i].readFailed ==> more == ""
    ensures Agrees(cfg, run.states[i], more)
    decreases i
  {
    hide *;
    RunStarts(cfg, run);
    if i == 0 {
      NewConnectionAgrees(cfg, more);
    } else {
      var c, e := run.states[i - 1], run.events[i - 1];
      RunSteps(cfg, run, i - 1);
      RunKeepsInv(cfg, run, i - 1);
      StepReadFailed(cfg, c, e);
      RunAgrees(cfg, run, i - 1, if e.ReadDone? || e.ReadFailed? then e.bytes + more else more);
      StepAgrees(cfg, c, e, more);
    }
  }

  lemma NewConnectionAgrees(cfg: Config, more: string)
    ensures Agrees(cfg, NEW_CONNECTION, more)
  {
    hide OneShot;
    assert "" + more == more && [] + OneShot(cfg, 0, more) == OneShot(cfg, 0, more);
  }

  /** No pending read can complete on the bytes that are there. */
  predicate Stalled(c: Conn) {
    forall op :: 0 <= op < |c.pendingReads| ==> !Satisfied(c.pendingReads[op], c.buffer, "")
  }

  lemma StalledHasNoFuture(cfg: Config, c: Conn)
    requires Inv(c) && Stalled(c)
    ensures Future(cfg, c, "") == []
  {
    if c.pendingReads != [] {
      assert !Satisfied(c.pendingReads[0], c.buffer, "");
      assert c.buffer + "" == c.buffer;
      if c.pendingReads[0].AtLeast? {
        assert ReadBody(c.request, "").required > 0;
      }
    }
  }

  /** Chunking independence: once the delivered bytes are used up, the requests
      handled and rejected are those of a one-shot parse of all of them. */
  lemma ChunkingIndependence(cfg: Config, run: Run, i: nat)
    requires IsRun(cfg, run) && i < |run.states| && Stalled(run.states[i])
    ensures run.states[i].handled == OneShot(cfg, 0, run.states[i].delivered)
  {
    var c := run.states[i];
    RunAgrees(cfg, run, i, "");
    RunKeepsInv(cfg, run, i);
    StalledHasNoFuture(cfg, c);
    hide OneShot, IsRun, Future;
    assert c.delivered + "" == c.delivered;
    assert c.handled + [] == c.handled;
  }

  /** At any moment the requests handled so far are a first part of it. */
  lemma HandledIsPrefix(cfg: Config, run: Run, i: nat, more: string)
    requires IsRun(cfg, run) && i < |run.states| && !run.states[i].readFailed
    ensures run.states[i].handled <= OneShot(cfg, 0, run.states[i].delivered + more)
  {
    RunAgrees(cfg, run, i, more);
    hide IsRun, OneShot, Future;
  }

  /** Two runs that deliver the same bytes handle the same requests. */
  lemma SameBytesSameRequests(cfg: Config, run1: Run, i: nat, run2: Run, j: nat)
    requires IsRun(cfg, run1) && IsRun(cfg, run2) && i < |run1.states| && j < |run2.states|
    requires Stalled(run1.states[i]) && Stalled(run2.states[j])
    requires run1.states[i].delivered == run2.states[j].delivered
    ensures run1.states[i].handled == run2.states[j].handled
    ensures run1.states[i].pushed == run2.states[j].pushed
  {
    ChunkingIndependence(cfg, run1, i);
    ChunkingIndependence(cfg, run2, j);
    RunKeepsInv(cfg, run1, i);
    RunKeepsInv(cfg, run2, j);
    hide IsRun, OneShot, Responses, QueueInv, ReadInv, BodyReady;
  }

  // ----- Pipelining -----

  function PrintAll(ws: seq<WireRequest>): string {
    if ws == [] then "" else Print(ws[0]) + PrintAll(ws[1..])
  }

  /** Every request is well-formed and one the host comes to an end with; all
      but the last get a reply and ask for keep-alive. */
  ghost predicate Pipeline(cfg: Config, i: nat, ws: seq<WireRequest>) {
    && (forall k :: 0 <= k < |ws| ==> WellFormed(ws[k], cfg.maxBody) && Halts(cfg, Rebuilt(ws[k])))
    && (forall k :: 0 <= k < |ws| - 1 ==> Continues(Verdict(cfg, i + k, Rebuilt(ws[k]))))
  }

  lemma PipelineTail(cfg: Config, i: nat, ws: seq<WireRequest>)
    requires ws != [] && Pipeline(cfg, i, ws)
    ensures Pipeline(cfg, i + 1, ws[1..])
  {
    hide Verdict, WellFormed, Rebuilt, Halts, Continues;
    var tail := ws[1..];
    assert forall k :: 0 <= k < |tail| ==> tail[k] == ws[k + 1];
    forall k | 0 <= k < |tail| - 1
      ensures Continues(Verdict(cfg, i + 1 + k, Rebuilt(tail[k])))
    {
      assert tail[k] == ws[k + 1];
      assert i + 1 + k == i + (k + 1);
    }
  }

  lemma PipelineHead(cfg: Config, i: nat, ws: seq<WireRequest>)
    requires ws != [] && Pipeline(cfg, i, ws)
    ensures WellFormed(ws[0], cfg.maxBody) && Halts(cfg, Rebuilt(ws[0]))
    ensures |ws| > 1 ==> Continues(Verdict(cfg, i, Rebuilt(ws[0])))
  {
    hide Verdict, WellFormed, Rebuilt, Halts, Continues;
    assert |ws| > 1 ==> Continues(Verdict(cfg, i + 0, Rebuilt(ws[0])));
  }

  /** What the host makes of each of the requests. */
  ghost function VerdictsOn(cfg: Config, i: nat, ws: seq<WireRequest>): seq<Handled>
    requires Pipeline(cfg, i, ws)
    decreases |ws|
  {
    if ws == [] then []
    else
      PipelineHead(cfg, i, ws);
      PipelineTail(cfg, i, ws);
      [Verdict(cfg, i, Rebuilt(ws[0]))] + VerdictsOn(cfg, i + 1, ws[1..])
  }

  lemma PrintedFirst(cfg: Config, i: nat, w: WireRequest, rest: string)
    requires WellFormed(w, cfg.maxBody)
    ensures OneShot(cfg, i, Print(w) + rest) == Verdicts(cfg, i, Outcome(Rebuilt(w), rest, None, 0))
  {
    PrintHasBlankLine(w);
    BlankLineStays(Print(w), rest);
    PrintedRequestParses(w, rest, cfg.maxBody);
    hide Verdicts, HasBlankLine, Print, WellFormed, Rebuilt, ParseRequest;
  }

  lemma {:induction false} PipelineOneShot(cfg: Config, i: nat, ws: seq<WireRequest>)
    requires Pipeline(cfg, i, ws)
    ensures OneShot(cfg, i, PrintAll(ws)) == VerdictsOn(cfg, i, ws)
    decreases |ws|
  {
    if ws == [] {
      assert !HasBlankLine("");
    } else {
      var w, rest := ws[0], PrintAll(ws[1..]);
      PipelineHead(cfg, i, ws);
      PipelineTail(cfg, i, ws);
      PrintedFirst(cfg, i, w, rest);
      PipelineOneShot(cfg, i + 1, ws[1..]);
      assert |ws| == 1 ==> ws[1..] == [];
      assert OneShot(cfg, i + 1, "") == [] by {
        assert !HasBlankLine("");
      }
      hide OneShot, Print, Rebuilt, WellFormed, Verdict, Halts, Continues, Pipeline;
    }
  }

  /** Pipelined round trip: printed requests, delivered in any chunks, are
      rebuilt one by one. */
  lemma PipelinedRoundTrip(cfg: Config, ws: seq<WireRequest>, run: Run, i: nat)
    requires Pipeline(cfg, 0, ws)
    requires IsRun(cfg, run) && i < |run.states| && Stalled(run.states[i])
    requires run.states[i].delivered == PrintAll(ws)
    ensures run.states[i].handled == VerdictsOn(cfg, 0, ws)
  {
    PipelineOneShot(cfg, 0, ws);
    ChunkingIndependence(cfg, run, i);
    hide IsRun, OneShot, VerdictsOn, Pipeline;
  }
}
