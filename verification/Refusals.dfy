/** What a connection answers to a request that no host handles, from the bytes
    delivered to the status sent; and what it asks the hosts. */
module Refusals {
  import opened Chars
  import opened RequestParsing
  import opened RequestStability
  import opened HeaderValues
  import opened RequestVerdicts
  import opened Routing
  import opened HostLaws
  import opened SessionModel
  import opened SessionProofs
  import opened StreamProofs

  // ----- The loop over the hosts -----

  /** One turn of the loop, with the statuses it sends: 400 for another port or
      a path that is no sections, 404 for a host that is not served there or a
      section nobody has; otherwise the host that the path leads to answers, or
      sends the request back for another turn. */
  lemma ServeLaw(cfg: Config, i: nat, r: Request)
    requires Halts(cfg, r)
    ensures var s := Serve(cfg, i, r);
            && (r.port != cfg.serverPort ==> s == Refused(r, 400))
            && (r.port == cfg.serverPort && !(r.host in cfg.hosts && r.port in cfg.hosts[r.host].ports) ==>
                  s == Refused(r, 404))
    ensures Reachable(cfg, r) ==>
              var s, root := Serve(cfg, i, r), cfg.hosts[r.host].root;
              && (LeadsAstray(root, r.path) ==> s.Refused? && s.status == 400)
              && (LeadsNowhere(root, r.path) ==> s.Refused? && s.status == 404)
    ensures Reachable(cfg, r) ==>
              var root, d := cfg.hosts[r.host].root, Dispatch(cfg.hosts[r.host].root, r);
              forall leaf, p :: Leads(root, r.path, leaf, p) ==>
                var r1 := d.request;
                && r1 == r.(path := r1.path) && Leaves(leaf, p, r1.path)
                && (SendsBack(leaf, r.(path := p)) ==> Halts(cfg, r1) && Serve(cfg, i, r) == Serve(cfg, i, r1))
                && (!SendsBack(leaf, r.(path := p)) ==>
                      Serve(cfg, i, r) == match cfg.handle(i, leaf, r1)
                                          case Reply(buffers) => Replied(r1, buffers)
                                          case Fails(status) => Refused(r1, status))
  {
    if Reachable(cfg, r) {
      DispatchLaw(cfg.hosts[r.host].root, r);
      if HostPass(cfg, i, r).Again? {
        AgainHalts(cfg, i, r);
      }
    }
    hide Dispatch, Leads, LeadsAstray, LeadsNowhere, SendsBack, Leaves, Halts;
  }

  // ----- Faults -----

  ghost predicate BadLine(s: string) {
    forall l :: !IsStart(GetLine(s).head, l)
  }

  ghost predicate OtherProtocol(s: string) {
    exists l :: IsStart(GetLine(s).head, l) && !IsWord(l.protocol, "HTTP")
  }

  ghost predicate OtherVersion(s: string) {
    exists l :: IsStart(GetLine(s).head, l) && IsWord(l.protocol, "HTTP") && !IsVersion11(l)
  }

  ghost predicate IsHttp11(s: string, l: StartLine) {
    IsStart(GetLine(s).head, l) && IsWord(l.protocol, "HTTP") && IsVersion11(l)
  }

  ghost predicate BadHead(s: string) {
    exists l :: IsHttp11(s, l) && HeadFails(GetLine(s).tail)
  }

  /** A target without a path. */
  ghost predicate BadTarget(s: string) {
    exists l :: IsHttp11(s, l) && !HeadFails(GetLine(s).tail) && l.uri[0] == '?'
  }

  ghost predicate Announces(s: string, l: StartLine, n: nat) {
    && IsHttp11(s, l) && !HeadFails(GetLine(s).tail) && l.uri[0] != '?'
    && HasLength(HeadHeaders(GetLine(s).tail), n)
  }

  ghost predicate UnexpectedBody(s: string) {
    exists l, n: nat :: Announces(s, l, n) && n > 0 && !IsWord(l.verb, "POST")
  }

  /** A body that cannot be held in memory. */
  ghost predicate HugeBody(s: string, maxBody: nat) {
    exists l, n: nat :: Announces(s, l, n) && n > maxBody && IsWord(l.verb, "POST")
  }

  ghost predicate GoodHead(s: string, maxBody: nat) {
    exists l, n: nat :: Announces(s, l, n) && (n > 0 ==> n <= maxBody && IsWord(l.verb, "POST"))
  }

  ghost predicate WrongPort(cfg: Config, s: string) {
    GoodHead(s, cfg.maxBody)
    && exists host: string, port: nat :: HasAddress(HeadHeaders(GetLine(s).tail), host, port) && port != cfg.serverPort
  }

  predicate IsServed(cfg: Config, host: string, port: nat) {
    host in cfg.hosts && port in cfg.hosts[host].ports
  }

  ghost predicate NotServed(cfg: Config, s: string) {
    GoodHead(s, cfg.maxBody)
    && exists host: string, port: nat :: HasAddress(HeadHeaders(GetLine(s).tail), host, port)
                         && port == cfg.serverPort && !IsServed(cfg, host, port)
  }

  ghost predicate ForHost(cfg: Config, s: string) {
    GoodHead(s, cfg.maxBody)
    && exists host: string, port: nat :: HasAddress(HeadHeaders(GetLine(s).tail), host, port)
                         && port == cfg.serverPort && IsServed(cfg, host, port)
  }

  ghost predicate Malformed(s: string) {
    BadLine(s) || OtherProtocol(s) || BadHead(s) || BadTarget(s) || UnexpectedBody(s)
  }

  /** The error that the parser reports. */
  ghost predicate Reports(s: string, maxBody: nat, err: Option<Error>) {
    match err
    case None => GoodHead(s, maxBody)
    case Some(UnsupportedVersion) => OtherVersion(s)
    case Some(BodyNotAllocated) => HugeBody(s, maxBody)
    case Some(IncorrectStartString) => BadLine(s)
    case Some(IncorrectProtocol) => OtherProtocol(s)
    case Some(IncorrectHeader) => BadHead(s)
    case Some(UriParseError) => BadTarget(s)
    case Some(ContentLengthMustBeZero) => UnexpectedBody(s)
  }

  lemma StartUnique(line: string, l: StartLine, k: StartLine)
    requires IsStart(line, l) && IsStart(line, k)
    ensures l == k
  {
    StartIff(line, l);
    StartIff(line, k);
  }

  lemma SomeLength(s: string, maxBody: nat, l: StartLine) returns (n: nat)
    requires IsHttp11(s, l)
    ensures !HeadFails(GetLine(s).tail) ==> HasLength(HeadHeaders(GetLine(s).tail), n)
  {
    n := 0;
    var line := GetLine(s);
    var start := ParseStart(FRESH_REQUEST, line.head);
    StartLineVerdict(line.head, l);
    HeadVerdict(start.request, line.tail);
    if !HeadFails(line.tail) {
      var r := ReadHeaders(start.request, line.tail).request;
      HeadEffects(start.request, HeadHeaders(line.tail));
      n := r.contentLength;
    }
    hide ParseStart, ReadHeaders, GetLine, HeadFails, HasLength, HasAddress, IsStart;
  }

  /** The first fault, given the groups and the announced length. */
  function FirstFault(l: StartLine, n: nat, headFails: bool, maxBody: nat): Option<Error> {
    if !IsWord(l.protocol, "HTTP") then Some(IncorrectProtocol)
    else if !IsVersion11(l) then Some(UnsupportedVersion)
    else if headFails then Some(IncorrectHeader)
    else if l.uri == "" || l.uri[0] == '?' then Some(UriParseError)
    else if n == 0 then None
    else if !IsWord(l.verb, "POST") then Some(ContentLengthMustBeZero)
    else if n > maxBody then Some(BodyNotAllocated)
    else None
  }

  lemma ReportsFirstFault(s: string, maxBody: nat, l: StartLine, n: nat, err: Option<Error>)
    requires IsStart(GetLine(s).head, l)
    requires IsHttp11(s, l) && !HeadFails(GetLine(s).tail) ==> HasLength(HeadHeaders(GetLine(s).tail), n)
    ensures Reports(s, maxBody, err) <==> err == FirstFault(l, n, HeadFails(GetLine(s).tail), maxBody)
  {
    var line, hs := GetLine(s).head, HeadHeaders(GetLine(s).tail);
    forall k | IsStart(line, k)
      ensures k == l
    {
      StartUnique(line, l, k);
    }
    StartHasUri(line, l);
    forall m: nat | IsHttp11(s, l) && !HeadFails(GetLine(s).tail) && HasLength(hs, m)
      ensures m == n
    {
      LengthUnique(hs, n, m);
    }
    hide GetLine, IsStart, HeadFails, HasLength, IsWord, HeadHeaders, IsVersion11, All;
    assert Announces(s, l, n) <==> IsHttp11(s, l) && !HeadFails(GetLine(s).tail) && l.uri[0] != '?';
    match err
    case None =>
    case Some(UnsupportedVersion) =>
    case Some(BodyNotAllocated) =>
    case Some(IncorrectStartString) =>
    case Some(IncorrectProtocol) =>
    case Some(IncorrectHeader) =>
    case Some(UriParseError) =>
    case Some(ContentLengthMustBeZero) =>
  }

  lemma ReportsOne(s: string, maxBody: nat) returns (l: StartLine, n: nat)
    requires !BadLine(s)
    ensures IsStart(GetLine(s).head, l)
    ensures IsHttp11(s, l) && !HeadFails(GetLine(s).tail) ==> HasLength(HeadHeaders(GetLine(s).tail), n)
    ensures ParseRequest(s, maxBody).err == FirstFault(l, n, HeadFails(GetLine(s).tail), maxBody)
  {
    l :| IsStart(GetLine(s).head, l);
    StartHasUri(GetLine(s).head, l);
    n := 0;
    if IsHttp11(s, l) {
      n := SomeLength(s, maxBody, l);
      RequestVerdict(s, maxBody, l, n);
    } else {
      OldStart(s, maxBody, l);
    }
    hide ParseRequest, GetLine, IsStart, HeadFails, HasLength, IsWord, HeadHeaders, IsVersion11, All;
  }

  lemma BadLineReported(s: string, maxBody: nat, err: Option<Error>)
    requires BadLine(s)
    ensures ParseRequest(s, maxBody).err == Some(IncorrectStartString)
    ensures Reports(s, maxBody, err) <==> err == Some(IncorrectStartString)
  {
    NoStartVerdict(s, maxBody);
    hide ParseRequest, GetLine, IsStart, HeadFails, HasLength, IsWord, HeadHeaders, IsVersion11;
  }

  /** Exactly one of these holds of any bytes, and it is what is reported. */
  lemma ReportedIff(s: string, maxBody: nat, err: Option<Error>)
    ensures ParseRequest(s, maxBody).err == err <==> Reports(s, maxBody, err)
  {
    hide *;
    if BadLine(s) {
      BadLineReported(s, maxBody, err);
    } else {
      var l, n := ReportsOne(s, maxBody);
      ReportsFirstFault(s, maxBody, l, n, err);
    }
  }

  lemma OldStart(s: string, maxBody: nat, l: StartLine)
    requires IsStart(GetLine(s).head, l) && !IsHttp11(s, l)
    ensures ParseRequest(s, maxBody).err
         == Some(if IsWord(l.protocol, "HTTP") then UnsupportedVersion else IncorrectProtocol)
  {
    StartLineVerdict(GetLine(s).head, l);
    ParseSplits(s, maxBody);
    hide ParseRequest, ParseStart, GetLine, IsStart, IsWord, ReadHeaders, FinishHead;
  }

  // ----- Statuses -----

  /** One request was handled, and refused with `status` as far as it was filled. */
  predicate IsRefusal(handled: seq<Handled>, r: Request, status: int) {
    handled == [Rejected(r, status)]
  }

  lemma ErrorRefused(cfg: Config, i: nat, s: string)
    requires HasBlankLine(s) && ParseRequest(s, cfg.maxBody).err.Some?
    ensures var o := ParseRequest(s, cfg.maxBody);
            IsRefusal(OneShot(cfg, i, s), o.request,
                      if o.err.value == UnsupportedVersion then 505
                      else if o.err.value == BodyNotAllocated then 500 else 400)
  {
    BlankLineIsNonempty(s);
    hide ParseRequest, HasBlankLine, Verdict, Halts;
  }

  lemma AddressUnique(headers: seq<Header>, host1: string, port1: nat, host2: string, port2: nat)
    requires HasAddress(headers, host1, port1) && HasAddress(headers, host2, port2)
    ensures host1 == host2 && port1 == port2
  {
    var p := LastPort(headers);
    if p.Some? {
      NumberIff(p.value, 65536, port1);
      NumberIff(p.value, 65536, port2);
    }
    hide LastValue, LastPort, IsNumber, LexicalCast, Span;
  }

  /** The address of a request without a fault is that of its headers. */
  lemma GoodAddress(s: string, maxBody: nat)
    requires GoodHead(s, maxBody)
    ensures ParseRequest(s, maxBody).err.None?
    ensures var r := ParseRequest(s, maxBody).request; HasAddress(HeadHeaders(GetLine(s).tail), r.host, r.port)
  {
    var l, n: nat :| Announces(s, l, n) && (n > 0 ==> n <= maxBody && IsWord(l.verb, "POST"));
    RequestVerdict(s, maxBody, l, n);
    hide ParseRequest, GetLine, IsStart, HeadFails, HasLength, IsWord, HeadHeaders, IsVersion11, HasAddress;
  }

  /** Where a request without a fault goes. */
  lemma GoodHeadGoes(cfg: Config, s: string)
    requires GoodHead(s, cfg.maxBody)
    ensures var r := ParseRequest(s, cfg.maxBody).request;
            && (WrongPort(cfg, s) <==> r.port != cfg.serverPort)
            && (NotServed(cfg, s) <==> r.port == cfg.serverPort && !IsServed(cfg, r.host, r.port))
            && (ForHost(cfg, s) <==> Reachable(cfg, r))
  {
    GoodAddress(s, cfg.maxBody);
    var r, hs := ParseRequest(s, cfg.maxBody).request, HeadHeaders(GetLine(s).tail);
    forall host: string, port: nat | HasAddress(hs, host, port)
      ensures host == r.host && port == r.port
    {
      AddressUnique(hs, r.host, r.port, host, port);
    }
    hide ParseRequest, GetLine, HeadHeaders, HasAddress, GoodHead;
  }

  lemma AddressRefused(cfg: Config, i: nat, s: string)
    requires HasBlankLine(s) && GoodHead(s, cfg.maxBody) && !ForHost(cfg, s)
    ensures if ParseRequest(s, cfg.maxBody).required > 0 then OneShot(cfg, i, s) == []
            else IsRefusal(OneShot(cfg, i, s), ParseRequest(s, cfg.maxBody).request,
                           if WrongPort(cfg, s) then 400 else 404)
  {
    BlankLineIsNonempty(s);
    GoodAddress(s, cfg.maxBody);
    GoodHeadGoes(cfg, s);
    var r := ParseRequest(s, cfg.maxBody).request;
    assert Halts(cfg, r);
    ServeLaw(cfg, i, r);
    hide ParseRequest, HasBlankLine, Serve, GoodHead, ForHost, WrongPort, Terminates, HasAddress, GetLine;
  }

  /** The status that refuses the first request of a stream. */
  lemma FirstStatus(cfg: Config, i: nat, s: string)
    requires HasBlankLine(s)
    ensures var h, o := OneShot(cfg, i, s), ParseRequest(s, cfg.maxBody);
            && (Malformed(s) ==> IsRefusal(h, o.request, 400))
            && (OtherVersion(s) ==> IsRefusal(h, o.request, 505))
            && (HugeBody(s, cfg.maxBody) ==> IsRefusal(h, o.request, 500))
            && (o.required == 0 && WrongPort(cfg, s) ==> IsRefusal(h, o.request, 400))
            && (o.required == 0 && NotServed(cfg, s) ==> IsRefusal(h, o.request, 404))
    ensures GoodHead(s, cfg.maxBody) && !ForHost(cfg, s) && ParseRequest(s, cfg.maxBody).required > 0 ==>
              OneShot(cfg, i, s) == []
  {
    WhichFault(s, cfg.maxBody);
    NeedGoodHead(cfg, s);
    hide *;
    if ParseRequest(s, cfg.maxBody).err.Some? {
      ErrorRefused(cfg, i, s);
    } else {
      OnePlace(cfg, s);
      if !ForHost(cfg, s) {
        AddressRefused(cfg, i, s);
      }
    }
  }

  /** It is refused before a host is asked with one of these statuses, exactly
      for these reasons. */
  lemma FirstRefusal(cfg: Config, i: nat, s: string) returns (status: int)
    requires HasBlankLine(s) && !ForHost(cfg, s) && OneShot(cfg, i, s) != []
    ensures IsRefusal(OneShot(cfg, i, s), ParseRequest(s, cfg.maxBody).request, status)
    ensures status == 505 <==> OtherVersion(s)
    ensures status == 500 <==> HugeBody(s, cfg.maxBody)
    ensures status == 404 <==> NotServed(cfg, s)
    ensures status == 400 <==> Malformed(s) || WrongPort(cfg, s)
  {
    hide *;
    FirstStatus(cfg, i, s);
    Exclusive(cfg, s);
    status := if OtherVersion(s) then 505 else if HugeBody(s, cfg.maxBody) then 500
              else if NotServed(cfg, s) then 404 else 400;
  }

  /** At most one of the reasons applies, and one does unless a host is asked. */
  lemma Exclusive(cfg: Config, s: string)
    ensures !(OtherVersion(s) && HugeBody(s, cfg.maxBody))
    ensures !(OtherVersion(s) && Malformed(s)) && !(HugeBody(s, cfg.maxBody) && Malformed(s))
    ensures OtherVersion(s) || HugeBody(s, cfg.maxBody) || Malformed(s) ==> !NotServed(cfg, s) && !WrongPort(cfg, s)
    ensures !(NotServed(cfg, s) && WrongPort(cfg, s))
    ensures NotServed(cfg, s) || WrongPort(cfg, s) ==> GoodHead(s, cfg.maxBody)
    ensures OtherVersion(s) || HugeBody(s, cfg.maxBody) || Malformed(s)
            || NotServed(cfg, s) || WrongPort(cfg, s) || ForHost(cfg, s)
  {
    hide *;
    WhichFault(s, cfg.maxBody);
    NeedGoodHead(cfg, s);
    EveryError(ParseRequest(s, cfg.maxBody).err);
    if GoodHead(s, cfg.maxBody) {
      OnePlace(cfg, s);
    }
  }

  lemma EveryError(err: Option<Error>)
    ensures || err == None || err == Some(UnsupportedVersion) || err == Some(BodyNotAllocated)
            || err == Some(IncorrectStartString) || err == Some(IncorrectProtocol) || err == Some(IncorrectHeader)
            || err == Some(UriParseError) || err == Some(ContentLengthMustBeZero)
  {
    if err.Some? {
      match err.value
      case IncorrectStartString =>
      case IncorrectProtocol =>
      case UnsupportedVersion =>
      case IncorrectHeader =>
      case UriParseError =>
      case ContentLengthMustBeZero =>
      case BodyNotAllocated =>
    }
  }

  lemma NeedGoodHead(cfg: Config, s: string)
    ensures WrongPort(cfg, s) || NotServed(cfg, s) || ForHost(cfg, s) ==> GoodHead(s, cfg.maxBody)
    ensures Malformed(s) <==> BadLine(s) || OtherProtocol(s) || BadHead(s) || BadTarget(s) || UnexpectedBody(s)
  {
    hide GoodHead, BadLine, OtherProtocol, BadHead, BadTarget, UnexpectedBody;
  }

  lemma OnePlace(cfg: Config, s: string)
    requires GoodHead(s, cfg.maxBody)
    ensures ForHost(cfg, s) <==> !WrongPort(cfg, s) && !NotServed(cfg, s)
    ensures !(WrongPort(cfg, s) && NotServed(cfg, s))
  {
    GoodHeadGoes(cfg, s);
    hide WrongPort, NotServed, ForHost, GoodHead, ParseRequest;
  }

  /** The predicates are the reports by name. */
  lemma WhichFault(s: string, maxBody: nat)
    ensures var err := ParseRequest(s, maxBody).err;
            && (err == None <==> GoodHead(s, maxBody))
            && (err == Some(UnsupportedVersion) <==> OtherVersion(s))
            && (err == Some(BodyNotAllocated) <==> HugeBody(s, maxBody))
            && (err == Some(IncorrectStartString) <==> BadLine(s))
            && (err == Some(IncorrectProtocol) <==> OtherProtocol(s))
            && (err == Some(IncorrectHeader) <==> BadHead(s))
            && (err == Some(UriParseError) <==> BadTarget(s))
            && (err == Some(ContentLengthMustBeZero) <==> UnexpectedBody(s))
  {
    ReportedIff(s, maxBody, None);
    ReportedIff(s, maxBody, Some(UnsupportedVersion));
    ReportedIff(s, maxBody, Some(BodyNotAllocated));
    ReportedIff(s, maxBody, Some(IncorrectStartString));
    ReportedIff(s, maxBody, Some(IncorrectProtocol));
    ReportedIff(s, maxBody, Some(IncorrectHeader));
    ReportedIff(s, maxBody, Some(UriParseError));
    ReportedIff(s, maxBody, Some(ContentLengthMustBeZero));
    hide ParseRequest, BadLine, OtherProtocol, OtherVersion, BadHead, BadTarget, UnexpectedBody, HugeBody, GoodHead;
  }

  /** One response was queued: the error page for `status`, with what is known
      of the request's method and version. */
  predicate IsPhony(pushed: seq<Response>, r: Request, status: int) {
    pushed == [PhonyResponse(status, r.verb, r.version)]
  }

  lemma RefusalIsPhony(handled: seq<Handled>, r: Request, status: int)
    requires IsRefusal(handled, r, status)
    ensures IsPhony(Responses(handled), r, status)
  {
    assert handled[..0] == [];
  }

  /** On a connection whose bytes begin with such a request, in any chunks: the
      one response that is sent. */
  lemma RefusedOnTheWire(cfg: Config, run: Run, i: nat)
    requires IsRun(cfg, run) && i < |run.states| && Stalled(run.states[i])
    requires HasBlankLine(run.states[i].delivered)
    ensures var s, pushed := run.states[i].delivered, run.states[i].pushed;
            var o := ParseRequest(s, cfg.maxBody);
            && (Malformed(s) ==> IsPhony(pushed, o.request, 400))
            && (OtherVersion(s) ==> IsPhony(pushed, o.request, 505))
            && (HugeBody(s, cfg.maxBody) ==> IsPhony(pushed, o.request, 500))
            && (o.required == 0 && WrongPort(cfg, s) ==> IsPhony(pushed, o.request, 400))
            && (o.required == 0 && NotServed(cfg, s) ==> IsPhony(pushed, o.request, 404))
            && (!ForHost(cfg, s) && pushed != [] ==>
                  && pushed[0].PhonyResponse? && IsPhony(pushed, o.request, pushed[0].status)
                  && (pushed[0].status == 505 <==> OtherVersion(s))
                  && (pushed[0].status == 500 <==> HugeBody(s, cfg.maxBody))
                  && (pushed[0].status == 404 <==> NotServed(cfg, s))
                  && (pushed[0].status == 400 <==> Malformed(s) || WrongPort(cfg, s)))
  {
    var c := run.states[i];
    var s := c.delivered;
    var r := ParseRequest(s, cfg.maxBody).request;
    hide *;
    ChunkingIndependence(cfg, run, i);
    RunKeepsInv(cfg, run, i);
    PushedAreResponses(c);
    FirstStatus(cfg, 0, s);
    forall status | IsRefusal(c.handled, r, status)
      ensures IsPhony(c.pushed, r, status)
    {
      RefusalIsPhony(c.handled, r, status);
    }
    if !ForHost(cfg, s) && c.pushed != [] {
      var status := FirstRefusal(cfg, 0, s);
      PhonyIs(c.pushed, r, status);
    }
  }

  lemma PhonyIs(pushed: seq<Response>, r: Request, status: int)
    requires IsPhony(pushed, r, status)
    ensures pushed != [] && pushed[0].PhonyResponse? && pushed[0].status == status
  {}

  lemma PushedAreResponses(c: Conn)
    requires Inv(c)
    ensures c.pushed == Responses(c.handled) && (c.handled == [] <==> c.pushed == [])
  {
    OneResponseEach(c.handled);
    hide Responses, QueueInv, ReadInv, BodyReady;
  }

  // ----- Requests that a host is asked about -----

  lemma {:induction false} FirstResponse(handled: seq<Handled>)
    requires handled != []
    ensures Responses(handled) != [] && Responses(handled)[0] == ResponseTo(handled[0])
  {
    if |handled| > 1 {
      FirstResponse(handled[..|handled| - 1]);
    }
  }

  lemma EndsAtOnce(cfg: Config, r: Request)
    requires Reachable(cfg, r) && !Dispatch(cfg.hosts[r.host].root, r).SoftRedirect?
    ensures Halts(cfg, r)
  {
    assert !After(cfg.hosts[r.host].root, r, 0).SoftRedirect?;
  }

  lemma FirstVerdict(cfg: Config, i: nat, s: string)
    requires HasBlankLine(s) && ParseRequest(s, cfg.maxBody).err.None? && ParseRequest(s, cfg.maxBody).required == 0
    requires Halts(cfg, ParseRequest(s, cfg.maxBody).request)
    ensures OneShot(cfg, i, s) != []
    ensures OneShot(cfg, i, s)[0] == Verdict(cfg, i, ParseRequest(s, cfg.maxBody).request)
  {
    BlankLineIsNonempty(s);
    hide ParseRequest, HasBlankLine, Verdict, Halts;
  }

  /** On a connection whose bytes begin with a request that its path leads to a
      host which does not send it back: the first response is what that very
      host makes of it, with nothing but the path changed. */
  lemma HostOnTheWire(cfg: Config, run: Run, i: nat, leaf: Host, p: string)
    requires IsRun(cfg, run) && i < |run.states| && Stalled(run.states[i])
    requires HasBlankLine(run.states[i].delivered)
    requires var o := ParseRequest(run.states[i].delivered, cfg.maxBody);
             && o.err.None? && o.required == 0 && Reachable(cfg, o.request)
             && Leads(cfg.hosts[o.request.host].root, o.request.path, leaf, p)
             && !SendsBack(leaf, o.request.(path := p))
    ensures run.states[i].pushed != []
    ensures var r, first := ParseRequest(run.states[i].delivered, cfg.maxBody).request, run.states[i].pushed[0];
            exists q :: Leaves(leaf, p, q) && first ==
              match cfg.handle(0, leaf, r.(path := q))
              case Reply(buffers) => HostResponse(buffers)
              case Fails(status) => PhonyResponse(status, r.verb, r.version)
  {
    var c := run.states[i];
    var s := c.delivered;
    var r := ParseRequest(s, cfg.maxBody).request;
    var root := cfg.hosts[r.host].root;
    var q := Dispatch(root, r).request.path;
    ChunkingIndependence(cfg, run, i);
    RunKeepsInv(cfg, run, i);
    PushedAreResponses(c);
    DispatchLaw(root, r);
    EndsAtOnce(cfg, r);
    FirstVerdict(cfg, 0, s);
    FirstResponse(c.handled);
    ServeLaw(cfg, 0, r);
    assert Leaves(leaf, p, q);
    hide IsRun, Stalled, HasBlankLine, ParseRequest, Leads, SendsBack, Leaves, Dispatch, Serve, OneShot, Inv, Responses,
         LeadsAstray, LeadsNowhere, Halts;
  }
}
