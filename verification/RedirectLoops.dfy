/** Which configurations let a client send a request that is redirected
    forever. */
module RedirectLoops {
  import opened Chars
  import opened RequestParsing
  import opened RequestProofs
  import opened RequestStability
  import opened RequestPrinting
  import opened HeaderValues
  import opened Routing
  import opened SessionModel

  /** A name that can stand in a Host header: one that starts with white space
      only when it is a single blank. */
  predicate IsHostName(name: string) {
    && name != "" && All(NotColon, name) && All(AnyChar, name)
    && (Is(Space, name[0]) ==> |name| == 1)
  }

  /** The names and ports that the parser can come to: without a Host header
      both are those of a fresh request. */
  predicate IsAddress(name: string, port: nat) {
    (name == "" && port == DEFAULT_PORT) || (IsHostName(name) && port <= MAX_PORT)
  }

  /** The Host value for `name` on `port`; port 80 goes without saying. */
  function HostValue(name: string, port: nat): string {
    if port == DEFAULT_PORT then name else name + (":" + Decimal(port))
  }

  /** A blank name cannot be written with a port: an earlier header gives it. */
  function HostHeaders(name: string, port: nat): seq<Header> {
    if name == "" then []
    else if Is(Space, name[0]) then [Header("Host", HostValue("host", port)), Header("Host", name)]
    else [Header("Host", HostValue(name, port))]
  }

  /** "GET <path> HTTP/1.1" with these headers, a blank line, no body. */
  function PlainGet(path: string, name: string, port: nat): WireRequest {
    WireRequest(GET, path, HostHeaders(name, port), "")
  }

  lemma HostValuePrints(name: string, port: nat)
    requires IsHostName(name) && !Is(Space, name[0])
    ensures Printable(Header("Host", HostValue(name, port)))
  {
    assert All(NonSpace, "Host");
    var value := HostValue(name, port);
    assert All(Digit, Decimal(port));
    forall i | 0 <= i < |value|
      ensures Is(AnyChar, value[i])
    {
      if i > |name| {
        assert Is(Digit, Decimal(port)[i - |name| - 1]);
      }
    }
    assert value[0] == name[0];
    hide Decimal;
  }

  lemma HostHeadersPrint(name: string, port: nat)
    requires IsAddress(name, port)
    ensures forall i :: 0 <= i < |HostHeaders(name, port)| ==> Printable(HostHeaders(name, port)[i])
  {
    if name != "" && Is(Space, name[0]) {
      assert All(NonSpace, "Host");
      assert Printable(Header("Host", name));
      HostValuePrints("host", port);
      hide Printable, HostValue, All;
    } else if name != "" {
      HostValuePrints(name, port);
      hide Printable, HostValue, All;
    }
  }

  lemma ApplyHostHeader(d: Request, value: string)
    requires ApplyHost(d, value).err.None?
    ensures var r := ApplyHost(d, value).request;
            ApplyHeader(d, Header("Host", value))
            == Filled(r.(parsedHeaders := r.parsedHeaders + multiset{("Host", value)}), None)
  {
    hide ApplyHost;
  }

  lemma OneHostApplies(d: Request, name: string, port: nat)
    requires IsHostName(name) && port <= MAX_PORT && d.port == DEFAULT_PORT
    ensures var f := ApplyHeader(d, Header("Host", HostValue(name, port)));
            f == Filled(d.(host := name, port := port, parsedHeaders := f.request.parsedHeaders), None)
  {
    HostRoundTrip(d, name, port);
    ApplyHostHeader(d, HostValue(name, port));
    hide ApplyHeader, ApplyHost, Decimal, All, IsHostName;
  }

  lemma BareHostApplies(d: Request, name: string)
    requires IsHostName(name)
    ensures var f := ApplyHeader(d, Header("Host", name));
            f == Filled(d.(host := name, parsedHeaders := f.request.parsedHeaders), None)
  {
    HostRoundTrip(d, name, DEFAULT_PORT);
    ApplyHostHeader(d, name);
    hide ApplyHeader, ApplyHost, Decimal, All, IsHostName;
  }

  lemma ApplyFirst(d: Request, h: Header, rest: seq<Header>)
    requires ApplyHeader(d, h).err.None?
    ensures ApplyAll(d, [h] + rest) == ApplyAll(ApplyHeader(d, h).request, rest)
    ensures ApplyAll(d, [h]) == ApplyHeader(d, h)
  {
    assert ([h] + rest)[1..] == rest && [h][1..] == [];
    hide ApplyHeader;
  }

  lemma HostHeadersApply(d: Request, name: string, port: nat)
    requires IsAddress(name, port) && d.host == "" && d.port == DEFAULT_PORT
    ensures var f := ApplyAll(d, HostHeaders(name, port));
            f.err.None? && f.request == d.(host := name, port := port, parsedHeaders := f.request.parsedHeaders)
  {
    if name != "" {
      var blank := Is(Space, name[0]);
      var first := if blank then "host" else name;
      var h := Header("Host", HostValue(first, port));
      OneHostApplies(d, first, port);
      var d1 := ApplyHeader(d, h).request;
      BareHostApplies(d1, name);
      ApplyFirst(d, h, [Header("Host", name)]);
      ApplyFirst(d1, Header("Host", name), []);
      assert blank ==> HostHeaders(name, port) == [h] + [Header("Host", name)];
      assert !blank ==> HostHeaders(name, port) == [h];
      hide *;
    }
  }

  lemma PathOnly(path: string)
    requires path != "" && All(PathChar, path)
    ensures Span(PathChar, path) == Cut(path, "") && QueryOf(path) == ""
  {
    SpanOf(PathChar, path, "");
    assert path + "" == path;
  }

  /** What the parser makes of it. */
  lemma PlainGetParses(path: string, name: string, port: nat, maxBody: nat)
    requires IsAddress(name, port)
    requires path != "" && All(PathChar, path) && All(NonSpace, path)
    ensures var w := PlainGet(path, name, port);
            && WellFormed(w, maxBody) && HasBlankLine(Print(w))
            && ParseRequest(Print(w), maxBody) == Outcome(Rebuilt(w), "", None, 0)
            && var r := Rebuilt(w);
               r.verb == GET && r.path == path && r.argsSet == multiset{} && r.host == name && r.port == port
  {
    var w := PlainGet(path, name, port);
    HostHeadersPrint(name, port);
    HostHeadersApply(Started(w), name, port);
    PathOnly(path);
    NoArgs();
    assert Print(w) + "" == Print(w);
    hide HostHeaders, Span, UriArgs, All, ApplyAll, Print, HasBlankLine, ParseRequest, Printable, IsAddress;
    PrintHasBlankLine(w);
    PrintedRequestParses(w, "", maxBody);
  }

  lemma UnknownPath(n: nat)
    ensures var path := "/" + Unknown(n); All(PathChar, path) && All(NonSpace, path)
  {
    AllG(n);
    var path := "/" + Unknown(n);
    forall i | 0 <= i < |path|
      ensures path[i] == '/' || path[i] == 'g'
    {
      if i > 0 {
        assert path[i] == Unknown(n)[i - 1];
      }
    }
  }

  lemma {:induction false} AllG(n: nat)
    ensures forall i :: 0 <= i < |Unknown(n)| ==> Unknown(n)[i] == 'g'
  {
    if n > 0 {
      AllG(n - 1);
    }
  }

  /** The virtual host `name` answers on the port the server listens on. */
  predicate Serves(cfg: Config, name: string) {
    name in cfg.hosts && cfg.serverPort in cfg.hosts[name].ports
  }

  /** A host tree that is not loop-free can be sent into the loop: these bytes
      parse to a request that it redirects forever. */
  lemma LoopingBytes(cfg: Config, name: string) returns (path: string)
    requires IsAddress(name, cfg.serverPort) && Serves(cfg, name)
    requires !LoopFree(cfg.hosts[name].root)
    ensures LoopsOn(cfg, name, Print(PlainGet(path, name, cfg.serverPort)))
  {
    var n := DivergingPath(cfg.hosts[name].root);
    path := "/" + Unknown(n);
    UnknownPath(n);
    PlainGetParses(path, name, cfg.serverPort, cfg.maxBody);
    var r := Rebuilt(PlainGet(path, name, cfg.serverPort));
    assert IsPlain(r) && !Terminates(cfg.hosts[name].root, r);
    hide Print, ParseRequest, Rebuilt, HasBlankLine, LoopFree, Terminates;
  }

  /** `bytes` hold a complete request for the host `name` that is redirected
      forever. */
  ghost predicate LoopsOn(cfg: Config, name: string, bytes: string) {
    var o := ParseRequest(bytes, cfg.maxBody);
    && HasBlankLine(bytes) && o.err.None? && o.required == 0
    && o.request.host == name && !Halts(cfg, o.request)
  }

  /** Some bytes for the host `name` make process_request run forever. */
  ghost predicate CanLoop(cfg: Config, name: string) {
    exists bytes :: LoopsOn(cfg, name, bytes)
  }

  // ----- The addresses that the parser comes to -----

  /** A value that the header expression captures. */
  predicate IsValue(v: string) {
    v != "" && All(AnyChar, v) && (Is(Space, v[0]) ==> |v| == 1)
  }

  lemma CapturedValue(rest: string)
    requires HeaderValue(rest).Some?
    ensures IsValue(HeaderValue(rest).value)
  {
    SpanIsLongest(Space, TrimEnd(LineBreak, rest));
    hide Span, TrimEnd;
  }

  lemma {:induction false} CapturedUpTo(line: string, p: nat)
    requires p < |line| && HeaderUpTo(line, p).Some?
    ensures IsValue(HeaderUpTo(line, p).value.value)
    decreases p
  {
    if line[p] == ':' && HeaderValue(line[p + 1..]).Some? {
      CapturedValue(line[p + 1..]);
    } else {
      CapturedUpTo(line, p - 1);
    }
    hide HeaderValue, IsValue;
  }

  lemma CapturedHeader(line: string)
    requires ScanHeader(line).Some?
    ensures IsValue(ScanHeader(line).value.value)
  {
    CapturedUpTo(line, |Span(NonSpace, line).head| - 1);
    hide HeaderUpTo, IsValue, Span;
  }

  lemma HostPart(v: string)
    requires IsValue(v) && Span(NotColon, v).head != ""
    ensures IsHostName(Span(NotColon, v).head)
  {
    var c := Span(NotColon, v);
    SpanIsLongest(NotColon, v);
    hide Span;
    assert c.head == v[..|c.head|];
    assert forall i :: 0 <= i < |c.head| ==> Is(AnyChar, v[i]);
  }

  lemma HeaderKeepsAddress(d: Request, h: Header)
    requires IsAddress(d.host, d.port) && IsValue(h.value) && ApplyHeader(d, h).err.None?
    ensures var r := ApplyHeader(d, h).request; IsAddress(r.host, r.port)
  {
    OneHostHeader(d, h);
    OneKnownHeader(d, h);
    if h.key == "Host" {
      assert Span(NotColon, h.value).head != "";
      HostPart(h.value);
      assert IsHostName(ApplyHeader(d, h).request.host);
    }
    PortInRange(h.value);
    hide ApplyHeader, Span, IsValue, IsHostName, PortText, LexicalCast;
  }

  lemma PortInRange(value: string)
    ensures var p := PortText(value);
            p.Some? && LexicalCast(p.value, MAX_PORT + 1).Some? ==> LexicalCast(p.value, MAX_PORT + 1).value <= MAX_PORT
  {
    hide PortText, DecimalValue, All;
  }

  lemma {:induction false} HeadersKeepAddress(d: Request, buf: string)
    requires IsAddress(d.host, d.port) && ReadHeaders(d, buf).err.None?
    ensures var r := ReadHeaders(d, buf).request; IsAddress(r.host, r.port)
    decreases |buf|
  {
    var line := GetLine(buf);
    if line.head != "" && ScanHeader(line.head).Some? {
      var h := ScanHeader(line.head).value;
      CapturedHeader(line.head);
      HeaderKeepsAddress(d, h);
      hide ApplyHeader, ScanHeader, IsAddress, IsValue, GetLine;
      HeadersKeepAddress(ApplyHeader(d, h).request, line.tail);
    }
    hide ApplyHeader, ScanHeader, IsAddress, IsValue;
  }

  lemma FinishKeepsAddress(d: Request, rest: string, maxBody: nat)
    requires d.bodyBytesRead == 0
    ensures var r := FinishHead(d, rest, maxBody).request; r.host == d.host && r.port == d.port
  {}

  lemma StartKeepsAddress(line: string)
    ensures var r := ParseStart(FRESH_REQUEST, line).request;
            r.host == "" && r.port == DEFAULT_PORT && r.bodyBytesRead == 0
  {
    hide ParseStartLine, Upper;
  }

  /** Every request that is parsed without an error has such an address. */
  lemma ParsedAddress(buf: string, maxBody: nat)
    requires ParseRequest(buf, maxBody).err.None?
    ensures var r := ParseRequest(buf, maxBody).request; IsAddress(r.host, r.port)
  {
    var line := GetLine(buf);
    var start := ParseStart(FRESH_REQUEST, line.head);
    StartKeepsAddress(line.head);
    HeadersKeepBody(start.request, line.tail);
    var head := ReadHeaders(start.request, line.tail);
    assert IsAddress("", DEFAULT_PORT);
    hide ReadHeaders, FinishHead, ParseStart, GetLine, IsAddress;
    HeadersKeepAddress(start.request, line.tail);
    FinishKeepsAddress(head.request, head.rest, maxBody);
  }

  /** For any name: the virtual host can be sent into the loop exactly when it
      answers on the server's port, a request can come to that name and port,
      and its tree is not loop-free. */
  lemma CanLoopIff(cfg: Config, name: string)
    ensures CanLoop(cfg, name) <==>
              Serves(cfg, name) && IsAddress(name, cfg.serverPort) && !LoopFree(cfg.hosts[name].root)
  {
    if CanLoop(cfg, name) {
      var bytes :| LoopsOn(cfg, name, bytes);
      ParsedAddress(bytes, cfg.maxBody);
      TerminationIffLoopFree(cfg.hosts[name].root);
    } else if Serves(cfg, name) && IsAddress(name, cfg.serverPort) && !LoopFree(cfg.hosts[name].root) {
      var path := LoopingBytes(cfg, name);
    }
    hide ParseRequest, HasBlankLine, LoopFree, Terminates, IsAddress;
  }
}
