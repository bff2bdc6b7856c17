/** The text a response grows to, as functions on values; the class in
    HttpResponse.dfy is proved against them. */
module ResponseFormat {
  import opened Chars
  import opened RequestParsing
  import opened RequestProofs
  import opened RequestPrinting
  import opened Templates
  import opened TemplateProofs

  datatype Status = Status(code: nat, description: string)

  /** Statuses as statuses.hpp spells them. */
  function StartString(s: Status): string {
    " " + (Decimal(s.code) + (" " + (s.description + "\r\n")))
  }

  function VersionText(v: Version): string {
    match v
    case UnknownVersion => "unknown"
    case Version11 => "1.1"
  }

  function StatusLine(v: Version, s: Status): string {
    (("HTTP" + "/") + VersionText(v)) + StartString(s)
  }

  /** headers_ and the buffers of a response. */
  datatype Parts = Parts(headers: string, buffers: seq<string>)

  predicate Sendable(p: Parts) {
    |p.headers| >= 2 && p.buffers != [] && p.buffers[0] == p.headers
  }

  function NewResponse(v: Version, s: Status): Parts {
    var h := StatusLine(v, s) + "\r\n";
    Parts(h, [h])
  }

  /** The new line takes the place of the final "\r\n", which comes back behind it. */
  function AddHeader(p: Parts, h: Header): Parts
    requires Sendable(p)
  {
    var text := p.headers[..|p.headers| - 2] + h.key + ": " + h.value + "\r\n" + "\r\n";
    Parts(text, p.buffers[0 := text])
  }

  function AddBody(p: Parts, data: string): Parts {
    p.(buffers := p.buffers + [data])
  }

  function ResetCookieHeader(name: string): Header {
    Header("Set-Cookie", name + "=; expires=Thu, 01 Jan 1970 00:00:01 GMT;")
  }

  datatype Call = CallAddHeader(h: Header) | CallAddBody(data: string) | CallResetCookie(name: string)

  function Perform(p: Parts, c: Call): Parts
    requires Sendable(p)
  {
    match c
    case CallAddHeader(h) => AddHeader(p, h)
    case CallAddBody(data) => AddBody(p, data)
    case CallResetCookie(name) => AddHeader(p, ResetCookieHeader(name))
  }

  lemma PerformKeepsSendable(p: Parts, c: Call)
    requires Sendable(p)
    ensures Sendable(Perform(p, c))
  {}

  function PerformAll(p: Parts, calls: seq<Call>): Parts
    requires Sendable(p)
    decreases |calls|
  {
    if calls == [] then p
    else
      PerformKeepsSendable(p, calls[0]);
      PerformAll(Perform(p, calls[0]), calls[1..])
  }

  // ----- What the buffers hold -----

  function HeadersOf(calls: seq<Call>): seq<Header> {
    if calls == [] then []
    else
      (match calls[0]
       case CallAddHeader(h) => [h]
       case CallAddBody(_) => []
       case CallResetCookie(name) => [ResetCookieHeader(name)]) + HeadersOf(calls[1..])
  }

  function BodiesOf(calls: seq<Call>): seq<string> {
    if calls == [] then []
    else (if calls[0].CallAddBody? then [calls[0].data] else []) + BodiesOf(calls[1..])
  }

  predicate Holds(p: Parts, line: string, headers: seq<Header>, bodies: seq<string>) {
    p.headers == line + PrintHeaders(headers, "\r\n") && p.buffers == [p.headers] + bodies
  }

  /** Ready to be sent at any time. */
  lemma HoldsIsSendable(p: Parts, line: string, headers: seq<Header>, bodies: seq<string>)
    requires Holds(p, line, headers, bodies)
    ensures Sendable(p)
  {
    PrintHeadersAppend(headers, "", "\r\n");
    assert "" + "\r\n" == "\r\n";
    hide PrintHeaders;
  }

  lemma {:induction false} PrintHeadersLast(headers: seq<Header>, h: Header, rest: string)
    ensures PrintHeaders(headers + [h], rest)
         == PrintHeaders(headers, "") + ((HeaderText(h) + "\r") + ("\n" + rest))
    decreases |headers|
  {
    var all := headers + [h];
    var last := (HeaderText(h) + "\r") + ("\n" + rest);
    if headers == [] {
      assert all == [h] && all[1..] == [];
      assert "" + last == last;
    } else {
      assert all[1..] == headers[1..] + [h] && all[0] == headers[0];
      PrintHeadersLast(headers[1..], h, rest);
      var line, tail := HeaderText(headers[0]) + "\r", PrintHeaders(headers[1..], "");
      Assoc(line, "\n" + tail, last);
      Assoc("\n", tail, last);
    }
  }

  lemma AddHeaderHolds(p: Parts, line: string, headers: seq<Header>, bodies: seq<string>, h: Header)
    requires Holds(p, line, headers, bodies)
    ensures Sendable(p) && Holds(AddHeader(p, h), line, headers + [h], bodies)
  {
    HoldsIsSendable(p, line, headers, bodies);
    var text := line + PrintHeaders(headers + [h], "\r\n");
    assert p.headers[..|p.headers| - 2] + AddedLine(h) == text by { HeadersGrow(p, line, headers, h); }
    AddedText(p, h);
    assert AddHeader(p, h) == Parts(text, p.buffers[0 := text]);
    assert ([p.headers] + bodies)[0 := text] == [text] + bodies;
    hide PrintHeaders, AddedLine, AddHeader;
  }

  function AddedLine(h: Header): string {
    h.key + ": " + h.value + "\r\n" + "\r\n"
  }

  lemma AddedLineText(h: Header)
    ensures (HeaderText(h) + "\r") + ("\n" + "\r\n") == AddedLine(h)
  {}

  lemma HeadersGrow(p: Parts, line: string, headers: seq<Header>, h: Header)
    requires |p.headers| >= 2 && p.headers == line + PrintHeaders(headers, "\r\n")
    ensures p.headers[..|p.headers| - 2] + AddedLine(h) == line + PrintHeaders(headers + [h], "\r\n")
  {
    var body := PrintHeaders(headers, "");
    PrintHeadersAppend(headers, "", "\r\n");
    PrintHeadersLast(headers, h, "\r\n");
    AddedLineText(h);
    hide *;
    assert "" + "\r\n" == "\r\n";
    Assoc(line, body, "\r\n");
    Assoc(line, body, AddedLine(h));
    WithoutEnd(line + body, "\r\n");
  }

  lemma WithoutEnd(a: string, b: string)
    ensures (a + b)[..|a + b| - |b|] == a
  {}

  lemma AddedText(p: Parts, h: Header)
    requires Sendable(p)
    ensures var text := p.headers[..|p.headers| - 2] + AddedLine(h);
            AddHeader(p, h) == Parts(text, p.buffers[0 := text])
  {
    var kept := p.headers[..|p.headers| - 2];
    assert kept + h.key + ": " + h.value + "\r\n" + "\r\n"
        == kept + (h.key + ": " + h.value + "\r\n" + "\r\n");
  }

  lemma AddBodyHolds(p: Parts, line: string, headers: seq<Header>, bodies: seq<string>, data: string)
    requires Holds(p, line, headers, bodies)
    ensures Holds(AddBody(p, data), line, headers, bodies + [data])
  {
    Assoc([p.headers], bodies, [data]);
    hide PrintHeaders;
  }

  lemma NewHolds(v: Version, s: Status)
    ensures Holds(NewResponse(v, s), StatusLine(v, s), [], [])
  {
    hide StatusLine;
  }

  lemma {:induction false} PerformAllHolds(
      p: Parts, line: string, headers: seq<Header>, bodies: seq<string>, calls: seq<Call>)
    requires Sendable(p) && Holds(p, line, headers, bodies)
    ensures Holds(PerformAll(p, calls), line, headers + HeadersOf(calls), bodies + BodiesOf(calls))
    decreases |calls|
  {
    if calls == [] {
      assert headers + [] == headers && bodies + [] == bodies;
    } else {
      PerformKeepsSendable(p, calls[0]);
      var p1, tail := Perform(p, calls[0]), calls[1..];
      hide PrintHeaders, AddHeader, Holds, Sendable, ResetCookieHeader;
      match calls[0]
      case CallAddBody(data) =>
        AddBodyHolds(p, line, headers, bodies, data);
        PerformAllHolds(p1, line, headers, bodies + [data], tail);
        Assoc(bodies, [data], BodiesOf(tail));
        assert [] + HeadersOf(tail) == HeadersOf(tail);
      case CallAddHeader(h) =>
        AddHeaderHolds(p, line, headers, bodies, h);
        PerformAllHolds(p1, line, headers + [h], bodies, tail);
        Assoc(headers, [h], HeadersOf(tail));
        assert [] + BodiesOf(tail) == BodiesOf(tail);
      case CallResetCookie(name) =>
        var h := ResetCookieHeader(name);
        AddHeaderHolds(p, line, headers, bodies, h);
        PerformAllHolds(p1, line, headers + [h], bodies, tail);
        Assoc(headers, [h], HeadersOf(tail));
        assert [] + BodiesOf(tail) == BodiesOf(tail);
    }
  }

  lemma HoldsOnTheWire(p: Parts, line: string, headers: seq<Header>, bodies: seq<string>)
    requires Holds(p, line, headers, bodies)
    ensures Concat(p.buffers) == line + PrintHeaders(headers, "\r\n" + Concat(bodies))
  {
    ConcatAppend([p.headers], bodies);
    OneBuffer(p.headers);
    PrintHeadersAppend(headers, "\r\n", Concat(bodies));
    Assoc(line, PrintHeaders(headers, "\r\n"), Concat(bodies));
    hide PrintHeaders, Concat;
  }

  /** Section 3 of RFC 7230: after any calls in any order the buffers hold the
      status line, the header lines in call order, one blank line and the
      bodies in call order. */
  lemma WireFormat(v: Version, s: Status, calls: seq<Call>)
    ensures Sendable(NewResponse(v, s))
    ensures Concat(PerformAll(NewResponse(v, s), calls).buffers)
         == StatusLine(v, s) + PrintHeaders(HeadersOf(calls), "\r\n" + Concat(BodiesOf(calls)))
  {
    NewHolds(v, s);
    var p := NewResponse(v, s);
    HoldsIsSendable(p, StatusLine(v, s), [], []);
    PerformAllHolds(p, StatusLine(v, s), [], [], calls);
    assert [] + HeadersOf(calls) == HeadersOf(calls) && [] + BodiesOf(calls) == BodiesOf(calls);
    hide NewResponse, Holds, Sendable, PerformAll, PrintHeaders;
    HoldsOnTheWire(PerformAll(p, calls), StatusLine(v, s), HeadersOf(calls), BodiesOf(calls));
  }

  /** What was printed behind the status line parses back: the same headers as
      multisets, and the body bytes untouched behind them. */
  lemma HeadersParseBack(d: Request, headers: seq<Header>, body: string)
    requires forall i :: 0 <= i < |headers| ==> Printable(headers[i])
    requires ApplyAll(d, headers).err.None?
    ensures var o := ReadHeaders(d, PrintHeaders(headers, "\r\n" + body));
            && o.err.None? && o.rest == body
            && o.request.parsedHeaders == d.parsedHeaders + HeaderBag(headers, true)
            && o.request.unparsedHeaders == d.unparsedHeaders + HeaderBag(headers, false)
  {
    HeadersRead(d, headers, body);
    ApplyAllBags(d, headers);
    hide PrintHeaders, ReadHeaders, ApplyAll, HeaderBag;
  }

  /** A status line splits back at its first two blanks into protocol and
      version, code and description (section 3.1.2 of RFC 7230). */
  lemma StatusLineSplits(v: Version, s: Status)
    ensures var first := Span(NonSpace, StatusLine(v, s));
            && first.head == (if v == Version11 then "HTTP/1.1" else "HTTP/unknown")
            && first.tail != "" && first.tail[0] == ' '
            && var second := Span(Digit, first.tail[1..]);
               && second.head != "" && All(Digit, second.head) && DecimalValue(second.head) == s.code
               && second.tail == " " + (s.description + "\r\n")
  {
    var protocol := ("HTTP" + "/") + VersionText(v);
    var code, rest := Decimal(s.code), " " + (s.description + "\r\n");
    assert All(NonSpace, "HTTP/1.1") && All(NonSpace, "HTTP/unknown");
    assert protocol == if v == Version11 then "HTTP/1.1" else "HTTP/unknown";
    assert StartString(s) == " " + (code + rest) && (" " + (code + rest))[1..] == code + rest;
    SpanOf(NonSpace, protocol, StartString(s));
    SpanOf(Digit, code, rest);
    hide Span, Decimal, DecimalValue, All;
  }

  // ----- Template responses -----

  /** The constructor of template_pages_only::response. */
  function TemplateParts(
      v: Version, s: Status, verb: Method, server: string, mime: string, g: Generated): Option<Parts>
  {
    if !g.ok then None
    else
      var p0 := NewResponse(v, s);
      var p1 := if server == "" then p0 else AddHeader(p0, Header("Server", server));
      var p2 := p1.(buffers := p1.buffers + g.buffers);
      var p3 := if mime == "" then p2 else AddHeader(p2, Header("Content-Type", mime));
      var p4 := AddHeader(p3, Header("Content-Length", Decimal(TotalLength(g.buffers))));
      Some(if verb == HEAD then p4.(buffers := p4.buffers[..1]) else p4)
  }

  function TemplateHeaders(server: string, mime: string, length: nat): seq<Header> {
    ((if server == "" then [] else [Header("Server", server)])
     + (if mime == "" then [] else [Header("Content-Type", mime)]))
    + [Header("Content-Length", Decimal(length))]
  }

  lemma AddBodiesHolds(p: Parts, line: string, headers: seq<Header>, bodies: seq<string>, more: seq<string>)
    requires Holds(p, line, headers, bodies)
    ensures Holds(p.(buffers := p.buffers + more), line, headers, bodies + more)
  {
    Assoc([p.headers], bodies, more);
    hide PrintHeaders;
  }

  /** Length accounting: Content-Length is the number of body bytes, and HEAD
      (section 4.3.2 of RFC 7231) has the header text of GET and no body. */
  lemma TemplateResponse(v: Version, s: Status, verb: Method, server: string, mime: string, g: Generated)
    requires g.ok
    ensures TemplateParts(v, s, verb, server, mime, g).Some?
    ensures Holds(TemplateParts(v, s, verb, server, mime, g).value, StatusLine(v, s),
                  TemplateHeaders(server, mime, |Concat(g.buffers)|), if verb == HEAD then [] else g.buffers)
  {
    var line, length := StatusLine(v, s), Header("Content-Length", Decimal(TotalLength(g.buffers)));
    ConcatLength(g.buffers);
    NewHolds(v, s);
    var p0 := NewResponse(v, s);
    var h1 := if server == "" then [] else [Header("Server", server)];
    if server != "" {
      AddHeaderHolds(p0, line, [], [], Header("Server", server));
    } else {
      HoldsIsSendable(p0, line, [], []);
    }
    var p1 := if server == "" then p0 else AddHeader(p0, Header("Server", server));
    assert Holds(p1, line, h1, []) by { assert [] + h1 == h1; }
    assert Holds(p1.(buffers := p1.buffers + g.buffers), line, h1, g.buffers) by {
      AddBodiesHolds(p1, line, h1, [], g.buffers);
      assert [] + g.buffers == g.buffers;
    }
    TypeAndLength(p1.(buffers := p1.buffers + g.buffers), line, h1, g.buffers, mime, length);
    hide NewResponse, StatusLine, Concat, Decimal, AddHeader, TotalLength, PrintHeaders, Sendable;
    if verb == HEAD {
      Truncated(TemplateParts(v, s, GET, server, mime, g).value, line,
                TemplateHeaders(server, mime, |Concat(g.buffers)|), g.buffers);
    }
  }

  lemma Truncated(p: Parts, line: string, headers: seq<Header>, bodies: seq<string>)
    requires Holds(p, line, headers, bodies)
    ensures Holds(p.(buffers := p.buffers[..1]), line, headers, [])
  {
    hide PrintHeaders;
  }

  lemma TypeAndLength(
      p: Parts, line: string, headers: seq<Header>, bodies: seq<string>, mime: string, length: Header)
    requires Holds(p, line, headers, bodies)
    ensures var h2 := if mime == "" then [] else [Header("Content-Type", mime)];
            && Sendable(p)
            && var p3 := if mime == "" then p else AddHeader(p, Header("Content-Type", mime));
               Sendable(p3) && Holds(AddHeader(p3, length), line, (headers + h2) + [length], bodies)
  {
    HoldsIsSendable(p, line, headers, bodies);
    if mime == "" {
      assert headers + [] == headers;
      AddHeaderHolds(p, line, headers, bodies, length);
    } else {
      var h := Header("Content-Type", mime);
      AddHeaderHolds(p, line, headers, bodies, h);
      AddHeaderHolds(AddHeader(p, h), line, headers + [h], bodies, length);
    }
  }

  /** From the text of a template to the bytes on the wire. */
  lemma TemplateOnTheWire(
      v: Version, s: Status, verb: Method, server: string, mime: string, text: string, vars: Variables, clock: Clock)
    requires Compile(text).Some? && AllKnown(text) && verb != HEAD
    ensures var p := TemplateParts(v, s, verb, server, mime, GenerateChunks(Compile(text).value, vars, clock, 0));
            match Substitute(text, vars, clock, 0)
            case None => p.None?
            case Some(page) =>
              p.Some? && Concat(p.value.buffers)
                == StatusLine(v, s) + PrintHeaders(TemplateHeaders(server, mime, |page|), "\r\n" + page)
  {
    CompileThenRun(text, vars, clock, 0);
    var g := GenerateChunks(Compile(text).value, vars, clock, 0);
    hide Compile, GenerateChunks, Substitute, PrintHeaders, StatusLine, TemplateHeaders;
    if g.ok {
      TemplateResponse(v, s, verb, server, mime, g);
      hide TemplateParts;
      HoldsOnTheWire(TemplateParts(v, s, verb, server, mime, g).value, StatusLine(v, s),
                     TemplateHeaders(server, mime, |Concat(g.buffers)|), g.buffers);
    }
  }

  /** The printed length reads back as the same number. */
  lemma {:induction false} LengthParsesBack(n: nat)
    ensures LexicalCast(Decimal(n), SIZE_LIMIT) == if n < SIZE_LIMIT then Some(n) else None
  {
    var s := Decimal(n);
    assert Is(Digit, s[0]);
    hide Decimal, DecimalValue;
  }
}
