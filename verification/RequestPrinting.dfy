/** Printing a request and reading it back (sections 3.1.1, 3.2 and 3.3 of
    RFC 7230). */
module RequestPrinting {
  import opened Chars
  import opened FormCoding
  import opened RequestParsing
  import opened QueryProofs
  import opened RequestProofs
  import opened RequestStability

  datatype WireRequest = WireRequest(verb: Method, uri: string, headers: seq<Header>, body: string)

  function MethodText(m: Method): (s: string)
    ensures s != "" && All(Word, s)
  {
    match m
    case UnknownMethod => "unknown"
    case GET => "GET"
    case HEAD => "HEAD"
    case POST => "POST"
    case DELETE => "DELETE"
  }

  function PrintHeaders(headers: seq<Header>, rest: string): string {
    if headers == [] then rest
    else (HeaderText(headers[0]) + "\r") + ("\n" + PrintHeaders(headers[1..], rest))
  }

  function StartOf(w: WireRequest): StartParse {
    StartParse(StartLine(MethodText(w.verb), w.uri, "HTTP", "1", "1"), " ", " ", "\r")
  }

  function Print(w: WireRequest): string {
    StartText(StartOf(w)) + ("\n" + PrintHeaders(w.headers, "\r\n" + w.body))
  }

  /** The meaning of a list of headers: one after the other. */
  function ApplyAll(d: Request, headers: seq<Header>): Filled
    decreases |headers|
  {
    if headers == [] then Filled(d, None)
    else
      var f := ApplyHeader(d, headers[0]);
      if f.err.Some? then f else ApplyAll(f.request, headers[1..])
  }

  function Started(w: WireRequest): Request {
    FRESH_REQUEST.(verb := w.verb, version := Version11, uri := w.uri)
  }

  predicate WellFormed(w: WireRequest, maxBody: nat) {
    && w.verb != UnknownMethod
    && w.uri != "" && All(NonSpace, w.uri) && w.uri[0] != '?'
    && (forall i :: 0 <= i < |w.headers| ==> Printable(w.headers[i]))
    && ApplyAll(Started(w), w.headers).err.None?
    && ApplyAll(Started(w), w.headers).request.contentLength == |w.body| <= maxBody
    && (w.body != "" ==> w.verb == POST)
  }

  /** The request the parser should rebuild: it depends on nothing but `w`. */
  function Rebuilt(w: WireRequest): Request {
    ParseUri(ApplyAll(Started(w), w.headers).request).request.(body := w.body, bodyBytesRead := |w.body|)
  }

  function HeaderBag(headers: seq<Header>, known: bool): Pairs {
    if headers == [] then multiset{}
    else
      var bag := HeaderBag(headers[1..], known);
      if IsParsedHeader(headers[0].key) == known then multiset{(headers[0].key, headers[0].value)} + bag
      else bag
  }

  lemma ApplyHeaderFrame(d: Request, h: Header)
    ensures var r := ApplyHeader(d, h).request;
            && r.verb == d.verb && r.version == d.version && r.uri == d.uri
            && r.path == d.path && r.argsMap == d.argsMap && r.argsSet == d.argsSet
            && r.body == d.body && r.bodyBytesRead == d.bodyBytesRead
  {}

  lemma {:induction false} ApplyAllFrame(d: Request, headers: seq<Header>)
    ensures var r := ApplyAll(d, headers).request;
            && r.verb == d.verb && r.version == d.version && r.uri == d.uri
            && r.path == d.path && r.argsMap == d.argsMap && r.argsSet == d.argsSet
            && r.body == d.body && r.bodyBytesRead == d.bodyBytesRead
    decreases |headers|
  {
    if headers != [] {
      ApplyHeaderFrame(d, headers[0]);
      if ApplyHeader(d, headers[0]).err.None? {
        ApplyAllFrame(ApplyHeader(d, headers[0]).request, headers[1..]);
      }
    }
  }

  lemma ApplyHeaderBags(d: Request, h: Header)
    requires ApplyHeader(d, h).err.None?
    ensures var r, one := ApplyHeader(d, h).request, multiset{(h.key, h.value)};
            && r.parsedHeaders == d.parsedHeaders + (if IsParsedHeader(h.key) then one else multiset{})
            && r.unparsedHeaders == d.unparsedHeaders + (if IsParsedHeader(h.key) then multiset{} else one)
  {}

  lemma {:induction false} ApplyAllBags(d: Request, headers: seq<Header>)
    requires ApplyAll(d, headers).err.None?
    ensures var r := ApplyAll(d, headers).request;
            && r.parsedHeaders == d.parsedHeaders + HeaderBag(headers, true)
            && r.unparsedHeaders == d.unparsedHeaders + HeaderBag(headers, false)
    decreases |headers|
  {
    if headers != [] {
      ApplyHeaderBags(d, headers[0]);
      hide ApplyHeader;
      ApplyAllBags(ApplyHeader(d, headers[0]).request, headers[1..]);
    }
  }

  /** The rebuilt request has the printed method, target, headers and body. */
  lemma RebuiltFields(w: WireRequest, maxBody: nat)
    requires WellFormed(w, maxBody)
    ensures var r := Rebuilt(w);
            && r.verb == w.verb && r.version == Version11 && r.uri == w.uri
            && r.parsedHeaders == HeaderBag(w.headers, true)
            && r.unparsedHeaders == HeaderBag(w.headers, false)
            && r.contentLength == r.bodyBytesRead == |w.body| && r.body == w.body
            && r.path <= r.uri && r.path != "" && All(PathChar, r.path)
            && (|r.path| < |r.uri| ==> r.uri[|r.path|] == '?')
            && r.argsMap == KeyValues(Items(QueryOf(w.uri))) && r.argsSet == KeyOnlys(Items(QueryOf(w.uri)))
  {
    ApplyAllFrame(Started(w), w.headers);
    ApplyAllBags(Started(w), w.headers);
    UriParses(w.uri);
    PathIsPrefix(w.uri);
    var d := ApplyAll(Started(w), w.headers).request;
    ParseUriIs(d);
    UriBags(QueryOf(w.uri));
    hide ApplyAll, HeaderBag, Span, Items, UriArgs, PairArgs, KeyArgs, KeyValues, KeyOnlys, QueryOf, All, ParseUri;
  }

  lemma ParseUriIs(d: Request)
    requires Span(PathChar, d.uri).head != "" && All(AnyChar, QueryOf(d.uri))
    ensures ParseUri(d) == Filled(d.(path := Span(PathChar, d.uri).head,
                                     argsMap := d.argsMap + PairArgs(UriArgs(QueryOf(d.uri))),
                                     argsSet := d.argsSet + KeyArgs(UriArgs(QueryOf(d.uri)))), None)
  {}

  lemma PathIsPrefix(uri: string)
    ensures var path := Span(PathChar, uri).head;
            path <= uri && All(PathChar, path) && (|path| < |uri| ==> uri[|path|] == '?')
  {
    SpanIsLongest(PathChar, uri);
  }

  function QueryOf(uri: string): string {
    var c := Span(PathChar, uri);
    if c.tail == "" then "" else c.tail[1..]
  }

  lemma UriParses(uri: string)
    requires uri != "" && All(NonSpace, uri) && uri[0] != '?'
    ensures Span(PathChar, uri).head != "" && All(AnyChar, QueryOf(uri))
  {
    SpanIsLongest(PathChar, uri);
    var c := Span(PathChar, uri);
    forall i | 0 <= i < |QueryOf(uri)|
      ensures Is(AnyChar, QueryOf(uri)[i])
    {
      assert QueryOf(uri)[i] == uri[|c.head| + 1 + i];
    }
  }

  lemma StartRead(w: WireRequest, maxBody: nat)
    requires WellFormed(w, maxBody)
    ensures ParseStart(FRESH_REQUEST, StartText(StartOf(w))) == Filled(Started(w), None)
  {
    StartLineComplete(StartOf(w));
    UpperConstants(w.verb);
    hide Upper, ParseStartLine, StartText;
  }

  lemma UpperConstants(m: Method)
    requires m != UnknownMethod
    ensures Upper("HTTP") == "HTTP" && Upper("1" + "." + "1") == "1.1"
    ensures StrToMethod(Upper(MethodText(m))) == m
  {
    assert Upper("1" + "." + "1") == "1" + "." + "1" == "1.1";
    assert Upper(MethodText(m)) == MethodText(m);
  }

  lemma StartIsOneLine(w: WireRequest, maxBody: nat)
    requires WellFormed(w, maxBody)
    ensures All(NotNewline, StartText(StartOf(w)))
  {
    OneLine(Word, MethodText(w.verb));
    OneLine(NonSpace, w.uri);
    var proto := "HTTP" + ("/" + ("1" + ("." + ("1" + "\r"))));
    assert All(NotNewline, proto);
    JoinLines(" ", proto);
    JoinLines(w.uri, " " + proto);
    JoinLines(" ", w.uri + (" " + proto));
    JoinLines(MethodText(w.verb), " " + (w.uri + (" " + proto)));
  }

  lemma OneLine(k: CharClass, s: string)
    requires All(k, s) && (k == Word || k == NonSpace || k == AnyChar)
    ensures All(NotNewline, s)
  {}

  lemma JoinLines(a: string, b: string)
    requires All(NotNewline, a) && All(NotNewline, b)
    ensures All(NotNewline, a + b)
  {}

  lemma {:induction false} HeadersRead(d: Request, headers: seq<Header>, rest: string)
    requires forall i :: 0 <= i < |headers| ==> Printable(headers[i])
    requires ApplyAll(d, headers).err.None?
    ensures ReadHeaders(d, PrintHeaders(headers, "\r\n" + rest))
         == Outcome(ApplyAll(d, headers).request, rest, None, 0)
    decreases |headers|
  {
    if headers == [] {
      assert "\r\n" + rest == "\r" + ("\n" + rest);
      LineOf("\r", rest);
      BlankLine(d, "\r");
    } else {
      var h := headers[0];
      var line, tail := HeaderText(h) + "\r", PrintHeaders(headers[1..], "\r\n" + rest);
      HeaderIsOneLine(h);
      LineOf(line, tail);
      PrintedHeaderParses(h);
      hide HeaderText, GetLine, ApplyHeader, ScanHeader;
      HeadersRead(ApplyHeader(d, h).request, headers[1..], rest);
    }
  }

  lemma HeaderIsOneLine(h: Header)
    requires Printable(h)
    ensures All(NotNewline, HeaderText(h) + "\r") && HeaderText(h) + "\r" != ""
  {
    OneLine(NonSpace, h.key);
    OneLine(AnyChar, h.value);
    JoinLines(h.key, ": ");
    JoinLines(h.key + ": ", h.value);
    JoinLines(HeaderText(h), "\r");
  }

  lemma BodyRead(d: Request, body: string, more: string)
    requires d.contentLength == |body| && d.bodyBytesRead == 0 && d.body == ZeroBytes(|body|)
    ensures ReadBody(d, body + more).request.body == body
    ensures ReadBody(d, body + more)
         == Outcome(d.(body := body, bodyBytesRead := |body|), more, None, 0)
  {
    var n := |body|;
    assert (body + more)[..n] == body && (body + more)[n..] == more;
    assert d.body[..0] + body + d.body[n..] == body;
  }

  /** Reading a printed request rebuilds it, whatever follows it. */
  lemma PrintedRequestParses(w: WireRequest, more: string, maxBody: nat)
    requires WellFormed(w, maxBody)
    ensures ParseRequest(Print(w) + more, maxBody) == Outcome(Rebuilt(w), more, None, 0)
  {
    var start, rest := StartText(StartOf(w)), w.body + more;
    PrintSplits(w, more);
    StartIsOneLine(w, maxBody);
    LineOf(start, PrintHeaders(w.headers, "\r\n" + rest));
    StartRead(w, maxBody);
    HeadersRead(Started(w), w.headers, rest);
    ApplyAllFrame(Started(w), w.headers);
    var d := ApplyAll(Started(w), w.headers).request;
    assert d.contentLength == |w.body| && d.verb == w.verb;
    UriParses(w.uri);
    hide StartText, PrintHeaders, ReadHeaders, ParseStart, GetLine, ApplyAll;
    BodyRead(ParseUri(d).request.(body := ZeroBytes(|w.body|)), w.body, more);
    assert w.body == "" ==> rest == more && d.body == "";
  }

  lemma {:induction false} PrintHeadersAppend(headers: seq<Header>, rest: string, more: string)
    ensures PrintHeaders(headers, rest) + more == PrintHeaders(headers, rest + more)
  {
    if headers != [] {
      PrintHeadersAppend(headers[1..], rest, more);
      var line, tail := HeaderText(headers[0]) + "\r", PrintHeaders(headers[1..], rest);
      Assoc(line, "\n" + tail, more);
      Assoc("\n", tail, more);
    }
  }

  lemma PrintSplits(w: WireRequest, more: string)
    ensures Print(w) + more
         == StartText(StartOf(w)) + ("\n" + PrintHeaders(w.headers, "\r\n" + (w.body + more)))
  {
    var start, hs := StartText(StartOf(w)), PrintHeaders(w.headers, "\r\n" + w.body);
    Assoc(start, "\n" + hs, more);
    Assoc("\n", hs, more);
    PrintHeadersAppend(w.headers, "\r\n" + w.body, more);
    Assoc("\r\n", w.body, more);
  }

  /** Every printed request contains CRLFCRLF, so the session reads it. */
  lemma PrintHasBlankLine(w: WireRequest)
    ensures HasBlankLine(Print(w))
  {
    var pre := BeforeBlank(StartText(StartOf(w)), w.headers, w.body);
    assert OccursAt(pre + (BLANK_LINE + w.body), BLANK_LINE, |pre|);
  }

  lemma {:induction false} BeforeBlank(line: string, headers: seq<Header>, body: string) returns (pre: string)
    requires line != "" && line[|line| - 1] == '\r'
    ensures line + ("\n" + PrintHeaders(headers, "\r\n" + body)) == pre + (BLANK_LINE + body)
    decreases |headers|
  {
    if headers == [] {
      pre := line[..|line| - 1];
      assert line == pre + "\r";
      assert "\r" + ("\n" + ("\r\n" + body)) == BLANK_LINE + body;
      Assoc(pre, "\r", "\n" + ("\r\n" + body));
    } else {
      var h := HeaderText(headers[0]) + "\r";
      var p := BeforeBlank(h, headers[1..], body);
      pre := line + ("\n" + p);
      hide PrintHeaders, HeaderText;
      Assoc("\n", p, BLANK_LINE + body);
      Assoc(line, "\n" + p, BLANK_LINE + body);
    }
  }
}
