/** Which requests the parser refuses, and why, in terms of their bytes. */
module RequestVerdicts {
  import opened Chars
  import opened RequestParsing
  import opened RequestProofs
  import opened RequestPrinting
  import opened HeaderValues

  // ----- The start line -----

  /** `s` is the word `t`, in any case; `t` is in capitals. */
  predicate IsWord(s: string, t: string) {
    && |s| == |t|
    && (forall i :: 0 <= i < |s| ==>
          s[i] == t[i] || ('A' <= t[i] <= 'Z' && s[i] as int == t[i] as int + 32))
  }

  predicate InCapitals(t: string) {
    forall i :: 0 <= i < |t| ==> !('a' <= t[i] <= 'z')
  }

  lemma UpperIsWord(s: string, t: string)
    requires InCapitals(t)
    ensures Upper(s) == t <==> IsWord(s, t)
  {
    if Upper(s) == t {
      forall i | 0 <= i < |s|
        ensures s[i] == t[i] || ('A' <= t[i] <= 'Z' && s[i] as int == t[i] as int + 32)
      {
        assert Upper(s)[i] == UpperChar(s[i]);
      }
    }
    if IsWord(s, t) {
      forall i | 0 <= i < |s|
        ensures Upper(s)[i] == t[i]
      {
        assert Upper(s)[i] == UpperChar(s[i]);
      }
    }
  }

  /** The start-line expression matches `line` with the groups `l`. */
  ghost predicate IsStart(line: string, l: StartLine) {
    exists m :: IsStartParse(m) && StartText(m) == line && m.line == l
  }

  lemma StartIff(line: string, l: StartLine)
    ensures IsStart(line, l) <==> ParseStartLine(line) == Some(l)
  {
    if IsStart(line, l) {
      var m :| IsStartParse(m) && StartText(m) == line && m.line == l;
      StartLineComplete(m);
    }
    if ParseStartLine(line) == Some(l) {
      var m := StartLineSound(line);
    }
    hide ParseStartLine, StartText, IsStartParse;
  }

  predicate IsVersion11(l: StartLine) {
    l.major == "1" && l.minor == "1"
  }

  lemma VersionIs11(l: StartLine)
    requires All(Digit, l.major) && All(Digit, l.minor)
    ensures StrToVersion(Upper(l.major + "." + l.minor)) == Version11 <==> IsVersion11(l)
  {
    var v := l.major + "." + l.minor;
    forall i | 0 <= i < |v|
      ensures UpperChar(v[i]) == v[i]
    {
      assert i < |l.major| ==> v[i] == l.major[i] && Is(Digit, l.major[i]);
      assert i > |l.major| ==> v[i] == l.minor[i - |l.major| - 1] && Is(Digit, l.minor[i - |l.major| - 1]);
    }
    assert Upper(v) == v;
    if v == "1.1" {
      assert v[|l.major|] == '.';
      assert l.major == v[..1] && l.minor == v[2..];
    }
  }

  lemma MethodIs(verb: string)
    ensures var m := StrToMethod(Upper(verb));
            && (m == GET <==> IsWord(verb, "GET")) && (m == HEAD <==> IsWord(verb, "HEAD"))
            && (m == POST <==> IsWord(verb, "POST")) && (m == DELETE <==> IsWord(verb, "DELETE"))
  {
    UpperIsWord(verb, "GET");
    UpperIsWord(verb, "HEAD");
    UpperIsWord(verb, "POST");
    UpperIsWord(verb, "DELETE");
    hide Upper, IsWord;
  }

  /** What the start line comes to, by the groups of its expression. */
  lemma StartLineVerdict(line: string, l: StartLine)
    requires IsStart(line, l)
    ensures var f := ParseStart(FRESH_REQUEST, line);
            && f.err == (if !IsWord(l.protocol, "HTTP") then Some(IncorrectProtocol)
                         else if !IsVersion11(l) then Some(UnsupportedVersion) else None)
            && (f.request.verb == GET <==> IsWord(l.verb, "GET"))
            && (f.request.verb == HEAD <==> IsWord(l.verb, "HEAD"))
            && (f.request.verb == POST <==> IsWord(l.verb, "POST"))
            && (f.request.verb == DELETE <==> IsWord(l.verb, "DELETE"))
            && (f.request.version == Version11 <==> f.err == None)
            && f.request == FRESH_REQUEST.(verb := f.request.verb, version := f.request.version,
                                           uri := if f.err == None then l.uri else "")
  {
    StartIff(line, l);
    var m := StartLineSound(line);
    UpperIsWord(l.protocol, "HTTP");
    VersionIs11(l);
    MethodIs(l.verb);
    hide ParseStartLine, Upper, IsWord, StrToMethod, StrToVersion, IsVersion11, All;
  }

  lemma NoStartLine(line: string)
    requires forall l :: !IsStart(line, l)
    ensures ParseStart(FRESH_REQUEST, line) == Filled(FRESH_REQUEST, Some(IncorrectStartString))
  {
    if ParseStartLine(line).Some? {
      StartIff(line, ParseStartLine(line).value);
    }
    hide ParseStartLine, IsStart;
  }

  // ----- The headers -----

  /** A way to read `v` as digits below `limit`, with or without a sign. */
  predicate IsSigned(v: string, sign: string, digits: string, limit: nat) {
    && v == sign + digits && (sign == "" || sign == "+" || sign == "-")
    && digits != "" && All(Digit, digits) && DecimalValue(digits) < limit
  }

  /** What lexical_cast takes for the number `n`: a minus counts down from
      `limit`. */
  ghost predicate IsNumber(v: string, limit: nat, n: nat) {
    exists sign, digits ::
      && IsSigned(v, sign, digits, limit)
      && n == (if sign == "-" && DecimalValue(digits) > 0 then limit - DecimalValue(digits) else DecimalValue(digits))
  }

  lemma SignedCast(v: string, sign: string, digits: string, limit: nat)
    requires limit > 0 && IsSigned(v, sign, digits, limit)
    ensures LexicalCast(v, limit)
         == Some(if sign == "-" && DecimalValue(digits) > 0 then limit - DecimalValue(digits) else DecimalValue(digits))
  {
    CountsDown(limit, DecimalValue(digits));
    if sign == "" {
      assert v == digits && Is(Digit, v[0]);
    } else {
      assert v[0] == sign[0] && v[1..] == digits;
    }
    hide DecimalValue, All, Is;
  }

  lemma CountsDown(limit: nat, n: nat)
    requires n < limit
    ensures (limit - n) % limit == if n > 0 then limit - n else 0
  {}

  lemma CastIsSigned(v: string, limit: nat)
    requires limit > 0 && LexicalCast(v, limit).Some?
    ensures var sign := if v[0] == '+' || v[0] == '-' then v[..1] else ""; IsSigned(v, sign, v[|sign|..], limit)
  {
    var sign := if v[0] == '+' || v[0] == '-' then v[..1] else "";
    assert v == sign + v[|sign|..];
    assert sign == "" ==> v[0..] == v;
    hide DecimalValue, All;
  }

  lemma NumberIff(v: string, limit: nat, n: nat)
    requires limit > 0
    ensures IsNumber(v, limit, n) <==> LexicalCast(v, limit) == Some(n)
  {
    if IsNumber(v, limit, n) {
      var sign, digits :|
        && IsSigned(v, sign, digits, limit)
        && n == (if sign == "-" && DecimalValue(digits) > 0 then limit - DecimalValue(digits)
                 else DecimalValue(digits));
      SignedCast(v, sign, digits, limit);
    }
    if LexicalCast(v, limit) == Some(n) {
      CastIsSigned(v, limit);
      var sign := if v[0] == '+' || v[0] == '-' then v[..1] else "";
      SignedCast(v, sign, v[|sign|..], limit);
    }
    hide DecimalValue, LexicalCast, IsSigned;
  }

  /** A Host value with a host, and a port in range if there is one. */
  ghost predicate IsHostOk(v: string) {
    exists m :: IsHostParse(m) && HostText(m) == v && (m.port.Some? ==> DecimalValue(m.port.value) <= 65535)
  }

  /** A header that process_header_string throws on. */
  ghost predicate BadHeader(h: Header) {
    || (h.key == "Content-Length" && forall n: nat :: !IsNumber(h.value, 0x1_0000_0000_0000_0000, n))
    || (h.key == "Host" && !IsHostOk(h.value))
  }

  lemma HostOkIff(d: Request, v: string)
    ensures IsHostOk(v) <==> ApplyHost(d, v).err.None?
  {
    if m :| IsHostParse(m) && HostText(m) == v {
      HostMatches(d, m);
      forall m1 | IsHostParse(m1) && HostText(m1) == v
        ensures ApplyHost(d, v).err.None? <==> (m1.port.Some? ==> DecimalValue(m1.port.value) <= 65535)
      {
        HostMatches(d, m1);
      }
    } else {
      HostFails(d, v);
    }
    hide ApplyHost, IsHostParse, HostText, DecimalValue;
  }

  lemma BadHeaderIff(d: Request, h: Header)
    ensures BadHeader(h) <==> ApplyHeader(d, h).err.Some?
  {
    if h.key == "Content-Length" {
      forall n: nat
        ensures IsNumber(h.value, SIZE_LIMIT, n) <==> LexicalCast(h.value, SIZE_LIMIT) == Some(n)
      {
        NumberIff(h.value, SIZE_LIMIT, n);
      }
      hide IsNumber, LexicalCast, ApplyHost, Contains, AddCookies, CookiePairs;
    } else {
      HostOkIff(d, h.value);
      hide IsNumber, LexicalCast, ApplyHost, IsHostOk, Contains, AddCookies, CookiePairs;
    }
  }

  /** The headers up to the first line that is none. */
  function HeadHeaders(buf: string): seq<Header>
    decreases |buf|
  {
    var line := GetLine(buf);
    if line.head == "" || ScanHeader(line.head).None? then []
    else [ScanHeader(line.head).value] + HeadHeaders(line.tail)
  }

  /** Before the head ends, at an empty line or one of white space, there is a
      line that is no header, or a bad one. */
  ghost predicate HeadFails(buf: string)
    decreases |buf|
  {
    var line := GetLine(buf);
    && line.head != "" && !All(Space, line.head)
    && (|| (forall m :: !IsHeaderParse(line.head, m))
        || (ScanHeader(line.head).Some? && BadHeader(ScanHeader(line.head).value))
        || HeadFails(line.tail))
  }

  lemma HeaderIff(line: string)
    ensures (exists m :: IsHeaderParse(line, m)) <==> ScanHeader(line).Some?
    ensures All(Space, line) ==> ScanHeader(line).None?
  {
    if ScanHeader(line).Some? {
      var m := HeaderSound(line);
    }
    if m :| IsHeaderParse(line, m) {
      HeaderPreferred(line, m);
    }
    if All(Space, line) {
      BlankLine(FRESH_REQUEST, line);
    }
    hide ScanHeader, IsHeaderParse;
  }

  lemma HeadersStep(d: Request, buf: string)
    requires GetLine(buf).head != "" && ScanHeader(GetLine(buf).head).Some?
    ensures var line := GetLine(buf);
            var f := ApplyHeader(d, ScanHeader(line.head).value);
            ReadHeaders(d, buf) == if f.err.Some? then Outcome(f.request, line.tail, f.err, 0)
                                   else ReadHeaders(f.request, line.tail)
  {
    hide ApplyHeader, ScanHeader, GetLine;
  }

  lemma HeadersEnd(d: Request, buf: string)
    requires GetLine(buf).head == "" || ScanHeader(GetLine(buf).head).None?
    ensures var line := GetLine(buf);
            ReadHeaders(d, buf) == Outcome(
              d, line.tail, if All(Space, line.head) then None else Some(IncorrectHeader), 0)
  {
    hide ScanHeader, GetLine;
  }

  lemma HeaderErrorIs(d: Request, h: Header)
    requires ApplyHeader(d, h).err.Some?
    ensures ApplyHeader(d, h).err == Some(IncorrectHeader)
  {
    hide Contains, AddCookies, CookiePairs, Span, LexicalCast;
  }

  /** The head is an error exactly when it fails; else it does what its headers
      do, one after the other. */
  lemma {:induction false} HeadVerdict(d: Request, buf: string)
    ensures var o := ReadHeaders(d, buf);
            && o.err == (if HeadFails(buf) then Some(IncorrectHeader) else None)
            && (!HeadFails(buf) ==> ApplyAll(d, HeadHeaders(buf)) == Filled(o.request, None))
    decreases |buf|
  {
    var line := GetLine(buf);
    HeaderIff(line.head);
    if line.head == "" || ScanHeader(line.head).None? {
      HeadersEnd(d, buf);
      hide ScanHeader, GetLine, ReadHeaders, IsHeaderParse, All, BadHeader, ApplyHeader;
    } else {
      var h := ScanHeader(line.head).value;
      HeadersStep(d, buf);
      BadHeaderIff(d, h);
      if ApplyHeader(d, h).err.Some? {
        HeaderErrorIs(d, h);
      } else {
        HeadVerdict(ApplyHeader(d, h).request, line.tail);
        assert ([h] + HeadHeaders(line.tail))[1..] == HeadHeaders(line.tail);
      }
      hide ScanHeader, GetLine, ReadHeaders, IsHeaderParse, All, BadHeader, ApplyHeader;
    }
  }

  // ----- The whole request -----

  /** The body length that the headers announce. */
  ghost predicate HasLength(headers: seq<Header>, n: nat) {
    match LastValue(headers, "Content-Length")
    case None => n == 0
    case Some(v) => IsNumber(v, 0x1_0000_0000_0000_0000, n)
  }

  ghost predicate HasAddress(headers: seq<Header>, host: string, port: nat) {
    && host == (match LastValue(headers, "Host") case None => "" case Some(v) => Span(NotColon, v).head)
    && (match LastPort(headers) case None => port == 80 case Some(digits) => IsNumber(digits, 65536, port))
  }

  /** A start line and headers without a fault: HTTP/1.1 and a target with a
      path, a body only behind POST, and one that can be held in memory. */
  ghost predicate IsGoodHead(s: string, maxBody: nat, l: StartLine, n: nat) {
    && IsStart(GetLine(s).head, l) && IsWord(l.protocol, "HTTP") && IsVersion11(l)
    && !HeadFails(GetLine(s).tail) && l.uri[0] != '?'
    && HasLength(HeadHeaders(GetLine(s).tail), n)
    && (n > 0 ==> IsWord(l.verb, "POST") && n <= maxBody)
  }

  lemma FinishVerdict(d: Request, rest: string, maxBody: nat)
    requires d.bodyBytesRead == 0 && d.uri != "" && All(NonSpace, d.uri)
    ensures var o := FinishHead(d, rest, maxBody);
            && o.err == (if d.uri[0] == '?' then Some(UriParseError)
                         else if d.contentLength == 0 then None
                         else if d.verb != POST then Some(ContentLengthMustBeZero)
                         else if d.contentLength > maxBody then Some(BodyNotAllocated)
                         else None)
            && (o.err.Some? ==> o.required == 0)
            && o.request.verb == d.verb && o.request.version == d.version
            && o.request.host == d.host && o.request.port == d.port
            && o.request.keepAlive == d.keepAlive && o.request.cookies == d.cookies
  {
    if d.uri[0] != '?' {
      UriParses(d.uri);
      ParseUriIs(d);
    } else {
      assert Span(PathChar, d.uri).head == "";
    }
    hide Span, UriArgs, All;
  }

  lemma HeadEffects(d: Request, headers: seq<Header>)
    requires ApplyAll(d, headers).err.None? && d.host == "" && d.port == DEFAULT_PORT && d.contentLength == 0
    ensures var r := ApplyAll(d, headers).request;
            && HasLength(headers, r.contentLength) && HasAddress(headers, r.host, r.port)
            && r.verb == d.verb && r.version == d.version && r.uri == d.uri && r.bodyBytesRead == d.bodyBytesRead
  {
    var r := ApplyAll(d, headers).request;
    LastHeaderCounts(d, headers);
    LastPortCounts(d, headers);
    ApplyAllFrame(d, headers);
    var v, p := LastValue(headers, "Content-Length"), LastPort(headers);
    if v.Some? {
      NumberIff(v.value, SIZE_LIMIT, r.contentLength);
    }
    if p.Some? {
      NumberIff(p.value, MAX_PORT + 1, r.port);
    }
    hide ApplyAll, LastValue, LastPort, IsNumber, LexicalCast, Span;
  }

  lemma LengthUnique(headers: seq<Header>, n: nat, m: nat)
    requires HasLength(headers, n) && HasLength(headers, m)
    ensures n == m
  {
    var v := LastValue(headers, "Content-Length");
    if v.Some? {
      NumberIff(v.value, SIZE_LIMIT, n);
      NumberIff(v.value, SIZE_LIMIT, m);
    }
    hide LastValue, IsNumber, LexicalCast;
  }

  lemma StartHasUri(line: string, l: StartLine)
    requires IsStart(line, l)
    ensures l.uri != "" && All(NonSpace, l.uri)
  {}

  lemma ParseSplits(s: string, maxBody: nat)
    ensures var start := ParseStart(FRESH_REQUEST, GetLine(s).head);
            var head := ReadHeaders(start.request, GetLine(s).tail);
            && (start.err.Some? ==> ParseRequest(s, maxBody) == Outcome(start.request, GetLine(s).tail, start.err, 0))
            && (start.err.None? && head.err.Some? ==> ParseRequest(s, maxBody) == head)
            && (start.err.None? && head.err.None? ==>
                  head.request.bodyBytesRead == 0
                  && ParseRequest(s, maxBody) == FinishHead(head.request, head.rest, maxBody))
  {
    var start := ParseStart(FRESH_REQUEST, GetLine(s).head);
    assert start.request.bodyBytesRead == 0;
    HeadersKeepBody(start.request, GetLine(s).tail);
    hide ReadHeaders, FinishHead, ParseStart, GetLine;
  }

  /** Every way the parser refuses a request with a start line, in the order in
      which it looks. */
  lemma RequestVerdict(s: string, maxBody: nat, l: StartLine, n: nat)
    requires IsStart(GetLine(s).head, l)
    requires !HeadFails(GetLine(s).tail) ==> HasLength(HeadHeaders(GetLine(s).tail), n)
    ensures ParseRequest(s, maxBody).err ==
      if !IsWord(l.protocol, "HTTP") then Some(IncorrectProtocol)
      else if !IsVersion11(l) then Some(UnsupportedVersion)
      else if HeadFails(GetLine(s).tail) then Some(IncorrectHeader)
      else if l.uri[0] == '?' then Some(UriParseError)
      else if n == 0 then None
      else if !IsWord(l.verb, "POST") then Some(ContentLengthMustBeZero)
      else if n > maxBody then Some(BodyNotAllocated)
      else None
    ensures var r := ParseRequest(s, maxBody).request;
      ParseRequest(s, maxBody).err.None? ==> HasAddress(HeadHeaders(GetLine(s).tail), r.host, r.port)
  {
    var line := GetLine(s);
    var start := ParseStart(FRESH_REQUEST, line.head);
    StartLineVerdict(line.head, l);
    StartHasUri(line.head, l);
    ParseSplits(s, maxBody);
    HeadVerdict(start.request, line.tail);
    if start.err.None? && !HeadFails(line.tail) {
      var hs := HeadHeaders(line.tail);
      var head := ReadHeaders(start.request, line.tail);
      assert ApplyAll(start.request, hs) == Filled(head.request, None);
      HeadEffects(start.request, hs);
      LengthUnique(hs, n, head.request.contentLength);
      hide ApplyAll, ReadHeaders, FinishHead, ParseStart, GetLine, IsWord, IsStart, HeadFails, HasLength, HasAddress;
      FinishVerdict(head.request, head.rest, maxBody);
    }
    hide ApplyAll, ReadHeaders, FinishHead, ParseStart, GetLine, IsWord, IsStart, HeadFails, HasLength, HasAddress;
  }

  lemma NoStartVerdict(s: string, maxBody: nat)
    requires forall l :: !IsStart(GetLine(s).head, l)
    ensures ParseRequest(s, maxBody) == Outcome(FRESH_REQUEST, GetLine(s).tail, Some(IncorrectStartString), 0)
  {
    NoStartLine(GetLine(s).head);
    ParseSplits(s, maxBody);
    hide ParseStart, GetLine, ReadHeaders, FinishHead, IsStart;
  }
}
