/** What server/protocol/http/request makes of the bytes in the buffer, as
    functions on values. The class in HttpRequest.dfy is proved against them. */
module RequestParsing {
  import opened Chars
  import opened FormCoding

  datatype Method = UnknownMethod | GET | HEAD | POST | DELETE

  datatype Version = UnknownVersion | Version11

  datatype Error =
    | IncorrectStartString
    | IncorrectProtocol
    | UnsupportedVersion
    | IncorrectHeader
    | UriParseError
    | ContentLengthMustBeZero
    | BodyNotAllocated

  type Pairs = multiset<(string, string)>

  datatype Request = Request(
    keepAlive: bool,
    verb: Method,
    version: Version,
    uri: string,
    path: string,
    argsMap: Pairs,
    argsSet: multiset<string>,
    host: string,
    port: nat,
    contentLength: nat,
    cookies: map<string, string>,
    unparsedHeaders: Pairs,
    parsedHeaders: Pairs,
    body: string,
    bodyBytesRead: nat)

  const DEFAULT_PORT: nat := 80
  const MAX_PORT: nat := 65535
  const SIZE_LIMIT: nat := 0x1_0000_0000_0000_0000

  /** request::reset */
  const FRESH_REQUEST := Request(
    false, UnknownMethod, UnknownVersion, "", "", multiset{}, multiset{}, "", DEFAULT_PORT, 0,
    map[], multiset{}, multiset{}, "", 0)

  // ----- Start line -----

  datatype StartLine = StartLine(verb: string, uri: string, protocol: string, major: string, minor: string)

  function ParseStartLine(line: string): Option<StartLine> {
    var m := Span(Word, line);
    var s1 := Span(Space, m.tail);
    var u := Span(NonSpace, s1.tail);
    var s2 := Span(Space, u.tail);
    var p := Span(Word, s2.tail);
    if m.head == "" || s1.head == "" || u.head == "" || s2.head == "" || p.head == ""
       || p.tail == "" || p.tail[0] != '/' then None
    else
      var a := Span(Digit, p.tail[1..]);
      if a.head == "" || a.tail == "" || a.tail[0] != '.' then None
      else
        var b := Span(Digit, a.tail[1..]);
        if b.head == "" || !All(LineBreak, b.tail) then None
        else Some(StartLine(m.head, u.head, p.head, a.head, b.head))
  }

  function StrToMethod(s: string): Method {
    if s == "GET" then GET
    else if s == "HEAD" then HEAD
    else if s == "POST" then POST
    else if s == "DELETE" then DELETE
    else UnknownMethod
  }

  function StrToVersion(s: string): Version {
    if s == "1.1" then Version11 else UnknownVersion
  }

  /** A request as far as it was filled, and the exception that ended it. */
  datatype Filled = Filled(request: Request, err: Option<Error>)

  function ParseStart(d: Request, line: string): Filled {
    match ParseStartLine(line)
    case None => Filled(d, Some(IncorrectStartString))
    case Some(l) =>
      var d1 := d.(verb := StrToMethod(Upper(l.verb)));
      if Upper(l.protocol) != "HTTP" then Filled(d1, Some(IncorrectProtocol))
      else
        var d2 := d1.(version := StrToVersion(Upper(l.major + "." + l.minor)));
        if d2.version != Version11 then Filled(d2, Some(UnsupportedVersion))
        else Filled(d2.(uri := l.uri), None)
  }

  // ----- Headers -----

  function TrimEnd(k: CharClass, s: string): (r: string)
    ensures |r| <= |s|
  {
    if s != "" && Is(k, s[|s| - 1]) then TrimEnd(k, s[..|s| - 1]) else s
  }

  /** What `[[:space:]]*(.+)[\r\n]*$` captures behind the ':', if it matches. */
  function HeaderValue(rest: string): Option<string> {
    var body := TrimEnd(LineBreak, rest);
    var c := Span(Space, body);
    var value := if c.tail == "" && body != "" then body[|body| - 1..] else c.tail;
    if value != "" && All(AnyChar, value) then Some(value) else None
  }

  datatype Header = Header(key: string, value: string)

  /** The longest key that ends at or before `p` and leaves a value. */
  function HeaderUpTo(line: string, p: nat): Option<Header>
    requires p < |line|
  {
    if p == 0 then None
    else if line[p] == ':' && HeaderValue(line[p + 1..]).Some? then
      Some(Header(line[..p], HeaderValue(line[p + 1..]).value))
    else HeaderUpTo(line, p - 1)
  }

  function ScanHeader(line: string): Option<Header> {
    var n := |Span(NonSpace, line).head|;
    if n == 0 then None else HeaderUpTo(line, n - 1)
  }

  /** boost::lexical_cast to an unsigned type of `limit` values: an optional
      sign and digits; a minus sign wraps around. */
  function LexicalCast(s: string, limit: nat): Option<nat>
    requires limit > 0
  {
    var digits := if s != "" && (s[0] == '+' || s[0] == '-') then s[1..] else s;
    if digits == "" || !All(Digit, digits) || DecimalValue(digits) >= limit then None
    else if s[0] == '-' then Some((limit - DecimalValue(digits)) % limit)
    else Some(DecimalValue(digits))
  }

  datatype FoundCookie = FoundCookie(name: string, value: string, rest: string)

  /** `([[:alpha:]_][[:alnum:]_]*)=([[:alnum:]_]+)` at the start of `s`. */
  function MatchCookie(s: string): (r: Option<FoundCookie>)
    ensures r.Some? ==> |r.value.rest| < |s|
  {
    var n := Span(Word, s);
    var v := Span(Word, if n.tail == "" then "" else n.tail[1..]);
    if n.head == "" || Is(Digit, n.head[0]) || n.tail == "" || n.tail[0] != '=' || v.head == "" then None
    else Some(FoundCookie(n.head, v.head, v.tail))
  }

  /** The first `name=value` in `s`. */
  function FindCookie(s: string): (r: Option<FoundCookie>)
    ensures r.Some? ==> |r.value.rest| < |s|
  {
    if MatchCookie(s).Some? then MatchCookie(s)
    else if s != "" then FindCookie(s[1..])
    else None
  }

  /** All pairs the cookie expression finds, left to right. */
  function CookiePairs(s: string): seq<(string, string)>
    decreases |s|
  {
    var f := FindCookie(s);
    if f.None? then [] else [(f.value.name, f.value.value)] + CookiePairs(f.value.rest)
  }

  function AddCookie(cookies: map<string, string>, name: string, value: string): map<string, string> {
    if name in cookies then cookies else cookies[name := value]
  }

  /** unordered_map::emplace keeps the pair that was there first. */
  function AddCookies(cookies: map<string, string>, pairs: seq<(string, string)>): map<string, string>
    decreases |pairs|
  {
    if pairs == [] then cookies
    else AddCookies(AddCookie(cookies, pairs[0].0, pairs[0].1), pairs[1..])
  }

  function ApplyHost(d: Request, value: string): Filled {
    var c := Span(NotColon, value);
    if c.head == "" then Filled(d, Some(IncorrectHeader))
    else if c.tail == "" then Filled(d.(host := c.head), None)
    else
      var digits := c.tail[1..];
      if digits == "" || !All(Digit, digits) then Filled(d, Some(IncorrectHeader))
      else match LexicalCast(digits, MAX_PORT + 1)
        case None => Filled(d.(host := c.head), Some(IncorrectHeader))
        case Some(port) => Filled(d.(host := c.head, port := port), None)
  }

  predicate IsParsedHeader(key: string) {
    key == "Content-Length" || key == "Connection" || key == "Host" || key == "Cookie"
  }

  /** The function that process_header_fn_map holds for `key`. */
  function ApplyKnown(d: Request, key: string, value: string): Filled
    requires IsParsedHeader(key)
  {
    if key == "Content-Length" then
      match LexicalCast(value, SIZE_LIMIT)
      case None => Filled(d, Some(IncorrectHeader))
      case Some(n) => Filled(d.(contentLength := n), None)
    else if key == "Connection" then
      Filled(d.(keepAlive := Contains(value, "keep-alive")), None)
    else if key == "Host" then ApplyHost(d, value)
    else Filled(d.(cookies := AddCookies(d.cookies, CookiePairs(value))), None)
  }

  function ApplyHeader(d: Request, h: Header): Filled {
    if IsParsedHeader(h.key) then
      var f := ApplyKnown(d, h.key, h.value);
      if f.err.Some? then f
      else Filled(f.request.(parsedHeaders := f.request.parsedHeaders + multiset{(h.key, h.value)}), None)
    else Filled(d.(unparsedHeaders := d.unparsedHeaders + multiset{(h.key, h.value)}), None)
  }

  /** process_header_string: `more` is its result when nothing is thrown. */
  datatype HeaderStep = HeaderStep(filled: Filled, more: bool)

  function ParseHeader(d: Request, line: string): HeaderStep {
    match ScanHeader(line)
    case None =>
      HeaderStep(Filled(d, if All(Space, line) then None else Some(IncorrectHeader)), false)
    case Some(h) => HeaderStep(ApplyHeader(d, h), true)
  }

  // ----- The stream -----

  /** std::getline: the line without its '\n', and what is left. */
  function GetLine(buf: string): (c: Cut)
    ensures buf != "" ==> |c.tail| < |buf|
    ensures buf == "" ==> c == Cut("", "")
  {
    var c := Span(NotNewline, buf);
    Cut(c.head, if c.tail == "" then "" else c.tail[1..])
  }

  datatype Outcome = Outcome(request: Request, rest: string, err: Option<Error>, required: nat)

  /** The header loop, up to the first blank line, error or end of the buffer. */
  function ReadHeaders(d: Request, buf: string): Outcome
    decreases |buf|
  {
    var line := GetLine(buf);
    if line.head == "" then Outcome(d, line.tail, None, 0)
    else
      var step := ParseHeader(d, line.head);
      if step.filled.err.Some? then Outcome(step.filled.request, line.tail, step.filled.err, 0)
      else if step.more then ReadHeaders(step.filled.request, line.tail)
      else Outcome(step.filled.request, line.tail, None, 0)
  }

  /** The groups [3], [4] and [5] of a match of args_regex, and what follows. */
  datatype ArgGroups = ArgGroups(key: string, value: string, keyOnly: string, rest: string)

  /** Backtracking over `([^&?]+)=`: the longest key of at most `n` characters
      that '=' follows, 0 when there is none. */
  function KeyLength(s: string, n: nat): (k: nat)
    requires n <= |s|
    ensures k <= n && (k > 0 ==> k < |s| && s[k] == '=')
  {
    if n == 0 then 0
    else if n < |s| && s[n] == '=' then n
    else KeyLength(s, n - 1)
  }

  /** args_regex at the start of `s`. */
  function MatchUriArg(s: string): (r: Option<ArgGroups>)
    ensures r.Some? ==> |r.value.rest| < |s|
  {
    var body := if s != "" && IsSeparator(s[0]) then s[1..] else s;
    var run := Span(Segment, body);
    if run.head == "" then None
    else
      var k := KeyLength(body, |run.head|);
      if k == 0 then Some(ArgGroups("", "", run.head, run.tail))
      else
        var value := Span(Segment, body[k + 1..]);
        Some(ArgGroups(body[..k], value.head, "", value.tail))
  }

  function FindUriArg(s: string): (r: Option<ArgGroups>)
    ensures r.Some? ==> |r.value.rest| < |s|
  {
    if MatchUriArg(s).Some? then MatchUriArg(s)
    else if s != "" then FindUriArg(s[1..])
    else None
  }

  /** All matches, left to right. */
  function UriArgs(s: string): seq<ArgGroups>
    decreases |s|
  {
    var f := FindUriArg(s);
    if f.None? then [] else [f.value] + UriArgs(f.value.rest)
  }

  /** args_map gets the matches whose group [3] is not empty. */
  function PairArgs(groups: seq<ArgGroups>): Pairs {
    if groups == [] then multiset{}
    else if groups[0].key == "" then PairArgs(groups[1..])
    else multiset{(groups[0].key, groups[0].value)} + PairArgs(groups[1..])
  }

  /** args_set gets the others. */
  function KeyArgs(groups: seq<ArgGroups>): multiset<string> {
    if groups == [] then multiset{}
    else if groups[0].key == "" then multiset{groups[0].keyOnly} + KeyArgs(groups[1..])
    else KeyArgs(groups[1..])
  }

  lemma NoArgs()
    ensures PairArgs(UriArgs("")) == multiset{} && KeyArgs(UriArgs("")) == multiset{}
  {}

  function ParseUri(d: Request): Filled {
    var c := Span(PathChar, d.uri);
    var args := if c.tail == "" then "" else c.tail[1..];
    if c.head == "" || !All(AnyChar, args) then Filled(d, Some(UriParseError))
    else Filled(d.(path := c.head,
                   argsMap := d.argsMap + PairArgs(UriArgs(args)),
                   argsSet := d.argsSet + KeyArgs(UriArgs(args))), None)
  }

  predicate BodyOk(d: Request) {
    d.bodyBytesRead <= d.contentLength == |d.body|
  }

  /** process_stream_again */
  function ReadBody(d: Request, buf: string): Outcome
    requires BodyOk(d)
  {
    var n := d.contentLength - d.bodyBytesRead;
    if n == 0 then Outcome(d, buf, None, 0)
    else
      var k := if n <= |buf| then n else |buf|;
      var read := d.bodyBytesRead;
      Outcome(d.(body := d.body[..read] + buf[..k] + d.body[read + k..], bodyBytesRead := read + k),
              buf[k..], None, n - k)
  }

  function ZeroBytes(n: nat): string {
    seq(n, _ => '\0')
  }

  /** process_stream behind the header loop; `maxBody` is the largest body that
      std::vector can be resized to. */
  function FinishHead(d: Request, rest: string, maxBody: nat): Outcome
    requires d.bodyBytesRead == 0
  {
    var f := ParseUri(d);
    if f.err.Some? then Outcome(f.request, rest, f.err, 0)
    else if f.request.contentLength == 0 then Outcome(f.request, rest, None, 0)
    else if f.request.verb != POST then Outcome(f.request, rest, Some(ContentLengthMustBeZero), 0)
    else if f.request.contentLength > maxBody then Outcome(f.request, rest, Some(BodyNotAllocated), 0)
    else ReadBody(f.request.(body := ZeroBytes(f.request.contentLength)), rest)
  }

  /** process_stream */
  function ParseRequest(buf: string, maxBody: nat): Outcome {
    var line := GetLine(buf);
    var start := ParseStart(FRESH_REQUEST, line.head);
    if start.err.Some? then Outcome(start.request, line.tail, start.err, 0)
    else
      var head := ReadHeaders(start.request, line.tail);
      if head.err.Some? then head
      else
        assert head.request.bodyBytesRead == 0 by { HeadersKeepBody(start.request, line.tail); }
        FinishHead(head.request, head.rest, maxBody)
  }

  lemma ApplyHeaderKeepsBody(d: Request, h: Header)
    ensures var r := ApplyHeader(d, h).request; r.bodyBytesRead == d.bodyBytesRead && r.body == d.body
  {}

  lemma {:induction false} HeadersKeepBody(d: Request, buf: string)
    ensures var r := ReadHeaders(d, buf).request; r.bodyBytesRead == d.bodyBytesRead && r.body == d.body
    decreases |buf|
  {
    var line := GetLine(buf);
    if line.head != "" {
      var h := ScanHeader(line.head);
      if h.Some? {
        ApplyHeaderKeepsBody(d, h.value);
      }
      var step := ParseHeader(d, line.head);
      if step.filled.err.None? && step.more {
        HeadersKeepBody(step.filled.request, line.tail);
      }
    }
  }
}
