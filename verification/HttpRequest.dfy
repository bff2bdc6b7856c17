/** server::protocol::http::request: the object whose fields the parser fills
    while it consumes the stream. */
module HttpRequest {
  import opened Chars
  import opened RequestParsing

  /** std::istream over the session's stream buffer. */
  class InputStream {
    var data: string

    constructor (bytes: string)
      ensures data == bytes
    {
      data := bytes;
    }

    /** std::getline */
    method ReadLine() returns (line: string, ok: bool)
      modifies this
      ensures Cut(line, data) == GetLine(old(data))
      ensures ok <==> old(data) != ""
    {
      ok := data != "";
      var c := GetLine(data);
      line, data := c.head, c.tail;
    }

    /** std::istream::readsome: never more than what is buffered. */
    method ReadSome(n: nat) returns (bytes: string)
      modifies this
      ensures bytes == old(data)[..if n <= |old(data)| then n else |old(data)|]
      ensures data == old(data)[|bytes|..]
    {
      var k := if n <= |data| then n else |data|;
      bytes := data[..k];
      data := data[k..];
    }
  }

  class HttpRequest {
    var keepAlive: bool
    var verb: Method
    var version: Version
    var uri: string
    var path: string
    var argsMap: Pairs
    var argsSet: multiset<string>
    var host: string
    var port: nat
    var contentLength: nat
    var cookies: map<string, string>
    var unparsedHeaders: Pairs
    var parsedHeaders: Pairs
    var body: string
    var bodyBytesRead: nat

    function Data(): Request
      reads this
    {
      Request(keepAlive, verb, version, uri, path, argsMap, argsSet, host, port, contentLength,
              cookies, unparsedHeaders, parsedHeaders, body, bodyBytesRead)
    }

    constructor ()
      ensures Data() == FRESH_REQUEST
    {
      keepAlive := false;
      verb, version := UnknownMethod, UnknownVersion;
      uri, path, argsMap, argsSet := "", "", multiset{}, multiset{};
      host, port, contentLength := "", DEFAULT_PORT, 0;
      cookies, unparsedHeaders, parsedHeaders := map[], multiset{}, multiset{};
      body, bodyBytesRead := "", 0;
    }

    method Reset()
      modifies this
      ensures Data() == FRESH_REQUEST
    {
      ResetProtocol();
      ResetHeaders();
      body := "";
      bodyBytesRead := 0;
    }

    /** The base class part, protocol info and URI. */
    method ResetProtocol()
      modifies `keepAlive, `verb, `version, `uri, `path, `argsMap, `argsSet
      ensures !keepAlive && verb == UnknownMethod && version == UnknownVersion
      ensures uri == path == "" && argsMap == multiset{} && argsSet == multiset{}
    {
      keepAlive := false;
      verb := UnknownMethod;
      version := UnknownVersion;
      uri := "";
      path := "";
      argsMap := multiset{};
      argsSet := multiset{};
    }

    method ResetHeaders()
      modifies `host, `port, `contentLength, `cookies, `parsedHeaders, `unparsedHeaders
      ensures host == "" && port == DEFAULT_PORT && contentLength == 0 && cookies == map[]
      ensures parsedHeaders == multiset{} && unparsedHeaders == multiset{}
    {
      host := "";
      port := DEFAULT_PORT;
      contentLength := 0;
      cookies := map[];
      parsedHeaders := multiset{};
      unparsedHeaders := multiset{};
    }

    method ProcessStartString(str: string) returns (err: Option<Error>)
      modifies this
      ensures Filled(Data(), err) == ParseStart(old(Data()), str)
    {
      hide ParseStartLine, Upper, StrToMethod, StrToVersion;
      var m := ParseStartLine(str);
      if m.None? {
        return Some(IncorrectStartString);
      }
      verb := StrToMethod(Upper(m.value.verb));
      if Upper(m.value.protocol) != "HTTP" {
        return Some(IncorrectProtocol);
      }
      version := StrToVersion(Upper(m.value.major + "." + m.value.minor));
      if version != Version11 {
        return Some(UnsupportedVersion);
      }
      uri := m.value.uri;
      return None;
    }

    method ProcessHeaderHost(value: string) returns (err: Option<Error>)
      modifies this
      ensures Filled(Data(), err) == ApplyHost(old(Data()), value)
    {
      var c := Span(NotColon, value);
      if c.head == "" || (c.tail != "" && (c.tail[1..] == "" || !All(Digit, c.tail[1..]))) {
        return Some(IncorrectHeader);
      }
      host := c.head;
      if c.tail != "" {
        var p := LexicalCast(c.tail[1..], MAX_PORT + 1);
        if p.None? {
          return Some(IncorrectHeader);
        }
        port := p.value;
      }
      return None;
    }

    method ProcessHeaderCookie(value: string)
      modifies this
      ensures Data() == old(Data()).(cookies := AddCookies(old(cookies), CookiePairs(value)))
    {
      var it := FindCookie(value);
      ghost var rest := value;
      while it.Some?
        invariant it == FindCookie(rest)
        invariant AddCookies(cookies, CookiePairs(rest)) == AddCookies(old(cookies), CookiePairs(value))
        invariant Data() == old(Data()).(cookies := cookies)
        decreases |rest|
      {
        cookies := AddCookie(cookies, it.value.name, it.value.value);
        rest := it.value.rest;
        it := FindCookie(it.value.rest);
      }
    }

    method ProcessKnownHeader(header: string, value: string) returns (err: Option<Error>)
      requires IsParsedHeader(header)
      modifies this
      ensures Filled(Data(), err) == ApplyKnown(old(Data()), header, value)
    {
      err := None;
      if header == "Content-Length" {
        var n := LexicalCast(value, SIZE_LIMIT);
        if n.None? {
          return Some(IncorrectHeader);
        }
        contentLength := n.value;
      } else if header == "Connection" {
        keepAlive := FindText(value, "keep-alive");
      } else if header == "Host" {
        err := ProcessHeaderHost(value);
      } else {
        ProcessHeaderCookie(value);
      }
    }

    method ProcessHeaderString(str: string) returns (more: bool, err: Option<Error>)
      modifies this
      ensures HeaderStep(Filled(Data(), err), more) == ParseHeader(old(Data()), str)
    {
      var m := ScanHeader(str);
      if m.None? {
        return false, if All(Space, str) then None else Some(IncorrectHeader);
      }
      var header, value := m.value.key, m.value.value;
      if !IsParsedHeader(header) {
        unparsedHeaders := unparsedHeaders + multiset{(header, value)};
      } else {
        err := ProcessKnownHeader(header, value);
        if err.Some? {
          return true, err;
        }
        parsedHeaders := parsedHeaders + multiset{(header, value)};
      }
      return true, None;
    }

    method ProcessUri() returns (err: Option<Error>)
      modifies this
      ensures Filled(Data(), err) == ParseUri(old(Data()))
    {
      NoArgs();
      hide Span, UriArgs, PairArgs, KeyArgs, All;
      var c := Span(PathChar, uri);
      var args := if c.tail == "" then "" else c.tail[1..];
      if c.head == "" || !All(AnyChar, args) {
        return Some(UriParseError);
      }
      path := c.head;
      if args != "" {
        ProcessArgs(args);
      }
      err := None;
    }

    /** The for_each over the matches of args_regex. */
    method ProcessArgs(args: string)
      modifies `argsMap, `argsSet
      ensures argsMap == old(argsMap) + PairArgs(UriArgs(args))
      ensures argsSet == old(argsSet) + KeyArgs(UriArgs(args))
    {
      var it := FindUriArg(args);
      ghost var rest := args;
      while it.Some?
        invariant it == FindUriArg(rest)
        invariant argsMap + PairArgs(UriArgs(rest)) == old(argsMap) + PairArgs(UriArgs(args))
        invariant argsSet + KeyArgs(UriArgs(rest)) == old(argsSet) + KeyArgs(UriArgs(args))
        decreases |rest|
      {
        var m := it.value;
        if |m.key| == 0 {
          argsSet := argsSet + multiset{m.keyOnly};
        } else {
          argsMap := argsMap + multiset{(m.key, m.value)};
        }
        UriArgsStep(rest);
        hide FindUriArg, UriArgs, PairArgs, KeyArgs;
        rest := m.rest;
        it := FindUriArg(m.rest);
      }
    }

    method ProcessStreamAgain(stream: InputStream) returns (required: nat)
      requires BodyOk(Data())
      modifies this, stream
      ensures Outcome(Data(), stream.data, None, required) == ReadBody(old(Data()), old(stream.data))
    {
      var bytesToRead := contentLength - bodyBytesRead;
      if bytesToRead == 0 {
        return 0;
      }
      var bytes := stream.ReadSome(bytesToRead);
      body := body[..bodyBytesRead] + bytes + body[bodyBytesRead + |bytes|..];
      bodyBytesRead := bodyBytesRead + |bytes|;
      return contentLength - bodyBytesRead;
    }

    method ProcessStream(stream: InputStream, maxBody: nat) returns (required: nat, err: Option<Error>)
      modifies this, stream
      ensures Outcome(Data(), stream.data, err, required) == ParseRequest(old(stream.data), maxBody)
    {
      Reset();
      required := 0;
      var str, ok := stream.ReadLine();
      err := ProcessStartString(str);
      if err.Some? {
        return;
      }
      ghost var d, buf := Data(), stream.data;
      HeadersKeepBody(d, buf);
      err := ProcessHeaders(stream);
      if err.Some? {
        return;
      }
      required, err := ProcessRest(stream, maxBody);
    }

    /** The header loop of process_stream. */
    method ProcessHeaders(stream: InputStream) returns (err: Option<Error>)
      modifies this, stream
      ensures Outcome(Data(), stream.data, err, 0) == ReadHeaders(old(Data()), old(stream.data))
    {
      err := None;
      var str, ok := stream.ReadLine();
      ghost var d, buf := Data(), old(stream.data);
      var more := ok && str != "";
      while more
        invariant err.None? && d == Data()
        invariant Cut(str, stream.data) == GetLine(buf)
        invariant more ==> str != ""
        invariant !more ==> Outcome(d, stream.data, None, 0) == ReadHeaders(old(Data()), old(stream.data))
        invariant more ==> ReadHeaders(d, buf) == ReadHeaders(old(Data()), old(stream.data))
        decreases |buf|, more
      {
        more, err := ProcessHeaderString(str);
        if err.Some? {
          return;
        }
        d := Data();
        if more {
          buf := stream.data;
          str, ok := stream.ReadLine();
          more := ok && str != "";
        }
      }
    }

    /** process_stream behind the header loop. */
    method ProcessRest(stream: InputStream, maxBody: nat) returns (required: nat, err: Option<Error>)
      requires bodyBytesRead == 0
      modifies this, stream
      ensures Outcome(Data(), stream.data, err, required) == FinishHead(old(Data()), old(stream.data), maxBody)
    {
      required := 0;
      err := ProcessUri();
      if err.Some? || contentLength == 0 {
        return;
      }
      if verb != POST {
        return 0, Some(ContentLengthMustBeZero);
      }
      if contentLength > maxBody {
        return 0, Some(BodyNotAllocated);
      }
      body := ZeroBytes(contentLength);
      required := ProcessStreamAgain(stream);
    }
  }

  lemma UriArgsStep(s: string)
    requires FindUriArg(s).Some?
    ensures var m := FindUriArg(s).value;
            && PairArgs(UriArgs(s))
               == (if m.key == "" then multiset{} else multiset{(m.key, m.value)}) + PairArgs(UriArgs(m.rest))
            && KeyArgs(UriArgs(s))
               == (if m.key == "" then multiset{m.keyOnly} else multiset{}) + KeyArgs(UriArgs(m.rest))
  {
    var m := FindUriArg(s).value;
    assert ([m] + UriArgs(m.rest))[1..] == UriArgs(m.rest);
  }

  /** `.*text.*` as std::regex_match decides it. */
  method FindText(s: string, text: string) returns (found: bool)
    ensures found <==> Contains(s, text)
  {
    var i := 0;
    while i + |text| <= |s|
      invariant forall j :: 0 <= j < i && j + |text| <= |s| ==> !OccursAt(s, text, j)
    {
      if s[i..i + |text|] == text {
        assert OccursAt(s, text, i);
        return true;
      }
      i := i + 1;
    }
    return false;
  }
}
