/** What a client puts in a Cookie or Host header comes back from it. */
module HeaderValues {
  import opened Chars
  import opened RequestParsing
  import opened RequestPrinting

  // ----- The cookie expression -----

  /** A way the expression can match at the start of `s`. */
  predicate IsCookieParse(s: string, m: FoundCookie) {
    s == m.name + ("=" + (m.value + m.rest)) && CookieOk((m.name, m.value))
  }

  lemma CookieSound(s: string)
    requires MatchCookie(s).Some?
    ensures IsCookieParse(s, MatchCookie(s).value)
  {
    var n := Span(Word, s);
    var v := Span(Word, n.tail[1..]);
    SpanIsLongest(Word, s);
    SpanIsLongest(Word, n.tail[1..]);
    hide Span;
    assert n.tail == "=" + (v.head + v.tail);
  }

  /** It matches whenever it can, with the only possible name and the longest
      value. */
  lemma CookiePreferred(s: string, m: FoundCookie)
    requires IsCookieParse(s, m)
    ensures MatchCookie(s).Some?
    ensures MatchCookie(s).value.name == m.name && |MatchCookie(s).value.value| >= |m.value|
  {
    SpanOf(Word, m.name, "=" + (m.value + m.rest));
    assert ("=" + (m.value + m.rest))[1..] == m.value + m.rest;
    SpanBeats(Word, m.value, m.rest);
    hide Span;
  }

  /** The iterator stops at the first place where the expression matches. */
  lemma {:induction false} CookieIsFirst(s: string) returns (k: nat)
    ensures k <= |s| && FindCookie(s) == MatchCookie(s[k..])
    ensures forall j :: 0 <= j < (if FindCookie(s).Some? then k else |s|) ==> MatchCookie(s[j..]).None?
    decreases |s|
  {
    if MatchCookie(s).Some? || s == "" {
      k := 0;
      assert s[0..] == s;
    } else {
      var m := CookieIsFirst(s[1..]);
      k := m + 1;
      assert s[1..][m..] == s[k..];
      forall j | 0 <= j < if FindCookie(s).Some? then k else |s|
        ensures MatchCookie(s[j..]).None?
      {
        assert j > 0 ==> s[1..][j - 1..] == s[j..];
        assert s[0..] == s;
      }
    }
    hide MatchCookie;
  }

  predicate CookieOk(p: (string, string)) {
    && p.0 != "" && All(Word, p.0) && !Is(Digit, p.0[0])
    && p.1 != "" && All(Word, p.1)
  }

  /** "name=value; name=value", section 4.2.1 of RFC 6265. */
  function CookieText(pairs: seq<(string, string)>): string
    decreases |pairs|, 0
  {
    if pairs == [] then "" else pairs[0].0 + ("=" + (pairs[0].1 + CookieTail(pairs[1..])))
  }

  function CookieTail(pairs: seq<(string, string)>): string
    decreases |pairs|, 1
  {
    if pairs == [] then "" else "; " + CookieText(pairs)
  }

  lemma FirstCookie(name: string, value: string, rest: string)
    requires CookieOk((name, value)) && (rest != "" ==> !Is(Word, rest[0]))
    ensures FindCookie(name + ("=" + (value + rest))) == Some(FoundCookie(name, value, rest))
  {
    SpanOf(Word, name, "=" + (value + rest));
    assert ("=" + (value + rest))[1..] == value + rest;
    SpanOf(Word, value, rest);
    hide Span;
  }

  lemma NoCookieHere(s: string)
    requires s != "" && !Is(Word, s[0])
    ensures FindCookie(s) == FindCookie(s[1..])
  {}

  lemma {:induction false} TailIsText(pairs: seq<(string, string)>)
    ensures CookiePairs(CookieTail(pairs)) == CookiePairs(CookieText(pairs))
  {
    if pairs != [] {
      var s := CookieTail(pairs);
      assert s[1..] == " " + CookieText(pairs);
      NoCookieHere(s);
      assert s[1..][1..] == CookieText(pairs);
      NoCookieHere(s[1..]);
      hide FindCookie, CookieText, CookieTail;
    }
  }

  /** The cookie expression finds exactly the cookies sent, in order. */
  lemma {:induction false} CookiesRoundTrip(pairs: seq<(string, string)>)
    requires forall i :: 0 <= i < |pairs| ==> CookieOk(pairs[i])
    ensures CookiePairs(CookieText(pairs)) == pairs
    decreases |pairs|
  {
    if pairs == [] {
      assert MatchCookie("").None?;
    } else {
      var rest := CookieTail(pairs[1..]);
      assert CookieOk(pairs[0]);
      FirstCookie(pairs[0].0, pairs[0].1, rest);
      TailIsText(pairs[1..]);
      CookiesRoundTrip(pairs[1..]);
      hide FindCookie, CookieTail;
      assert pairs == [(pairs[0].0, pairs[0].1)] + pairs[1..];
    }
  }

  /** The first pair in `pairs` called `name`, if there is one. */
  predicate IsFirst(pairs: seq<(string, string)>, name: string, i: nat) {
    i < |pairs| && pairs[i].0 == name && forall j :: 0 <= j < i ==> pairs[j].0 != name
  }

  lemma {:induction false} KeptCookie(cookies: map<string, string>, pairs: seq<(string, string)>, name: string)
    requires name in cookies
    ensures name in AddCookies(cookies, pairs) && AddCookies(cookies, pairs)[name] == cookies[name]
    decreases |pairs|
  {
    if pairs != [] {
      KeptCookie(AddCookie(cookies, pairs[0].0, pairs[0].1), pairs[1..], name);
    }
  }

  /** Of cookies with the same name the first one counts. */
  lemma {:induction false} FirstCookieCounts(
      cookies: map<string, string>, pairs: seq<(string, string)>, name: string, i: nat)
    requires name !in cookies && IsFirst(pairs, name, i)
    ensures name in AddCookies(cookies, pairs) && AddCookies(cookies, pairs)[name] == pairs[i].1
    decreases i
  {
    var next := AddCookie(cookies, pairs[0].0, pairs[0].1);
    if i == 0 {
      KeptCookie(next, pairs[1..], name);
    } else {
      assert pairs[0].0 != name;
      assert forall j :: 0 <= j < |pairs| - 1 ==> pairs[1..][j] == pairs[j + 1];
      FirstCookieCounts(next, pairs[1..], name, i - 1);
    }
  }

  /** There are no cookies but the ones sent. */
  lemma {:induction false} OnlyCookiesSent(cookies: map<string, string>, pairs: seq<(string, string)>, name: string)
    ensures name in AddCookies(cookies, pairs) <==>
              name in cookies || exists i :: 0 <= i < |pairs| && pairs[i].0 == name
    decreases |pairs|
  {
    if pairs != [] {
      OnlyCookiesSent(AddCookie(cookies, pairs[0].0, pairs[0].1), pairs[1..], name);
      assert forall i :: 0 <= i < |pairs| - 1 ==> pairs[1..][i] == pairs[i + 1];
    }
  }

  // ----- The Host expression -----

  /** A way `([^:]+)(:([[:digit:]]+))?` can match a whole value. */
  datatype HostParse = HostParse(host: string, port: Option<string>)

  function HostText(m: HostParse): string {
    match m.port
    case None => m.host
    case Some(digits) => m.host + (":" + digits)
  }

  predicate IsHostParse(m: HostParse) {
    && m.host != "" && All(NotColon, m.host)
    && (m.port.Some? ==> m.port.value != "" && All(Digit, m.port.value))
  }

  /** What process_header_host does on a value that matches: the port is a
      number below 65536, leading zeros or not, or the header is an error; a
      value without a port keeps the one that was there. */
  lemma HostMatches(d: Request, m: HostParse)
    requires IsHostParse(m)
    ensures ApplyHost(d, HostText(m)) ==
      match m.port
      case None => Filled(d.(host := m.host), None)
      case Some(digits) =>
        if DecimalValue(digits) <= MAX_PORT then Filled(d.(host := m.host, port := DecimalValue(digits)), None)
        else Filled(d.(host := m.host), Some(IncorrectHeader))
  {
    match m.port
    case None =>
      SpanOf(NotColon, m.host, "");
      assert m.host + "" == m.host;
    case Some(digits) =>
      SpanOf(NotColon, m.host, ":" + digits);
      assert (":" + digits)[1..] == digits;
      assert Is(Digit, digits[0]);
      hide Span, DecimalValue;
  }

  /** A value that does not match (no host, an empty port, one that is not all
      digits) is an error that changes nothing. */
  lemma HostFails(d: Request, value: string)
    requires forall m :: IsHostParse(m) ==> HostText(m) != value
    ensures ApplyHost(d, value) == Filled(d, Some(IncorrectHeader))
  {
    var c := Span(NotColon, value);
    SpanIsLongest(NotColon, value);
    hide Span;
    if c.tail == "" {
      assert c.head + "" == c.head;
      assert IsHostParse(HostParse(c.head, None)) ==> HostText(HostParse(c.head, None)) != value;
    } else {
      assert c.tail == ":" + c.tail[1..];
      var m := HostParse(c.head, Some(c.tail[1..]));
      assert IsHostParse(m) ==> HostText(m) != value;
    }
  }

  /** Section 5.4 of RFC 7230: a host alone, or with a port in range. */
  lemma HostRoundTrip(d: Request, host: string, port: nat)
    requires host != "" && All(NotColon, host)
    ensures ApplyHost(d, host) == Filled(d.(host := host), None)
    ensures ApplyHost(d, host + (":" + Decimal(port)))
         == if port <= MAX_PORT then Filled(d.(host := host, port := port), None)
            else Filled(d.(host := host), Some(IncorrectHeader))
  {
    SpanOf(NotColon, host, "");
    assert host + "" == host;
    SpanOf(NotColon, host, ":" + Decimal(port));
    assert (":" + Decimal(port))[1..] == Decimal(port);
    assert Is(Digit, Decimal(port)[0]);
    hide Span, Decimal, DecimalValue;
  }

  /** The value of the last header called `key`. */
  function LastValue(headers: seq<Header>, key: string): Option<string> {
    if headers == [] then None
    else if headers[|headers| - 1].key == key then Some(headers[|headers| - 1].value)
    else LastValue(headers[..|headers| - 1], key)
  }

  lemma {:induction false} LastValueOfTail(headers: seq<Header>, key: string)
    requires headers != []
    ensures LastValue(headers, key) ==
      if LastValue(headers[1..], key).Some? then LastValue(headers[1..], key)
      else if headers[0].key == key then Some(headers[0].value) else None
  {
    var last := |headers| - 1;
    if last > 0 {
      LastValueOfTail(headers[..last], key);
      assert headers[1..][..last - 1] == headers[..last][1..];
      assert headers[1..][last - 1] == headers[last];
    }
  }

  /** The port in a Host value, if there is one. */
  function PortText(value: string): Option<string> {
    var c := Span(NotColon, value);
    if c.tail == "" then None else Some(c.tail[1..])
  }

  /** The port in the last Host header that has one. */
  function LastPort(headers: seq<Header>): Option<string> {
    if headers == [] then None
    else
      var h := headers[|headers| - 1];
      if h.key == "Host" && PortText(h.value).Some? then PortText(h.value)
      else LastPort(headers[..|headers| - 1])
  }

  lemma {:induction false} LastPortOfTail(headers: seq<Header>)
    requires headers != []
    ensures LastPort(headers) ==
      if LastPort(headers[1..]).Some? then LastPort(headers[1..])
      else if headers[0].key == "Host" then PortText(headers[0].value) else None
  {
    var last := |headers| - 1;
    hide PortText;
    if last > 0 {
      LastPortOfTail(headers[..last]);
      assert headers[1..][..last - 1] == headers[..last][1..];
      assert headers[1..][last - 1] == headers[last];
    }
  }

  lemma OneKnownHeader(d: Request, h: Header)
    requires ApplyHeader(d, h).err.None?
    ensures var r := ApplyHeader(d, h).request;
            && (r.keepAlive <==> if h.key == "Connection" then Contains(h.value, "keep-alive") else d.keepAlive)
            && (if h.key == "Content-Length" then LexicalCast(h.value, SIZE_LIMIT) == Some(r.contentLength)
                else r.contentLength == d.contentLength)
            && r.host == (if h.key == "Host" then Span(NotColon, h.value).head else d.host)
  {
    hide Contains, Span, LexicalCast, AddCookies, CookiePairs;
  }

  lemma OneHostHeader(d: Request, h: Header)
    requires ApplyHeader(d, h).err.None?
    ensures var r := ApplyHeader(d, h).request;
            if h.key == "Host" && PortText(h.value).Some?
            then LexicalCast(PortText(h.value).value, MAX_PORT + 1) == Some(r.port)
            else r.port == d.port
  {
    hide Contains, Span, LexicalCast, AddCookies, CookiePairs;
  }

  /** Keep-alive, body length and host are those of the last header that gives
      them; without a Connection header the connection is not kept. */
  lemma {:induction false} LastHeaderCounts(d: Request, headers: seq<Header>)
    requires ApplyAll(d, headers).err.None?
    ensures var r := ApplyAll(d, headers).request;
            && (var v := LastValue(headers, "Connection");
                r.keepAlive <==> if v.Some? then Contains(v.value, "keep-alive") else d.keepAlive)
            && (var v := LastValue(headers, "Content-Length");
                if v.Some? then LexicalCast(v.value, SIZE_LIMIT) == Some(r.contentLength)
                else r.contentLength == d.contentLength)
            && (var v := LastValue(headers, "Host");
                r.host == if v.Some? then Span(NotColon, v.value).head else d.host)
    decreases |headers|
  {
    if headers != [] {
      OneKnownHeader(d, headers[0]);
      LastValueOfTail(headers, "Connection");
      LastValueOfTail(headers, "Content-Length");
      LastValueOfTail(headers, "Host");
      LastHeaderCounts(ApplyHeader(d, headers[0]).request, headers[1..]);
      hide ApplyHeader, LastValue, Contains, LexicalCast, Span;
    }
  }

  /** The port is that of the last Host header that has one: a later header
      without a port leaves it alone. */
  lemma {:induction false} LastPortCounts(d: Request, headers: seq<Header>)
    requires ApplyAll(d, headers).err.None?
    ensures var r, p := ApplyAll(d, headers).request, LastPort(headers);
            if p.Some? then LexicalCast(p.value, MAX_PORT + 1) == Some(r.port) else r.port == d.port
    decreases |headers|
  {
    if headers != [] {
      OneHostHeader(d, headers[0]);
      LastPortOfTail(headers);
      LastPortCounts(ApplyHeader(d, headers[0]).request, headers[1..]);
      hide ApplyHeader, LastPort, LexicalCast, PortText;
    }
  }

  // ----- Cookies of a whole request -----

  /** What the Cookie headers yield, in header order. */
  function CookiesOf(headers: seq<Header>): seq<(string, string)> {
    if headers == [] then []
    else (if headers[0].key == "Cookie" then CookiePairs(headers[0].value) else []) + CookiesOf(headers[1..])
  }

  lemma {:induction false} AddCookiesAppend(
      cookies: map<string, string>, a: seq<(string, string)>, b: seq<(string, string)>)
    ensures AddCookies(cookies, a + b) == AddCookies(AddCookies(cookies, a), b)
    decreases |a|
  {
    if a == [] {
      assert a + b == b;
    } else {
      assert (a + b)[1..] == a[1..] + b && (a + b)[0] == a[0];
      AddCookiesAppend(AddCookie(cookies, a[0].0, a[0].1), a[1..], b);
    }
  }

  lemma OneCookieHeader(d: Request, h: Header)
    requires ApplyHeader(d, h).err.None?
    ensures ApplyHeader(d, h).request.cookies
         == AddCookies(d.cookies, if h.key == "Cookie" then CookiePairs(h.value) else [])
  {
    hide Contains, Span, LexicalCast, CookiePairs;
  }

  lemma {:induction false} CookiesApplied(d: Request, headers: seq<Header>)
    requires ApplyAll(d, headers).err.None?
    ensures ApplyAll(d, headers).request.cookies == AddCookies(d.cookies, CookiesOf(headers))
    decreases |headers|
  {
    if headers != [] {
      OneCookieHeader(d, headers[0]);
      CookiesApplied(ApplyHeader(d, headers[0]).request, headers[1..]);
      var first := if headers[0].key == "Cookie" then CookiePairs(headers[0].value) else [];
      AddCookiesAppend(d.cookies, first, CookiesOf(headers[1..]));
      hide ApplyHeader, AddCookies, CookiePairs;
    }
  }

  /** `cookies` holds exactly the names in `pairs`, each with its first value. */
  ghost predicate FirstOfEach(cookies: map<string, string>, pairs: seq<(string, string)>) {
    && (forall name :: name in cookies <==> exists i :: 0 <= i < |pairs| && pairs[i].0 == name)
    && (forall name, i: nat :: IsFirst(pairs, name, i) ==> name in cookies && cookies[name] == pairs[i].1)
  }

  lemma AddedAreFirst(pairs: seq<(string, string)>)
    ensures FirstOfEach(AddCookies(map[], pairs), pairs)
  {
    forall name
      ensures name in AddCookies(map[], pairs) <==> exists i :: 0 <= i < |pairs| && pairs[i].0 == name
    {
      OnlyCookiesSent(map[], pairs, name);
    }
    forall name, i: nat | IsFirst(pairs, name, i)
      ensures name in AddCookies(map[], pairs) && AddCookies(map[], pairs)[name] == pairs[i].1
    {
      FirstCookieCounts(map[], pairs, name, i);
    }
    hide AddCookies;
  }

  lemma RebuiltIs(w: WireRequest)
    ensures var r, d := Rebuilt(w), ApplyAll(Started(w), w.headers).request;
            r.cookies == d.cookies && r.keepAlive == d.keepAlive && r.host == d.host && r.port == d.port
  {
    hide ApplyAll, Span, UriArgs, All;
  }

  /** A printed request comes back with the cookies that its Cookie headers
      yield: every name, with the value of its first pair in header order. */
  lemma RebuiltCookies(w: WireRequest, maxBody: nat)
    requires WellFormed(w, maxBody)
    ensures FirstOfEach(Rebuilt(w).cookies, CookiesOf(w.headers))
  {
    RebuiltIs(w);
    CookiesApplied(Started(w), w.headers);
    AddedAreFirst(CookiesOf(w.headers));
    hide Rebuilt, ApplyAll, AddCookies, CookiesOf, FirstOfEach;
  }

  lemma {:induction false} NoOtherCookies(headers: seq<Header>, i: nat)
    requires i < |headers| && headers[i].key == "Cookie"
    requires forall j :: 0 <= j < |headers| && j != i ==> headers[j].key != "Cookie"
    ensures CookiesOf(headers) == CookiePairs(headers[i].value)
    decreases |headers|
  {
    hide CookiePairs;
    var tail := headers[1..];
    assert forall j :: 0 <= j < |tail| ==> tail[j] == headers[j + 1];
    if i == 0 {
      NoCookies(tail);
    } else {
      NoOtherCookies(tail, i - 1);
    }
  }

  lemma {:induction false} NoCookies(headers: seq<Header>)
    requires forall j :: 0 <= j < |headers| ==> headers[j].key != "Cookie"
    ensures CookiesOf(headers) == []
  {
    if headers != [] {
      assert forall j :: 0 <= j < |headers[1..]| ==> headers[1..][j] == headers[j + 1];
      NoCookies(headers[1..]);
    }
  }

  /** Bytes with one header `Cookie: name=value; ...` parse to a request with
      the first value of each name, whatever the other headers and what follows. */
  lemma {:induction false} CookieHeaderParses(
      w: WireRequest, i: nat, pairs: seq<(string, string)>, more: string, maxBody: nat)
    requires WellFormed(w, maxBody) && i < |w.headers|
    requires w.headers[i] == Header("Cookie", CookieText(pairs))
    requires forall j :: 0 <= j < |w.headers| && j != i ==> w.headers[j].key != "Cookie"
    requires forall j :: 0 <= j < |pairs| ==> CookieOk(pairs[j])
    ensures ParseRequest(Print(w) + more, maxBody).err.None?
    ensures FirstOfEach(ParseRequest(Print(w) + more, maxBody).request.cookies, pairs)
  {
    PrintedRequestParses(w, more, maxBody);
    RebuiltCookies(w, maxBody);
    NoOtherCookies(w.headers, i);
    CookiesRoundTrip(pairs);
    hide *;
  }

  /** The other effects of the headers on a printed request. */
  lemma RebuiltEffects(w: WireRequest, maxBody: nat)
    requires WellFormed(w, maxBody)
    ensures var r := Rebuilt(w);
            && (var v := LastValue(w.headers, "Connection");
                r.keepAlive <==> v.Some? && Contains(v.value, "keep-alive"))
            && (var v := LastValue(w.headers, "Host");
                r.host == if v.Some? then Span(NotColon, v.value).head else "")
            && (var p := LastPort(w.headers);
                if p.Some? then LexicalCast(p.value, 65536) == Some(r.port) else r.port == 80)
  {
    RebuiltIs(w);
    LastHeaderCounts(Started(w), w.headers);
    LastPortCounts(Started(w), w.headers);
    hide Rebuilt, ApplyAll, LastValue, LastPort, Contains, Span, LexicalCast, WellFormed;
  }
}
