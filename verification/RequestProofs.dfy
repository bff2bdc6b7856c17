/** The scanners of request.cpp are the regular expressions they stand for. */
module RequestProofs {
  import opened Chars
  import opened RequestParsing

  // ----- The start-line expression -----

  datatype StartParse = StartParse(line: StartLine, gap1: string, gap2: string, eol: string)

  /** Every text the start-line expression matches, with its groups. */
  function StartText(m: StartParse): string {
    var l := m.line;
    l.verb + (m.gap1 + (l.uri + (m.gap2 + (l.protocol + ("/" + (l.major + ("." + (l.minor + m.eol))))))))
  }

  predicate IsStartParse(m: StartParse) {
    var l := m.line;
    && l.verb != "" && All(Word, l.verb) && m.gap1 != "" && All(Space, m.gap1)
    && l.uri != "" && All(NonSpace, l.uri) && m.gap2 != "" && All(Space, m.gap2)
    && l.protocol != "" && All(Word, l.protocol)
    && l.major != "" && All(Digit, l.major) && l.minor != "" && All(Digit, l.minor)
    && All(LineBreak, m.eol)
  }

  lemma FirstChar(a: string, b: string)
    requires a != ""
    ensures (a + b)[0] == a[0]
  {}

  /** The protocol part `([_[:alnum:]]+)/(digits.digits)[\r\n]*`. */
  lemma ProtocolSpans(l: StartLine, eol: string)
    requires l.protocol != "" && All(Word, l.protocol)
    requires l.major != "" && All(Digit, l.major) && l.minor != "" && All(Digit, l.minor)
    requires All(LineBreak, eol)
    ensures var t := l.major + ("." + (l.minor + eol));
            && Span(Word, l.protocol + ("/" + t)) == Cut(l.protocol, "/" + t)
            && ("/" + t)[1..] == t
            && Span(Digit, t) == Cut(l.major, "." + (l.minor + eol))
            && ("." + (l.minor + eol))[1..] == l.minor + eol
            && Span(Digit, l.minor + eol) == Cut(l.minor, eol)
  {
    var t := l.major + ("." + (l.minor + eol));
    SpanOf(Digit, l.minor, eol);
    SpanOf(Digit, l.major, "." + (l.minor + eol));
    SpanOf(Word, l.protocol, "/" + t);
  }

  /** The start line has at most one parse and the scanner finds it. */
  lemma StartLineComplete(m: StartParse)
    requires IsStartParse(m)
    ensures ParseStartLine(StartText(m)) == Some(m.line)
  {
    var l := m.line;
    ProtocolSpans(l, m.eol);
    var p := l.protocol + ("/" + (l.major + ("." + (l.minor + m.eol))));
    FirstChar(l.protocol, "/" + (l.major + ("." + (l.minor + m.eol))));
    SpanOf(Space, m.gap2, p);
    FirstChar(m.gap2, p);
    SpanOf(NonSpace, l.uri, m.gap2 + p);
    FirstChar(l.uri, m.gap2 + p);
    SpanOf(Space, m.gap1, l.uri + (m.gap2 + p));
    FirstChar(m.gap1, l.uri + (m.gap2 + p));
    SpanOf(Word, l.verb, m.gap1 + (l.uri + (m.gap2 + p)));
  }

  lemma ProtocolSound(t: string)
    requires t != "" && t[0] == '/'
    requires var a := Span(Digit, t[1..]);
             a.head != "" && a.tail != "" && a.tail[0] == '.'
             && Span(Digit, a.tail[1..]).head != ""
    ensures var a := Span(Digit, t[1..]);
            var b := Span(Digit, a.tail[1..]);
            t == "/" + (a.head + ("." + (b.head + b.tail)))
            && All(Digit, a.head) && All(Digit, b.head)
  {
    var a := Span(Digit, t[1..]);
    SpanIsLongest(Digit, t[1..]);
    SpanIsLongest(Digit, a.tail[1..]);
    assert a.tail == "." + a.tail[1..];
    assert t == "/" + t[1..];
  }

  /** Whatever the scanner accepts, the expression matches with those groups. */
  lemma StartLineSound(line: string) returns (m: StartParse)
    requires ParseStartLine(line).Some?
    ensures IsStartParse(m) && StartText(m) == line && m.line == ParseStartLine(line).value
  {
    var v := Span(Word, line);
    var s1 := Span(Space, v.tail);
    var u := Span(NonSpace, s1.tail);
    var s2 := Span(Space, u.tail);
    var p := Span(Word, s2.tail);
    var a := Span(Digit, p.tail[1..]);
    var b := Span(Digit, a.tail[1..]);
    SpanIsLongest(Word, line);
    SpanIsLongest(Space, v.tail);
    SpanIsLongest(NonSpace, s1.tail);
    SpanIsLongest(Space, u.tail);
    SpanIsLongest(Word, s2.tail);
    ProtocolSound(p.tail);
    m := StartParse(ParseStartLine(line).value, s1.head, s2.head, b.tail);
    assert m.line == StartLine(v.head, u.head, p.head, a.head, b.head);
  }

  // ----- The header expression -----

  datatype HeaderParse = HeaderParse(key: string, gap: string, value: string, eol: string)

  predicate IsHeaderParse(line: string, m: HeaderParse) {
    && 0 < |m.key| < |line| && line[..|m.key|] == m.key && line[|m.key|] == ':'
    && All(NonSpace, m.key)
    && IsValueParse(line[|m.key| + 1..], m.gap, m.value, m.eol)
  }

  predicate IsValueParse(rest: string, gap: string, value: string, eol: string) {
    && rest == gap + (value + eol)
    && All(Space, gap) && value != "" && All(AnyChar, value) && All(LineBreak, eol)
  }

  lemma {:induction false} TrimEndOf(k: CharClass, a: string, b: string)
    requires All(k, b) && (a == "" || !Is(k, a[|a| - 1]))
    ensures TrimEnd(k, a + b) == a
  {
    if b == "" {
      assert a + b == a;
    } else {
      assert (a + b)[..|a + b| - 1] == a + b[..|b| - 1];
      TrimEndOf(k, a, b[..|b| - 1]);
    }
  }

  lemma {:induction false} TrimEndIs(k: CharClass, s: string)
    ensures var r := TrimEnd(k, s);
            r <= s && All(k, s[|r|..]) && (r != "" ==> !Is(k, r[|r| - 1]))
  {
    if s != "" && Is(k, s[|s| - 1]) {
      var t := s[..|s| - 1];
      TrimEndIs(k, t);
      var r := TrimEnd(k, s);
      assert s[|r|..] == t[|r|..] + [s[|s| - 1]];
    }
  }

  lemma {:induction false} SpanThrough(k: CharClass, a: string, b: string)
    requires All(k, a)
    ensures Span(k, a + b).tail == Span(k, b).tail
  {
    if a == "" {
      assert a + b == b;
    } else {
      assert (a + b)[1..] == a[1..] + b;
      SpanThrough(k, a[1..], b);
    }
  }

  lemma ValueSound(rest: string) returns (gap: string, eol: string)
    requires HeaderValue(rest).Some?
    ensures IsValueParse(rest, gap, HeaderValue(rest).value, eol)
  {
    var body := TrimEnd(LineBreak, rest);
    TrimEndIs(LineBreak, rest);
    var c := Span(Space, body);
    SpanIsLongest(Space, body);
    var value := HeaderValue(rest).value;
    eol := rest[|body|..];
    gap := body[..|body| - |value|];
    assert rest == body + eol;
    assert body == gap + value;
    Assoc(gap, value, eol);
    assert c.tail != "" ==> gap == c.head;
  }

  /** Any parse of the value has at least as long a value: the scanner gives
      `[[:space:]]*` as much as it can take. */
  lemma ValueComplete(rest: string, gap: string, value: string, eol: string)
    requires IsValueParse(rest, gap, value, eol)
    ensures HeaderValue(rest).Some?
    ensures |HeaderValue(rest).value| <= |value|
    ensures !Is(Space, value[0]) || |value| == 1 ==> HeaderValue(rest).value == value
  {
    var body := gap + value;
    Assoc(gap, value, eol);
    assert body[|body| - 1] == value[|value| - 1];
    TrimEndOf(LineBreak, body, eol);
    SpanThrough(Space, gap, value);
    SpanIsLongest(Space, value);
    var c := Span(Space, value);
    if c.tail == "" {
      assert body[|body| - 1..] == [value[|value| - 1]];
      assert Is(AnyChar, value[|value| - 1]);
    } else {
      assert c.tail == value[|c.head|..];
      if !Is(Space, value[0]) {
        assert c.head == "";
      }
    }
  }

  predicate Candidate(line: string, q: nat) {
    0 < q < |line| && line[q] == ':' && HeaderValue(line[q + 1..]).Some?
  }

  lemma {:induction false} HeaderUpToIsLast(line: string, p: nat, q: nat)
    requires p < |line| && q <= p && Candidate(line, q)
    ensures HeaderUpTo(line, p).Some? && q <= |HeaderUpTo(line, p).value.key|
  {
    if p > q && !Candidate(line, p) {
      HeaderUpToIsLast(line, p - 1, q);
    }
  }

  lemma {:induction false} HeaderUpToIsCandidate(line: string, p: nat)
    requires p < |line| && HeaderUpTo(line, p).Some?
    ensures var h := HeaderUpTo(line, p).value;
            && Candidate(line, |h.key|) && |h.key| <= p
            && h == Header(line[..|h.key|], HeaderValue(line[|h.key| + 1..]).value)
  {
    if !Candidate(line, p) {
      HeaderUpToIsCandidate(line, p - 1);
    }
  }

  lemma PrefixIsRun(k: CharClass, s: string, n: nat)
    requires n <= |Span(k, s).head|
    ensures All(k, s[..n])
  {
    SpanIsLongest(k, s);
    var head := Span(k, s).head;
    assert s[..n] == head[..n];
  }

  lemma ScanIsCandidate(line: string)
    requires ScanHeader(line).Some?
    ensures var h := ScanHeader(line).value;
            && Candidate(line, |h.key|) && h.key == line[..|h.key|] && All(NonSpace, h.key)
            && HeaderValue(line[|h.key| + 1..]) == Some(h.value)
  {
    var n := |Span(NonSpace, line).head|;
    HeaderUpToIsCandidate(line, n - 1);
    PrefixIsRun(NonSpace, line, |ScanHeader(line).value.key|);
  }

  lemma HeaderSound(line: string) returns (m: HeaderParse)
    requires ScanHeader(line).Some?
    ensures IsHeaderParse(line, m) && Header(m.key, m.value) == ScanHeader(line).value
    ensures HeaderValue(line[|m.key| + 1..]) == Some(m.value)
  {
    hide ScanHeader, HeaderValue, IsValueParse, All;
    ScanIsCandidate(line);
    var h := ScanHeader(line).value;
    var gap, eol := ValueSound(line[|h.key| + 1..]);
    m := HeaderParse(h.key, gap, h.value, eol);
  }

  /** The scanner settles on the last ':' of the first run that leaves a value. */
  lemma ScanTakesLast(line: string, q: nat)
    requires q < |Span(NonSpace, line).head| && Candidate(line, q)
    ensures ScanHeader(line).Some?
    ensures var h := ScanHeader(line).value;
            q <= |h.key| && Candidate(line, |h.key|) && HeaderValue(line[|h.key| + 1..]) == Some(h.value)
  {
    hide HeaderUpTo, HeaderValue, Span;
    var n := |Span(NonSpace, line).head|;
    HeaderUpToIsLast(line, n - 1, q);
    HeaderUpToIsCandidate(line, n - 1);
  }

  lemma ParseIsCandidate(line: string, m: HeaderParse)
    requires IsHeaderParse(line, m)
    ensures Candidate(line, |m.key|) && |m.key| < |Span(NonSpace, line).head|
    ensures |HeaderValue(line[|m.key| + 1..]).value| <= |m.value|
  {
    ValueComplete(line[|m.key| + 1..], m.gap, m.value, m.eol);
    KeyInRun(line, m.key);
  }

  /** Among all parses the scanner takes the one with the longest key and then
      the longest gap: what backtracking reaches first. */
  lemma HeaderPreferred(line: string, m: HeaderParse)
    requires IsHeaderParse(line, m)
    ensures ScanHeader(line).Some?
    ensures var h := ScanHeader(line).value;
            && |m.key| <= |h.key|
            && (|m.key| == |h.key| ==> |h.value| <= |m.value|)
  {
    ParseIsCandidate(line, m);
    hide ScanHeader, HeaderValue, Span, IsHeaderParse;
    ScanTakesLast(line, |m.key|);
  }

  lemma KeyInRun(line: string, key: string)
    requires |key| < |line| && line[..|key|] == key && All(NonSpace, key) && line[|key|] == ':'
    ensures |Span(NonSpace, line).head| > |key|
  {
    var run := key + ":";
    var rest := line[|key| + 1..];
    assert line == run + rest;
    SpanBeats(NonSpace, run, rest);
  }

  /** A line that is all white space is a blank line for process_header_string. */
  lemma BlankLine(d: Request, line: string)
    requires All(Space, line)
    ensures ParseHeader(d, line) == HeaderStep(Filled(d, None), false)
  {
    assert line != "" ==> !Is(NonSpace, line[0]);
  }

  /** A line is accepted, skipped as blank or rejected, by the expressions. */
  lemma HeaderVerdict(d: Request, line: string)
    ensures ParseHeader(d, line).more <==> exists m :: IsHeaderParse(line, m)
    ensures ScanHeader(line).None? ==>
              ParseHeader(d, line).filled == Filled(d, if All(Space, line) then None else Some(IncorrectHeader))
  {
    if ScanHeader(line).Some? {
      var m := HeaderSound(line);
    }
    forall m | IsHeaderParse(line, m)
      ensures ScanHeader(line).Some?
    {
      HeaderPreferred(line, m);
    }
  }

  // ----- A printed header parses back -----

  function HeaderText(h: Header): string {
    h.key + ": " + h.value
  }

  /** The names and values that survive printing as "name: value". */
  predicate Printable(h: Header) {
    && h.key != "" && All(NonSpace, h.key)
    && h.value != "" && All(AnyChar, h.value)
    && (!Is(Space, h.value[0]) || |h.value| == 1)
  }

  lemma PrintedKey(h: Header)
    requires h.key != "" && All(NonSpace, h.key)
    ensures Span(NonSpace, HeaderText(h) + "\r").head == h.key + ":"
    ensures (HeaderText(h) + "\r")[|h.key| + 1..] == " " + (h.value + "\r")
  {
    var k, rest := h.key + ":", " " + (h.value + "\r");
    assert HeaderText(h) + "\r" == k + rest;
    SpanOf(NonSpace, k, rest);
  }

  /** Section 3.2 of RFC 7230: exactly the printable headers parse back from
      the line that add_header writes. */
  lemma PrintedHeaderParses(h: Header)
    ensures ScanHeader(HeaderText(h) + "\r") == Some(h) <==> Printable(h)
  {
    var line := HeaderText(h) + "\r";
    if Printable(h) {
      PrintedKey(h);
      assert IsValueParse(" " + (h.value + "\r"), " ", h.value, "\r");
      ValueComplete(" " + (h.value + "\r"), " ", h.value, "\r");
      assert line[..|h.key|] == h.key && line[|h.key|] == ':';
    } else if ScanHeader(line) == Some(h) {
      var m := HeaderSound(line);
      PrintedKey(h);
      ValueNotLonger(h.value);
    }
  }

  /** A value of two or more characters is cut where its white space ends. */
  lemma ValueNotLonger(value: string)
    requires value != "" && All(AnyChar, value)
    requires HeaderValue(" " + (value + "\r")) == Some(value)
    ensures !Is(Space, value[0]) || |value| == 1
  {
    var body := " " + value;
    assert " " + (value + "\r") == body + "\r" by { Assoc(" ", value, "\r"); }
    assert body[|body| - 1] == value[|value| - 1];
    TrimEndOf(LineBreak, body, "\r");
    assert Span(Space, body).tail == "" || Span(Space, body).tail == value;
    hide TrimEnd, HeaderValue;
    SpanThrough(Space, " ", value);
    SpanIsLongest(Space, value);
    if Is(Space, value[0]) {
      assert Span(Space, value).head != "";
    }
  }
}
