/** Parsing does not depend on how much of the stream is already buffered. */
module RequestStability {
  import opened Chars
  import opened RequestParsing
  import opened RequestProofs

  const BLANK_LINE := "\r\n\r\n"

  /** What async_read_until waits for. */
  predicate HasBlankLine(buf: string) {
    Contains(buf, BLANK_LINE)
  }

  lemma BlankLineStays(buf: string, more: string)
    requires HasBlankLine(buf)
    ensures HasBlankLine(buf + more)
  {
    var i :| 0 <= i <= |buf| - |BLANK_LINE| && OccursAt(buf, BLANK_LINE, i);
    assert (buf + more)[i..i + |BLANK_LINE|] == buf[i..i + |BLANK_LINE|];
    assert OccursAt(buf + more, BLANK_LINE, i);
  }

  /** The first line of `buf` is complete. */
  predicate LineEnds(buf: string) {
    Span(NotNewline, buf).tail != ""
  }

  /** A complete white-space line lies ahead. */
  predicate Stops(buf: string)
    decreases |buf|
  {
    LineEnds(buf) && (All(Space, GetLine(buf).head) || Stops(GetLine(buf).tail))
  }

  lemma SpanGrows(k: CharClass, buf: string, more: string)
    requires Span(k, buf).tail != ""
    ensures Span(k, buf + more) == Cut(Span(k, buf).head, Span(k, buf).tail + more)
  {
    var c := Span(k, buf);
    SpanIsLongest(k, buf);
    Assoc(c.head, c.tail, more);
    assert (c.tail + more)[0] == c.tail[0];
    SpanOf(k, c.head, c.tail + more);
  }

  lemma GetLineGrows(buf: string, more: string)
    requires LineEnds(buf)
    ensures GetLine(buf + more) == Cut(GetLine(buf).head, GetLine(buf).tail + more)
  {
    SpanGrows(NotNewline, buf, more);
    var t := Span(NotNewline, buf).tail;
    assert (t + more)[1..] == t[1..] + more;
  }

  lemma LineOf(line: string, rest: string)
    requires All(NotNewline, line)
    ensures LineEnds(line + ("\n" + rest)) && GetLine(line + ("\n" + rest)) == Cut(line, rest)
  {
    SpanOf(NotNewline, line, "\n" + rest);
    assert ("\n" + rest)[1..] == rest;
  }

  /** CRLFCRLF in the buffer: the first line ends, and the blank line comes
      after it. */
  lemma {:induction false} BlankLineAhead(a: string, z: string)
    ensures var buf := a + ("\n" + ("\r\n" + z));
            LineEnds(buf) && Stops(GetLine(buf).tail)
    decreases |a|
  {
    var sep := "\n" + ("\r\n" + z);
    var c := Span(NotNewline, a);
    SpanIsLongest(NotNewline, a);
    if c.tail == "" {
      LineOf(a, "\r\n" + z);
      assert "\r\n" + z == "\r" + ("\n" + z);
      LineOf("\r", z);
    } else {
      var a' := c.tail[1..];
      assert c.tail == "\n" + a';
      assert a + sep == c.head + ("\n" + (a' + sep));
      LineOf(c.head, a' + sep);
      BlankLineAhead(a', z);
    }
  }

  lemma BlankLineStops(buf: string)
    requires HasBlankLine(buf)
    ensures LineEnds(buf) && Stops(GetLine(buf).tail)
  {
    var i :| 0 <= i <= |buf| - |BLANK_LINE| && OccursAt(buf, BLANK_LINE, i);
    var a, z := buf[..i + 1], buf[i + 4..];
    assert buf[i..i + 4] == BLANK_LINE;
    assert buf[i + 1..] == BLANK_LINE[1..] + z;
    assert BLANK_LINE[1..] + z == "\n" + ("\r\n" + z);
    assert buf == a + buf[i + 1..];
    BlankLineAhead(a, z);
  }

  function Append(o: Outcome, more: string): Outcome {
    o.(rest := o.rest + more)
  }

  /** The header loop ends inside the buffer, so more bytes do not change it. */
  lemma {:induction false} HeadersStable(d: Request, buf: string, more: string)
    requires Stops(buf)
    ensures ReadHeaders(d, buf + more) == Append(ReadHeaders(d, buf), more)
    decreases |buf|
  {
    GetLineGrows(buf, more);
    var line := GetLine(buf);
    if line.head != "" {
      var step := ParseHeader(d, line.head);
      if All(Space, line.head) {
        BlankLine(d, line.head);
      } else if step.filled.err.None? && step.more {
        HeadersStable(step.filled.request, line.tail, more);
      }
    }
  }

  /** What the outcome on a buffer becomes when more bytes are behind it: an
      unfinished body takes its bytes from them. */
  function Continue(o: Outcome, more: string): Outcome
    requires o.required > 0 ==> BodyOk(o.request)
  {
    if o.required > 0 then ReadBody(o.request, more) else Append(o, more)
  }

  lemma BodyProgress(d: Request, buf: string)
    requires BodyOk(d)
    ensures var o := ReadBody(d, buf);
            && o.err.None? && BodyOk(o.request)
            && o.required == o.request.contentLength - o.request.bodyBytesRead
            && (o.required > 0 ==> o.rest == "")
            && (|buf| >= d.contentLength - d.bodyBytesRead ==> o.required == 0)
  {}

  lemma BodyStable(d: Request, buf: string, more: string)
    requires BodyOk(d)
    ensures BodyOk(ReadBody(d, buf).request)
    ensures ReadBody(d, buf + more) == Continue(ReadBody(d, buf), more)
  {
    BodyProgress(d, buf);
    var n, r := d.contentLength - d.bodyBytesRead, d.bodyBytesRead;
    var all := buf + more;
    if n <= |buf| {
      assert all[..n] == buf[..n] && all[n..] == buf[n..] + more;
      assert n == 0 ==> buf[n..] == buf;
    } else {
      TopUp(d, buf, more);
    }
  }

  /** The part of `buf` that goes into the body. */
  function BodyPart(d: Request, buf: string): (k: nat)
    requires BodyOk(d)
    ensures k <= |buf| && d.bodyBytesRead + k <= |d.body|
  {
    var n := d.contentLength - d.bodyBytesRead;
    if n <= |buf| then n else |buf|
  }

  lemma ReadBodyIs(d: Request, buf: string)
    requires BodyOk(d)
    ensures var r, k := d.bodyBytesRead, BodyPart(d, buf);
            ReadBody(d, buf) == Outcome(d.(body := d.body[..r] + buf[..k] + d.body[r + k..], bodyBytesRead := r + k),
                                        buf[k..], None, d.contentLength - r - k)
  {
    var r := d.bodyBytesRead;
    if d.contentLength == r {
      assert d.body[..r] + buf[..0] + d.body[r..] == d.body;
    }
  }

  /** The buffered part of a body, then the rest of it. */
  lemma TopUp(d: Request, buf: string, more: string)
    requires BodyOk(d) && |buf| < d.contentLength - d.bodyBytesRead
    ensures BodyOk(ReadBody(d, buf).request)
    ensures ReadBody(d, buf + more) == ReadBody(ReadBody(d, buf).request, more)
  {
    BodyProgress(d, buf);
    var d1 := ReadBody(d, buf).request;
    ReadBodyIs(d, buf);
    ReadBodyIs(d, buf + more);
    ReadBodyIs(d1, more);
    var k := BodyPart(d, buf + more);
    assert BodyPart(d, buf) == |buf| && BodyPart(d1, more) == k - |buf|;
    assert buf[..|buf|] == buf;
    hide ReadBody, BodyPart;
    CutBehind(buf, more, k);
    Assemble(d.body, d.bodyBytesRead, buf, more[..k - |buf|]);
  }

  lemma CutBehind(a: string, b: string, k: nat)
    requires |a| <= k <= |a| + |b|
    ensures (a + b)[..k] == a + b[..k - |a|] && (a + b)[k..] == b[k - |a|..]
  {}

  lemma Assemble(body: string, r: nat, a: string, b: string)
    requires r + |a| + |b| <= |body|
    ensures var body1 := body[..r] + a + body[r + |a|..];
            && |body1| == |body|
            && body1[..r + |a|] + b + body1[r + |a| + |b|..] == body[..r] + (a + b) + body[r + |a + b|..]
  {
    var body1 := body[..r] + a + body[r + |a|..];
    assert body1[..r + |a|] == body[..r] + a;
    assert body1[r + |a| + |b|..] == body[r + |a| + |b|..];
    Assoc(body[..r], a, b);
  }

  lemma FinishStable(d: Request, rest: string, more: string, maxBody: nat)
    requires d.bodyBytesRead == 0
    ensures var o := FinishHead(d, rest, maxBody);
            && (o.required > 0 ==> BodyOk(o.request))
            && FinishHead(d, rest + more, maxBody) == Continue(o, more)
  {
    var f := ParseUri(d);
    var r := f.request;
    if f.err.None? && 0 < r.contentLength <= maxBody && r.verb == POST {
      BodyStable(r.(body := ZeroBytes(r.contentLength)), rest, more);
    }
  }

  lemma FinishRequired(d: Request, rest: string, maxBody: nat)
    requires d.bodyBytesRead == 0
    ensures var o := FinishHead(d, rest, maxBody);
            o.required > 0 ==> Unfinished(o)
  {
    var f := ParseUri(d);
    var r := f.request;
    if f.err.None? && 0 < r.contentLength <= maxBody && r.verb == POST {
      BodyProgress(r.(body := ZeroBytes(r.contentLength)), rest);
    }
  }

  /** A request whose body is unfinished has used up the buffer. */
  predicate Unfinished(o: Outcome) {
    && o.err.None? && o.rest == "" && BodyOk(o.request)
    && o.required == o.request.contentLength - o.request.bodyBytesRead
  }

  lemma ParseRequired(buf: string, maxBody: nat)
    ensures var o := ParseRequest(buf, maxBody);
            o.required > 0 ==> Unfinished(o)
  {
    var line := GetLine(buf);
    var start := ParseStart(FRESH_REQUEST, line.head);
    assert start.request.bodyBytesRead == 0;
    hide ReadHeaders, FinishHead, ParseStart, GetLine;
    if start.err.None? {
      HeadersKeepBody(start.request, line.tail);
      var head := ReadHeaders(start.request, line.tail);
      FinishStable(head.request, head.rest, "", maxBody);
      FinishRequired(head.request, head.rest, maxBody);
      HeadersRequireNothing(start.request, line.tail);
    }
  }

  lemma {:induction false} HeadersRequireNothing(d: Request, buf: string)
    ensures ReadHeaders(d, buf).required == 0
    decreases |buf|
  {
    var line := GetLine(buf);
    if line.head != "" {
      HeadersRequireNothing(ParseHeader(d, line.head).filled.request, line.tail);
    }
  }

  /** Once CRLFCRLF is buffered, parsing the longer stream gives the same
      request, error and leftovers; header parsing never ran past the buffer. */
  lemma ParseStable(buf: string, more: string, maxBody: nat)
    requires HasBlankLine(buf)
    ensures var o := ParseRequest(buf, maxBody);
            && (o.required > 0 ==> Unfinished(o))
            && ParseRequest(buf + more, maxBody) == Continue(o, more)
  {
    BlankLineStops(buf);
    GetLineGrows(buf, more);
    ParseRequired(buf, maxBody);
    var line := GetLine(buf);
    var start := ParseStart(FRESH_REQUEST, line.head);
    assert start.request.bodyBytesRead == 0;
    hide ReadHeaders, FinishHead, ParseStart, GetLine, Stops, LineEnds;
    if start.err.None? {
      HeadersStable(start.request, line.tail, more);
      HeadersKeepBody(start.request, line.tail);
      HeadersRequireNothing(start.request, line.tail);
      var head := ReadHeaders(start.request, line.tail);
      if head.err.None? {
        FinishStable(head.request, head.rest, more, maxBody);
      }
    }
  }

  lemma ParseShrinks(buf: string, maxBody: nat)
    requires buf != ""
    ensures |ParseRequest(buf, maxBody).rest| < |buf|
  {
    var line := GetLine(buf);
    var start := ParseStart(FRESH_REQUEST, line.head);
    assert start.request.bodyBytesRead == 0 && |line.tail| < |buf|;
    hide ReadHeaders, FinishHead, ParseStart, GetLine;
    if start.err.None? {
      HeadersKeepBody(start.request, line.tail);
      HeadersShrink(start.request, line.tail);
      var head := ReadHeaders(start.request, line.tail);
      FinishShrinks(head.request, head.rest, maxBody);
    }
  }

  lemma FinishShrinks(d: Request, rest: string, maxBody: nat)
    requires d.bodyBytesRead == 0
    ensures |FinishHead(d, rest, maxBody).rest| <= |rest|
  {}

  lemma {:induction false} HeadersShrink(d: Request, buf: string)
    ensures |ReadHeaders(d, buf).rest| <= |buf|
    decreases |buf|
  {
    var line := GetLine(buf);
    if line.head != "" {
      HeadersShrink(ParseHeader(d, line.head).filled.request, line.tail);
    }
  }
}
