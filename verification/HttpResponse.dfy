/** server::protocol::http::response, and the one that carries a template. */
module HttpResponse {
  import opened Chars
  import opened RequestParsing
  import opened Templates
  import opened TemplatePage
  import opened ResponseFormat

  class Response {
    var headers: string
    const buffers: Buffers

    function Value(): Parts
      reads this, buffers
    {
      Parts(headers, buffers.items)
    }

    constructor (status: Status, version: Version)
      ensures fresh(buffers) && Sendable(Value()) && Value() == NewResponse(version, status)
    {
      headers := "";
      buffers := new Buffers([""]); // reserved for the headers
      new;
      headers := headers + "HTTP";
      headers := headers + "/";
      headers := headers + VersionText(version);
      headers := headers + StartString(status);
      UpdateHeadersBuffer();
      assert headers == StatusLine(version, status) + "\r\n";
    }

    /** Takes off the final "\r\n". */
    method PrepareUpdateHeadersBuffer()
      requires |headers| >= 2
      modifies `headers
      ensures headers == old(headers)[..|old(headers)| - 2]
    {
      headers := headers[..|headers| - 2];
    }

    method UpdateHeadersBuffer()
      requires buffers.items != []
      modifies `headers, buffers
      ensures headers == old(headers) + "\r\n"
      ensures buffers.items == old(buffers.items)[0 := headers]
    {
      headers := headers + "\r\n";
      buffers.items := buffers.items[0 := headers];
    }

    method AddHeader(name: string, value: string)
      requires Sendable(Value())
      modifies `headers, buffers
      ensures Value() == ResponseFormat.AddHeader(old(Value()), Header(name, value))
      ensures Sendable(Value())
    {
      PrepareUpdateHeadersBuffer();
      headers := headers + name;
      headers := headers + ": ";
      headers := headers + value;
      headers := headers + "\r\n";
      UpdateHeadersBuffer();
    }

    method AddBody(data: string)
      requires Sendable(Value())
      modifies buffers
      ensures Value() == ResponseFormat.AddBody(old(Value()), data)
      ensures Sendable(Value())
    {
      buffers.items := buffers.items + [data];
    }

    method ResetCookie(name: string)
      requires Sendable(Value())
      modifies `headers, buffers
      ensures Value() == ResponseFormat.AddHeader(
                           old(Value()), Header("Set-Cookie", name + "=; expires=Thu, 01 Jan 1970 00:00:01 GMT;"))
      ensures Sendable(Value())
    {
      AddHeader("Set-Cookie", name + "=; expires=Thu, 01 Jan 1970 00:00:01 GMT;");
    }
  }

  /** The constructor of template_pages_only::response; `ok` is false when
      generating the page throws. */
  method NewTemplateResponse(
      status: Status, version: Version, verb: Method, server: string, page: Page, mime: string,
      vars: Variables, clock: Clock)
    returns (r: Response, ok: bool)
    ensures fresh(r) && fresh(r.buffers)
    ensures var p := TemplateParts(version, status, verb, server, mime, GenerateChunks(page.chunks, vars, clock, 0));
            ok == p.Some? && (ok ==> r.Value() == p.value)
  {
    hide StatusLine, NewResponse, ResponseFormat.AddHeader, GenerateChunks, Decimal;
    r := new Response(status, version);
    if server != "" {
      r.AddHeader("Server", server);
    }
    var length;
    length, ok := page.Generate(r.buffers, vars, clock, 0);
    if !ok {
      return;
    }
    if mime != "" {
      r.AddHeader("Content-Type", mime);
    }
    r.AddHeader("Content-Length", Decimal(length));
    if verb == HEAD {
      r.buffers.items := r.buffers.items[..1];
    }
  }
}
