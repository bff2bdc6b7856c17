/** The `response` methods of the hosts, up to the point where one of them
    builds its answer: they overwrite the request's path on the way. */
module HostHandlers {
  import opened Chars
  import opened RequestParsing
  import opened Http = HttpRequest
  import opened Routing

  /** What a call of `response` ends with. */
  datatype HostResult = ResponseOf(handler: Host) | NullResponse | HostError(status: int)

  function AsDispatched(r: Request, result: HostResult): Dispatched {
    match result
    case ResponseOf(handler) => Answers(r, handler)
    case NullResponse => SoftRedirect(r)
    case HostError(status) => Throws(r, status)
  }

  /** The virtual call `host.response(worker, request)`. */
  method Respond(h: Host, request: HttpRequest) returns (result: HostResult)
    modifies request`path
    ensures AsDispatched(request.Data(), result) == Dispatch(h, old(request.Data()))
    decreases h
  {
    match h {
      case Hierarchy(_, _) => result := RespondHierarchy(h, request);
      case Login => result := if request.verb != POST then NullResponse else ResponseOf(h);
      case Logout => result := if request.verb != POST then NullResponse else ResponseOf(h);
      case Users => result := if request.argsSet["json"] == 0 then NullResponse else ResponseOf(h);
      case User => result := RespondUser(request);
      case Other(_) => result := ResponseOf(h);
    }
  }

  method RespondHierarchy(h: Host, request: HttpRequest) returns (result: HostResult)
    requires h.Hierarchy?
    modifies request`path
    ensures AsDispatched(request.Data(), result) == Dispatch(h, old(request.Data()))
    decreases h, 0
  {
    var sections := SplitFirstSection(request.path);
    if sections.None? {
      return HostError(STATUS_BAD_REQUEST);
    }
    var first, trailing := sections.value.head, sections.value.tail;
    if first !in h.hosts {
      if h.default.Some? {
        result := Respond(h.default.value, request);
        return;
      }
      return HostError(STATUS_NOT_FOUND);
    }
    FixRequestPath(request, trailing);
    result := Respond(h.hosts[first], request);
  }

  /** fix_request_path in user.cpp; hierarchy.cpp repeats it. */
  method FixRequestPath(request: HttpRequest, trailing: string)
    modifies request`path
    ensures request.Data() == old(request.Data()).(path := FixPath(trailing))
  {
    if trailing == "" || trailing[0] != '/' {
      request.path := "/";
      request.path := request.path + trailing;
    } else {
      request.path := trailing;
    }
  }

  method RespondUser(request: HttpRequest) returns (result: HostResult)
    modifies request`path
    ensures AsDispatched(request.Data(), result) == DispatchUser(old(request.Data()))
  {
    var sections := SplitFirstSection(request.path);
    if sections.None? {
      return ResponseOf(User);
    }
    if All(HexDigit, sections.value.head) {
      FixRequestPath(request, sections.value.tail);
      sections := SplitFirstSection(request.path);
      if sections.None? {
        return ResponseOf(User);
      }
      FixRequestPath(request, sections.value.tail);
    }
    if request.argsSet["json"] == 0 {
      return NullResponse;
    }
    return ResponseOf(User);
  }
}
