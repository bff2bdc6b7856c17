/** The host tree: section dispatch, path rewriting and soft redirects. */
module Routing {
  import opened Chars
  import opened RequestParsing

  /** `Other` stands for every host that always answers or throws by itself. */
  datatype Host =
    | Hierarchy(hosts: map<string, Host>, default: Option<Host>)
    | Login
    | Logout
    | Users
    | User
    | Other(id: nat)

  const STATUS_BAD_REQUEST := 400
  const STATUS_NOT_FOUND := 404

  /** host::split_first_section: `^/([^/?]*)([/?].*)?$` */
  function SplitFirstSection(path: string): (r: Option<Cut>)
    ensures r.Some? ==> |r.value.head| + |r.value.tail| + 1 == |path|
    ensures r.Some? && r.value.tail != "" ==> r.value.tail[0] == '/' || r.value.tail[0] == '?'
  {
    if path == "" || path[0] != '/' then None
    else
      var c := Span(Section, path[1..]);
      if c.tail == "" || ((c.tail[0] == '/' || c.tail[0] == '?') && All(AnyChar, c.tail[1..])) then Some(c)
      else None
  }

  /** It answers with the groups of the expression, in the only way it matches. */
  lemma SplitIsTheMatch(path: string, head: string, tail: string)
    ensures SplitFirstSection(path) == Some(Cut(head, tail)) <==>
              && path == "/" + (head + tail) && All(Section, head)
              && (tail == "" || ((tail[0] == '/' || tail[0] == '?') && All(AnyChar, tail[1..])))
  {
    if SplitFirstSection(path).Some? {
      SpanIsLongest(Section, path[1..]);
      assert path == "/" + path[1..];
    }
    if path == "/" + (head + tail) && All(Section, head) && (tail == "" || tail[0] == '/' || tail[0] == '?') {
      assert path[1..] == head + tail;
      SpanOf(Section, head, tail);
    }
    hide Span, All;
  }

  /** The path the next handler sees. */
  function FixPath(trailing: string): (p: string)
    ensures |trailing| <= |p| <= |trailing| + 1
  {
    if trailing == "" || trailing[0] != '/' then "/" + trailing else trailing
  }

  /** What one call of `response` on a host does with the request. */
  datatype Dispatched =
    | Answers(request: Request, handler: Host)
    | Throws(request: Request, status: int)
    | SoftRedirect(request: Request)

  predicate WantsJson(r: Request) {
    r.argsSet["json"] > 0
  }

  /** user::response up to the point where it answers: `user_ref` and, if that
      is hexadecimal, one more section are taken off the path. */
  function ConsumeUserPath(path: string): Option<string> {
    match SplitFirstSection(path)
    case None => None
    case Some(c) =>
      if All(HexDigit, c.head) then
        match SplitFirstSection(FixPath(c.tail))
        case None => None
        case Some(c2) => Some(FixPath(c2.tail))
      else Some(path)
  }

  function DispatchUser(r: Request): Dispatched {
    match ConsumeUserPath(r.path)
    case None =>
      var c := SplitFirstSection(r.path);
      Answers(if c.Some? then r.(path := FixPath(c.value.tail)) else r, User)
    case Some(p) =>
      var r1 := r.(path := p);
      if WantsJson(r1) then Answers(r1, User) else SoftRedirect(r1)
  }

  function Dispatch(h: Host, r: Request): Dispatched
    decreases h
  {
    match h
    case Hierarchy(hosts, default) => (
      match SplitFirstSection(r.path)
      case None => Throws(r, STATUS_BAD_REQUEST)
      case Some(c) =>
        if c.head in hosts then Dispatch(hosts[c.head], r.(path := FixPath(c.tail)))
        else if default.Some? then Dispatch(default.value, r)
        else Throws(r, STATUS_NOT_FOUND))
    case Login => if r.verb != POST then SoftRedirect(r) else Answers(r, Login)
    case Logout => if r.verb != POST then SoftRedirect(r) else Answers(r, Logout)
    case Users => if WantsJson(r) then Answers(r, Users) else SoftRedirect(r)
    case User => DispatchUser(r)
    case Other(_) => Answers(r, h)
  }

  // ----- The reprocess loop of session::process_request -----

  /** The result of the pass that follows `n` soft redirects, or of an earlier
      pass that was not redirected. */
  function After(h: Host, r: Request, n: nat): Dispatched
    decreases n
  {
    var d := Dispatch(h, r);
    if n == 0 || !d.SoftRedirect? then d else After(h, d.request, n - 1)
  }

  ghost predicate Terminates(h: Host, r: Request) {
    exists n: nat :: !After(h, r, n).SoftRedirect?
  }

  predicate MayRedirect(h: Host) {
    h.Login? || h.Logout? || h.Users? || h.User?
  }

  /** The host that the path "/" reaches. */
  function SlashRoute(h: Host): Host {
    if h.Hierarchy? && "" in h.hosts then SlashRoute(h.hosts[""])
    else if h.Hierarchy? && h.default.Some? then SlashRoute(h.default.value)
    else h
  }

  /** The host that a section nobody registered reaches. */
  function DefaultRoute(h: Host): Host {
    if h.Hierarchy? && h.default.Some? then DefaultRoute(h.default.value) else h
  }

  /** Checked on the configuration alone. */
  predicate LoopFree(h: Host) {
    !MayRedirect(SlashRoute(h)) && !MayRedirect(DefaultRoute(h))
  }

  /** `p` is `q`, or a later part of `q`, perhaps behind a new '/'. */
  ghost predicate RewrittenFrom(p: string, q: string) {
    p == q || exists i :: 1 <= i <= |q| && IsTailFrom(p, q, i)
  }

  predicate IsTailFrom(p: string, q: string, i: nat)
    requires i <= |q|
  {
    p == q[i..] || p == "/" + q[i..]
  }

  lemma RewrittenTransitive(p: string, q: string, o: string)
    requires RewrittenFrom(p, q) && RewrittenFrom(q, o)
    ensures RewrittenFrom(p, o)
  {
    if p != q && q != o {
      var i :| 1 <= i <= |q| && IsTailFrom(p, q, i);
      var j :| 1 <= j <= |o| && IsTailFrom(q, o, j);
      TailOfTail(p, q, i, o, j);
    }
  }

  lemma TailOfTail(p: string, q: string, i: nat, o: string, j: nat)
    requires 1 <= i <= |q| && 1 <= j <= |o| && IsTailFrom(p, q, i) && IsTailFrom(q, o, j)
    ensures RewrittenFrom(p, o)
  {
    if q == o[j..] {
      assert q[i..] == o[j + i..];
      assert IsTailFrom(p, o, j + i);
    } else {
      assert q[i..] == o[j + i - 1..];
      assert IsTailFrom(p, o, j + i - 1);
    }
  }

  /** One section taken off a path. */
  lemma StepRewrites(path: string)
    requires SplitFirstSection(path).Some?
    ensures var c := SplitFirstSection(path).value;
            RewrittenFrom(FixPath(c.tail), path)
  {
    var c := SplitFirstSection(path).value;
    SpanIsLongest(Section, path[1..]);
    var i := 1 + |c.head|;
    assert path[1..] == c.head + c.tail;
    assert path[1..][|c.head|..] == c.tail;
    assert path[i..] == c.tail;
    assert IsTailFrom(FixPath(c.tail), path, i);
  }

  /** A path whose first section is empty and that no step can shorten. */
  predicate SlashLike(path: string) {
    var c := SplitFirstSection(path);
    c.Some? && c.value.head == "" && (c.value.tail == "" || c.value.tail[0] != '/')
  }

  lemma StepShortens(path: string)
    requires SplitFirstSection(path).Some?
    ensures var p := FixPath(SplitFirstSection(path).value.tail);
            |p| <= |path| && (|p| == |path| <==> SlashLike(path)) && (SlashLike(path) ==> p == path)
  {
    var c := SplitFirstSection(path).value;
    SpanIsLongest(Section, path[1..]);
    if SlashLike(path) {
      assert path[1..] == c.tail;
      assert path == "/" + path[1..];
    }
  }

  lemma UserShortens(path: string)
    requires ConsumeUserPath(path).Some?
    ensures var p := ConsumeUserPath(path).value;
            |p| <= |path| && (|p| == |path| ==> p == path) && RewrittenFrom(p, path)
  {
    var c := SplitFirstSection(path).value;
    if All(HexDigit, c.head) {
      var p1 := FixPath(c.tail);
      StepShortens(path);
      StepShortens(p1);
      StepRewrites(path);
      StepRewrites(p1);
      RewrittenTransitive(FixPath(SplitFirstSection(p1).value.tail), p1, path);
    }
  }

  /** No step lets the path grow, and each keeps the rest of the request. */
  lemma {:induction false} DispatchShortens(h: Host, r: Request)
    ensures var r1 := Dispatch(h, r).request;
            && r1 == r.(path := r1.path)
            && |r1.path| <= |r.path|
            && (|r1.path| == |r.path| ==> r1 == r)
            && RewrittenFrom(r1.path, r.path)
    decreases h
  {
    match h
    case Hierarchy(hosts, default) =>
      var c := SplitFirstSection(r.path);
      if c.Some? {
        if c.value.head in hosts {
          var r1 := r.(path := FixPath(c.value.tail));
          StepShortens(r.path);
          StepRewrites(r.path);
          DispatchShortens(hosts[c.value.head], r1);
          RewrittenTransitive(Dispatch(h, r).request.path, r1.path, r.path);
        } else if default.Some? {
          DispatchShortens(default.value, r);
        }
      }
    case User =>
      if ConsumeUserPath(r.path).Some? {
        UserShortens(r.path);
      } else if SplitFirstSection(r.path).Some? {
        StepShortens(r.path);
        StepRewrites(r.path);
      }
    case _ =>
  }

  /** A soft redirect that changes nothing comes from one of the two routes. */
  lemma {:induction false} StuckRoute(h: Host, r: Request)
    requires Dispatch(h, r) == SoftRedirect(r)
    ensures MayRedirect(if SlashLike(r.path) then SlashRoute(h) else DefaultRoute(h))
    decreases h
  {
    match h
    case Hierarchy(hosts, default) =>
      var c := SplitFirstSection(r.path).value;
      if c.head in hosts {
        var r1 := r.(path := FixPath(c.tail));
        StepShortens(r.path);
        DispatchShortens(hosts[c.head], r1);
        assert SlashLike(r.path) && c.head == "" && r1 == r;
        StuckRoute(hosts[""], r);
        assert SlashRoute(h) == SlashRoute(hosts[""]);
      } else {
        StuckRoute(default.value, r);
        assert DefaultRoute(h) == DefaultRoute(default.value);
        assert SlashLike(r.path) ==> SlashRoute(h) == SlashRoute(default.value);
      }
    case _ =>
  }

  /** Under LoopFree every soft redirect makes the path strictly shorter. */
  lemma RedirectShortens(h: Host, r: Request)
    requires LoopFree(h) && Dispatch(h, r).SoftRedirect?
    ensures |Dispatch(h, r).request.path| < |r.path|
  {
    DispatchShortens(h, r);
    if |Dispatch(h, r).request.path| == |r.path| {
      StuckRoute(h, r);
    }
  }

  /** At most one pass per character of the path. */
  lemma {:induction false} LoopFreeTerminates(h: Host, r: Request, n: nat)
    requires LoopFree(h) && n >= |r.path|
    ensures !After(h, r, n).SoftRedirect?
    decreases n
  {
    var d := Dispatch(h, r);
    if d.SoftRedirect? {
      RedirectShortens(h, r);
      hide Dispatch, LoopFree;
      LoopFreeTerminates(h, d.request, n - 1);
    }
  }

  lemma {:induction false} StuckForever(h: Host, r: Request, n: nat)
    requires Dispatch(h, r) == SoftRedirect(r)
    ensures After(h, r, n).SoftRedirect?
  {
    if n > 0 {
      StuckForever(h, r, n - 1);
    }
  }

  /** No POST and no "?json": every such handler redirects it softly. */
  predicate IsPlain(r: Request) {
    r.verb != POST && !WantsJson(r)
  }

  lemma {:induction false} SlashIsStuck(h: Host, r: Request)
    requires MayRedirect(SlashRoute(h)) && IsPlain(r) && r.path == "/"
    ensures Dispatch(h, r) == SoftRedirect(r)
    decreases h
  {
    assert SplitFirstSection("/") == Some(Cut("", ""));
    assert FixPath("") == "/" && r.(path := FixPath("")) == r;
    match h
    case Hierarchy(hosts, default) =>
      if "" in hosts {
        SlashIsStuck(hosts[""], r);
      } else {
        SlashIsStuck(default.value, r);
      }
    case _ =>
  }

  function Unknown(n: nat): string {
    if n == 0 then "" else "g" + Unknown(n - 1)
  }

  lemma {:induction false} UnknownIs(n: nat)
    ensures |Unknown(n)| == n && All(Section, Unknown(n)) && (n > 0 ==> Unknown(n)[0] == 'g')
  {
    if n > 0 {
      UnknownIs(n - 1);
    }
  }

  /** No hierarchy on the default route has the section `s`. */
  predicate Avoids(h: Host, s: string) {
    h.Hierarchy? ==> s !in h.hosts && (h.default.Some? ==> Avoids(h.default.value, s))
  }

  lemma {:induction false} LongerThan(keys: set<string>) returns (n: nat)
    ensures forall k :: k in keys ==> |k| < n
    decreases |keys|
  {
    if keys == {} {
      n := 0;
    } else {
      var k :| k in keys;
      var m := LongerThan(keys - {k});
      n := if m > |k| then m else |k| + 1;
      forall x | x in keys
        ensures |x| < n
      {
        assert x == k || x in keys - {k};
      }
    }
  }

  lemma {:induction false} SomeUnknownSection(h: Host) returns (n: nat)
    ensures forall m: nat :: m >= n ==> Avoids(h, Unknown(m))
    decreases h
  {
    n := 0;
    if h.Hierarchy? {
      n := LongerThan(h.hosts.Keys);
      if h.default.Some? {
        var m := SomeUnknownSection(h.default.value);
        n := if m > n then m else n;
      }
      forall m: nat | m >= n
        ensures Avoids(h, Unknown(m))
      {
        UnknownIs(m);
        assert Unknown(m) !in h.hosts.Keys;
      }
    }
  }

  lemma {:induction false} DefaultIsStuck(h: Host, s: string, r: Request)
    requires MayRedirect(DefaultRoute(h)) && Avoids(h, s)
    requires s != "" && All(Section, s) && s[0] == 'g'
    requires IsPlain(r) && r.path == "/" + s
    ensures Dispatch(h, r) == SoftRedirect(r)
    decreases h
  {
    SpanOf(Section, s, "");
    assert s + "" == s;
    assert ("/" + s)[1..] == s;
    assert SplitFirstSection("/" + s) == Some(Cut(s, ""));
    match h
    case Hierarchy(hosts, default) =>
      DefaultIsStuck(default.value, s, r);
    case User =>
      assert !Is(HexDigit, s[0]);
    case _ =>
  }

  /** Every plain request for `path` is redirected forever. */
  ghost predicate Diverges(h: Host, path: string) {
    forall r :: IsPlain(r) && r.path == path ==> !Terminates(h, r)
  }

  lemma StuckNeverEnds(h: Host, r: Request)
    requires Dispatch(h, r) == SoftRedirect(r)
    ensures !Terminates(h, r)
  {
    forall n: nat
      ensures After(h, r, n).SoftRedirect?
    {
      StuckForever(h, r, n);
    }
  }

  /** A host tree that is not loop-free has a path that loops: "/", or a section
      that nobody registered. */
  lemma DivergingPath(h: Host) returns (n: nat)
    requires !LoopFree(h)
    ensures Diverges(h, "/" + Unknown(n))
  {
    if MayRedirect(SlashRoute(h)) {
      n := 0;
      assert "/" + Unknown(n) == "/";
      forall r | IsPlain(r) && r.path == "/"
        ensures !Terminates(h, r)
      {
        SlashIsStuck(h, r);
        StuckNeverEnds(h, r);
      }
    } else {
      var m := SomeUnknownSection(h);
      n := m + 1;
      UnknownIs(n);
      forall r | IsPlain(r) && r.path == "/" + Unknown(n)
        ensures !Terminates(h, r)
      {
        DefaultIsStuck(h, Unknown(n), r);
        StuckNeverEnds(h, r);
      }
    }
  }

  /** The reprocess loop ends for every request exactly when the tree is
      loop-free. */
  lemma TerminationIffLoopFree(h: Host)
    ensures LoopFree(h) <==> forall r :: Terminates(h, r)
  {
    if LoopFree(h) {
      forall r
        ensures Terminates(h, r)
      {
        LoopFreeTerminates(h, r, |r.path|);
      }
    } else {
      var n := DivergingPath(h);
      var r := FRESH_REQUEST.(path := "/" + Unknown(n));
      assert IsPlain(r) && !Terminates(h, r);
    }
  }

  lemma LaterPass(h: Host, r: Request, n: nat)
    requires Dispatch(h, r).SoftRedirect? && !After(h, r, n).SoftRedirect?
    ensures n > 0 && !After(h, Dispatch(h, r).request, n - 1).SoftRedirect?
  {}

  /** In a loop that ends every soft redirect makes the path strictly shorter. */
  lemma TerminatingStep(h: Host, r: Request)
    requires Terminates(h, r) && Dispatch(h, r).SoftRedirect?
    ensures Terminates(h, Dispatch(h, r).request) && |Dispatch(h, r).request.path| < |r.path|
  {
    var n: nat :| !After(h, r, n).SoftRedirect?;
    LaterPass(h, r, n);
    DispatchShortens(h, r);
    if Dispatch(h, r) == SoftRedirect(r) {
      StuckForever(h, r, n);
    }
  }

  /** Whether the loop ends for `r` shows within one pass per character. */
  lemma {:induction false} TerminatesWithin(h: Host, r: Request)
    ensures Terminates(h, r) <==> !After(h, r, |r.path|).SoftRedirect?
    decreases |r.path|
  {
    if Terminates(h, r) && Dispatch(h, r).SoftRedirect? {
      TerminatingStep(h, r);
      var r1 := Dispatch(h, r).request;
      TerminatesWithin(h, r1);
      EndStays(h, r1, |r1.path|, |r.path| - 1);
    }
  }

  lemma {:induction false} EndStays(h: Host, r: Request, n: nat, m: nat)
    requires n <= m && !After(h, r, n).SoftRedirect?
    ensures !After(h, r, m).SoftRedirect?
    decreases n
  {
    if n > 0 && Dispatch(h, r).SoftRedirect? {
      EndStays(h, Dispatch(h, r).request, n - 1, m - 1);
    }
  }

  /** The path at every pass is a rewriting of the first one. */
  lemma {:induction false} PathsAreRewritings(h: Host, r: Request, n: nat)
    ensures var r1 := After(h, r, n).request;
            r1 == r.(path := r1.path) && |r1.path| <= |r.path| && RewrittenFrom(r1.path, r.path)
    decreases n
  {
    DispatchShortens(h, r);
    var d := Dispatch(h, r);
    if n > 0 && d.SoftRedirect? {
      PathsAreRewritings(h, d.request, n - 1);
      RewrittenTransitive(After(h, r, n).request.path, d.request.path, r.path);
    }
  }
}
