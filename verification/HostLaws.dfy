/** Which host a path leads to, and what that host does with the request. */
module HostLaws {
  import opened Chars
  import opened RequestParsing
  import opened Routing

  /** `path` cut by the expression of split_first_section. */
  predicate IsSplit(path: string, head: string, tail: string) {
    && path == "/" + (head + tail) && All(Section, head)
    && (tail == "" || ((tail[0] == '/' || tail[0] == '?') && All(AnyChar, tail[1..])))
  }

  ghost predicate Splits(path: string) {
    exists head, tail :: IsSplit(path, head, tail)
  }

  /** What a section leaves to the next host: the rest, behind a '/'. */
  predicate IsRest(p: string, tail: string) {
    if tail != "" && tail[0] == '/' then p == tail else p == "/" + tail
  }

  /** The sections of `path` lead from `h` to the host `leaf`, which is no
      hierarchy and sees the path `p`. */
  ghost predicate Leads(h: Host, path: string, leaf: Host, p: string)
    decreases h
  {
    match h
    case Hierarchy(hosts, default) =>
      exists head, tail, rest ::
        && IsSplit(path, head, tail) && IsRest(rest, tail)
        && (if head in hosts then Leads(hosts[head], rest, leaf, p)
            else default.Some? && Leads(default.value, path, leaf, p))
    case _ => leaf == h && p == path
  }

  /** They lead to a hierarchy for which the path is no sections at all. */
  ghost predicate LeadsAstray(h: Host, path: string)
    decreases h
  {
    match h
    case Hierarchy(hosts, default) =>
      || !Splits(path)
      || (exists head, tail, rest ::
            && IsSplit(path, head, tail) && IsRest(rest, tail)
            && (if head in hosts then LeadsAstray(hosts[head], rest)
                else default.Some? && LeadsAstray(default.value, path)))
    case _ => false
  }

  /** They lead to a hierarchy that neither has the section nor a default. */
  ghost predicate LeadsNowhere(h: Host, path: string)
    decreases h
  {
    match h
    case Hierarchy(hosts, default) =>
      exists head, tail, rest ::
        && IsSplit(path, head, tail) && IsRest(rest, tail)
        && (if head in hosts then LeadsNowhere(hosts[head], rest)
            else default.None? || LeadsNowhere(default.value, path))
    case _ => false
  }

  /** What the user host takes off: a section, and if that is hexadecimal one
      more. */
  ghost predicate UserTakes(path: string, p: string) {
    exists head, tail ::
      && IsSplit(path, head, tail)
      && (if All(HexDigit, head)
          then exists p1, head2, tail2 :: IsRest(p1, tail) && IsSplit(p1, head2, tail2) && IsRest(p, tail2)
          else p == path)
  }

  /** The host sends the request back to be processed again. */
  ghost predicate SendsBack(leaf: Host, r: Request) {
    match leaf
    case Login => r.verb != POST
    case Logout => r.verb != POST
    case Users => "json" !in r.argsSet
    case User => "json" !in r.argsSet && exists p :: UserTakes(r.path, p)
    case _ => false
  }

  lemma SplitUnique(path: string, head: string, tail: string)
    requires IsSplit(path, head, tail)
    ensures SplitFirstSection(path) == Some(Cut(head, tail))
  {
    SplitIsTheMatch(path, head, tail);
  }

  lemma SplitExists(path: string)
    requires SplitFirstSection(path).Some?
    ensures var c := SplitFirstSection(path).value; IsSplit(path, c.head, c.tail) && IsRest(FixPath(c.tail), c.tail)
  {
    var c := SplitFirstSection(path).value;
    SplitIsTheMatch(path, c.head, c.tail);
  }

  lemma SplitsIff(path: string)
    ensures Splits(path) <==> SplitFirstSection(path).Some?
  {
    if Splits(path) {
      var head, tail :| IsSplit(path, head, tail);
      SplitUnique(path, head, tail);
    }
    if SplitFirstSection(path).Some? {
      SplitExists(path);
    }
    hide SplitFirstSection;
  }

  lemma RestIs(p: string, tail: string)
    ensures IsRest(p, tail) <==> p == FixPath(tail)
  {}

  lemma UserTakesIff(path: string, p: string)
    ensures UserTakes(path, p) <==> ConsumeUserPath(path) == Some(p)
  {
    if UserTakes(path, p) {
      var head, tail :|
        && IsSplit(path, head, tail)
        && (if All(HexDigit, head)
            then exists p1, head2, tail2 :: IsRest(p1, tail) && IsSplit(p1, head2, tail2) && IsRest(p, tail2)
            else p == path);
      SplitUnique(path, head, tail);
      if All(HexDigit, head) {
        var p1, head2, tail2 :| IsRest(p1, tail) && IsSplit(p1, head2, tail2) && IsRest(p, tail2);
        SplitUnique(p1, head2, tail2);
        RestIs(p1, tail);
        RestIs(p, tail2);
      }
    }
    if ConsumeUserPath(path) == Some(p) {
      SplitExists(path);
      var c := SplitFirstSection(path).value;
      if All(HexDigit, c.head) {
        SplitExists(FixPath(c.tail));
      }
    }
    hide SplitFirstSection, FixPath, IsSplit, IsRest, All;
  }

  // ----- The law of dispatch -----

  /** The host that does the work is the one the path leads to. */
  lemma {:induction false} LeadsIsDispatch(h: Host, r: Request, leaf: Host, p: string)
    requires Leads(h, r.path, leaf, p)
    ensures !leaf.Hierarchy? && Dispatch(h, r) == Dispatch(leaf, r.(path := p))
    decreases h
  {
    match h
    case Hierarchy(hosts, default) =>
      var head, tail, rest :|
        && IsSplit(r.path, head, tail) && IsRest(rest, tail)
        && (if head in hosts then Leads(hosts[head], rest, leaf, p)
            else default.Some? && Leads(default.value, r.path, leaf, p));
      SplitUnique(r.path, head, tail);
      RestIs(rest, tail);
      hide IsSplit, IsRest, SplitFirstSection, FixPath;
      if head in hosts {
        LeadsIsDispatch(hosts[head], r.(path := rest), leaf, p);
        assert r.(path := rest).(path := p) == r.(path := p);
      } else {
        LeadsIsDispatch(default.value, r, leaf, p);
      }
    case _ => assert r.(path := p) == r;
  }

  lemma AstrayStep(h: Host, path: string)
    requires LeadsAstray(h, path) && Splits(path)
    ensures h.Hierarchy? && SplitFirstSection(path).Some?
    ensures var c := SplitFirstSection(path).value;
            if c.head in h.hosts then LeadsAstray(h.hosts[c.head], FixPath(c.tail))
            else h.default.Some? && LeadsAstray(h.default.value, path)
  {
    var head, tail, rest :|
      && IsSplit(path, head, tail) && IsRest(rest, tail)
      && (if head in h.hosts then LeadsAstray(h.hosts[head], rest)
          else h.default.Some? && LeadsAstray(h.default.value, path));
    SplitUnique(path, head, tail);
    RestIs(rest, tail);
    hide IsSplit, IsRest, SplitFirstSection, FixPath, Splits;
  }

  lemma {:induction false} AstrayThrows(h: Host, r: Request)
    requires LeadsAstray(h, r.path)
    ensures Dispatch(h, r).Throws? && Dispatch(h, r).status == 400
    decreases h
  {
    SplitsIff(r.path);
    if Splits(r.path) {
      AstrayStep(h, r.path);
      var c := SplitFirstSection(r.path).value;
      hide LeadsAstray, SplitFirstSection, FixPath, Splits;
      if c.head in h.hosts {
        AstrayThrows(h.hosts[c.head], r.(path := FixPath(c.tail)));
      } else {
        AstrayThrows(h.default.value, r);
      }
    } else {
      hide SplitFirstSection, Splits;
    }
  }

  lemma {:induction false} NowhereThrows(h: Host, r: Request)
    requires LeadsNowhere(h, r.path)
    ensures Dispatch(h, r).Throws? && Dispatch(h, r).status == 404
    decreases h
  {
    var hosts, default := h.hosts, h.default;
    var head, tail, rest :|
      && IsSplit(r.path, head, tail) && IsRest(rest, tail)
      && (if head in hosts then LeadsNowhere(hosts[head], rest)
          else default.None? || LeadsNowhere(default.value, r.path));
    SplitUnique(r.path, head, tail);
    RestIs(rest, tail);
    hide IsSplit, IsRest, SplitFirstSection, FixPath, Splits;
    if head in hosts {
      NowhereThrows(hosts[head], r.(path := rest));
    } else if default.Some? {
      NowhereThrows(default.value, r);
    }
  }

  ghost predicate LeadsSomewhere(h: Host, path: string) {
    exists leaf, p :: Leads(h, path, leaf, p)
  }

  /** A path leads to a host, astray or nowhere. */
  lemma {:induction false} PathLeads(h: Host, path: string)
    ensures LeadsSomewhere(h, path) || LeadsAstray(h, path) || LeadsNowhere(h, path)
    decreases h
  {
    match h
    case Hierarchy(hosts, default) =>
      SplitsIff(path);
      if Splits(path) {
        SplitExists(path);
        var c := SplitFirstSection(path).value;
        var rest := FixPath(c.tail);
        hide IsSplit, IsRest, SplitFirstSection, FixPath, Splits;
        if c.head in hosts {
          PathLeads(hosts[c.head], rest);
          if LeadsSomewhere(hosts[c.head], rest) {
            var leaf, p :| Leads(hosts[c.head], rest, leaf, p);
            assert Leads(h, path, leaf, p);
          }
        } else if default.Some? {
          PathLeads(default.value, path);
          if LeadsSomewhere(default.value, path) {
            var leaf, p :| Leads(default.value, path, leaf, p);
            assert Leads(h, path, leaf, p);
          }
        }
      }
    case _ => assert Leads(h, path, h, path);
  }

  lemma LeafNeverThrows(leaf: Host, r: Request)
    requires !leaf.Hierarchy?
    ensures !Dispatch(leaf, r).Throws?
  {
    hide ConsumeUserPath;
  }

  /** The path a host has left in the request when it is done. */
  ghost predicate Leaves(leaf: Host, path: string, p: string) {
    if !leaf.User? then p == path
    else
      && (forall q :: UserTakes(path, q) ==> p == q)
      && (!Splits(path) ==> p == path)
      && ((forall q :: !UserTakes(path, q)) ==>
            forall head, tail :: IsSplit(path, head, tail) ==> IsRest(p, tail))
  }

  /** Users and user pages ask for "json", login and logout for POST. */
  lemma LeafLaw(leaf: Host, r: Request)
    requires !leaf.Hierarchy?
    ensures var d := Dispatch(leaf, r);
            && (d.SoftRedirect? <==> SendsBack(leaf, r))
            && (d.Answers? <==> !SendsBack(leaf, r))
            && (d.Answers? ==> d.handler == leaf)
            && d.request == r.(path := d.request.path) && Leaves(leaf, r.path, d.request.path)
  {
    if leaf.User? {
      UserLaw(r);
    } else {
      assert r.(path := r.path) == r;
    }
  }

  lemma UserLaw(r: Request)
    ensures var d := DispatchUser(r);
            && (d.SoftRedirect? <==> SendsBack(User, r))
            && (d.Answers? <==> !SendsBack(User, r))
            && (d.Answers? ==> d.handler == User)
            && d.request == r.(path := d.request.path) && Leaves(User, r.path, d.request.path)
  {
    forall q
      ensures UserTakes(r.path, q) <==> ConsumeUserPath(r.path) == Some(q)
    {
      UserTakesIff(r.path, q);
    }
    SplitsIff(r.path);
    forall head, tail | IsSplit(r.path, head, tail)
      ensures SplitFirstSection(r.path) == Some(Cut(head, tail)) && IsRest(FixPath(tail), tail)
    {
      SplitUnique(r.path, head, tail);
      RestIs(FixPath(tail), tail);
    }
    assert r.(path := r.path) == r;
    hide ConsumeUserPath, SplitFirstSection, UserTakes, Splits, IsSplit, IsRest, FixPath;
  }

  /** For any tree: a request is sent back or answered by the very host that its
      sections lead to, and by what that host asks for alone; it is refused with
      400 or 404 exactly when they lead astray or nowhere. */
  lemma DispatchLaw(h: Host, r: Request)
    ensures var d := Dispatch(h, r);
            && (d.Throws? && d.status == 400 <==> LeadsAstray(h, r.path))
            && (d.Throws? && d.status == 404 <==> LeadsNowhere(h, r.path))
            && (d.Throws? ==> d.status == 400 || d.status == 404)
            && (!d.Throws? <==> LeadsSomewhere(h, r.path))
            && (forall leaf, p :: Leads(h, r.path, leaf, p) ==>
                  && (d.SoftRedirect? <==> SendsBack(leaf, r.(path := p)))
                  && (d.Answers? <==> !SendsBack(leaf, r.(path := p)))
                  && (d.Answers? ==> d.handler == leaf)
                  && d.request == r.(path := d.request.path) && Leaves(leaf, p, d.request.path))
  {
    var d := Dispatch(h, r);
    forall leaf, p | Leads(h, r.path, leaf, p)
      ensures !d.Throws?
      ensures d.SoftRedirect? <==> SendsBack(leaf, r.(path := p))
      ensures d.Answers? <==> !SendsBack(leaf, r.(path := p))
      ensures d.Answers? ==> d.handler == leaf
      ensures d.request == r.(path := d.request.path) && Leaves(leaf, p, d.request.path)
    {
      LeadsIsDispatch(h, r, leaf, p);
      LeafNeverThrows(leaf, r.(path := p));
      LeafLaw(leaf, r.(path := p));
      hide *;
    }
    PathLeads(h, r.path);
    if LeadsAstray(h, r.path) {
      AstrayThrows(h, r);
    }
    if LeadsNowhere(h, r.path) {
      NowhereThrows(h, r);
    }
    hide Dispatch, Leads, LeadsAstray, LeadsNowhere, SendsBack, Leaves;
  }

  /** With POST and "json" every host answers by itself. */
  lemma PostJsonIsAnswered(h: Host, r: Request)
    requires r.verb == POST && "json" in r.argsSet
    ensures !Dispatch(h, r).SoftRedirect?
  {
    DispatchLaw(h, r);
    hide Dispatch, Leads, LeadsAstray, LeadsNowhere, Leaves;
  }
}
