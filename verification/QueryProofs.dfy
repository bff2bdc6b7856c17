/** A query string and a form body with the same text mean the same: the two
    places that read arguments, each with its own expression and its own way of
    telling pairs from keys, find the same items. */
module QueryProofs {
  import opened Chars
  import opened FormCoding
  import opened RequestParsing

  // ----- The scanner of process_uri -----

  function ItemOf(g: ArgGroups): Item {
    if g.key == "" then KeyOnly(g.keyOnly) else KeyValue(g.key, g.value)
  }

  function ItemsOf(groups: seq<ArgGroups>): seq<Item> {
    if groups == [] then [] else [ItemOf(groups[0])] + ItemsOf(groups[1..])
  }

  function UriParse(s: string): ArgParse
    requires s != "" && MatchUriArg(s).Some?
  {
    var g := MatchUriArg(s).value;
    ArgParse(if IsSeparator(s[0]) then s[..1] else "", ItemOf(g), g.rest)
  }

  /** The longest key: no longer one has '=' behind it. */
  lemma {:induction false} KeyLengthIsLongest(s: string, n: nat, k: nat)
    requires k <= n <= |s| && k < |s| && s[k] == '='
    ensures KeyLength(s, n) >= k
  {
    if k < n && !(n < |s| && s[n] == '=') {
      KeyLengthIsLongest(s, n - 1, k);
    }
  }

  lemma InsideRun(body: string, k: nat)
    requires k <= |Span(Segment, body).head|
    ensures var c := Span(Segment, body);
            && k <= |body| && body[..k] == c.head[..k]
            && Span(Segment, body[k..]) == Cut(c.head[k..], c.tail)
  {
    var c := Span(Segment, body);
    SpanIsLongest(Segment, body);
    assert body[..k] == c.head[..k] && body[k..] == c.head[k..] + c.tail;
    SpanOf(Segment, c.head[k..], c.tail);
  }

  /** The key that backtracking finds lies inside the run. */
  lemma KeyInsideRun(body: string)
    ensures var c := Span(Segment, body);
            var k := KeyLength(body, |c.head|);
            k > 0 ==> k < |c.head| && c.head[k] == '='
  {
    var c := Span(Segment, body);
    var k := KeyLength(body, |c.head|);
    SpanIsLongest(Segment, body);
    if k > 0 {
      assert body[k] == (c.head + c.tail)[k];
    }
  }

  function BodyOf(s: string): string {
    if s != "" && IsSeparator(s[0]) then s[1..] else s
  }

  /** The groups in terms of the run they are cut from. */
  lemma GroupsOfRun(s: string)
    requires MatchUriArg(s).Some?
    ensures var c, g := Span(Segment, BodyOf(s)), MatchUriArg(s).value;
            var k := KeyLength(BodyOf(s), |c.head|);
            && c.head != "" && g.rest == c.tail && (g.key == "" <==> k == 0)
            && (k == 0 ==> g.keyOnly == c.head)
            && (k > 0 ==> k < |c.head| && c.head[k] == '=' && g.key == c.head[..k] && g.value == c.head[k + 1..])
  {
    var body := BodyOf(s);
    var c := Span(Segment, body);
    var k := KeyLength(body, |c.head|);
    KeyInsideRun(body);
    var g := MatchUriArg(s).value;
    assert k == 0 ==> g == ArgGroups("", "", c.head, c.tail);
    assert k > 0 ==>
      var v := Span(Segment, body[k + 1..]); g == ArgGroups(body[..k], v.head, "", v.tail);
    hide *;
    if k > 0 {
      InsideRun(body, k);
      InsideRun(body, k + 1);
    }
  }

  lemma GroupsText(s: string)
    requires MatchUriArg(s).Some?
    ensures var c, i := Span(Segment, BodyOf(s)), ItemOf(MatchUriArg(s).value);
            ItemText(i) == c.head && i.key != "" && c.head != ""
  {
    GroupsOfRun(s);
    var c := Span(Segment, BodyOf(s));
    var k := KeyLength(BodyOf(s), |c.head|);
    hide Span, KeyLength, MatchUriArg;
    if k > 0 {
      assert c.head == c.head[..k] + "=" + c.head[k + 1..];
    }
  }

  lemma UriIsParse(s: string)
    requires s != "" && MatchUriArg(s).Some?
    ensures IsArgParse(s, UriParse(s))
  {
    var u, body := UriParse(s), BodyOf(s);
    var c := Span(Segment, body);
    GroupsOfRun(s);
    GroupsText(s);
    SpanIsLongest(Segment, body);
    assert s == u.sep + body;
    assert u.item == ItemOf(MatchUriArg(s).value) && u.rest == c.tail;
    assert u.sep == "" || (|u.sep| == 1 && IsSeparator(u.sep[0]));
    hide UriParse, MatchUriArg, Span, ItemText, ItemOf, BodyOf;
    Assoc(u.sep, c.head, c.tail);
  }

  /** process_uri takes the match that backtracking reaches first, and finds one
      if there is one. */
  lemma UriMatchIsPreferred(s: string, m: ArgParse)
    requires IsArgParse(s, m)
    ensures s != "" && MatchUriArg(s).Some? && ArgPreferred(UriParse(s), m)
  {
    SameSeparator(s, m);
    AfterSeparator(s, m);
    var body := BodyOf(s);
    assert body == s[|m.sep|..];
    var c := Span(Segment, body);
    SpanIsLongest(Segment, body);
    LongestPiece(Segment, c, ItemText(m.item), m.rest);
    assert ItemText(m.item) != "";
    assert MatchUriArg(s).Some?;
    GroupsOfRun(s);
    assert |UriParse(s).sep| == |m.sep|;
    if m.item.KeyValue? {
      assert body[|m.item.key|] == ItemText(m.item)[|m.item.key|] == '=';
      KeyLengthIsLongest(body, |c.head|, |m.item.key|);
    }
    hide Span, KeyLength, MatchUriArg, IsArgParse;
  }

  /** At most one match is preferred to all others. */
  lemma PreferredIsUnique(s: string, a: ArgParse, b: ArgParse)
    requires IsArgParse(s, a) && IsArgParse(s, b) && ArgPreferred(a, b) && ArgPreferred(b, a)
    ensures a == b
  {
    AfterSeparator(s, a);
    AfterSeparator(s, b);
    assert a.sep == s[..|a.sep|] && b.sep == s[..|b.sep|];
    var t := s[|a.sep|..];
    assert ItemText(a.item) == t[..|ItemText(a.item)|] && ItemText(b.item) == t[..|ItemText(b.item)|];
    assert |ItemText(a.item)| == |ItemText(b.item)|;
    assert a.rest == t[|ItemText(a.item)|..] && b.rest == t[|ItemText(b.item)|..];
    SameItem(a.item, b.item);
  }

  lemma SameItem(a: Item, b: Item)
    requires ItemText(a) == ItemText(b) && (a.KeyValue? <==> b.KeyValue?) && |a.key| == |b.key|
    ensures a == b
  {
    var t := ItemText(a);
    assert a.key == t[..|a.key|] && b.key == t[..|b.key|];
    if a.KeyValue? {
      assert a.value == t[|a.key| + 1..] && b.value == t[|b.key| + 1..];
    }
  }

  /** So both scanners find the same match. */
  lemma SameMatch(s: string)
    ensures MatchUriArg(s).Some? <==> MatchArg(s).Some?
    ensures MatchArg(s).Some? ==>
              var f, g := MatchArg(s).value, MatchUriArg(s).value;
              f.item == ItemOf(g) && f.rest == g.rest
  {
    if s != "" && MatchArg(s).Some? {
      BestIsParse(s);
      UriMatchIsPreferred(s, BestParse(s));
      UriIsParse(s);
      ArgMatchIsPreferred(s, UriParse(s));
      PreferredIsUnique(s, UriParse(s), BestParse(s));
    } else if s != "" && MatchUriArg(s).Some? {
      UriIsParse(s);
      ArgNoMatch(s, UriParse(s));
    }
    hide IsArgParse, ArgPreferred, MatchArg, MatchUriArg, ItemOf;
  }

  lemma {:induction false} SameFind(s: string)
    ensures FindUriArg(s).Some? <==> FindArg(s).Some?
    ensures FindArg(s).Some? ==>
              var f, g := FindArg(s).value, FindUriArg(s).value;
              f.item == ItemOf(g) && f.rest == g.rest
    decreases |s|
  {
    SameMatch(s);
    if s != "" && MatchArg(s).None? {
      SameFind(s[1..]);
    }
    hide MatchArg, MatchUriArg, ItemOf;
  }

  /** The two iterations go through the same items. */
  lemma {:induction false} SameItems(s: string)
    ensures ItemsOf(UriArgs(s)) == Items(s)
    decreases |s|
  {
    SameFind(s);
    if FindArg(s).Some? {
      var g := FindUriArg(s).value;
      SameItems(g.rest);
      assert ([g] + UriArgs(g.rest))[1..] == UriArgs(g.rest);
    }
    hide FindArg, FindUriArg, ItemOf;
  }

  // ----- Bags of items -----

  function KeyValues(items: seq<Item>): Pairs {
    if items == [] then multiset{}
    else if items[0].KeyValue? then multiset{(items[0].key, items[0].value)} + KeyValues(items[1..])
    else KeyValues(items[1..])
  }

  function KeyOnlys(items: seq<Item>): multiset<string> {
    if items == [] then multiset{}
    else if items[0].KeyOnly? then multiset{items[0].key} + KeyOnlys(items[1..])
    else KeyOnlys(items[1..])
  }

  lemma {:induction false} BagsOfGroups(groups: seq<ArgGroups>)
    ensures PairArgs(groups) == KeyValues(ItemsOf(groups))
    ensures KeyArgs(groups) == KeyOnlys(ItemsOf(groups))
  {
    if groups != [] {
      BagsOfGroups(groups[1..]);
      assert ItemsOf(groups)[1..] == ItemsOf(groups[1..]);
    }
  }

  /** What process_uri collects, in terms of the items of decode_uri_args. */
  lemma UriBags(s: string)
    ensures PairArgs(UriArgs(s)) == KeyValues(Items(s)) && KeyArgs(UriArgs(s)) == KeyOnlys(Items(s))
  {
    SameItems(s);
    BagsOfGroups(UriArgs(s));
  }

  lemma {:induction false} BagsCount(items: seq<Item>)
    ensures |KeyValues(items)| + |KeyOnlys(items)| == |items|
  {
    if items != [] {
      BagsCount(items[1..]);
    }
  }

  // ----- Decoding and counting -----

  predicate DecodesTo(p: (string, string), k: string, v: string) {
    Decode(p.0) == k && Decode(p.1) == v
  }

  /** `sub` is what `pairs` holds of the pairs that decode to (k, v). */
  ghost predicate ArePairsOf(sub: Pairs, pairs: Pairs, k: string, v: string) {
    forall p :: sub[p] == if DecodesTo(p, k, v) then pairs[p] else 0
  }

  ghost predicate AreKeysOf(sub: multiset<string>, keys: multiset<string>, k: string) {
    forall x :: sub[x] == if Decode(x) == k then keys[x] else 0
  }

  function PairsTo(items: seq<Item>, k: string, v: string): Pairs {
    if items == [] then multiset{}
    else if items[0].KeyValue? && DecodesTo((items[0].key, items[0].value), k, v) then
      multiset{(items[0].key, items[0].value)} + PairsTo(items[1..], k, v)
    else PairsTo(items[1..], k, v)
  }

  function KeysTo(items: seq<Item>, k: string): multiset<string> {
    if items == [] then multiset{}
    else if items[0].KeyOnly? && Decode(items[0].key) == k then multiset{items[0].key} + KeysTo(items[1..], k)
    else KeysTo(items[1..], k)
  }

  lemma {:induction false} PairsToAre(items: seq<Item>, k: string, v: string)
    ensures ArePairsOf(PairsTo(items, k, v), KeyValues(items), k, v)
  {
    if items != [] {
      PairsToAre(items[1..], k, v);
    }
    hide DecodesTo;
  }

  lemma {:induction false} PairsToCount(items: seq<Item>, k: string, v: string)
    ensures |PairsTo(items, k, v)| == KeyValues(DecodeItems(items))[(k, v)]
  {
    if items != [] {
      PairsToCount(items[1..], k, v);
      assert DecodeItems(items)[1..] == DecodeItems(items[1..]);
    }
    hide Decode;
  }

  lemma {:induction false} KeysToAre(items: seq<Item>, k: string)
    ensures AreKeysOf(KeysTo(items, k), KeyOnlys(items), k)
  {
    if items != [] {
      KeysToAre(items[1..], k);
    }
    hide Decode;
  }

  lemma {:induction false} KeysToCount(items: seq<Item>, k: string)
    ensures |KeysTo(items, k)| == KeyOnlys(DecodeItems(items))[k]
  {
    if items != [] {
      KeysToCount(items[1..], k);
      assert DecodeItems(items)[1..] == DecodeItems(items[1..]);
    }
    hide Decode;
  }

  lemma {:induction false} DecodedBagsCount(items: seq<Item>)
    ensures |KeyValues(DecodeItems(items))| == |KeyValues(items)|
    ensures |KeyOnlys(DecodeItems(items))| == |KeyOnlys(items)|
    ensures |DecodeItems(items)| == |items|
  {
    if items != [] {
      DecodedBagsCount(items[1..]);
      assert DecodeItems(items)[1..] == DecodeItems(items[1..]);
    }
    hide Decode;
  }

  // ----- Agreement -----

  /** The nonempty runs between the separators. */
  function Runs(s: string): seq<string>
    decreases |s|
  {
    var c := Span(Segment, s);
    var rest := if c.tail == "" then [] else Runs(c.tail[1..]);
    if c.head == "" then rest else [c.head] + rest
  }

  lemma {:induction false} OneItemPerRun(s: string)
    ensures |SplitItems(s)| == |Runs(s)|
    ensures forall i :: 0 <= i < |Runs(s)| ==> SplitItems(s)[i] == PieceItem(Runs(s)[i])
    decreases |s|
  {
    var c := Span(Segment, s);
    hide Span, PieceItem;
    if c.tail != "" {
      OneItemPerRun(c.tail[1..]);
    }
  }

  /** Iterating the arguments gives one item for each nonempty run. */
  lemma ItemsAreTheRuns(args: string)
    ensures |Items(args)| == |Runs(args)|
    ensures forall i :: 0 <= i < |Runs(args)| ==> Items(args)[i] == PieceItem(Runs(args)[i])
  {
    ItemsAreThePieces(args);
    OneItemPerRun(args);
    hide *;
  }

  lemma UriIs(d: Request, path: string, args: string)
    requires path != "" && All(PathChar, path) && All(AnyChar, args) && d.uri == path + ("?" + args)
    ensures ParseUri(d) == Filled(d.(path := path,
                                     argsMap := d.argsMap + PairArgs(UriArgs(args)),
                                     argsSet := d.argsSet + KeyArgs(UriArgs(args))), None)
  {
    SpanOf(PathChar, path, "?" + args);
    assert ("?" + args)[1..] == args;
    hide Span, All, UriArgs;
  }

  /** The request as process_uri leaves it for the target `path?args`. */
  function Collected(path: string, args: string): Request {
    ParseUri(FRESH_REQUEST.(uri := path + ("?" + args))).request
  }

  predicate IsTarget(path: string, args: string) {
    path != "" && All(PathChar, path) && All(AnyChar, args)
  }

  /** The bags are those of the items that decode_uri_args goes through. */
  lemma CollectedItems(path: string, args: string)
    requires IsTarget(path, args)
    ensures var r := Collected(path, args);
            r.path == path && r.argsMap == KeyValues(Items(args)) && r.argsSet == KeyOnlys(Items(args))
  {
    UriIs(FRESH_REQUEST.(uri := path + ("?" + args)), path, args);
    UriBags(args);
    hide ParseUri, Items, UriArgs, KeyValues, KeyOnlys, All, PairArgs, KeyArgs;
  }

  lemma PairsCounted(items: seq<Item>, k: string, v: string, sub: Pairs)
    requires ArePairsOf(sub, KeyValues(items), k, v)
    ensures KeyValues(DecodeItems(items))[(k, v)] == |sub|
  {
    PairsToAre(items, k, v);
    PairsToCount(items, k, v);
    hide KeyValues, DecodeItems, PairsTo, DecodesTo;
    assert sub == PairsTo(items, k, v);
  }

  lemma KeysCounted(items: seq<Item>, k: string, sub: multiset<string>)
    requires AreKeysOf(sub, KeyOnlys(items), k)
    ensures KeyOnlys(DecodeItems(items))[k] == |sub|
  {
    KeysToAre(items, k);
    KeysToCount(items, k);
    hide KeyOnlys, DecodeItems, KeysTo, Decode;
    assert sub == KeysTo(items, k);
  }

  /** What process_uri collects from the query `args`, and the `calls` that
      decode_uri_args makes on the same text: as many pairs and as many keys,
      one of them for each nonempty run, and each decoded pair or key is called
      exactly as often as collected ones decode to it. */
  lemma QueryAgreesWithForm(
      path: string, args: string, calls: seq<Item>, k: string, v: string, pairs: Pairs, keys: multiset<string>)
    requires IsTarget(path, args)
    requires calls == DecodeItems(Items(args)) // what DecodeUriArgs(args) returns
    requires ArePairsOf(pairs, Collected(path, args).argsMap, k, v)
    requires AreKeysOf(keys, Collected(path, args).argsSet, k)
    ensures KeyValues(calls)[(k, v)] == |pairs| && KeyOnlys(calls)[k] == |keys|
    ensures |KeyValues(calls)| == |Collected(path, args).argsMap|
    ensures |KeyOnlys(calls)| == |Collected(path, args).argsSet|
    ensures |Collected(path, args).argsMap| + |Collected(path, args).argsSet| == |calls| == |Runs(args)|
  {
    hide *;
    CollectedItems(path, args);
    PairsCounted(Items(args), k, v, pairs);
    KeysCounted(Items(args), k, keys);
    BagsCount(Items(args));
    DecodedBagsCount(Items(args));
    ItemsAreTheRuns(args);
  }

  /** As multisets: some items are both what process_uri collected and what,
      decoded in order, was called. */
  lemma QueryItemsAreCalled(path: string, args: string, calls: seq<Item>)
    requires IsTarget(path, args)
    requires calls == DecodeItems(Items(args)) // what DecodeUriArgs(args) returns
    ensures exists items :: calls == DecodeItems(items)
                         && Collected(path, args).argsMap == KeyValues(items)
                         && Collected(path, args).argsSet == KeyOnlys(items)
  {
    hide *;
    CollectedItems(path, args);
  }
}
