/** Percent decoding and the argument scanner of server/protocol/http/utils. */
module FormCoding {
  import opened Chars

  // ----- decode_str -----

  function HexValue(c: char): (v: nat)
    requires Is(HexDigit, c)
    ensures v < 16
  {
    if c <= '9' then c as int - '0' as int
    else if c <= 'F' then c as int - 'A' as int + 10
    else c as int - 'a' as int + 10
  }

  /** The expression %[[:xdigit:]]{2,2} matches at `p`. */
  predicate EscapeAt(s: string, p: nat) {
    p + 2 < |s| && s[p] == '%' && Is(HexDigit, s[p + 1]) && Is(HexDigit, s[p + 2])
  }

  function EscapeChar(s: string, p: nat): char
    requires EscapeAt(s, p)
  {
    (16 * HexValue(s[p + 1]) + HexValue(s[p + 2])) as char
  }

  function PlusChar(c: char): char {
    if c == '+' then ' ' else c
  }

  /** The decoder in one left-to-right pass; it never looks at what it wrote. */
  function Decode(s: string): string
    decreases |s|
  {
    if s == "" then ""
    else if EscapeAt(s, 0) then [EscapeChar(s, 0)] + Decode(s[3..])
    else [PlusChar(s[0])] + Decode(s[1..])
  }

  /** The same pass, by position. */
  function DecodeFrom(s: string, p: nat): string
    requires p <= |s|
    decreases |s| - p
  {
    if p == |s| then ""
    else if EscapeAt(s, p) then [EscapeChar(s, p)] + DecodeFrom(s, p + 3)
    else [PlusChar(s[p])] + DecodeFrom(s, p + 1)
  }

  lemma {:induction false} DecodeByPosition(s: string, p: nat)
    requires p <= |s|
    ensures DecodeFrom(s, p) == Decode(s[p..])
    decreases |s| - p
  {
    if p < |s| {
      var t := s[p..];
      if EscapeAt(s, p) {
        DecodeByPosition(s, p + 3);
        assert EscapeAt(t, 0) && t[3..] == s[p + 3..];
      } else {
        DecodeByPosition(s, p + 1);
        assert !EscapeAt(t, 0) && t[1..] == s[p + 1..];
      }
    }
  }

  /** Where std::regex_iterator finds the next escape, or |s|. */
  function NextEscape(s: string, p: nat): (q: nat)
    requires p <= |s|
    ensures p <= q <= |s|
    ensures q < |s| ==> EscapeAt(s, q)
    ensures forall k :: p <= k < q ==> !EscapeAt(s, k)
    decreases |s| - p
  {
    if p == |s| || EscapeAt(s, p) then p else NextEscape(s, p + 1)
  }

  lemma {:induction false} PlainBlock(s: string, p: nat, q: nat)
    requires p <= q <= |s| && forall k :: p <= k < q ==> !EscapeAt(s, k)
    requires forall k :: 0 <= k < |s| ==> s[k] != '+'
    ensures DecodeFrom(s, p) == s[p..q] + DecodeFrom(s, q)
    decreases q - p
  {
    if p < q {
      PlainBlock(s, p + 1, q);
    }
  }

  lemma SameEscape(s: string, t: string, p: nat)
    requires |s| == |t| && EscapeAt(s, p)
    requires forall k :: p <= k < p + 3 ==> t[k] == s[k]
    ensures EscapeAt(t, p) && EscapeChar(t, p) == EscapeChar(s, p)
  {}

  /** Replacing every '+' first changes nothing for the escapes. */
  lemma {:induction false} PlusFirst(s: string, t: string, p: nat)
    requires |s| == |t| && p <= |s|
    requires forall k :: 0 <= k < |s| ==> t[k] == PlusChar(s[k])
    ensures DecodeFrom(t, p) == DecodeFrom(s, p)
    decreases |s| - p
  {
    if p < |s| {
      if EscapeAt(s, p) {
        SameEscape(s, t, p);
        PlusFirst(s, t, p + 3);
      } else {
        PlusFirst(s, t, p + 1);
      }
    }
  }

  /** `res` is the decoding of everything before `p`. */
  ghost predicate Emitted(s: string, res: string, p: nat) {
    p <= |s| && res + DecodeFrom(s, p) == DecodeFrom(s, 0)
  }

  lemma EmitBlock(s: string, res: string, p: nat, q: nat)
    requires Emitted(s, res, p) && p <= q <= NextEscape(s, p)
    requires forall k :: 0 <= k < |s| ==> s[k] != '+'
    ensures Emitted(s, res + s[p..q], q)
  {
    PlainBlock(s, p, q);
    hide DecodeFrom, NextEscape;
    Assoc(res, s[p..q], DecodeFrom(s, q));
  }

  lemma EmitEscape(s: string, res: string, p: nat)
    requires Emitted(s, res, p) && EscapeAt(s, p)
    ensures Emitted(s, res + [EscapeChar(s, p)], p + 3)
  {
    Assoc(res, [EscapeChar(s, p)], DecodeFrom(s, p + 3));
  }

  /** The two passes of the source: '+' in place, then the copied blocks
      between escapes, tracked by `strPosOld`. */
  method DecodeStr(str: string) returns (res: string)
    ensures res == Decode(str)
  {
    var buf := str;
    for i := 0 to |str|
      invariant |buf| == |str|
      invariant forall k :: 0 <= k < i ==> buf[k] == PlusChar(str[k])
      invariant forall k :: i <= k < |str| ==> buf[k] == str[k]
    {
      if buf[i] == '+' {
        buf := buf[i := ' '];
      }
    }
    PlusFirst(str, buf, 0);
    assert forall k :: 0 <= k < |buf| ==> buf[k] != '+';

    res := "";
    var strPosOld := 0;
    var it := NextEscape(buf, 0);
    while it < |buf|
      invariant strPosOld <= it <= |buf| && it == NextEscape(buf, strPosOld)
      invariant Emitted(buf, res, strPosOld)
      decreases |buf| - strPosOld
    {
      EmitBlock(buf, res, strPosOld, it);
      res, strPosOld := AddData(buf, res, strPosOld, it);
      EmitEscape(buf, res, it);
      res := res + [EscapeChar(buf, it)];
      strPosOld := strPosOld + 3;
      it := NextEscape(buf, strPosOld);
    }
    EmitBlock(buf, res, strPosOld, |buf|);
    res, strPosOld := AddData(buf, res, strPosOld, |buf|);
    DecodeByPosition(str, 0);
    assert str[0..] == str;
  }

  /** The lambda `add_data`: copies the block since `posOld`. */
  method AddData(buf: string, res: string, posOld: nat, posCurr: nat) returns (r: string, pos: nat)
    requires posOld <= posCurr <= |buf|
    ensures r == res + buf[posOld..posCurr] && pos == posCurr
  {
    r, pos := res, posOld;
    var len := posCurr - posOld;
    if len > 0 {
      r := r + buf[posOld..posOld + len];
      pos := posCurr;
    }
  }

  /** Number of positions at which an escape starts. */
  function Escapes(s: string): nat {
    if s == "" then 0 else (if EscapeAt(s, 0) then 1 else 0) + Escapes(s[1..])
  }

  lemma {:induction false} DecodedLength(s: string)
    ensures |Decode(s)| == |s| - 2 * Escapes(s)
    decreases |s|
  {
    if s != "" {
      if EscapeAt(s, 0) {
        var t, u := s[1..], s[1..][1..];
        assert t[0] == s[1] && u[0] == s[2] && u[1..] == s[3..];
        assert !EscapeAt(t, 0) && !EscapeAt(u, 0);
        assert Escapes(t) == Escapes(u) == Escapes(u[1..]);
        DecodedLength(s[3..]);
      } else {
        DecodedLength(s[1..]);
      }
    }
  }

  /** Where nothing is an escape only '+' changes, stray '%' signs included. */
  lemma {:induction false} DecodePlain(s: string)
    requires forall p: nat :: !EscapeAt(s, p)
    ensures |Decode(s)| == |s|
    ensures forall i :: 0 <= i < |s| ==> Decode(s)[i] == if s[i] == '+' then ' ' else s[i]
  {
    if s != "" {
      forall p: nat
        ensures !EscapeAt(s[1..], p)
      {
        assert !EscapeAt(s, p + 1);
      }
      assert !EscapeAt(s, 0);
      DecodePlain(s[1..]);
    }
  }

  /** How an encoder may write one character. */
  datatype Spelling = Literal | Plus | Hex(upper1: bool, upper2: bool)

  function HexChar(v: nat, upper: bool): (c: char)
    requires v < 16
    ensures Is(HexDigit, c) && HexValue(c) == v
  {
    if v < 10 then (v + '0' as int) as char
    else if upper then (v - 10 + 'A' as int) as char
    else (v - 10 + 'a' as int) as char
  }

  predicate CanSpell(c: char, w: Spelling) {
    match w
    case Literal => c != '%' && c != '+'
    case Plus => c == ' '
    case Hex(_, _) => c as int < 256
  }

  function Spell(c: char, w: Spelling): string
    requires CanSpell(c, w)
  {
    match w
    case Literal => [c]
    case Plus => "+"
    case Hex(u1, u2) => ['%', HexChar(c as int / 16, u1), HexChar(c as int % 16, u2)]
  }

  predicate CanEncode(s: string, how: seq<Spelling>) {
    |how| == |s| && forall i :: 0 <= i < |s| ==> CanSpell(s[i], how[i])
  }

  function Encode(s: string, how: seq<Spelling>): string
    requires CanEncode(s, how)
  {
    if s == "" then "" else Spell(s[0], how[0]) + Encode(s[1..], how[1..])
  }

  /** Section 2.1 of RFC 3986: decoding undoes every percent-encoder, whichever
      characters it escapes and whichever hexadecimal case it uses. */
  lemma {:induction false} DecodeInvertsEncode(s: string, how: seq<Spelling>)
    requires CanEncode(s, how)
    ensures Decode(Encode(s, how)) == s
  {
    if s != "" {
      DecodeInvertsEncode(s[1..], how[1..]);
      DecodeSpelling(s[0], how[0], Encode(s[1..], how[1..]));
      assert s == [s[0]] + s[1..];
    }
  }

  lemma DecodeSpelling(c: char, w: Spelling, rest: string)
    requires CanSpell(c, w)
    ensures Decode(Spell(c, w) + rest) == [c] + Decode(rest)
  {
    var e := Spell(c, w) + rest;
    if w.Hex? {
      assert e[1] == HexChar(c as int / 16, w.upper1) && e[2] == HexChar(c as int % 16, w.upper2);
      assert EscapeAt(e, 0) && EscapeChar(e, 0) == c && e[3..] == rest;
    } else {
      assert !EscapeAt(e, 0) && PlusChar(e[0]) == c && e[1..] == rest;
    }
  }

  // ----- decode_uri_args -----

  /** One callback: kv_action(key, value) or k_action(key). */
  datatype Item = KeyValue(key: string, value: string) | KeyOnly(key: string)

  predicate IsSeparator(c: char) {
    c == '&' || c == '?'
  }

  /** Length of the part of `s` before its last '=', or -1 when it has none. */
  function LastEquals(s: string): (e: int)
    ensures -1 <= e < |s|
  {
    if s == "" then -1
    else if s[|s| - 1] == '=' then |s| - 1
    else LastEquals(s[..|s| - 1])
  }

  lemma {:induction false} LastEqualsIsLast(s: string)
    ensures var e := LastEquals(s);
            (e >= 0 ==> s[e] == '=') && forall k :: e < k < |s| ==> s[k] != '='
  {
    if s != "" && s[|s| - 1] != '=' {
      LastEqualsIsLast(s[..|s| - 1]);
    }
  }

  /** A nonempty run of segment characters is one item: the key runs to the last
      '=', unless that is its first character. */
  function PieceItem(piece: string): Item {
    var e := LastEquals(piece);
    if e > 0 then KeyValue(piece[..e], piece[e + 1..]) else KeyOnly(piece)
  }

  /** A match of the argument expression and the text after it. */
  datatype Found = Found(item: Item, rest: string)

  /** `(&|?)?(([^&?]+)=([^&?]*)|([^&?]+))` at the start of `s`. */
  function MatchArg(s: string): (r: Option<Found>)
    ensures r.Some? ==> |r.value.rest| < |s|
  {
    var c := Span(Segment, if s != "" && IsSeparator(s[0]) then s[1..] else s);
    if c.head == "" then None else Some(Found(PieceItem(c.head), c.tail))
  }

  /** Any way the expression can cut a prefix off `s`. */
  datatype ArgParse = ArgParse(sep: string, item: Item, rest: string)

  function ItemText(i: Item): string {
    match i
    case KeyValue(k, v) => k + "=" + v
    case KeyOnly(k) => k
  }

  predicate IsArgParse(s: string, m: ArgParse) {
    && s == m.sep + ItemText(m.item) + m.rest
    && (m.sep == "" || (|m.sep| == 1 && IsSeparator(m.sep[0])))
    && m.item.key != "" && All(Segment, ItemText(m.item))
  }

  /** Backtracking order: take the separator, then prefer the key/value
      alternative, then the longest key, then the longest value. */
  predicate ArgPreferred(a: ArgParse, b: ArgParse) {
    || |a.sep| > |b.sep|
    || (|a.sep| == |b.sep| &&
        (|| (a.item.KeyValue? && b.item.KeyOnly?)
         || (a.item.KeyValue? && b.item.KeyValue? &&
             (|a.item.key| > |b.item.key|
              || (|a.item.key| == |b.item.key| && |a.item.value| >= |b.item.value|)))
         || (a.item.KeyOnly? && b.item.KeyOnly? && |a.item.key| >= |b.item.key|)))
  }

  lemma PieceItemText(piece: string)
    requires piece != ""
    ensures ItemText(PieceItem(piece)) == piece && PieceItem(piece).key != ""
  {
    LastEqualsIsLast(piece);
  }

  /** No match means that no parse exists. */
  lemma {:induction false} ArgNoMatch(s: string, m: ArgParse)
    requires IsArgParse(s, m)
    ensures MatchArg(s).Some?
  {
    var text := ItemText(m.item);
    assert text[0] == m.item.key[0] && Is(Segment, text[0]);
    assert s[|m.sep|] == text[0];
    assert m.sep != "" ==> s[0] == m.sep[0] && s[1..][0] == s[1];
  }

  function BestParse(s: string): ArgParse
    requires s != "" && MatchArg(s).Some?
  {
    var f := MatchArg(s).value;
    ArgParse(if IsSeparator(s[0]) then s[..1] else "", f.item, f.rest)
  }

  lemma BestIsParse(s: string)
    requires s != "" && MatchArg(s).Some?
    ensures IsArgParse(s, BestParse(s))
  {
    var best := BestParse(s);
    var body := s[|best.sep|..];
    var c := Span(Segment, body);
    SpanIsLongest(Segment, body);
    assert best.item == PieceItem(c.head) && best.rest == c.tail && c.head != "";
    assert s == best.sep + body;
    assert best.sep == "" || (|best.sep| == 1 && IsSeparator(best.sep[0]));
    hide BestParse, MatchArg, Span, PieceItem, ItemText;
    PieceItemText(c.head);
    Assoc(best.sep, c.head, c.tail);
  }

  /** The scanner takes the parse that backtracking reaches first. */
  lemma ArgMatchIsPreferred(s: string, m: ArgParse)
    requires MatchArg(s).Some? && IsArgParse(s, m)
    ensures s != "" && IsArgParse(s, BestParse(s)) && ArgPreferred(BestParse(s), m)
  {
    SameSeparator(s, m);
    BestIsParse(s);
    var sep := BestParse(s).sep;
    if |m.sep| == |sep| {
      var body := s[|sep|..];
      SpanIsLongest(Segment, body);
      var c := Span(Segment, body);
      AfterSeparator(s, m);
      hide IsArgParse, Span;
      LongestPiece(Segment, c, ItemText(m.item), m.rest);
      PieceBeatsItem(c.head, m.item);
    }
  }

  lemma AfterSeparator(s: string, m: ArgParse)
    requires IsArgParse(s, m)
    ensures s[|m.sep|..] == ItemText(m.item) + m.rest
    ensures m.item.key != "" && All(Segment, ItemText(m.item))
  {
    assert m.sep + ItemText(m.item) + m.rest == m.sep + (ItemText(m.item) + m.rest);
  }

  lemma SameSeparator(s: string, m: ArgParse)
    requires IsArgParse(s, m)
    ensures s != "" && (|m.sep| == 1 ==> IsSeparator(s[0]))
    ensures |m.sep| == 0 ==> !IsSeparator(s[0])
  {
    var text := ItemText(m.item);
    assert text[0] == m.item.key[0] && Is(Segment, text[0]);
    assert s[|m.sep|] == text[0];
    assert m.sep != "" ==> s[0] == m.sep[0];
  }

  lemma PieceBeatsItem(piece: string, i: Item)
    requires piece != "" && i.key != "" && ItemText(i) <= piece
    ensures ArgPreferred(ArgParse("", PieceItem(piece), ""), ArgParse("", i, ""))
  {
    LastEqualsIsLast(piece);
    if i.KeyValue? {
      assert piece[|i.key|] == ItemText(i)[|i.key|] == '=';
    }
  }

  /** std::regex_iterator: the first match in `s`. */
  function FindArg(s: string): (r: Option<Found>)
    ensures r.Some? ==> |r.value.rest| < |s|
  {
    if MatchArg(s).Some? then MatchArg(s)
    else if s != "" then FindArg(s[1..])
    else None
  }

  /** What the iteration yields on `s`. */
  function Items(s: string): seq<Item>
    decreases |s|
  {
    var f := FindArg(s);
    if f.None? then [] else [f.value.item] + Items(f.value.rest)
  }

  function DecodeItem(i: Item): Item {
    match i
    case KeyValue(k, v) => KeyValue(Decode(k), Decode(v))
    case KeyOnly(k) => KeyOnly(Decode(k))
  }

  function DecodeItems(items: seq<Item>): (r: seq<Item>) {
    if items == [] then [] else [DecodeItem(items[0])] + DecodeItems(items[1..])
  }

  lemma {:induction false} DecodeItemsAppend(a: seq<Item>, i: Item)
    ensures DecodeItems(a + [i]) == DecodeItems(a) + [DecodeItem(i)]
  {
    if a == [] {
      assert a + [i] == [i];
    } else {
      assert (a + [i])[1..] == a[1..] + [i];
      DecodeItemsAppend(a[1..], i);
    }
  }

  lemma NothingToDecode()
    ensures Items("") == [] && DecodeItems([]) == []
  {}

  /** decode_uri_args: `calls` are the callbacks in the order they are made. */
  method DecodeUriArgs(str: string) returns (ok: bool, calls: seq<Item>)
    ensures ok && calls == DecodeItems(Items(str))
  {
    hide MatchArg, FindArg, DecodeItems, DecodeItem;
    assert Items("") == [] && DecodeItems([]) == [] by { NothingToDecode(); }
    calls := [];
    ghost var done := [];
    if str != "" {
      var it := FindArg(str);
      ghost var rest := str;
      while it.Some?
        invariant it == FindArg(rest)
        invariant done + Items(rest) == Items(str)
        invariant calls == DecodeItems(done)
        decreases |rest|
      {
        var call := CallAction(it.value.item);
        calls := calls + [call];
        DecodeItemsAppend(done, it.value.item);
        Assoc(done, [it.value.item], Items(it.value.rest));
        done, rest := done + [it.value.item], it.value.rest;
        it := FindArg(it.value.rest);
      }
      assert Items(rest) == [] && done + [] == done;
    }
    ok := true;
  }

  /** The branch on `it->length(3)`: which callback is called, with what. */
  method CallAction(item: Item) returns (call: Item)
    ensures call == DecodeItem(item)
  {
    match item
    case KeyValue(k, v) =>
      var key := DecodeStr(k);
      var value := DecodeStr(v);
      call := KeyValue(key, value);
    case KeyOnly(k) =>
      var key := DecodeStr(k);
      call := KeyOnly(key);
  }

  /** Independent reading of the same string: cut it at every '&' and '?' and
      drop the empty pieces. */
  function SplitItems(s: string): seq<Item>
    decreases |s|
  {
    var c := Span(Segment, s);
    var rest := if c.tail == "" then [] else SplitItems(c.tail[1..]);
    if c.head == "" then rest else [PieceItem(c.head)] + rest
  }

  lemma SeparatorSkips(s: string)
    requires s != "" && IsSeparator(s[0])
    ensures Items(s) == Items(s[1..])
  {
    SeparatorThenMatch(s);
    assert FindArg(s) == FindArg(s[1..]);
    hide FindArg, MatchArg;
  }

  lemma SeparatorThenMatch(s: string)
    requires s != "" && IsSeparator(s[0])
    ensures MatchArg(s).Some? ==> MatchArg(s) == MatchArg(s[1..])
  {
    hide PieceItem;
  }

  /** The regular-expression iteration yields exactly one item per nonempty
      piece between separators, in order. */
  lemma {:induction false} ItemsAreThePieces(s: string)
    ensures Items(s) == SplitItems(s)
    decreases |s|
  {
    var c := Span(Segment, s);
    SpanIsLongest(Segment, s);
    if c.tail != "" {
      SeparatorSkips(c.tail);
      ItemsAreThePieces(c.tail[1..]);
    }
    if s != "" && c.head != "" {
      assert s[0] == c.head[0];
      assert Items(s) == [PieceItem(c.head)] + Items(c.tail);
    }
  }

  // ----- section 17.13.4.1 of HTML 4.01 -----

  /** A form field with the spelling an encoder chose for its key and value. */
  datatype Field = Field(key: string, value: string, keyHow: seq<Spelling>, valueHow: seq<Spelling>)

  /** Nonempty key; '&' and '?' never literal, '=' never literal in the value. */
  predicate FieldOk(f: Field) {
    && f.key != ""
    && CanEncode(f.key, f.keyHow) && CanEncode(f.value, f.valueHow)
    && (forall i :: 0 <= i < |f.key| && f.keyHow[i].Literal? ==> !IsSeparator(f.key[i]))
    && (forall i :: 0 <= i < |f.value| && f.valueHow[i].Literal? ==>
          !IsSeparator(f.value[i]) && f.value[i] != '=')
  }

  function FieldText(f: Field): string
    requires FieldOk(f)
  {
    Encode(f.key, f.keyHow) + "=" + Encode(f.value, f.valueHow)
  }

  function FormText(fields: seq<Field>): string
    requires forall i :: 0 <= i < |fields| ==> FieldOk(fields[i])
  {
    if fields == [] then ""
    else FieldText(fields[0]) + (if |fields| == 1 then "" else "&" + FormText(fields[1..]))
  }

  lemma {:induction false} EncodeAvoids(s: string, how: seq<Spelling>, c: char)
    requires CanEncode(s, how)
    requires c == '&' || c == '?' || c == '='
    requires forall i :: 0 <= i < |s| && how[i].Literal? ==> s[i] != c
    ensures forall k :: 0 <= k < |Encode(s, how)| ==> Encode(s, how)[k] != c
    ensures s != "" ==> Encode(s, how) != ""
  {
    if s != "" {
      EncodeAvoids(s[1..], how[1..], c);
      assert forall k :: 0 <= k < |Spell(s[0], how[0])| ==> Spell(s[0], how[0])[k] != c;
    }
  }

  lemma FieldPiece(f: Field)
    requires FieldOk(f)
    ensures All(Segment, FieldText(f)) && FieldText(f) != ""
    ensures DecodeItem(PieceItem(FieldText(f))) == KeyValue(f.key, f.value)
  {
    EncodeAvoids(f.key, f.keyHow, '&');
    EncodeAvoids(f.key, f.keyHow, '?');
    EncodeAvoids(f.value, f.valueHow, '&');
    EncodeAvoids(f.value, f.valueHow, '?');
    EncodeAvoids(f.value, f.valueHow, '=');
    DecodeInvertsEncode(f.key, f.keyHow);
    DecodeInvertsEncode(f.value, f.valueHow);
    PieceOfPair(Encode(f.key, f.keyHow), Encode(f.value, f.valueHow));
  }

  /** The key may hold '=' itself: it runs to the last one. */
  lemma PieceOfPair(k: string, v: string)
    requires k != "" && All(Segment, k) && All(Segment, v)
    requires forall i :: 0 <= i < |v| ==> v[i] != '='
    ensures All(Segment, k + "=" + v)
    ensures PieceItem(k + "=" + v) == KeyValue(k, v)
  {
    var t := k + "=" + v;
    LastEqualsIsLast(t);
    assert t[|k|] == '=';
    assert forall j :: |k| < j < |t| ==> t[j] == v[j - |k| - 1];
    assert t[..|k|] == k && t[|k| + 1..] == v;
  }

  lemma FirstPiece(a: string, b: string)
    requires All(Segment, a) && a != ""
    ensures Items(a + "&" + b) == [PieceItem(a)] + Items(b)
    ensures Items(a) == [PieceItem(a)]
  {
    var tail := "&" + b;
    assert a + "&" + b == a + tail && tail[1..] == b && a + "" == a;
    SpanOf(Segment, a, tail);
    SpanOf(Segment, a, "");
    ItemsAreThePieces(a + tail);
    ItemsAreThePieces(a);
    ItemsAreThePieces(b);
  }

  function FieldItems(fields: seq<Field>): seq<Item> {
    if fields == [] then [] else [KeyValue(fields[0].key, fields[0].value)] + FieldItems(fields[1..])
  }

  lemma DecodeItemsCons(x: Item, rest: seq<Item>)
    ensures DecodeItems([x] + rest) == [DecodeItem(x)] + DecodeItems(rest)
    ensures DecodeItems([x]) == [DecodeItem(x)]
  {
    assert ([x] + rest)[1..] == rest;
  }

  /** Whatever the encoder escaped, decode_uri_args calls kv_action with exactly
      the submitted pairs, in order, and never calls k_action. */
  lemma {:induction false} FormRoundTrip(fields: seq<Field>)
    requires forall i :: 0 <= i < |fields| ==> FieldOk(fields[i])
    ensures DecodeItems(Items(FormText(fields))) == FieldItems(fields)
  {
    if fields != [] {
      FormRoundTrip(fields[1..]);
      FirstField(fields);
    }
  }

  lemma FirstField(fields: seq<Field>)
    requires fields != [] && forall i :: 0 <= i < |fields| ==> FieldOk(fields[i])
    ensures DecodeItems(Items(FormText(fields)))
         == [KeyValue(fields[0].key, fields[0].value)] + DecodeItems(Items(FormText(fields[1..])))
  {
    var a, b := FieldText(fields[0]), FormText(fields[1..]);
    FieldPiece(fields[0]);
    if |fields| == 1 {
      assert FormText(fields) == a + "" == a;
      assert b == "" && Items(b) == [];
    } else {
      assert FormText(fields) == a + ("&" + b);
      Assoc(a, "&", b);
    }
    hide *;
    FirstPiece(a, b);
    DecodeItemsCons(PieceItem(a), Items(b));
  }
}
