/** Compiling and running a template means substituting in its text. */
module TemplateProofs {
  import opened Chars
  import opened Templates

  // ----- The scanner against the regular expression -----

  /** Any way the expression can cut a prefix off a text. */
  datatype Parse =
    | Full(open: char, lead: string, name: string, gap: string, arg: string, close: char, rest: string)
    | Short(name: string, rest: string)

  function ParseText(p: Parse): string {
    match p
    case Full(open, lead, name, gap, arg, close, rest) =>
      "$" + ([open] + (lead + (name + (gap + (arg + ([close] + rest))))))
    case Short(name, rest) => "$" + (name + rest)
  }

  predicate IsName(s: string) {
    StartsName(s) && All(Word, s)
  }

  predicate IsParse(s: string, p: Parse) {
    && s == ParseText(p)
    && IsName(p.name)
    && (p.Full? ==>
          && (p.open == '{' || p.open == '(') && (p.close == '}' || p.close == ')')
          && All(Space, p.lead) && All(Space, p.gap) && All(ArgChar, p.arg))
  }

  /** Backtracking order: the longest lead, then the longest name, gap and
      argument. */
  predicate Preferred(p: Parse, q: Parse) {
    if p.Full? && q.Full? then
      || |p.lead| > |q.lead|
      || (|p.lead| == |q.lead| &&
          (|| |p.name| > |q.name|
           || (|p.name| == |q.name| &&
               (|p.gap| > |q.gap| || (|p.gap| == |q.gap| && |p.arg| >= |q.arg|)))))
    else p.Short? && q.Short? && |p.name| >= |q.name|
  }

  /** What the scanner found behind the '$'. */
  function FullBest(s: string): Parse
    requires MatchFull(s).Some?
  {
    var lead := Span(Space, s[1..]);
    var name := Span(Word, lead.tail);
    var gap := Span(Space, name.tail);
    var arg := Span(ArgChar, gap.tail);
    Full(s[0], lead.head, name.head, gap.head, arg.head, arg.tail[0], arg.tail[1..])
  }

  function BestParse(s: string): Parse
    requires MatchCommand(s).Some?
  {
    if MatchFull(s[1..]).Some? then FullBest(s[1..])
    else Short(MatchCommand(s).value.argument, MatchCommand(s).value.rest)
  }

  /** There is a '}' or ')' in `t`. */
  predicate HasCloser(t: string) {
    Span(ArgChar, t).tail != ""
  }

  lemma {:induction false} CloserBehind(a: string, b: string)
    requires All(ArgChar, a)
    ensures HasCloser(a + b) <==> HasCloser(b)
  {
    if a == "" {
      assert a + b == b;
    } else {
      assert (a + b)[1..] == a[1..] + b;
      CloserBehind(a[1..], b);
    }
  }

  /** Runs of other classes hold no closer. */
  lemma NoCloserIn(k: CharClass, a: string)
    requires All(k, a) && (k == Space || k == Word)
    ensures All(ArgChar, a)
  {
    forall i | 0 <= i < |a|
      ensures Is(ArgChar, a[i])
    {
      assert Is(k, a[i]);
    }
  }

  /** What follows the lead of a full form. */
  function NameOn(q: Parse): string
    requires q.Full?
  {
    q.name + (q.gap + (q.arg + ([q.close] + q.rest)))
  }

  lemma NameOnHasCloser(q: Parse)
    requires q.Full? && IsParse(ParseText(q), q)
    ensures HasCloser(NameOn(q))
  {
    NoCloserIn(Word, q.name);
    NoCloserIn(Space, q.gap);
    hide All, IsParse;
    var t := [q.close] + q.rest;
    assert HasCloser(t);
    CloserBehind(q.arg, t);
    CloserBehind(q.gap, q.arg + t);
    CloserBehind(q.name, q.gap + (q.arg + t));
  }

  lemma CloserBehindGap(t: string)
    ensures HasCloser(t) <==> HasCloser(Span(Space, Span(Word, t).tail).tail)
  {
    var name := Span(Word, t);
    var gap := Span(Space, name.tail);
    SpanIsLongest(Word, t);
    SpanIsLongest(Space, name.tail);
    NoCloserIn(Word, name.head);
    NoCloserIn(Space, gap.head);
    hide Span, All, HasCloser;
    CloserBehind(name.head, name.tail);
    CloserBehind(gap.head, gap.tail);
  }

  /** If the expression can match the full form at all, the scanner does. */
  lemma FullFound(s: string, q: Parse)
    requires q.Full? && IsParse("$" + s, q)
    ensures Span(Space, s[1..]) == Cut(q.lead, NameOn(q))
    ensures MatchFull(s).Some?
  {
    assert s == ("$" + s)[1..] == [q.open] + (q.lead + NameOn(q));
    assert s[1..] == q.lead + NameOn(q);
    assert NameOn(q)[0] == q.name[0];
    SpanOf(Space, q.lead, NameOn(q));
    NameOnHasCloser(q);
    CloserBehindGap(NameOn(q));
    hide Span, NameOn;
  }

  lemma NameOnPreferred(q: Parse)
    requires q.Full? && IsParse(ParseText(q), q)
    ensures var name := Span(Word, NameOn(q));
            var gap := Span(Space, name.tail);
            var arg := Span(ArgChar, gap.tail);
            || |name.head| > |q.name|
            || (|name.head| == |q.name| && (|gap.head| > |q.gap| || (|gap.head| == |q.gap| && arg.head == q.arg)))
  {
    var behindArg := [q.close] + q.rest;
    var behindGap := q.arg + behindArg;
    var behindName := q.gap + behindGap;
    SpanBeats(Word, q.name, behindName);
    SpanBeats(Space, q.gap, behindGap);
    SpanOf(ArgChar, q.arg, behindArg);
    assert NameOn(q) == q.name + behindName;
    hide *;
  }

  lemma FullPreferred(s: string, q: Parse)
    requires q.Full? && IsParse("$" + s, q) && MatchFull(s).Some?
    ensures Preferred(FullBest(s), q)
  {
    FullFound(s, q);
    NameOnPreferred(q);
    hide Span, MatchFull, All, IsParse, ParseText, NameOn;
  }

  /** The cuts of the scanner put together again. */
  lemma FullText(s: string)
    requires MatchFull(s).Some?
    ensures "$" + s == ParseText(FullBest(s))
  {
    var lead := Span(Space, s[1..]);
    var name := Span(Word, lead.tail);
    var gap := Span(Space, name.tail);
    var arg := Span(ArgChar, gap.tail);
    SpanIsLongest(Space, s[1..]);
    SpanIsLongest(Word, lead.tail);
    SpanIsLongest(Space, name.tail);
    SpanIsLongest(ArgChar, gap.tail);
    assert arg.tail != "";
    hide Span, All, MatchFull;
    assert s == [s[0]] + s[1..];
    assert arg.tail == [arg.tail[0]] + arg.tail[1..];
  }

  lemma NameAtStart(t: string)
    requires StartsName(t)
    ensures IsName(Span(Word, t).head)
  {
    SpanIsLongest(Word, t);
    hide All;
  }

  lemma FullIsParse(s: string)
    requires MatchFull(s).Some?
    ensures IsParse("$" + s, FullBest(s))
    ensures var m, p := MatchFull(s).value, FullBest(s);
            m.command == p.name && m.argument == p.arg && m.rest == p.rest && m.prefix == ""
  {
    var lead := Span(Space, s[1..]);
    var name := Span(Word, lead.tail);
    var gap := Span(Space, name.tail);
    SpanIsLongest(Space, s[1..]);
    NameAtStart(lead.tail);
    SpanIsLongest(Space, name.tail);
    SpanIsLongest(ArgChar, gap.tail);
    FullText(s);
    hide Span, All, ParseText, StartsName;
  }

  lemma FullSpan(s: string)
    requires MatchFull(s).Some?
    ensures MatchFull(s).value.span + MatchFull(s).value.rest == "$" + s
  {
    FullText(s);
    var p := FullBest(s);
    var rest := p.rest;
    assert MatchFull(s).value.span
        == "$" + ([p.open] + (p.lead + (p.name + (p.gap + (p.arg + [p.close])))));
    assert MatchFull(s).value.rest == rest;
    hide *;
    Assoc(p.arg, [p.close], rest);
    Assoc(p.gap, p.arg + [p.close], rest);
    Assoc(p.name, p.gap + (p.arg + [p.close]), rest);
    Assoc(p.lead, p.name + (p.gap + (p.arg + [p.close])), rest);
    Assoc([p.open], p.lead + (p.name + (p.gap + (p.arg + [p.close]))), rest);
    Assoc("$", [p.open] + (p.lead + (p.name + (p.gap + (p.arg + [p.close])))), rest);
  }

  lemma ShortIsParse(s: string)
    requires MatchShort(s).Some?
    ensures var m := MatchShort(s).value;
            IsParse("$" + s, Short(m.argument, m.rest)) && m.span + m.rest == "$" + s
  {
    SpanIsLongest(Word, s);
    var name := Span(Word, s);
    Assoc("$", name.head, name.tail);
    hide Span;
  }

  lemma ShortPreferred(s: string, q: Parse)
    requires q.Short? && IsParse("$" + s, q)
    ensures MatchFull(s).None? && MatchShort(s).Some?
    ensures |MatchShort(s).value.argument| >= |q.name|
  {
    assert s == ("$" + s)[1..] == q.name + q.rest;
    assert s[0] == q.name[0];
    SpanBeats(Word, q.name, q.rest);
    hide Span;
  }

  /** What the scanner reports is a way the expression can match. */
  lemma CommandIsParse(s: string)
    requires MatchCommand(s).Some?
    ensures IsParse(s, BestParse(s))
  {
    assert s == "$" + s[1..];
    if MatchFull(s[1..]).Some? {
      FullIsParse(s[1..]);
    } else {
      ShortIsParse(s[1..]);
    }
    hide IsParse, FullBest;
  }

  /** It reports the groups of that match and the characters it took. */
  lemma CommandGroups(s: string)
    requires MatchCommand(s).Some?
    ensures var m, p := MatchCommand(s).value, BestParse(s);
            && m.rest == p.rest && m.span + m.rest == s && m.prefix == ""
            && (if p.Full? then m.command == p.name && m.argument == p.arg
                else m.command == "" && m.argument == p.name)
  {
    assert s == "$" + s[1..];
    if MatchFull(s[1..]).Some? {
      FullIsParse(s[1..]);
      FullSpan(s[1..]);
    } else {
      ShortIsParse(s[1..]);
    }
    hide IsParse, FullBest;
  }

  /** It is the one backtracking reaches first; without it there is none. */
  lemma CommandIsPreferred(s: string, q: Parse)
    requires IsParse(s, q)
    ensures MatchCommand(s).Some? && Preferred(BestParse(s), q)
  {
    assert s == "$" + s[1..];
    if q.Full? {
      FullFound(s[1..], q);
      FullPreferred(s[1..], q);
    } else {
      ShortPreferred(s[1..], q);
    }
    hide IsParse, FullBest, MatchFull, MatchShort;
  }

  /** The argument keeps its trailing spaces but not its leading ones, and ends
      at the first closing bracket of either kind. */
  lemma WrittenCommand(q: Parse)
    requires q.Full? && IsParse(ParseText(q), q)
    requires q.arg != "" ==> !Is(Space, q.arg[0]) && (q.gap == "" ==> !Is(Word, q.arg[0]))
    ensures var m := MatchCommand(ParseText(q));
            m.Some? && m.value.command == q.name && m.value.argument == q.arg && m.value.rest == q.rest
  {
    var s := ParseText(q)[1..];
    assert ParseText(q) == "$" + s;
    FullFound(s, q);
    var behindArg := [q.close] + q.rest;
    var behindGap := q.arg + behindArg;
    assert behindGap[0] == if q.arg == "" then q.close else q.arg[0];
    var behindName := q.gap + behindGap;
    assert behindName[0] == if q.gap == "" then behindGap[0] else q.gap[0];
    SpanOf(Word, q.name, behindName);
    SpanOf(Space, q.gap, behindGap);
    SpanOf(ArgChar, q.arg, behindArg);
    assert NameOn(q) == q.name + behindName;
    hide Span, All, IsParse, ParseText, NameOn;
  }

  // ----- Compile-then-run against direct substitution -----

  /** The commands there are; the short form names none. */
  predicate IsCommand(command: string) {
    command in ["", "var", "tolower", "toupper", "time", "date", "debug"]
  }

  /** Each of the letters from `first` to `last` moved by `offset`. */
  function Shifted(s: string, first: char, last: char, offset: int): (r: string)
    requires 0 <= first as int + offset && last as int + offset < 256
    ensures |r| == |s|
  {
    seq(|s|, i requires 0 <= i < |s| => if first <= s[i] <= last then (s[i] as int + offset) as char else s[i])
  }

  /** What a command puts on the page: the table of the reference. */
  function Printed(command: string, argument: string, vars: Variables, now: Moment): Option<string>
    requires IsCommand(command)
  {
    if command == "time" then Some(now.time)
    else if command == "date" then Some(now.date)
    else if argument !in vars then None
    else if command == "tolower" then Some(Shifted(vars[argument], 'A', 'Z', 32))
    else if command == "toupper" then Some(Shifted(vars[argument], 'a', 'z', -32))
    else if command == "debug" then
      Some("DEBUG (length = " + (Decimal(|vars[argument]|) + ("): \"" + (vars[argument] + "\""))))
    else Some(vars[argument])
  }

  lemma KnownAreCommands(m: Match)
    ensures Known(CommandOf(m)) <==> IsCommand(m.command)
  {}

  lemma ShiftedCases(s: string)
    ensures Lower(s) == Shifted(s, 'A', 'Z', 32) && Upper(s) == Shifted(s, 'a', 'z', -32)
  {}

  lemma DebugText(a: string, b: string, c: string, d: string, e: string)
    ensures Concat([a, b, c, d, e]) == a + (b + (c + (d + e)))
  {
    OneBuffer(e);
    assert [d, e][1..] == [e] && [c, d, e][1..] == [d, e];
    assert [b, c, d, e][1..] == [c, d, e] && [a, b, c, d, e][1..] == [b, c, d, e];
    assert Concat([d, e]) == d + e;
    assert Concat([c, d, e]) == c + (d + e);
    assert Concat([b, c, d, e]) == b + (c + (d + e));
  }

  /** The chunk made for a command generates what the table says. */
  lemma ChunkPrints(m: Match, vars: Variables, now: Moment)
    requires Known(CommandOf(m)) && IsCommand(m.command)
    ensures var b := ChunkBuffers(MakeChunk(CommandOf(m), m.argument), vars, now);
            Printed(m.command, m.argument, vars, now) == if b.Some? then Some(Concat(b.value)) else None
  {
    var c := MakeChunk(CommandOf(m), m.argument);
    var b := ChunkBuffers(c, vars, now);
    if b.Some? {
      if c.Debug? {
        var v := vars[m.argument];
        DebugText("DEBUG (length = ", Decimal(|v|), "): \"", v, "\"");
      } else {
        OneBuffer(b.value[0]);
        assert b.value == [b.value[0]];
        if m.argument in vars {
          ShiftedCases(vars[m.argument]);
        }
      }
    }
    hide Lower, Upper, Shifted, Concat, Decimal;
  }

  /** Reference: replaces the commands in the text one by one, left to right,
      with no chunks and no positions. None: some variable is missing. The
      `k`-th command sees the `k`-th reading of the clock. */
  function Substitute(s: string, vars: Variables, clock: Clock, k: nat): Option<string>
    requires AllKnown(s)
    decreases |s|
  {
    if s == "" then Some("")
    else if MatchCommand(s).None? then Prepend([s[0]], Substitute(s[1..], vars, clock, k))
    else
      var m := MatchCommand(s).value;
      match Printed(m.command, m.argument, vars, clock(k))
      case None => None
      case Some(text) => Prepend(text, Substitute(m.rest, vars, clock, k + 1))
  }

  function Prepend(a: string, s: Option<string>): Option<string> {
    match s
    case None => None
    case Some(t) => Some(a + t)
  }

  lemma PrependTwice(a: string, b: string, s: Option<string>)
    ensures Prepend(a, Prepend(b, s)) == Prepend(a + b, s)
  {
    if s.Some? {
      Assoc(a, b, s.value);
    }
  }

  lemma PrependNothing(s: Option<string>)
    ensures Prepend("", s) == s
  {
    if s.Some? {
      assert "" + s.value == s.value;
    }
  }

  /** Every command in the text is one that exists. */
  predicate AllKnown(s: string)
    decreases |s|
  {
    if s == "" then true
    else if MatchCommand(s).None? then AllKnown(s[1..])
    else IsCommand(MatchCommand(s).value.command) && AllKnown(MatchCommand(s).value.rest)
  }

  function Rendered(g: Generated): Option<string> {
    if g.ok then Some(Concat(g.buffers)) else None
  }

  lemma FoundHere(s: string)
    requires MatchCommand(s).Some?
    ensures FindCommand(s) == MatchCommand(s)
  {}

  lemma FoundLater(s: string)
    requires s != "" && MatchCommand(s).None?
    ensures FindCommand(s).Some? <==> FindCommand(s[1..]).Some?
    ensures FindCommand(s).Some? ==>
              var m := FindCommand(s[1..]).value; FindCommand(s).value == m.(prefix := [s[0]] + m.prefix)
  {}

  /** A match is found where the text before it is put aside. */
  lemma {:induction false} FoundIsMatch(s: string)
    requires FindCommand(s).Some?
    ensures var m := FindCommand(s).value;
            s == m.prefix + (m.span + m.rest) && MatchCommand(m.span + m.rest) == Some(m.(prefix := ""))
    decreases |s|
  {
    if MatchCommand(s).Some? {
      FoundHere(s);
      CommandGroups(s);
      hide *;
      assert "" + s == s;
    } else {
      FoundLater(s);
      FoundIsMatch(s[1..]);
      var m := FindCommand(s[1..]).value;
      hide *;
      Assoc([s[0]], m.prefix, m.span + m.rest);
      assert s == [s[0]] + s[1..];
    }
  }

  /** What comes before the first command stays as it is. */
  lemma {:induction false} SkipPrefix(s: string, vars: Variables, clock: Clock, k: nat)
    requires FindCommand(s).Some? && AllKnown(s)
    ensures var m := FindCommand(s).value;
            && AllKnown(m.span + m.rest)
            && Substitute(s, vars, clock, k) == Prepend(m.prefix, Substitute(m.span + m.rest, vars, clock, k))
    decreases |s|
  {
    var m := FindCommand(s).value;
    FoundIsMatch(s);
    if MatchCommand(s).Some? {
      FoundHere(s);
      PrependNothing(Substitute(s, vars, clock, k));
      assert "" + s == s;
    } else {
      FoundLater(s);
      SkipPrefix(s[1..], vars, clock, k);
      PrependTwice([s[0]], FindCommand(s[1..]).value.prefix, Substitute(m.span + m.rest, vars, clock, k));
      hide FindCommand, MatchCommand, Prepend;
    }
  }

  /** A text without commands stays as it is. */
  lemma {:induction false} NoCommand(s: string, vars: Variables, clock: Clock, k: nat)
    requires FindCommand(s).None?
    ensures AllKnown(s) && Substitute(s, vars, clock, k) == Some(s)
    decreases |s|
  {
    if s != "" {
      FoundLater(s);
      NoCommand(s[1..], vars, clock, k);
      assert s == [s[0]] + s[1..];
      hide FindCommand;
    }
  }

  lemma {:induction false} KnownPrefix(s: string)
    requires FindCommand(s).Some?
    ensures var m := FindCommand(s).value;
            AllKnown(s) <==> IsCommand(m.command) && AllKnown(m.rest)
    decreases |s|
  {
    if MatchCommand(s).Some? {
      FoundHere(s);
      hide FindCommand;
    } else {
      FoundLater(s);
      KnownPrefix(s[1..]);
      hide FindCommand, MatchCommand;
    }
  }

  /** A page loads exactly when every command in it exists. */
  lemma {:induction false} LoadsIffKnown(s: string)
    ensures Compile(s).Some? <==> AllKnown(s)
    decreases |s|
  {
    if FindCommand(s).Some? {
      KnownPrefix(s);
      KnownAreCommands(FindCommand(s).value);
      hide Known, IsCommand, CommandOf, FindCommand;
      LoadsIffKnown(FindCommand(s).value.rest);
    } else {
      NoCommand(s, map[], _ => Moment("", ""), 0);
    }
  }

  lemma GenerateTwo(raw: string, c: Chunk, tail: seq<Chunk>, vars: Variables, clock: Clock, k: nat)
    requires !c.Raw?
    ensures Rendered(GenerateChunks([Raw(raw), c] + tail, vars, clock, k)) ==
      (match ChunkBuffers(c, vars, clock(k))
       case None => None
       case Some(buffers) =>
         Prepend(raw, Prepend(Concat(buffers), Rendered(GenerateChunks(tail, vars, clock, k + 1)))))
  {
    var chunks := [Raw(raw), c] + tail;
    assert chunks[1..] == [c] + tail && chunks[1..][1..] == tail;
    hide ChunkBuffers;
    match ChunkBuffers(c, vars, clock(k))
    case None =>
      assert !GenerateChunks(chunks[1..], vars, clock, k).ok;
    case Some(buffers) =>
      var g := GenerateChunks(tail, vars, clock, k + 1);
      assert GenerateChunks(chunks[1..], vars, clock, k) == Generated(buffers + g.buffers, g.ok);
      ConcatAppend(buffers, g.buffers);
      ConcatAppend([raw], buffers + g.buffers);
      assert Concat([raw]) == raw;
  }

  /** Template refinement: for every text that loads, the buffers put together
      are the direct substitution, and generating throws when that fails. */
  lemma {:induction false} CompileThenRun(s: string, vars: Variables, clock: Clock, k: nat)
    requires Compile(s).Some? && AllKnown(s)
    ensures Rendered(GenerateChunks(Compile(s).value, vars, clock, k)) == Substitute(s, vars, clock, k)
    decreases |s|
  {
    if FindCommand(s).None? {
      NoCommand(s, vars, clock, k);
      RawOnly(s, vars, clock, k);
    } else {
      var m := FindCommand(s).value;
      KnownPrefix(s);
      FoundIsMatch(s);
      SkipPrefix(s, vars, clock, k);
      CompileThenRun(m.rest, vars, clock, k + 1);
      KnownAreCommands(m);
      ChunkPrints(m, vars, clock(k));
      var c := MakeChunk(CommandOf(m), m.argument);
      GenerateTwo(m.prefix, c, Compile(m.rest).value, vars, clock, k);
      hide FindCommand, MatchCommand, ChunkBuffers, GenerateChunks, Rendered, Printed, Known, IsCommand, CommandOf,
           MakeChunk;
    }
  }

  lemma RawOnly(s: string, vars: Variables, clock: Clock, k: nat)
    ensures Rendered(GenerateChunks(if s == "" then [] else [Raw(s)], vars, clock, k)) == Some(s)
  {
    if s != "" {
      assert [Raw(s)][1..] == [];
      assert Concat([s]) == s;
    }
  }

  /** What a page shows: the buffers of its chunks, put together. */
  function Shown(text: string, vars: Variables, clock: Clock, k: nat): Option<string>
    requires Compile(text).Some?
  {
    Rendered(GenerateChunks(Compile(text).value, vars, clock, k))
  }

  lemma CommandShows(text: string, m: Match, vars: Variables, clock: Clock, k: nat)
    requires MatchCommand(text) == Some(m)
    ensures Compile(text).Some? <==> IsCommand(m.command) && Compile(m.rest).Some?
    ensures Compile(text).Some? ==>
      Shown(text, vars, clock, k) == (match Printed(m.command, m.argument, vars, clock(k))
                                      case None => None
                                      case Some(value) => Prepend(value, Shown(m.rest, vars, clock, k + 1)))
  {
    LoadsIffKnown(text);
    LoadsIffKnown(m.rest);
    if AllKnown(text) {
      CompileThenRun(text, vars, clock, k);
      CompileThenRun(m.rest, vars, clock, k + 1);
    }
    hide Compile, MatchCommand, GenerateChunks, Rendered, Printed, IsCommand;
  }

  /** `${name arg}` on a page: what each command shows in front of the rest. */
  lemma FullFormShows(q: Parse, vars: Variables, clock: Clock, k: nat)
    requires q.Full? && IsParse(ParseText(q), q)
    requires q.arg != "" ==> !Is(Space, q.arg[0]) && (q.gap == "" ==> !Is(Word, q.arg[0]))
    ensures Compile(ParseText(q)).Some? <==> IsCommand(q.name) && Compile(q.rest).Some?
    ensures Compile(ParseText(q)).Some? ==>
      var shown, rest := Shown(ParseText(q), vars, clock, k), Shown(q.rest, vars, clock, k + 1);
      && (q.name == "time" ==> shown == Prepend(clock(k).time, rest))
      && (q.name == "date" ==> shown == Prepend(clock(k).date, rest))
      && (q.name != "time" && q.name != "date" && q.arg !in vars ==> shown == None)
      && (q.arg in vars ==>
            var v := vars[q.arg];
            && (q.name == "var" ==> shown == Prepend(v, rest))
            && (q.name == "tolower" ==> shown == Prepend(Shifted(v, 'A', 'Z', 32), rest))
            && (q.name == "toupper" ==> shown == Prepend(Shifted(v, 'a', 'z', -32), rest))
            && (q.name == "debug" ==>
                  shown == Prepend("DEBUG (length = " + (Decimal(|v|) + ("): \"" + (v + "\""))), rest)))
  {
    WrittenCommand(q);
    CommandShows(ParseText(q), MatchCommand(ParseText(q)).value, vars, clock, k);
    hide Compile, MatchCommand, Shown, Shifted, ParseText, IsParse, Prepend, Decimal;
  }

  /** `$name` on a page shows the variable. */
  lemma ShortFormShows(name: string, rest: string, vars: Variables, clock: Clock, k: nat)
    requires IsName(name) && (rest != "" ==> !Is(Word, rest[0]))
    ensures var text := "$" + (name + rest);
            && (Compile(text).Some? <==> Compile(rest).Some?)
            && (Compile(text).Some? ==>
                  Shown(text, vars, clock, k)
                  == if name in vars then Prepend(vars[name], Shown(rest, vars, clock, k + 1)) else None)
  {
    var text := "$" + (name + rest);
    assert text[1..] == name + rest && (name + rest)[0] == name[0];
    SpanOf(Word, name, rest);
    assert MatchCommand(text).Some? && MatchCommand(text).value.command == "";
    CommandShows(text, MatchCommand(text).value, vars, clock, k);
    hide Compile, Shown, Prepend, Span;
  }

  // ----- The chunks tile the file -----

  /** The text cut at its commands: raw, command, raw, command, ... */
  function Pieces(s: string): seq<string>
    decreases |s|
  {
    match FindCommand(s)
    case None => if s == "" then [] else [s]
    case Some(m) => [m.prefix, m.span] + Pieces(m.rest)
  }

  lemma {:induction false} PiecesAreTheText(s: string)
    ensures Concat(Pieces(s)) == s
    decreases |s|
  {
    if FindCommand(s).Some? {
      var m := FindCommand(s).value;
      FoundIsMatch(s);
      PiecesAreTheText(m.rest);
      hide FindCommand, MatchCommand;
      var tail := Pieces(m.rest);
      assert Concat([m.prefix, m.span]) == m.prefix + m.span by {
        assert [m.prefix, m.span][1..] == [m.span];
        assert Concat([m.span]) == m.span;
      }
      ConcatAppend([m.prefix, m.span], tail);
      Assoc(m.prefix, m.span, m.rest);
    } else if s != "" {
      assert Concat([s]) == s;
    }
  }

  /** Chunk by chunk: raw chunks are the pieces between the commands. */
  lemma {:induction false} ChunksMatchPieces(s: string, i: nat)
    requires Compile(s).Some? && i < |Compile(s).value|
    ensures |Compile(s).value| == |Pieces(s)|
    ensures if i % 2 == 0 then Compile(s).value[i] == Raw(Pieces(s)[i]) else !Compile(s).value[i].Raw?
    decreases |s|
  {
    hide FindCommand;
    if FindCommand(s).Some? {
      var rest := FindCommand(s).value.rest;
      if i >= 2 {
        ChunksMatchPieces(rest, i - 2);
      } else if Compile(rest).value != [] {
        ChunksMatchPieces(rest, 0);
      } else {
        NothingCompiled(rest);
      }
    }
  }

  lemma NothingCompiled(s: string)
    requires Compile(s) == Some([])
    ensures Pieces(s) == []
  {}

  // ----- Symbols -----

  function ChunkSymbols(c: Chunk): set<string> {
    if c.Raw? then {} else {c.symbol}
  }

  /** page::symbols */
  function Symbols(chunks: seq<Chunk>): set<string> {
    if chunks == [] then {} else ChunkSymbols(chunks[0]) + Symbols(chunks[1..])
  }

  /** The symbols that generating looks up: time and date export one too. */
  function LookedUp(chunks: seq<Chunk>): set<string> {
    if chunks == [] then {}
    else (if chunks[0].Time? || chunks[0].Date? then {} else ChunkSymbols(chunks[0])) + LookedUp(chunks[1..])
  }

  lemma {:induction false} LookedUpAreSymbols(chunks: seq<Chunk>)
    ensures LookedUp(chunks) <= Symbols(chunks)
  {
    if chunks != [] {
      LookedUpAreSymbols(chunks[1..]);
    }
  }

  /** Generating throws exactly when a symbol it looks up is missing. */
  lemma {:induction false} GeneratesIffDefined(chunks: seq<Chunk>, vars: Variables, clock: Clock, k: nat)
    ensures GenerateChunks(chunks, vars, clock, k).ok <==> LookedUp(chunks) <= vars.Keys
    decreases |chunks|
  {
    if chunks != [] {
      GeneratesIffDefined(chunks[1..], vars, clock, if chunks[0].Raw? then k else k + 1);
    }
  }

  /** A model that defines every exported symbol never makes generate throw. */
  lemma SymbolsSuffice(chunks: seq<Chunk>, vars: Variables, clock: Clock)
    requires Symbols(chunks) <= vars.Keys
    ensures GenerateChunks(chunks, vars, clock, 0).ok
  {
    LookedUpAreSymbols(chunks);
    GeneratesIffDefined(chunks, vars, clock, 0);
  }

  /** The arguments of the commands in the text, whatever the commands. */
  function Arguments(s: string): set<string>
    decreases |s|
  {
    if s == "" then {}
    else if MatchCommand(s).None? then Arguments(s[1..])
    else {MatchCommand(s).value.argument} + Arguments(MatchCommand(s).value.rest)
  }

  lemma {:induction false} ArgumentsFrom(s: string)
    ensures FindCommand(s).None? ==> Arguments(s) == {}
    ensures FindCommand(s).Some? ==>
              Arguments(s) == {FindCommand(s).value.argument} + Arguments(FindCommand(s).value.rest)
    decreases |s|
  {
    if MatchCommand(s).Some? {
      FoundHere(s);
      hide FindCommand;
    } else if s != "" {
      FoundLater(s);
      ArgumentsFrom(s[1..]);
      hide FindCommand, MatchCommand;
    }
  }

  /** The symbols a page exports are the arguments of all its commands. */
  lemma {:induction false} SymbolsAreArguments(s: string)
    requires Compile(s).Some?
    ensures Symbols(Compile(s).value) == Arguments(s)
    decreases |s|
  {
    ArgumentsFrom(s);
    if FindCommand(s).Some? {
      var m := FindCommand(s).value;
      SymbolsAreArguments(m.rest);
      var chunks := Compile(s).value;
      assert chunks[0] == Raw(m.prefix) && chunks[1..][0] == MakeChunk(CommandOf(m), m.argument);
      assert chunks[1..][1..] == Compile(m.rest).value;
      assert !chunks[1..][0].Raw? && chunks[1..][0].symbol == m.argument;
      hide FindCommand, MakeChunk, Arguments;
    } else if s != "" {
      assert [Raw(s)][1..] == [];
    }
  }

  predicate AgreeOn(symbols: set<string>, vars1: Variables, vars2: Variables) {
    forall x :: x in symbols ==> (x in vars1 <==> x in vars2) && (x in vars1 && x in vars2 ==> vars1[x] == vars2[x])
  }

  /** Models that agree on the exported symbols render the same page. */
  lemma {:induction false} SymbolsDetermine(
      chunks: seq<Chunk>, vars1: Variables, vars2: Variables, clock: Clock, k: nat)
    requires AgreeOn(Symbols(chunks), vars1, vars2)
    ensures GenerateChunks(chunks, vars1, clock, k) == GenerateChunks(chunks, vars2, clock, k)
    decreases |chunks|
  {
    if chunks != [] {
      var c := chunks[0];
      assert !c.Raw? ==> c.symbol in Symbols(chunks);
      assert ChunkBuffers(c, vars1, clock(k)) == ChunkBuffers(c, vars2, clock(k));
      SymbolsDetermine(chunks[1..], vars1, vars2, clock, if c.Raw? then k else k + 1);
    }
  }
}
