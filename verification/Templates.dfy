/** templatizer: what a template text is compiled to and what that renders. The
    class in TemplatePage.dfy is proved against these functions. */
module Templates {
  import opened Chars

  // ----- The command expression -----

  /** A command found in a text: the text before it, its own characters and the
      text behind it. An empty command is the short form, `argument` its name. */
  datatype Match = Match(prefix: string, span: string, command: string, argument: string, rest: string)

  predicate StartsName(s: string) {
    s != "" && Is(Word, s[0]) && !Is(Digit, s[0])
  }

  /** `[{(]space*(name)space*([^})]*)[})]`, behind the '$'. */
  function MatchFull(s: string): (m: Option<Match>)
    ensures m.Some? ==> |m.value.span| + |m.value.rest| == |s| + 1 && |m.value.span| > 1
  {
    if s == "" || (s[0] != '{' && s[0] != '(') then None
    else
      var lead := Span(Space, s[1..]);
      var name := Span(Word, lead.tail);
      var gap := Span(Space, name.tail);
      var arg := Span(ArgChar, gap.tail);
      if !StartsName(lead.tail) || arg.tail == "" then None
      else
        var span := "$" + ([s[0]] + (lead.head + (name.head + (gap.head + (arg.head + [arg.tail[0]])))));
        Some(Match("", span, name.head, arg.head, arg.tail[1..]))
  }

  /** `(name)`, behind the '$'. */
  function MatchShort(s: string): (m: Option<Match>)
    ensures m.Some? ==> |m.value.span| + |m.value.rest| == |s| + 1 && |m.value.span| > 1
  {
    if !StartsName(s) then None
    else
      var name := Span(Word, s);
      Some(Match("", "$" + name.head, "", name.head, name.tail))
  }

  /** A command at the start of `s`. */
  function MatchCommand(s: string): (m: Option<Match>)
    ensures m.Some? ==> |m.value.rest| < |s| && |m.value.span| + |m.value.rest| == |s|
  {
    if s == "" || s[0] != '$' then None
    else if MatchFull(s[1..]).Some? then MatchFull(s[1..])
    else MatchShort(s[1..])
  }

  /** The first command in `s`. */
  function FindCommand(s: string): (m: Option<Match>)
    ensures m.Some? ==> |m.value.rest| < |s|
    ensures m.Some? ==> |m.value.prefix| + |m.value.span| + |m.value.rest| == |s|
  {
    if MatchCommand(s).Some? then MatchCommand(s)
    else if s == "" then None
    else
      match FindCommand(s[1..])
      case None => None
      case Some(m) => Some(m.(prefix := [s[0]] + m.prefix))
  }

  // ----- Chunks -----

  datatype Chunk =
    | Raw(text: string)
    | Var(symbol: string)
    | ToLower(symbol: string)
    | ToUpper(symbol: string)
    | Time(symbol: string)
    | Date(symbol: string)
    | Debug(symbol: string)

  /** A module is registered for `command`. */
  predicate Known(command: string) {
    command == "var" || command == "tolower" || command == "toupper"
    || command == "time" || command == "date" || command == "debug"
  }

  /** The module registered for `command`. */
  function MakeChunk(command: string, argument: string): Chunk
    requires Known(command)
  {
    if command == "var" then Var(argument)
    else if command == "tolower" then ToLower(argument)
    else if command == "toupper" then ToUpper(argument)
    else if command == "time" then Time(argument)
    else if command == "date" then Date(argument)
    else Debug(argument)
  }

  function CommandOf(m: Match): string {
    if m.command == "" then "var" else m.command
  }

  /** page::load */
  function Compile(s: string): Option<seq<Chunk>>
    decreases |s|
  {
    match FindCommand(s)
    case None => Some(if s == "" then [] else [Raw(s)])
    case Some(m) =>
      if !Known(CommandOf(m)) then None
      else
        match Compile(m.rest)
        case None => None
        case Some(tail) => Some([Raw(m.prefix), MakeChunk(CommandOf(m), m.argument)] + tail)
  }

  // ----- Rendering -----

  type Variables = map<string, string>

  /** What strftime makes of the clock. */
  datatype Moment = Moment(time: string, date: string)

  /** One reading of the clock for each command. */
  type Clock = nat -> Moment

  /** The buffers one chunk appends, None when a variable is missing. */
  function ChunkBuffers(c: Chunk, vars: Variables, now: Moment): Option<seq<string>> {
    if c.Raw? then Some([c.text])
    else if c.Time? then Some([now.time])
    else if c.Date? then Some([now.date])
    else if c.symbol !in vars then None
    else
      var value := vars[c.symbol];
      if c.Var? then Some([value])
      else if c.ToLower? then Some([Lower(value)])
      else if c.ToUpper? then Some([Upper(value)])
      else Some(["DEBUG (length = ", Decimal(|value|), "): \"", value, "\""])
  }

  /** page::generate: the buffers appended, and whether every chunk was done. */
  datatype Generated = Generated(buffers: seq<string>, ok: bool)

  function GenerateChunks(chunks: seq<Chunk>, vars: Variables, clock: Clock, k: nat): Generated
    decreases |chunks|
  {
    if chunks == [] then Generated([], true)
    else
      match ChunkBuffers(chunks[0], vars, clock(k))
      case None => Generated([], false)
      case Some(buffers) =>
        var tail := GenerateChunks(chunks[1..], vars, clock, if chunks[0].Raw? then k else k + 1);
        Generated(buffers + tail.buffers, tail.ok)
  }

  function Concat(buffers: seq<string>): string {
    if buffers == [] then "" else buffers[0] + Concat(buffers[1..])
  }

  function TotalLength(buffers: seq<string>): nat {
    if buffers == [] then 0 else |buffers[0]| + TotalLength(buffers[1..])
  }

  lemma {:induction false} ConcatAppend(a: seq<string>, b: seq<string>)
    ensures Concat(a + b) == Concat(a) + Concat(b)
    ensures TotalLength(a + b) == TotalLength(a) + TotalLength(b)
  {
    if a == [] {
      assert a + b == b;
    } else {
      assert (a + b)[1..] == a[1..] + b;
      ConcatAppend(a[1..], b);
      Assoc(a[0], Concat(a[1..]), Concat(b));
    }
  }

  lemma OneBuffer(s: string)
    ensures Concat([s]) == s && TotalLength([s]) == |s|
  {
    assert [s][1..] == [];
  }

  lemma {:induction false} ConcatLength(buffers: seq<string>)
    ensures |Concat(buffers)| == TotalLength(buffers)
  {
    if buffers != [] {
      ConcatLength(buffers[1..]);
    }
  }
}
