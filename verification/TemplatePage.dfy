/** templatizer::page: loads a mapped file and generates pages from it. */
module TemplatePage {
  import opened Chars
  import opened Templates
  import opened TemplateProofs

  /** base::send_buffers_type */
  class Buffers {
    var items: seq<string>

    constructor (first: seq<string>)
      ensures items == first
    {
      items := first;
    }

    /** base::send_buffers_insert_functor: the size of the buffer it appended. */
    method Insert(data: string) returns (size: nat)
      modifies this
      ensures items == old(items) + [data] && size == |data|
    {
      items := items + [data];
      size := |data|;
    }
  }

  datatype State = Ok | ParseError

  class Page {
    // The characters of the mapped file.
    var data: string
    var chunks: seq<Chunk>
    var state: State

    constructor ()
      ensures data == "" && chunks == [] && state == Ok
    {
      data, chunks, state := "", [], Ok;
    }

    /** False when it throws: some command has no module. */
    method Load() returns (ok: bool)
      modifies `chunks, `state
      ensures ok <==> Compile(data).Some?
      ensures ok ==> chunks == Compile(data).value && state == Ok
      ensures !ok ==> chunks == old(chunks) && state == ParseError
    {
      var loaded;
      ok, loaded := ParseText(data);
      if !ok {
        state := ParseError;
        return;
      }
      chunks := loaded;
      state := Ok;
    }

    /** The part of load that fills the local list of chunks. */
    static method ParseText(text: string) returns (ok: bool, loaded: seq<Chunk>)
      ensures ok <==> Compile(text).Some?
      ensures ok ==> loaded == Compile(text).value
    {
      loaded := [];
      var oldPos := 0;
      var begin := 0; // where the regex iterator went on searching
      var it := FindCommand(text);
      ghost var rest := text;
      NothingAppended(Compile(text));
      hide *;
      while it.Some?
        invariant 0 <= oldPos == begin <= |text| && rest == text[oldPos..]
        invariant it == FindCommand(rest)
        invariant Compile(text) == Appended(loaded, Compile(rest))
        decreases |rest|
      {
        var m := it.value;
        LoadStep(text, oldPos, m);
        CompileStep(loaded, rest, m);
        var currentPos := begin + |m.prefix|;
        if currentPos >= oldPos {
          loaded := loaded + [Raw(text[oldPos..currentPos])];
          oldPos := currentPos + |m.span|;
        }
        begin := currentPos + |m.span|;
        ok, loaded := AddExtraChunk(m, loaded);
        if !ok {
          return;
        }
        rest := m.rest;
        it := FindCommand(m.rest);
      }
      LastPiece(rest, loaded);
      if oldPos < |text| {
        loaded := loaded + [Raw(text[oldPos..])];
      }
      ok := true;
    }

    static method AddExtraChunk(m: Match, loaded: seq<Chunk>) returns (ok: bool, more: seq<Chunk>)
      ensures ok == Known(CommandOf(m))
      ensures ok ==> more == loaded + [MakeChunk(CommandOf(m), m.argument)]
    {
      var command, argument := m.command, m.argument;
      if command == "" {
        command := "var";
      }
      if !Known(command) {
        return false, loaded;
      }
      return true, loaded + [MakeChunk(command, argument)];
    }

    /** `reading` is the first reading of the clock; false when it throws. */
    method Generate(buffers: Buffers, vars: Variables, clock: Clock, reading: nat) returns (len: nat, ok: bool)
      modifies buffers
      ensures var g := GenerateChunks(chunks, vars, clock, reading);
              && buffers.items == old(buffers.items) + g.buffers && ok == g.ok
              && (ok ==> len == TotalLength(g.buffers))
    {
      len := 0;
      var all, i, k := chunks, 0, reading;
      ghost var done: seq<string> := [];
      ghost var rest := all;
      ghost var whole := GenerateChunks(all, vars, clock, reading);
      GenerateStarts(whole);
      hide *;
      while i < |all|
        invariant 0 <= i <= |all| && rest == all[i..]
        invariant buffers.items == old(buffers.items) + done && len == TotalLength(done)
        invariant Progress(whole, done, GenerateChunks(rest, vars, clock, k))
      {
        GenerateStep(whole, done, rest, vars, clock, k);
        var size;
        size, ok := GenerateChunk(all[i], buffers, vars, clock(k));
        if !ok {
          return;
        }
        len := len + size;
        ghost var added := ChunkBuffers(all[i], vars, clock(k)).value;
        Assoc(old(buffers.items), done, added);
        done := done + added;
        k := if all[i].Raw? then k else k + 1;
        i := i + 1;
        rest := rest[1..];
      }
      assert rest == [];
      GenerateNothing(whole, done, vars, clock, k);
      ok := true;
    }

    method ExportSymbols(symbols: set<string>) returns (more: set<string>)
      ensures more == symbols + Symbols(chunks)
    {
      more := symbols;
      var i := 0;
      while i < |chunks|
        invariant 0 <= i <= |chunks|
        invariant more + Symbols(chunks[i..]) == symbols + Symbols(chunks)
      {
        more := more + ChunkSymbols(chunks[i]);
        i := i + 1;
      }
    }
  }

  /** `done` is generated, `left` is still to come. */
  predicate Progress(whole: Generated, done: seq<string>, left: Generated) {
    whole == Generated(done + left.buffers, left.ok)
  }

  lemma GenerateStarts(whole: Generated)
    ensures Progress(whole, [], whole) && TotalLength([]) == 0
  {
    assert [] + whole.buffers == whole.buffers;
  }

  lemma GenerateStep(
      whole: Generated, done: seq<string>, chunks: seq<Chunk>, vars: Variables, clock: Clock, k: nat)
    requires chunks != [] && Progress(whole, done, GenerateChunks(chunks, vars, clock, k))
    ensures match ChunkBuffers(chunks[0], vars, clock(k))
            case None => whole == Generated(done, false)
            case Some(added) =>
              var next := if chunks[0].Raw? then k else k + 1;
              && Progress(whole, done + added, GenerateChunks(chunks[1..], vars, clock, next))
              && TotalLength(done + added) == TotalLength(done) + TotalLength(added)
  {
    hide ChunkBuffers;
    match ChunkBuffers(chunks[0], vars, clock(k))
    case None => assert done + [] == done;
    case Some(added) =>
      ConcatAppend(done, added);
      Assoc(done, added, GenerateChunks(chunks[1..], vars, clock, if chunks[0].Raw? then k else k + 1).buffers);
  }

  lemma GenerateNothing(whole: Generated, done: seq<string>, vars: Variables, clock: Clock, k: nat)
    requires Progress(whole, done, GenerateChunks([], vars, clock, k))
    ensures whole == Generated(done, true)
  {
    assert done + [] == done;
  }

  /** `loaded` in front of a page that loads. */
  function Appended(loaded: seq<Chunk>, tail: Option<seq<Chunk>>): Option<seq<Chunk>> {
    match tail
    case None => None
    case Some(chunks) => Some(loaded + chunks)
  }

  /** Where a match lies in the file. */
  lemma LoadStep(data: string, pos: nat, m: Match)
    requires pos <= |data| && FindCommand(data[pos..]) == Some(m)
    ensures pos + |m.prefix| + |m.span| <= |data| && |m.span| > 0
    ensures data[pos..pos + |m.prefix|] == m.prefix
    ensures data[pos + |m.prefix| + |m.span|..] == m.rest
  {
    FoundIsMatch(data[pos..]);
    hide FindCommand;
    var s := data[pos..];
    assert s[..|m.prefix|] == m.prefix && s[|m.prefix|..] == m.span + m.rest;
    assert s[|m.prefix|..][|m.span|..] == m.rest;
  }

  lemma CompileStep(loaded: seq<Chunk>, s: string, m: Match)
    requires FindCommand(s) == Some(m)
    ensures Appended(loaded, Compile(s)) ==
      if !Known(CommandOf(m)) then None
      else Appended((loaded + [Raw(m.prefix)]) + [MakeChunk(CommandOf(m), m.argument)], Compile(m.rest))
  {
    hide FindCommand, MakeChunk;
    if Known(CommandOf(m)) && Compile(m.rest).Some? {
      var raw, c := Raw(m.prefix), MakeChunk(CommandOf(m), m.argument);
      assert loaded + ([raw, c] + Compile(m.rest).value) == ((loaded + [raw]) + [c]) + Compile(m.rest).value;
    }
  }

  lemma LastPiece(s: string, loaded: seq<Chunk>)
    requires FindCommand(s).None?
    ensures Appended(loaded, Compile(s)) == Some(if s == "" then loaded else loaded + [Raw(s)])
  {
    assert loaded + [] == loaded;
  }

  lemma NothingAppended(tail: Option<seq<Chunk>>)
    ensures Appended([], tail) == tail
  {
    if tail.Some? {
      assert [] + tail.value == tail.value;
    }
  }

  /** std::transform over the characters of a copy. */
  method Transform(s: string, f: char -> char) returns (r: string)
    ensures |r| == |s| && forall i :: 0 <= i < |s| ==> r[i] == f(s[i])
  {
    var a := new char[|s|](i requires 0 <= i < |s| => s[i]);
    for i := 0 to a.Length
      invariant forall j :: 0 <= j < i ==> a[j] == f(s[j])
      invariant forall j :: i <= j < a.Length ==> a[j] == s[j]
    {
      a[i] := f(a[i]);
    }
    r := a[..];
  }

  lemma FiveBuffers(a: string, b: string, c: string, d: string, e: string)
    ensures TotalLength([a, b, c, d, e]) == |a| + |b| + |c| + |d| + |e|
  {
    OneBuffer(e);
    assert [a, b, c, d, e] == [a] + ([b] + ([c] + ([d] + [e])));
    assert TotalLength([d] + [e]) == |d| + |e|;
    assert TotalLength([c] + ([d] + [e])) == |c| + |d| + |e|;
    assert TotalLength([b] + ([c] + ([d] + [e]))) == |b| + |c| + |d| + |e|;
  }

  /** The virtual call `chunk.generate(buffers, cache, model)`. */
  method GenerateChunk(c: Chunk, buffers: Buffers, vars: Variables, now: Moment) returns (len: nat, ok: bool)
    modifies buffers
    ensures var b := ChunkBuffers(c, vars, now);
            && ok == b.Some?
            && (ok ==> buffers.items == old(buffers.items) + b.value && len == TotalLength(b.value))
            && (!ok ==> buffers.items == old(buffers.items))
  {
    if c.Raw? || c.Time? || c.Date? {
      OneBuffer(if c.Raw? then c.text else if c.Time? then now.time else now.date);
    }
    match c {
      case Raw(text) => len := buffers.Insert(text);
      case Time(_) => len := buffers.Insert(now.time);
      case Date(_) => len := buffers.Insert(now.date);
      case _ =>
        if c.symbol !in vars {
          return 0, false;
        }
        len := GenerateValue(c, buffers, vars[c.symbol]);
    }
    ok := true;
  }

  method GenerateValue(c: Chunk, buffers: Buffers, value: string) returns (len: nat)
    requires !c.Raw? && !c.Time? && !c.Date?
    modifies buffers
    ensures var b := ChunkBuffers(c, map[c.symbol := value], Moment("", ""));
            b.Some? && buffers.items == old(buffers.items) + b.value && len == TotalLength(b.value)
  {
    if c.Debug? {
      FiveBuffers("DEBUG (length = ", Decimal(|value|), "): \"", value, "\"");
    } else {
      OneBuffer(if c.Var? then value else if c.ToLower? then Lower(value) else Upper(value));
    }
    match c {
      case Var(_) => len := buffers.Insert(value);
      case ToLower(_) =>
        var lower := Transform(value, LowerChar);
        assert lower == Lower(value);
        len := buffers.Insert(lower);
      case ToUpper(_) =>
        var upper := Transform(value, UpperChar);
        assert upper == Upper(value);
        len := buffers.Insert(upper);
      case Debug(_) =>
        var n1 := buffers.Insert("DEBUG (length = ");
        var n2 := buffers.Insert(Decimal(|value|));
        var n3 := buffers.Insert("): \"");
        var n4 := buffers.Insert(value);
        var n5 := buffers.Insert("\"");
        len := n1 + n2 + n3 + n4 + n5;
    }
  }
}
