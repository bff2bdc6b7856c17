/** Character classes of the regular expressions in the sources (C locale, one
    `char` per byte) and the scanner that stands for a greedy `class*`. */
module Chars {
  datatype Option<+T> = None | Some(value: T)

  datatype CharClass =
    | Space      // [[:space:]]
    | NonSpace   // [^[:space:]]
    | Word       // [_[:alnum:]]
    | Digit      // [[:digit:]]
    | HexDigit   // [[:xdigit:]]
    | AnyChar    // .  (no line terminator)
    | LineBreak  // [\r\n]
    | NotNewline // [^\n], what std::getline copies
    | NotColon   // [^:]
    | Segment    // [^&?]
    | Section    // [^/?]
    | PathChar   // [^?]
    | ArgChar    // [^})]

  predicate Is(k: CharClass, c: char) {
    match k
    case Space => c == ' ' || '\t' <= c <= '\r'
    case NonSpace => !(c == ' ' || '\t' <= c <= '\r')
    case Word => c == '_' || IsAlpha(c) || '0' <= c <= '9'
    case Digit => '0' <= c <= '9'
    case HexDigit => '0' <= c <= '9' || 'a' <= c <= 'f' || 'A' <= c <= 'F'
    case AnyChar => c != '\r' && c != '\n'
    case LineBreak => c == '\r' || c == '\n'
    case NotNewline => c != '\n'
    case NotColon => c != ':'
    case Segment => c != '&' && c != '?'
    case Section => c != '/' && c != '?'
    case PathChar => c != '?'
    case ArgChar => c != '}' && c != ')'
  }

  predicate IsAlpha(c: char) {
    'a' <= c <= 'z' || 'A' <= c <= 'Z'
  }

  predicate All(k: CharClass, s: string) {
    forall i :: 0 <= i < |s| ==> Is(k, s[i])
  }

  lemma Assoc<T>(a: seq<T>, b: seq<T>, c: seq<T>)
    ensures (a + b) + c == a + (b + c)
  {}

  /** A string cut in two. */
  datatype Cut = Cut(head: string, tail: string)

  /** The greedy `class*`: the longest prefix of `s` in class `k`, and the rest. */
  function Span(k: CharClass, s: string): (c: Cut)
    ensures |c.head| + |c.tail| == |s|
  {
    if s != "" && Is(k, s[0]) then
      var c := Span(k, s[1..]);
      Cut([s[0]] + c.head, c.tail)
    else
      Cut("", s)
  }

  lemma {:induction false} SpanIsLongest(k: CharClass, s: string)
    ensures var c := Span(k, s);
            s == c.head + c.tail && All(k, c.head) && (c.tail != "" ==> !Is(k, c.tail[0]))
  {
    if s != "" && Is(k, s[0]) {
      SpanIsLongest(k, s[1..]);
      assert s == [s[0]] + s[1..];
    }
  }

  lemma {:induction false} SpanOf(k: CharClass, a: string, b: string)
    requires All(k, a) && (b != "" ==> !Is(k, b[0]))
    ensures Span(k, a + b) == Cut(a, b)
  {
    if a == "" {
      assert a + b == b;
    } else {
      assert (a + b)[1..] == a[1..] + b;
      SpanOf(k, a[1..], b);
    }
  }

  lemma NextAfterHead(c: Cut, a: string, b: string)
    requires a + b == c.head + c.tail && |c.head| < |a|
    ensures c.tail != "" && c.tail[0] == a[|c.head|]
  {
    var t := a + b;
    assert t[|c.head|] == a[|c.head|];
    assert t[|c.head|] == (c.head + c.tail)[|c.head|];
  }

  lemma LongestPiece(k: CharClass, c: Cut, a: string, b: string)
    requires a + b == c.head + c.tail && All(k, a)
    requires c.tail != "" ==> !Is(k, c.tail[0])
    ensures a <= c.head
  {
    if |c.head| < |a| {
      NextAfterHead(c, a, b);
    } else {
      var t := a + b;
      assert a == t[..|a|] && c.head == t[..|c.head|];
    }
  }

  /** No other way to cut off characters of class `k` takes more than Span. */
  lemma SpanBeats(k: CharClass, a: string, b: string)
    requires All(k, a)
    ensures var c := Span(k, a + b);
            a <= c.head && (|a| == |c.head| ==> a == c.head && b == c.tail)
  {
    var c := Span(k, a + b);
    SpanIsLongest(k, a + b);
    LongestPiece(k, c, a, b);
    hide Span, Is;
    assert b == (a + b)[|a|..] && c.tail == (a + b)[|c.head|..];
  }

  function LowerChar(c: char): char {
    if 'A' <= c <= 'Z' then c - 'A' + 'a' else c
  }

  function UpperChar(c: char): char {
    if 'a' <= c <= 'z' then c - 'a' + 'A' else c
  }

  function Upper(s: string): (r: string)
    ensures |r| == |s| && forall i :: 0 <= i < |s| ==> r[i] == UpperChar(s[i])
  {
    seq(|s|, i requires 0 <= i < |s| => UpperChar(s[i]))
  }

  function Lower(s: string): (r: string)
    ensures |r| == |s| && forall i :: 0 <= i < |s| ==> r[i] == LowerChar(s[i])
  {
    seq(|s|, i requires 0 <= i < |s| => LowerChar(s[i]))
  }

  predicate Contains(s: string, t: string) {
    exists i :: 0 <= i <= |s| - |t| && OccursAt(s, t, i)
  }

  predicate OccursAt(s: string, t: string, i: nat) {
    i + |t| <= |s| && s[i..i + |t|] == t
  }

  /** Decimal text of a number, std::to_string. */
  function Decimal(n: nat): (s: string)
    ensures s != "" && All(Digit, s)
    ensures DecimalValue(s) == n && (|s| > 1 ==> s[0] != '0')
  {
    if n < 10 then [DigitChar(n)]
    else
      var s := Decimal(n / 10) + [DigitChar(n % 10)];
      assert s[..|s| - 1] == Decimal(n / 10);
      s
  }

  function DigitChar(n: nat): (c: char)
    requires n < 10
    ensures Is(Digit, c) && c as int - '0' as int == n
  {
    (n + '0' as int) as char
  }

  function DecimalValue(s: string): nat
    requires All(Digit, s)
  {
    if s == "" then 0
    else 10 * DecimalValue(s[..|s| - 1]) + (s[|s| - 1] as int - '0' as int)
  }
}
