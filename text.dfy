/**
 * Character classes of the two log patterns, longest-run scanning, literal
 * prefixes and `str.strip()`.  Only ASCII is modelled: `\d` is '0'..'9' and
 * the whitespace that `strip()` removes is the ASCII part of Python's set.
 */
module Text {
  import opened Wrappers

  /** The character classes the patterns use. */
  datatype Class =
    | Digit       // \d
    | Upper       // [A-Z]
    | NonSpace    // [^ ]
    | NonQuote    // [^"]
    | NonBracket  // [^\]]
    | NonNewline  // .
    | Blank       // what str.strip() removes

  predicate In(c: char, k: Class) {
    match k
    case Digit => '0' <= c <= '9'
    case Upper => 'A' <= c <= 'Z'
    case NonSpace => c != ' '
    case NonQuote => c != '"'
    case NonBracket => c != ']'
    case NonNewline => c != '\n'
    case Blank => c == ' ' || '\t' <= c <= '\r' || '\U{1C}' <= c <= '\U{1F}'
  }

  /** Every character of `s` is in class `k`. */
  predicate AllIn(s: string, k: Class) {
    forall i :: 0 <= i < |s| ==> In(s[i], k)
  }

  /** A run of `k` over `a + b` is a run over each part. */
  lemma AllInJoin(a: string, b: string, k: Class)
    requires AllIn(a + b, k)
    ensures AllIn(a, k) && AllIn(b, k)
  {
    forall i | 0 <= i < |a| ensures In(a[i], k) {
      assert a[i] == (a + b)[i];
    }
    forall i | 0 <= i < |b| ensures In(b[i], k) {
      assert b[i] == (a + b)[|a| + i];
    }
  }

  /** A run of class `k` cannot be continued into `s`. */
  predicate Stops(s: string, k: Class) {
    s == [] || !In(s[0], k)
  }

  /** Length of the longest prefix of `s` inside class `k`. */
  function Span(s: string, k: Class): (n: nat)
    ensures n <= |s|
    ensures AllIn(s[..n], k)
    ensures Stops(s[n..], k)
  {
    if s == [] || !In(s[0], k) then 0 else 1 + Span(s[1..], k)
  }

  /** Greedy `k*`: the longest run of class `k` at the front and what follows it. */
  function Token(s: string, k: Class): (r: (string, string))
    ensures r.0 + r.1 == s
    ensures AllIn(r.0, k) && Stops(r.1, k)
  {
    var n := Span(s, k);
    assert s == s[..n] + s[n..];
    (s[..n], s[n..])
  }

  /** A run followed by something that stops it is exactly what Token splits off. */
  lemma TokenOf(a: string, b: string, k: Class)
    requires AllIn(a, k) && Stops(b, k)
    ensures Token(a + b, k) == (a, b)
  {
    SpanOf(a, b, k);
    assert (a + b)[..|a|] == a && (a + b)[|a|..] == b;
  }

  lemma {:induction false} SpanOf(a: string, b: string, k: Class)
    requires AllIn(a, k) && Stops(b, k)
    ensures Span(a + b, k) == |a|
  {
    if a == [] {
      assert a + b == b;
    } else {
      assert (a + b)[0] == a[0];
      assert (a + b)[1..] == a[1..] + b;
      SpanOf(a[1..], b, k);
    }
  }

  /** The literal `t` at the front of `s`, and what follows it. */
  function Literal(s: string, t: string): (r: Option<string>)
    ensures r.Some? <==> t <= s
    ensures r.Some? ==> s == t + r.value
  {
    if t <= s then
      assert s == s[..|t|] + s[|t|..];
      Some(s[|t|..])
    else None
  }

  lemma LiteralOf(t: string, x: string)
    ensures Literal(t + x, t) == Some(x)
  {
    assert (t + x)[..|t|] == t;
  }

  /** Python's `str.lstrip()` over ASCII whitespace. */
  function StripStart(s: string): string
  {
    if s != [] && In(s[0], Blank) then StripStart(s[1..]) else s
  }

  /** `lstrip()` removes a blank prefix and leaves a string that does not start with a blank. */
  lemma {:induction false} StripStartCuts(s: string)
    ensures var r := StripStart(s);
            |r| <= |s| && r == s[|s| - |r|..] && AllIn(s[..|s| - |r|], Blank) && Stops(r, Blank)
  {
    if s != [] && In(s[0], Blank) {
      var r := StripStart(s[1..]);
      StripStartCuts(s[1..]);
      assert s[..|s| - |r|] == [s[0]] + s[1..][..|s| - 1 - |r|];
    }
  }

  /** Python's `str.rstrip()` over ASCII whitespace. */
  function StripEnd(s: string): string
  {
    if s != [] && In(s[|s| - 1], Blank) then StripEnd(s[..|s| - 1]) else s
  }

  /** `rstrip()` removes a blank suffix and leaves a string that does not end with a blank. */
  lemma {:induction false} StripEndCuts(s: string)
    ensures var r := StripEnd(s);
            |r| <= |s| && r == s[..|r|] && AllIn(s[|r|..], Blank) && (r == [] || !In(r[|r| - 1], Blank))
  {
    if s != [] && In(s[|s| - 1], Blank) {
      var r := StripEnd(s[..|s| - 1]);
      StripEndCuts(s[..|s| - 1]);
      assert s[|r|..] == s[..|s| - 1][|r|..] + [s[|s| - 1]];
    }
  }

  /** Python's `str.strip()` over ASCII whitespace. */
  function Strip(s: string): string {
    StripEnd(StripStart(s))
  }

  /** What `strip()` leaves is `s` without some whitespace before it and some after it. */
  lemma StripTrims(s: string)
    ensures exists a, b :: s == a + (Strip(s) + b) && AllIn(a, Blank) && AllIn(b, Blank)
  {
    var m := StripStart(s);
    var r := StripEnd(m);
    StripStartCuts(s);
    StripEndCuts(m);
    var a := s[..|s| - |m|];
    var b := m[|r|..];
    assert m == r + b;
    assert s == a + m;
    assert s == a + (r + b);
  }

  /** What `strip()` leaves neither starts nor ends with whitespace. */
  lemma StripEnds(s: string)
    ensures var r := Strip(s);
            r == [] || (!In(r[0], Blank) && !In(r[|r| - 1], Blank))
  {
    var m := StripStart(s);
    var r := StripEnd(m);
    StripStartCuts(s);
    StripEndCuts(m);
    assert r != [] ==> r[0] == m[0];
  }

  /** A line of whitespace only strips to nothing. */
  lemma {:induction false} StripBlank(s: string)
    requires AllIn(s, Blank)
    ensures Strip(s) == []
  {
    if s != [] {
      assert AllIn(s[1..], Blank);
      StripBlank(s[1..]);
    }
  }
}
