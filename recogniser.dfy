/**
 * An executable recogniser for the two line patterns, proved sound and
 * complete against `Grammar.Matches`: it returns `Some(r)` exactly when `r`
 * is what `re.match` captures.  Each piece scans greedily, as the regular
 * expression's greedy runs do; since every run is followed by a character
 * outside its class, the greedy run is the only one that can succeed.  The
 * lazy timestamp of the Dashboard pattern is found by trying ever longer
 * timestamps, as the backtracking matcher does.
 */
module Recogniser {
  import opened Wrappers
  import opened Text
  import opened Grammar

  /** A greedy run of class `k` followed by the literal `lit`: the run and what follows `lit`. */
  function Step(s: string, k: Class, lit: string): (r: Option<(string, string)>)
    ensures r.Some? ==> AllIn(r.value.0, k) && s == r.value.0 + (lit + r.value.1)
  {
    var (run, s1) := Token(s, k);
    var s2 :- Literal(s1, lit);
    Some((run, s2))
  }

  lemma StepOf(run: string, k: Class, lit: string, x: string)
    requires AllIn(run, k) && lit != [] && !In(lit[0], k)
    ensures Step(run + (lit + x), k, lit) == Some((run, x))
  {
    TokenOf(run, lit + x, k);
    LiteralOf(lit, x);
  }

  /** Greedy `\d+\.\d+\.\d+\.\d+` at the front of `s`, and what follows it. */
  function ScanIp(s: string): (r: Option<(string, string)>)
    ensures r.Some? ==> IsIp(r.value.0) && s == r.value.0 + r.value.1
  {
    var p1 :- Step(s, Digit, ".");
    var p2 :- Step(p1.1, Digit, ".");
    var p3 :- Step(p2.1, Digit, ".");
    var (g4, rest) := Token(p3.1, Digit);
    if p1.0 == [] || p2.0 == [] || p3.0 == [] || g4 == [] then None
    else
      var ip := DottedQuad(p1.0, p2.0, p3.0, g4);
      QuadThen(p1.0, p2.0, p3.0, g4, rest);
      QuadIsIp(p1.0, p2.0, p3.0, g4);
      assert s == ip + rest;
      Some((ip, rest))
  }

  lemma QuadIsIp(g1: string, g2: string, g3: string, g4: string)
    requires Run1(g1, Digit) && Run1(g2, Digit) && Run1(g3, Digit) && Run1(g4, Digit)
    ensures IsIp(DottedQuad(g1, g2, g3, g4))
  {
  }

  /** Appending to a dotted quad, regrouped to the right. */
  lemma QuadThen(g1: string, g2: string, g3: string, g4: string, x: string)
    ensures DottedQuad(g1, g2, g3, g4) + x
         == g1 + ("." + (g2 + ("." + (g3 + ("." + (g4 + x))))))
  {
    var t3 := "." + g4;
    var t2 := "." + (g3 + t3);
    var t1 := "." + (g2 + t2);
    calc {
      DottedQuad(g1, g2, g3, g4) + x;
      (g1 + t1) + x;
      g1 + (t1 + x);
      { assert t1 + x == "." + ((g2 + t2) + x) == "." + (g2 + (t2 + x)); }
      g1 + ("." + (g2 + (t2 + x)));
      { assert t2 + x == "." + ((g3 + t3) + x) == "." + (g3 + (t3 + x)); }
      g1 + ("." + (g2 + ("." + (g3 + (t3 + x)))));
      { assert t3 + x == "." + (g4 + x); }
      g1 + ("." + (g2 + ("." + (g3 + ("." + (g4 + x))))));
    }
  }

  /** The four groups of an IP address, followed by a non-digit. */
  lemma ScanIpOf(ip: string, rest: string)
    requires IsIp(ip) && Stops(rest, Digit)
    ensures ScanIp(ip + rest) == Some((ip, rest))
  {
    var g1, g2, g3, g4 :|
      Run1(g1, Digit) && Run1(g2, Digit) && Run1(g3, Digit) && Run1(g4, Digit)
      && ip == DottedQuad(g1, g2, g3, g4);
    var s3 := g4 + rest;
    var s2 := g3 + ("." + s3);
    var s1 := g2 + ("." + s2);
    QuadThen(g1, g2, g3, g4, rest);
    StepOf(g1, Digit, ".", s1);
    StepOf(g2, Digit, ".", s2);
    StepOf(g3, Digit, ".", s3);
    TokenOf(g4, rest, Digit);
  }

  /** An IP address at the front of `s`, whatever follows, is found by ScanIp. */
  lemma ScanIpFinds(ip: string, rest: string)
    requires IsIp(ip)
    ensures ScanIp(ip + rest).Some?
  {
    var g1, g2, g3, g4 :|
      Run1(g1, Digit) && Run1(g2, Digit) && Run1(g3, Digit) && Run1(g4, Digit)
      && ip == DottedQuad(g1, g2, g3, g4);
    var s3 := g4 + rest;
    var s2 := g3 + ("." + s3);
    var s1 := g2 + ("." + s2);
    QuadThen(g1, g2, g3, g4, rest);
    StepOf(g1, Digit, ".", s1);
    StepOf(g2, Digit, ".", s2);
    StepOf(g3, Digit, ".", s3);
    assert s3[0] == g4[0];
    assert Span(s3, Digit) != 0;
  }

  /** `ip - - [` at the front of the line: the address and what follows `[`. */
  function ScanHead(line: string): (r: Option<(string, string)>)
    ensures r.Some? ==> IsIp(r.value.0) && line == r.value.0 + (" - - [" + r.value.1)
  {
    var p :- ScanIp(line);
    var rest :- Literal(p.1, " - - [");
    Some((p.0, rest))
  }

  lemma ScanHeadOf(ip: string, x: string)
    requires IsIp(ip)
    ensures ScanHead(ip + (" - - [" + x)) == Some((ip, x))
  {
    ScanIpOf(ip, " - - [" + x);
    LiteralOf(" - - [", x);
  }

  /** The optional ` "message"` and the end of the line. */
  function ScanTail(d: Dialect, s: string): (r: Option<Option<string>>)
    ensures r.Some? ==> MessageShape(d, r.value) && s == Tail(r.value)
  {
    if s == [] then Some(None)
    else
      match d
      case Script =>
        var s1 :- Literal(s, " \"");
        var (text, s2) := Token(s1, NonQuote);
        if s2 == "\"" then Some(Some(text)) else None
      case Dashboard =>
        if 3 <= |s| && s[..2] == " \"" && s[|s| - 1] == '"' && AllIn(s[2..|s| - 1], NonNewline) then
          assert s == " \"" + (s[2..|s| - 1] + "\"");
          Some(Some(s[2..|s| - 1]))
        else None
  }

  lemma ScanTailOf(d: Dialect, m: Option<string>)
    requires MessageShape(d, m)
    ensures ScanTail(d, Tail(m)) == Some(m)
  {
    match m
    case None =>
    case Some(text) =>
      var s := Tail(m);
      match d
      case Script =>
        LiteralOf(" \"", text + "\"");
        TokenOf(text, "\"", NonQuote);
      case Dashboard =>
        assert s[..2] == " \"" && s[2..|s| - 1] == text;
  }

  /** Everything after the timestamp: `] "METHOD ENDPOINT VERSION" STATUS SIZE[ "MESSAGE"]`. */
  function ScanRequest(d: Dialect, s: string): (r: Option<Request>)
    ensures r.Some? ==> RequestShape(d, r.value) && s == RequestText(r.value)
  {
    var s1 :- Literal(s, "] \"");
    var verb :- Step(s1, Upper, " ");
    var endpoint :- Step(verb.1, NonSpace, " ");
    var version :- Step(endpoint.1, NonQuote, "\" ");
    var status :- Step(version.1, Digit, " ");
    var (size, rest) := Token(status.1, Digit);
    var message :- ScanTail(d, rest);
    if verb.0 == [] || endpoint.0 == [] || endpoint.0[0] != '/' || version.0 == []
       || status.0 == [] || size == []
    then None
    else
      var q := Request(verb.0, endpoint.0, version.0, status.0, size, message);
      assert status.1 == size + Tail(message);
      assert s == RequestText(q);
      assert RequestShape(d, q);
      Some(q)
  }

  lemma ScanRequestOf(d: Dialect, q: Request)
    requires RequestShape(d, q)
    ensures ScanRequest(d, RequestText(q)) == Some(q)
  {
    var s5 := Tail(q.message);
    var s4 := q.size + s5;
    var s3 := q.status + (" " + s4);
    var s2 := q.version + ("\" " + s3);
    var s1 := q.endpoint + (" " + s2);
    var s0 := q.verb + (" " + s1);
    LiteralOf("] \"", s0);
    StepOf(q.verb, Upper, " ", s1);
    StepOf(q.endpoint, NonSpace, " ", s2);
    StepOf(q.version, NonQuote, "\" ", s3);
    StepOf(q.status, Digit, " ", s4);
    if q.message.Some? {
      assert s5[0] == ' ';
    }
    TokenOf(q.size, s5, Digit);
    ScanTailOf(d, q.message);
  }

  /**
   * A lazy `.*?` followed by the rest of a pattern, recognised by `rest`: the
   * first `n >= k` such that `rest` accepts `s[n..]`, never stepping over a
   * newline (`.` does not match one).  This is the order in which the
   * backtracking matcher tries ever longer captures.
   */
  function Shortest<T>(s: string, k: nat, rest: string -> Option<T>): (r: Option<(nat, T)>)
    requires k <= |s|
    ensures r.Some? ==> k <= r.value.0 <= |s|
    decreases |s| - k
  {
    match rest(s[k..])
    case Some(q) => Some((k, q))
    case None => if k < |s| && s[k] != '\n' then Shortest(s, k + 1, rest) else None
  }

  /** Where Shortest stops, the rest of the pattern matches. */
  lemma {:induction false} ShortestLands<T>(s: string, k: nat, rest: string -> Option<T>)
    requires k <= |s| && Shortest(s, k, rest).Some?
    ensures rest(s[Shortest(s, k, rest).value.0..]) == Some(Shortest(s, k, rest).value.1)
    decreases |s| - k
  {
    if rest(s[k..]).None? {
      ShortestLands(s, k + 1, rest);
    }
  }

  /** The capture Shortest settles on holds no newline. */
  lemma {:induction false} ShortestNoNewline<T>(s: string, k: nat, rest: string -> Option<T>)
    requires k <= |s| && Shortest(s, k, rest).Some?
    ensures AllIn(s[k..Shortest(s, k, rest).value.0], NonNewline)
    decreases |s| - k
  {
    if rest(s[k..]).None? {
      ShortestNoNewline(s, k + 1, rest);
      var n := Shortest(s, k, rest).value.0;
      assert s[k..n] == [s[k]] + s[k + 1..n];
    }
  }

  /** No shorter capture than the one Shortest settles on lets the rest match. */
  lemma {:induction false} ShortestFirst<T>(s: string, k: nat, rest: string -> Option<T>, j: nat)
    requires k <= |s| && Shortest(s, k, rest).Some?
    requires k <= j < Shortest(s, k, rest).value.0
    ensures rest(s[j..]).None?
    decreases |s| - k
  {
    if j > k {
      ShortestFirst(s, k + 1, rest, j);
    }
  }

  /** Shortest stops at the first place where the rest matches, if it crosses no newline to get there. */
  lemma {:induction false} ShortestFinds<T>(s: string, k: nat, rest: string -> Option<T>, n: nat)
    requires k <= n <= |s|
    requires AllIn(s[k..n], NonNewline)
    requires forall j :: k <= j < n ==> rest(s[j..]).None?
    requires rest(s[n..]).Some?
    ensures Shortest(s, k, rest) == Some((n, rest(s[n..]).value))
    decreases n - k
  {
    if k < n {
      assert s[k] == s[k..n][0];
      assert s[k + 1..n] == s[k..n][1..];
      ShortestFinds(s, k + 1, rest, n);
    }
  }

  /** The rest of a Dashboard line after its timestamp. */
  function DashboardRest(s: string): Option<Request> {
    ScanRequest(Dashboard, s)
  }

  function Build(ip: string, timestamp: string, q: Request): Record {
    Record(ip, timestamp, q.verb, q.endpoint, q.status, q.size, q.message)
  }

  /** Everything after `[` on a Script line: the `[^\]]+` timestamp and the rest. */
  function StampedScript(s: string): Option<(string, Request)> {
    var (timestamp, rest) := Token(s, NonBracket);
    var q :- ScanRequest(Script, rest);
    if timestamp == [] then None else Some((timestamp, q))
  }

  /** Everything after `[` on a Dashboard line: the shortest `.*?` timestamp and the rest. */
  function StampedDashboard(s: string): Option<(string, Request)> {
    var found :- Shortest(s, 0, DashboardRest);
    Some((s[..found.0], found.1))
  }

  function ScanStamped(d: Dialect, s: string): Option<(string, Request)> {
    match d
    case Script => StampedScript(s)
    case Dashboard => StampedDashboard(s)
  }

  /** `re.match(pattern, line)` for the pattern of dialect `d`, as its named groups. */
  function Recognise(d: Dialect, line: string): Option<Record> {
    var head :- ScanHead(line);
    var tail :- ScanStamped(d, head.1);
    Some(Build(head.0, tail.0, tail.1))
  }

  lemma StampedScriptSound(s: string)
    requires StampedScript(s).Some?
    ensures Run1(StampedScript(s).value.0, NonBracket)
    ensures RequestShape(Script, StampedScript(s).value.1)
    ensures s == StampedScript(s).value.0 + RequestText(StampedScript(s).value.1)
  {
  }

  lemma StampedDashboardSound(s: string)
    requires StampedDashboard(s).Some?
    ensures AllIn(StampedDashboard(s).value.0, NonNewline)
    ensures RequestShape(Dashboard, StampedDashboard(s).value.1)
    ensures s == StampedDashboard(s).value.0 + RequestText(StampedDashboard(s).value.1)
  {
    var found := Shortest(s, 0, DashboardRest).value;
    ShortestLands(s, 0, DashboardRest);
    ShortestNoNewline(s, 0, DashboardRest);
    Split(s, found.0);
  }

  lemma Split(s: string, n: nat)
    requires n <= |s|
    ensures s == s[..n] + s[n..]
  {
  }

  lemma ScanStampedSound(d: Dialect, s: string)
    requires ScanStamped(d, s).Some?
    ensures StampShape(d, ScanStamped(d, s).value.0)
    ensures RequestShape(d, ScanStamped(d, s).value.1)
    ensures s == ScanStamped(d, s).value.0 + RequestText(ScanStamped(d, s).value.1)
  {
    match d
    case Script => StampedScriptSound(s);
    case Dashboard => StampedDashboardSound(s);
  }

  /** What Recognise returns is a reading of the line. */
  lemma RecogniseSound(d: Dialect, line: string)
    requires Recognise(d, line).Some?
    ensures Fits(d, line, Recognise(d, line).value)
  {
    var (ip, s) := ScanHead(line).value;
    var (timestamp, q) := ScanStamped(d, s).value;
    ScanStampedSound(d, s);
    var r := Build(ip, timestamp, q);
    assert Recognise(d, line) == Some(r);
    assert RequestOf(r, q.version) == q;
    assert Shaped(d, r, q.version);
    assert Layout(r, q.version) == line;
  }

  /** The line a built record lays out to. */
  lemma LayoutBuild(ip: string, t: string, q: Request)
    ensures Layout(Build(ip, t, q), q.version) == ip + (" - - [" + (t + RequestText(q)))
  {
    assert RequestOf(Build(ip, t, q), q.version) == q;
  }

  lemma ShapedBuild(d: Dialect, ip: string, t: string, q: Request)
    requires IsIp(ip) && StampShape(d, t) && RequestShape(d, q)
    ensures Shaped(d, Build(ip, t, q), q.version)
  {
    assert RequestOf(Build(ip, t, q), q.version) == q;
  }

  /** Any timestamp `t` followed by a well-formed rest gives a reading of the line with that timestamp. */
  lemma ShorterReading(ip: string, t: string, q': Request)
    requires IsIp(ip) && AllIn(t, NonNewline) && RequestShape(Dashboard, q')
    ensures exists r' :: Fits(Dashboard, ip + (" - - [" + (t + RequestText(q'))), r') && |r'.timestamp| == |t|
  {
    var r' := Build(ip, t, q');
    LayoutBuild(ip, t, q');
    ShapedBuild(Dashboard, ip, t, q');
    assert Shaped(Dashboard, r', q'.version);
  }

  lemma StampedScriptComplete(t: string, q: Request)
    requires Run1(t, NonBracket) && RequestShape(Script, q)
    ensures StampedScript(t + RequestText(q)) == Some((t, q))
  {
    ScanRequestOf(Script, q);
    TokenOf(t, RequestText(q), NonBracket);
  }

  lemma StampedDashboardComplete(ip: string, t: string, q: Request)
    requires IsIp(ip) && AllIn(t, NonNewline) && RequestShape(Dashboard, q)
    requires forall r' :: Fits(Dashboard, ip + (" - - [" + (t + RequestText(q))), r') ==> |t| <= |r'.timestamp|
    ensures StampedDashboard(t + RequestText(q)) == Some((t, q))
  {
    var s := t + RequestText(q);
    var n := |t|;
    ScanRequestOf(Dashboard, q);
    assert s[..n] == t && s[n..] == RequestText(q);
    forall j | 0 <= j < n
      ensures DashboardRest(s[j..]).None?
    {
      if DashboardRest(s[j..]).Some? {
        var q' := DashboardRest(s[j..]).value;
        assert s[j..] == RequestText(q');
        assert s[..j] == t[..j];
        Split(s, j);
        ShorterReading(ip, s[..j], q');
      }
    }
    ShortestFinds(s, 0, DashboardRest, n);
  }

  /** Every reading of the line (the shortest-stamped one, for Dashboard) is the one Recognise finds. */
  lemma RecogniseComplete(d: Dialect, line: string, r: Record)
    requires Fits(d, line, r)
    requires d == Dashboard ==> forall r' :: Fits(d, line, r') ==> |r.timestamp| <= |r'.timestamp|
    ensures Recognise(d, line) == Some(r)
  {
    var version :| Shaped(d, r, version) && line == Layout(r, version);
    var q := RequestOf(r, version);
    ScanHeadOf(r.ip, r.timestamp + RequestText(q));
    match d
    case Script => StampedScriptComplete(r.timestamp, q);
    case Dashboard => StampedDashboardComplete(r.ip, r.timestamp, q);
  }

  /** A reading that Recognise returns has no rival with a shorter timestamp. */
  lemma RecogniseMinimal(line: string, r': Record)
    requires Recognise(Dashboard, line).Some?
    requires Fits(Dashboard, line, r')
    ensures |Recognise(Dashboard, line).value.timestamp| <= |r'.timestamp|
  {
    var version :| Shaped(Dashboard, r', version) && line == Layout(r', version);
    var q := RequestOf(r', version);
    var s := r'.timestamp + RequestText(q);
    ScanHeadOf(r'.ip, s);
    ScanRequestOf(Dashboard, q);
    assert s[|r'.timestamp|..] == RequestText(q);
    var n := Shortest(s, 0, DashboardRest).value.0;
    assert Recognise(Dashboard, line).value.timestamp == s[..n];
    if |r'.timestamp| < n {
      ShortestFirst(s, 0, DashboardRest, |r'.timestamp|);
    }
  }

  /** Recognise is exact: it returns `Some(r)` if and only if `r` is the match. */
  lemma RecogniseExact(d: Dialect, line: string)
    ensures forall r :: Matches(d, line, r) <==> Recognise(d, line) == Some(r)
  {
    forall r
      ensures Matches(d, line, r) <==> Recognise(d, line) == Some(r)
    {
      if Matches(d, line, r) {
        RecogniseComplete(d, line, r);
      }
      if Recognise(d, line) == Some(r) {
        RecogniseSound(d, line);
      }
      if Recognise(d, line) == Some(r) && d == Dashboard {
        forall r' | Fits(d, line, r')
          ensures |r.timestamp| <= |r'.timestamp|
        {
          RecogniseMinimal(line, r');
        }
      }
    }
  }

  /** The pattern captures at most one record per line. */
  lemma MatchIsUnique(d: Dialect, line: string, r1: Record, r2: Record)
    requires Matches(d, line, r1) && Matches(d, line, r2)
    ensures r1 == r2
  {
    RecogniseExact(d, line);
  }

  lemma ConformsIff(d: Dialect, line: string)
    ensures Conforms(d, line) <==> Recognise(d, line).Some?
  {
    RecogniseExact(d, line);
  }

  /** A line with no newline has none in its timestamp or message. */
  lemma NoNewlineInFields(r: Record, version: string)
    requires AllIn(Layout(r, version), NonNewline)
    ensures AllIn(r.timestamp, NonNewline)
    ensures r.message.Some? ==> AllIn(r.message.value, NonNewline)
  {
    var q := RequestOf(r, version);
    AllInJoin(r.ip, " - - [" + (r.timestamp + RequestText(q)), NonNewline);
    AllInJoin(" - - [", r.timestamp + RequestText(q), NonNewline);
    AllInJoin(r.timestamp, RequestText(q), NonNewline);
    if r.message.Some? {
      var text := r.message.value;
      var end := q.size + Tail(q.message);
      assert RequestText(q) == ("] \"" + (q.verb + (" " + (q.endpoint + (" " + (q.version + ("\" "
        + (q.status + " "))))))))  + end;
      AllInJoin("] \"" + (q.verb + (" " + (q.endpoint + (" " + (q.version + ("\" "
        + (q.status + " "))))))), end, NonNewline);
      AllInJoin(q.size, Tail(q.message), NonNewline);
      AllInJoin(" \"", text + "\"", NonNewline);
      AllInJoin(text, "\"", NonNewline);
    }
  }

  /** A timestamp free of `]` is no longer than any timestamp of another split whose rest starts with `]`. */
  lemma StampUpToBracket(t: string, x: string, t': string, x': string)
    requires t + x == t' + x' && AllIn(t, NonBracket)
    requires x' != [] && x'[0] == ']'
    ensures |t| <= |t'|
  {
    assert (t' + x')[|t'|] == ']';
  }

  /**
   * A Script match that is also a Dashboard reading is the Dashboard match:
   * no shorter timestamp works, because the Script timestamp holds no `]`.
   */
  lemma ScriptMatchIsShortest(line: string, r: Record)
    requires Matches(Script, line, r) && Fits(Dashboard, line, r)
    ensures Matches(Dashboard, line, r)
  {
    var version :| Shaped(Script, r, version) && line == Layout(r, version);
    forall r' | Fits(Dashboard, line, r')
      ensures |r.timestamp| <= |r'.timestamp|
    {
      var version' :| Shaped(Dashboard, r', version') && line == Layout(r', version');
      var x := RequestText(RequestOf(r, version));
      var x' := RequestText(RequestOf(r', version'));
      ScanHeadOf(r.ip, r.timestamp + x);
      ScanHeadOf(r'.ip, r'.timestamp + x');
      StampUpToBracket(r.timestamp, x, r'.timestamp, x');
    }
  }

  /**
   * On a line without a newline, whatever the Script pattern captures the
   * Dashboard pattern captures too: the two parsers agree on such lines.
   */
  lemma ScriptMatchIsDashboardMatch(line: string, r: Record)
    requires Matches(Script, line, r) && AllIn(line, NonNewline)
    ensures Matches(Dashboard, line, r)
  {
    var version :| Shaped(Script, r, version) && line == Layout(r, version);
    NoNewlineInFields(r, version);
    assert Shaped(Dashboard, r, version);
    ScriptMatchIsShortest(line, r);
  }

  /** A well-formed access-log line, written the way Layout joins its parts. */
  const SampleLine: string :=
    "1.1.1.1" + (" - - [" + ("10/Oct/2020:13:55:36 -0700" + ("] \"" + ("GET" + (" " + ("/index.html"
      + (" " + ("HTTP/1.1" + ("\" " + ("200" + (" " + "1024")))))))))))

  const SampleRecord: Record :=
    Record("1.1.1.1", "10/Oct/2020:13:55:36 -0700", "GET", "/index.html", "200", "1024", None)

  lemma SampleIp()
    ensures IsIp("1.1.1.1")
  {
    QuadIsIp("1", "1", "1", "1");
    assert DottedQuad("1", "1", "1", "1") == "1.1.1.1";
  }

  lemma SampleShaped(d: Dialect)
    ensures Shaped(d, SampleRecord, "HTTP/1.1")
  {
    SampleIp();
    assert StampShape(d, "10/Oct/2020:13:55:36 -0700");
    assert RequestShape(d, Request("GET", "/index.html", "HTTP/1.1", "200", "1024", None));
    assert RequestOf(SampleRecord, "HTTP/1.1") == Request("GET", "/index.html", "HTTP/1.1", "200", "1024", None);
  }

  lemma SampleFits(d: Dialect)
    ensures Fits(d, SampleLine, SampleRecord)
  {
    SampleShaped(d);
    assert Layout(SampleRecord, "HTTP/1.1") == SampleLine;
  }

  /** Both patterns read the sample line as the same record, with no message. */
  lemma SampleRecognised(d: Dialect)
    ensures Recognise(d, SampleLine) == Some(SampleRecord)
  {
    SampleFits(Script);
    SampleFits(Dashboard);
    ScriptMatchIsShortest(SampleLine, SampleRecord);
    RecogniseComplete(d, SampleLine, SampleRecord);
  }
}
