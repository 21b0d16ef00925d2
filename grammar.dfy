/**
 * The access-log line grammar, as a specification.  A line is
 *
 *   ip " - - [" timestamp "] \"" verb " " endpoint " " version "\" " status " " size [" \"" message "\""]
 *
 * with the version token matched but not captured.  log_analysis.py and
 * Streamlit_APP/utils.py use two variants of the pattern, told apart by a
 * `Dialect`:
 *   - Script (log_analysis.py): timestamp `[^\]]+`, message `[^"]*`;
 *   - Dashboard (utils.py): timestamp and message both the lazy `.*?`, so the
 *     timestamp may be empty and is the shortest one for which the rest of the
 *     line still matches, and the message may hold quotes.
 * Matching is always applied to a stripped line, which never ends in a
 * newline, so the pattern's `$` is simply the end of the string.
 */
module Grammar {
  import opened Wrappers
  import opened Text

  /** One parsed line: the named groups of the pattern, as captured text. */
  datatype Record = Record(
    ip: string,
    timestamp: string,
    verb: string,
    endpoint: string,
    status: string,
    size: string,
    message: Option<string>)

  datatype Dialect = Script | Dashboard

  /** Non-empty and inside class `k`: the `k+` of the pattern. */
  predicate Run1(s: string, k: Class) {
    s != [] && AllIn(s, k)
  }

  function DottedQuad(g1: string, g2: string, g3: string, g4: string): string {
    g1 + ("." + (g2 + ("." + (g3 + ("." + g4)))))
  }

  /** `\d+\.\d+\.\d+\.\d+`: four non-empty digit groups joined by dots. */
  ghost predicate IsIp(s: string) {
    exists g1, g2, g3, g4 ::
      Run1(g1, Digit) && Run1(g2, Digit) && Run1(g3, Digit) && Run1(g4, Digit)
      && s == DottedQuad(g1, g2, g3, g4)
  }

  /** `[^\]]+` in log_analysis.py, `.*?` in utils.py. */
  predicate StampShape(d: Dialect, t: string) {
    match d
    case Script => Run1(t, NonBracket)
    case Dashboard => AllIn(t, NonNewline)
  }

  /** `/[^ ]*` */
  predicate EndpointShape(e: string) {
    e != [] && e[0] == '/' && AllIn(e, NonSpace)
  }

  /** `[^"]*` in log_analysis.py, `.*?` in utils.py. */
  predicate MessageShape(d: Dialect, m: Option<string>) {
    match m
    case None => true
    case Some(text) =>
      match d
      case Script => AllIn(text, NonQuote)
      case Dashboard => AllIn(text, NonNewline)
  }

  /** What follows the timestamp, with the uncaptured version token. */
  datatype Request = Request(
    verb: string,
    endpoint: string,
    version: string,
    status: string,
    size: string,
    message: Option<string>)

  function RequestOf(r: Record, version: string): Request {
    Request(r.verb, r.endpoint, version, r.status, r.size, r.message)
  }

  predicate RequestShape(d: Dialect, q: Request) {
    && Run1(q.verb, Upper)
    && EndpointShape(q.endpoint)
    && Run1(q.version, NonQuote)
    && Run1(q.status, Digit)
    && Run1(q.size, Digit)
    && MessageShape(d, q.message)
  }

  /** The optional ` "message"` at the end of the line. */
  function Tail(m: Option<string>): string {
    match m
    case None => ""
    case Some(text) => " \"" + (text + "\"")
  }

  /** `] "METHOD ENDPOINT VERSION" STATUS SIZE[ "MESSAGE"]` */
  function RequestText(q: Request): string {
    "] \"" + (q.verb + (" " + (q.endpoint + (" " + (q.version + ("\" "
      + (q.status + (" " + (q.size + Tail(q.message))))))))))
  }

  /** The whole line for record `r` and version token `version`. */
  function Layout(r: Record, version: string): string {
    r.ip + (" - - [" + (r.timestamp + RequestText(RequestOf(r, version))))
  }

  /** Every captured field has the shape its group allows. */
  ghost predicate Shaped(d: Dialect, r: Record, version: string) {
    IsIp(r.ip) && StampShape(d, r.timestamp) && RequestShape(d, RequestOf(r, version))
  }

  /** Some way of reading `line` with the pattern of `d` captures `r`. */
  ghost predicate Fits(d: Dialect, line: string, r: Record) {
    exists version :: Shaped(d, r, version) && line == Layout(r, version)
  }

  /**
   * `r` is what `re.match(pattern, line)` captures.  The Script pattern has
   * at most one reading; the lazy timestamp of the Dashboard pattern takes the
   * reading with the shortest timestamp.
   */
  ghost predicate Matches(d: Dialect, line: string, r: Record) {
    && Fits(d, line, r)
    && (d == Dashboard ==>
          forall r' :: Fits(d, line, r') ==> |r.timestamp| <= |r'.timestamp|)
  }

  /** The line matches the pattern of `d` in full. */
  ghost predicate Conforms(d: Dialect, line: string) {
    exists r :: Matches(d, line, r)
  }

  /** The last character of `a + b` is that of `b` when `b` is not empty. */
  lemma LastOfJoin(a: string, b: string)
    requires b != []
    ensures (a + b)[|a + b| - 1] == b[|b| - 1]
  {
  }

  /** A laid-out line ends with the last digit of the size, or with the quote closing the message. */
  lemma LayoutLast(r: Record, version: string)
    requires Run1(r.size, Digit)
    ensures Layout(r, version) != []
    ensures Layout(r, version)[|Layout(r, version)| - 1]
         == if r.message.None? then r.size[|r.size| - 1] else '"'
  {
    var end := r.size + Tail(r.message);
    var q := RequestOf(r, version);
    assert end[|end| - 1] == if r.message.None? then r.size[|r.size| - 1] else '"';
    var s4 := q.status + (" " + end);
    LastOfJoin(q.status, " " + end);
    LastOfJoin(" ", end);
    var s3 := q.version + ("\" " + s4);
    LastOfJoin(q.version, "\" " + s4);
    LastOfJoin("\" ", s4);
    var s2 := q.endpoint + (" " + s3);
    LastOfJoin(q.endpoint, " " + s3);
    LastOfJoin(" ", s3);
    var s1 := q.verb + (" " + s2);
    LastOfJoin(q.verb, " " + s2);
    LastOfJoin(" ", s2);
    var s0 := "] \"" + s1;
    LastOfJoin("] \"", s1);
    assert RequestText(q) == s0;
    LastOfJoin(r.timestamp, s0);
    LastOfJoin(" - - [", r.timestamp + s0);
    LastOfJoin(r.ip, " - - [" + (r.timestamp + s0));
  }

  /**
   * What the pattern of `d` captures from a line it matches: every field has
   * the shape of its group, and the message is absent exactly when the line
   * ends right after the size, that is, in a digit (with a message it ends in
   * the closing quote).
   */
  lemma MatchShape(d: Dialect, line: string, r: Record)
    requires Matches(d, line, r)
    ensures IsIp(r.ip) && StampShape(d, r.timestamp)
    ensures Run1(r.verb, Upper) && EndpointShape(r.endpoint)
    ensures Run1(r.status, Digit) && Run1(r.size, Digit)
    ensures MessageShape(d, r.message)
    ensures r.message.None? <==> line != [] && In(line[|line| - 1], Digit)
  {
    var version :| Shaped(d, r, version) && line == Layout(r, version);
    LayoutLast(r, version);
  }

  /** The empty line matches neither pattern: every laid-out line has at least its size. */
  lemma EmptyLineNeverConforms(d: Dialect)
    ensures !Conforms(d, [])
  {
    forall r, version | Shaped(d, r, version)
      ensures Layout(r, version) != []
    {
      LayoutLast(r, version);
    }
  }
}
