/**
 * The command-line analyser, log_analysis.py: a lenient validator, the
 * parser with the Script pattern, and the brute-force threshold.  The three
 * analyses it runs on the parsed records are those of module Analytics.
 */
module LogAnalysis {
  import opened Wrappers
  import opened Text
  import opened Grammar
  import opened Recogniser
  import opened Extraction
  import opened Analytics

  /** Failed logins from one address above which it is reported. */
  const FailedLoginThreshold: nat := 10

  /** The verbs the validator looks for after a `"`, as written, `DLETE` included. */
  const Verbs: seq<string> := ["GET", "POST", "PUT", "DLETE", "OPTIONS", "HEAD"]

  /** `re.search(r'\d+\.\d+\.\d+\.\d+', line)` succeeds: some stretch of the line is an IP address. */
  ghost predicate HasIp(line: string) {
    exists i, j :: 0 <= i <= j <= |line| && IsIp(line[i..j])
  }

  /** `re.search(r'"(GET|POST|PUT|DLETE|OPTIONS|HEAD)', line)` succeeds. */
  predicate HasVerb(line: string) {
    exists i | 0 <= i < |line| :: line[i] == '"' && exists v | v in Verbs :: v <= line[i + 1..]
  }

  /** What the validator asks of every line. */
  ghost predicate Plausible(line: string) {
    HasIp(line) && HasVerb(line)
  }

  /** An IP address starts at position `i` of the line. */
  predicate IpAt(line: string, i: nat)
    requires i <= |line|
  {
    ScanIp(line[i..]).Some?
  }

  /** The search for an IP address, trying every starting position. */
  function SearchIp(line: string): bool {
    exists i | 0 <= i <= |line| :: IpAt(line, i)
  }

  /** ScanIp finding an address at position `i` means the line has an IP address there. */
  lemma FoundIpIsIp(line: string, i: nat, ip: string, rest: string)
    requires i <= |line| && IsIp(ip) && line[i..] == ip + rest
    ensures HasIp(line)
  {
    assert line[i..i + |ip|] == ip;
  }

  /** An IP address in the line is found starting at its first character. */
  lemma IpIsFound(line: string, i: nat, j: nat)
    requires i <= j <= |line| && IsIp(line[i..j])
    ensures ScanIp(line[i..]).Some?
  {
    assert line[i..] == line[i..j] + line[j..];
    ScanIpFinds(line[i..j], line[j..]);
  }

  /** The search is exactly the regular-expression search. */
  lemma SearchIpIff(line: string)
    ensures SearchIp(line) <==> HasIp(line)
  {
    if SearchIp(line) {
      var i :| 0 <= i <= |line| && IpAt(line, i);
      var p := ScanIp(line[i..]).value;
      FoundIpIsIp(line, i, p.0, p.1);
    }
    if HasIp(line) {
      var i, j :| 0 <= i <= j <= |line| && IsIp(line[i..j]);
      IpIsFound(line, i, j);
      assert IpAt(line, i);
    }
  }

  /** `re.search` for an IP address: whether the line holds one. */
  method FindIp(line: string) returns (found: bool)
    ensures found <==> HasIp(line)
  {
    SearchIpIff(line);
    found := SearchIp(line);
  }

  /**
   * `validate_log_file`: true exactly when every line holds an IP address
   * and a `"` followed by one of the verbs; the loop stops at the first line
   * that does not.
   */
  method ValidateLogFile(lines: seq<string>) returns (ok: bool)
    ensures ok <==> forall i :: 0 <= i < |lines| ==> Plausible(lines[i])
  {
    for i := 0 to |lines|
      invariant forall j :: 0 <= j < i ==> Plausible(lines[j])
    {
      var hasIp := FindIp(lines[i]);
      if !hasIp {
        return false;
      }
      if !HasVerb(lines[i]) {
        return false;
      }
    }
    return true;
  }

  /**
   * A line whose every `"` is followed by `DELETE` or `PATCH` fails the
   * verb check: the list has `DLETE` for `DELETE` and no `PATCH`.
   */
  lemma DeleteAndPatchRejected(line: string)
    requires forall i :: 0 <= i < |line| && line[i] == '"' ==>
               "DELETE" <= line[i + 1..] || "PATCH" <= line[i + 1..]
    ensures !HasVerb(line)
  {
    forall i, v | 0 <= i < |line| && line[i] == '"' && v in Verbs
      ensures !(v <= line[i + 1..])
    {
      var rest := line[i + 1..];
      assert v == "GET" || v == "POST" || v == "PUT" || v == "DLETE" || v == "OPTIONS" || v == "HEAD";
      if "DELETE" <= rest {
        assert rest[0] == 'D' && rest[1] == 'E';
        if v == "DLETE" {
          Differ(v, rest, 1);
        } else {
          Differ(v, rest, 0);
        }
      } else {
        assert rest[0] == 'P' && rest[1] == 'A';
        if v == "POST" || v == "PUT" {
          Differ(v, rest, 1);
        } else {
          Differ(v, rest, 0);
        }
      }
    }
  }

  /** Two strings that differ at a position both have are not prefix of one another. */
  lemma Differ(v: string, s: string, m: nat)
    requires m < |v| && m < |s| && v[m] != s[m]
    ensures !(v <= s)
  {
  }

  /**
   * `parse_log_file`: the records of the lines whose stripped text matches
   * the Script pattern, in line order.
   */
  method ParseLogFile(lines: seq<string>) returns (data: seq<Record>)
    ensures data == Extracted(Script, lines)
  {
    data := [];
    for i := 0 to |lines|
      invariant data == Extracted(Script, lines[..i])
    {
      var found := Recognise(Script, Strip(lines[i]));
      assert lines[..i + 1][..i] == lines[..i];
      if found.Some? {
        data := data + [found.value];
      }
    }
    assert lines[..|lines|] == lines;
  }

  /** `detect_suspicious_activity` with the module's threshold. */
  function DetectSuspiciousActivity(records: seq<Record>): (r: Result<seq<Entry>, Failure>)
    ensures r.Failure? <==> records == []
    ensures r.Failure? ==> r.error == MissingColumn("status")
    ensures r.Success? ==>
              forall ip :: ip in KeySet(r.value) <==> FailedCount(records, ip) > 10
    ensures r.Success? ==> IsSuspicionTable(r.value, records, FailedLoginThreshold)
  {
    Analytics.DetectSuspiciousActivity(records, FailedLoginThreshold)
  }

  /** Ten failed logins are not reported; eleven are. */
  lemma ThresholdIsStrict(records: seq<Record>, ip: string)
    requires records != []
    ensures FailedCount(records, ip) == 10 ==> ip !in KeySet(DetectSuspiciousActivity(records).value)
    ensures FailedCount(records, ip) == 11 ==> ip in KeySet(DetectSuspiciousActivity(records).value)
  {
  }

  /**
   * Fifteen failed logins from one address are reported with their count;
   * ten are not.
   */
  lemma BruteForceReported(r: Record)
    requires r.status == "401"
    ensures Entry(r.ip, 15) in DetectSuspiciousActivity(seq(15, _ => r)).value
    ensures r.ip !in KeySet(DetectSuspiciousActivity(seq(10, _ => r)).value)
  {
    RepeatedFailures(r, 15);
    RepeatedFailures(r, 10);
    var f := DetectSuspiciousActivity(seq(15, _ => r)).value;
    assert r.ip in KeySet(f);
    var e :| e in f && e.key == r.ip;
    assert e == Entry(r.ip, 15);
  }
}
