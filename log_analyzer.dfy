/**
 * The dashboard's analyser, class LogAnalyzer of Streamlit_APP/utils.py: all
 * of its members are static, so it is a module here.  Its validator and its
 * parser both use the Dashboard pattern on the stripped line; the analyses
 * are those of module Analytics with the class's threshold.
 */
module LogAnalyzer {
  import opened Wrappers
  import opened Text
  import opened Grammar
  import opened Recogniser
  import opened Extraction
  import opened Analytics

  /** `FAILED_LOGIN_THRESHOLD` */
  const FailedLoginThreshold: nat := 10

  /** `re.match(log_pattern, line.strip())` on one line. */
  method MatchLine(line: string) returns (ok: bool)
    ensures ok <==> Conforms(Dashboard, Strip(line))
  {
    ConformsIff(Dashboard, Strip(line));
    ok := One(Dashboard, line).Some?;
  }

  /**
   * `validate_log_file`: false when the file is missing (`None`),
   * otherwise true exactly when every stripped line matches the pattern;
   * the loop stops at the first line that does not.
   */
  method ValidateLogFile(file: Option<seq<string>>) returns (ok: bool)
    ensures ok <==> file.Some? && forall i :: 0 <= i < |file.value| ==> Conforms(Dashboard, Strip(file.value[i]))
  {
    if file.None? {
      return false;
    }
    var lines := file.value;
    for i := 0 to |lines|
      invariant forall j :: 0 <= j < i ==> Conforms(Dashboard, Strip(lines[j]))
    {
      var matched := MatchLine(lines[i]);
      if !matched {
        return false;
      }
    }
    return true;
  }

  /**
   * `parse_log_file_to_dataframe`: the records of the lines whose stripped
   * text matches the pattern, in line order.
   */
  method ParseLogFileToDataframe(lines: seq<string>) returns (logLines: seq<Record>)
    ensures logLines == Extracted(Dashboard, lines)
  {
    logLines := [];
    for i := 0 to |lines|
      invariant logLines == Extracted(Dashboard, lines[..i])
    {
      var found := One(Dashboard, lines[i]);
      assert lines[..i + 1][..i] == lines[..i];
      if found.Some? {
        logLines := logLines + [found.value];
      }
    }
    assert lines[..|lines|] == lines;
  }

  /**
   * A file that passes validation parses into one record per line, each the
   * match of its line.
   */
  lemma ValidatedFileParsesEveryLine(lines: seq<string>)
    requires forall i :: 0 <= i < |lines| ==> Conforms(Dashboard, Strip(lines[i]))
    ensures |Extracted(Dashboard, lines)| == |lines|
    ensures forall i :: 0 <= i < |lines| ==> Matches(Dashboard, Strip(lines[i]), Extracted(Dashboard, lines)[i])
  {
    AllLinesMatch(Dashboard, lines);
  }

  /** A blank line (whitespace only) anywhere in the file fails validation. */
  lemma BlankLineFails(lines: seq<string>, i: nat)
    requires i < |lines| && AllIn(lines[i], Blank)
    ensures !Conforms(Dashboard, Strip(lines[i]))
  {
    StripBlank(lines[i]);
    EmptyLineNeverConforms(Dashboard);
  }

  /** `detect_suspicious_activity` with the class's threshold. */
  function DetectSuspiciousActivity(records: seq<Record>): (r: Result<seq<Entry>, Failure>)
    ensures r.Failure? <==> records == []
    ensures r.Failure? ==> r.error == MissingColumn("status")
    ensures r.Success? ==>
              forall ip :: ip in KeySet(r.value) <==> FailedCount(records, ip) > 10
    ensures r.Success? ==> IsSuspicionTable(r.value, records, FailedLoginThreshold)
  {
    Analytics.DetectSuspiciousActivity(records, FailedLoginThreshold)
  }

  /**
   * Fifteen failed logins from one address are reported with their count;
   * ten are not.
   */
  lemma BruteForceReported(r: Record)
    requires r.status == "401"
    ensures Entry(r.ip, 15) in DetectSuspiciousActivity(seq(15, _ => r)).value
    ensures r.ip !in KeySet(DetectSuspiciousActivity(seq(10, _ => r)).value)
  {
    RepeatedFailures(r, 15);
    RepeatedFailures(r, 10);
    var f := DetectSuspiciousActivity(seq(15, _ => r)).value;
    assert r.ip in KeySet(f);
    var e :| e in f && e.key == r.ip;
    assert e == Entry(r.ip, 15);
  }
}
