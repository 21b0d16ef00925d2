/**
 * What both parsers keep from a file: `re.match(pattern, line.strip())` on
 * every line, the records of the lines that match, in line order.  This is
 * the specification the loops of log_analysis.py and Streamlit_APP/utils.py
 * are proved against.
 */
module Extraction {
  import opened Wrappers
  import opened Text
  import opened Grammar
  import opened Recogniser

  /** The record one line yields, if its stripped text matches. */
  function One(d: Dialect, line: string): Option<Record> {
    Recognise(d, Strip(line))
  }

  /** The list `append` builds from one line: its record, or nothing. */
  function Kept<T>(o: Option<T>): seq<T> {
    match o
    case Some(x) => [x]
    case None => []
  }

  /**
   * What a loop that appends `p(line)` whenever it is present collects from
   * `lines`, in order, written from the back as the loop builds it.
   */
  function Collect<T>(lines: seq<string>, p: string -> Option<T>): seq<T>
    decreases |lines|
  {
    if lines == [] then []
    else Collect(lines[..|lines| - 1], p) + Kept(p(lines[|lines| - 1]))
  }

  /** The indices of the lines for which `p` gives a value, in increasing order. */
  function Picked<T>(lines: seq<string>, p: string -> Option<T>): seq<nat>
    decreases |lines|
  {
    if lines == [] then []
    else
      var n := |lines| - 1;
      Picked(lines[..n], p) + (if p(lines[n]).Some? then [n] else [])
  }

  /** Collecting distributes over joining files. */
  lemma {:induction false} CollectJoin<T>(a: seq<string>, b: seq<string>, p: string -> Option<T>)
    ensures Collect(a + b, p) == Collect(a, p) + Collect(b, p)
    decreases |b|
  {
    if b == [] {
      assert a + b == a;
    } else {
      var n := |b| - 1;
      assert (a + b)[..|a + b| - 1] == a + b[..n];
      assert (a + b)[|a + b| - 1] == b[n];
      CollectJoin(a, b[..n], p);
    }
  }

  /**
   * The picked indices are in range and increasing, and a line is picked
   * exactly when `p` gives a value for it.
   */
  lemma {:induction false} PickedLines<T>(lines: seq<string>, p: string -> Option<T>)
    ensures var idx := Picked(lines, p);
            && (forall k :: 0 <= k < |idx| ==> idx[k] < |lines|)
            && (forall k, l :: 0 <= k < l < |idx| ==> idx[k] < idx[l])
            && (forall i :: 0 <= i < |lines| ==> (i in idx <==> p(lines[i]).Some?))
    decreases |lines|
  {
    if lines != [] {
      var n := |lines| - 1;
      PickedLines(lines[..n], p);
      assert forall i :: 0 <= i < n ==> lines[i] == lines[..n][i];
    }
  }

  /**
   * The k-th collected value is that of the k-th picked line; the picked
   * lines are in increasing order, and a line is picked exactly when `p`
   * gives a value for it.
   */
  lemma {:induction false} CollectFollowsLines<T>(lines: seq<string>, p: string -> Option<T>)
    ensures var idx := Picked(lines, p);
            && |idx| == |Collect(lines, p)|
            && (forall k :: 0 <= k < |idx| ==> idx[k] < |lines|)
            && (forall k, l :: 0 <= k < l < |idx| ==> idx[k] < idx[l])
            && (forall k :: 0 <= k < |idx| ==> p(lines[idx[k]]) == Some(Collect(lines, p)[k]))
            && (forall i :: 0 <= i < |lines| ==> (i in idx <==> p(lines[i]).Some?))
    decreases |lines|
  {
    PickedLines(lines, p);
    if lines != [] {
      var n := |lines| - 1;
      var init := lines[..n];
      CollectFollowsLines(init, p);
      var idx0 := Picked(init, p);
      assert forall k :: 0 <= k < |idx0| ==> lines[idx0[k]] == init[idx0[k]];
    }
  }

  /** When `p` gives a value for every line, the k-th value is that of the k-th line. */
  lemma {:induction false} CollectAll<T>(lines: seq<string>, p: string -> Option<T>)
    requires forall i :: 0 <= i < |lines| ==> p(lines[i]).Some?
    ensures |Collect(lines, p)| == |lines|
    ensures forall i :: 0 <= i < |lines| ==> p(lines[i]) == Some(Collect(lines, p)[i])
    decreases |lines|
  {
    if lines != [] {
      var n := |lines| - 1;
      assert forall i :: 0 <= i < n ==> lines[..n][i] == lines[i];
      CollectAll(lines[..n], p);
    }
  }

  /** When `p` gives nothing for any line, nothing is collected. */
  lemma {:induction false} CollectNone<T>(lines: seq<string>, p: string -> Option<T>)
    requires forall i :: 0 <= i < |lines| ==> p(lines[i]).None?
    ensures Collect(lines, p) == []
    decreases |lines|
  {
    if lines != [] {
      var n := |lines| - 1;
      assert forall i :: 0 <= i < n ==> lines[..n][i] == lines[i];
      CollectNone(lines[..n], p);
    }
  }

  /** The records of the lines of `lines` whose stripped text matches the pattern of `d`, in order. */
  function Extracted(d: Dialect, lines: seq<string>): seq<Record> {
    Collect(lines, line => One(d, line))
  }

  /** The indices of those lines. */
  function MatchingLines(d: Dialect, lines: seq<string>): seq<nat> {
    Picked(lines, line => One(d, line))
  }

  /** Exactly one record per line whose stripped text matches the pattern, and in line order. */
  lemma OneRecordPerMatchingLine(d: Dialect, lines: seq<string>)
    ensures var idx := MatchingLines(d, lines);
            && |idx| == |Extracted(d, lines)|
            && (forall k, l :: 0 <= k < l < |idx| ==> idx[k] < idx[l])
            && (forall k :: 0 <= k < |idx| ==>
                  idx[k] < |lines| && Matches(d, Strip(lines[idx[k]]), Extracted(d, lines)[k]))
            && (forall i :: 0 <= i < |lines| ==> (i in idx <==> Conforms(d, Strip(lines[i]))))
  {
    CollectFollowsLines(lines, line => One(d, line));
    var idx := MatchingLines(d, lines);
    var recs := Extracted(d, lines);
    forall k | 0 <= k < |idx|
      ensures Matches(d, Strip(lines[idx[k]]), recs[k])
    {
      RecogniseExact(d, Strip(lines[idx[k]]));
    }
    forall i | 0 <= i < |lines|
      ensures i in idx <==> Conforms(d, Strip(lines[i]))
    {
      ConformsIff(d, Strip(lines[i]));
    }
  }

  /** When every stripped line matches, there is one record per line, each the match of its line. */
  lemma AllLinesMatch(d: Dialect, lines: seq<string>)
    requires forall i :: 0 <= i < |lines| ==> Conforms(d, Strip(lines[i]))
    ensures |Extracted(d, lines)| == |lines|
    ensures forall i :: 0 <= i < |lines| ==> Matches(d, Strip(lines[i]), Extracted(d, lines)[i])
  {
    forall i | 0 <= i < |lines|
      ensures One(d, lines[i]).Some?
    {
      ConformsIff(d, Strip(lines[i]));
    }
    CollectAll(lines, line => One(d, line));
    forall i | 0 <= i < |lines|
      ensures Matches(d, Strip(lines[i]), Extracted(d, lines)[i])
    {
      RecogniseExact(d, Strip(lines[i]));
    }
  }

  /** No matching line, no record: an empty result, never an error. */
  lemma NoLineMatches(d: Dialect, lines: seq<string>)
    requires forall i :: 0 <= i < |lines| ==> !Conforms(d, Strip(lines[i]))
    ensures Extracted(d, lines) == []
  {
    forall i | 0 <= i < |lines|
      ensures One(d, lines[i]).None?
    {
      ConformsIff(d, Strip(lines[i]));
    }
    CollectNone(lines, line => One(d, line));
  }

  /** Every extracted record has the shape its pattern's groups allow. */
  lemma ExtractedShapes(d: Dialect, lines: seq<string>)
    ensures forall r :: r in Extracted(d, lines) ==>
              && IsIp(r.ip) && StampShape(d, r.timestamp)
              && Run1(r.verb, Upper) && EndpointShape(r.endpoint)
              && Run1(r.status, Digit) && Run1(r.size, Digit)
              && MessageShape(d, r.message)
  {
    OneRecordPerMatchingLine(d, lines);
    var idx := MatchingLines(d, lines);
    var recs := Extracted(d, lines);
    forall r | r in recs
      ensures && IsIp(r.ip) && StampShape(d, r.timestamp)
              && Run1(r.verb, Upper) && EndpointShape(r.endpoint)
              && Run1(r.status, Digit) && Run1(r.size, Digit)
              && MessageShape(d, r.message)
    {
      var k :| 0 <= k < |recs| && recs[k] == r;
      MatchShape(d, Strip(lines[idx[k]]), r);
    }
  }
}
