/**
 * The three analyses both files run over the parsed records, with the
 * pandas chains replaced by functions on sequences:
 *   - `value_counts()` is Tally (an insertion-ordered count per key) followed
 *     by SortByCount (a stable sort by count, largest first);
 *   - `idxmax()` / `max()` on those counts is the first entry of the sorted table;
 *   - the boolean-mask filters are Failed and Keep.
 * Ties among equal counts come out in first-appearance order.  pandas does
 * not promise an order for ties, so every property below is stated so that
 * it holds whatever order ties are in.
 */
module Analytics {
  import opened Wrappers
  import opened Grammar

  /** One row of a count table: a key (an IP address, an endpoint) and its count. */
  datatype Entry = Entry(key: string, count: nat)

  /**
   * Selecting a column of a DataFrame built from no rows raises `KeyError`:
   * such a frame has no columns at all.
   */
  datatype Failure = MissingColumn(column: string)

  function Ips(records: seq<Record>): seq<string> {
    seq(|records|, i requires 0 <= i < |records| => records[i].ip)
  }

  function Endpoints(records: seq<Record>): seq<string> {
    seq(|records|, i requires 0 <= i < |records| => records[i].endpoint)
  }

  function KeySet(t: seq<Entry>): set<string> {
    set e | e in t :: e.key
  }

  /** The sum of the counts of a table. */
  function Total(t: seq<Entry>): nat {
    if t == [] then 0 else t[0].count + Total(t[1..])
  }

  /** The count a table gives key `x`: that of the first entry for `x`, or 0. */
  function CountOf(t: seq<Entry>, x: string): nat {
    if t == [] then 0
    else if t[0].key == x then t[0].count
    else CountOf(t[1..], x)
  }

  predicate DistinctKeys(t: seq<Entry>) {
    forall i, j :: 0 <= i < j < |t| ==> t[i].key != t[j].key
  }

  predicate NonIncreasing(t: seq<Entry>) {
    forall i, j :: 0 <= i < j < |t| ==> t[i].count >= t[j].count
  }

  /**
   * What `value_counts()` promises about its result for the column `xs`:
   * every distinct value once, with its number of occurrences, the counts
   * adding up to the number of rows, largest count first.
   */
  ghost predicate IsCountTable(t: seq<Entry>, xs: seq<string>) {
    && DistinctKeys(t)
    && (forall e :: e in t ==> e.count == multiset(xs)[e.key])
    && (forall x :: x in xs <==> x in KeySet(t))
    && Total(t) == |xs|
    && NonIncreasing(t)
  }

  // ---------------------------------------------------------------------
  // A table seen as its first entry and the rest

  lemma ConsMembers(a: Entry, s: seq<Entry>)
    ensures ([a] + s)[1..] == s
    ensures forall f :: f in [a] + s <==> f == a || f in s
    ensures KeySet([a] + s) == {a.key} + KeySet(s)
    ensures Total([a] + s) == a.count + Total(s)
  {
    assert ([a] + s)[1..] == s;
  }

  lemma ConsDistinct(a: Entry, s: seq<Entry>)
    ensures DistinctKeys([a] + s) <==> a.key !in KeySet(s) && DistinctKeys(s)
  {
    var u := [a] + s;
    ConsMembers(a, s);
    if DistinctKeys(u) {
      forall f | f in s ensures f.key != a.key {
        var k :| 0 <= k < |s| && s[k] == f;
        assert u[k + 1] == f;
      }
      forall i, j | 0 <= i < j < |s| ensures s[i].key != s[j].key {
        assert u[i + 1] == s[i] && u[j + 1] == s[j];
      }
    }
    if a.key !in KeySet(s) && DistinctKeys(s) {
      forall i, j | 0 <= i < j < |u| ensures u[i].key != u[j].key {
        if i == 0 {
          assert u[j] in s;
        } else {
          assert u[i] == s[i - 1] && u[j] == s[j - 1];
        }
      }
    }
  }

  lemma ConsNonIncreasing(a: Entry, s: seq<Entry>)
    ensures NonIncreasing([a] + s) <==> (forall f :: f in s ==> a.count >= f.count) && NonIncreasing(s)
  {
    var u := [a] + s;
    if NonIncreasing(u) {
      forall f | f in s ensures a.count >= f.count {
        var k :| 0 <= k < |s| && s[k] == f;
        assert u[0] == a && u[k + 1] == f;
      }
      forall i, j | 0 <= i < j < |s| ensures s[i].count >= s[j].count {
        assert u[i + 1] == s[i] && u[j + 1] == s[j];
      }
    }
    if (forall f :: f in s ==> a.count >= f.count) && NonIncreasing(s) {
      forall i, j | 0 <= i < j < |u| ensures u[i].count >= u[j].count {
        if i == 0 {
          assert u[j] in s;
        } else {
          assert u[i] == s[i - 1] && u[j] == s[j - 1];
        }
      }
    }
  }

  // ---------------------------------------------------------------------
  // Counting in first-appearance order

  /** One more occurrence of `x`: its entry goes up by one, or a new entry is added at the end. */
  function Bump(t: seq<Entry>, x: string): seq<Entry> {
    if t == [] then [Entry(x, 1)]
    else if t[0].key == x then [Entry(x, t[0].count + 1)] + t[1..]
    else [t[0]] + Bump(t[1..], x)
  }

  /** The occurrences of each value of `xs`, in the order the values first appear. */
  function Tally(xs: seq<string>): seq<Entry> {
    if xs == [] then [] else Bump(Tally(xs[..|xs| - 1]), xs[|xs| - 1])
  }

  lemma {:induction false} BumpCount(t: seq<Entry>, x: string, y: string)
    ensures CountOf(Bump(t, x), y) == CountOf(t, y) + (if y == x then 1 else 0)
  {
    if t != [] && t[0].key != x {
      BumpCount(t[1..], x, y);
      ConsMembers(t[0], Bump(t[1..], x));
    } else if t != [] {
      ConsMembers(Entry(x, t[0].count + 1), t[1..]);
    }
  }

  lemma {:induction false} BumpKeysTotal(t: seq<Entry>, x: string)
    ensures KeySet(Bump(t, x)) == KeySet(t) + {x}
    ensures Total(Bump(t, x)) == Total(t) + 1
  {
    if t != [] {
      assert t == [t[0]] + t[1..];
      ConsMembers(t[0], t[1..]);
      if t[0].key != x {
        BumpKeysTotal(t[1..], x);
        ConsMembers(t[0], Bump(t[1..], x));
      } else {
        ConsMembers(Entry(x, t[0].count + 1), t[1..]);
      }
    }
  }

  lemma {:induction false} BumpDistinct(t: seq<Entry>, x: string)
    requires DistinctKeys(t)
    ensures DistinctKeys(Bump(t, x))
  {
    if t != [] {
      assert t == [t[0]] + t[1..];
      ConsDistinct(t[0], t[1..]);
      if t[0].key != x {
        BumpDistinct(t[1..], x);
        BumpKeysTotal(t[1..], x);
        ConsDistinct(t[0], Bump(t[1..], x));
      } else {
        ConsDistinct(Entry(x, t[0].count + 1), t[1..]);
      }
    }
  }

  /** Tally counts every value of `xs` once, with its number of occurrences. */
  lemma {:induction false} TallyFacts(xs: seq<string>)
    ensures DistinctKeys(Tally(xs))
    ensures forall y :: CountOf(Tally(xs), y) == multiset(xs)[y]
    ensures forall y :: y in xs <==> y in KeySet(Tally(xs))
    ensures Total(Tally(xs)) == |xs|
  {
    if xs != [] {
      var n := |xs| - 1;
      var t := Tally(xs[..n]);
      TallyFacts(xs[..n]);
      BumpDistinct(t, xs[n]);
      BumpKeysTotal(t, xs[n]);
      forall y ensures CountOf(Bump(t, xs[n]), y) == CountOf(t, y) + (if y == xs[n] then 1 else 0) {
        BumpCount(t, xs[n], y);
      }
      assert xs == xs[..n] + [xs[n]];
      assert multiset(xs) == multiset(xs[..n]) + multiset{xs[n]};
      assert forall y :: y in xs <==> y in xs[..n] || y == xs[n];
    }
  }

  /** In a table without repeated keys, an entry's count is the count the table gives its key. */
  lemma {:induction false} EntryCount(t: seq<Entry>, e: Entry)
    requires DistinctKeys(t) && e in t
    ensures e.count == CountOf(t, e.key)
  {
    assert t == [t[0]] + t[1..];
    ConsMembers(t[0], t[1..]);
    ConsDistinct(t[0], t[1..]);
    if t[0] != e {
      assert e.key in KeySet(t[1..]);
      EntryCount(t[1..], e);
    }
  }

  // ---------------------------------------------------------------------
  // Sorting by count, largest first, equal counts kept in table order

  /** `e` goes before the first entry whose count is not larger than its own. */
  function Insert(e: Entry, s: seq<Entry>): seq<Entry> {
    if s == [] || s[0].count <= e.count then [e] + s
    else [s[0]] + Insert(e, s[1..])
  }

  function SortByCount(t: seq<Entry>): seq<Entry> {
    if t == [] then [] else Insert(t[0], SortByCount(t[1..]))
  }

  lemma {:induction false} InsertPermutes(e: Entry, s: seq<Entry>)
    ensures multiset(Insert(e, s)) == multiset(s) + multiset{e}
  {
    if s != [] && s[0].count > e.count {
      var w := Insert(e, s[1..]);
      InsertPermutes(e, s[1..]);
      assert s == [s[0]] + s[1..];
      assert Insert(e, s) == [s[0]] + w;
      assert multiset(Insert(e, s)) == multiset{s[0]} + multiset(w);
    }
  }

  lemma InsertKeys(e: Entry, s: seq<Entry>)
    ensures KeySet(Insert(e, s)) == KeySet(s) + {e.key}
  {
    InsertPermutes(e, s);
    assert multiset([e] + s) == multiset(s) + multiset{e};
    SameKeys(Insert(e, s), [e] + s);
    ConsMembers(e, s);
  }

  /** Tables holding the same entries have the same keys. */
  lemma SameKeys(a: seq<Entry>, b: seq<Entry>)
    requires multiset(a) == multiset(b)
    ensures KeySet(a) == KeySet(b)
  {
    assert forall f :: f in a <==> f in multiset(a);
    assert forall f :: f in b <==> f in multiset(b);
  }

  lemma {:induction false} InsertTotal(e: Entry, s: seq<Entry>)
    ensures Total(Insert(e, s)) == Total(s) + e.count
  {
    ConsMembers(e, s);
    if s != [] && s[0].count > e.count {
      assert s == [s[0]] + s[1..];
      ConsMembers(s[0], s[1..]);
      InsertTotal(e, s[1..]);
      ConsMembers(s[0], Insert(e, s[1..]));
    }
  }

  lemma {:induction false} InsertSorted(e: Entry, s: seq<Entry>)
    requires NonIncreasing(s)
    ensures NonIncreasing(Insert(e, s))
  {
    ConsNonIncreasing(e, s);
    if s != [] && s[0].count > e.count {
      assert s == [s[0]] + s[1..];
      ConsNonIncreasing(s[0], s[1..]);
      InsertSorted(e, s[1..]);
      InsertPermutes(e, s[1..]);
      var w := Insert(e, s[1..]);
      forall f | f in w ensures s[0].count >= f.count {
        assert f in multiset(w);
      }
      ConsNonIncreasing(s[0], w);
    } else if s != [] {
      assert s == [s[0]] + s[1..];
      ConsNonIncreasing(s[0], s[1..]);
    }
  }

  lemma {:induction false} InsertDistinct(e: Entry, s: seq<Entry>)
    requires DistinctKeys(s) && e.key !in KeySet(s)
    ensures DistinctKeys(Insert(e, s))
  {
    ConsDistinct(e, s);
    if s != [] && s[0].count > e.count {
      assert s == [s[0]] + s[1..];
      ConsMembers(s[0], s[1..]);
      ConsDistinct(s[0], s[1..]);
      InsertDistinct(e, s[1..]);
      InsertKeys(e, s[1..]);
      ConsDistinct(s[0], Insert(e, s[1..]));
    }
  }

  /** Sorting permutes the table, so it keeps its keys and its total. */
  lemma {:induction false} SortPermutes(t: seq<Entry>)
    ensures multiset(SortByCount(t)) == multiset(t)
    ensures KeySet(SortByCount(t)) == KeySet(t)
    ensures Total(SortByCount(t)) == Total(t)
  {
    if t != [] {
      var s := SortByCount(t[1..]);
      SortPermutes(t[1..]);
      assert t == [t[0]] + t[1..];
      ConsMembers(t[0], t[1..]);
      InsertPermutes(t[0], s);
      InsertKeys(t[0], s);
      InsertTotal(t[0], s);
    }
  }

  /** Sorting puts the largest counts first. */
  lemma {:induction false} SortSorted(t: seq<Entry>)
    ensures NonIncreasing(SortByCount(t))
  {
    if t != [] {
      SortSorted(t[1..]);
      InsertSorted(t[0], SortByCount(t[1..]));
    }
  }

  /** Sorting a table without repeated keys gives one without repeated keys. */
  lemma {:induction false} SortDistinct(t: seq<Entry>)
    requires DistinctKeys(t)
    ensures DistinctKeys(SortByCount(t))
  {
    if t != [] {
      var s := SortByCount(t[1..]);
      assert t == [t[0]] + t[1..];
      ConsDistinct(t[0], t[1..]);
      SortDistinct(t[1..]);
      SortPermutes(t[1..]);
      InsertDistinct(t[0], s);
    }
  }

  /** The sorted tally of a column is its `value_counts()` table. */
  lemma CountTableOf(xs: seq<string>)
    ensures IsCountTable(SortByCount(Tally(xs)), xs)
  {
    var t := Tally(xs);
    TallyFacts(xs);
    SortPermutes(t);
    SortSorted(t);
    SortDistinct(t);
    forall e | e in SortByCount(t)
      ensures e.count == multiset(xs)[e.key]
    {
      assert e in multiset(SortByCount(t));
      EntryCount(t, e);
    }
  }

  /** Any two count tables of the same column hold the same entries: they differ at most in the order of ties. */
  lemma TablesAgree(t1: seq<Entry>, t2: seq<Entry>, xs: seq<string>)
    requires IsCountTable(t1, xs) && IsCountTable(t2, xs)
    ensures multiset(t1) == multiset(t2)
  {
    forall e | e in t1 ensures e in t2 {
      assert e.key in KeySet(t2);
      var f :| f in t2 && f.key == e.key;
    }
    forall e | e in t2 ensures e in t1 {
      assert e.key in KeySet(t1);
      var f :| f in t1 && f.key == e.key;
    }
    NoRepeats(t1);
    NoRepeats(t2);
    assert forall e :: multiset(t1)[e] == multiset(t2)[e];
  }

  /** A table without repeated keys holds each entry at most once. */
  lemma {:induction false} NoRepeats(t: seq<Entry>)
    requires DistinctKeys(t)
    ensures forall e :: multiset(t)[e] == if e in t then 1 else 0
  {
    if t != [] {
      assert t == [t[0]] + t[1..];
      ConsMembers(t[0], t[1..]);
      ConsDistinct(t[0], t[1..]);
      NoRepeats(t[1..]);
      assert t[0] !in t[1..];
    }
  }

  // ---------------------------------------------------------------------
  // The three analyses

  /** `df['ip'].value_counts().reset_index()`: requests per IP address, most first. */
  function CountSortReqIp(records: seq<Record>): (r: Result<seq<Entry>, Failure>)
    ensures r.Failure? <==> records == []
    ensures r.Failure? ==> r.error == MissingColumn("ip")
    ensures r.Success? ==> IsCountTable(r.value, Ips(records))
  {
    if records == [] then Failure(MissingColumn("ip"))
    else
      CountTableOf(Ips(records));
      Success(SortByCount(Tally(Ips(records))))
  }

  /**
   * `value_counts()` then `idxmax()` and `max()`: an endpoint that occurs
   * most often, with its number of occurrences.
   */
  function MostFrequentEndpoint(records: seq<Record>): (r: Result<Entry, Failure>)
    ensures r.Failure? <==> records == []
    ensures r.Failure? ==> r.error == MissingColumn("endpoint")
    ensures r.Success? ==>
              && r.value.key in Endpoints(records)
              && r.value.count == multiset(Endpoints(records))[r.value.key]
              && forall x :: multiset(Endpoints(records))[x] <= r.value.count
  {
    if records == [] then Failure(MissingColumn("endpoint"))
    else
      var xs := Endpoints(records);
      var t := SortByCount(Tally(xs));
      CountTableOf(xs);
      TopIsMost(t, xs);
      Success(t[0])
  }

  /** The first entry of a non-empty count table carries the largest count. */
  lemma TopIsMost(t: seq<Entry>, xs: seq<string>)
    requires IsCountTable(t, xs) && xs != []
    ensures t != [] && t[0].key in xs && t[0].count == multiset(xs)[t[0].key]
    ensures forall x :: multiset(xs)[x] <= t[0].count
  {
    assert xs[0] in KeySet(t);
    forall x | x in xs ensures multiset(xs)[x] <= t[0].count {
      var e :| e in t && e.key == x;
      var j :| 0 <= j < |t| && t[j] == e;
    }
  }

  /** `df[df['status'] == '401']`: the records whose status is exactly the text `401`. */
  function Failed(records: seq<Record>): seq<Record> {
    if records == [] then []
    else
      var n := |records| - 1;
      Failed(records[..n]) + (if records[n].status == "401" then [records[n]] else [])
  }

  /** The number of failed logins (status `401`) from `ip`. */
  function FailedCount(records: seq<Record>, ip: string): nat {
    multiset(Ips(Failed(records)))[ip]
  }

  /** `counts[counts > threshold]`: the entries whose count is strictly above the threshold, in order. */
  function Keep(t: seq<Entry>, threshold: nat): seq<Entry> {
    if t == [] then []
    else (if t[0].count > threshold then [t[0]] else []) + Keep(t[1..], threshold)
  }

  lemma {:induction false} KeepMembers(t: seq<Entry>, threshold: nat)
    ensures forall e :: e in Keep(t, threshold) <==> e in t && e.count > threshold
  {
    if t != [] {
      assert t == [t[0]] + t[1..];
      ConsMembers(t[0], t[1..]);
      KeepMembers(t[1..], threshold);
      if t[0].count > threshold {
        ConsMembers(t[0], Keep(t[1..], threshold));
      }
    }
  }

  lemma {:induction false} KeepDistinct(t: seq<Entry>, threshold: nat)
    requires DistinctKeys(t)
    ensures DistinctKeys(Keep(t, threshold))
  {
    if t != [] {
      var k := Keep(t[1..], threshold);
      assert t == [t[0]] + t[1..];
      ConsDistinct(t[0], t[1..]);
      KeepDistinct(t[1..], threshold);
      if t[0].count > threshold {
        KeepMembers(t[1..], threshold);
        assert t[0].key !in KeySet(k);
        ConsDistinct(t[0], k);
      }
    }
  }

  lemma {:induction false} KeepSorted(t: seq<Entry>, threshold: nat)
    requires NonIncreasing(t)
    ensures NonIncreasing(Keep(t, threshold))
  {
    if t != [] {
      var k := Keep(t[1..], threshold);
      assert t == [t[0]] + t[1..];
      ConsNonIncreasing(t[0], t[1..]);
      KeepSorted(t[1..], threshold);
      if t[0].count > threshold {
        KeepMembers(t[1..], threshold);
        ConsNonIncreasing(t[0], k);
      }
    }
  }

  /**
   * What the brute-force report promises: one entry per IP address with more
   * than `threshold` failed logins, carrying that number, largest first.
   */
  ghost predicate IsSuspicionTable(f: seq<Entry>, records: seq<Record>, threshold: nat) {
    && DistinctKeys(f)
    && (forall e :: e in f ==> e.count == FailedCount(records, e.key))
    && (forall ip :: ip in KeySet(f) <==> FailedCount(records, ip) > threshold)
    && NonIncreasing(f)
  }

  /** The failed logins per IP address, most first, and the entries above `threshold`. */
  function Flagged(records: seq<Record>, threshold: nat): seq<Entry> {
    Keep(SortByCount(Tally(Ips(Failed(records)))), threshold)
  }

  lemma FlaggedTable(records: seq<Record>, threshold: nat)
    ensures IsSuspicionTable(Flagged(records, threshold), records, threshold)
  {
    var xs := Ips(Failed(records));
    var t := SortByCount(Tally(xs));
    CountTableOf(xs);
    KeepMembers(t, threshold);
    KeepDistinct(t, threshold);
    KeepSorted(t, threshold);
    var f := Flagged(records, threshold);
    forall ip | FailedCount(records, ip) > threshold
      ensures ip in KeySet(f)
    {
      assert ip in multiset(xs);
      assert ip in KeySet(t);
      var e :| e in t && e.key == ip;
      assert e in f;
    }
  }

  /**
   * `detect_suspicious_activity`: the failed logins (status `401`) per IP
   * address, kept where the count is strictly above the threshold.
   */
  function DetectSuspiciousActivity(records: seq<Record>, threshold: nat): (r: Result<seq<Entry>, Failure>)
    ensures r.Failure? <==> records == []
    ensures r.Failure? ==> r.error == MissingColumn("status")
    ensures r.Success? ==> IsSuspicionTable(r.value, records, threshold)
  {
    if records == [] then Failure(MissingColumn("status"))
    else
      FlaggedTable(records, threshold);
      Success(Flagged(records, threshold))
  }

  /** Raising the threshold never adds an IP address: every entry reported above it is reported below it. */
  lemma ThresholdMonotone(records: seq<Record>, low: nat, high: nat)
    requires low <= high
    ensures forall e :: e in Flagged(records, high) ==> e in Flagged(records, low)
  {
    var t := SortByCount(Tally(Ips(Failed(records))));
    KeepMembers(t, low);
    KeepMembers(t, high);
  }

  /** A record whose status is not exactly `401` (say `0401`) changes no failed-login count. */
  lemma {:induction false} OnlyExact401Counts(records: seq<Record>, r: Record, ip: string)
    requires r.status != "401"
    ensures FailedCount(records + [r], ip) == FailedCount(records, ip)
  {
    assert (records + [r])[..|records|] == records;
    assert Failed(records + [r]) == Failed(records);
  }

  /** A record with status `401` adds one failed login for its IP address and none for any other. */
  lemma {:induction false} Exact401Counts(records: seq<Record>, r: Record)
    requires r.status == "401"
    ensures FailedCount(records + [r], r.ip) == FailedCount(records, r.ip) + 1
    ensures forall ip :: FailedCount(records + [r], ip) == FailedCount(records, ip) + (if ip == r.ip then 1 else 0)
  {
    assert (records + [r])[..|records|] == records;
    var f := Failed(records);
    assert Ips(f + [r]) == Ips(f) + [r.ip];
  }

  /** `n` copies of one failed login give its IP address `n` failed logins. */
  lemma {:induction false} RepeatedFailures(r: Record, n: nat)
    requires r.status == "401"
    ensures FailedCount(seq(n, _ => r), r.ip) == n
  {
    if n > 0 {
      var rs := seq(n - 1, _ => r);
      assert seq(n, _ => r) == rs + [r];
      RepeatedFailures(r, n - 1);
      Exact401Counts(rs, r);
    }
  }
}
