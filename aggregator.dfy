/**
 * The loop of `ProcessHosts` that drains the host results: a result that
 * carries a connection error adds nothing to the report (it may only be
 * logged), every other result adds one line per finding.
 */
module Aggregator {
  import opened Evaluator
  import opened Prober

  /** The report line of one finding of `host`, given the finding's text. */
  function Line(host: string, msg: string): string {
    host + ": " + msg + "\n"
  }

  function FindingLines(host: string, errs: seq<string>): seq<string> {
    if errs == [] then []
    else FindingLines(host, errs[..|errs| - 1]) + [Line(host, errs[|errs| - 1])]
  }

  function GroupLines(host: string, groups: seq<CertErrors>): seq<string> {
    if groups == [] then []
    else GroupLines(host, groups[..|groups| - 1]) + FindingLines(host, groups[|groups| - 1].errs)
  }

  /** The lines one result adds: none for a connection error. */
  function HostLines(r: HostResult): seq<string> {
    if r.err.Some? then [] else GroupLines(r.host, r.certs)
  }

  /**
   * The report lines of `results`, in the order the results arrived: one per
   * finding of the results without a connection error.
   */
  function ReportLines(results: seq<HostResult>): (lines: seq<string>)
    ensures |lines| == TotalFindings(results)
  {
    if results == [] then []
    else
      var r := results[|results| - 1];
      GroupLinesShape(r.host, r.certs);
      ReportLines(results[..|results| - 1]) + HostLines(r)
  }

  function Join(lines: seq<string>): string {
    if lines == [] then "" else Join(lines[..|lines| - 1]) + lines[|lines| - 1]
  }

  /** The report `ProcessHosts` returns for results arriving in this order. */
  function Report(results: seq<HostResult>): string {
    Join(ReportLines(results))
  }

  /** The number of findings in some finding groups. */
  function FindingCount(groups: seq<CertErrors>): nat {
    if groups == [] then 0 else FindingCount(groups[..|groups| - 1]) + |groups[|groups| - 1].errs|
  }

  /** The number of findings over the results that carry no connection error. */
  function TotalFindings(results: seq<HostResult>): nat {
    if results == [] then 0
    else
      var r := results[|results| - 1];
      TotalFindings(results[..|results| - 1]) + (if r.err.Some? then 0 else FindingCount(r.certs))
  }

  const Needle: string := "certifi"

  function LowerAscii(c: char): char {
    if 'A' <= c <= 'Z' then (c as int - 'A' as int + 'a' as int) as char else c
  }

  function FoldCase(s: string): (t: string)
    ensures |t| == |s|
  {
    seq(|s|, k requires 0 <= k < |s| => LowerAscii(s[k]))
  }

  predicate MatchesAt(text: string, i: int) {
    0 <= i <= |text| - |Needle| && FoldCase(text[i..i + |Needle|]) == Needle
  }

  /** The error text matches `(?i)Certifi`: it contains "certifi" in any letter case. */
  predicate MentionsCertificate(text: string) {
    exists i | 0 <= i <= |text| - |Needle| :: MatchesAt(text, i)
  }

  /** A result is logged when it carries a connection error that mentions a certificate. */
  predicate IsLogged(r: HostResult) {
    r.err.Some? && MentionsCertificate(r.err.value)
  }

  /** What `log.Printf` writes for one result: nothing unless it is logged. */
  function LogLine(r: HostResult): seq<string> {
    if IsLogged(r) then [r.host + ": " + r.err.value + "\n"] else []
  }

  /** The diagnostic lines logged for the results that carry a certificate-related error. */
  function LogLines(results: seq<HostResult>): (ls: seq<string>)
    ensures |ls| <= |results|
  {
    if results == [] then []
    else LogLines(results[..|results| - 1]) + LogLine(results[|results| - 1])
  }

  /**
   * The loop over the results channel, given the results in arrival order;
   * `logged` is what `log.Printf` writes.
   */
  method Aggregate(results: seq<HostResult>) returns (errMessage: string, logged: seq<string>)
    ensures errMessage == Report(results)
    ensures logged == LogLines(results)
  {
    errMessage, logged := "", [];
    ghost var lines: seq<string> := [];
    var i := 0;
    while i < |results|
      invariant 0 <= i <= |results|
      invariant lines == ReportLines(results[..i]) && errMessage == Join(lines)
      invariant logged == LogLines(results[..i])
    {
      var r := results[i];
      ResultStep(results, i);
      if r.err.Some? {
        if MentionsCertificate(r.err.value) {
          logged := logged + [r.host + ": " + r.err.value + "\n"];
        }
        i := i + 1;
        continue;
      }
      errMessage := AppendGroups(r.host, r.certs, errMessage);
      JoinAppend(lines, GroupLines(r.host, r.certs));
      lines := lines + GroupLines(r.host, r.certs);
      i := i + 1;
    }
    assert results[..i] == results;
  }

  /** The two inner loops of the fold: every finding of every group of one result appends its line. */
  method AppendGroups(host: string, certs: seq<CertErrors>, errMessage: string)
    returns (errMessage': string)
    ensures errMessage' == errMessage + Join(GroupLines(host, certs))
  {
    errMessage' := errMessage;
    ghost var lines: seq<string> := [];
    var j := 0;
    while j < |certs|
      invariant 0 <= j <= |certs|
      invariant lines == GroupLines(host, certs[..j]) && errMessage' == errMessage + Join(lines)
    {
      var cert := certs[j];
      ghost var groupStart := lines;
      var k := 0;
      while k < |cert.errs|
        invariant 0 <= k <= |cert.errs|
        invariant lines == groupStart + FindingLines(host, cert.errs[..k])
        invariant errMessage' == errMessage + Join(lines)
      {
        FindingStep(host, cert.errs, k, groupStart);
        JoinSnoc(lines, Line(host, cert.errs[k]));
        errMessage' := errMessage' + Line(host, cert.errs[k]);
        lines := lines + [Line(host, cert.errs[k])];
        k := k + 1;
      }
      GroupStep(host, certs, j, []);
      assert [] + GroupLines(host, certs[..j]) == GroupLines(host, certs[..j]);
      j := j + 1;
    }
    assert certs[..j] == certs;
  }

  lemma ResultStep(results: seq<HostResult>, i: nat)
    requires i < |results|
    ensures ReportLines(results[..i + 1]) == ReportLines(results[..i]) + HostLines(results[i])
    ensures LogLines(results[..i + 1]) == LogLines(results[..i]) + LogLine(results[i])
  {
    assert results[..i + 1][..i] == results[..i];
  }

  lemma GroupStep(host: string, groups: seq<CertErrors>, j: nat, before: seq<string>)
    requires j < |groups|
    ensures (before + GroupLines(host, groups[..j])) + FindingLines(host, groups[j].errs[..|groups[j].errs|]) ==
              before + GroupLines(host, groups[..j + 1])
  {
    assert groups[..j + 1][..j] == groups[..j];
    assert groups[j].errs[..|groups[j].errs|] == groups[j].errs;
  }

  lemma FindingStep(host: string, errs: seq<string>, k: nat, groupStart: seq<string>)
    requires k < |errs|
    ensures (groupStart + FindingLines(host, errs[..k])) + [Line(host, errs[k])] ==
              groupStart + FindingLines(host, errs[..k + 1])
  {
    assert errs[..k + 1][..k] == errs[..k];
  }

  lemma JoinSnoc(lines: seq<string>, line: string)
    ensures Join(lines + [line]) == Join(lines) + line
  {
    assert (lines + [line])[..|lines|] == lines;
  }

  lemma {:induction false} JoinAppend(xs: seq<string>, ys: seq<string>)
    ensures Join(xs + ys) == Join(xs) + Join(ys)
    decreases |ys|
  {
    if ys == [] {
      assert xs + ys == xs;
    } else {
      var ys' := ys[..|ys| - 1];
      assert (xs + ys)[..|xs + ys| - 1] == xs + ys';
      JoinAppend(xs, ys');
    }
  }

  lemma {:induction false} ReportLinesAppend(a: seq<HostResult>, b: seq<HostResult>)
    ensures ReportLines(a + b) == ReportLines(a) + ReportLines(b)
    decreases |b|
  {
    if b == [] {
      assert a + b == a;
    } else {
      var b', y := b[..|b| - 1], b[|b| - 1];
      assert (a + b)[..|a + b| - 1] == a + b';
      assert (a + b)[|a + b| - 1] == y;
      ReportLinesAppend(a, b');
      calc {
        ReportLines(a + b);
        ReportLines(a + b') + HostLines(y);
        ReportLines(a) + ReportLines(b') + HostLines(y);
        ReportLines(a) + (ReportLines(b') + HostLines(y));
      }
    }
  }

  /**
   * The report of results arriving as `a` then `b` is the report of `a`
   * followed by the report of `b`: results are reported in arrival order.
   */
  lemma ReportAppend(a: seq<HostResult>, b: seq<HostResult>)
    ensures Report(a + b) == Report(a) + Report(b)
  {
    ReportLinesAppend(a, b);
    JoinAppend(ReportLines(a), ReportLines(b));
  }

  /**
   * A result that carries a connection error adds nothing to the report,
   * wherever it arrives and whether or not it is logged.
   */
  lemma ErroredResultAddsNothing(a: seq<HostResult>, r: HostResult, b: seq<HostResult>)
    requires r.err.Some?
    ensures Report(a + [r] + b) == Report(a + b)
  {
    ReportLinesAppend(a + [r], b);
    ReportLinesAppend(a, b);
    assert (a + [r])[..|a + [r]| - 1] == a && (a + [r])[|a + [r]| - 1] == r;
    assert ReportLines(a + [r]) == ReportLines(a) + HostLines(r) == ReportLines(a);
  }

  lemma {:induction false} FindingLinesShape(host: string, errs: seq<string>)
    ensures |FindingLines(host, errs)| == |errs|
    ensures forall k :: 0 <= k < |errs| ==> FindingLines(host, errs)[k] == Line(host, errs[k])
  {
    if errs != [] {
      var errs', f := errs[..|errs| - 1], errs[|errs| - 1];
      FindingLinesShape(host, errs');
      var prior := FindingLines(host, errs');
      var line := Line(host, f);
      assert FindingLines(host, errs) == prior + [line];
      forall k | 0 <= k < |errs| ensures (prior + [line])[k] == Line(host, errs[k]) {
        if k < |errs'| {
          assert errs[k] == errs'[k];
        }
      }
    }
  }

  /** The lines a result adds come from its findings, group by group, in the order they were found. */
  predicate LineOf(r: HostResult, line: string) {
    exists g, f | g in r.certs && f in g.errs :: line == Line(r.host, f)
  }

  lemma {:induction false} GroupLinesShape(host: string, groups: seq<CertErrors>)
    ensures |GroupLines(host, groups)| == FindingCount(groups)
    ensures forall line :: line in GroupLines(host, groups) ==>
              exists g, f | g in groups && f in g.errs :: line == Line(host, f)
  {
    if groups != [] {
      var groups' := groups[..|groups| - 1];
      var g := groups[|groups| - 1];
      GroupLinesShape(host, groups');
      FindingLinesShape(host, g.errs);
      forall line | line in GroupLines(host, groups)
        ensures exists g, f | g in groups && f in g.errs :: line == Line(host, f)
      {
        if line in GroupLines(host, groups') {
          var g0, f0 :| g0 in groups' && f0 in g0.errs && line == Line(host, f0);
          assert g0 in groups;
        } else {
          var k :| 0 <= k < |g.errs| && FindingLines(host, g.errs)[k] == line;
          assert g.errs[k] in g.errs;
        }
      }
    }
  }

  /**
   * The report has exactly one line per finding of the results without a
   * connection error, and every line is `host + ": " + message + "\n"` for a
   * finding of a group of such a result.
   */
  lemma {:induction false} ReportLinesShape(results: seq<HostResult>)
    ensures |ReportLines(results)| == TotalFindings(results)
    ensures forall line :: line in ReportLines(results) ==>
              exists r | r in results && r.err.None? :: LineOf(r, line)
  {
    if results != [] {
      var results' := results[..|results| - 1];
      var r := results[|results| - 1];
      ReportLinesShape(results');
      GroupLinesShape(r.host, r.certs);
      forall line | line in ReportLines(results)
        ensures exists r | r in results && r.err.None? :: LineOf(r, line)
      {
        if line in ReportLines(results') {
          var r0 :| r0 in results' && r0.err.None? && LineOf(r0, line);
          assert r0 in results;
        } else {
          assert r in results;
        }
      }
    }
  }

  /** Every report line was added by one of the results. */
  lemma {:induction false} ReportLineFromResult(results: seq<HostResult>, line: string) returns (j: nat)
    requires line in ReportLines(results)
    ensures j < |results| && line in HostLines(results[j])
  {
    var prior := results[..|results| - 1];
    if line in ReportLines(prior) {
      j := ReportLineFromResult(prior, line);
    } else {
      j := |results| - 1;
    }
  }

  /** The report is empty exactly when the results without a connection error hold no finding. */
  lemma ReportEmptyIffNoFindings(results: seq<HostResult>)
    ensures Report(results) == "" <==> TotalFindings(results) == 0
  {
    var lines := ReportLines(results);
    ReportLinesShape(results);
    if lines != [] {
      var last := lines[|lines| - 1];
      assert last in lines;
      var r :| r in results && r.err.None? && LineOf(r, last);
      assert |last| > 0;
    }
  }

  lemma SplitAt<T>(s: seq<T>, i: nat)
    requires i < |s|
    ensures s == s[..i] + [s[i]] + s[i + 1..]
  {
  }

  lemma MultisetWithout(b: seq<HostResult>, i: nat)
    requires i < |b|
    ensures multiset(b[..i] + b[i + 1..]) == multiset(b) - multiset{b[i]}
  {
    SplitAt(b, i);
  }

  /** The lines of a result stand between those of the results before and after it. */
  lemma ReportLinesAround(b1: seq<HostResult>, x: HostResult, b2: seq<HostResult>)
    ensures ReportLines(b1 + [x] + b2) == ReportLines(b1) + HostLines(x) + ReportLines(b2)
  {
    assert (b1 + [x])[..|b1|] == b1;
    ReportLinesAppend(b1 + [x], b2);
  }

  /** Adding the same result to two permutations keeps their lines a permutation. */
  lemma InsertResult(a: seq<HostResult>, x: HostResult, b1: seq<HostResult>, b2: seq<HostResult>)
    requires multiset(ReportLines(a)) == multiset(ReportLines(b1 + b2))
    ensures multiset(ReportLines(a + [x])) == multiset(ReportLines(b1 + [x] + b2))
  {
    ReportLinesAround(a, x, []);
    assert a + [x] + [] == a + [x];
    ReportLinesAround(b1, x, b2);
    ReportLinesAppend(b1, b2);
    var la, l1, l2, lx := ReportLines(a), ReportLines(b1), ReportLines(b2), HostLines(x);
    calc {
      multiset(ReportLines(a + [x]));
      multiset(la + lx + []);
      multiset(la) + multiset(lx);
      multiset(l1 + l2) + multiset(lx);
      multiset(l1 + lx + l2);
    }
  }

  /**
   * The arrival order of the results changes only the order of the report's
   * lines: results that are a permutation of each other give the same lines,
   * each as often.
   */
  lemma {:induction false} ReportLinesPermutation(a: seq<HostResult>, b: seq<HostResult>)
    requires multiset(a) == multiset(b)
    ensures multiset(ReportLines(a)) == multiset(ReportLines(b))
    decreases |a|
  {
    if a == [] {
      assert |b| == |multiset(b)| == 0;
    } else {
      var a', x := a[..|a| - 1], a[|a| - 1];
      assert a == a' + [x];
      assert multiset(a') == multiset(a) - multiset{x};
      assert x in multiset(b);
      var i :| 0 <= i < |b| && b[i] == x;
      MultisetWithout(b, i);
      ReportLinesPermutation(a', b[..i] + b[i + 1..]);
      SplitAt(b, i);
      InsertResult(a', x, b[..i], b[i + 1..]);
    }
  }

  /** So the number of findings reported does not depend on the arrival order either. */
  lemma TotalFindingsPermutation(a: seq<HostResult>, b: seq<HostResult>)
    requires multiset(a) == multiset(b)
    ensures TotalFindings(a) == TotalFindings(b)
  {
    ReportLinesPermutation(a, b);
    ReportLinesShape(a);
    ReportLinesShape(b);
    assert |ReportLines(a)| == |multiset(ReportLines(a))| == |multiset(ReportLines(b))| == |ReportLines(b)|;
  }

  /** The positions of the results that are logged. */
  function LoggedIndices(results: seq<HostResult>): set<int> {
    set i | 0 <= i < |results| && IsLogged(results[i])
  }

  lemma LoggedIndicesSnoc(results: seq<HostResult>)
    requires results != []
    ensures var n := |results| - 1;
      LoggedIndices(results) == LoggedIndices(results[..n]) + (if IsLogged(results[n]) then {n} else {})
  {
    var n := |results| - 1;
    var last: set<int> := if IsLogged(results[n]) then {n} else {};
    forall i
      ensures i in LoggedIndices(results) <==> i in LoggedIndices(results[..n]) + last
    {
      if 0 <= i < n {
        assert results[..n][i] == results[i];
      }
    }
  }

  /** One diagnostic line is logged for each result whose error mentions a certificate. */
  lemma {:induction false} LogLinesCount(results: seq<HostResult>)
    ensures |LogLines(results)| == |LoggedIndices(results)|
  {
    if results != [] {
      var n := |results| - 1;
      LogLinesCount(results[..n]);
      LoggedIndicesSnoc(results);
      assert n !in LoggedIndices(results[..n]);
    }
  }

  /** The log lines of two runs of results follow each other. */
  lemma {:induction false} LogLinesAppend(a: seq<HostResult>, b: seq<HostResult>)
    ensures LogLines(a + b) == LogLines(a) + LogLines(b)
    decreases |b|
  {
    if b == [] {
      assert a + b == a;
    } else {
      var b', y := b[..|b| - 1], b[|b| - 1];
      assert (a + b)[..|a + b| - 1] == a + b';
      assert (a + b)[|a + b| - 1] == y;
      LogLinesAppend(a, b');
    }
  }

  /** Adding the same result to two permutations keeps their log lines a permutation. */
  lemma InsertLogged(a: seq<HostResult>, x: HostResult, b1: seq<HostResult>, b2: seq<HostResult>)
    requires multiset(LogLines(a)) == multiset(LogLines(b1 + b2))
    ensures multiset(LogLines(a + [x])) == multiset(LogLines(b1 + [x] + b2))
  {
    assert (a + [x])[..|a|] == a;
    assert (b1 + [x])[..|b1|] == b1;
    LogLinesAppend(b1 + [x], b2);
    LogLinesAppend(b1, b2);
    var la, l1, l2, lx := LogLines(a), LogLines(b1), LogLines(b2), LogLine(x);
    calc {
      multiset(LogLines(a + [x]));
      multiset(la + lx);
      multiset(la) + multiset(lx);
      multiset(l1 + l2) + multiset(lx);
      multiset(l1 + lx + l2);
    }
  }

  /**
   * The arrival order of the results changes only the order of the log:
   * results that are a permutation of each other log the same lines, each as
   * often.
   */
  lemma {:induction false} LogLinesPermutation(a: seq<HostResult>, b: seq<HostResult>)
    requires multiset(a) == multiset(b)
    ensures multiset(LogLines(a)) == multiset(LogLines(b))
    decreases |a|
  {
    if a == [] {
      assert |b| == |multiset(b)| == 0;
    } else {
      var a', x := a[..|a| - 1], a[|a| - 1];
      assert a == a' + [x];
      assert multiset(a') == multiset(a) - multiset{x};
      assert x in multiset(b);
      var i :| 0 <= i < |b| && b[i] == x;
      MultisetWithout(b, i);
      LogLinesPermutation(a', b[..i] + b[i + 1..]);
      SplitAt(b, i);
      InsertLogged(a', x, b[..i], b[i + 1..]);
    }
  }

  /** A handshake error naming the certificate in any letter case is logged; a bare EOF is not. */
  lemma LoggedErrors()
    ensures MentionsCertificate("x509: Certificate signed by unknown authority")
    ensures !MentionsCertificate("EOF")
  {
    var text := "x509: Certificate signed by unknown authority";
    assert FoldCase(text[6..13]) == Needle by {
      forall k | 0 <= k < 7
        ensures FoldCase(text[6..13])[k] == Needle[k]
      {
        assert text[6..13][k] == text[6 + k];
      }
    }
    assert MatchesAt(text, 6);
  }
}
