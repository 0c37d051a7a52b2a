/**
 * `SSLChecker`: the endpoint records, the queue of endpoints it forwards to
 * the workers, and `ProcessHosts`, which probes every queued endpoint and
 * folds the results, in the order the workers deliver them, into the report.
 */
module Checker {
  import opened Sunset
  import opened Evaluator
  import opened Prober
  import opened Aggregator

  /** A record is forwarded to the workers unless it is empty or starts with '#'. */
  predicate Forwarded(record: string) {
    |record| > 0 && record[0] != '#'
  }

  /** The endpoints `queueHosts` sends, in record order. */
  function Queued(records: seq<string>): (q: seq<string>)
    ensures |q| <= |records|
    ensures forall k :: 0 <= k < |q| ==> Forwarded(q[k])
  {
    if records == [] then []
    else
      var last := records[|records| - 1];
      Queued(records[..|records| - 1]) + (if Forwarded(last) then [last] else [])
  }

  /**
   * What probing one endpoint observes: the outcome of its TLS handshake and
   * the instant `checkHost` read from the clock.
   */
  datatype Probe = Probe(handshake: Handshake, now: int)

  /** The result `checkHost` gives for every queued endpoint, in queue order. */
  function Results(hosts: seq<string>, probes: seq<Probe>, processStart: int): (rs: seq<HostResult>)
    requires |probes| == |hosts|
    ensures |rs| == |hosts|
    ensures forall k :: 0 <= k < |hosts| ==>
              rs[k] == ProbeResult(hosts[k], probes[k].handshake, probes[k].now, processStart)
  {
    seq(|hosts|, k requires 0 <= k < |hosts| =>
      ProbeResult(hosts[k], probes[k].handshake, probes[k].now, processStart))
  }

  function Range(n: nat): (r: seq<nat>)
    ensures |r| == n && forall k :: 0 <= k < n ==> r[k] == k
  {
    seq(n, k requires 0 <= k < n => k)
  }

  /**
   * An order in which the `n` results of the worker pool can reach the
   * collecting loop: every queued position exactly once.
   */
  predicate IsArrivalOrder(arrival: seq<nat>, n: nat) {
    multiset(arrival) == multiset(Range(n))
  }

  predicate InRange(order: seq<nat>, n: nat) {
    forall j :: 0 <= j < |order| ==> order[j] < n
  }

  /** The elements of `xs` at the positions `order` lists, in that order. */
  function Pick<T>(xs: seq<T>, order: seq<nat>): (ys: seq<T>)
    requires InRange(order, |xs|)
    ensures |ys| == |order|
    ensures forall j :: 0 <= j < |order| ==> ys[j] == xs[order[j]]
  {
    seq(|order|, j requires 0 <= j < |order| => xs[order[j]])
  }

  function Hosts(rs: seq<HostResult>): (hs: seq<string>)
    ensures |hs| == |rs| && forall k :: 0 <= k < |rs| ==> hs[k] == rs[k].host
  {
    seq(|rs|, k requires 0 <= k < |rs| => rs[k].host)
  }

  class SSLChecker {
    /** The endpoint records (`Records`), in the order they were added. */
    var records: seq<string>
    /** The endpoints `queueHosts` last handed to the workers. */
    var hosts: seq<string>

    constructor (records: seq<string>)
      ensures this.records == records && hosts == []
    {
      this.records := records;
      hosts := [];
    }

    /** `AppendHosts`: the new records go after the existing ones. */
    method AppendHosts(more: seq<string>)
      modifies this`records
      ensures records == old(records) + more
      ensures hosts == old(hosts)
    {
      records := records + more;
    }

    /** `queueHosts`: skip the empty and commented-out records, queue the rest in order. */
    method QueueHosts()
      modifies this`hosts
      ensures hosts == Queued(records)
      ensures records == old(records)
    {
      var queue: seq<string> := [];
      var i := 0;
      while i < |records|
        invariant 0 <= i <= |records|
        invariant queue == Queued(records[..i])
      {
        var host := records[i];
        QueuedStep(records, i);
        if |host| == 0 || host[0] == '#' {
          i := i + 1;
          continue;
        }
        queue := queue + [host];
        i := i + 1;
      }
      assert records[..i] == records;
      hosts := queue;
    }

    /**
     * `ProcessHosts`: queue the endpoints, probe each one (`probes[k]` is what
     * probing the `k`-th queued endpoint observes), and fold the results in
     * the order `arrival` says the workers deliver them.
     */
    method ProcessHosts(probes: seq<Probe>, arrival: seq<nat>, processStart: int)
      returns (errMessage: string, logged: seq<string>)
      requires |probes| == |Queued(records)|
      requires IsArrivalOrder(arrival, |probes|)
      modifies this`hosts
      ensures hosts == Queued(records) && records == old(records)
      ensures InRange(arrival, |probes|)
      ensures errMessage == Report(Pick(Results(hosts, probes, processStart), arrival))
      ensures logged == LogLines(Pick(Results(hosts, probes, processStart), arrival))
    {
      QueueHosts();
      ArrivalInRange(arrival, |probes|);
      ghost var all := Results(hosts, probes, processStart);
      var results: seq<HostResult> := [];
      var j := 0;
      while j < |arrival|
        invariant 0 <= j <= |arrival|
        invariant hosts == Queued(records) && |hosts| == |probes|
        invariant results == Pick(all, arrival[..j])
      {
        var k := arrival[j];
        var r := CheckHost(hosts[k], probes[k].handshake, probes[k].now, processStart);
        results := results + [r];
        j := j + 1;
      }
      assert arrival[..j] == arrival;
      errMessage, logged := Aggregate(results);
    }
  }

  lemma QueuedStep(records: seq<string>, i: nat)
    requires i < |records|
    ensures Queued(records[..i + 1]) ==
              Queued(records[..i]) + (if Forwarded(records[i]) then [records[i]] else [])
  {
    assert records[..i + 1][..i] == records[..i];
  }

  /** Exactly the forwarded records are queued. */
  lemma {:induction false} QueuedMembers(records: seq<string>)
    ensures forall h :: h in Queued(records) <==> h in records && Forwarded(h)
  {
    if records != [] {
      var prior := records[..|records| - 1];
      QueuedMembers(prior);
      assert records == prior + [records[|records| - 1]];
    }
  }

  /** Queueing records added later queues them after the earlier ones. */
  lemma {:induction false} QueuedAppend(a: seq<string>, b: seq<string>)
    ensures Queued(a + b) == Queued(a) + Queued(b)
    decreases |b|
  {
    if b == [] {
      assert a + b == a;
    } else {
      var b', y := b[..|b| - 1], b[|b| - 1];
      assert (a + b)[..|a + b| - 1] == a + b';
      assert (a + b)[|a + b| - 1] == y;
      QueuedAppend(a, b');
    }
  }

  /**
   * The queue is the subsequence of the forwarded records: it picks records at
   * strictly increasing positions, and every forwarded position is picked.
   */
  lemma {:induction false} QueuedKeepsOrder(records: seq<string>) returns (idx: seq<nat>)
    ensures |idx| == |Queued(records)|
    ensures forall k :: 0 <= k < |idx| ==> idx[k] < |records| && Queued(records)[k] == records[idx[k]]
    ensures forall k, l :: 0 <= k < l < |idx| ==> idx[k] < idx[l]
    ensures forall i :: 0 <= i < |records| && Forwarded(records[i]) ==> i in idx
  {
    if records == [] {
      idx := [];
    } else {
      var n := |records| - 1;
      var prior := records[..n];
      var idx' := QueuedKeepsOrder(prior);
      QueuedStep(records, n);
      assert records[..n + 1] == records;
      if Forwarded(records[n]) {
        idx := idx' + [n];
      } else {
        idx := idx';
      }
    }
  }

  /** A record of blanks is forwarded; only the empty and the '#' records are skipped. */
  lemma BlankRecordIsQueued()
    ensures Queued(["example.com:443", "", "#old.example.com:443", " "]) == ["example.com:443", " "]
  {
    var rs := ["example.com:443", "", "#old.example.com:443", " "];
    QueuedStep(rs, 0);
    QueuedStep(rs, 1);
    QueuedStep(rs, 2);
    QueuedStep(rs, 3);
    assert rs[..0] == [] && rs[..4] == rs;
  }

  /** Every position of an arrival order is a queued position. */
  lemma ArrivalInRange(arrival: seq<nat>, n: nat)
    requires IsArrivalOrder(arrival, n)
    ensures InRange(arrival, n)
  {
    forall j | 0 <= j < |arrival| ensures arrival[j] < n {
      assert arrival[j] in multiset(Range(n));
    }
  }

  /** Splitting an order at position `i` splits what it picks. */
  lemma PickSplit<T>(xs: seq<T>, order: seq<nat>, i: nat)
    requires InRange(order, |xs|) && i < |order|
    ensures InRange(order[..i], |xs|) && InRange(order[i + 1..], |xs|)
    ensures InRange(order[..i] + order[i + 1..], |xs|)
    ensures Pick(xs, order) == Pick(xs, order[..i]) + [xs[order[i]]] + Pick(xs, order[i + 1..])
    ensures Pick(xs, order[..i] + order[i + 1..]) == Pick(xs, order[..i]) + Pick(xs, order[i + 1..])
  {
  }

  lemma MultisetWithoutIndex(order: seq<nat>, i: nat)
    requires i < |order|
    ensures multiset(order[..i] + order[i + 1..]) == multiset(order) - multiset{order[i]}
  {
    assert order == order[..i] + [order[i]] + order[i + 1..];
  }

  /** Two orders listing the same positions pick the same elements, each as often. */
  lemma {:induction false} PickPermutation<T>(xs: seq<T>, a: seq<nat>, b: seq<nat>)
    requires InRange(a, |xs|) && InRange(b, |xs|)
    requires multiset(a) == multiset(b)
    ensures multiset(Pick(xs, a)) == multiset(Pick(xs, b))
    decreases |a|
  {
    if a == [] {
      assert |b| == |multiset(b)| == 0;
    } else {
      var n := |a| - 1;
      var x := a[n];
      assert a == a[..n] + [x];
      assert x in multiset(b);
      var i :| 0 <= i < |b| && b[i] == x;
      MultisetWithoutIndex(a, n);
      MultisetWithoutIndex(b, i);
      assert a[..n] + a[n + 1..] == a[..n];
      PickSplit(xs, a, n);
      PickSplit(xs, b, i);
      PickPermutation(xs, a[..n], b[..i] + b[i + 1..]);
      var p1, p2 := Pick(xs, b[..i]), Pick(xs, b[i + 1..]);
      calc {
        multiset(Pick(xs, a));
        multiset(Pick(xs, a[..n]) + [xs[x]]);
        multiset(Pick(xs, a[..n])) + multiset{xs[x]};
        multiset(p1 + p2) + multiset{xs[x]};
        multiset(p1 + [xs[x]] + p2);
      }
    }
  }

  /** An arrival order delivers every result exactly once. */
  lemma ArrivalPermutes<T>(xs: seq<T>, arrival: seq<nat>)
    requires IsArrivalOrder(arrival, |xs|)
    ensures InRange(arrival, |xs|)
    ensures multiset(Pick(xs, arrival)) == multiset(xs)
  {
    ArrivalInRange(arrival, |xs|);
    var r := Range(|xs|);
    PickPermutation(xs, arrival, r);
    assert Pick(xs, r) == xs;
  }

  /**
   * Every queued endpoint is probed and reported on exactly once, whatever
   * order the workers finish in: the hosts of the collected results are the
   * queued endpoints, each as often as it was queued.
   */
  lemma EveryQueuedHostProbedOnce(records: seq<string>, probes: seq<Probe>, arrival: seq<nat>,
                                  processStart: int)
    requires |probes| == |Queued(records)|
    requires IsArrivalOrder(arrival, |probes|)
    ensures InRange(arrival, |probes|)
    ensures multiset(Hosts(Pick(Results(Queued(records), probes, processStart), arrival))) ==
              multiset(Queued(records))
  {
    var hosts := Queued(records);
    var all := Results(hosts, probes, processStart);
    ArrivalPermutes(hosts, arrival);
    assert Hosts(Pick(all, arrival)) == Pick(hosts, arrival);
  }

  /**
   * The worker pool decides only the order of the report's lines: any two
   * arrival orders give the same lines, each as often, and so the same number
   * of findings.
   */
  lemma ReportIndependentOfArrival(results: seq<HostResult>, a: seq<nat>, b: seq<nat>)
    requires IsArrivalOrder(a, |results|) && IsArrivalOrder(b, |results|)
    ensures InRange(a, |results|) && InRange(b, |results|)
    ensures multiset(ReportLines(Pick(results, a))) == multiset(ReportLines(Pick(results, b)))
    ensures TotalFindings(Pick(results, a)) == TotalFindings(Pick(results, b))
  {
    ArrivalPermutes(results, a);
    ArrivalPermutes(results, b);
    ReportLinesPermutation(Pick(results, a), Pick(results, b));
    TotalFindingsPermutation(Pick(results, a), Pick(results, b));
  }

  predicate StartsWith(s: string, prefix: string) {
    |prefix| <= |s| && s[..|prefix|] == prefix
  }

  /** Every message in the group of a certificate probed on `host` starts with that host. */
  lemma GroupMessagesNameHost(host: string, v: Visit, now: int,
                              table: map<SignatureAlgorithm, SigAlgSunset>)
    ensures forall m :: m in Evaluate(host, v.cert, v.certNum, v.chainLen, now, table).errs ==>
              StartsWith(m, host + ": ")
  {
    var fs := Findings(host, v.cert, v.certNum, v.chainLen, now, table);
    FindingsShape(host, v.cert, v.certNum, v.chainLen, now, table);
    forall m | m in Evaluate(host, v.cert, v.certNum, v.chainLen, now, table).errs
      ensures StartsWith(m, host + ": ")
    {
      var k :| 0 <= k < |fs| && m == Message(fs[k]);
    }
  }

  /** A line of `host` whose message starts with `host` starts with the host twice. */
  lemma LineRepeatsHost(host: string, m: string)
    requires StartsWith(m, host + ": ")
    ensures StartsWith(Line(host, m), host + ": " + host + ": ")
  {
    var line := Line(host, m);
    var p := |host| + 2;
    assert line == (host + ": ") + m + "\n";
    assert line[..p] == host + ": ";
    assert line[p..p + p] == m[..p];
    assert line[..p + p] == line[..p] + line[p..p + p];
  }

  lemma GroupLinesRepeatHost(host: string, groups: seq<CertErrors>)
    requires forall k, m :: 0 <= k < |groups| && m in groups[k].errs ==> StartsWith(m, host + ": ")
    ensures forall line :: line in GroupLines(host, groups) ==> StartsWith(line, host + ": " + host + ": ")
  {
    GroupLinesShape(host, groups);
    forall line | line in GroupLines(host, groups) ensures StartsWith(line, host + ": " + host + ": ") {
      var g, m :| g in groups && m in g.errs && line == Line(host, m);
      var k :| 0 <= k < |groups| && groups[k] == g;
      LineRepeatsHost(host, m);
    }
  }

  /**
   * A report line is the host, ": " and the message, and the message was
   * itself formatted with the host first: every line of a probed host's
   * findings starts with the host twice.
   */
  lemma ProbeLinesRepeatHost(host: string, handshake: Handshake, now: int, processStart: int)
    ensures forall line :: line in HostLines(ProbeResult(host, handshake, now, processStart)) ==>
              StartsWith(line, host + ": " + host + ": ")
  {
    if handshake.Connected? {
      var vs := FirstVisits(Visits(handshake.verifiedChains));
      var table := SunsetSigAlgs(processStart);
      var groups := EvaluateAll(host, vs, now, table);
      forall k | 0 <= k < |groups|
        ensures forall m :: m in groups[k].errs ==> StartsWith(m, host + ": ")
      {
        GroupMessagesNameHost(host, vs[k], now, table);
      }
      GroupLinesRepeatHost(host, groups);
    }
  }

  /**
   * Every line of the report `ProcessHosts` returns names a queued endpoint
   * twice at its start, whatever the arrival order.
   */
  lemma ReportLinesNameQueuedHost(records: seq<string>, probes: seq<Probe>, arrival: seq<nat>,
                                  processStart: int)
    requires |probes| == |Queued(records)|
    requires IsArrivalOrder(arrival, |probes|)
    ensures InRange(arrival, |probes|)
    ensures forall line :: line in ReportLines(Pick(Results(Queued(records), probes, processStart), arrival)) ==>
              exists h | h in records && Forwarded(h) :: StartsWith(line, h + ": " + h + ": ")
  {
    var hosts := Queued(records);
    ArrivalInRange(arrival, |probes|);
    var results := Pick(Results(hosts, probes, processStart), arrival);
    QueuedMembers(records);
    forall line | line in ReportLines(results)
      ensures exists h | h in records && Forwarded(h) :: StartsWith(line, h + ": " + h + ": ")
    {
      var j := ReportLineFromResult(results, line);
      var k := arrival[j];
      assert hosts[k] in hosts;
      ProbeLinesRepeatHost(hosts[k], probes[k].handshake, probes[k].now, processStart);
    }
  }
}
