/**
 * `checkHost`: evaluate every certificate of the verified chains a TLS
 * handshake returned, once per distinct signature, and collect the findings
 * into the host's result.
 */
module Prober {
  import opened Wrappers
  import opened Sunset
  import opened Evaluator

  /**
   * The outcome of dialling one endpoint: the error text of a failed
   * connection or handshake, or the verified chains of a completed one (each
   * chain leaf first, trust anchor last).
   */
  datatype Handshake =
    | DialError(text: string)
    | Connected(verifiedChains: seq<seq<Certificate>>)

  /** `hostResult`: a connection error, or one finding group per evaluated certificate. */
  datatype HostResult = HostResult(host: string, err: Option<string>, certs: seq<CertErrors>)

  /** A certificate met while walking the chains, with its position and its chain's length. */
  datatype Visit = Visit(cert: Certificate, certNum: nat, chainLen: nat)

  function ChainVisits(chain: seq<Certificate>): (vs: seq<Visit>)
    ensures |vs| == |chain|
    ensures forall k :: 0 <= k < |chain| ==> vs[k] == Visit(chain[k], k, |chain|)
  {
    seq(|chain|, k requires 0 <= k < |chain| => Visit(chain[k], k, |chain|))
  }

  /** Every certificate of every chain, chain by chain, each chain from its first certificate. */
  function Visits(chains: seq<seq<Certificate>>): (vs: seq<Visit>)
    ensures forall k :: 0 <= k < |vs| ==> vs[k].certNum < vs[k].chainLen
  {
    if chains == [] then []
    else Visits(chains[..|chains| - 1]) + ChainVisits(chains[|chains| - 1])
  }

  function Signatures(vs: seq<Visit>): set<seq<bv8>> {
    set v | v in vs :: v.cert.signature
  }

  /** The visits whose signature no earlier visit had: the ones `checkHost` evaluates. */
  function FirstVisits(vs: seq<Visit>): (fv: seq<Visit>)
    ensures |fv| <= |vs|
  {
    if vs == [] then []
    else
      var prior, v := vs[..|vs| - 1], vs[|vs| - 1];
      if v.cert.signature in Signatures(prior) then FirstVisits(prior) else FirstVisits(prior) + [v]
  }

  /** Position `i` of `vs` holds the first visit of its signature. */
  predicate IsFirstOccurrence(vs: seq<Visit>, i: int) {
    0 <= i < |vs| && forall j :: 0 <= j < i ==> vs[j].cert.signature != vs[i].cert.signature
  }

  /** The finding groups of a sequence of visits. */
  function EvaluateAll(host: string, vs: seq<Visit>, now: int,
                       table: map<SignatureAlgorithm, SigAlgSunset>): (gs: seq<CertErrors>)
    ensures |gs| == |vs|
    ensures forall k :: 0 <= k < |vs| ==>
              gs[k] == Evaluate(host, vs[k].cert, vs[k].certNum, vs[k].chainLen, now, table)
  {
    seq(|vs|, k requires 0 <= k < |vs| =>
      Evaluate(host, vs[k].cert, vs[k].certNum, vs[k].chainLen, now, table))
  }

  /**
   * What `checkHost` returns for `host`, given the outcome of its handshake,
   * the time it read, and the instant the process started (which fixes the
   * sunset table).
   */
  function ProbeResult(host: string, handshake: Handshake, now: int, processStart: int): (r: HostResult)
    ensures r.host == host
    ensures handshake.DialError? ==> r.err == Some(handshake.text) && r.certs == []
    ensures handshake.Connected? ==>
              r.err == None && |r.certs| == |Signatures(Visits(handshake.verifiedChains))|
  {
    match handshake
    case DialError(text) => HostResult(host, Some(text), [])
    case Connected(chains) =>
      FirstVisitsCount(Visits(chains));
      HostResult(host, None, EvaluateAll(host, FirstVisits(Visits(chains)), now, SunsetSigAlgs(processStart)))
  }

  /**
   * `checkHost`, walking the chains in order and every chain from its first
   * certificate, with a set of the signatures already evaluated.
   */
  method CheckHost(host: string, handshake: Handshake, now: int, processStart: int)
    returns (result: HostResult)
    ensures result == ProbeResult(host, handshake, now, processStart)
    ensures result.host == host
    ensures handshake.DialError? ==> result.err == Some(handshake.text) && result.certs == []
    ensures handshake.Connected? ==>
              result.err == None && |result.certs| == |Signatures(Visits(handshake.verifiedChains))|
  {
    result := HostResult(host, None, []);
    if handshake.DialError? {
      result := result.(err := Some(handshake.text));
      return;
    }
    var chains := handshake.verifiedChains;
    var table := SunsetSigAlgs(processStart);
    var checkedCerts: set<seq<bv8>> := {};
    var certs: seq<CertErrors> := [];
    ghost var visited: seq<Visit> := [];
    var i := 0;
    while i < |chains|
      invariant 0 <= i <= |chains|
      invariant visited == Visits(chains[..i])
      invariant checkedCerts == Signatures(visited)
      invariant certs == EvaluateAll(host, FirstVisits(visited), now, table)
    {
      checkedCerts, certs := CheckChain(host, chains[i], now, table, checkedCerts, certs, visited);
      visited := visited + ChainVisits(chains[i]);
      ChainStep(chains, i);
      i := i + 1;
    }
    assert chains[..i] == chains;
    result := result.(certs := certs);
  }

  /**
   * The inner loop of `checkHost` over one chain, from its first certificate:
   * a certificate whose signature was seen before is skipped, any other is
   * evaluated and its signature remembered.
   */
  method CheckChain(host: string, chain: seq<Certificate>, now: int,
                    table: map<SignatureAlgorithm, SigAlgSunset>,
                    checkedCerts: set<seq<bv8>>, certs: seq<CertErrors>, ghost visited: seq<Visit>)
    returns (checkedCerts': set<seq<bv8>>, certs': seq<CertErrors>)
    requires checkedCerts == Signatures(visited)
    requires certs == EvaluateAll(host, FirstVisits(visited), now, table)
    ensures checkedCerts' == Signatures(visited + ChainVisits(chain))
    ensures certs' == EvaluateAll(host, FirstVisits(visited + ChainVisits(chain)), now, table)
  {
    checkedCerts', certs' := checkedCerts, certs;
    ghost var walked := visited;
    var certNum := 0;
    while certNum < |chain|
      invariant 0 <= certNum <= |chain|
      invariant walked == visited + ChainVisits(chain)[..certNum]
      invariant checkedCerts' == Signatures(walked)
      invariant certs' == EvaluateAll(host, FirstVisits(walked), now, table)
    {
      var cert := chain[certNum];
      ghost var v := Visit(cert, certNum, |chain|);
      PrefixStep(visited, chain, certNum);
      WalkStep(host, walked, v, now, table);
      walked := walked + [v];
      if cert.signature in checkedCerts' {
        certNum := certNum + 1;
        continue;
      }
      checkedCerts' := checkedCerts' + {cert.signature};
      var group := CheckCert(host, cert, certNum, |chain|, now, table);
      certs' := certs' + [group];
      certNum := certNum + 1;
    }
    assert ChainVisits(chain)[..certNum] == ChainVisits(chain);
  }

  lemma PrefixStep(visited: seq<Visit>, chain: seq<Certificate>, certNum: nat)
    requires certNum < |chain|
    ensures visited + ChainVisits(chain)[..certNum + 1] ==
              (visited + ChainVisits(chain)[..certNum]) + [Visit(chain[certNum], certNum, |chain|)]
  {
    assert ChainVisits(chain)[..certNum + 1] == ChainVisits(chain)[..certNum] + [Visit(chain[certNum], certNum, |chain|)];
  }

  lemma ChainStep(chains: seq<seq<Certificate>>, i: nat)
    requires i < |chains|
    ensures Visits(chains[..i + 1]) == Visits(chains[..i]) + ChainVisits(chains[i])[..|chains[i]|]
  {
    assert chains[..i + 1][..i] == chains[..i];
    assert ChainVisits(chains[i])[..|chains[i]|] == ChainVisits(chains[i]);
  }

  /** One step of the walk, as the loop of `CheckHost` takes it. */
  lemma WalkStep(host: string, prior: seq<Visit>, v: Visit, now: int,
                 table: map<SignatureAlgorithm, SigAlgSunset>)
    ensures Signatures(prior + [v]) == Signatures(prior) + {v.cert.signature}
    ensures v.cert.signature in Signatures(prior) ==>
              EvaluateAll(host, FirstVisits(prior + [v]), now, table) == EvaluateAll(host, FirstVisits(prior), now, table)
    ensures v.cert.signature !in Signatures(prior) ==>
              EvaluateAll(host, FirstVisits(prior + [v]), now, table) ==
                EvaluateAll(host, FirstVisits(prior), now, table) + [Evaluate(host, v.cert, v.certNum, v.chainLen, now, table)]
  {
    VisitStep(prior, v);
    EvaluateAllSnoc(host, FirstVisits(prior), v, now, table);
  }

  lemma EvaluateAllSnoc(host: string, vs: seq<Visit>, v: Visit, now: int,
                        table: map<SignatureAlgorithm, SigAlgSunset>)
    ensures EvaluateAll(host, vs + [v], now, table) ==
              EvaluateAll(host, vs, now, table) + [Evaluate(host, v.cert, v.certNum, v.chainLen, now, table)]
  {
    var vs' := vs + [v];
    assert forall k :: 0 <= k < |vs| ==> vs'[k] == vs[k];
  }

  /**
   * The body of `checkHost`'s inner loop for a certificate not seen before:
   * the expiry finding, if any, then the sunset finding, if any.
   */
  method CheckCert(host: string, cert: Certificate, certNum: nat, chainLen: nat, now: int,
                   table: map<SignatureAlgorithm, SigAlgSunset>)
    returns (group: CertErrors)
    ensures group == Evaluate(host, cert, certNum, chainLen, now, table)
  {
    var cErrs: seq<string> := [];
    ghost var found: seq<Finding> := [];
    assert cErrs == Messages(found);
    var expiry := ExpiryFinding(host, cert, now);
    if expiry.Some? {
      MessagesSnoc(found, expiry.value);
      cErrs := cErrs + [Message(expiry.value)];
      found := found + [expiry.value];
    }
    assert found == ToSeq(expiry);
    var sunset := SunsetFinding(host, cert, certNum, chainLen, table);
    if sunset.Some? {
      MessagesSnoc(found, sunset.value);
      cErrs := cErrs + [Message(sunset.value)];
      found := found + [sunset.value];
    } else {
      assert ToSeq(expiry) + ToSeq(sunset) == ToSeq(expiry);
    }
    assert found == ToSeq(expiry) + ToSeq(sunset);
    group := CertErrors(cert.commonName, cErrs);
  }

  lemma MessagesSnoc(fs: seq<Finding>, f: Finding)
    ensures Messages(fs + [f]) == Messages(fs) + [Message(f)]
  {
    var fs' := fs + [f];
    assert forall k :: 0 <= k < |fs| ==> fs'[k] == fs[k];
  }

  /** Walking one more visit: the seen-set gains its signature, the groups grow only when it is new. */
  lemma VisitStep(prior: seq<Visit>, v: Visit)
    ensures Signatures(prior + [v]) == Signatures(prior) + {v.cert.signature}
    ensures FirstVisits(prior + [v]) ==
              if v.cert.signature in Signatures(prior) then FirstVisits(prior) else FirstVisits(prior) + [v]
  {
    var vs := prior + [v];
    assert vs[..|vs| - 1] == prior;
    forall s | s in Signatures(vs) ensures s in Signatures(prior) + {v.cert.signature} {
      var w :| w in vs && w.cert.signature == s;
    }
  }

  /**
   * The evaluated visits are exactly the first occurrences of their
   * signatures, in the order of the walk: there is a strictly increasing map
   * from the evaluated visits to positions of the walk, every position it hits
   * is the first of its signature, and every such position is hit.
   */
  lemma {:induction false} FirstVisitsAreFirstOccurrences(vs: seq<Visit>) returns (idx: seq<nat>)
    ensures |idx| == |FirstVisits(vs)|
    ensures forall k :: 0 <= k < |idx| ==>
              idx[k] < |vs| && vs[idx[k]] == FirstVisits(vs)[k] && IsFirstOccurrence(vs, idx[k])
    ensures forall k, l :: 0 <= k < l < |idx| ==> idx[k] < idx[l]
    ensures forall i :: IsFirstOccurrence(vs, i) ==> i in idx
  {
    if vs == [] {
      return [];
    }
    var prior, v := vs[..|vs| - 1], vs[|vs| - 1];
    assert vs == prior + [v];
    var idx' := FirstVisitsAreFirstOccurrences(prior);
    forall i | 0 <= i < |prior| ensures IsFirstOccurrence(vs, i) <==> IsFirstOccurrence(prior, i) {
      assert forall j :: 0 <= j <= i ==> vs[j] == prior[j];
    }
    if v.cert.signature in Signatures(prior) {
      var w :| w in prior && w.cert.signature == v.cert.signature;
      var j :| 0 <= j < |prior| && prior[j] == w;
      assert !IsFirstOccurrence(vs, |prior|) by {
        assert vs[j].cert.signature == vs[|prior|].cert.signature;
      }
      idx := idx';
    } else {
      assert IsFirstOccurrence(vs, |prior|) by {
        forall j | 0 <= j < |prior| ensures vs[j].cert.signature != v.cert.signature {
          assert prior[j] in prior;
        }
      }
      idx := idx' + [|prior|];
    }
  }

  /** No two evaluated visits share a signature: each certificate is evaluated at most once. */
  lemma FirstVisitsDistinct(vs: seq<Visit>)
    ensures var fv := FirstVisits(vs);
            forall k, l :: 0 <= k < l < |fv| ==> fv[k].cert.signature != fv[l].cert.signature
  {
    var fv := FirstVisits(vs);
    var idx := FirstVisitsAreFirstOccurrences(vs);
    forall k, l | 0 <= k < l < |fv| ensures fv[k].cert.signature != fv[l].cert.signature {
      assert IsFirstOccurrence(vs, idx[l]) && idx[k] < idx[l];
    }
  }

  /** Every signature met on the walk is evaluated: the evaluated visits cover all signatures. */
  lemma {:induction false} FirstVisitsCover(vs: seq<Visit>)
    ensures Signatures(FirstVisits(vs)) == Signatures(vs)
  {
    if vs != [] {
      var prior, v := vs[..|vs| - 1], vs[|vs| - 1];
      assert vs == prior + [v];
      FirstVisitsCover(prior);
      VisitStep(prior, v);
      VisitStep(FirstVisits(prior), v);
    }
  }

  /** One group per distinct signature: as many evaluations as distinct signatures. */
  lemma FirstVisitsCount(vs: seq<Visit>)
    ensures |FirstVisits(vs)| == |Signatures(vs)|
  {
    FirstVisitsDistinct(vs);
    FirstVisitsCover(vs);
    DistinctSignaturesCount(FirstVisits(vs));
  }

  lemma {:induction false} DistinctSignaturesCount(vs: seq<Visit>)
    requires forall k, l :: 0 <= k < l < |vs| ==> vs[k].cert.signature != vs[l].cert.signature
    ensures |Signatures(vs)| == |vs|
  {
    if vs != [] {
      var prior, v := vs[..|vs| - 1], vs[|vs| - 1];
      assert vs == prior + [v];
      DistinctSignaturesCount(prior);
      VisitStep(prior, v);
      assert v.cert.signature !in Signatures(prior);
    }
  }
}
