/**
 * The two rules `checkHost` applies to every certificate it evaluates: the
 * expiry rule and the signature-algorithm sunset rule, and the message text of
 * each finding.
 */
module Evaluator {
  import opened Wrappers
  import opened TimeMath
  import opened Format
  import opened Sunset

  /** The parts of an `x509.Certificate` the checker reads. */
  datatype Certificate = Certificate(
    commonName: string,
    serialNumber: int,
    signatureAlgorithm: SignatureAlgorithm,
    notAfter: int,          // instant, nanoseconds since the Unix epoch
    signature: seq<bv8>)    // raw signature bytes, the deduplication key

  /** A finding about one certificate, reported against one host. */
  datatype Finding =
    | ExpiresShortly(host: string, commonName: string, serialNumber: int, hours: int)
    | ExpiresSoon(host: string, commonName: string, serialNumber: int, days: int)
    | SunsetAlgorithm(host: string, commonName: string, serialNumber: int, algorithmName: string)
  {
    predicate IsExpiry() {
      ExpiresShortly? || ExpiresSoon?
    }
  }

  /**
   * The findings of one certificate (`certErrors`), in the order they were
   * found; each is kept, as the error value `fmt.Errorf` makes, by its text.
   */
  datatype CertErrors = CertErrors(commonName: string, errs: seq<string>)

  /** The certificate a finding is about, as the messages name it. */
  function Subject(f: Finding): string {
    "'" + f.commonName + "' (S/N " + UpperHex(f.serialNumber) + ")"
  }

  /** What a finding says about its certificate. */
  function Verdict(f: Finding): string {
    match f
    case ExpiresShortly(_, _, _, hours) =>
      "** " + Subject(f) + " expires in " + Decimal(hours) + " hours! **"
    case ExpiresSoon(_, _, _, days) =>
      Subject(f) + " expires in roughly " + Decimal(days) + " days"
    case SunsetAlgorithm(_, _, _, name) =>
      Subject(f) + " expires after the sunset date for its signature algorithm '" + name + "'"
  }

  /**
   * The text of a finding (`errExpiringShortly`, `errExpiringSoon`,
   * `errSunsetAlg` formatted with the host first): every message starts with
   * the host it was formatted for, then ": ".
   */
  function Message(f: Finding): (m: string)
    ensures |m| > |f.host| + 2 && m[..|f.host| + 2] == f.host + ": "
  {
    assert (f.host + ": " + Verdict(f))[..|f.host| + 2] == f.host + ": ";
    f.host + ": " + Verdict(f)
  }

  /** Thirty days after `now`, the horizon of the expiry rule. */
  function Horizon(now: int): int {
    AddDays(now, 30)
  }

  /**
   * The expiry rule: a certificate whose `notAfter` lies before the horizon is
   * reported, in hours when at most 48 whole hours remain and in days otherwise.
   */
  function ExpiryFinding(host: string, cert: Certificate, now: int): (r: Option<Finding>)
    ensures r.Some? <==> cert.notAfter < now + 30 * NanosPerDay
    ensures r.Some? ==> r.value.IsExpiry() && r.value.host == host &&
                        r.value.commonName == cert.commonName && r.value.serialNumber == cert.serialNumber
  {
    if Horizon(now) > cert.notAfter then
      var expiresIn := HoursUntil(cert.notAfter, now);
      if expiresIn <= 48 then
        Some(ExpiresShortly(host, cert.commonName, cert.serialNumber, expiresIn))
      else
        Some(ExpiresSoon(host, cert.commonName, cert.serialNumber, TruncDiv(expiresIn, 24)))
    else
      None
  }

  /**
   * The sunset rule: a certificate that is not the last of its chain, signed
   * with an algorithm of the table, and valid until that algorithm's sunset or
   * later, is reported.
   */
  function SunsetFinding(host: string, cert: Certificate, certNum: nat, chainLen: nat,
                         table: map<SignatureAlgorithm, SigAlgSunset>): (r: Option<Finding>)
    ensures r.Some? <==>
              && cert.signatureAlgorithm in table
              && certNum + 1 != chainLen
              && cert.notAfter >= table[cert.signatureAlgorithm].sunsetsAt
    ensures r.Some? ==>
              && r.value.SunsetAlgorithm? && r.value.host == host
              && r.value.commonName == cert.commonName && r.value.serialNumber == cert.serialNumber
              && r.value.algorithmName == table[cert.signatureAlgorithm].name
  {
    if cert.signatureAlgorithm in table && certNum != chainLen - 1 then
      var alg := table[cert.signatureAlgorithm];
      if cert.notAfter == alg.sunsetsAt || cert.notAfter > alg.sunsetsAt then
        Some(SunsetAlgorithm(host, cert.commonName, cert.serialNumber, alg.name))
      else
        None
    else
      None
  }

  /** Both rules applied to one certificate at position `certNum` of a chain of `chainLen`. */
  function Findings(host: string, cert: Certificate, certNum: nat, chainLen: nat, now: int,
                    table: map<SignatureAlgorithm, SigAlgSunset>): (fs: seq<Finding>)
    ensures |fs| <= 2
    ensures forall f :: f in fs ==> f.host == host
  {
    ToSeq(ExpiryFinding(host, cert, now)) + ToSeq(SunsetFinding(host, cert, certNum, chainLen, table))
  }

  function Messages(fs: seq<Finding>): (ms: seq<string>)
    ensures |ms| == |fs|
  {
    seq(|fs|, k requires 0 <= k < |fs| => Message(fs[k]))
  }

  /** The group of one certificate: its common name and the text of each finding. */
  function Evaluate(host: string, cert: Certificate, certNum: nat, chainLen: nat, now: int,
                    table: map<SignatureAlgorithm, SigAlgSunset>): (g: CertErrors)
    ensures g.commonName == cert.commonName && |g.errs| <= 2
  {
    CertErrors(cert.commonName, Messages(Findings(host, cert, certNum, chainLen, now, table)))
  }

  /**
   * The expiry rule fires exactly when `notAfter` is before `now` plus 30 days.
   * The hours form is used exactly when `notAfter` is less than 49 hours after
   * `now` (this includes certificates that have already expired, which get a
   * zero or negative count); otherwise the message gives whole days, at least 2
   * and at most 29, truncated from the whole hours left.
   */
  lemma ExpiryRule(host: string, cert: Certificate, now: int)
    ensures ExpiryFinding(host, cert, now).Some? <==> cert.notAfter < now + 30 * NanosPerDay
    ensures match ExpiryFinding(host, cert, now)
      case None => true
      case Some(f) =>
        && f.IsExpiry() && f.host == host
        && f.commonName == cert.commonName && f.serialNumber == cert.serialNumber
        && (f.ExpiresShortly? <==> cert.notAfter < now + 49 * NanosPerHour)
        && (f.ExpiresShortly? ==> f.hours == HoursUntil(cert.notAfter, now) <= 48)
        && (f.ExpiresShortly? && cert.notAfter <= now ==> f.hours <= 0)
        && (f.ExpiresSoon? ==>
              && 2 <= f.days <= 29
              && f.days * 24 * NanosPerHour <= cert.notAfter - now < (f.days + 1) * 24 * NanosPerHour)
  {
    if Horizon(now) > cert.notAfter {
      var d := cert.notAfter - now;
      var h := HoursUntil(cert.notAfter, now);
      if d >= 0 {
        assert IsDuration(d);
        assert h * NanosPerHour <= d < (h + 1) * NanosPerHour;
        if h > 48 {
          var days := TruncDiv(h, 24);
          assert days * 24 <= h < days * 24 + 24;
        }
      } else {
        assert h <= 0;
      }
    }
  }

  /**
   * With the process's own table, the sunset rule fires exactly for a
   * certificate that is not the last of its chain, is signed over MD2, MD5 or
   * SHA-1, and is valid until that digest's sunset or later.
   */
  lemma SunsetRule(host: string, cert: Certificate, certNum: nat, chainLen: nat, processStart: int)
    ensures var table := SunsetSigAlgs(processStart);
            var d := DigestOf(cert.signatureAlgorithm);
            SunsetFinding(host, cert, certNum, chainLen, table).Some? <==>
              && IsBroken(d)
              && certNum + 1 != chainLen
              && cert.notAfter >= (if d == SHA1 then Jan1st2017 else processStart)
  {
  }

  /** The last certificate of a chain, the trust anchor, never gets a sunset finding. */
  lemma LastOfChainNeverSunset(host: string, cert: Certificate, chainLen: nat, now: int,
                               table: map<SignatureAlgorithm, SigAlgSunset>)
    requires chainLen >= 1
    ensures SunsetFinding(host, cert, chainLen - 1, chainLen, table) == None
    ensures forall f :: f in Findings(host, cert, chainLen - 1, chainLen, now, table) ==> f.IsExpiry()
  {
  }

  /**
   * A certificate has at most two findings: an expiry finding exactly when
   * the expiry rule fires, a sunset finding exactly when the sunset rule
   * fires, the expiry finding first; every finding is about this host and
   * this certificate.
   */
  lemma FindingsShape(host: string, cert: Certificate, certNum: nat, chainLen: nat, now: int,
                      table: map<SignatureAlgorithm, SigAlgSunset>)
    ensures var fs := Findings(host, cert, certNum, chainLen, now, table);
            && |fs| <= 2
            && ((exists i :: 0 <= i < |fs| && fs[i].IsExpiry()) <==> ExpiryFinding(host, cert, now).Some?)
            && ((exists i :: 0 <= i < |fs| && fs[i].SunsetAlgorithm?) <==>
                  SunsetFinding(host, cert, certNum, chainLen, table).Some?)
            && (forall i, j :: 0 <= i < j < |fs| ==> fs[i].IsExpiry() && fs[j].SunsetAlgorithm?)
            && (forall i :: 0 <= i < |fs| ==>
                  fs[i].host == host && fs[i].commonName == cert.commonName &&
                  fs[i].serialNumber == cert.serialNumber)
  {
    var fs := Findings(host, cert, certNum, chainLen, now, table);
    if ExpiryFinding(host, cert, now).Some? {
      assert fs[0].IsExpiry();
    }
    if SunsetFinding(host, cert, certNum, chainLen, table).Some? {
      assert fs[|fs| - 1].SunsetAlgorithm?;
    }
  }

  /** A certificate 40 hours from expiry gets the hours message with 40. */
  lemma FortyHoursLeft(host: string, cert: Certificate, now: int)
    requires cert.notAfter == now + 40 * NanosPerHour
    ensures ExpiryFinding(host, cert, now) ==
              Some(ExpiresShortly(host, cert.commonName, cert.serialNumber, 40))
  {
  }

  /** A certificate 240 hours from expiry gets the days message with 10. */
  lemma TenDaysLeft(host: string, cert: Certificate, now: int)
    requires cert.notAfter == now + 240 * NanosPerHour
    ensures ExpiryFinding(host, cert, now) ==
              Some(ExpiresSoon(host, cert.commonName, cert.serialNumber, 10))
  {
  }

  /** A certificate 60 days from expiry gets no expiry finding. */
  lemma SixtyDaysLeft(host: string, cert: Certificate, now: int)
    requires cert.notAfter == now + 60 * NanosPerDay
    ensures ExpiryFinding(host, cert, now) == None
  {
  }

  /**
   * A leaf signed with SHA1 with RSA and valid until 2018 gets a sunset
   * finding in a two-certificate chain; the same certificate as the chain's
   * root gets none.
   */
  lemma Sha1LeafAndRoot(host: string, cert: Certificate, processStart: int)
    requires cert.signatureAlgorithm == SHA1WithRSA
    requires cert.notAfter == Jan1st2017 + 365 * NanosPerDay
    ensures SunsetFinding(host, cert, 0, 2, SunsetSigAlgs(processStart)) ==
              Some(SunsetAlgorithm(host, cert.commonName, cert.serialNumber, "SHA1 with RSA"))
    ensures SunsetFinding(host, cert, 1, 2, SunsetSigAlgs(processStart)) == None
  {
  }
}
