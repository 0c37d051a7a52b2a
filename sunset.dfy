/**
 * The fixed table `sunsetSigAlgs` of deprecated certificate signature
 * algorithms: for each, a human-readable name and the instant from which a
 * certificate signed with it is no longer acceptable.
 */
module Sunset {
  import opened TimeMath

  /** The values of Go's `x509.SignatureAlgorithm`. */
  datatype SignatureAlgorithm =
    | UnknownSignatureAlgorithm
    | MD2WithRSA
    | MD5WithRSA
    | SHA1WithRSA
    | SHA256WithRSA
    | SHA384WithRSA
    | SHA512WithRSA
    | DSAWithSHA1
    | DSAWithSHA256
    | ECDSAWithSHA1
    | ECDSAWithSHA256
    | ECDSAWithSHA384
    | ECDSAWithSHA512
    | SHA256WithRSAPSS
    | SHA384WithRSAPSS
    | SHA512WithRSAPSS
    | PureEd25519

  /** The digest a signature algorithm signs. */
  datatype Digest = NoDigest | MD2 | MD5 | SHA1 | SHA256 | SHA384 | SHA512

  function DigestOf(alg: SignatureAlgorithm): Digest {
    match alg
    case UnknownSignatureAlgorithm => NoDigest
    case MD2WithRSA => MD2
    case MD5WithRSA => MD5
    case SHA1WithRSA => SHA1
    case DSAWithSHA1 => SHA1
    case ECDSAWithSHA1 => SHA1
    case SHA256WithRSA => SHA256
    case DSAWithSHA256 => SHA256
    case ECDSAWithSHA256 => SHA256
    case SHA256WithRSAPSS => SHA256
    case SHA384WithRSA => SHA384
    case ECDSAWithSHA384 => SHA384
    case SHA384WithRSAPSS => SHA384
    case SHA512WithRSA => SHA512
    case ECDSAWithSHA512 => SHA512
    case SHA512WithRSAPSS => SHA512
    case PureEd25519 => NoDigest
  }

  /** Digests whose collision resistance is broken. */
  predicate IsBroken(d: Digest) {
    d == MD2 || d == MD5 || d == SHA1
  }

  datatype SigAlgSunset = SigAlgSunset(name: string, sunsetsAt: int)

  /**
   * `sunsetSigAlgs`, built once when the process starts. MD2 and MD5 are
   * sunset at that moment (`time.Now()` in the initialiser), the three SHA-1
   * algorithms on 2017-01-01T00:00:00Z.
   */
  function SunsetSigAlgs(processStart: int): (table: map<SignatureAlgorithm, SigAlgSunset>)
    ensures forall alg :: alg in table <==> IsBroken(DigestOf(alg))
    ensures forall alg :: alg in table ==>
              table[alg].sunsetsAt == if DigestOf(alg) == SHA1 then Jan1st2017 else processStart
  {
    map[
      MD2WithRSA := SigAlgSunset("MD2 with RSA", processStart),
      MD5WithRSA := SigAlgSunset("MD5 with RSA", processStart),
      SHA1WithRSA := SigAlgSunset("SHA1 with RSA", Jan1st2017),
      DSAWithSHA1 := SigAlgSunset("DSA with SHA1", Jan1st2017),
      ECDSAWithSHA1 := SigAlgSunset("ECDSA with SHA1", Jan1st2017)
    ]
  }
}
