# check-ssl certificate checker, modelled in Dafny

This project models `SSLChecker` from `pkg/ssl/ssl.go`. The checker holds a
list of endpoint records. It queues those that are not empty and not commented
out with `#`. For every queued endpoint it takes the certificates of the
verified chains a TLS handshake returns. It evaluates each distinct
certificate, keyed by its signature bytes, once against two rules:

- the expiry rule: the certificate expires within 30 days, reported in hours
  when at most 48 whole hours remain and in days otherwise;
- the sunset rule: the certificate is signed with an MD2, MD5 or SHA-1
  algorithm, is not the last certificate of its chain, and stays valid until
  that algorithm's sunset instant or later.

The report is one line `host: message\n` per finding, over the results that
carry no connection error. Results with a connection error are only logged,
and only when the error text mentions "certifi" in any letter case.

Modules, one file each:

- `Wrappers` (`wrappers.dfy`): `Option`.
- `TimeMath` (`time_math.dfy`): instants and durations as integer
  nanoseconds, Go's saturating `Time.Sub`, and truncating integer division.
- `Format` (`format.dfy`): the `%d` and `%X` renderings of integers, with
  parsing as their inverse.
- `Sunset` (`sunset.dfy`): the `x509.SignatureAlgorithm` values and the
  `sunsetSigAlgs` table.
- `Evaluator` (`evaluator.dfy`): certificates, findings, their message texts,
  and the two rules.
- `Prober` (`prober.dfy`): `checkHost`. A method walks the chains with a set
  of the signatures already seen. It is proved equal to `ProbeResult`, which
  evaluates the first occurrence of each signature.
- `Aggregator` (`aggregator.dfy`): the loop of `ProcessHosts` that folds the
  host results into the report and the log lines.
- `Checker` (`checker.dfy`): the class `SSLChecker`, with the fields
  `records` (`Records`) and `hosts` (the queue), and the methods
  `AppendHosts`, `QueueHosts` and `ProcessHosts`.

Instants are nanoseconds since the Unix epoch, and `time.Duration` is an int64
nanosecond count. The handshake outcome, the clock reading of each `checkHost`
call and the instant the process started are parameters. The last one fixes
the MD2 and MD5 sunset instants.

The worker pool of `ProcessHosts` is modelled by an arrival order: a
permutation of the queue positions that says in which order the results reach
the collecting loop. The properties of the report hold for every arrival
order. The lines themselves, counted with multiplicity, do not depend on it.

A group is appended for every newly seen certificate, including one without
findings (`pkg/ssl/ssl.go:196-199`). A description in which only certificates
with findings get a group would differ from the code in `|certs|`, but not in
the report. The model follows the code: `CheckHost` promises exactly one group
per distinct signature.

## Model

| member | source | states |
|---|---|---|
| TimeMath.Sub | pkg/ssl/ssl.go:181 | the difference of two instants is exact when it fits an int64 duration and saturates at the nearer bound otherwise |
| TimeMath.TruncDiv | pkg/ssl/ssl.go:181-185 | Go's integer division truncates toward zero: a quotient of the numerator's sign whose multiple is within one divisor of the numerator, from below for non-negative and from above for negative numerators |
| TimeMath.HoursUntil | pkg/ssl/ssl.go:181 | `int64(notAfter.Sub(now).Hours())` is the number of whole hours left, bracketed by the nanosecond difference, and non-positive for an expired certificate |
| TimeMath.HoursUntilTruncatesTowardZero | pkg/ssl/ssl.go:181 | a certificate that expired 90 minutes ago is -1 hours away, not -2 |
| TimeMath.AddDays | pkg/ssl/ssl.go:180 | thirty days after `now` is `now` plus 30 times 86400 seconds, in nanoseconds |
| Format.FormatNat | pkg/ssl/ssl.go:21-23 | the digits of a number in base 10 or 16: at least one, all digits of the base, and no leading zero |
| Format.ParseFormatNat | pkg/ssl/ssl.go:21-23 | parsing the digits of a natural number gives the number back |
| Format.ParseFormatInt | pkg/ssl/ssl.go:21-23 | the `%d` / `%X` text of an integer starts with '-' exactly when it is negative, and parses back to the integer |
| Sunset.SunsetSigAlgs | pkg/ssl/ssl.go:37-58 | the table holds exactly the algorithms over MD2, MD5 and SHA-1; SHA-1 ones sunset on 2017-01-01 UTC, MD2/MD5 ones at process start |
| Evaluator.Message | pkg/ssl/ssl.go:21-23 | the text of every finding, in each of the three formats, is its host, ": " and then a non-empty verdict |
| Evaluator.ExpiryFinding | pkg/ssl/ssl.go:180-187 | an expiry finding exists iff notAfter is before now + 30 days, and it is an hours or days finding about this host, common name and serial number |
| Evaluator.SunsetFinding | pkg/ssl/ssl.go:189-194 | a sunset finding exists iff the algorithm is in the table, the certificate is not the chain's last, and notAfter is at or after the algorithm's sunset instant; it names the table's algorithm name and this host and certificate |
| Evaluator.Findings | pkg/ssl/ssl.go:177-194 | a certificate has at most two findings, all about the probed host |
| Evaluator.Evaluate | pkg/ssl/ssl.go:196-199 | the group of a certificate carries its common name and at most two messages |
| Evaluator.ExpiryRule | pkg/ssl/ssl.go:180-187 | an expiry finding exists iff notAfter is before now + 30 days; it is the hours form iff notAfter is less than 49 hours away, with the truncated hour count (at most 48, non-positive once expired); otherwise the days form with 2 to 29 days, bracketed by the time left |
| Evaluator.SunsetRule | pkg/ssl/ssl.go:189-194 | with the process's table, a sunset finding exists iff the digest is MD2, MD5 or SHA-1, the certificate is not the chain's last, and notAfter is at or after the sunset instant |
| Evaluator.LastOfChainNeverSunset | pkg/ssl/ssl.go:189-190 | the last certificate of a chain never gets a sunset finding, so all its findings are expiry findings |
| Evaluator.FindingsShape | pkg/ssl/ssl.go:177-194 | a certificate has at most two findings, each present iff its rule fires, the expiry finding before the sunset finding, all about this host and certificate |
| Evaluator.FortyHoursLeft | pkg/ssl/ssl.go:180-183 | 40 hours left gives the hours message with 40 |
| Evaluator.TenDaysLeft | pkg/ssl/ssl.go:180-185 | 240 hours left gives the days message with 10 |
| Evaluator.SixtyDaysLeft | pkg/ssl/ssl.go:180 | 60 days left gives no expiry finding |
| Evaluator.Sha1LeafAndRoot | pkg/ssl/ssl.go:189-194 | a SHA1-with-RSA certificate valid into 2018 is reported as a leaf but not as the root of a two-certificate chain |
| Prober.CheckCert | pkg/ssl/ssl.go:177-199 | the group built for one certificate is its common name and the messages of its findings, the expiry finding first |
| Prober.CheckChain | pkg/ssl/ssl.go:172-200 | walking one chain adds its signatures to the set of seen ones and appends the groups of the certificates whose signatures occur there first |
| Prober.Visits | pkg/ssl/ssl.go:171-172 | every position visited on the walk over the verified chains lies inside its chain |
| Prober.FirstVisits | pkg/ssl/ssl.go:170-176 | skipping the signatures already seen never evaluates more certificates than were visited |
| Prober.ProbeResult | pkg/ssl/ssl.go:154-204 | a dial error gives that error and no groups; a handshake gives no error and one group per distinct signature of the verified chains |
| Prober.CheckHost | pkg/ssl/ssl.go:154-204 | the result is `ProbeResult`: a dial error gives that error and no groups; a handshake gives no error and exactly one group per distinct signature of the verified chains |
| Prober.FirstVisitsAreFirstOccurrences | pkg/ssl/ssl.go:170-176 | the evaluated certificates are exactly the first occurrences of their signatures in the walk over chains and positions, in walk order |
| Prober.FirstVisitsDistinct | pkg/ssl/ssl.go:170-176 | no two evaluated certificates share a signature |
| Prober.FirstVisitsCover | pkg/ssl/ssl.go:170-176 | every signature met on the walk is evaluated |
| Prober.FirstVisitsCount | pkg/ssl/ssl.go:170-176 | as many certificates are evaluated as there are distinct signatures |
| Aggregator.ReportLines | pkg/ssl/ssl.go:98-111 | the lines `Report` joins are one per finding of the results without a connection error |
| Aggregator.LogLines | pkg/ssl/ssl.go:97-104 | at most one line is logged per result |
| Aggregator.LogLinesCount | pkg/ssl/ssl.go:97-104 | exactly one line is logged per result whose connection error mentions "certifi" in any letter case |
| Aggregator.LoggedErrors | pkg/ssl/ssl.go:97-101 | an x509 error naming a "Certificate" is logged, a bare "EOF" is not |
| Aggregator.Aggregate | pkg/ssl/ssl.go:97-111 | the fold returns the report of the results in arrival order and logs exactly the errored results whose error mentions "certifi" in any case |
| Aggregator.AppendGroups | pkg/ssl/ssl.go:106-110 | the two inner loops append one line per finding, group by group |
| Aggregator.ReportAppend | pkg/ssl/ssl.go:98-111 | the report of results arriving as `a` then `b` is the report of `a` followed by that of `b` |
| Aggregator.ErroredResultAddsNothing | pkg/ssl/ssl.go:99-105 | a result with a connection error changes nothing in the report, wherever it arrives |
| Aggregator.FindingLinesShape | pkg/ssl/ssl.go:107-109 | a group adds one line `host: message\n` per finding, in order |
| Aggregator.GroupLinesShape | pkg/ssl/ssl.go:106-110 | a result adds one line per finding of its groups, each from a finding of one of them |
| Aggregator.ReportLinesShape | pkg/ssl/ssl.go:98-111 | the report has exactly as many lines as the results without connection error have findings, each from such a result's finding |
| Aggregator.ReportLineFromResult | pkg/ssl/ssl.go:98-111 | every report line was added by one of the results |
| Aggregator.ReportEmptyIffNoFindings | pkg/ssl/ssl.go:98-113 | the report is empty iff the results without connection error hold no finding |
| Aggregator.ReportLinesAround | pkg/ssl/ssl.go:98-111 | a result's lines stand between those of the results before and after it |
| Aggregator.InsertResult | pkg/ssl/ssl.go:98-111 | adding the same result to two result sequences whose lines are a permutation keeps them a permutation |
| Aggregator.ReportLinesPermutation | pkg/ssl/ssl.go:98-111 | results that are a permutation of each other give the same report lines, each as often |
| Aggregator.TotalFindingsPermutation | pkg/ssl/ssl.go:98-111 | the number of reported findings does not depend on the arrival order |
| Aggregator.LogLinesAppend | pkg/ssl/ssl.go:98-104 | the log of results arriving as `a` then `b` is the log of `a` followed by that of `b` |
| Aggregator.InsertLogged | pkg/ssl/ssl.go:98-104 | adding the same result to two result sequences whose log lines are a permutation keeps them a permutation |
| Aggregator.LogLinesPermutation | pkg/ssl/ssl.go:97-104 | results that are a permutation of each other log the same lines, each as often |
| Checker.SSLChecker.constructor | pkg/ssl/ssl.go:71-74 | a checker starts with the given records and an empty queue |
| Checker.SSLChecker.AppendHosts | pkg/ssl/ssl.go:116-118 | the records become the old records followed by the new ones; the queue is unchanged |
| Checker.SSLChecker.QueueHosts | pkg/ssl/ssl.go:124-142 | the queue becomes the forwarded records in record order; the records are unchanged |
| Checker.SSLChecker.ProcessHosts | pkg/ssl/ssl.go:76-114 | queues the records, probes each queued endpoint once with `checkHost`, and returns the report and log lines of the results in the given arrival order |
| Checker.Queued | pkg/ssl/ssl.go:129-132 | the queue is no longer than the records, and every queued record is non-empty and does not start with '#' |
| Checker.QueuedMembers | pkg/ssl/ssl.go:129-132 | a record is queued iff it is one of the records, non-empty and not starting with '#' |
| Checker.QueuedAppend | pkg/ssl/ssl.go:116-138 | queueing appended records queues them after the earlier ones |
| Checker.QueuedKeepsOrder | pkg/ssl/ssl.go:129-138 | the queue picks records at strictly increasing positions and picks every forwarded position |
| Checker.BlankRecordIsQueued | pkg/ssl/ssl.go:130 | a record of blanks is forwarded, while the empty and the '#' records are skipped |
| Checker.ArrivalPermutes | pkg/ssl/ssl.go:84-98 | an arrival order delivers every result exactly once |
| Checker.EveryQueuedHostProbedOnce | pkg/ssl/ssl.go:144-152 | the hosts of the collected results are the queued endpoints, each as often as it was queued, in any arrival order |
| Checker.ReportIndependentOfArrival | pkg/ssl/ssl.go:84-111 | two arrival orders give the same report lines, each as often, and the same number of findings |
| Checker.GroupMessagesNameHost | pkg/ssl/ssl.go:183-192 | every message of a certificate probed on a host starts with that host and ": " |
| Checker.ProbeLinesRepeatHost | pkg/ssl/ssl.go:108 | every report line of a probed host starts with `host: host: ` |
| Checker.ReportLinesNameQueuedHost | pkg/ssl/ssl.go:108 | every line of the report starts with `h: h: ` for a forwarded record `h`, whatever the arrival order |

## Left out

- Goroutines, channels, `sync.WaitGroup` and the `done` channel of `ProcessHosts`, `queueHosts` and `processQueue` (pkg/ssl/ssl.go:78-95, 124-152) are left out. Their effect on the results is the arrival order, which is a parameter of `ProcessHosts`.
- The TLS dial, its 10-second timeout and `ConnectionState().VerifiedChains` (pkg/ssl/ssl.go:160-171) are network I/O and foreign x509 verification. The handshake outcome is an input: an error text, or the verified chains. Closing the connection is not modelled.
- `time.Now()` is a parameter: one reading per `checkHost` call, and one at process start for the sunset table. The table's initializer reads the clock twice, once for MD2 and once for MD5 (pkg/ssl/ssl.go:40, 44). The model takes both readings as one instant, although in Go they differ by a few nanoseconds.
- `log.Printf` is modelled by the sequence of lines it would print. The logger's timestamp prefix is not part of the model.
- The `(?i)Certifi` regular expression is modelled as an ASCII case-insensitive substring test. This is exact here, because none of the letters c, e, r, t, i, f has a non-ASCII case-folding partner in Go's simple folding.
- An error value is modelled by its text, and `fmt.Errorf` by string concatenation of the rendered arguments. `%X` on the `*big.Int` serial is modelled on an unbounded integer.
- Instants are integer nanoseconds with no time zone.
- `AddDays` assumes a day is exactly 86400 seconds. `AddDate(0, 0, 30)` on a local time can differ by a daylight-saving shift.
- `TimeMath.HoursUntil` is truncating integer division of the nanosecond difference by 3.6e12. `Duration.Hours()` goes through float64. The two can differ only when the difference exceeds 4096 hours and lies within a few nanoseconds of a whole hour. The window grows with the magnitude of the difference, to under a microsecond at the int64 bound. For a certificate that expired more than 4096 hours ago, the hour count in the message may therefore differ by one. Such a certificate is not expected to reach the rule: the default `tls.Config` (pkg/ssl/ssl.go:160) verifies the chains against the current time, so an expired certificate fails the handshake and gives a dial error instead of a verified chain.
- `records` is a field of type `seq<string>`. The queue `hosts` is a `seq<string>` replaced as a whole, where the source uses a channel.
- `Forwarded` reads the record's first character, where the source tests its first byte. The two agree because '#' is a single byte in UTF-8.
- `Output` (pkg/ssl/ssl.go:120-122) only prints the records.
- pkg/workwx/workwx.go, pkg/workwx/media.go, pkg/workwx/reponse.go, pkg/aliyun/dns.go, config/config.go and cmd/main.go are left out. They are an HTTP client, an SDK wrapper, plain configuration structs and wiring.
- The certificate's validity start (`NotBefore`) is not read by the checker, so it is not part of the model.
- No lemma states how many newline characters the report holds. Line count is stated instead, as the number of lines in `ReportLines`, which `Report` joins.
