/**
 * The decisions of `check_certificate` once the certificate, the private key and the
 * output of `openssl verify` have been read: the name match with a one-label wildcard,
 * the wrong-domain message, the order of the checks, and the expiry classification.
 */
module Certs {
  import opened Wrappers
  import opened Text
  import opened Sorting

  // ------------------------------------------------------------------ name match

  /**
   * `re.sub("^[^\.]+", "*", domain)`: the leading run of characters other than '.' becomes
   * "*"; a domain that is empty or starts with '.' has no such run and is unchanged.
   */
  function Wildcard(domain: string): string {
    var k := IndexOf(domain, '.');
    if k == 0 then domain else "*" + domain[k..]
  }

  /** `domain` is `first + rest` with `first` its whole first label: not empty, no '.', followed by '.' or nothing. */
  predicate FirstLabelIs(domain: string, first: string) {
    first != [] && '.' !in first && |first| <= |domain| && domain[..|first|] == first
    && (|first| == |domain| || domain[|first|] == '.')
  }

  /** A wildcard name covering `domain`: "*" in place of the domain's first label. */
  predicate CoversByWildcard(name: string, domain: string) {
    exists i :: 0 < i <= |domain| && FirstLabelIs(domain, domain[..i]) && name == "*" + domain[i..]
  }

  /** The first label, when there is one, ends at the first '.'. */
  lemma FirstLabelEnd(domain: string, i: nat)
    requires 0 < i <= |domain| && FirstLabelIs(domain, domain[..i])
    ensures IndexOf(domain, '.') == i
  {
    assert forall j :: 0 <= j < i ==> domain[j] == domain[..i][j];
  }

  /** The domain starts with a label: it is not empty and does not start with '.'. */
  predicate HasFirstLabel(domain: string) {
    domain != [] && domain[0] != '.'
  }

  /** For a domain that starts with a label, its wildcard form is exactly the name covering it with "*" for that label. */
  lemma WildcardMeans(name: string, domain: string)
    ensures CoversByWildcard(name, domain) <==> HasFirstLabel(domain) && name == Wildcard(domain)
  {
    var k := IndexOf(domain, '.');
    if CoversByWildcard(name, domain) {
      var i :| 0 < i <= |domain| && FirstLabelIs(domain, domain[..i]) && name == "*" + domain[i..];
      FirstLabelEnd(domain, i);
      assert domain[0] != '.' by {
        assert domain[..i][0] == domain[0];
      }
    }
    if HasFirstLabel(domain) && name == Wildcard(domain) {
      assert 0 < k;
      assert forall j :: 0 <= j < k ==> domain[..k][j] == domain[j];
      assert FirstLabelIs(domain, domain[..k]);
    }
  }

  /** The names a certificate is for: its common name, when it has one, and its DNS subject alternative names. */
  function CertificateNames(commonName: Option<string>, altNames: seq<string>): set<string> {
    (if commonName.Some? then {commonName.value} else {}) + set n | n in altNames
  }

  /** `domain not in certificate_names and wildcard_domain not in certificate_names`, negated. */
  predicate NameAccepted(domain: string, names: set<string>) {
    domain in names || Wildcard(domain) in names
  }

  /**
   * A domain is accepted exactly when a name equals it or covers it with a wildcard for its
   * whole first label; a wildcard deeper in the name, or for part of a label, never matches.
   */
  lemma NameAcceptedMeans(domain: string, names: set<string>)
    ensures NameAccepted(domain, names) <==>
      exists n :: n in names && (n == domain || CoversByWildcard(n, domain))
  {
    if Wildcard(domain) in names && HasFirstLabel(domain) {
      WildcardMeans(Wildcard(domain), domain);
    }
    forall n | n in names && CoversByWildcard(n, domain)
      ensures NameAccepted(domain, names)
    {
      WildcardMeans(n, domain);
    }
  }

  /** The wildcard form of a wildcard form is itself. */
  lemma WildcardIdempotent(domain: string)
    ensures Wildcard(Wildcard(domain)) == Wildcard(domain)
  {
    var k := IndexOf(domain, '.');
    if k != 0 {
      var w := "*" + domain[k..];
      assert w[0] == '*';
      if k < |domain| {
        assert w[1] == '.';
      }
      assert IndexOf(w, '.') == 1;
      assert w[1..] == domain[k..];
    }
  }

  // ----------------------------------------------------------- wrong-domain message

  /** The strings of `s`, each once, in order of first occurrence. */
  function Dedup(s: seq<string>): (r: seq<string>)
    ensures Distinct(r)
    ensures forall x :: x in r <==> x in s
  {
    if s == [] then []
    else
      var init := Dedup(s[..|s| - 1]);
      var last := s[|s| - 1];
      assert forall x :: x in s <==> x in s[..|s| - 1] || x == last;
      if last in init then init else init + [last]
  }

  /** A sequence without repetition has each of its elements once. */
  lemma {:induction false} DistinctCounts(s: seq<string>, x: string)
    requires Distinct(s)
    ensures multiset(s)[x] == if x in s then 1 else 0
  {
    if s != [] {
      assert s == [s[0]] + s[1..];
      DistinctCounts(s[1..], x);
      assert s[0] !in s[1..] by {
        forall j | 0 <= j < |s[1..]|
          ensures s[1..][j] != s[0]
        {
          assert s[1..][j] == s[j + 1];
        }
      }
    }
  }

  /** Sequences without repetition holding the same strings hold them equally often. */
  lemma SameElementsSameMultiset(a: seq<string>, b: seq<string>)
    requires Distinct(a) && Distinct(b)
    requires forall x :: x in a <==> x in b
    ensures multiset(a) == multiset(b)
  {
    forall x
      ensures multiset(a)[x] == multiset(b)[x]
    {
      DistinctCounts(a, x);
      DistinctCounts(b, x);
    }
  }

  /** The common name, when there is one, then the alternative names. */
  function NameList(commonName: Option<string>, altNames: seq<string>): seq<string> {
    (if commonName.Some? then [commonName.value] else []) + altNames
  }

  lemma NameListNames(commonName: Option<string>, altNames: seq<string>)
    ensures forall x :: x in NameList(commonName, altNames) <==> x in CertificateNames(commonName, altNames)
  {
  }

  /** `sorted(certificate_names)`: the names, each once, in the order `sorted` gives strings. */
  function SortedNames(commonName: Option<string>, altNames: seq<string>): seq<string> {
    SortStrings(Dedup(NameList(commonName, altNames)))
  }

  /** The sorted names list every certificate name once, in order. */
  lemma SortedNamesListed(commonName: Option<string>, altNames: seq<string>)
    ensures var r := SortedNames(commonName, altNames);
      && Sorted(r, LexLe)
      && Distinct(r)
      && (forall x :: x in r <==> x in CertificateNames(commonName, altNames))
  {
    var d := Dedup(NameList(commonName, altNames));
    var r := SortStrings(d);
    NameListNames(commonName, altNames);
    PermutationElements(r, d);
    SortedDistinct(d, r);
  }

  lemma PermutationElements(r: seq<string>, d: seq<string>)
    requires multiset(r) == multiset(d)
    ensures forall x :: x in r <==> x in d
  {
    assert forall x :: x in r <==> x in multiset(r);
    assert forall x :: x in d <==> x in multiset(d);
  }

  /** A permutation of a sequence without repetition has none either. */
  lemma SortedDistinct(d: seq<string>, r: seq<string>)
    requires Distinct(d) && multiset(r) == multiset(d)
    ensures Distinct(r)
  {
    forall i, j | 0 <= i < j < |r|
      ensures r[i] != r[j]
    {
      DistinctCounts(d, r[i]);
      if r[i] == r[j] {
        CountedTwice(r, i, j);
      }
    }
  }

  lemma CountedTwice(r: seq<string>, i: nat, j: nat)
    requires i < j < |r| && r[i] == r[j]
    ensures multiset(r)[r[i]] >= 2
  {
    assert r == r[..j] + r[j..];
    assert r[j..][0] == r[j] && r[..j][i] == r[i];
    assert multiset(r) == multiset(r[..j]) + multiset(r[j..]);
  }

  /** The message does not depend on the order or repetition of the names in the certificate. */
  lemma SortedNamesIgnoreOrder(cn1: Option<string>, alt1: seq<string>, cn2: Option<string>, alt2: seq<string>)
    requires CertificateNames(cn1, alt1) == CertificateNames(cn2, alt2)
    ensures SortedNames(cn1, alt1) == SortedNames(cn2, alt2)
  {
    var d1 := Dedup(NameList(cn1, alt1));
    var d2 := Dedup(NameList(cn2, alt2));
    NameListNames(cn1, alt1);
    NameListNames(cn2, alt2);
    SameElementsSameMultiset(d1, d2);
    SortStringsIgnoresOrder(d1, d2);
  }

  // --------------------------------------------------------------------- expiry

  /** Which of the four expiry texts is used. */
  datatype ExpiryBucket = ExactDays | UnderTwoWeeks | UnderAMonth | Later

  function Bucket(days: int, roundedTime: bool): ExpiryBucket {
    if !roundedTime || days < 7 then ExactDays
    else if days <= 14 then UnderTwoWeeks
    else if days <= 31 then UnderAMonth
    else Later
  }

  function BucketRank(b: ExpiryBucket): nat {
    match b
    case ExactDays => 0
    case UnderTwoWeeks => 1
    case UnderAMonth => 2
    case Later => 3
  }

  /** `expiry_info`: `date` is the expiry date already formatted. */
  function ExpiryInfo(days: int, roundedTime: bool, date: string): string {
    match Bucket(days, roundedTime)
    case ExactDays => "The certificate expires in " + IntToString(days) + " days on " + date + "."
    case UnderTwoWeeks => "The certificate expires in less than two weeks, on " + date + "."
    case UnderAMonth => "The certificate expires in less than a month, on " + date + "."
    case Later => "The certificate expires on " + date + "."
  }

  /** With rounded times a later expiry never gets an earlier bucket. */
  lemma BucketMonotone(m: int, n: int)
    requires m <= n
    ensures BucketRank(Bucket(m, true)) <= BucketRank(Bucket(n, true))
  {
  }

  /**
   * The status `check_certificate` returns, one alternative per message; `Accepted` and
   * `SelfSigned` are the special "OK" and "SELF-SIGNED" codes its callers compare against.
   */
  datatype Status =
    | FileProblem(message: string)
    | WrongDomain(names: seq<string>)
    | NotAPrivateKey(keyPath: string)
    | KeyMismatch(keyPath: string)
    | SelfSigned
    | Accepted
    | OutsideValidity(validFrom: string, validTo: string)
    | MissingIntermediate(verifyOutput: string)
    | VerifyFailed
    | ExpiringSoon(expiry: string)

  /** The status as `check_certificate` returns it, with the details that go with it. */
  datatype CertStatus = CertStatus(status: Status, details: Option<string>)

  /** The end of `check_certificate` once `openssl verify` succeeded. */
  function ExpiryStatus(days: int, warnIfExpiringSoon: bool, roundedTime: bool, date: string): CertStatus {
    var info := ExpiryInfo(days, roundedTime, date);
    if days <= 31 && warnIfExpiringSoon then CertStatus(ExpiringSoon(info), None)
    else CertStatus(Accepted, Some(info))
  }

  /** The warning is given exactly within 31 days when asked for; otherwise the status is "OK" with the expiry text. */
  lemma ExpiryStatusMeans(days: int, warnIfExpiringSoon: bool, roundedTime: bool, date: string)
    ensures var r := ExpiryStatus(days, warnIfExpiringSoon, roundedTime, date);
      && (r.status.ExpiringSoon? <==> days <= 31 && warnIfExpiringSoon)
      && (r.status.Accepted? <==> !(days <= 31 && warnIfExpiringSoon))
      && (r.status.Accepted? ==> r.details == Some(ExpiryInfo(days, roundedTime, date)))
      && (r.status.ExpiringSoon? ==> r.status.expiry == ExpiryInfo(days, roundedTime, date))
  {
  }

  /** A warning within 31 days never uses the plain text, and the exact count only below a week when times are rounded. */
  lemma SoonWarningBuckets(days: int, roundedTime: bool)
    requires days <= 31
    ensures Bucket(days, roundedTime) != Later
    ensures roundedTime && Bucket(days, roundedTime) == ExactDays ==> days < 7
  {
  }

  // ------------------------------------------------------------ check_certificate

  /** What was read from the certificate file: the first certificate, or the loader's error message. */
  datatype Loaded = LoadFailed(message: string) | Loaded(cert: Certificate)

  /**
   * The first certificate of the chain: its common name and DNS alternative names, whether
   * issuer and subject are equal, whether it is valid now, the whole days until it expires,
   * and its validity bounds and expiry date as the report formats them.
   */
  datatype Certificate = Certificate(commonName: Option<string>, altNames: seq<string>,
                                     selfIssued: bool, validNow: bool, daysLeft: int,
                                     validFrom: string, validTo: string, expiryDate: string)

  /** The private key file given: its path, whether it holds an RSA key, and whether that key is the certificate's. */
  datatype PrivateKey = PrivateKey(path: string, isRsaKey: bool, matchesCertificate: bool)

  /** `openssl verify`'s exit status and output. */
  datatype Verification = Verification(retcode: int, output: string)

  /** The name and key checks a loaded certificate must pass before anything else is looked at. */
  predicate PassesIdentity(domain: Option<string>, cert: Certificate, privateKey: Option<PrivateKey>) {
    && (domain.Some? ==> NameAccepted(domain.value, CertificateNames(cert.commonName, cert.altNames)))
    && (privateKey.Some? ==> privateKey.value.isRsaKey && privateKey.value.matchesCertificate)
  }

  /** The first of the name and key checks that fails; `None` when both pass. */
  function IdentityProblem(domain: Option<string>, cert: Certificate, privateKey: Option<PrivateKey>): (r: Option<Status>)
    ensures r.None? <==> PassesIdentity(domain, cert, privateKey)
    ensures r.Some? ==> !r.value.Accepted? && !r.value.SelfSigned?
  {
    if domain.Some? && !NameAccepted(domain.value, CertificateNames(cert.commonName, cert.altNames)) then
      Some(WrongDomain(SortedNames(cert.commonName, cert.altNames)))
    else if privateKey.Some? && !privateKey.value.isRsaKey then Some(NotAPrivateKey(privateKey.value.path))
    else if privateKey.Some? && !privateKey.value.matchesCertificate then Some(KeyMismatch(privateKey.value.path))
    else None
  }

  /**
   * The checks after the name and key: self-issue, then, unless only the domain is asked
   * about, the validity period, `openssl verify`'s verdict and the expiry.
   */
  function ValidityStatus(cert: Certificate, verification: Verification, warnIfExpiringSoon: bool,
                          roundedTime: bool, justCheckDomain: bool): CertStatus
  {
    if cert.selfIssued then CertStatus(SelfSigned, None)
    else if justCheckDomain then CertStatus(Accepted, None)
    else if !cert.validNow then CertStatus(OutsideValidity(cert.validFrom, cert.validTo), None)
    else if Contains(verification.output, "self signed") then CertStatus(SelfSigned, None)
    else if verification.retcode != 0 then
      if Contains(verification.output, "unable to get local issuer certificate") then
        CertStatus(MissingIntermediate(verification.output), None)
      else CertStatus(VerifyFailed, Some(Strip(verification.output)))
    else ExpiryStatus(cert.daysLeft, warnIfExpiringSoon, roundedTime, cert.expiryDate)
  }

  /**
   * `check_certificate`: each check in turn, the first that fails deciding the status.
   * `domain` and `privateKey` are `None` when the caller asks for no name or key check.
   */
  function CheckCertificate(domain: Option<string>, loaded: Loaded, privateKey: Option<PrivateKey>,
                            verification: Verification, warnIfExpiringSoon: bool, roundedTime: bool,
                            justCheckDomain: bool): CertStatus
  {
    if loaded.LoadFailed? then CertStatus(FileProblem(loaded.message), None)
    else
      match IdentityProblem(domain, loaded.cert, privateKey)
      case Some(problem) => CertStatus(problem, None)
      case None => ValidityStatus(loaded.cert, verification, warnIfExpiringSoon, roundedTime, justCheckDomain)
  }

  /**
   * "OK" is returned exactly for a certificate that loads, is for the domain, matches the
   * key and is not self-issued, and then either only the domain was asked about, or it is
   * valid now, `openssl verify` accepts it without mentioning self-signing, and it is not
   * due for the expiring-soon warning.
   */
  lemma OkMeans(domain: Option<string>, loaded: Loaded, privateKey: Option<PrivateKey>,
                verification: Verification, warnIfExpiringSoon: bool, roundedTime: bool, justCheckDomain: bool)
    ensures CheckCertificate(domain, loaded, privateKey, verification, warnIfExpiringSoon, roundedTime, justCheckDomain).status.Accepted?
      <==>
        && loaded.Loaded?
        && PassesIdentity(domain, loaded.cert, privateKey)
        && !loaded.cert.selfIssued
        && (justCheckDomain ||
              (&& loaded.cert.validNow
               && !Contains(verification.output, "self signed")
               && verification.retcode == 0
               && !(loaded.cert.daysLeft <= 31 && warnIfExpiringSoon)))
  {
    if loaded.Loaded? {
      ExpiryStatusMeans(loaded.cert.daysLeft, warnIfExpiringSoon, roundedTime, loaded.cert.expiryDate);
    }
  }

  /**
   * "SELF-SIGNED" is returned exactly for a loaded certificate that passes the name and key
   * checks and is self-issued, or, when more than the domain is checked, is valid now and
   * makes `openssl verify` mention self-signing.
   */
  lemma SelfSignedMeans(domain: Option<string>, loaded: Loaded, privateKey: Option<PrivateKey>,
                        verification: Verification, warnIfExpiringSoon: bool, roundedTime: bool, justCheckDomain: bool)
    ensures CheckCertificate(domain, loaded, privateKey, verification, warnIfExpiringSoon, roundedTime, justCheckDomain).status.SelfSigned?
      <==>
        && loaded.Loaded?
        && PassesIdentity(domain, loaded.cert, privateKey)
        && (loaded.cert.selfIssued ||
              (!justCheckDomain && loaded.cert.validNow && Contains(verification.output, "self signed")))
  {
    if loaded.Loaded? {
      ExpiryStatusMeans(loaded.cert.daysLeft, warnIfExpiringSoon, roundedTime, loaded.cert.expiryDate);
    }
  }

  /** The text `check_certificate` returns for each status. */
  function StatusText(s: Status): string {
    match s
    case FileProblem(m) => "There is a problem with the certificate file: " + m
    case WrongDomain(names) => "The certificate is for the wrong domain name. It is for " + Join(names, ", ") + "."
    case NotAPrivateKey(path) => "The private key file " + path + " is not a private key file."
    case KeyMismatch(path) => "The certificate does not correspond to the private key at " + path + "."
    case SelfSigned => "SELF-SIGNED"
    case Accepted => "OK"
    case OutsideValidity(from, to) => "The certificate has expired or is not yet valid. It is valid from " + from + " to " + to + "."
    case MissingIntermediate(out) =>
      "The certificate is missing an intermediate chain or the intermediate chain is incorrect or incomplete. (" + out + ")"
    case VerifyFailed => "There is a problem with the SSL certificate."
    case ExpiringSoon(info) => "The certificate is expiring soon: " + info
  }

  /** A certificate for another name is refused with its names listed, whatever else is wrong with it. */
  lemma WrongDomainFirst(domain: string, cert: Certificate, privateKey: Option<PrivateKey>,
                         verification: Verification, warnIfExpiringSoon: bool, roundedTime: bool, justCheckDomain: bool)
    requires forall n | n in CertificateNames(cert.commonName, cert.altNames) ::
      n != domain && !CoversByWildcard(n, domain)
    ensures CheckCertificate(Some(domain), Loaded(cert), privateKey, verification, warnIfExpiringSoon, roundedTime, justCheckDomain)
      == CertStatus(WrongDomain(SortedNames(cert.commonName, cert.altNames)), None)
  {
    NameAcceptedMeans(domain, CertificateNames(cert.commonName, cert.altNames));
  }

  /** A wildcard certificate for the parent domain passes the name check for any one-label child. */
  lemma WildcardCertificateAccepted(first: string, parent: string, commonName: Option<string>, altNames: seq<string>)
    requires first != [] && '.' !in first
    requires "*." + parent in CertificateNames(commonName, altNames)
    ensures NameAccepted(first + "." + parent, CertificateNames(commonName, altNames))
  {
    var domain := first + "." + parent;
    var i := |first|;
    assert domain[..i] == first;
    assert domain[i] == '.';
    assert domain[i..] == "." + parent;
    assert FirstLabelIs(domain, domain[..i]);
    assert CoversByWildcard("*." + parent, domain);
    NameAcceptedMeans(domain, CertificateNames(commonName, altNames));
  }
}
