/**
 * The DNS checks' decisions over answers already fetched: how `query_dns` turns a
 * resolver response into one string, which zones contain a domain, the nameserver glue,
 * address, reverse-DNS and TLSA verdicts for the box's own hostname, the expected
 * nameserver set of a zone, the MX verdict with its address-record fallback, and the
 * comparison of the published DS record with the locally generated ones.
 */
module Dns {
  import opened Wrappers
  import opened Text
  import opened Sorting

  /** Which of `print_ok`, `print_warning` and `print_error` reports a check. */
  datatype Severity = OkLine | WarningLine | ErrorLine

  // ---------------------------------------------------------------- query_dns

  /** A query name: a string, or a resolver name object (as for reverse lookups), which is already absolute. */
  datatype QName = StrName(name: string) | NameObject(name: string)

  /** The name handed to the resolver: a string gets a trailing '.'; a name object is passed unchanged. */
  function Qualify(q: QName): string {
    if q.StrName? then q.name + "." else q.name
  }

  /** Every query is made for an absolute name, so the resolver never appends the local domain. */
  lemma QueriesAreAbsolute(q: QName)
    requires q.NameObject? ==> EndsWith(q.name, ".")
    ensures EndsWith(Qualify(q), ".")
    ensures q.StrName? ==> Qualify(q)[..|q.name|] == q.name
  {
  }

  /**
   * What the resolver did: the answer records, as text; no answer (no nameservers, no
   * such domain, or no records of the type); or a timeout.
   */
  datatype Response = Answers(records: seq<string>) | NoAnswer | Timeout

  /** Each record without its trailing dots. */
  function StripDots(records: seq<string>): (r: seq<string>)
    ensures |r| == |records|
  {
    seq(|records|, i requires 0 <= i < |records| => RStrip(records[i], '.'))
  }

  /**
   * `query_dns`'s answer: `nxdomain` when there is no answer, "[timeout]" on a timeout,
   * and otherwise the records without trailing dots, sorted, joined with "; ".
   */
  function QueryDns(response: Response, nxdomain: Option<string>): Option<string>
  {
    match response
    case NoAnswer => nxdomain
    case Timeout => Some("[timeout]")
    case Answers(records) => Some(Join(SortStrings(StripDots(records)), "; "))
  }

  /** `query_dns(qname, ...)` with `resolve` standing for the resolver's lookup of one record type. */
  function Query(resolve: string -> Response, q: QName, nxdomain: Option<string>): Option<string> {
    QueryDns(resolve(Qualify(q)), nxdomain)
  }

  lemma StripDotsAppend(a: seq<string>, b: seq<string>)
    ensures StripDots(a + b) == StripDots(a) + StripDots(b)
  {
  }

  /** Stripping dots record by record keeps two collections of records with the same elements alike. */
  lemma {:induction false} StripDotsPermutation(a: seq<string>, b: seq<string>)
    requires multiset(a) == multiset(b)
    ensures multiset(StripDots(a)) == multiset(StripDots(b))
    decreases |a|
  {
    if a != [] {
      assert a[0] in multiset(b);
      var j :| 0 <= j < |b| && b[j] == a[0];
      var rest := b[..j] + b[j + 1..];
      RemoveAt(b, j);
      assert multiset(a) == multiset{a[0]} + multiset(a[1..]) by {
        assert a == [a[0]] + a[1..];
      }
      assert multiset(rest) == multiset(b) - multiset{a[0]};
      assert multiset(a[1..]) == multiset(a) - multiset{a[0]};
      StripDotsPermutation(a[1..], rest);
      StripDotsAt(b, j);
      StripDotsAt(a, 0);
      assert a[..0] + a[1..] == a[1..];
    }
  }

  lemma RemoveAt(b: seq<string>, j: nat)
    requires j < |b|
    ensures multiset(b) == multiset(b[..j] + b[j + 1..]) + multiset{b[j]}
  {
    assert b == b[..j] + [b[j]] + b[j + 1..];
  }

  lemma StripDotsAt(b: seq<string>, j: nat)
    requires j < |b|
    ensures multiset(StripDots(b)) == multiset(StripDots(b[..j] + b[j + 1..])) + multiset{RStrip(b[j], '.')}
  {
    var r := StripDots(b);
    assert r == StripDots(b[..j] + b[j + 1..])[..j] + [r[j]] + StripDots(b[..j] + b[j + 1..])[j..];
    assert StripDots(b[..j] + b[j + 1..]) == StripDots(b[..j] + b[j + 1..])[..j] + StripDots(b[..j] + b[j + 1..])[j..];
  }

  /** The order the resolver returns the records in does not change `query_dns`'s answer. */
  lemma AnswerOrderIrrelevant(a: seq<string>, b: seq<string>, nxdomain: Option<string>)
    requires multiset(a) == multiset(b)
    ensures QueryDns(Answers(a), nxdomain) == QueryDns(Answers(b), nxdomain)
  {
    StripDotsPermutation(a, b);
    SortStringsIgnoresOrder(StripDots(a), StripDots(b));
  }

  /** A record with a trailing dot reads as the same record without it. */
  lemma TrailingDotIrrelevant(records: seq<string>, i: nat, nxdomain: Option<string>)
    requires i < |records|
    ensures QueryDns(Answers(records[i := records[i] + "."]), nxdomain) == QueryDns(Answers(records), nxdomain)
  {
    var s := records[i];
    assert (s + ".")[..|s|] == s;
    assert StripDots(records[i := s + "."]) == StripDots(records);
  }

  /** A single record is answered as itself, without its trailing dots. */
  lemma SingleAnswer(record: string, nxdomain: Option<string>)
    ensures QueryDns(Answers([record]), nxdomain) == Some(RStrip(record, '.'))
  {
    assert StripDots([record]) == [RStrip(record, '.')];
    assert SortStrings([RStrip(record, '.')]) == [RStrip(record, '.')];
  }

  /** The answer with no records, with no answer, and on a timeout. */
  lemma NoRecords(nxdomain: Option<string>)
    ensures QueryDns(Answers([]), nxdomain) == Some("")
    ensures QueryDns(NoAnswer, nxdomain) == nxdomain
    ensures QueryDns(Timeout, nxdomain) == Some("[timeout]")
  {
    assert SortStrings([]) == [];
  }

  // ------------------------------------------------------------ zone containment

  /** The zone `zone` holds `domain`: the same name, or `domain` ends with "." followed by the zone. */
  predicate InZone(zone: string, domain: string) {
    zone == domain || EndsWith(domain, "." + zone)
  }

  lemma SuffixOfSuffix(a: string, b: string, c: string)
    requires EndsWith(c, b) && EndsWith(b, a)
    ensures EndsWith(c, a)
  {
    assert c[|c| - |a|..] == c[|c| - |b|..][|b| - |a|..];
  }

  /** A zone inside a zone that holds a domain is itself inside... : containment is transitive. */
  lemma InZoneTransitive(a: string, b: string, c: string)
    requires InZone(a, b) && InZone(b, c)
    ensures InZone(a, c)
  {
    if a != b && b != c {
      SuffixOfSuffix("." + a, b, "." + b);
      SuffixOfSuffix("." + a, "." + b, c);
    }
  }

  /** A zone never holds a name that merely ends with its text: only whole labels count. */
  lemma InZoneWholeLabels(zone: string, domain: string)
    requires InZone(zone, domain) && zone != domain
    ensures |domain| > |zone| && domain[|domain| - |zone| - 1] == '.'
  {
    assert domain[|domain| - |zone| - 1] == ("." + zone)[0];
  }

  /** The label boundary in action: "example.com" does not hold "badexample.com". */
  lemma InZoneExample()
    ensures !InZone("example.com", "badexample.com")
    ensures InZone("example.com", "mail.example.com")
  {
    assert "mail.example.com"[4..] == ".example.com";
    assert "badexample.com"[2..] != ".example.com" by {
      assert "badexample.com"[2..][0] == 'd';
    }
  }

  /** The zones that hold `domain` and have a DS record at the registrar, in order. */
  function DsZones(domain: string, zones: seq<string>, ds: string -> Option<string>): seq<string>
  {
    if zones == [] then []
    else
      var z := zones[|zones| - 1];
      DsZones(domain, zones[..|zones| - 1], ds) + (if InZone(z, domain) && ds(z).Some? then [z] else [])
  }

  /** A zone is picked exactly when it is listed, holds the domain and has a DS record. */
  lemma {:induction false} DsZonesMembers(domain: string, zones: seq<string>, ds: string -> Option<string>)
    ensures forall z :: z in DsZones(domain, zones, ds) <==> z in zones && InZone(z, domain) && ds(z).Some?
    decreases |zones|
  {
    if zones != [] {
      var init := zones[..|zones| - 1];
      DsZonesMembers(domain, init, ds);
      assert zones == init + [zones[|zones| - 1]];
    }
  }

  /**
   * The first loop of `check_primary_hostname_dns`: every zone that holds `domain` and
   * has a DS record (`ds` is `query_dns(zone, "DS", nxdomain=None)`) sets `has_dnssec`
   * and has its DNSSEC checked; `checked` lists those zones in order.
   */
  method FindDnssecZones(domain: string, zones: seq<string>, ds: string -> Option<string>)
    returns (hasDnssec: bool, checked: seq<string>)
    ensures checked == DsZones(domain, zones, ds)
    ensures hasDnssec <==> checked != []
  {
    hasDnssec := false;
    checked := [];
    for i := 0 to |zones|
      invariant checked == DsZones(domain, zones[..i], ds)
      invariant hasDnssec <==> checked != []
    {
      var zone := zones[i];
      assert zones[..i + 1][..i] == zones[..i];
      if zone == domain || EndsWith(domain, "." + zone) {
        if ds(zone).Some? {
          hasDnssec := true;
          checked := checked + [zone];
        }
      }
    }
    assert zones[..|zones|] == zones;
  }

  // ------------------------------------------------- check_primary_hostname_dns

  /**
   * The glue check: `ns1`, `ns2` are the addresses of ns1/ns2 of the box's hostname,
   * `ip` that of the hostname itself. Both nameservers at the box's address is fine; a
   * hostname that resolves to the box with other glue is a warning; anything else an error.
   */
  function GlueSeverity(ns1: string, ns2: string, ip: string, publicIp: string): Severity {
    if ns1 + "/" + ns2 == publicIp + "/" + publicIp then OkLine
    else if ip == publicIp then WarningLine
    else ErrorLine
  }

  /** The joined comparison is the same as comparing each nameserver, as addresses hold no '/'. */
  lemma GlueIff(ns1: string, ns2: string, ip: string, publicIp: string)
    requires '/' !in ns1 && '/' !in publicIp
    ensures GlueSeverity(ns1, ns2, ip, publicIp) == OkLine <==> ns1 == publicIp && ns2 == publicIp
  {
    var s := ns1 + "/" + ns2;
    var t := publicIp + "/" + publicIp;
    if s == t {
      FirstSlash(ns1, ns2);
      FirstSlash(publicIp, publicIp);
      assert ns1 == s[..|ns1|] == t[..|publicIp|] == publicIp;
      assert ns2 == s[|ns1| + 1..] == t[|publicIp| + 1..] == publicIp;
    }
  }

  lemma FirstSlash(x: string, y: string)
    requires '/' !in x
    ensures IndexOf(x + "/" + y, '/') == |x|
  {
    var s := x + "/" + y;
    assert s[|x|] == '/';
    assert forall j :: 0 <= j < |x| ==> s[j] == x[j];
  }

  /** The verdicts of `check_primary_hostname_dns` after its DNSSEC loop; `tlsa` is `None` when nothing is reported. */
  datatype PrimaryChecks = PrimaryChecks(glue: Severity, address: Severity, reverseDns: Severity, tlsa: Option<Severity>)

  /**
   * `check_primary_hostname_dns`: the glue, the hostname's address, the reverse DNS of
   * the box's address (`rdns`), and the TLSA record for incoming mail (`tlsa`, `None`
   * when not set) against the one built for the box.
   */
  function PrimaryHostnameChecks(domain: string, publicIp: string, ip: string, ns1: string, ns2: string,
                                 rdns: string, tlsa: Option<string>, tlsaExpected: string, hasDnssec: bool): PrimaryChecks
  {
    PrimaryChecks(
      GlueSeverity(ns1, ns2, ip, publicIp),
      if ip == publicIp then OkLine else ErrorLine,
      if rdns == domain then OkLine else ErrorLine,
      if tlsa == Some(tlsaExpected) then Some(OkLine)
      else if tlsa.None? then (if hasDnssec then Some(WarningLine) else None)
      else Some(ErrorLine))
  }

  /**
   * The glue warning is only given when the hostname resolves to the box; an unset TLSA
   * record is only mentioned when DNSSEC is on, and then as a warning.
   */
  lemma PrimaryChecksConsistent(domain: string, publicIp: string, ip: string, ns1: string, ns2: string,
                                rdns: string, tlsa: Option<string>, tlsaExpected: string, hasDnssec: bool)
    ensures var c := PrimaryHostnameChecks(domain, publicIp, ip, ns1, ns2, rdns, tlsa, tlsaExpected, hasDnssec);
      && (c.glue == WarningLine ==> c.address == OkLine)
      && (c.glue == ErrorLine ==> c.address == ErrorLine)
      && (c.tlsa.None? <==> tlsa.None? && !hasDnssec)
      && (c.tlsa == Some(OkLine) <==> tlsa == Some(tlsaExpected))
      && (c.address == OkLine <==> ip == publicIp)
      && (c.reverseDns == OkLine <==> rdns == domain)
  {
  }

  // -------------------------------------------------------------- check_dns_zone

  /** `get_secondary_dns(...) or "ns2." + hostname`: an unset or empty custom secondary falls back. */
  function SecondaryNs(primaryHostname: string, custom: Option<string>): string {
    if custom.Some? && custom.value != "" then custom.value else "ns2." + primaryHostname
  }

  /** The nameservers a zone should have, sorted and joined as `query_dns` would answer. */
  function CorrectNs(primaryHostname: string, custom: Option<string>): string {
    Join(SortStrings(["ns1." + primaryHostname, SecondaryNs(primaryHostname, custom)]), "; ")
  }

  /** Nameservers as expected (compared ignoring case): ok; else a warning if the domain resolves to the box, else an error. */
  function NsSeverity(existing: string, correct: string, ip: string, publicIp: string): Severity {
    if Lower(existing) == Lower(correct) then OkLine
    else if ip == publicIp then WarningLine
    else ErrorLine
  }

  lemma LexLeNs(p: string)
    ensures LexLe("ns1." + p, "ns2." + p)
    ensures "ns1." + p != "ns2." + p
  {
    var a := "ns1." + p;
    var b := "ns2." + p;
    assert a[0] == b[0] && a[1..][0] == b[1..][0] && a[1..][1..][0] != b[1..][1..][0];
    assert a[2] != b[2];
  }

  /** With the default secondary the expected set reads "ns1.<host>; ns2.<host>". */
  lemma DefaultNs(p: string)
    ensures CorrectNs(p, None) == "ns1." + p + "; " + "ns2." + p
  {
    var a := "ns1." + p;
    var b := "ns2." + p;
    LexLeNs(p);
    SortTwo(a, b);
    JoinTwo(a, b, "; ");
    AppendAssoc(a + "; ", "ns2.", p);
  }

  /** The case of the published nameserver names does not matter. */
  lemma NsIgnoresCase(existing: string, correct: string, ip: string, publicIp: string)
    ensures NsSeverity(Lower(existing), correct, ip, publicIp) == NsSeverity(existing, correct, ip, publicIp)
    ensures NsSeverity(existing, Lower(correct), ip, publicIp) == NsSeverity(existing, correct, ip, publicIp)
  {
    LowerIdempotent(existing);
    LowerIdempotent(correct);
  }

  /**
   * A zone whose published NS records are ns1 and ns2 of the box's hostname, in any order
   * and case, with or without trailing dots, is reported as set correctly.
   */
  lemma NsRecordsAccepted(p: string, records: seq<string>, ip: string, publicIp: string)
    requires p != [] && p[|p| - 1] != '.'
    requires multiset(records) == multiset(["ns1." + p + ".", "ns2." + p + "."])
    ensures QueryDns(Answers(records), None) == Some(CorrectNs(p, None))
  {
    var a := "ns1." + p;
    var b := "ns2." + p;
    AnswerOrderIrrelevant(records, [a + ".", b + "."], None);
    StripNsDots(p);
    DefaultNs(p);
  }

  lemma StripNsDots(p: string)
    requires p != [] && p[|p| - 1] != '.'
    ensures StripDots(["ns1." + p + ".", "ns2." + p + "."]) == ["ns1." + p, "ns2." + p]
  {
    RStripDot("ns1." + p);
    RStripDot("ns2." + p);
  }

  /** The published set in that form passes the case-insensitive comparison. */
  lemma NsAccepted(p: string, records: seq<string>, ip: string, publicIp: string)
    requires p != [] && p[|p| - 1] != '.'
    requires multiset(records) == multiset(["ns1." + p + ".", "ns2." + p + "."])
    ensures NsSeverity(QueryDns(Answers(records), None).value, CorrectNs(p, None), ip, publicIp) == OkLine
  {
    NsRecordsAccepted(p, records, ip, publicIp);
  }

  /** Dropping a trailing dot from a name that has exactly one. */
  lemma RStripDot(s: string)
    requires s != [] && s[|s| - 1] != '.'
    ensures RStrip(s + ".", '.') == s
  {
    assert (s + ".")[..|s|] == s;
  }

  // ------------------------------------------------------------------ check_dnssec

  /** The locally generated DS data: the last line's key tag and algorithm, and a digest per digest type. */
  datatype LocalDs = LocalDs(keyTag: string, alg: string, digests: map<string, string>)

  /**
   * One line of the zone's `.ds` file: its fifth tab-separated column, split on single
   * spaces into key tag, algorithm, digest type and digest. Fewer than five columns raise
   * `IndexError`; other than four fields raise `ValueError` when unpacked.
   */
  function DsFields(line: string): (r: Result<seq<string>>)
    ensures r.Ok? <==> |SplitOn(line, '\t')| >= 5 && |SplitOn(SplitOn(line, '\t')[4], ' ')| == 4
    ensures r.Err? ==> r.error == (if |SplitOn(line, '\t')| < 5 then IndexError else ValueError)
    ensures r.Ok? ==> |r.value| == 4 && r.value == SplitOn(SplitOn(line, '\t')[4], ' ')
    ensures r.Ok? ==> Join(r.value, " ") == SplitOn(line, '\t')[4]
    ensures r.Ok? ==> forall i :: 0 <= i < 4 ==> ' ' !in r.value[i]
  {
    var cols := SplitOn(line, '\t');
    if |cols| < 5 then Err(IndexError)
    else
      SplitOnSpec(cols[4], ' ');
      var f := SplitOn(cols[4], ' ');
      if |f| != 4 then Err(ValueError) else Ok(f)
  }

  /**
   * The local DS data after reading `lines` in order; the first bad line raises. The file
   * always has a line, so the starting key tag and algorithm are never the answer.
   */
  function DsFold(lines: seq<string>): Result<LocalDs>
  {
    if lines == [] then Ok(LocalDs("", "", map[]))
    else
      match DsFold(lines[..|lines| - 1])
      case Err(e) => Err(e)
      case Ok(d) => DsStep(d, lines[|lines| - 1])
  }

  /** Reading one more line: its key tag and algorithm replace the old ones, its digest is recorded. */
  function DsStep(d: LocalDs, line: string): Result<LocalDs> {
    match DsFields(line)
    case Err(e) => Err(e)
    case Ok(f) => Ok(LocalDs(f[0], f[1], d.digests[f[2] := f[3]]))
  }

  /**
   * The loop of `check_dnssec` over the zone's `.ds` file (`contents`, as read): each line
   * sets the key tag and algorithm and records its digest under its digest type.
   */
  method ReadLocalDs(contents: string) returns (r: Result<LocalDs>)
    ensures r == DsFold(SplitOn(Strip(contents), '\n'))
  {
    r := ReadDsLines(SplitOn(Strip(contents), '\n'));
  }

  /** The loop itself, over the file's lines. */
  method ReadDsLines(lines: seq<string>) returns (r: Result<LocalDs>)
    ensures r == DsFold(lines)
  {
    var digests: map<string, string> := map[];
    var keyTag := "";
    var alg := "";
    for i := 0 to |lines|
      invariant DsFold(lines[..i]) == Ok(LocalDs(keyTag, alg, digests))
    {
      DsFoldSnoc(lines, i);
      var fields := DsFields(lines[i]);
      if fields.Err? {
        DsFoldStops(lines, i + 1);
        return Err(fields.error);
      }
      var f := fields.value;
      keyTag, alg := f[0], f[1];
      digests := digests[f[2] := f[3]];
    }
    assert lines[..|lines|] == lines;
    r := Ok(LocalDs(keyTag, alg, digests));
  }

  lemma DsFoldSnoc(lines: seq<string>, i: nat)
    requires i < |lines|
    ensures DsFold(lines[..i + 1]) ==
      if DsFold(lines[..i]).Err? then DsFold(lines[..i]) else DsStep(DsFold(lines[..i]).value, lines[i])
  {
    assert lines[..i + 1][..i] == lines[..i];
  }

  /** Once the lines read so far have raised, the whole file raises the same. */
  lemma {:induction false} DsFoldStops(lines: seq<string>, i: nat)
    requires i <= |lines| && DsFold(lines[..i]).Err?
    ensures DsFold(lines) == DsFold(lines[..i])
    decreases |lines| - i
  {
    if i < |lines| {
      DsFoldSnoc(lines, i);
      DsFoldStops(lines, i + 1);
    } else {
      assert lines[..i] == lines;
    }
  }

  /** The digest type and digest of a line that parses. */
  function DigestType(line: string): string
    requires DsFields(line).Ok?
  {
    DsFields(line).value[2]
  }

  function Digest(line: string): string
    requires DsFields(line).Ok?
  {
    DsFields(line).value[3]
  }

  predicate AllParse(lines: seq<string>) {
    forall i :: 0 <= i < |lines| ==> DsFields(lines[i]).Ok?
  }

  /** The file reads exactly when every line parses; the key tag and algorithm are then the last line's. */
  lemma {:induction false} DsFoldOk(lines: seq<string>)
    ensures DsFold(lines).Ok? <==> AllParse(lines)
    ensures DsFold(lines).Ok? && lines != [] ==>
      var f := DsFields(lines[|lines| - 1]).value;
      DsFold(lines).value.keyTag == f[0] && DsFold(lines).value.alg == f[1]
    decreases |lines|
  {
    if lines != [] {
      var init := lines[..|lines| - 1];
      DsFoldOk(init);
      assert forall i :: 0 <= i < |init| ==> init[i] == lines[i];
    }
  }

  /** Reading one more line that parses records its digest under its type. */
  lemma DsFoldLast(lines: seq<string>)
    requires lines != [] && AllParse(lines)
    ensures AllParse(lines[..|lines| - 1])
    ensures DsFold(lines).Ok? && DsFold(lines[..|lines| - 1]).Ok?
    ensures var last := lines[|lines| - 1];
      DsFold(lines).value.digests == DsFold(lines[..|lines| - 1]).value.digests[DigestType(last) := Digest(last)]
  {
    var init := lines[..|lines| - 1];
    assert forall i :: 0 <= i < |init| ==> init[i] == lines[i];
    DsFoldOk(lines);
    DsFoldOk(init);
  }

  /** A digest type is present exactly when some line has it. */
  lemma {:induction false} DsFoldDigestTypes(lines: seq<string>)
    requires AllParse(lines)
    ensures DsFold(lines).Ok?
    ensures forall t :: t in DsFold(lines).value.digests <==> exists i :: 0 <= i < |lines| && DigestType(lines[i]) == t
    decreases |lines|
  {
    DsFoldOk(lines);
    if lines != [] {
      var init := lines[..|lines| - 1];
      DsFoldLast(lines);
      DsFoldDigestTypes(init);
      assert forall i :: 0 <= i < |init| ==> init[i] == lines[i];
    }
  }

  /** The digest of a type is that of the last line with that type: later lines overwrite earlier ones. */
  lemma {:induction false} DsFoldLastDigest(lines: seq<string>, i: nat)
    requires AllParse(lines) && i < |lines|
    requires forall j :: i < j < |lines| ==> DigestType(lines[j]) != DigestType(lines[i])
    ensures DsFold(lines).Ok?
    ensures DigestType(lines[i]) in DsFold(lines).value.digests
    ensures DsFold(lines).value.digests[DigestType(lines[i])] == Digest(lines[i])
    decreases |lines|
  {
    DsFoldLast(lines);
    if i < |lines| - 1 {
      var init := lines[..|lines| - 1];
      assert forall j :: 0 <= j < |init| ==> init[j] == lines[j];
      DsFoldLastDigest(init, i);
    }
  }

  /** What the registrar publishes looks like a DS record: a non-empty answer with exactly four space-separated fields. */
  predicate DsLooksValid(ds: Option<string>) {
    ds.Some? && ds.value != "" && |SplitOn(ds.value, ' ')| == 4
  }

  /** The outcome of comparing the published DS record with the local data. */
  datatype DsStatus = DsMatches | DsNotSet | DsIncorrect

  /**
   * The published record (`ds`, `None` when there is none) matches when it looks valid,
   * its key tag and algorithm are the local ones, and its digest is the local digest for
   * its digest type.
   */
  function CheckDs(local: LocalDs, ds: Option<string>): DsStatus {
    if DsLooksValid(ds) &&
      var f := SplitOn(ds.value, ' ');
      f[0] == local.keyTag && f[1] == local.alg && f[2] in local.digests && local.digests[f[2]] == f[3]
    then DsMatches
    else if ds.None? then DsNotSet
    else DsIncorrect
  }

  /** The DS record in presentation form: key tag, algorithm, digest type and digest, separated by single spaces. */
  function DsRecord(keyTag: string, alg: string, digestType: string, digest: string): string {
    Join([keyTag, alg, digestType, digest], " ")
  }

  /** Splitting at the first separator. */
  lemma SplitOnFirst(a: string, rest: string, c: char)
    requires c !in a
    ensures SplitOn(a + [c] + rest, c) == [a] + SplitOn(rest, c)
  {
    var s := a + [c] + rest;
    assert s[|a|] == c;
    assert forall j :: 0 <= j < |a| ==> s[j] == a[j];
    assert IndexOf(s, c) == |a|;
    SplitOnUnfold(s, c, |a|);
    assert s[..|a|] == a && s[|a| + 1..] == rest;
  }

  lemma SplitOnNone(d: string, c: char)
    requires c !in d
    ensures SplitOn(d, c) == [d]
  {
    assert IndexOf(d, c) == |d|;
  }

  lemma SplitFour(a: string, b: string, c: string, d: string)
    requires ' ' !in a && ' ' !in b && ' ' !in c && ' ' !in d
    ensures SplitOn(DsRecord(a, b, c, d), ' ') == [a, b, c, d]
  {
    var s2 := Join([c, d], " ");
    var s1 := Join([b, c, d], " ");
    assert [a, b, c, d][1..] == [b, c, d] && [b, c, d][1..] == [c, d] && [c, d][1..] == [d];
    assert DsRecord(a, b, c, d) == a + " " + s1;
    assert s1 == b + " " + s2;
    assert s2 == c + " " + d;
    SplitOnNone(d, ' ');
    SplitOnFirst(c, d, ' ');
    assert SplitOn(s2, ' ') == [c, d];
    SplitOnFirst(b, s2, ' ');
    assert SplitOn(s1, ' ') == [b, c, d];
    SplitOnFirst(a, s1, ' ');
  }

  /** A published record built from the local key tag, algorithm and one of the local digests is accepted. */
  lemma DsRecordAccepted(local: LocalDs, t: string)
    requires t in local.digests
    requires ' ' !in local.keyTag && ' ' !in local.alg && ' ' !in t && ' ' !in local.digests[t]
    ensures CheckDs(local, Some(DsRecord(local.keyTag, local.alg, t, local.digests[t]))) == DsMatches
  {
    SplitFour(local.keyTag, local.alg, t, local.digests[t]);
  }

  /** Conversely, an accepted record is exactly such a record. */
  lemma DsMatchMeans(local: LocalDs, ds: Option<string>)
    requires CheckDs(local, ds) == DsMatches
    ensures ds.Some?
    ensures exists t :: t in local.digests && ds.value == DsRecord(local.keyTag, local.alg, t, local.digests[t])
  {
    var f := SplitOn(ds.value, ' ');
    SplitOnSpec(ds.value, ' ');
    assert f == [f[0], f[1], f[2], f[3]];
    assert ds.value == DsRecord(f[0], f[1], f[2], f[3]);
  }

  /** `alg_name_map[ds_alg]`: the two algorithms the box signs with; any other raises `KeyError`. */
  function AlgName(alg: string): (r: Result<string>)
    ensures r.Ok? <==> alg == "7" || alg == "8"
  {
    if alg == "7" then Ok("RSASHA1-NSEC3-SHA1")
    else if alg == "8" then Ok("RSASHA256")
    else Err(KeyError)
  }

  /** The note added to a detail line when the published field differs. */
  function Got(x: string): string {
    " (Got '" + x + "')"
  }

  /**
   * The detail lines printed after the DS warning or error: key tag, key flags, algorithm
   * (each with the published value when it differs), digest type, the SHA-256 digest, a
   * line naming the published digest type and digest when they do not match, the public
   * key, and the first line of the local `.ds` file. A missing SHA-256 digest raises `KeyError`.
   */
  function DsDetails(local: LocalDs, ds: Option<string>, algName: string, publicKey: string, firstDsLine: string): Result<seq<string>>
  {
    if "2" !in local.digests then Err(KeyError)
    else
      var valid := DsLooksValid(ds);
      var f := if valid then SplitOn(ds.value, ' ') else ["", "", "", ""];
      Ok(["",
          "Key Tag: " + local.keyTag + (if !valid || f[0] == local.keyTag then "" else Got(f[0])),
          "Key Flags: KSK",
          "Algorithm: " + local.alg + " / " + algName + (if !valid || f[1] == local.alg then "" else Got(f[1])),
          "Digest Type: 2 / SHA-256",
          "Digest: " + local.digests["2"]]
        + (if valid && !(f[2] in local.digests && local.digests[f[2]] == f[3])
           then ["(Got digest type " + f[2] + " and digest " + f[3] + " which do not match.)"] else [])
        + ["Public Key: ", publicKey, "", "Bulk/Record Format:", firstDsLine, ""])
  }

  /** What `check_dnssec` reports: the verdict line, if any, and the detail lines. */
  datatype DnssecReport = DnssecReport(verdict: Option<Severity>, details: seq<string>)

  /**
   * `check_dnssec` once the local data is read: an algorithm other than 7 or 8 raises
   * `KeyError` before anything is printed. When checking the box's own hostname a match
   * or a missing record prints nothing and a mismatch prints only the error; otherwise a
   * match is ok, and a missing or wrong record is a warning or an error with the details.
   */
  function CheckDnssec(local: LocalDs, ds: Option<string>, isCheckingPrimary: bool,
                       publicKey: string, firstDsLine: string): Result<DnssecReport>
  {
    match AlgName(local.alg)
    case Err(e) => Err(e)
    case Ok(name) =>
      var status := CheckDs(local, ds);
      if status == DsMatches then Ok(DnssecReport(if isCheckingPrimary then None else Some(OkLine), []))
      else if isCheckingPrimary then Ok(DnssecReport(if status == DsNotSet then None else Some(ErrorLine), []))
      else
        match DsDetails(local, ds, name, publicKey, firstDsLine)
        case Err(e) => Err(e)
        case Ok(lines) => Ok(DnssecReport(Some(if status == DsNotSet then WarningLine else ErrorLine), lines))
  }

  /** A well-formed published record that is rejected always has its differing field pointed out in the details. */
  lemma DetailsPointAtMismatch(local: LocalDs, ds: Option<string>, publicKey: string, firstDsLine: string)
    requires CheckDnssec(local, ds, false, publicKey, firstDsLine).Ok?
    requires DsLooksValid(ds) && CheckDs(local, ds) == DsIncorrect
    ensures var r := CheckDnssec(local, ds, false, publicKey, firstDsLine).value;
      var f := SplitOn(ds.value, ' ');
      && r.verdict == Some(ErrorLine)
      && (EndsWith(r.details[1], Got(f[0])) || EndsWith(r.details[3], Got(f[1])) || |r.details| == 13)
  {
    var r := CheckDnssec(local, ds, false, publicKey, firstDsLine).value;
    var f := SplitOn(ds.value, ' ');
    if f[0] != local.keyTag {
      assert r.details[1] == "Key Tag: " + local.keyTag + Got(f[0]);
    } else if f[1] != local.alg {
      assert r.details[3] == "Algorithm: " + local.alg + " / " + AlgName(local.alg).value + Got(f[1]);
    }
  }

  /** The record the box itself suggests is accepted silently for the hostname and as ok elsewhere. */
  lemma SuggestedRecordAccepted(local: LocalDs, t: string, isCheckingPrimary: bool, publicKey: string, firstDsLine: string)
    requires local.alg == "7" || local.alg == "8"
    requires t in local.digests
    requires ' ' !in local.keyTag && ' ' !in local.alg && ' ' !in t && ' ' !in local.digests[t]
    ensures var ds := Some(DsRecord(local.keyTag, local.alg, t, local.digests[t]));
      CheckDnssec(local, ds, isCheckingPrimary, publicKey, firstDsLine) ==
        Ok(DnssecReport(if isCheckingPrimary then None else Some(OkLine), []))
  {
    DsRecordAccepted(local, t);
  }

  /** For the box's own hostname nothing but a mismatch error is ever printed. */
  lemma PrimaryDnssecQuiet(local: LocalDs, ds: Option<string>, publicKey: string, firstDsLine: string)
    requires CheckDnssec(local, ds, true, publicKey, firstDsLine).Ok?
    ensures var r := CheckDnssec(local, ds, true, publicKey, firstDsLine).value;
      r.details == [] && (r.verdict.Some? <==> ds.Some? && CheckDs(local, ds) == DsIncorrect)
      && (r.verdict.Some? ==> r.verdict.value == ErrorLine)
  {
  }

  // ------------------------------------------------------------ check_mail_domain

  /**
   * `mx.split('; ')[0].split(' ')[1]`: the host of the first record in `query_dns`'s answer;
   * a first record without a space raises `IndexError`.
   */
  function MxHost(mx: Option<string>): Result<Option<string>> {
    if mx.None? then Ok(None)
    else
      var parts := SplitOn(BeforeFirst(mx.value, "; "), ' ');
      if |parts| < 2 then Err(IndexError) else Ok(Some(parts[1]))
  }

  /** The MX verdict, and whether the configuration is flagged as non-standard. */
  datatype MailVerdict = MailVerdict(severity: Severity, nonStandard: bool)

  /** `recommended_mx`: preference 10 and the box's hostname. */
  function RecommendedMx(primaryHostname: string): string {
    "10" + " " + primaryHostname
  }

  /**
   * The MX decision given the MX answer `mx` and the host taken from it. Without an MX
   * record mail goes to the domain's own address record, so that is fine for the box's
   * hostname, or when the domain's address is the hostname's; a host that is the box's
   * hostname is fine, flagged when the record is not the recommended one; any other is an error.
   */
  function MailSeverity(domain: string, primaryHostname: string, mx: Option<string>, host: Option<string>,
                        domainA: Option<string>, primaryA: Option<string>): MailVerdict
  {
    if host.None? then
      if domain == primaryHostname then MailVerdict(OkLine, false)
      else if domainA.Some? && domainA == primaryA then MailVerdict(OkLine, false)
      else MailVerdict(ErrorLine, false)
    else if host.value == primaryHostname then
      MailVerdict(OkLine, mx != Some(RecommendedMx(primaryHostname)))
    else MailVerdict(ErrorLine, false)
  }

  /** `check_mail_domain`'s MX check, as written: the host is taken from the first record of the joined answer. */
  function MailCheck(domain: string, primaryHostname: string, mx: Option<string>,
                     domainA: Option<string>, primaryA: Option<string>): Result<MailVerdict>
  {
    match MxHost(mx)
    case Err(e) => Err(e)
    case Ok(host) => Ok(MailSeverity(domain, primaryHostname, mx, host, domainA, primaryA))
  }

  /** Text holding no "; " is its own first record. */
  lemma {:induction false} BeforeFirstWhole(s: string)
    requires !Contains(s, "; ")
    ensures BeforeFirst(s, "; ") == s
    decreases |s|
  {
    if s != [] {
      BeforeFirstWhole(s[1..]);
      assert [s[0]] + s[1..] == s;
    }
  }

  /** The host of a single record "<preference> <host>". */
  lemma MxHostOfRecord(pref: string, host: string)
    requires pref != [] && ' ' !in pref && ';' !in pref && ' ' !in host && ';' !in host
    ensures MxHost(Some(pref + " " + host)) == Ok(Some(host))
  {
    assert ';' !in pref + " " + host;
    NoSemicolon(pref + " " + host);
    BeforeFirstWhole(pref + " " + host);
    SplitOnNone(host, ' ');
    SplitOnFirst(pref, host, ' ');
  }

  /** A first record without a space has no host: `IndexError`. */
  lemma MxHostNoSpace(s: string)
    requires ' ' !in s && ';' !in s
    ensures MxHost(Some(s)) == Err(IndexError)
  {
    NoSemicolon(s);
    BeforeFirstWhole(s);
    SplitOnNone(s, ' ');
  }

  /** The resolver's answer holding only the recommended MX record. */
  lemma RecommendedMxAnswer(primaryHostname: string)
    requires primaryHostname != [] && primaryHostname[|primaryHostname| - 1] != '.'
    ensures QueryDns(Answers([RecommendedMx(primaryHostname) + "."]), None) == Some(RecommendedMx(primaryHostname))
  {
    var rec := RecommendedMx(primaryHostname);
    SingleAnswer(rec + ".", None);
    RStripDot(rec);
  }

  /** The recommended MX record, as the resolver returns it, is accepted without a note. */
  lemma RecommendedMxAccepted(domain: string, primaryHostname: string, domainA: Option<string>, primaryA: Option<string>)
    requires primaryHostname != [] && primaryHostname[|primaryHostname| - 1] != '.'
    requires ' ' !in primaryHostname && ';' !in primaryHostname
    ensures var mx := QueryDns(Answers([RecommendedMx(primaryHostname) + "."]), None);
      MailCheck(domain, primaryHostname, mx, domainA, primaryA) == Ok(MailVerdict(OkLine, false))
  {
    RecommendedMxAnswer(primaryHostname);
    MxHostOfRecord("10", primaryHostname);
  }

  /** A timed-out MX query reaches the host extraction as "[timeout]", which has no space: `IndexError`. */
  lemma MxTimeoutRaises(domain: string, primaryHostname: string, domainA: Option<string>, primaryA: Option<string>)
    ensures MailCheck(domain, primaryHostname, QueryDns(Timeout, None), domainA, primaryA) == Err(IndexError)
  {
    NoRecords(None);
    MxHostNoSpace("[timeout]");
  }

  // ------------------------------------------------------------ MX preference

  /** An MX record as the resolver reports it: the preference and the exchange host, with its trailing dot. */
  datatype MxRecord = MxRecord(preference: nat, exchange: string)

  /** The record's text form, "<preference> <exchange>". */
  function MxText(r: MxRecord): string {
    NatToString(r.preference) + " " + r.exchange
  }

  function MxTexts(records: seq<MxRecord>): (r: seq<string>)
    ensures |r| == |records|
  {
    seq(|records|, i requires 0 <= i < |records| => MxText(records[i]))
  }

  /** Without "; " in `a`, the first "; " of `a + "; " + b` is the one after `a`. */
  lemma BeforeFirstSeparator(a: string, b: string)
    requires !Contains(a, "; ")
    ensures BeforeFirst(a + "; " + b, "; ") == a
  {
    BeforeFirstPair(a, "; ", b);
  }

  /** The same for any two-character separator whose characters differ. */
  lemma {:induction false} BeforeFirstPair(a: string, sep: string, b: string)
    requires |sep| == 2 && sep[0] != sep[1] && !Contains(a, sep)
    ensures BeforeFirst(a + sep + b, sep) == a
    decreases |a|
  {
    var s := a + sep + b;
    if a == [] {
      assert s[..2] == sep;
    } else {
      assert !StartsWith(a, sep) && !Contains(a[1..], sep);
      NoPairAtStart(a, sep, b);
      assert s[1..] == a[1..] + sep + b;
      BeforeFirstPair(a[1..], sep, b);
    }
  }

  lemma NoPairAtStart(a: string, sep: string, b: string)
    requires |sep| == 2 && sep[0] != sep[1] && a != [] && !StartsWith(a, sep)
    ensures !StartsWith(a + sep + b, sep)
  {
    var s := a + sep + b;
    assert s[0] == a[0] && s[1] == (if |a| == 1 then sep[0] else a[1]);
  }

  /** Text without ';' holds no "; ". */
  lemma {:induction false} NoSemicolon(a: string)
    requires ';' !in a
    ensures !Contains(a, "; ")
    decreases |a|
  {
    if a != [] {
      assert a[0] != ';';
      NoSemicolon(a[1..]);
    }
  }

  /** The text form of a record whose exchange is `host` followed by the root's dot. */
  lemma MxTextOf(pref: nat, host: string)
    ensures MxText(MxRecord(pref, host + ".")) == (NatToString(pref) + " " + host) + "."
  {
    AppendAssoc(NatToString(pref) + " ", host, ".");
  }

  /** Two answers already in text order stay in that order. */
  lemma SortTwo(a: string, b: string)
    requires LexLe(a, b)
    ensures SortStrings([a, b]) == [a, b]
  {
    assert [a, b][1..] == [b];
    assert InsertionSort([b], LexLe) == [b];
    assert Insert(a, [b], LexLe) == [a, b];
  }

  lemma JoinTwo(a: string, b: string, sep: string)
    ensures Join([a, b], sep) == a + sep + b
  {
    assert [a, b][1..] == [b];
  }

  /** The joined answer for a backup at preference 10 and the box at preference 5: text order puts the backup first. */
  lemma BackupFirstAnswer(backup: string, box: string)
    requires backup != [] && backup[|backup| - 1] != '.'
    requires box != [] && box[|box| - 1] != '.'
    ensures var records := [MxRecord(10, backup + "."), MxRecord(5, box + ".")];
      QueryDns(Answers(MxTexts(records)), None) == Some(("10" + " " + backup) + "; " + ("5" + " " + box))
  {
    var first, second := "10" + " " + backup, "5" + " " + box;
    BackupFirstTexts(backup, box);
    assert first[0] == '1' && second[0] == '5';
    assert LexLe(first, second);
    AnswerOfTwo(first, second);
  }

  lemma BackupFirstTexts(backup: string, box: string)
    ensures MxTexts([MxRecord(10, backup + "."), MxRecord(5, box + ".")]) ==
      [("10" + " " + backup) + ".", ("5" + " " + box) + "."]
  {
    assert NatToString(10) == "10" && NatToString(5) == "5";
    MxTextOf(10, backup);
    MxTextOf(5, box);
  }

  /** Two answers, each with one trailing dot and already in text order, joined as `query_dns` joins them. */
  lemma AnswerOfTwo(x: string, y: string)
    requires x != [] && x[|x| - 1] != '.' && y != [] && y[|y| - 1] != '.'
    requires LexLe(x, y)
    ensures QueryDns(Answers([x + ".", y + "."]), None) == Some(x + "; " + y)
  {
    RStripDot(x);
    RStripDot(y);
    assert StripDots([x + ".", y + "."]) == [x, y];
    SortTwo(x, y);
    JoinTwo(x, y, "; ");
  }

  /** The host `check_mail_domain` takes from a joined answer is the first record's. */
  lemma FirstRecordHost(pref: string, host: string, rest: string)
    requires pref != [] && ' ' !in pref && ';' !in pref && ' ' !in host && ';' !in host
    ensures MxHost(Some((pref + " " + host) + "; " + rest)) == Ok(Some(host))
  {
    var first := pref + " " + host;
    assert ';' !in first;
    NoSemicolon(first);
    BeforeFirstSeparator(first, rest);
    SplitOnFirst(pref, host, ' ');
    SplitOnNone(host, ' ');
  }

  /**
   * As written, the host compared is the first record's after `query_dns` sorts the answers
   * as text, so "10 <backup>" comes before "5 <box>": a box that is the preferred exchanger
   * (preference 5) is reported as an incorrect MX.
   */
  lemma MxFirstRecordNotPreferred(domain: string, backup: string, box: string, domainA: Option<string>, primaryA: Option<string>)
    requires backup != box
    requires backup != [] && backup[|backup| - 1] != '.' && ' ' !in backup && ';' !in backup
    requires box != [] && box[|box| - 1] != '.'
    ensures var records := [MxRecord(10, backup + "."), MxRecord(5, box + ".")];
      && PreferredMx(records) == Some(records[1])
      && MailCheck(domain, box, QueryDns(Answers(MxTexts(records)), None), domainA, primaryA)
           == Ok(MailVerdict(ErrorLine, false))
  {
    BackupFirstAnswer(backup, box);
    FirstRecordHost("10", backup, "5" + " " + box);
  }

  /** The most preferred record, the one with the lowest preference (RFC 5321 section 5.1); the first of equals. */
  function PreferredMx(records: seq<MxRecord>): (r: Option<MxRecord>)
    ensures r.None? <==> records == []
    ensures r.Some? ==> r.value in records && forall x | x in records :: r.value.preference <= x.preference
  {
    if records == [] then None
    else
      match PreferredMx(records[1..])
      case None => Some(records[0])
      case Some(m) => if records[0].preference <= m.preference then Some(records[0]) else Some(m)
  }

  /**
   * The MX check as evidently intended: the host compared is that of the most preferred
   * record; `records` is `None` when the domain has no MX record.
   */
  function MailCheckPreferred(domain: string, primaryHostname: string, records: Option<seq<MxRecord>>,
                              domainA: Option<string>, primaryA: Option<string>): MailVerdict
  {
    var mx := if records.None? then None else QueryDns(Answers(MxTexts(records.value)), None);
    var best := if records.None? then None else PreferredMx(records.value);
    var host := if best.None? then None else Some(RStrip(best.value.exchange, '.'));
    MailSeverity(domain, primaryHostname, mx, host, domainA, primaryA)
  }

  /** The box is accepted whenever it is the strictly most preferred exchanger, whatever the text order. */
  lemma PreferredBoxAccepted(domain: string, primaryHostname: string, records: seq<MxRecord>, p: nat,
                             domainA: Option<string>, primaryA: Option<string>)
    requires primaryHostname != [] && primaryHostname[|primaryHostname| - 1] != '.'
    requires MxRecord(p, primaryHostname + ".") in records
    requires forall x | x in records && x.exchange != primaryHostname + "." :: p < x.preference
    ensures MailCheckPreferred(domain, primaryHostname, Some(records), domainA, primaryA).severity == OkLine
  {
    var best := PreferredMx(records).value;
    assert best.preference <= p;
    RStripDot(primaryHostname);
  }

  /** Under the corrected check the configuration of `MxFirstRecordNotPreferred` is accepted. */
  lemma MxPreferredAccepted(domain: string, backup: string, box: string, domainA: Option<string>, primaryA: Option<string>)
    requires backup != box
    requires box != [] && box[|box| - 1] != '.'
    ensures var records := [MxRecord(10, backup + "."), MxRecord(5, box + ".")];
      MailCheckPreferred(domain, box, Some(records), domainA, primaryA).severity == OkLine
  {
    var records := [MxRecord(10, backup + "."), MxRecord(5, box + ".")];
    assert backup + "." != box + "." by {
      assert (backup + ".")[..|backup|] == backup;
      assert (box + ".")[..|box|] == box;
    }
    PreferredBoxAccepted(domain, box, records, 5, domainA, primaryA);
  }

  lemma PreferredOfOne(r: MxRecord)
    ensures PreferredMx([r]) == Some(r)
  {
    assert [r][1..] == [];
  }

  /** With a single MX record, or none, the two checks agree. */
  lemma MailChecksAgree(domain: string, primaryHostname: string, records: Option<seq<MxRecord>>,
                        domainA: Option<string>, primaryA: Option<string>)
    requires records.Some? ==> |records.value| == 1
    requires records.Some? ==> var e := records.value[0].exchange;
      |e| >= 2 && e[|e| - 1] == '.' && e[|e| - 2] != '.' && ' ' !in e && ';' !in e
    ensures var mx := if records.None? then None else QueryDns(Answers(MxTexts(records.value)), None);
      MailCheck(domain, primaryHostname, mx, domainA, primaryA) ==
        Ok(MailCheckPreferred(domain, primaryHostname, records, domainA, primaryA))
  {
    if records.Some? {
      var r := records.value[0];
      assert records.value == [r];
      var h := r.exchange[..|r.exchange| - 1];
      assert r.exchange == h + ".";
      OneRecordAnswer(r.preference, h);
      var mx := Some(NatToString(r.preference) + " " + h);
      PreferredOfOne(r);
      RStripDot(h);
      assert MailCheck(domain, primaryHostname, mx, domainA, primaryA) ==
        Ok(MailSeverity(domain, primaryHostname, mx, Some(h), domainA, primaryA));
    }
  }

  /** The answer and the host for a single record whose exchange is `host` and the root's dot. */
  lemma OneRecordAnswer(pref: nat, host: string)
    requires host != [] && host[|host| - 1] != '.' && ' ' !in host && ';' !in host
    ensures var mx := NatToString(pref) + " " + host;
      && QueryDns(Answers(MxTexts([MxRecord(pref, host + ".")])), None) == Some(mx)
      && MxHost(Some(mx)) == Ok(Some(host))
  {
    var digits := NatToString(pref);
    MxTextOf(pref, host);
    assert MxTexts([MxRecord(pref, host + ".")]) == [digits + " " + host + "."];
    SingleAnswer(digits + " " + host + ".", None);
    RStripDot(digits + " " + host);
    assert forall i :: 0 <= i < |digits| ==> IsDigit(digits[i]);
    MxHostOfRecord(digits, host);
  }

}
