# Status checks: a verified model of the report writer and the decision rules

Mail-in-a-Box's `management/status_checks.py` checks a mail server's health and reports each
finding as an "ok", "warning" or "error" line. Most of the script is I/O: sockets, DNS lookups,
`openssl` and other subprocesses, a worker pool and e-mail. This project models the deterministic
core between those I/O steps. Every I/O result (a resolver answer, a command's output, a day
count, a file's contents) becomes a parameter.

The modules follow the script's structure:

- `Report` covers `FileOutput`: headings underlined with '=', and the greedy word-wrapper
  `print_block` with its continuation indent. It is a class whose `buf` field is the output
  stream. Each method is proved to append exactly the text a specification function gives.
  The layout functions have three proved properties: no visible character is lost or reordered,
  `split()` sees the same words before and after wrapping, and every line respects the width
  budget unless it holds one overlong word.
- `Buffered` covers `BufferedOutput`, which records report calls and plays them back. It also
  covers the replay of each recorded call with Python's binding of positional and keyword
  arguments and defaults, and `group_by_heading`, which splits a recorded log into sections.
- `Services` covers the `sshd -T` token scan of `get_ssh_port` and the result fold of
  `run_services_checks`.
- `Dns` covers several pieces:
  - the answer formatting of `query_dns`;
  - zone containment;
  - the checks in `check_primary_hostname_dns` and `check_dns_zone`;
  - the DS-record comparison of `check_dnssec` (DS presentation format, section 5.3 of RFC 4034);
  - the MX check of `check_mail_domain` (implicit MX, section 5.1 of RFC 5321).
- `Certs` covers the decision chain of `check_certificate`:
  - the one-label wildcard name match, a strict form of section 6.4.3 of RFC 6125;
  - the wrong-domain message with its sorted names;
  - the order of the checks;
  - the expiry classification.
- `Text`, `Sorting` and `Wrappers` are helpers:
  - Python string operations on `seq<char>` (`split`, `strip`, `isspace`, `int`, `lower`);
  - an insertion sort standing for `sorted`;
  - `Result` and `Option`, which stand for exceptions and `None`.

## Model

| member | source | states |
|---|---|---|
| Report.FileOutput.Emit | management/status_checks.py:920 | `print(..., end='')` appends exactly the given text to the stream and leaves the width unchanged |
| Report.FileOutput.AddHeading | management/status_checks.py:905-908 | the stream gains a newline, the heading, a line of '=' exactly as long as the heading, and a newline; the width is unchanged |
| Report.FileOutput.PrintOk | management/status_checks.py:910-911 | the stream gains the message wrapped as a block whose first line is the check-mark prefix |
| Report.FileOutput.PrintError | management/status_checks.py:913-914 | the stream gains the message wrapped as a block whose first line is the cross prefix |
| Report.FileOutput.PrintWarning | management/status_checks.py:916-917 | the stream gains the message wrapped as a block whose first line is the "?" prefix |
| Report.FileOutput.PrintBlock | management/status_checks.py:919-932 | the stream gains exactly the first line, then the greedy layout of the message's tokens (newline runs collapsed, split into alternating word and space runs) within the budget `width - 1 - len(first_line)`, then a newline |
| Report.FileOutput.WriteWords | management/status_checks.py:924-931 | the `linelen` loop writes exactly the text of the layout specification for the given tokens and budget |
| Report.FileOutput.PrintLine | management/status_checks.py:934-936 | the stream gains one indented block per line of the message, in order |
| Report.CollapseNewlinesSpec | management/status_checks.py:921 | after the substitution no newline is left, and the visible characters are exactly those of the message, in order |
| Report.CollapseNewlinesWords | management/status_checks.py:921 | the substitution changes neither the message's `split()` words nor whether it starts inside a word |
| Report.LayoutKeepsText | management/status_checks.py:924-931 | the wrapped text holds exactly the visible characters of the tokens, in order |
| Report.LayoutKeepsWords | management/status_checks.py:924-931 | for tokens that are whitespace runs or words following a whitespace run, the wrapped text has the same `split()` words as the tokens joined, and ends inside a word exactly when they do: a break never splits or joins a word |
| Report.MessageWordsKept | management/status_checks.py:921-931 | the wrapped text of a message has exactly the message's `split()` words, in order |
| Report.BlockKeepsText | management/status_checks.py:919-932 | a whole block's visible characters are the first line's followed by the message's |
| Report.BlockKeepsWords | management/status_checks.py:919-932 | for a first line that does not end inside a word, the `split()` words of a whole block are the first line's followed by the message's |
| Report.PrefixesEndBlank | management/status_checks.py:910-919 | none of the first lines the report methods pass ends inside a word, so their blocks keep the message's words |
| Report.LayoutWellWrapped | management/status_checks.py:924-931 | every finished and current line fits the budget unless it holds a single token, no line starts with a blank token, and `linelen` is the current line's length |
| Report.ConsoleWidth | management/status_checks.py:938-944 | when `stty size` gives output with at least two fields and the second parses as an integer, the width is that integer; in every other case (no output, one field, no integer) it is 76 |
| Buffered.BufferedOutput.constructor | management/status_checks.py:948-949 | the buffer starts as the given list of calls, or empty |
| Buffered.BufferedOutput.Record | management/status_checks.py:950-956 | a report method name appends the call (name, positional and keyword arguments) to the buffer; any other name that `__getattr__` is asked for raises `AttributeError` and leaves the buffer unchanged |
| Buffered.BufferedOutput.PlaybackInto | management/status_checks.py:957-959 | the target recorder gains the buffered calls in order, up to the first unknown name; it succeeds exactly when no name is unknown, and otherwise fails with `AttributeError` |
| Buffered.BufferedOutput.PlaybackTo | management/status_checks.py:957-959 | a report writer's stream gains the calls' texts in order, up to and including what the first failing call writes before it raises; the playback fails exactly when some call fails, and with that call's error |
| Buffered.ApplyCall | management/status_checks.py:958-959 | one call made on a report writer appends exactly its effect's text, and raises exactly its effect's error |
| Buffered.Bind | management/status_checks.py:957-959 | a successful binding gives each parameter the value passed positionally, by keyword, or as its default |
| Buffered.Decode | management/status_checks.py:905-936 | the bound arguments fail exactly when the message, or `print_block`'s first line, is not a string: `print_line` with `AttributeError`, the others with `TypeError` |
| Buffered.CallEffect | management/status_checks.py:905-959 | a call raises exactly when it does not replay as a report operation, and then with that error; a call that replays writes exactly the operation's text |
| Buffered.IllTypedCalls | management/status_checks.py:905-936 | a non-string message writes the text each method prints before it fails: the heading's first two lines, a prefix, or the first line; `print_line` writes nothing |
| Buffered.SplitCallReplays | management/status_checks.py:950-959 | a call recorded with any split of its arguments between positional and keyword (such as `print_line(x, monospace=True)`) replays as the operation it records |
| Buffered.DefaultsApply | management/status_checks.py:919-936 | `print_block` without `first_line` uses the three-space indent, and `print_line` without `monospace` uses `False` |
| Buffered.ReplayOfRecorded | management/status_checks.py:950-959 | recording a sequence of report calls, each with its own split of positional and keyword arguments, and playing it back writes the operations' texts in order and never fails |
| Buffered.ReplayStops | management/status_checks.py:957-959 | once a call fails, the playback stops there |
| Buffered.GroupByHeading | management/status_checks.py:826-837 | the loop returns exactly the sections of the grouping fold, or its error |
| Buffered.GroupFoldFails | management/status_checks.py:826-837 | grouping fails exactly when some heading call has no argument, and then with `IndexError` |
| Buffered.GroupFoldShape | management/status_checks.py:826-837 | "No Category" is always present as the first section, and no key appears twice |
| Buffered.GroupBySections | management/status_checks.py:826-837 | with distinct heading keys, each call lands in the section of the nearest preceding heading, or in "No Category" if none precedes it, with the order inside each section kept |
| Services.GetSshPort | management/status_checks.py:43-59 | without `sshd -T` output there is no port; otherwise the result is what the token scan gives: the integer after the first "port" token, or `ValueError` when that token is not an integer |
| Services.PortAfterFound | management/status_checks.py:51-59 | the number after the first "port" token is the port |
| Services.PortAfterNone | management/status_checks.py:51-59 | there is no port exactly when no token but the last is "port" |
| Services.RunServicesChecks | management/status_checks.py:87-99 | the recorder gains each service's recorded lines in service order, plus the success line when every checked service runs; the result is that no check was fatal |
| Services.AllRunningMeans | management/status_checks.py:87-95 | `all_running` holds exactly when every checked service runs |
| Services.AnyFatalMeans | management/status_checks.py:87-95 | `fatal` holds exactly when some checked service failed fatally |
| Services.VerdictIgnoresOrder | management/status_checks.py:87-99 | the verdict does not depend on the order the pool returns the results in |
| Services.OutputsSkipSkipped | management/status_checks.py:91-92 | skipped services write nothing |
| Dns.QueriesAreAbsolute | management/status_checks.py:535-536 | every name handed to the resolver ends with '.'; a string name is extended by exactly one '.' |
| Dns.AnswerOrderIrrelevant | management/status_checks.py:548-552 | the answer does not depend on the order of the records |
| Dns.TrailingDotIrrelevant | management/status_checks.py:552 | a record with an extra trailing dot gives the same answer |
| Dns.SingleAnswer | management/status_checks.py:552 | one record is answered as itself without trailing dots |
| Dns.NoRecords | management/status_checks.py:539-552 | no answer gives `nxdomain`, a timeout gives "[timeout]", and an empty answer gives the empty string |
| Dns.InZoneTransitive | management/status_checks.py:285 | zone containment is transitive |
| Dns.InZoneWholeLabels | management/status_checks.py:285 | a zone holds a longer name only at a label boundary |
| Dns.DsZonesMembers | management/status_checks.py:283-288 | a zone is checked exactly when it is listed, holds the hostname and has a DS record |
| Dns.FindDnssecZones | management/status_checks.py:283-288 | the loop checks exactly those zones, in order, and sets `has_dnssec` exactly when it checks one |
| Dns.GlueIff | management/status_checks.py:290-312 | the glue is ok exactly when both nameservers resolve to the box's address |
| Dns.PrimaryChecksConsistent | management/status_checks.py:290-347 | a glue warning only comes with a correct hostname address; an unset TLSA record is reported only under DNSSEC; each other verdict is ok exactly when its value matches |
| Dns.DefaultNs | management/status_checks.py:372-377 | with the default secondary the expected NS text is "ns1.<host>; ns2.<host>" |
| Dns.NsIgnoresCase | management/status_checks.py:378 | the case of the published or the expected NS text does not change the verdict |
| Dns.NsRecordsAccepted | management/status_checks.py:548-552 | the box's own two nameservers, in any order and with trailing dots, are answered as exactly the expected text |
| Dns.NsAccepted | management/status_checks.py:374-378 | that published set passes the NS comparison |
| Dns.DsFields | management/status_checks.py:403-405 | a line parses exactly when it has at least five tab-separated columns and the fifth has four space-separated fields; the fields are those of the fifth column, hold no space and join back to it; fewer columns raise `IndexError`, another field count `ValueError` |
| Dns.ReadLocalDs | management/status_checks.py:401-405 | reading the `.ds` file gives the fold of its stripped lines |
| Dns.ReadDsLines | management/status_checks.py:403-405 | the loop computes the fold of the lines |
| Dns.DsFoldOk | management/status_checks.py:403-405 | the file reads exactly when every line parses, and then the key tag and algorithm are the last line's |
| Dns.DsFoldDigestTypes | management/status_checks.py:403-405 | a digest type is known exactly when some line has it |
| Dns.DsFoldLastDigest | management/status_checks.py:403-405 | a digest type's digest is that of the last line with that type |
| Dns.DsRecordAccepted | management/status_checks.py:414-417 | a published record made of the local key tag, algorithm and a local digest matches |
| Dns.DsMatchMeans | management/status_checks.py:414-417 | a record matches only if it is such a record |
| Dns.AlgName | management/status_checks.py:409-410 | the algorithm name is known exactly for algorithms 7 and 8 (otherwise `KeyError`) |
| Dns.DetailsPointAtMismatch | management/status_checks.py:433-450 | a well-formed but wrong record is an error whose details mark the differing key tag or algorithm, or add the published-digest line |
| Dns.SuggestedRecordAccepted | management/status_checks.py:414-428 | the record the box suggests is silent for the box's hostname and ok for other domains |
| Dns.PrimaryDnssecQuiet | management/status_checks.py:418-428 | for the box's hostname there are never details, and a line is printed exactly for a published record that does not match, as an error |
| Dns.MxHostOfRecord | management/status_checks.py:456-463 | the host of one record "<preference> <host>" is the host |
| Dns.MxHostNoSpace | management/status_checks.py:463 | a first record without a space raises `IndexError` |
| Dns.RecommendedMxAccepted | management/status_checks.py:455-489 | the recommended record, as the resolver returns it, is accepted with no note |
| Dns.MxTimeoutRaises | management/status_checks.py:456-463 | a timed-out MX query raises `IndexError` in the host extraction |
| Dns.MxFirstRecordNotPreferred | management/status_checks.py:455-493 | as written, a box at preference 5 with a backup at preference 10 is reported as an incorrect MX |
| Dns.PreferredMx | management/status_checks.py:456-463 | the chosen record is present and has the lowest preference; there is none only when there are no records |
| Dns.PreferredBoxAccepted | management/status_checks.py:485-489 | under the corrected check, a box that is strictly the most preferred exchanger is accepted whatever the text order |
| Dns.MxPreferredAccepted | management/status_checks.py:455-493 | under the corrected check, the configuration of the finding is accepted |
| Dns.MailChecksAgree | management/status_checks.py:455-493 | with one MX record or none, the corrected check and the check as written agree |
| Certs.WildcardMeans | management/status_checks.py:650 | the wildcard form replaces exactly the first label with "*" |
| Certs.WildcardIdempotent | management/status_checks.py:650 | applying the wildcard form twice is the same as once |
| Certs.NameAcceptedMeans | management/status_checks.py:647-653 | a domain is accepted exactly when a certificate name equals it or is a wildcard for its whole first label |
| Certs.WildcardCertificateAccepted | management/status_checks.py:647-653 | "*.<parent>" covers every one-label child of the parent |
| Certs.SortedNamesListed | management/status_checks.py:653 | the wrong-domain message lists every certificate name once, sorted |
| Certs.SortedNamesIgnoreOrder | management/status_checks.py:653 | that list depends only on the set of names |
| Certs.WrongDomainFirst | management/status_checks.py:647-653 | a certificate for other names is refused with its names listed, whatever else is wrong with it |
| Certs.BucketMonotone | management/status_checks.py:717-727 | with rounded times a later expiry never gets a more urgent text |
| Certs.ExpiryStatusMeans | management/status_checks.py:717-732 | the expiring-soon warning is given exactly when there are at most 31 days and a warning was asked for; otherwise the status is "OK" with the expiry text |
| Certs.SoonWarningBuckets | management/status_checks.py:717-732 | a warning never uses the plain text, and with rounded times it uses the exact count only below a week |
| Certs.IdentityProblem | management/status_checks.py:647-662 | there is a name or key problem exactly when the identity checks fail, and it is never "OK" or "SELF-SIGNED" |
| Certs.OkMeans | management/status_checks.py:608-732 | "OK" is returned exactly for a certificate that loads, passes the name and key checks, is not self-issued, and is then either only checked for its domain, or valid, verified and not due for the warning |
| Certs.SelfSignedMeans | management/status_checks.py:670-697 | "SELF-SIGNED" is returned exactly when the certificate passes the identity checks and is self-issued, or is valid and `openssl verify` mentions self-signing |
| Text.IntRoundTrip | management/status_checks.py:55 | `int` parses back the decimal text of any integer |
| Sorting.SortStringsIgnoresOrder | management/status_checks.py:552 | sorting strings gives the same result for any order of the same strings |

## Left out

- Sockets and the worker pool: `check_service`'s connections and the `multiprocessing` pool are left out. Their results are the input of `Services.RunServicesChecks`.
- Shell commands (`sshd -T`, `stty`, `openssl verify`, `rndc`, `nginx -t`, `apt-get`, `git describe`): their output is a parameter.
- DNS resolution (`dns.resolver.query`, `dns.reversename`): the resolver is a function parameter returning answers, no answer, or a timeout.
- Certificate and key parsing, and the RSA key comparison: the parsed facts are the fields of the `Certificate` and `PrivateKey` datatypes.
- The clock and date formatting: the day count and the formatted dates are inputs.
- Free disk space, backups, the JSON status cache, e-mail sending and `difflib`: these are I/O, floating point or library algorithms.
- The alias checks `check_alias_exists` for postmaster@ in `check_mail_domain` (management/status_checks.py:495-498) and for hostmaster@ in `check_dns_zone` (management/status_checks.py:350): these are database lookups.
- The spam blacklist checks of `check_mail_domain` (management/status_checks.py:500-509): these are DNSBL queries.
- Helpers imported from other modules (`get_secondary_dns`, `build_tlsa_record`, `get_dns_zones`, `get_web_domains` and others): their results are parameters.
- Text.Lower: only ASCII letters are lower-cased. Python's full Unicode case mapping is not modelled.
- Text.ParseInt: only an optional sign and ASCII digits are accepted. Underscores and non-ASCII digits in `int()` are not modelled.
- Certs.StatusText: the wording of each status is given, but no property of the wording is proved.
- Message wording: the texts of the ok, warning and error lines of the DNS and mail checks are not modelled. The model keeps only their kind (`Severity`).
- Services.RunServicesChecks: the recorder is a `BufferedOutput`, as in `run_checks`. Run directly from the command line the script hands it a `ConsoleOutput` (management/status_checks.py:969), whose terminal writes are not modelled.
- Services.RunServicesChecks: requires that every recording holds only report calls, as those of `check_service` do. A playback that stops at an unknown name is not modelled there.
- Buffered.BufferedOutput.Record: names that are real attributes of a `BufferedOutput` (`buf`, `playback`, `__init__` and the dunder methods every object has) never reach `__getattr__`; looking them up does not raise, and the model does not cover them.
- Buffered.GroupFold: a heading's argument is a string, boolean, integer or none. Python treats `True` and `1`, and `False` and `0`, as the same key of the grouping's ordered dictionary; the model keeps them distinct keys. The report's headings are strings, which this does not affect.
- Buffered.BufferedOutput.PlaybackInto: requires a target other than the recorder itself. Playing a recorder into itself would loop in the source.
- Buffered.GroupBySections: requires distinct heading keys. With a repeated heading the source replaces the earlier section in place. `Buffered.GroupByHeading` and `Buffered.GroupFold` model that behaviour but no lemma describes it.
- Dns.MxHostOfRecord: requires a host without ';' or ' ', as host names have.
- Report.BlockKeepsWords: stated for first lines that do not end inside a word. All the prefixes the report methods pass end in spaces (`Report.PrefixesEndBlank`).
- Report.FileOutput.PrintLine: the `monospace` flag is accepted and ignored, as in the source.
- `ConsoleOutput` writing to the terminal is not modelled beyond its width (`Report.ConsoleWidth`).

## Findings

| source | as written | input that shows it | evidently intended | confidence | as-written member | corrected member |
|---|---|---|---|---|---|---|
| management/status_checks.py:463 | the host compared with the box's hostname is taken from the first record of `query_dns`'s answer, and that answer is sorted as text, not by preference | MX records "10 backup.example." and "5 box.example." with hostname box.example: the answer is "10 backup.example; 5 box.example", so the host compared is backup.example and the MX is reported as incorrect | compare the most preferred exchanger, the record with the lowest preference (section 5.1 of RFC 5321) | not executed | Dns.MxFirstRecordNotPreferred | Dns.MailCheckPreferred |
