/**
 * The service checks' deterministic parts: finding the SSH port in the output of `sshd -T`,
 * and folding the per-service results, taken in service order, into the report and the
 * verdict.
 */
module Services {
  import opened Wrappers
  import opened Text
  import opened Sorting
  import opened Buffered

  /**
   * The token after the first "port" token, read with `int`; `None` when no token
   * follows a "port" token.
   */
  function PortAfter(tokens: seq<string>): Result<Option<int>>
  {
    if |tokens| < 2 then Ok(None)
    else if tokens[0] == "port" then
      match ParseInt(tokens[1])
      case Ok(p) => Ok(Some(p))
      case Err(e) => Err(e)
    else PortAfter(tokens[1..])
  }

  /**
   * `get_ssh_port`: `sshdOutput` is the output of `sshd -T`, or `None` when sshd is not
   * installed. The tokens are scanned with a flag that makes the token after "port" the
   * answer; a token there that is not an integer raises `ValueError`.
   */
  method GetSshPort(sshdOutput: Option<string>) returns (r: Result<Option<int>>)
    ensures sshdOutput.None? ==> r == Ok(None)
    ensures sshdOutput.Some? ==> r == PortAfter(Words(sshdOutput.value))
  {
    if sshdOutput.None? {
      return Ok(None);
    }
    var tokens := Words(sshdOutput.value);
    var returnNext := false;
    for i := 0 to |tokens|
      invariant returnNext <==> 0 < i && tokens[i - 1] == "port"
      invariant PortAfter(tokens) == PortAfter(tokens[if returnNext then i - 1 else i..])
    {
      var e := tokens[i];
      if returnNext {
        assert tokens[i - 1..][1] == e;
        var n := ParseInt(e);
        match n
        case Ok(p) => return Ok(Some(p));
        case Err(err) => return Err(err);
      }
      if e == "port" {
        returnNext := true;
      } else if i + 1 < |tokens| {
        assert tokens[i..][1..] == tokens[i + 1..];
      }
    }
    r := Ok(None);
  }

  /** The port is the integer after the first "port" token, whatever comes after it. */
  lemma {:induction false} PortAfterFound(before: seq<string>, p: int, after: seq<string>)
    requires forall i :: 0 <= i < |before| ==> before[i] != "port"
    ensures PortAfter(before + ["port", IntToString(p)] + after) == Ok(Some(p))
    decreases |before|
  {
    var t := before + ["port", IntToString(p)] + after;
    if before == [] {
      assert t[0] == "port" && t[1] == IntToString(p);
      IntRoundTrip(p);
    } else {
      assert t[1..] == before[1..] + ["port", IntToString(p)] + after;
      PortAfterFound(before[1..], p, after);
    }
  }

  /** There is no port exactly when no token before the last one is "port". */
  lemma {:induction false} PortAfterNone(tokens: seq<string>)
    ensures PortAfter(tokens) == Ok(None) <==> forall i :: 0 <= i < |tokens| - 1 ==> tokens[i] != "port"
    decreases |tokens|
  {
    if |tokens| >= 2 && tokens[0] != "port" {
      PortAfterNone(tokens[1..]);
      assert forall i :: 0 <= i < |tokens| - 2 ==> tokens[1..][i] == tokens[i + 1];
    }
  }

  /** What `check_service` reports for one service: running, fatal, and the recorded report lines. */
  datatype Outcome = Outcome(running: bool, fatal: bool, output: seq<Call>)

  /**
   * One result of `check_service`: the service's index in the list, and `None` when the
   * service was skipped for lack of a port.
   */
  datatype CheckResult = CheckResult(index: int, outcome: Option<Outcome>)

  predicate ByIndex(a: CheckResult, b: CheckResult) {
    a.index <= b.index
  }

  lemma ByIndexIsTotalPreorder()
    ensures TotalPreorder(ByIndex)
  {
  }

  /**
   * `sorted(ret)`: the results in service order. The indices come from `enumerate`, so no
   * two are equal and the tuple order is the index order.
   */
  function InServiceOrder(results: seq<CheckResult>): (r: seq<CheckResult>)
    ensures multiset(r) == multiset(results)
    ensures Sorted(r, ByIndex)
  {
    ByIndexIsTotalPreorder();
    InsertionSortSorted(results, ByIndex);
    InsertionSort(results, ByIndex)
  }

  /** `all_running` after the loop: the conjunction of the checked services' flags. */
  function AllRunning(results: seq<CheckResult>): bool
  {
    if results == [] then true
    else
      var o := results[|results| - 1].outcome;
      AllRunning(results[..|results| - 1]) && (o.None? || o.value.running)
  }

  /** `fatal` after the loop: the disjunction of the checked services' flags. */
  function AnyFatal(results: seq<CheckResult>): bool
  {
    if results == [] then false
    else
      var o := results[|results| - 1].outcome;
      AnyFatal(results[..|results| - 1]) || (o.Some? && o.value.fatal)
  }

  /** The report lines of the checked services, one service after another. */
  function Outputs(results: seq<CheckResult>): seq<Call>
  {
    if results == [] then []
    else
      var o := results[|results| - 1].outcome;
      Outputs(results[..|results| - 1]) + (if o.Some? then o.value.output else [])
  }

  /** Every recorded call names a report method, as every call a `BufferedOutput` records does. */
  predicate AllKnown(calls: seq<Call>) {
    forall i :: 0 <= i < |calls| ==> IsOutputMethod(calls[i].attr)
  }

  const AllRunningMessage := "All system services are running."

  /** Every checked service's recording holds report calls only. */
  predicate RecordingsKnown(results: seq<CheckResult>) {
    forall i :: 0 <= i < |results| && results[i].outcome.Some? ==> AllKnown(results[i].outcome.value.output)
  }

  /**
   * `run_services_checks` after the worker pool has produced `results`: each checked
   * service's report lines are played back onto `out` in service order, a success line
   * follows when every checked service runs, and the answer is whether no check was fatal.
   * The recordings come from `check_service`'s `BufferedOutput`, so they hold report calls only.
   */
  method RunServicesChecks(results: seq<CheckResult>, out: BufferedOutput) returns (ok: bool)
    requires RecordingsKnown(results)
    modifies out
    ensures var s := InServiceOrder(results);
      out.buf == old(out.buf) + Outputs(s) +
        (if AllRunning(s) then [Call("print_ok", [Str(AllRunningMessage)], map[])] else [])
    ensures ok == !AnyFatal(InServiceOrder(results))
  {
    var sorted := InServiceOrder(results);
    SortedRecordingsKnown(results, sorted);
    var allRunning, fatal := PlayResults(sorted, out);
    if allRunning {
      var _ := out.Record("print_ok", [Str(AllRunningMessage)], map[]);
    }
    ok := !fatal;
  }

  /** The loop of `run_services_checks` over the results in service order. */
  method PlayResults(sorted: seq<CheckResult>, out: BufferedOutput) returns (allRunning: bool, fatal: bool)
    requires RecordingsKnown(sorted)
    modifies out
    ensures out.buf == old(out.buf) + Outputs(sorted)
    ensures allRunning == AllRunning(sorted) && fatal == AnyFatal(sorted)
  {
    allRunning := true;
    fatal := false;
    for i := 0 to |sorted|
      invariant out.buf == old(out.buf) + Outputs(sorted[..i])
      invariant allRunning == AllRunning(sorted[..i])
      invariant fatal == AnyFatal(sorted[..i])
    {
      var r := sorted[i];
      FoldStep(sorted, i);
      match r.outcome
      case None =>
      case Some(o) =>
        allRunning := allRunning && o.running;
        fatal := fatal || o.fatal;
        KnownPlaysThrough(o.output);
        var recording := new BufferedOutput(Some(o.output));
        var played := recording.PlaybackInto(out);
        AppendAssoc(old(out.buf), Outputs(sorted[..i]), o.output);
    }
    assert sorted[..|sorted|] == sorted;
  }

  lemma SortedRecordingsKnown(results: seq<CheckResult>, sorted: seq<CheckResult>)
    requires RecordingsKnown(results) && multiset(sorted) == multiset(results)
    ensures RecordingsKnown(sorted)
  {
    forall i | 0 <= i < |sorted| && sorted[i].outcome.Some?
      ensures AllKnown(sorted[i].outcome.value.output)
    {
      assert sorted[i] in multiset(results);
      var j :| 0 <= j < |results| && results[j] == sorted[i];
    }
  }

  /** One more result: the three folds take one step. */
  lemma FoldStep(s: seq<CheckResult>, i: nat)
    requires i < |s|
    ensures var o := s[i].outcome;
      && Outputs(s[..i + 1]) == Outputs(s[..i]) + (if o.Some? then o.value.output else [])
      && AllRunning(s[..i + 1]) == (AllRunning(s[..i]) && (o.None? || o.value.running))
      && AnyFatal(s[..i + 1]) == (AnyFatal(s[..i]) || (o.Some? && o.value.fatal))
  {
    assert s[..i + 1][..i] == s[..i];
  }

  lemma KnownPlaysThrough(calls: seq<Call>)
    requires AllKnown(calls)
    ensures FirstUnknown(calls) == |calls| && calls[..|calls|] == calls
  {
  }

  /** `all_running` holds exactly when every service that was checked is running. */
  lemma {:induction false} AllRunningMeans(results: seq<CheckResult>)
    ensures AllRunning(results) <==>
      forall r | r in results :: r.outcome.Some? ==> r.outcome.value.running
    decreases |results|
  {
    if results != [] {
      var init := results[..|results| - 1];
      AllRunningMeans(init);
      assert results == init + [results[|results| - 1]];
    }
  }

  /** `fatal` holds exactly when some checked service reported a fatal failure. */
  lemma {:induction false} AnyFatalMeans(results: seq<CheckResult>)
    ensures AnyFatal(results) <==>
      exists r | r in results :: r.outcome.Some? && r.outcome.value.fatal
    decreases |results|
  {
    if results != [] {
      var init := results[..|results| - 1];
      AnyFatalMeans(init);
      assert results == init + [results[|results| - 1]];
    }
  }

  /** The verdict and the success line do not depend on the order the pool returned the results in. */
  lemma VerdictIgnoresOrder(a: seq<CheckResult>, b: seq<CheckResult>)
    requires multiset(a) == multiset(b)
    ensures AnyFatal(InServiceOrder(a)) == AnyFatal(InServiceOrder(b))
    ensures AllRunning(InServiceOrder(a)) == AllRunning(InServiceOrder(b))
  {
    var sa := InServiceOrder(a);
    var sb := InServiceOrder(b);
    AnyFatalMeans(sa);
    AnyFatalMeans(sb);
    AllRunningMeans(sa);
    AllRunningMeans(sb);
    assert forall r :: r in sa <==> r in multiset(sa);
    assert forall r :: r in sb <==> r in multiset(sb);
  }

  /** Skipped services contribute no report lines. */
  lemma {:induction false} OutputsSkipSkipped(results: seq<CheckResult>)
    requires forall r | r in results :: r.outcome.None?
    ensures Outputs(results) == []
    decreases |results|
  {
    if results != [] {
      var init := results[..|results| - 1];
      assert forall r | r in init :: r in results;
      OutputsSkipSkipped(init);
    }
  }
}
