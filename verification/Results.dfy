/** Per-target results and the overall status of an apply or destroy. */
module Results {

  datatype RunStatus = Queued | Running | Succeeded | Failed | Skipped | Reverted | Blocked

  datatype ApplyStatus = ApplySucceeded | ApplyPartialFailure | ApplyFailed | ApplyRollbackFailed

  datatype TargetIdent = TargetIdent(component: string, cloud: string, region: string)

  datatype TargetResult = TargetResult(targetId: string, ident: TargetIdent, status: RunStatus)

  function Idents(results: seq<TargetResult>): (r: seq<TargetIdent>)
    ensures |r| == |results| && forall i :: 0 <= i < |r| ==> r[i] == results[i].ident
  {
    seq(|results|, i requires 0 <= i < |results| => results[i].ident)
  }

  ghost predicate Any(results: seq<TargetResult>, statuses: set<RunStatus>) {
    exists i :: 0 <= i < |results| && results[i].status in statuses
  }

  /** `summarizeApplyStatus`. A result still queued or running counts for nothing. */
  method Summarize(results: seq<TargetResult>) returns (r: ApplyStatus)
    ensures r == ApplySucceeded <==> !Any(results, {Failed, Reverted, Skipped, Blocked})
    ensures r == ApplyFailed <==> Any(results, {Failed, Reverted, Skipped, Blocked}) && !Any(results, {Succeeded})
    ensures r != ApplyRollbackFailed
  {
    var succeeded, failed, skipped := 0, 0, 0;
    for i := 0 to |results|
      invariant succeeded >= 0 && failed >= 0 && skipped >= 0
      invariant succeeded > 0 <==> Any(results[..i], {Succeeded})
      invariant failed > 0 <==> Any(results[..i], {Failed, Reverted})
      invariant skipped > 0 <==> Any(results[..i], {Skipped, Blocked})
    {
      match results[i].status
      case Succeeded => succeeded := succeeded + 1;
      case Failed => failed := failed + 1;
      case Skipped => skipped := skipped + 1;
      case Blocked => skipped := skipped + 1;
      case Reverted => failed := failed + 1;
      case _ =>
    }
    assert results[..|results|] == results;
    if failed == 0 && skipped == 0 {
      return ApplySucceeded;
    }
    if succeeded == 0 {
      return ApplyFailed;
    }
    return ApplyPartialFailure;
  }
}
