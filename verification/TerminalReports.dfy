/** The terminal report of a job: how it is chosen, and how it is bounded to the orchestrator's schema.
    Strings are sequences of runes. */
module TerminalReports {

  const ELLIPSIS := "\U{2026}"
  const MAX_ERROR_CODE := 64
  const MAX_ERROR_MESSAGE := 2048
  const MAX_FAILURE_CODE := 64
  const MAX_FAILURE_STAGE := 128
  const MAX_FAILURE_PLUGIN := 128
  const MAX_FAILURE_MESSAGE := 2048
  const MAX_DETAILS := 50

  datatype Detail = Detail(code: string, stage: string, plugin: string, message: string)

  datatype Report = Report(status: string, errorCode: string, errorMessage: string, details: seq<Detail>)

  datatype CancelReason = MaxDuration | AuthorizationExpiry | Requested | AgentStopped

  datatype JobResult = JobResult(stagesRun: nat, stagesFailed: nat, errors: seq<string>, failures: seq<Detail>,
                                 cancelled: bool, reason: CancelReason)

  function TruncateRunes(value: string, limit: int): (r: string)
    ensures limit > 0 ==> |r| == if |value| <= limit then |value| else limit
    ensures |value| <= limit ==> r == value
    ensures 0 < limit < |value| ==> r[..limit - 1] == value[..limit - 1] && r[limit - 1] == '\U{2026}'
  {
    if limit <= 0 then ""
    else if |value| <= limit then value
    else if limit == 1 then ELLIPSIS
    else value[..limit - 1] + ELLIPSIS
  }

  function BoundDetail(d: Detail): Detail {
    Detail(TruncateRunes(if d.code == "" then "scanner_error" else d.code, MAX_FAILURE_CODE),
           TruncateRunes(d.stage, MAX_FAILURE_STAGE),
           TruncateRunes(d.plugin, MAX_FAILURE_PLUGIN),
           TruncateRunes(if d.message == "" then "Scanner stage failed without diagnostics" else d.message,
                         MAX_FAILURE_MESSAGE))
  }

  function BoundDetails(ds: seq<Detail>): (r: seq<Detail>)
    ensures |r| == |ds|
    ensures forall i :: 0 <= i < |ds| ==> r[i] == BoundDetail(ds[i])
  {
    seq(|ds|, i requires 0 <= i < |ds| => BoundDetail(ds[i]))
  }

  /** Cancellation diagnostics come last and explain the stop, so that detail survives the trim. */
  function TrimDetails(status: string, ds: seq<Detail>): seq<Detail> {
    if |ds| <= MAX_DETAILS then ds
    else if status == "cancelled" then ds[..MAX_DETAILS - 1] + [ds[|ds| - 1]]
    else ds[..MAX_DETAILS]
  }

  function Bound(r: Report): Report {
    Report(r.status, TruncateRunes(r.errorCode, MAX_ERROR_CODE), TruncateRunes(r.errorMessage, MAX_ERROR_MESSAGE),
           BoundDetails(TrimDetails(r.status, r.details)))
  }

  /** What the orchestrator's schema admits. */
  ghost predicate FitsSchema(r: Report) {
    && |r.errorCode| <= 64 && |r.errorMessage| <= 2048 && |r.details| <= 50
    && forall d :: d in r.details ==>
      0 < |d.code| <= 64 && |d.stage| <= 128 && |d.plugin| <= 128 && 0 < |d.message| <= 2048
  }

  /** A report fits the schema exactly when bounding leaves it alone; so bounding twice is bounding once. */
  lemma BoundsToSchema(r: Report)
    ensures FitsSchema(Bound(r))
    ensures FitsSchema(r) <==> Bound(r) == r
    ensures Bound(Bound(r)) == Bound(r)
  {
  }

  /** Bounding keeps the details in order: all of them, or the first fifty, or, for a cancellation,
      the first forty-nine and the one that says why. */
  lemma BoundKeepsDetails(r: Report)
    ensures var b := Bound(r).details;
      && |b| == (if |r.details| <= 50 then |r.details| else 50)
      && (forall i :: 0 <= i < |b| && i < 49 ==> b[i] == BoundDetail(r.details[i]))
      && (r.details != [] && (r.status == "cancelled" || |r.details| <= 50) ==>
            b[|b| - 1] == BoundDetail(r.details[|r.details| - 1]))
      && (r.status != "cancelled" && |r.details| > 50 ==>
            b[49] == BoundDetail(r.details[49]))
  {
  }

  function CancelCode(reason: CancelReason): string {
    match reason
    case MaxDuration => "max_duration_exceeded"
    case AuthorizationExpiry => "authorization_expired"
    case Requested => "cancellation_requested"
    case AgentStopped => "agent_stopped"
  }

  function CancelMessage(reason: CancelReason): string {
    match reason
    case MaxDuration => "Scan stopped after reaching its signed maximum duration"
    case AuthorizationExpiry => "Scan stopped because its signed authorization window expired"
    case Requested => "Scan was cancelled by an operator request"
    case AgentStopped => "Scan stopped because the Scout execution context ended"
  }

  function Joined(errors: seq<string>): string {
    if errors == [] then "" else if |errors| == 1 then errors[0] else errors[0] + "; " + Joined(errors[1..])
  }

  /** The switch at the end of `Finalize`; `count` stands for the formatted number of failed stages. */
  function TerminalReport(res: JobResult, count: string): Report {
    if res.cancelled then
      var code, message := CancelCode(res.reason), CancelMessage(res.reason);
      Report("cancelled", code, message, res.failures + [Detail(code, "", "", message)])
    else if res.stagesFailed > 0 then
      Report("failed", "scanner_error", count + " stage(s) failed: " + Joined(res.errors), res.failures)
    else if res.stagesRun == 0 then
      var message := "no scanner stages ran" + if res.errors != [] then ": " + Joined(res.errors) else "";
      Report("failed", "no_stages_ran", message,
             if res.failures == [] then [Detail("no_stages_ran", "", "", message)] else res.failures)
    else
      Report("completed", "", "", res.failures)
  }

  /** A job is reported completed only if it ran something and nothing failed; otherwise the bounded
      report says why, and a cancellation's reason is its last detail however many failures came before. */
  lemma ReportIsHonest(res: JobResult, count: string)
    requires res.stagesFailed > 0 ==> res.failures != []
    ensures var b := Bound(TerminalReport(res, count));
      && (b.status == "completed" <==> !res.cancelled && res.stagesFailed == 0 && res.stagesRun > 0)
      && (b.status == "completed" <==> b.errorCode == "")
      && (b.status == "cancelled" <==> res.cancelled)
      && (b.status != "completed" ==> b.details != [])
      && (res.cancelled ==>
            b.errorCode == CancelCode(res.reason)
            && b.details[|b.details| - 1] == Detail(CancelCode(res.reason), "", "", CancelMessage(res.reason)))
  {
    BoundKeepsDetails(TerminalReport(res, count));
    CancelDetailFits(res.reason);
    StatusIsHonest(res, count);
    hide CancelCode, CancelMessage, BoundDetail, Joined, TrimDetails, BoundDetails;
    if res.cancelled {
      var d := Detail(CancelCode(res.reason), "", "", CancelMessage(res.reason));
      assert TerminalReport(res, count).details == res.failures + [d];
    }
  }

  /** Code and message tell the four reasons apart, and the code of an overrun is the one the orchestrator
      grants its grace period to. */
  lemma CancelTellsReason(r: CancelReason, r': CancelReason)
    ensures CancelCode(r) == CancelCode(r') <==> r == r'
    ensures CancelMessage(r) == CancelMessage(r') <==> r == r'
    ensures CancelCode(r) == "max_duration_exceeded" <==> r == MaxDuration
    ensures CancelCode(r) == "authorization_expired" <==> r == AuthorizationExpiry
    ensures CancelCode(r) == "cancellation_requested" <==> r == Requested
  {
    MessageLengths();
    assert "max_duration_exceeded"[0] == 'm' && "authorization_expired"[0] == 'a';
    hide CancelMessage;
  }

  lemma MessageLengths()
    ensures |CancelMessage(MaxDuration)| == 55 && |CancelMessage(AuthorizationExpiry)| == 60
    ensures |CancelMessage(Requested)| == 41 && |CancelMessage(AgentStopped)| == 54
  {
  }

  lemma CancelDetailFits(reason: CancelReason)
    ensures CancelCode(reason) != "" && |CancelCode(reason)| <= MAX_ERROR_CODE
    ensures var d := Detail(CancelCode(reason), "", "", CancelMessage(reason)); BoundDetail(d) == d
  {
  }

  lemma StatusIsHonest(res: JobResult, count: string)
    ensures var r := TerminalReport(res, count);
      && (r.status == "completed" <==> !res.cancelled && res.stagesFailed == 0 && res.stagesRun > 0)
      && (r.status == "completed" <==> r.errorCode == "")
      && (r.status == "cancelled" <==> res.cancelled)
  {
    CancelDetailFits(res.reason);
    hide CancelCode, CancelMessage, Joined;
    assert "failed"[0] != "completed"[0];
    assert "cancelled"[1] != "completed"[1];
    assert "failed"[0] != "cancelled"[0];
  }
}
