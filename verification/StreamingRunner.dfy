/** `Workflow.RunStreaming`: the nested loops, proved against the trace they are meant to produce. */
module StreamingRunner {
  import opened Workflow
  import opened RunContents

  type Registry = map<string, Scanner>

  /** `NewWorkflow` registers every scanner under its own name. */
  ghost predicate Registered(byPlugin: Registry) {
    forall p :: p in byPlugin ==> byPlugin[p].name == p
  }

  function Runnable(workflow: seq<StageSpec>, byPlugin: Registry): seq<RunStage> {
    if workflow == [] then []
    else
      var last := workflow[|workflow| - 1];
      var rest := Runnable(workflow[..|workflow| - 1], byPlugin);
      if last.plugin in byPlugin then rest + [RunStage(byPlugin[last.plugin], last.stage, last.plugin)] else rest
  }

  function Unavailable(workflow: seq<StageSpec>, byPlugin: Registry): seq<Failure> {
    if workflow == [] then []
    else
      var last := workflow[|workflow| - 1];
      var rest := Unavailable(workflow[..|workflow| - 1], byPlugin);
      if last.plugin in byPlugin then rest
      else rest + [Failure("scanner_unavailable", last.stage, last.plugin)]
  }

  /** One failure per failed stage, whatever the number of failed chunks. */
  function StageFailures(job: Job, n: nat): seq<Failure>
    requires n <= |job.stages|
  {
    if n == 0 then []
    else
      var rest := StageFailures(job, n - 1);
      var st := job.stages[n - 1];
      if job.Failed(n - 1, job.ChunksOf(n - 1)) then rest + [Failure("scanner_error", st.stage, st.scanner.name)]
      else rest
  }

  /** There is one failure for each stage with a failed run. */
  lemma {:induction false} FailuresCounted(job: Job, n: nat)
    requires n <= |job.stages|
    ensures |StageFailures(job, n)| == |FailedStages(job, n)| <= n
  {
    hide Fails, Job.Failed, HasRun;
    if n == 0 {
      assert FailedStages(job, 0) == {};
    } else {
      FailuresCounted(job, n - 1);
      StageMeans(job, n - 1, job.Marker(n - 1));
      var before := FailedStages(job, n - 1);
      assert FailedStages(job, n) == if Fails(job, n - 1) then before + {n - 1} else before;
    }
  }

  /** The failures are those of the stages with a failed run. */
  lemma {:induction false} FailuresMean(job: Job, n: nat, f: Failure)
    requires n <= |job.stages|
    ensures f in StageFailures(job, n) <==> exists si :: 0 <= si < n && IsFailure(job, si, f)
  {
    hide Fails, Job.Failed, HasRun;
    if n > 0 {
      FailuresMean(job, n - 1, f);
      StageMeans(job, n - 1, job.Marker(n - 1));
      assert f in StageFailures(job, n) <==> f in StageFailures(job, n - 1) || IsFailure(job, n - 1, f);
    }
  }

  ghost predicate IsFailure(job: Job, si: nat, f: Failure)
    requires si < |job.stages|
  {
    Fails(job, si) && f == Failure("scanner_error", job.stages[si].stage, job.stages[si].scanner.name)
  }

  lemma {:induction false} EveryStageIsCounted(job: Job, n: nat)
    requires n <= |job.stages|
    ensures |job.MarkersOfStages(n)| + |StageFailures(job, n)| == n
  {
    if n > 0 { EveryStageIsCounted(job, n - 1); }
  }

  function StageFailure(job: Job, k: nat): Failure
    requires k < |job.stages|
  {
    Failure("scanner_error", job.stages[k].stage, job.stages[k].scanner.name)
  }

  /** With distinct scanners a stage that is over has its failure or its marker, and never both. */
  lemma {:induction false} EveryStageEndsOnce(job: Job, n: nat, k: nat)
    requires DistinctScanners(job.stages) && n <= |job.stages| && k < |job.stages|
    ensures StageFailure(job, k) in StageFailures(job, n) <==> k < n && Fails(job, k)
    ensures job.Marker(k) in job.MarkersOfStages(n) <==> k < n && !Fails(job, k)
  {
    hide Job.Failed, Fails;
    StageMeans(job, k, job.Marker(k));
    if n > 0 {
      EveryStageEndsOnce(job, n - 1, k);
      assert k != n - 1 ==> job.stages[k].scanner.name != job.stages[n - 1].scanner.name;
    }
  }

  lemma {:induction false} EveryEntryIsCounted(workflow: seq<StageSpec>, byPlugin: Registry)
    ensures |Runnable(workflow, byPlugin)| + |Unavailable(workflow, byPlugin)| == |workflow|
  {
    if workflow != [] { EveryEntryIsCounted(workflow[..|workflow| - 1], byPlugin); }
  }

  /** The entries in front of `k` whose plugin is installed. */
  ghost function InstalledBefore(workflow: seq<StageSpec>, byPlugin: Registry, k: nat): set<nat>
    requires k <= |workflow|
  {
    set i: nat | i < k && workflow[i].plugin in byPlugin
  }

  /** An installed entry is run in its turn, by its own scanner. */
  lemma {:induction false} ResolvedInTurn(workflow: seq<StageSpec>, byPlugin: Registry, k: nat)
    requires k < |workflow| && workflow[k].plugin in byPlugin
    ensures |Runnable(workflow, byPlugin)| == |InstalledBefore(workflow, byPlugin, |workflow|)|
    ensures var i, e := |InstalledBefore(workflow, byPlugin, k)|, workflow[k];
      && i < |Runnable(workflow, byPlugin)|
      && Runnable(workflow, byPlugin)[i] == RunStage(byPlugin[e.plugin], e.stage, e.plugin)
  {
    var n := |workflow| - 1;
    InstalledCounted(workflow, byPlugin);
    InstalledCounted(workflow[..n], byPlugin);
    assert InstalledBefore(workflow[..n], byPlugin, n) == InstalledBefore(workflow, byPlugin, n);
    if k < n {
      ResolvedInTurn(workflow[..n], byPlugin, k);
      assert InstalledBefore(workflow[..n], byPlugin, k) == InstalledBefore(workflow, byPlugin, k);
    }
  }

  lemma {:induction false} InstalledCounted(workflow: seq<StageSpec>, byPlugin: Registry)
    ensures |Runnable(workflow, byPlugin)| == |InstalledBefore(workflow, byPlugin, |workflow|)|
  {
    if workflow == [] {
      assert InstalledBefore(workflow, byPlugin, 0) == {};
    } else {
      var n := |workflow| - 1;
      InstalledCounted(workflow[..n], byPlugin);
      var before := InstalledBefore(workflow[..n], byPlugin, n);
      assert InstalledBefore(workflow, byPlugin, n + 1) == if workflow[n].plugin in byPlugin then before + {n}
        else before;
    }
  }

  /** Every entry whose plugin is missing has its failure, and nothing else has. */
  lemma {:induction false} MissingAreRecorded(workflow: seq<StageSpec>, byPlugin: Registry, f: Failure)
    ensures f in Unavailable(workflow, byPlugin) <==>
      exists e :: e in workflow && e.plugin !in byPlugin && f == Failure("scanner_unavailable", e.stage, e.plugin)
  {
    if workflow != [] {
      var before, last := workflow[..|workflow| - 1], workflow[|workflow| - 1];
      MissingAreRecorded(before, byPlugin, f);
      assert workflow == before + [last];
    }
  }

  ghost predicate DistinctPlugins(workflow: seq<StageSpec>) {
    forall i, j :: 0 <= i < j < |workflow| ==> workflow[i].plugin != workflow[j].plugin
  }

  /** A workflow that names each plugin once runs each scanner once. */
  lemma {:induction false} DistinctPluginsRunDistinctScanners(workflow: seq<StageSpec>, byPlugin: Registry)
    requires Registered(byPlugin) && DistinctPlugins(workflow)
    ensures DistinctScanners(Runnable(workflow, byPlugin))
    ensures forall st :: st in Runnable(workflow, byPlugin) ==>
      exists k :: 0 <= k < |workflow| && workflow[k].plugin == st.scanner.name
  {
    if workflow != [] {
      var before, last := workflow[..|workflow| - 1], workflow[|workflow| - 1];
      var rest := Runnable(before, byPlugin);
      DistinctPluginsRunDistinctScanners(before, byPlugin);
      forall st | st in rest
        ensures st.scanner.name != last.plugin
        ensures exists k :: 0 <= k < |workflow| && workflow[k].plugin == st.scanner.name
      {
        var k :| 0 <= k < |before| && before[k].plugin == st.scanner.name;
        assert workflow[k].plugin == st.scanner.name;
      }
      assert workflow[|workflow| - 1].plugin == last.plugin;
      forall i, j | 0 <= i < j < |Runnable(workflow, byPlugin)|
        ensures Runnable(workflow, byPlugin)[i].scanner.name != Runnable(workflow, byPlugin)[j].scanner.name
      {
        assert rest[i] in rest;
      }
    }
  }

  lemma {:induction false} RunnableScanners(workflow: seq<StageSpec>, byPlugin: Registry)
    requires Registered(byPlugin)
    ensures forall st :: st in Runnable(workflow, byPlugin) ==>
      st.scanner.name in byPlugin && st.scanner == byPlugin[st.scanner.name]
  {
    if workflow != [] { RunnableScanners(workflow[..|workflow| - 1], byPlugin); }
  }

  ghost predicate AlwaysLegal(stages: seq<RunStage>, chunks: nat) {
    forall run: (nat, nat) -> ChunkRun, hasSink: bool, accepts: nat -> bool ::
      Legal(Job(stages, chunks, run, hasSink, accepts).AfterStages(|stages|))
  }

  /** The delivery path gets a legal trace whatever the scanners and the sink do, if and only if no
      scanner that is installed is named twice. */
  lemma LegalExactlyWithDistinctScanners(workflow: seq<StageSpec>, byPlugin: Registry, chunks: nat)
    requires Registered(byPlugin) && chunks > 0
    ensures AlwaysLegal(Runnable(workflow, byPlugin), chunks) <==> DistinctScanners(Runnable(workflow, byPlugin))
  {
    hide Legal, Job.AfterStages;
    var stages := Runnable(workflow, byPlugin);
    if DistinctScanners(stages) {
      forall run: (nat, nat) -> ChunkRun, hasSink: bool, accepts: nat -> bool
        ensures Legal(Job(stages, chunks, run, hasSink, accepts).AfterStages(|stages|))
      {
        StagesLegal(Job(stages, chunks, run, hasSink, accepts), |stages|);
      }
    } else {
      var i, j :| 0 <= i < j < |stages| && stages[i].scanner.name == stages[j].scanner.name;
      RunnableScanners(workflow, byPlugin);
      assert stages[i] in stages && stages[j] in stages;
      var accepts := (n: nat) => true;
      RepeatedScannerBreaks(Job(stages, chunks, AlwaysX(), false, accepts), i, j);
    }
  }

  // ----- Progress -----

  /** The reported percentage: never 100 before the terminal report. */
  function Percent(units: real, total: nat): (p: int)
    ensures 0 <= p <= 99
  {
    if total == 0 then 0
    else
      var p := (units * 100.0 / (total as real)).Floor;
      if p >= 100 then 99 else if p < 0 then 0 else p
  }

  /** It is the whole part of a hundred times the share done, up to 99. */
  lemma PercentMeans(units: real, total: nat)
    requires 0.0 <= units && total > 0
    ensures var p, share := Percent(units, total), units * 100.0 / total as real;
      p as real <= share && (p < 99 ==> share < (p + 1) as real)
  {
    DivideMonotone(0.0, units * 100.0, total as real);
  }

  lemma ScaleReal(x: real, y: real, t: real)
    requires t > 0.0
    ensures x <= y ==> x * t <= y * t
    ensures x < y ==> x * t < y * t
  {
  }

  lemma PercentMonotone(a: real, b: real, total: nat)
    requires a <= b
    ensures Percent(a, total) <= Percent(b, total)
  {
    if total > 0 {
      DivideMonotone(a * 100.0, b * 100.0, total as real);
      FloorMonotone(a * 100.0 / (total as real), b * 100.0 / (total as real));
    }
  }

  lemma DivideMonotone(x: real, y: real, t: real)
    requires x <= y && t > 0.0
    ensures x / t <= y / t
  {
    assert y / t - x / t == (y - x) / t;
  }

  lemma FloorMonotone(x: real, y: real)
    requires x <= y
    ensures x.Floor <= y.Floor
  {
  }

  /** The share of a chunk its scanner reports done. */
  function Fraction(done: int, addresses: nat): (f: real)
    ensures f <= 1.0
    ensures done >= 0 ==> f >= 0.0
  {
    if addresses == 0 then 0.0
    else
      var f := done as real / (addresses as real);
      if f > 1.0 then 1.0 else f
  }

  /** It counts the hosts done against the addresses, up to all of them. */
  lemma FractionMeans(done: int, addresses: nat)
    requires addresses > 0
    ensures Fraction(done, addresses) * addresses as real == (if done <= addresses then done else addresses) as real
  {
    var a, f := addresses as real, done as real / addresses as real;
    assert f * a == done as real;
    ScaleReal(1.0, f, a);
    ScaleReal(f, 1.0, a);
  }

  lemma FractionMonotone(a: int, b: int, addresses: nat)
    requires a <= b
    ensures Fraction(a, addresses) <= Fraction(b, addresses)
  {
    if addresses > 0 { DivideMonotone(a as real, b as real, addresses as real); }
  }

  /** A streamer that never takes back a host count. */
  ghost predicate Honest(events: seq<ScanEvent>) {
    && (forall i :: 0 <= i < |events| && events[i].Hosts? ==> events[i].done >= 0)
    && (forall i, j :: 0 <= i < j < |events| && events[i].Hosts? && events[j].Hosts? ==>
        events[i].done <= events[j].done)
  }

  ghost predicate HonestJob(job: Job) {
    forall si: nat, ci: nat :: Honest(job.run(si, ci).events)
  }

  /** Percentages never decrease and stay at or below `top`. */
  ghost predicate Ascending(reports: seq<Progress>, top: int) {
    && (forall i, j :: 0 <= i < j < |reports| ==> reports[i].percent <= reports[j].percent)
    && (forall i :: 0 <= i < |reports| ==> reports[i].percent <= top)
  }

  lemma AscendingAppend(reports: seq<Progress>, top: int, p: Progress)
    requires Ascending(reports, top) && top <= p.percent
    ensures Ascending(reports + [p], p.percent)
  {
  }

  lemma AscendingRaise(reports: seq<Progress>, top: int, top': int)
    requires Ascending(reports, top) && top <= top'
    ensures Ascending(reports, top')
  {
  }

  function Snapshot(res: RunResult, units: real, total: nat): Progress {
    Progress(Percent(units, total), res.stagesRun, res.stagesFailed, res.stagesSkipped, units, total)
  }

  /** Reports say what they count: the percentage of the units done, and tallies within the stage total. */
  ghost predicate Sound(reports: seq<Progress>, stagesTotal: nat, total: nat) {
    forall i :: 0 <= i < |reports| ==> SoundReport(reports[i], stagesTotal, total)
  }

  ghost predicate SoundReport(p: Progress, stagesTotal: nat, total: nat) {
    && p.unitsTotal == total
    && p.percent == Percent(p.unitsDone, total)
    && p.stagesRun + p.stagesFailed + p.stagesSkipped <= stagesTotal
  }

  /** What the loops carry: the outputs kept so far, and whether the current stage lost one to the sink. */
  datatype Delivery = Delivery(trace: seq<Act>, outputs: seq<StageOutput>, calls: nat, deliveryFailed: bool)
  {
    ghost predicate Of(start: nat) {
      && outputs == Carried(trace)
      && calls == SinkCalls(trace)
      && deliveryFailed == AnyRefused(trace, start)
    }
  }

  lemma HostsAscend(reports: seq<Progress>, res: RunResult, base: nat, total: nat, done: int, n: int, addresses: nat)
    requires Ascending(reports, Percent(base as real + Fraction(done, addresses), total)) && done <= n
    ensures var p := Snapshot(res, base as real + Fraction(n, addresses), total);
      Ascending(reports + [p], p.percent)
  {
    FractionMonotone(done, n, addresses);
    PercentMonotone(base as real + Fraction(done, addresses), base as real + Fraction(n, addresses), total);
    AscendingAppend(reports, Percent(base as real + Fraction(done, addresses), total),
                    Snapshot(res, base as real + Fraction(n, addresses), total));
  }

  /** The `deliver` closure, and the end-of-stage marker when it is offered. */
  method Offer(job: Job, out: StageOutput, d: Delivery, ghost start: nat) returns (r: Delivery)
    requires d.Of(start) && start <= |d.trace|
    ensures r.trace == d.trace + [job.Offer(d.trace, out)] && r.Of(start)
  {
    OutsAppend(d.trace, job.Offer(d.trace, out));
    assert (d.trace + [job.Offer(d.trace, out)])[..|d.trace|] == d.trace;
    if !job.hasSink {
      r := d.(trace := d.trace + [Kept(out)], outputs := d.outputs + [out]);
    } else if job.accepts(d.calls) {
      r := d.(trace := d.trace + [Sent(out)], calls := d.calls + 1);
    } else {
      r := Delivery(d.trace + [Refused(out)], d.outputs + [out], d.calls + 1, true);
    }
  }

  /** One scanner over one chunk: batches are delivered as they come, host counts move the bar. */
  method RunChunk(job: Job, si: nat, ci: nat, d: Delivery, ghost start: nat, res: RunResult,
                  base: nat, total: nat, reported: seq<Progress>) returns (r: Delivery, reports: seq<Progress>)
    requires si < |job.stages| && d.Of(start) && start <= |d.trace|
    requires res.stagesRun + res.stagesFailed + res.stagesSkipped <= res.stagesTotal
    requires Sound(reported, res.stagesTotal, total)
    ensures r.trace == job.AfterEvents(d.trace, si, job.Events(si, ci)) && r.Of(start) && start <= |r.trace|
    ensures Sound(reports, res.stagesTotal, total)
    ensures HonestJob(job) && Ascending(reported, Percent(base as real, total))
      ==> Ascending(reports, Percent((base + 1) as real, total))
  {
    hide Percent, Fraction, Ascending, Carried, AnyRefused, Sound, SinkCalls;
    var events, addresses := job.Events(si, ci), job.run(si, ci).addresses;
    r, reports := d, reported;
    ghost var done, honest := 0, HonestJob(job) && Ascending(reported, Percent(base as real, total));
    assert honest ==> Honest(job.run(si, ci).events);
    PercentMonotone(base as real, base as real + Fraction(0, addresses), total);
    if honest {
      AscendingRaise(reports, Percent(base as real, total), Percent(base as real + Fraction(0, addresses), total));
    }
    for i := 0 to |events|
      invariant r.trace == job.AfterEvents(d.trace, si, events[..i]) && r.Of(start) && start <= |r.trace|
      invariant Sound(reports, res.stagesTotal, total)
      invariant honest ==> Ascending(reports, Percent(base as real + Fraction(done, addresses), total))
      invariant honest ==> forall k :: i <= k < |events| && events[k].Hosts? ==> done <= events[k].done
    {
      assert events[..i + 1][..i] == events[..i];
      match events[i]
      case Batch(raw) =>
        if raw != "" {
          r := Offer(job, StageOutput(job.stages[si].scanner.stage, job.stages[si].scanner.name, raw, false), r, start);
        }
      case Hosts(n) =>
        reports := ReportHosts(reports, res, base, total, done, n, addresses, honest);
        done := n;
    }
    assert events[..|events|] == events;
    PercentMonotone(base as real + Fraction(done, addresses), (base + 1) as real, total);
    if honest {
      AscendingRaise(reports, Percent(base as real + Fraction(done, addresses), total),
                     Percent((base + 1) as real, total));
    }
  }

  method ReportHosts(reports: seq<Progress>, res: RunResult, base: nat, total: nat, ghost done: int, n: int,
                     addresses: nat, ghost honest: bool) returns (r: seq<Progress>)
    requires res.stagesRun + res.stagesFailed + res.stagesSkipped <= res.stagesTotal
    requires Sound(reports, res.stagesTotal, total)
    requires honest ==> done <= n && Ascending(reports, Percent(base as real + Fraction(done, addresses), total))
    ensures r == reports + [Snapshot(res, base as real + Fraction(n, addresses), total)]
    ensures Sound(r, res.stagesTotal, total)
    ensures honest ==> Ascending(r, Percent(base as real + Fraction(n, addresses), total))
  {
    r := reports + [Snapshot(res, base as real + Fraction(n, addresses), total)];
    if honest { HostsAscend(reports, res, base, total, done, n, addresses); }
  }

  /** The state between stages: what the source keeps in `res`, `completed` and the sink. */
  datatype Run = Run(d: Delivery, res: RunResult, completed: nat, reports: seq<Progress>, checks: nat)
  {
    ghost predicate Reporting(job: Job, total: nat) {
      && res.stagesRun + res.stagesFailed + res.stagesSkipped <= res.stagesTotal
      && Sound(reports, res.stagesTotal, total)
      && (HonestJob(job) ==> Ascending(reports, Percent(completed as real, total)))
    }

    ghost predicate Stopped(job: Job, total: nat) {
      && res.cancelled
      && Sound(reports, res.stagesTotal, total)
      && (HonestJob(job) ==> Ascending(reports, 99))
    }

    /** `n` stages are over, and every count says so. */
    ghost predicate After(job: Job, n: nat, skipped: seq<Failure>, total: nat)
      requires n <= |job.stages|
    {
      && d.trace == job.AfterStages(n) && d.outputs == Carried(d.trace) && d.calls == SinkCalls(d.trace)
      && completed == job.Units(n)
      && res.stagesTotal == |job.stages| + |skipped| && res.stagesSkipped == |skipped|
      && res.stagesRun == |job.MarkersOfStages(n)| && res.stagesFailed == |StageFailures(job, n)|
      && res.failures == skipped + StageFailures(job, n)
      && !res.cancelled
      && Reporting(job, total)
      && reports != [] && reports[|reports| - 1].unitsDone == completed as real
    }
  }

  method Emit(job: Job, run: Run, total: nat) returns (r: Run)
    requires run.Reporting(job, total)
    ensures r.Reporting(job, total)
    ensures r == run.(reports := run.reports + [Snapshot(run.res, run.completed as real, total)])
  {
    r := run.(reports := run.reports + [Snapshot(run.res, run.completed as real, total)]);
    if HonestJob(job) { AscendingAppend(run.reports, Percent(run.completed as real, total), r.reports[|run.reports|]); }
  }

  /** The body of the stage loop. A cancellation is noticed before a chunk or after it. */
  method ExecuteChunks(job: Job, si: nat, run: Run, total: nat, cancelled: nat -> bool, ghost skipped: seq<Failure>)
    returns (r: Run, stopped: bool, stageRan: bool, stageFailed: bool, ghost chunksRun: nat)
    requires si < |job.stages| && run.After(job, si, skipped, total)
    ensures chunksRun <= job.ChunksOf(si)
    ensures r.d.trace == job.Cut(si, chunksRun) && r.d.Of(|run.d.trace|) && |run.d.trace| <= |r.d.trace|
    ensures r.res == run.res.(cancelled := stopped, failures := run.res.failures + (
        if stageFailed then [Failure("scanner_error", job.stages[si].stage, job.stages[si].scanner.name)] else []))
    ensures stopped ==> r.Stopped(job, total)
    ensures !stopped ==> chunksRun == job.ChunksOf(si) && r.completed == run.completed + chunksRun
    ensures !stopped ==> stageFailed == job.Failed(si, chunksRun) && (chunksRun > 0 ==> stageRan || stageFailed)
    ensures !stopped ==> r.Reporting(job, total)
  {
    hide Percent, Carried, AnyRefused, SinkCalls, Sound, Ascending;
    r := run.(d := run.d.(deliveryFailed := false));
    ghost var start := |run.d.trace|;
    assert !AnyRefused(run.d.trace, start) by { AnyRefusedMeans(run.d.trace, start); }
    stopped, stageRan, stageFailed, chunksRun := false, false, false, 0;
    for ci := 0 to job.ChunksOf(si)
      invariant chunksRun == ci
      invariant r.d.trace == job.Cut(si, ci) && r.d.Of(start) && start <= |r.d.trace|
      invariant stageFailed == job.Failed(si, ci) && (ci > 0 ==> stageRan || stageFailed)
      invariant r.res == run.res.(failures := run.res.failures + (
        if stageFailed then [Failure("scanner_error", job.stages[si].stage, job.stages[si].scanner.name)] else []))
      invariant r.Reporting(job, total) && r.completed == run.completed + ci
    {
      r := r.(checks := r.checks + 1);
      if cancelled(r.checks) {
        if HonestJob(job) { AscendingRaise(r.reports, Percent(r.completed as real, total), 99); }
        r := r.(res := r.res.(cancelled := true));
        return r, true, stageRan, stageFailed, chunksRun;
      }
      var d, reports := RunChunk(job, si, ci, r.d, start, r.res, r.completed, total, r.reports);
      chunksRun := ci + 1;
      r := r.(d := d, reports := reports, checks := r.checks + 1);
      if cancelled(r.checks) {
        if HonestJob(job) { AscendingRaise(r.reports, Percent((r.completed + 1) as real, total), 99); }
        r := r.(res := r.res.(cancelled := true));
        return r, true, stageRan, stageFailed, chunksRun;
      }
      r := r.(completed := r.completed + 1);
      if job.run(si, ci).failed {
        if !stageFailed {
          r := r.(res := r.res.(failures := r.res.failures
                  + [Failure("scanner_error", job.stages[si].stage, job.stages[si].scanner.name)]));
        }
        stageFailed := true;
      } else {
        stageRan := true;
      }
      r := Emit(job, r, total);
    }
  }

  method ExecuteStage(job: Job, si: nat, run: Run, total: nat, cancelled: nat -> bool, ghost skipped: seq<Failure>)
    returns (r: Run, stopped: bool, ghost chunksRun: nat)
    requires si < |job.stages| && job.ChunksOf(si) > 0 && run.After(job, si, skipped, total)
    ensures !stopped ==> r.After(job, si + 1, skipped, total)
    ensures stopped ==> chunksRun <= job.ChunksOf(si) && r.d.trace == job.Cut(si, chunksRun)
    ensures stopped ==> r.d.outputs == Carried(r.d.trace) && r.Stopped(job, total)
    ensures stopped ==> r.res == run.res.(cancelled := true, failures := r.res.failures)
    ensures run.res.failures <= r.res.failures
  {
    var stageRan, stageFailed;
    r, stopped, stageRan, stageFailed, chunksRun := ExecuteChunks(job, si, run, total, cancelled, skipped);
    if stopped { return; }
    hide Percent, Carried, AnyRefused, SinkCalls, Sound, Ascending, Job.AfterChunks, Job.AfterStage, HonestJob;
    var d := FinishStage(job, si, run.d.trace, r.d, stageFailed);
    assert d.trace == job.AfterStages(si + 1);
    StageFits(job, si, run, skipped, total);
    if stageFailed {
      r := r.(d := d, res := r.res.(stagesFailed := r.res.stagesFailed + 1));
    } else if stageRan {
      r := r.(d := d, res := r.res.(stagesRun := r.res.stagesRun + 1));
    }
    r := Emit(job, r, total);
    StageDone(job, si, run, r, stageFailed, skipped, total);
  }

  lemma StageFits(job: Job, si: nat, run: Run, skipped: seq<Failure>, total: nat)
    requires si < |job.stages| && run.After(job, si, skipped, total)
    ensures run.res.stagesRun + run.res.stagesFailed + run.res.stagesSkipped < run.res.stagesTotal
  {
    EveryStageIsCounted(job, si);
  }

  lemma StageDone(job: Job, si: nat, run: Run, r: Run, stageFailed: bool, skipped: seq<Failure>, total: nat)
    requires si < |job.stages| && run.After(job, si, skipped, total)
    requires stageFailed == job.Failed(si, job.ChunksOf(si))
    requires r.d.trace == job.AfterStages(si + 1) && r.d.outputs == Carried(r.d.trace)
      && r.d.calls == SinkCalls(r.d.trace)
    requires r.completed == run.completed + job.ChunksOf(si)
    requires r.res == if stageFailed
      then run.res.(stagesFailed := run.res.stagesFailed + 1, failures := run.res.failures +
        [Failure("scanner_error", job.stages[si].stage, job.stages[si].scanner.name)])
      else run.res.(stagesRun := run.res.stagesRun + 1)
    requires r.Reporting(job, total) && r.reports != [] && r.reports[|r.reports| - 1].unitsDone == r.completed as real
    ensures r.After(job, si + 1, skipped, total)
  {
    hide Percent, Carried, AnyRefused, SinkCalls, Sound, Ascending, HonestJob, Job.AfterStages, Job.Failed;
  }

  /** The marker of a stage that did not fail is offered only if the sink took all its batches. */
  method FinishStage(job: Job, si: nat, ghost before: seq<Act>, d: Delivery, stageFailed: bool) returns (r: Delivery)
    requires si < |job.stages| && d.Of(|before|) && |before| <= |d.trace|
    requires d.trace == job.AfterChunks(before, si, job.ChunksOf(si))
    requires stageFailed == job.Failed(si, job.ChunksOf(si))
    ensures r.trace == job.AfterStage(before, si)
    ensures r.outputs == Carried(r.trace) && r.calls == SinkCalls(r.trace)
  {
    hide Carried, AnyRefused, SinkCalls, Job.AfterChunks;
    r := d;
    if !stageFailed {
      var marker := StageOutput(job.stages[si].scanner.stage, job.stages[si].scanner.name, "", true);
      if !job.hasSink || d.deliveryFailed {
        OutsAppend(d.trace, Kept(marker));
        r := d.(trace := d.trace + [Kept(marker)], outputs := d.outputs + [marker]);
      } else {
        r := Offer(job, marker, d, |before|);
      }
    }
  }

  /** Resolves the workflow against the registry: unavailable plugins are recorded, not swallowed. */
  method Resolve(workflow: seq<StageSpec>, byPlugin: Registry) returns (stages: seq<RunStage>, skipped: seq<Failure>)
    ensures stages == Runnable(workflow, byPlugin) && skipped == Unavailable(workflow, byPlugin)
  {
    stages, skipped := [], [];
    for i := 0 to |workflow|
      invariant stages == Runnable(workflow[..i], byPlugin) && skipped == Unavailable(workflow[..i], byPlugin)
    {
      assert workflow[..i + 1][..i] == workflow[..i];
      var entry := workflow[i];
      if entry.plugin in byPlugin {
        stages := stages + [RunStage(byPlugin[entry.plugin], entry.stage, entry.plugin)];
      } else {
        skipped := skipped + [Failure("scanner_unavailable", entry.stage, entry.plugin)];
      }
    }
    assert workflow[..|workflow|] == workflow;
  }

  method CountUnits(job: Job) returns (total: nat)
    ensures total == job.Units(|job.stages|) == TotalRuns(job)
  {
    UnitsMean(job, |job.stages|);
    total := 0;
    for i := 0 to |job.stages|
      invariant total == job.Units(i)
    {
      if job.stages[i].scanner.stage == DISCOVERY { total := total + job.chunks; } else { total := total + 1; }
    }
  }

  /** Every failed stage has its failure in the result; without a cancellation every stage counts as run or
      as failed, and the failures are those and the plugins that are missing. */
  ghost predicate Accounted(job: Job, skipped: seq<Failure>, res: RunResult) {
    && res.stagesFailed <= |res.failures|
    && (!res.cancelled ==>
          && res.stagesFailed == |FailedStages(job, |job.stages|)|
          && res.stagesRun + res.stagesFailed == |job.stages|
          && res.failures == skipped + StageFailures(job, |job.stages|))
  }

  lemma AfterIsAccounted(job: Job, run: Run, n: nat, skipped: seq<Failure>, total: nat, res: RunResult)
    requires n <= |job.stages| && run.After(job, n, skipped, total)
    requires res.stagesRun == run.res.stagesRun && res.stagesFailed == run.res.stagesFailed
      && run.res.failures <= res.failures
    requires !res.cancelled ==> n == |job.stages| && res.failures == run.res.failures
    ensures Accounted(job, skipped, res)
  {
    hide Run.Reporting, FailedStages;
    FailuresCounted(job, n);
    EveryStageIsCounted(job, n);
  }

  /** `RunStreaming`. The trace is exactly the one the scanners' behaviour and the sink's answers
      determine, cut where a cancellation was noticed; the result carries what the sink did not take. */
  method RunStreaming(workflow: seq<StageSpec>, byPlugin: Registry, chunks: nat, run: (nat, nat) -> ChunkRun,
                      hasSink: bool, accepts: nat -> bool, cancelled: nat -> bool)
    returns (res: RunResult, trace: seq<Act>, reports: seq<Progress>)
    requires Registered(byPlugin) && chunks > 0
    ensures var job := Job(Runnable(workflow, byPlugin), chunks, run, hasSink, accepts);
      && (!res.cancelled ==> trace == job.AfterStages(|job.stages|))
      && (res.cancelled ==>
            exists si, n :: 0 <= si < |job.stages| && 0 <= n <= job.ChunksOf(si) && trace == job.Cut(si, n))
      && res.outputs == Carried(trace)
      && (if res.cancelled then DeliversOnly(job, trace) else DeliversAll(job, trace))
      && (DistinctPlugins(workflow) ==> Legal(trace))
      && res.stagesTotal == |workflow| && res.stagesSkipped == |Unavailable(workflow, byPlugin)|
      && res.stagesRun + res.stagesFailed + res.stagesSkipped <= |workflow|
      && Accounted(job, Unavailable(workflow, byPlugin), res)
      && (!res.cancelled ==>
            && res.stagesRun + res.stagesFailed + res.stagesSkipped == |workflow|
            && reports != [] && reports[|reports| - 1].unitsDone == TotalRuns(job) as real)
      && TotalRuns(job) >= 0 && Sound(reports, |workflow|, TotalRuns(job))
      && (HonestJob(job) ==> Ascending(reports, 99))
  {
    hide Percent, Carried, AnyRefused, SinkCalls, Sound, Ascending, HonestJob, Legal, Job.AfterStage,
      Job.AfterChunks, Accounted, DeliversAll, DeliversOnly, TotalRuns;
    var stages, skipped := Resolve(workflow, byPlugin);
    var job := Job(stages, chunks, run, hasSink, accepts);
    EveryEntryIsCounted(workflow, byPlugin);
    if DistinctPlugins(workflow) { DistinctPluginsRunDistinctScanners(workflow, byPlugin); }
    var total := CountUnits(job);
    var r := Start(job, skipped, total);
    for si := 0 to |stages|
      invariant r.After(job, si, skipped, total)
    {
      var stopped;
      ghost var chunksRun;
      ghost var before := r;
      r, stopped, chunksRun := ExecuteStage(job, si, r, total, cancelled, skipped);
      if stopped {
        if DistinctPlugins(workflow) { CutLegal(job, si, chunksRun); }
        EveryStageIsCounted(job, si);
        CutIsPrefix(job, si, chunksRun);
        FirstPartDelivers(job, job.Cut(si, chunksRun));
        AfterIsAccounted(job, before, si, skipped, total, r.res.(outputs := r.d.outputs));
        return r.res.(outputs := r.d.outputs), r.d.trace, r.reports;
      }
    }
    if DistinctPlugins(workflow) { StagesLegal(job, |stages|); }
    EveryStageIsCounted(job, |stages|);
    WholeTraceDelivers(job);
    AfterIsAccounted(job, r, |stages|, skipped, total, r.res.(outputs := r.d.outputs));
    if HonestJob(job) { AscendingRaise(r.reports, Percent(r.completed as real, total), 99); }
    return r.res.(outputs := r.d.outputs), r.d.trace, r.reports;
  }

  method Start(job: Job, skipped: seq<Failure>, total: nat) returns (r: Run)
    ensures r.After(job, 0, skipped, total)
  {
    var res := RunResult(|job.stages| + |skipped|, 0, 0, |skipped|, skipped, false, []);
    r := Run(Delivery([], [], 0, false), res, 0, [], 0);
    r := Emit(job, r, total);
  }
}
