/** What a run over a workflow has to deliver, said of the scanners' runs alone: which runs a stage
    consists of, which batches they yield, and when the stage has failed. */
module RunContents {
  import opened Workflow

  /** A discovery stage has a run per chunk; any other stage has one run, over all targets. */
  ghost predicate HasRun(job: Job, si: nat, ci: nat)
    requires si < |job.stages|
  {
    if job.stages[si].scanner.stage == "discovery" then ci < job.chunks else ci == 0
  }

  /** A streaming scanner with a sink yields the batches of its events, any other its raw result. */
  ghost predicate Yields(job: Job, si: nat, ci: nat, raw: string)
    requires si < |job.stages|
  {
    && raw != ""
    && if job.stages[si].scanner.streams && job.hasSink then Batch(raw) in job.run(si, ci).events
       else raw == job.run(si, ci).raw
  }

  ghost predicate Finds(job: Job, si: nat, raw: string)
    requires si < |job.stages|
  {
    exists ci: nat :: HasRun(job, si, ci) && Yields(job, si, ci, raw)
  }

  ghost predicate Fails(job: Job, si: nat)
    requires si < |job.stages|
  {
    exists ci: nat :: HasRun(job, si, ci) && job.run(si, ci).failed
  }

  /** `out` is a batch of the stage, or the marker of the stage if it has not failed. */
  ghost predicate IsOutput(job: Job, si: nat, out: StageOutput)
    requires si < |job.stages|
  {
    && out.stage == job.stages[si].scanner.stage && out.scanner == job.stages[si].scanner.name
    && if out.complete then out.raw == "" && !Fails(job, si) else Finds(job, si, out.raw)
  }

  /** The trace holds the outputs of the stages and no others. */
  ghost predicate DeliversAll(job: Job, trace: seq<Act>) {
    forall out: StageOutput :: OutputIn(trace, out) <==> OfSomeStage(job, |job.stages|, out)
  }

  ghost predicate OfSomeStage(job: Job, n: nat, out: StageOutput)
    requires n <= |job.stages|
  {
    exists si :: 0 <= si < n && IsOutput(job, si, out)
  }

  ghost predicate OutputIn(trace: seq<Act>, out: StageOutput) {
    exists i :: 0 <= i < |trace| && trace[i].out == out
  }

  ghost function FailedStages(job: Job, n: nat): set<nat>
    requires n <= |job.stages|
  {
    set si: nat | si < n && Fails(job, si)
  }

  ghost function DiscoveryStages(job: Job, n: nat): set<nat>
    requires n <= |job.stages|
  {
    set si: nat | si < n && job.stages[si].scanner.stage == "discovery"
  }

  /** The units of progress: the runs of all stages. */
  ghost function TotalRuns(job: Job): int {
    var n, d := |job.stages|, |DiscoveryStages(job, |job.stages|)|;
    job.chunks * d + (n - d)
  }

  /** Whatever was delivered is an output of some stage. */
  ghost predicate DeliversOnly(job: Job, trace: seq<Act>) {
    forall i :: 0 <= i < |trace| ==> OfSomeStage(job, |job.stages|, trace[i].out)
  }

  // ----- What the runner's own definitions mean -----

  lemma {:induction false} BatchesYielded(job: Job, si: nat, events: seq<ScanEvent>, out: StageOutput)
    requires si < |job.stages|
    ensures out in job.BatchesOf(si, events) <==>
      out == job.Out(si, out.raw) && out.raw != "" && Batch(out.raw) in events
  {
    if events != [] {
      var before, last := events[..|events| - 1], events[|events| - 1];
      BatchesYielded(job, si, before, out);
      assert events == before + [last];
    }
  }

  lemma RunYields(job: Job, si: nat, ci: nat, out: StageOutput)
    requires si < |job.stages|
    ensures out in job.BatchesOf(si, job.Events(si, ci)) <==>
      out == job.Out(si, out.raw) && Yields(job, si, ci, out.raw)
  {
    BatchesYielded(job, si, job.Events(si, ci), out);
  }

  lemma {:induction false} ChunksYield(job: Job, si: nat, n: nat, out: StageOutput)
    requires si < |job.stages|
    ensures out in job.BatchesOfChunks(si, n) <==>
      out == job.Out(si, out.raw) && exists ci: nat :: ci < n && Yields(job, si, ci, out.raw)
  {
    hide Yields;
    if n > 0 {
      ChunksYield(job, si, n - 1, out);
      RunYields(job, si, n - 1, out);
    }
  }

  lemma {:induction false} FailedMeans(job: Job, si: nat, n: nat)
    ensures job.Failed(si, n) <==> exists ci: nat :: ci < n && job.run(si, ci).failed
  {
    if n > 0 { FailedMeans(job, si, n - 1); }
  }

  /** The runs of a stage are the first `ChunksOf` ones. */
  lemma StageMeans(job: Job, si: nat, out: StageOutput)
    requires si < |job.stages|
    ensures forall ci: nat :: HasRun(job, si, ci) <==> ci < job.ChunksOf(si)
    ensures job.Failed(si, job.ChunksOf(si)) <==> Fails(job, si)
    ensures out in job.BatchesOfChunks(si, job.ChunksOf(si)) <==> !out.complete && IsOutput(job, si, out)
    ensures out == job.Marker(si) && !Fails(job, si) <==> out.complete && IsOutput(job, si, out)
  {
    FailedMeans(job, si, job.ChunksOf(si));
    ChunksYield(job, si, job.ChunksOf(si), out);
    hide Yields;
  }

  lemma {:induction false} StagesMean(job: Job, n: nat, out: StageOutput)
    requires n <= |job.stages|
    ensures out in job.BatchesOfStages(n) + job.MarkersOfStages(n) <==> OfSomeStage(job, n, out)
  {
    hide IsOutput, Fails, Job.ChunksOf, Job.Failed, Job.BatchesOfChunks, Job.Marker, HasRun;
    if n > 0 {
      StagesMean(job, n - 1, out);
      StageMeans(job, n - 1, out);
    }
  }

  lemma {:induction false} OutsOf(t: seq<Act>, out: StageOutput)
    ensures out in Outs(t, out.complete) <==> OutputIn(t, out)
    ensures out !in Outs(t, !out.complete)
  {
    if t != [] {
      var n := |t| - 1;
      OutsOf(t[..n], out);
      if OutputIn(t[..n], out) {
        var i :| 0 <= i < n && t[..n][i].out == out;
        assert t[i].out == out;
      }
      if OutputIn(t, out) {
        var i :| 0 <= i < |t| && t[i].out == out;
        assert i < n ==> t[..n][i].out == out;
      }
    }
  }

  /** The whole trace holds the outputs of the stages and no others. */
  lemma WholeTraceDelivers(job: Job)
    ensures DeliversAll(job, job.AfterStages(|job.stages|))
  {
    hide OfSomeStage, OutputIn, Outs, AnsweredBySink, Job.AfterStages, Job.BatchesOfStages, Job.MarkersOfStages;
    var t, n := job.AfterStages(|job.stages|), |job.stages|;
    StagesExact(job, n);
    forall out: StageOutput ensures OutputIn(t, out) <==> OfSomeStage(job, n, out) {
      StagesMean(job, n, out);
      OutsOf(t, out);
      assert out in job.BatchesOfStages(n) + job.MarkersOfStages(n) <==> out in Outs(t, false) || out in Outs(t, true);
    }
  }

  /** A first part of it holds nothing else. */
  lemma FirstPartDelivers(job: Job, t: seq<Act>)
    requires t <= job.AfterStages(|job.stages|)
    ensures DeliversOnly(job, t)
  {
    hide OfSomeStage, Job.AfterStages;
    var w := job.AfterStages(|job.stages|);
    WholeTraceDelivers(job);
    forall i | 0 <= i < |t| ensures OfSomeStage(job, |job.stages|, t[i].out) {
      assert w[i] == t[i];
      assert OutputIn(w, t[i].out);
    }
  }

  lemma {:induction false} UnitsMean(job: Job, n: nat)
    requires n <= |job.stages|
    ensures |DiscoveryStages(job, n)| <= n
    ensures job.Units(n) == job.chunks * |DiscoveryStages(job, n)| + (n - |DiscoveryStages(job, n)|)
  {
    if n == 0 {
      assert DiscoveryStages(job, 0) == {};
    } else {
      UnitsMean(job, n - 1);
      OneMoreStage(job, n);
      hide DiscoveryStages;
      var d := |DiscoveryStages(job, n - 1)|;
      assert job.chunks * (d + 1) == job.chunks * d + job.chunks;
    }
  }

  lemma OneMoreStage(job: Job, n: nat)
    requires 0 < n <= |job.stages|
    ensures |DiscoveryStages(job, n)| ==
      |DiscoveryStages(job, n - 1)| + if job.stages[n - 1].scanner.stage == "discovery" then 1 else 0
  {
    var before, last := DiscoveryStages(job, n - 1), n - 1;
    var counts := job.stages[last].scanner.stage == "discovery";
    assert DiscoveryStages(job, n) == if counts then before + {last} else before by {
      forall si: nat ensures si in DiscoveryStages(job, n) <==> si in before || (si == last && counts) {
      }
    }
    assert last !in before;
  }
}
