/** The streaming workflow runner: every stage over every chunk, each batch offered to a sink that may
    refuse it, one completion marker per scanner that did not fail. */
module Workflow {

  const DISCOVERY := "discovery"

  datatype StageSpec = StageSpec(stage: string, plugin: string)

  datatype Scanner = Scanner(stage: string, name: string, streams: bool)

  datatype StageOutput = StageOutput(stage: string, scanner: string, raw: string, complete: bool)

  /** What one scanner run over one chunk does; nothing is known about it in advance. */
  datatype ScanEvent = Batch(raw: string) | Hosts(done: int)
  datatype ChunkRun = ChunkRun(events: seq<ScanEvent>, raw: string, failed: bool, addresses: nat)

  /** Where an output went: accepted by the sink, refused by it, or never offered. What the sink did not
      accept is carried in the result. */
  datatype Act = Sent(out: StageOutput) | Refused(out: StageOutput) | Kept(out: StageOutput)

  datatype Failure = Failure(code: string, stage: string, plugin: string)

  datatype RunResult = RunResult(stagesTotal: nat, stagesRun: nat, stagesFailed: nat, stagesSkipped: nat,
                                 failures: seq<Failure>, cancelled: bool, outputs: seq<StageOutput>)

  datatype Progress = Progress(percent: int, stagesRun: nat, stagesFailed: nat, stagesSkipped: nat,
                               unitsDone: real, unitsTotal: nat)

  datatype RunStage = RunStage(scanner: Scanner, stage: string, plugin: string)

  /** One job execution: the runnable stages, the number of target chunks, the scanners' behaviour by
      stage and chunk, and the answers of the sink, if there is one, by call. */
  datatype Job = Job(stages: seq<RunStage>, chunks: nat, run: (nat, nat) -> ChunkRun,
                     hasSink: bool, accepts: nat -> bool)
  {
    function ChunksOf(si: nat): nat
      requires si < |stages|
    {
      if stages[si].scanner.stage == DISCOVERY then chunks else 1
    }

    function Units(n: nat): nat
      requires n <= |stages|
    {
      if n == 0 then 0 else Units(n - 1) + ChunksOf(n - 1)
    }

    function Events(si: nat, ci: nat): seq<ScanEvent>
      requires si < |stages|
    {
      if stages[si].scanner.streams && hasSink then run(si, ci).events else [Batch(run(si, ci).raw)]
    }

    function Out(si: nat, raw: string): StageOutput
      requires si < |stages|
    {
      StageOutput(stages[si].scanner.stage, stages[si].scanner.name, raw, false)
    }

    function Marker(si: nat): StageOutput
      requires si < |stages|
    {
      StageOutput(stages[si].scanner.stage, stages[si].scanner.name, "", true)
    }

    function Offer(trace: seq<Act>, out: StageOutput): Act {
      if !hasSink then Kept(out)
      else if accepts(SinkCalls(trace)) then Sent(out)
      else Refused(out)
    }

    function Deliver(trace: seq<Act>, out: StageOutput): seq<Act> {
      if out.raw == "" then trace else trace + [Offer(trace, out)]
    }

    function AfterEvents(trace: seq<Act>, si: nat, events: seq<ScanEvent>): seq<Act>
      requires si < |stages|
    {
      if events == [] then trace
      else
        var t := AfterEvents(trace, si, events[..|events| - 1]);
        match events[|events| - 1]
        case Batch(raw) => Deliver(t, Out(si, raw))
        case Hosts(_) => t
    }

    function AfterChunks(trace: seq<Act>, si: nat, n: nat): seq<Act>
      requires si < |stages|
    {
      if n == 0 then trace else AfterEvents(AfterChunks(trace, si, n - 1), si, Events(si, n - 1))
    }

    predicate Failed(si: nat, n: nat) {
      n > 0 && (run(si, n - 1).failed || Failed(si, n - 1))
    }

    /** The acts of a whole stage that starts after `trace`. */
    function AfterStage(trace: seq<Act>, si: nat): seq<Act>
      requires si < |stages|
    {
      var t := AfterChunks(trace, si, ChunksOf(si));
      if Failed(si, ChunksOf(si)) then t
      else if !hasSink || AnyRefused(t, |trace|) then t + [Kept(Marker(si))]
      else t + [Offer(t, Marker(si))]
    }

    function AfterStages(n: nat): seq<Act>
      requires n <= |stages|
    {
      if n == 0 then [] else AfterStage(AfterStages(n - 1), n - 1)
    }

    /** The acts up to a cancellation noticed after `n` chunks of stage `si`. */
    function Cut(si: nat, n: nat): seq<Act>
      requires si < |stages|
    {
      AfterChunks(AfterStages(si), si, n)
    }

    // ----- What the scanners produced, independently of any sink -----

    function BatchesOf(si: nat, events: seq<ScanEvent>): seq<StageOutput>
      requires si < |stages|
    {
      if events == [] then []
      else
        var rest := BatchesOf(si, events[..|events| - 1]);
        match events[|events| - 1]
        case Batch(raw) => if raw == "" then rest else rest + [Out(si, raw)]
        case Hosts(_) => rest
    }

    function BatchesOfChunks(si: nat, n: nat): seq<StageOutput>
      requires si < |stages|
    {
      if n == 0 then [] else BatchesOfChunks(si, n - 1) + BatchesOf(si, Events(si, n - 1))
    }

    function BatchesOfStages(n: nat): seq<StageOutput>
      requires n <= |stages|
    {
      if n == 0 then [] else BatchesOfStages(n - 1) + BatchesOfChunks(n - 1, ChunksOf(n - 1))
    }

    function MarkersOfStages(n: nat): seq<StageOutput>
      requires n <= |stages|
    {
      if n == 0 then []
      else MarkersOfStages(n - 1) + if Failed(n - 1, ChunksOf(n - 1)) then [] else [Marker(n - 1)]
    }
  }

  /** The number of sink calls a trace records. */
  function SinkCalls(trace: seq<Act>): nat {
    if trace == [] then 0
    else SinkCalls(trace[..|trace| - 1]) + if trace[|trace| - 1].Kept? then 0 else 1
  }

  predicate AnyRefused(trace: seq<Act>, start: nat) {
    |trace| > start && (trace[|trace| - 1].Refused? || AnyRefused(trace[..|trace| - 1], start))
  }

  lemma {:induction false} AnyRefusedMeans(trace: seq<Act>, start: nat)
    ensures AnyRefused(trace, start) <==> exists i :: start <= i < |trace| && trace[i].Refused?
  {
    if |trace| > start { AnyRefusedMeans(trace[..|trace| - 1], start); }
  }

  /** The batches, or the markers, of a trace, in order. */
  function Outs(trace: seq<Act>, complete: bool): seq<StageOutput> {
    if trace == [] then []
    else
      var rest := Outs(trace[..|trace| - 1], complete);
      var out := trace[|trace| - 1].out;
      if out.complete == complete then rest + [out] else rest
  }

  /** What the result carries: everything the sink did not accept, in order. */
  function Carried(trace: seq<Act>): seq<StageOutput> {
    if trace == [] then []
    else
      var rest := Carried(trace[..|trace| - 1]);
      if trace[|trace| - 1].Sent? then rest else rest + [trace[|trace| - 1].out]
  }

  predicate SameScanner(x: StageOutput, y: StageOutput) {
    x.stage == y.stage && x.scanner == y.scanner
  }

  /** What the delivery path may rely on: batches are not empty and markers are; nothing of a scanner
      follows its marker; a marker is offered to the sink only if the sink has every batch before it. */
  ghost predicate Legal(trace: seq<Act>) {
    && (forall i :: 0 <= i < |trace| ==> (trace[i].out.complete <==> trace[i].out.raw == ""))
    && (forall i, j :: 0 <= i < j < |trace| && SameScanner(trace[i].out, trace[j].out) ==>
          !trace[i].out.complete)
    && (forall i, j :: 0 <= i < j < |trace| && SameScanner(trace[i].out, trace[j].out) ==>
          (trace[j].out.complete && !trace[j].Kept? ==> trace[i].Sent?))
  }

  lemma LegalPrefix(trace: seq<Act>, n: nat)
    requires Legal(trace) && n <= |trace|
    ensures Legal(trace[..n])
  {
  }

  lemma OutsAppend(t: seq<Act>, a: Act)
    ensures Outs(t + [a], a.out.complete) == Outs(t, a.out.complete) + [a.out]
    ensures Outs(t + [a], !a.out.complete) == Outs(t, !a.out.complete)
    ensures Carried(t + [a]) == if a.Sent? then Carried(t) else Carried(t) + [a.out]
    ensures SinkCalls(t + [a]) == SinkCalls(t) + if a.Kept? then 0 else 1
  {
    assert (t + [a])[..|t|] == t;
  }

  /** The sink's answers, and nothing else, decide between accepted and refused. */
  ghost predicate AnsweredBySink(job: Job, t: seq<Act>) {
    t == [] ||
    (var before, a := t[..|t| - 1], t[|t| - 1];
     && AnsweredBySink(job, before)
     && (a.Kept? || (job.hasSink && (a.Sent? <==> job.accepts(SinkCalls(before))))))
  }

  lemma AnsweredAppend(job: Job, t: seq<Act>, a: Act)
    requires AnsweredBySink(job, t)
    requires a.Kept? || (job.hasSink && (a.Sent? <==> job.accepts(SinkCalls(t))))
    ensures AnsweredBySink(job, t + [a])
  {
    assert (t + [a])[..|t|] == t;
  }

  /** The acts `t'` adds to `t` are batches of stage `si`, offered to the sink if there is one. */
  ghost predicate AddsBatches(job: Job, t: seq<Act>, t': seq<Act>, si: nat)
    requires si < |job.stages|
  {
    && t <= t'
    && (forall i :: |t| <= i < |t'| ==> BatchAct(job, t'[i], si))
  }

  ghost predicate BatchAct(job: Job, a: Act, si: nat)
    requires si < |job.stages|
  {
    a.out == job.Out(si, a.out.raw) && a.out.raw != "" && (a.Kept? <==> !job.hasSink)
  }

  /** `t'` is `t` followed by exactly the batches `produced`, wherever they went. */
  ghost predicate Follows(job: Job, t: seq<Act>, t': seq<Act>, si: nat, produced: seq<StageOutput>)
    requires si < |job.stages|
  {
    && AddsBatches(job, t, t', si)
    && AnsweredBySink(job, t')
    && Outs(t', false) == Outs(t, false) + produced
    && Outs(t', true) == Outs(t, true)
  }

  lemma FollowsOne(job: Job, t: seq<Act>, u: seq<Act>, si: nat, produced: seq<StageOutput>, raw: string)
    requires si < |job.stages| && Follows(job, t, u, si, produced) && raw != ""
    ensures Follows(job, t, job.Deliver(u, job.Out(si, raw)), si, produced + [job.Out(si, raw)])
  {
    var a := job.Offer(u, job.Out(si, raw));
    OutsAppend(u, a);
    AnsweredAppend(job, u, a);
    assert Outs(t, false) + produced + [a.out] == Outs(t, false) + (produced + [a.out]);
  }

  lemma FollowsTwo(job: Job, t: seq<Act>, u: seq<Act>, v: seq<Act>, si: nat, p: seq<StageOutput>, q: seq<StageOutput>)
    requires si < |job.stages| && Follows(job, t, u, si, p) && Follows(job, u, v, si, q)
    ensures Follows(job, t, v, si, p + q)
  {
    assert Outs(t, false) + p + q == Outs(t, false) + (p + q);
    forall i | |t| <= i < |v| ensures BatchAct(job, v[i], si) {
      if i < |u| { assert v[i] == u[i]; }
    }
  }

  lemma {:induction false} EventsExact(job: Job, t: seq<Act>, si: nat, events: seq<ScanEvent>)
    requires si < |job.stages| && AnsweredBySink(job, t)
    ensures Follows(job, t, job.AfterEvents(t, si, events), si, job.BatchesOf(si, events))
  {
    if events != [] {
      var before, last := events[..|events| - 1], events[|events| - 1];
      EventsExact(job, t, si, before);
      if last.Batch? && last.raw != "" {
        FollowsOne(job, t, job.AfterEvents(t, si, before), si, job.BatchesOf(si, before), last.raw);
      }
    }
  }

  lemma {:induction false} ChunksExact(job: Job, t: seq<Act>, si: nat, n: nat)
    requires si < |job.stages| && AnsweredBySink(job, t)
    ensures Follows(job, t, job.AfterChunks(t, si, n), si, job.BatchesOfChunks(si, n))
  {
    if n > 0 {
      var u, e := job.AfterChunks(t, si, n - 1), job.Events(si, n - 1);
      ChunksExact(job, t, si, n - 1);
      EventsExact(job, u, si, e);
      FollowsTwo(job, t, u, job.AfterEvents(u, si, e), si, job.BatchesOfChunks(si, n - 1), job.BatchesOf(si, e));
    }
  }

  /** How a stage ends: with the marker, offered only if the sink took every batch of the stage. */
  lemma StageEnds(job: Job, t: seq<Act>, si: nat)
    requires si < |job.stages| && AnsweredBySink(job, t)
    ensures var u, v := job.AfterChunks(t, si, job.ChunksOf(si)), job.AfterStage(t, si);
      if job.Failed(si, job.ChunksOf(si)) then v == u
      else
        && v == u + [v[|u|]] && v[|u|].out == job.Marker(si)
        && (!v[|u|].Kept? ==> forall i :: |t| <= i < |u| ==> u[i].Sent?)
        && Outs(v, false) == Outs(u, false) && Outs(v, true) == Outs(u, true) + [job.Marker(si)]
        && AnsweredBySink(job, v)
  {
    var u := job.AfterChunks(t, si, job.ChunksOf(si));
    ChunksExact(job, t, si, job.ChunksOf(si));
    if !job.Failed(si, job.ChunksOf(si)) {
      var a := if !job.hasSink || AnyRefused(u, |t|) then Kept(job.Marker(si)) else job.Offer(u, job.Marker(si));
      OutsAppend(u, a);
      AnsweredAppend(job, u, a);
      if !a.Kept? {
        AnyRefusedMeans(u, |t|);
        forall i | |t| <= i < |u| ensures u[i].Sent? {
          assert BatchAct(job, u[i], si);
        }
      }
    }
  }

  lemma StageExact(job: Job, t: seq<Act>, u: seq<Act>, si: nat)
    requires si < |job.stages| && AnsweredBySink(job, t) && u == job.AfterStage(t, si)
    ensures var n := job.ChunksOf(si);
      && AnsweredBySink(job, u)
      && Outs(u, false) == Outs(t, false) + job.BatchesOfChunks(si, n)
      && Outs(u, true) == Outs(t, true) + if job.Failed(si, n) then [] else [job.Marker(si)]
  {
    ChunksExact(job, t, si, job.ChunksOf(si));
    StageEnds(job, t, si);
  }

  /** Every non-empty batch appears once and in order, and so does the marker of every stage that did
      not fail; where each went is what the sink answered. */
  lemma {:induction false} StagesExact(job: Job, n: nat)
    requires n <= |job.stages|
    ensures AnsweredBySink(job, job.AfterStages(n))
    ensures Outs(job.AfterStages(n), false) == job.BatchesOfStages(n)
    ensures Outs(job.AfterStages(n), true) == job.MarkersOfStages(n)
  {
    hide AnsweredBySink, Outs, Job.AfterStage;
    NothingIsLegal(job);
    if n > 0 {
      StagesExact(job, n - 1);
      StagesStep(job, job.AfterStages(n - 1), job.AfterStages(n), n);
    }
  }

  lemma StagesStep(job: Job, t: seq<Act>, u: seq<Act>, n: nat)
    requires 0 < n <= |job.stages| && AnsweredBySink(job, t)
    requires Outs(t, false) == job.BatchesOfStages(n - 1) && Outs(t, true) == job.MarkersOfStages(n - 1)
    requires u == job.AfterStage(t, n - 1)
    ensures AnsweredBySink(job, u)
    ensures Outs(u, false) == job.BatchesOfStages(n) && Outs(u, true) == job.MarkersOfStages(n)
  {
    hide Job.AfterStage;
    StageExact(job, t, u, n - 1);
  }

  /** A cancelled run has produced a prefix of the batches, none of them lost or repeated. */
  lemma CutExact(job: Job, si: nat, n: nat)
    requires si < |job.stages| && n <= job.ChunksOf(si)
    ensures Outs(job.Cut(si, n), false) == job.BatchesOfStages(si) + job.BatchesOfChunks(si, n)
    ensures Outs(job.Cut(si, n), true) == job.MarkersOfStages(si)
  {
    StagesExact(job, si);
    ChunksExact(job, job.AfterStages(si), si, n);
  }

  ghost predicate DistinctScanners(stages: seq<RunStage>) {
    forall i, j :: 0 <= i < j < |stages| ==> stages[i].scanner.name != stages[j].scanner.name
  }

  /** Everything in the trace of the first `n` stages carries the name of one of them. */
  ghost predicate NamedBy(job: Job, t: seq<Act>, n: nat)
    requires n <= |job.stages|
  {
    forall i :: 0 <= i < |t| ==> t[i].out.scanner in NamesOf(job, n)
  }

  ghost function NamesOf(job: Job, n: nat): set<string>
    requires n <= |job.stages|
  {
    set k | 0 <= k < n :: job.stages[k].scanner.name
  }

  lemma NamedApart(job: Job, t: seq<Act>, si: nat)
    requires si < |job.stages| && DistinctScanners(job.stages) && NamedBy(job, t, si)
    ensures forall i :: 0 <= i < |t| ==> t[i].out.scanner != job.stages[si].scanner.name
  {
  }

  lemma BatchesLegal(job: Job, t: seq<Act>, t': seq<Act>, si: nat)
    requires si < |job.stages| && DistinctScanners(job.stages)
    requires Legal(t) && NamedBy(job, t, si) && AddsBatches(job, t, t', si)
    ensures Legal(t') && NamedBy(job, t', si + 1)
  {
    NamedApart(job, t, si);
    assert forall i :: 0 <= i < |t| ==> t'[i] == t[i];
    forall i | |t| <= i < |t'| ensures t'[i].out.scanner in NamesOf(job, si + 1) {
      assert BatchAct(job, t'[i], si);
      assert job.stages[si].scanner.name in NamesOf(job, si + 1);
    }
    assert NamesOf(job, si) <= NamesOf(job, si + 1);
    forall i, j | 0 <= i < j < |t'| && SameScanner(t'[i].out, t'[j].out)
      ensures !t'[i].out.complete && (t'[j].out.complete && !t'[j].Kept? ==> t'[i].Sent?)
    {
      if j >= |t| { assert BatchAct(job, t'[j], si); }
      if i >= |t| { assert BatchAct(job, t'[i], si); }
    }
  }

  lemma MarkerLegal(job: Job, t: seq<Act>, u: seq<Act>, a: Act, si: nat)
    requires si < |job.stages| && DistinctScanners(job.stages)
    requires NamedBy(job, t, si) && AddsBatches(job, t, u, si)
    requires Legal(u) && NamedBy(job, u, si + 1)
    requires a.out == job.Marker(si) && (!a.Kept? ==> forall i :: |t| <= i < |u| ==> u[i].Sent?)
    ensures Legal(u + [a]) && NamedBy(job, u + [a], si + 1)
  {
    NamedApart(job, t, si);
    var v := u + [a];
    forall i | 0 <= i < |u| && SameScanner(v[i].out, a.out)
      ensures !v[i].out.complete && (!a.Kept? ==> v[i].Sent?)
    {
      assert v[i] == u[i] && (t + u[|t|..])[i] == u[i];
      assert BatchAct(job, u[i], si);
    }
    assert forall i :: 0 <= i < |u| ==> v[i] == u[i];
    assert job.stages[si].scanner.name in NamesOf(job, si + 1);
  }

  lemma StageLegal(job: Job, t: seq<Act>, v: seq<Act>, si: nat)
    requires si < |job.stages| && DistinctScanners(job.stages) && AnsweredBySink(job, t)
    requires Legal(t) && NamedBy(job, t, si) && v == job.AfterStage(t, si)
    ensures Legal(v) && NamedBy(job, v, si + 1)
  {
    var u := job.AfterChunks(t, si, job.ChunksOf(si));
    ChunksExact(job, t, si, job.ChunksOf(si));
    BatchesLegal(job, t, u, si);
    StageEnds(job, t, si);
    if !job.Failed(si, job.ChunksOf(si)) {
      MarkerLegal(job, t, u, v[|u|], si);
    }
  }

  lemma {:induction false} StagesLegal(job: Job, n: nat)
    requires n <= |job.stages| && DistinctScanners(job.stages)
    ensures Legal(job.AfterStages(n)) && NamedBy(job, job.AfterStages(n), n)
  {
    hide Legal, NamedBy, AnsweredBySink, Job.AfterStage, Outs, Job.BatchesOfStages, Job.MarkersOfStages,
      DistinctScanners;
    if n == 0 {
      NothingIsLegal(job);
    } else {
      StagesLegal(job, n - 1);
      StagesExact(job, n - 1);
      StageLegal(job, job.AfterStages(n - 1), job.AfterStages(n), n - 1);
    }
  }

  lemma NothingIsLegal(job: Job)
    ensures Legal([]) && NamedBy(job, [], 0)
    ensures AnsweredBySink(job, []) && Outs([], false) == [] && Outs([], true) == []
  {
  }

  /** Whenever the run stops, the delivery path gets a legal trace, if no plugin is named twice. */
  lemma CutLegal(job: Job, si: nat, n: nat)
    requires si < |job.stages| && DistinctScanners(job.stages)
    ensures Legal(job.Cut(si, n))
  {
    StagesLegal(job, si);
    StagesExact(job, si);
    ChunksExact(job, job.AfterStages(si), si, n);
    BatchesLegal(job, job.AfterStages(si), job.Cut(si, n), si);
  }

  // ----- Without distinct plugins -----

  lemma {:induction false} ChunksExtend(job: Job, t: seq<Act>, si: nat, m: nat, n: nat)
    requires si < |job.stages| && AnsweredBySink(job, t) && m <= n
    ensures job.AfterChunks(t, si, m) <= job.AfterChunks(t, si, n)
  {
    hide Job.AfterEvents, AnsweredBySink, Outs;
    if m < n {
      ChunksExtend(job, t, si, m, n - 1);
      ChunksExact(job, t, si, n - 1);
      EventsExact(job, job.AfterChunks(t, si, n - 1), si, job.Events(si, n - 1));
    }
  }

  lemma {:induction false} StagesExtend(job: Job, m: nat, n: nat)
    requires m <= n <= |job.stages|
    ensures job.AfterStages(m) <= job.AfterStages(n)
  {
    hide AnsweredBySink, Outs, AnyRefused, BatchAct, Job.AfterChunks, Job.AfterStage, Job.Failed,
      Job.BatchesOfStages, Job.BatchesOfChunks, Job.MarkersOfStages;
    if m < n {
      StagesExtend(job, m, n - 1);
      StagesExact(job, n - 1);
      ChunksExact(job, job.AfterStages(n - 1), n - 1, job.ChunksOf(n - 1));
      StageEnds(job, job.AfterStages(n - 1), n - 1);
    }
  }

  /** A cancelled run has done the first part of what the whole run would have done. */
  lemma CutIsPrefix(job: Job, si: nat, n: nat)
    requires si < |job.stages| && n <= job.ChunksOf(si)
    ensures job.Cut(si, n) <= job.AfterStages(|job.stages|)
  {
    hide AnsweredBySink, Outs, AnyRefused, BatchAct, Job.AfterChunks, Job.AfterStage, Job.Failed,
      Job.BatchesOfStages, Job.BatchesOfChunks, Job.MarkersOfStages;
    StagesExact(job, si);
    ChunksExtend(job, job.AfterStages(si), si, n, job.ChunksOf(si));
    StageEnds(job, job.AfterStages(si), si);
    StagesExtend(job, si + 1, |job.stages|);
  }

  function AlwaysX(): (nat, nat) -> ChunkRun {
    (si, ci) => ChunkRun([], "x", false, 0)
  }

  lemma {:induction false} NeverFails(job: Job, si: nat, n: nat)
    requires job.run == AlwaysX()
    ensures !job.Failed(si, n)
  {
    if n > 0 { NeverFails(job, si, n - 1); }
  }

  /** A stage with output and no sink: a batch of it comes first, its marker last. */
  lemma StageShape(job: Job, si: nat)
    requires si < |job.stages| && job.ChunksOf(si) > 0 && !job.hasSink && job.run == AlwaysX()
    ensures var t, v := job.AfterStages(si), job.AfterStages(si + 1);
      && |t| + 1 < |v| && t <= v
      && v[|t|].out == job.Out(si, "x") && v[|v| - 1].out == job.Marker(si)
  {
    var t, n := job.AfterStages(si), job.ChunksOf(si);
    NeverFails(job, si, n);
    StagesExact(job, si);
    ChunksExtend(job, t, si, 1, n);
    StageEnds(job, t, si);
    FirstChunk(job, t, si);
    assert job.AfterChunks(t, si, n)[|t|] == job.AfterChunks(t, si, 1)[|t|];
  }

  lemma FirstChunk(job: Job, t: seq<Act>, si: nat)
    requires si < |job.stages| && !job.hasSink && job.run == AlwaysX()
    ensures job.AfterChunks(t, si, 1) == t + [Kept(job.Out(si, "x"))]
  {
    var e := job.Events(si, 0);
    assert e == [Batch("x")] && e[..|e| - 1] == [];
    assert job.AfterEvents(t, si, []) == t;
    assert job.AfterChunks(t, si, 0) == t;
  }

  /** Two stages of one scanner can always be made to break the order: batches of the later one follow
      the marker of the earlier one. */
  lemma RepeatedScannerBreaks(job: Job, i: nat, j: nat)
    requires i < j < |job.stages| && job.chunks > 0 && !job.hasSink && job.run == AlwaysX()
    requires job.stages[i].scanner == job.stages[j].scanner
    ensures !Legal(job.AfterStages(|job.stages|))
  {
    hide Job.AfterStage, Job.AfterChunks, Job.AfterEvents;
    StageShape(job, i);
    StageShape(job, j);
    StagesExtend(job, i + 1, j);
    StagesExtend(job, j + 1, |job.stages|);
    var t, a, b := job.AfterStages(|job.stages|), |job.AfterStages(i + 1)| - 1, |job.AfterStages(j)|;
    assert t[a] == job.AfterStages(j)[a] == job.AfterStages(i + 1)[a];
    assert t[b] == job.AfterStages(j + 1)[b];
    assert SameScanner(t[a].out, t[b].out) && t[a].out.complete;
  }

  /** Naming a plugin twice breaks it: batches of the second stage follow the marker of the first. */
  lemma RepeatedPluginIsNotLegal(run: (nat, nat) -> ChunkRun, accepts: nat -> bool)
    requires forall si: nat, ci: nat :: run(si, ci) == ChunkRun([], "x", false, 0)
    ensures var s := RunStage(Scanner("vuln", "nuclei", false), "vuln", "nuclei");
      !Legal(Job([s, s], 1, run, true, accepts).AfterStages(2))
  {
    var s := RunStage(Scanner("vuln", "nuclei", false), "vuln", "nuclei");
    var job := Job([s, s], 1, run, true, accepts);
    assert job.ChunksOf(0) == 1 && job.ChunksOf(1) == 1;
    assert job.Events(0, 0) == [Batch("x")] && job.Events(1, 0) == [Batch("x")];
    SingleBatchStage(job, [], 0);
    var t := job.AfterStages(1);
    assert t == job.AfterStage(job.AfterStages(0), 0);
    SingleBatchStage(job, t, 1);
    var u := job.AfterStages(2);
    assert SameScanner(u[1].out, u[2].out) && u[1].out.complete;
  }

  lemma SingleBatchStage(job: Job, t: seq<Act>, si: nat)
    requires si < |job.stages| && job.ChunksOf(si) == 1 && !job.run(si, 0).failed
    requires job.Events(si, 0) == [Batch("x")]
    ensures var u := job.AfterStage(t, si);
      |u| == |t| + 2 && t <= u && u[|t|].out == job.Out(si, "x") && u[|t| + 1].out == job.Marker(si)
  {
    var e := job.Events(si, 0);
    assert e[..|e| - 1] == [];
    assert job.AfterEvents(t, si, []) == t;
    assert job.AfterChunks(t, si, 0) == t;
    assert job.AfterEvents(t, si, e) == t + [job.Offer(t, job.Out(si, "x"))];
    assert !job.Failed(si, 1);
  }
}
