/** The workflow runner inside the step system: its acts are enabled steps, and a marker the server takes
    stands for everything its scanner found that was not lost. */
module RunnerDelivery {
  import opened ResultKeys
  import opened ResultQueue
  import opened Workflow
  import opened RunContents
  import opened Delivery
  import opened DeliveryProof

  /** Everything the runner does if nothing stops it. */
  function Whole(job: Job): seq<Act> {
    job.AfterStages(|job.stages|)
  }

  ghost predicate CleanJob(job: Job) {
    forall k :: 0 <= k < |job.stages| ==> CleanOut(job.Marker(k))
  }

  ghost function Emitted(h: string -> string, cap: int, s: State, act: Act): State
    requires s.phase.Working? && s.phase.a.attemptID in s.known
  {
    var r := Recorded(s, act);
    if act.Sent? then WithEnqueued(h, cap, r, ItemOf(h, s.phase.a, act.out)) else r
  }

  /** The runner's next act, with the queue as its sink: the sink says yes only if the queue takes the item.
      It may refuse for other reasons too: a backlog it cannot read, a failed write or rename. */
  ghost predicate WorkerActs(h: string -> string, cap: int, job: Job, s: State, act: Act) {
    && s.phase.Working? && s.phase.a.attemptID in s.known
    && var t := s.known[s.phase.a.attemptID].trace;
    && |t| < |Whole(job)| && act == Whole(job)[|t|]
    && (!act.Kept? ==> (job.accepts(SinkCalls(t)) ==> QueueTakes(h, cap, s, ItemOf(h, s.phase.a, act.out))))
  }

  /** The runner's acts in turn, with uploads and the server's own steps in between. */
  ghost predicate WorkerRuns(h: string -> string, cap: int, job: Job, s: State, events: seq<Event>, s': State)
    decreases |events|
  {
    if events == [] then s' == s
    else if events[0].Emit? then
      WorkerActs(h, cap, job, s, events[0].act)
        && WorkerRuns(h, cap, job, Emitted(h, cap, s, events[0].act), events[1..], s')
    else
      && (ServerActs(events[0]) || (events[0].Upload? && s.queue != []))
      && WorkerRuns(h, cap, job, Next(h, cap, s, events[0]), events[1..], s')
  }

  predicate ServerActs(e: Event) {
    e.Fence? || e.Lapse? || e.Reap?
  }

  function Emits(events: seq<Event>): nat {
    if events == [] then 0 else (if events[0].Emit? then 1 else 0) + Emits(events[1..])
  }

  // ----- What the runner does is clean, legal and answered by its sink -----

  lemma {:induction false} StagesClean(job: Job, n: nat)
    requires CleanJob(job) && n <= |job.stages|
    ensures forall i :: 0 <= i < |job.AfterStages(n)| ==> CleanOut(job.AfterStages(n)[i].out)
  {
    hide AnsweredBySink, Outs, Job.AfterChunks, Job.AfterStage, Job.Failed, Job.BatchesOfStages,
      Job.BatchesOfChunks, Job.MarkersOfStages, AnyRefused;
    if n > 0 {
      var t, u, v := job.AfterStages(n - 1), job.AfterChunks(job.AfterStages(n - 1), n - 1, job.ChunksOf(n - 1)),
        job.AfterStages(n);
      StagesClean(job, n - 1);
      StagesExact(job, n - 1);
      ChunksExact(job, t, n - 1, job.ChunksOf(n - 1));
      StageEnds(job, t, n - 1);
      assert CleanOut(job.Marker(n - 1));
      forall i | 0 <= i < |v| ensures CleanOut(v[i].out) {
        if i < |t| {
          assert v[i] == t[i];
        } else if i < |u| {
          assert v[i] == u[i] && BatchAct(job, u[i], n - 1);
        }
      }
    }
  }

  lemma {:induction false} AnsweredAt(job: Job, t: seq<Act>, n: nat)
    requires AnsweredBySink(job, t) && n < |t|
    ensures t[n].Kept? || (job.hasSink && (t[n].Sent? <==> job.accepts(SinkCalls(t[..n]))))
  {
    hide SinkCalls;
    if n < |t| - 1 {
      AnsweredAt(job, t[..|t| - 1], n);
      assert t[..|t| - 1][..n] == t[..n];
    }
  }

  lemma ActIsEnabled(h: string -> string, cap: int, job: Job, s: State, act: Act)
    requires CleanJob(job) && DistinctScanners(job.stages) && WorkerActs(h, cap, job, s, act)
    requires s.known[s.phase.a.attemptID].trace <= Whole(job)
    ensures Enabled(h, cap, s, Emit(act)) && Next(h, cap, s, Emit(act)) == Emitted(h, cap, s, act)
    ensures s.known[s.phase.a.attemptID].trace + [act] <= Whole(job)
  {
    hide Legal, CleanOut, AnsweredBySink, FifoEnqueued, Job.AfterStages, Outs;
    var t, w := s.known[s.phase.a.attemptID].trace, Whole(job);
    StagesLegal(job, |job.stages|);
    StagesExact(job, |job.stages|);
    StagesClean(job, |job.stages|);
    AnsweredAt(job, w, |t|);
    assert w[..|t|] == t && w[..|t| + 1] == t + [act];
    LegalPrefix(w, |t| + 1);
  }

  /** The runner's acts are enabled steps, one for each of them, wherever uploads and the server's steps fall. */
  lemma {:induction false} RunnerTakesEmitSteps(h: string -> string, cap: int, job: Job, s: State,
                                                events: seq<Event>, s': State)
    requires CleanJob(job) && DistinctScanners(job.stages)
    requires s.phase.Working? && s.phase.a.attemptID in s.known
    requires s.known[s.phase.a.attemptID].trace <= Whole(job) && WorkerRuns(h, cap, job, s, events, s')
    ensures Reaches(h, cap, s, events, s') && s'.phase == s.phase && s.phase.a.attemptID in s'.known
    ensures var x, x' := s.known[s.phase.a.attemptID], s'.known[s.phase.a.attemptID];
      x'.a == x.a && x.trace <= x'.trace <= Whole(job) && |x'.trace| == |x.trace| + Emits(events)
    decreases |events|
  {
    hide CleanJob, DistinctScanners, QueueTakes, WithEnqueued, Whole, Receive;
    if events != [] {
      if events[0].Emit? {
        ActIsEnabled(h, cap, job, s, events[0].act);
        EmittedTrace(h, cap, s, events[0].act);
        RunnerTakesEmitSteps(h, cap, job, Emitted(h, cap, s, events[0].act), events[1..], s');
      } else {
        RunnerTakesEmitSteps(h, cap, job, Next(h, cap, s, events[0]), events[1..], s');
      }
    }
  }

  lemma EmittedTrace(h: string -> string, cap: int, s: State, act: Act)
    requires s.phase.Working? && s.phase.a.attemptID in s.known
    ensures var r := Emitted(h, cap, s, act); var id := s.phase.a.attemptID;
      r.phase == s.phase && id in r.known && r.known[id].a == s.known[id].a
        && r.known[id].trace == s.known[id].trace + [act]
  {
    hide FifoEnqueued, ItemOf;
  }

  // ----- Where a marker stands -----

  lemma {:induction false} OutsMember(t: seq<Act>, complete: bool, out: StageOutput) returns (i: nat)
    requires out in Outs(t, complete)
    ensures i < |t| && t[i].out == out && out.complete == complete
  {
    var n := |t| - 1;
    if out in Outs(t[..n], complete) {
      i := OutsMember(t[..n], complete, out);
    } else {
      i := n;
    }
  }

  lemma {:induction false} EventBatch(job: Job, si: nat, events: seq<ScanEvent>, out: StageOutput)
    requires si < |job.stages| && out in job.BatchesOf(si, events)
    ensures out == job.Out(si, out.raw)
  {
    var before := events[..|events| - 1];
    if out in job.BatchesOf(si, before) {
      EventBatch(job, si, before, out);
    }
  }

  lemma {:induction false} ChunkBatch(job: Job, si: nat, n: nat, out: StageOutput)
    requires si < |job.stages| && out in job.BatchesOfChunks(si, n)
    ensures out == job.Out(si, out.raw)
  {
    if out in job.BatchesOfChunks(si, n - 1) {
      ChunkBatch(job, si, n - 1, out);
    } else {
      EventBatch(job, si, job.Events(si, n - 1), out);
    }
  }

  /** With distinct scanners a marker in the trace is the last act of its stage, which did not fail. */
  lemma {:induction false} MarkerPlace(job: Job, n: nat, k: nat, j: nat)
    requires DistinctScanners(job.stages) && n <= |job.stages| && k < |job.stages| && j < |job.AfterStages(n)|
    requires job.AfterStages(n)[j].out.complete && job.AfterStages(n)[j].out.scanner == job.stages[k].scanner.name
    ensures k < n && j == |job.AfterStages(k + 1)| - 1
    ensures job.AfterStages(n)[j].out == job.Marker(k) && !job.Failed(k, job.ChunksOf(k))
  {
    hide AnsweredBySink, Outs, Legal, Job.AfterChunks, Job.AfterStage, Job.Failed, Job.BatchesOfStages,
      Job.BatchesOfChunks, Job.MarkersOfStages, AnyRefused, NamedBy;
    if n > 0 {
      var t, v := job.AfterStages(n - 1), job.AfterStages(n);
      var u := job.AfterChunks(t, n - 1, job.ChunksOf(n - 1));
      StagesExact(job, n - 1);
      ChunksExact(job, t, n - 1, job.ChunksOf(n - 1));
      StageEnds(job, t, n - 1);
      forall i | |t| <= i < |u| ensures !v[i].out.complete {
        assert v[i] == u[i] && BatchAct(job, u[i], n - 1);
      }
      if j < |t| {
        assert v[j] == t[j];
        MarkerPlace(job, n - 1, k, j);
      }
    }
  }

  /** An attempt whose trace is a first part of what a runner does: if the server takes the marker of a
      stage, no run of that stage failed, and every batch the stage found was taken before exactly if it
      was not lost; none is if the attempt was never reaped. */
  lemma AcceptedMarkerCoversStage(h: string -> string, cap: int, job: Job, events: seq<Event>, s: State, a: Attempt,
                                  k: nat, m: nat)
    requires IdealHash(h) && DistinctScanners(job.stages) && Reaches(h, cap, INITIAL, events, s)
    requires a.attemptID in s.known && s.known[a.attemptID].a == a && s.known[a.attemptID].trace <= Whole(job)
    requires m < |s.server.answers| && s.server.answers[m].taken && IsMarkerOf(s.server.answers[m].item, a, job, k)
    ensures !Fails(job, k)
    ensures forall raw :: Finds(job, k, raw) ==>
      TakenUnlessLost(s.server.answers[..m], ItemOf(h, a, BatchOfStage(job, k, raw)), s.server.reaped)
  {
    hide Reaches, IdealHash, DistinctScanners, Job.AfterStages, Job.Failed, Job.BatchesOfChunks, Job.AfterStage,
      Outs, Legal, AnsweredBySink, Job.BatchesOfStages, Job.MarkersOfStages, TakenUnlessLost, BatchOf,
      Finds, Fails, HasRun;
    var it, x, n := s.server.answers[m].item, s.known[a.attemptID], |job.stages|;
    var j := AnsweredOutput(h, cap, events, s, m);
    assert x.trace[j] == Whole(job)[j];
    MarkerPlace(job, n, k, j);
    StageMeans(job, k, job.Marker(k));
    forall raw | Finds(job, k, raw)
      ensures TakenUnlessLost(s.server.answers[..m], ItemOf(h, a, BatchOfStage(job, k, raw)), s.server.reaped)
    {
      var b := BatchOfStage(job, k, raw);
      StageMeans(job, k, b);
      var i := BatchPlace(job, k, b);
      StagesExtend(job, k + 1, n);
      assert x.trace[i] == Whole(job)[i] == job.AfterStages(k + 1)[i];
      BatchOfTrace(h, s.known, it, i);
      BatchTaken(h, cap, events, s, m, ItemOf(h, a, b));
    }
  }

  function BatchOfStage(job: Job, k: nat, raw: string): StageOutput
    requires k < |job.stages|
  {
    StageOutput(job.stages[k].scanner.stage, job.stages[k].scanner.name, raw, false)
  }

  /** `it` is the completion marker of the job's stage `k`, for the attempt `a`. */
  predicate IsMarkerOf(it: Item, a: Attempt, job: Job, k: nat) {
    it.complete && it.attemptID == a.attemptID && k < |job.stages| && it.scanner == job.stages[k].scanner.name
  }

  /** The server took `it`, exactly if the Scout has not dropped it for good; and it has not, unless the
      attempt was reaped. */
  ghost predicate TakenUnlessLost(answers: seq<Answer>, it: Item, reaped: set<string>) {
    && (Answer(it, true) in answers <==> !Lost(answers, it))
    && (it.attemptID !in reaped ==> Answer(it, true) in answers)
  }

  lemma BatchOfTrace(h: string -> string, known: map<string, Execution>, it: Item, i: nat)
    requires it.attemptID in known && i < |known[it.attemptID].trace|
    requires SameStageBatch(known[it.attemptID].trace[i].out, it)
    ensures BatchOf(h, known, it, ItemOf(h, known[it.attemptID].a, known[it.attemptID].trace[i].out))
  {
    hide ItemOf;
  }

  lemma BatchTaken(h: string -> string, cap: int, events: seq<Event>, s: State, m: nat, batch: Item)
    requires IdealHash(h) && Reaches(h, cap, INITIAL, events, s)
    requires m < |s.server.answers| && s.server.answers[m].taken && s.server.answers[m].item.complete
    requires BatchOf(h, s.known, s.server.answers[m].item, batch)
    requires batch.attemptID == s.server.answers[m].item.attemptID
    ensures TakenUnlessLost(s.server.answers[..m], batch, s.server.reaped)
  {
    hide Lost, BatchOf, Reaches, IdealHash;
    MarkerAcceptedLast(h, cap, events, s, m, batch);
  }

  lemma AnsweredOutput(h: string -> string, cap: int, events: seq<Event>, s: State, m: nat) returns (j: nat)
    requires IdealHash(h) && Reaches(h, cap, INITIAL, events, s) && m < |s.server.answers|
    ensures var it := s.server.answers[m].item;
      && it.attemptID in s.known
      && var x := s.known[it.attemptID];
      && j < |x.trace| && it.complete == x.trace[j].out.complete
      && it.stage == x.trace[j].out.stage && it.scanner == x.trace[j].out.scanner
  {
    hide Reaches, IdealHash, RowsOk, RefusalsOk, Handed, ReportsOk, InOrder, NothingVanishes, PhaseOk, KnownOk,
      MarkersLast, Sourced, AnsweredInOrder;
    ReachableInv(h, cap, events, s);
    AnsweredIsEnqueued(h, s, m);
    var it := s.server.answers[m].item;
    var x := s.known[it.attemptID];
    j :| 0 <= j < |x.trace| && it == ItemOf(h, x.a, x.trace[j].out);
  }

  lemma BatchPlace(job: Job, k: nat, b: StageOutput) returns (i: nat)
    requires k < |job.stages| && b in job.BatchesOfChunks(k, job.ChunksOf(k))
    ensures i < |job.AfterStages(k + 1)| && job.AfterStages(k + 1)[i].out == b
    ensures b == job.Out(k, b.raw) && !b.complete
  {
    hide Job.AfterStages, AnsweredBySink, Outs, Job.MarkersOfStages, Job.BatchesOfChunks;
    StagesExact(job, k + 1);
    ChunkBatch(job, k, job.ChunksOf(k), b);
    assert b in job.BatchesOfStages(k + 1);
    i := OutsMember(job.AfterStages(k + 1), false, b);
  }

  // ----- From start to end -----

  /** When a worker has stopped, nothing is added to what it did: its attempt never runs again. */
  lemma {:induction false} TraceIsFinal(h: string -> string, cap: int, s: State, events: seq<Event>, s': State,
                                        id: string)
    requires id in s.known && (s.phase.Working? ==> s.phase.a.attemptID != id) && Reaches(h, cap, s, events, s')
    ensures id in s'.known && s'.known[id] == s.known[id]
    decreases |events|
  {
    hide FifoEnqueued, Legal, CleanOut, ItemOf, RowOf, Carried;
    if events != [] {
      TraceIsFinal(h, cap, Next(h, cap, s, events[0]), events[1..], s', id);
    }
  }

  lemma WorkerFromStart(h: string -> string, cap: int, job: Job, a: Attempt, s0: State, during: seq<Event>, s1: State)
    requires CleanJob(job) && DistinctScanners(job.stages) && Enabled(h, cap, s0, Start(a))
    requires WorkerRuns(h, cap, job, Next(h, cap, s0, Start(a)), during, s1)
    ensures Reaches(h, cap, s0, [Start(a)] + during, s1) && s1.phase == Working(a)
    ensures a.attemptID in s1.known && s1.known[a.attemptID].a == a && s1.known[a.attemptID].trace <= Whole(job)
  {
    hide CleanJob, DistinctScanners, Whole, WorkerRuns, CleanAttempt;
    assert ([Start(a)] + during)[1..] == during;
    RunnerTakesEmitSteps(h, cap, job, Next(h, cap, s0, Start(a)), during, s1);
  }

  lemma WorkerStops(h: string -> string, cap: int, a: Attempt, s: State, after: seq<Event>, s': State)
    requires s.phase == Working(a) && a.attemptID in s.known && Reaches(h, cap, s, after, s')
    requires after == [] || after[0].WorkerDone? || after[0].Crash?
    ensures a.attemptID in s'.known && s'.known[a.attemptID] == s.known[a.attemptID]
  {
    if after != [] {
      TraceIsFinal(h, cap, Next(h, cap, s, after[0]), after[1..], s', a.attemptID);
    }
  }

  /** Main result, from start to end. A workflow that names each plugin once is run for an attempt, with
      the queue as its sink and uploads and the server's steps in between; it finishes, is cancelled or
      crashes anywhere; then anything may happen. If the server ever takes the completion marker of a
      stage, no run of that stage failed, and every non-empty batch of the stage was taken before it,
      except those the Scout dropped before the attempt was reaped. */
  lemma MarkerMeansEveryBatch(h: string -> string, cap: int, job: Job, a: Attempt, before: seq<Event>, s0: State,
                              during: seq<Event>, s1: State, after: seq<Event>, s: State, k: nat, m: nat)
    requires IdealHash(h) && CleanJob(job) && DistinctScanners(job.stages)
    requires Reaches(h, cap, INITIAL, before, s0) && Enabled(h, cap, s0, Start(a))
    requires WorkerRuns(h, cap, job, Next(h, cap, s0, Start(a)), during, s1)
    requires Reaches(h, cap, s1, after, s) && (after == [] || after[0].WorkerDone? || after[0].Crash?)
    requires m < |s.server.answers| && s.server.answers[m].taken && IsMarkerOf(s.server.answers[m].item, a, job, k)
    ensures !Fails(job, k)
    ensures forall raw :: Finds(job, k, raw) ==>
      TakenUnlessLost(s.server.answers[..m], ItemOf(h, a, BatchOfStage(job, k, raw)), s.server.reaped)
  {
    hide IdealHash, CleanJob, DistinctScanners, Fails, Finds, Whole, WorkerRuns, ItemOf, Reaches,
      Enabled, Next, TakenUnlessLost;
    var started := [Start(a)] + during;
    WorkerFromStart(h, cap, job, a, s0, during, s1);
    WorkerStops(h, cap, a, s1, after, s);
    ReachesJoin(h, cap, INITIAL, before, s0, started, s1);
    ReachesJoin(h, cap, INITIAL, before + started, s1, after, s);
    AcceptedMarkerCoversStage(h, cap, job, before + started + after, s, a, k, m);
  }
}
