/** `Agent.Finalize` with a durable queue: deliver what the sink did not take, then report, and on every
    retry only report. */
module Finalizer {
  import opened Wrappers
  import opened ResultQueue
  import opened DurableQueue
  import opened Workflow
  import StreamingRunner
  import RunContents
  import D = Delivery
  import opened TerminalReports

  /** The orchestrator as the agent sees it: posts arrive in order, each may or may not be acknowledged. */
  class Orchestrator {
    const acknowledges: nat -> bool
    var posts: seq<(D.Attempt, Report)>

    constructor (acknowledges: nat -> bool)
      ensures this.acknowledges == acknowledges && posts == []
    {
      this.acknowledges, posts := acknowledges, [];
    }

    method ReportJobStatus(attempt: D.Attempt, report: Report) returns (ok: bool)
      modifies this
      ensures posts == old(posts) + [(attempt, report)]
      ensures ok == acknowledges(|old(posts)|)
    {
      ok := acknowledges(|posts|);
      posts := posts + [(attempt, report)];
    }
  }

  class RunningJob {
    const attempt: D.Attempt
    var terminalReport: Option<Report>

    constructor (attempt: D.Attempt)
      ensures this.attempt == attempt && terminalReport.None?
    {
      this.attempt, terminalReport := attempt, None;
    }
  }

  /** The disk, the clock and the link during one call. */
  datatype Surroundings = Surroundings(clock: nat -> int, fault: nat -> Fault, answer: nat -> Answer)

  ghost predicate Plausible(w: Surroundings) {
    forall k: nat :: Int64(w.clock(k))
  }

  function Worth(outs: seq<StageOutput>): seq<StageOutput> {
    if outs == [] then []
    else
      var rest := Worth(outs[..|outs| - 1]);
      var out := outs[|outs| - 1];
      if out.raw == "" && !out.complete then rest else rest + [out]
  }

  /** Of the runner's outputs nothing is skipped: its batches are not empty, and its markers are complete. */
  lemma {:induction false} NothingIsSkipped(trace: seq<Act>)
    requires Legal(trace)
    ensures Worth(Carried(trace)) == Carried(trace)
  {
    if trace != [] {
      var n := |trace| - 1;
      LegalPrefix(trace, n);
      NothingIsSkipped(trace[..n]);
      var rest := Carried(trace[..n]);
      if !trace[n].Sent? { assert (rest + [trace[n].out])[..|rest|] == rest; }
    }
  }

  /** Whatever is offered is not empty or a marker, and of these nothing is left out. */
  lemma {:induction false} WorthMeans(outs: seq<StageOutput>, out: StageOutput)
    ensures out in Worth(outs) <==> out in outs && (out.raw != "" || out.complete)
  {
    if outs != [] {
      WorthMeans(outs[..|outs| - 1], out);
      assert outs == outs[..|outs| - 1] + [outs[|outs| - 1]];
    }
  }

  /** The queue after offering it the first `n` of `outs`, and whether it took all of them. */
  function Offered(h: string -> string, cap: int, q: QueueState, a: D.Attempt, outs: seq<StageOutput>, w: Surroundings)
    : (QueueState, bool)
  {
    if outs == [] then (q, true)
    else
      var n := |outs| - 1;
      OfferedNext(h, cap, Offered(h, cap, q, a, outs[..n], w), a, outs[n], w.clock(n), w.fault(n))
  }

  function Unkeyed(a: D.Attempt, out: StageOutput): Item {
    Item("", a.jobID, a.attemptID, a.leaseID, a.fencingToken, out.stage, out.scanner, out.raw, out.complete, 0)
  }

  const QUEUE_FULL_REPORT := Report("failed", "queue_full", "queue: durable backlog is full", [])

  /** One more output: nothing happens after a refusal, otherwise the queue is asked. */
  function OfferedNext(h: string -> string, cap: int, r: (QueueState, bool), a: D.Attempt, out: StageOutput,
                       now: int, fault: Fault)
    : (QueueState, bool)
  {
    if !r.1 then (r.0, false)
    else
      var (q, outcome) := Enqueued(h, cap, r.0, Unkeyed(a, out), now);
      if outcome.Stored? && !fault.NoFault? then (EnqueueFailed(h, r.0, Unkeyed(a, out), now), false)
      else (q, outcome.Stored? || outcome.AlreadyQueued?)
  }

  /** The runner's result as the finalizer gets it, with diagnostics for the failures. */
  predicate Conveys(run: RunResult, res: JobResult) {
    && res.stagesRun == run.stagesRun && res.stagesFailed == run.stagesFailed && res.cancelled == run.cancelled
    && |res.failures| == |run.failures|
  }

  /** From runner to report: a job is reported completed exactly if it was not cancelled, had a stage that
      could run, and no chunk of any stage failed; any other report says why. */
  lemma CompletedMeansNothingFailed(job: Job, skipped: seq<Failure>, run: RunResult, res: JobResult, count: string)
    requires StreamingRunner.Accounted(job, skipped, run) && Conveys(run, res)
    ensures var b := Bound(TerminalReport(res, count));
      && (b.status == "completed" <==>
            && !run.cancelled && job.stages != []
            && forall k :: 0 <= k < |job.stages| ==> !RunContents.Fails(job, k))
      && (b.status != "completed" ==> b.details != [])
  {
    ReportIsHonest(res, count);
    hide Bound, TerminalReport, RunContents.Fails;
    var n := |job.stages|;
    if k :| 0 <= k < n && RunContents.Fails(job, k) {
      assert k in RunContents.FailedStages(job, n);
    } else {
      assert RunContents.FailedStages(job, n) == {};
    }
  }

  class Agent {
    const client: Orchestrator
    const queue: Queue

    constructor (client: Orchestrator, queue: Queue)
      ensures this.client == client && this.queue == queue
    {
      this.client, this.queue := client, queue;
    }

    /** The first call fixes the report and delivers; every later call repeats the report and nothing else. */
    method Finalize(running: RunningJob, res: JobResult, outputs: seq<StageOutput>, count: string, w: Surroundings)
      returns (ok: bool)
      requires queue.Valid() && Plausible(w)
      modifies running, client, queue
      ensures queue.Valid()
      ensures running.terminalReport.Some?
        && client.posts == old(client.posts) + [(running.attempt, running.terminalReport.value)]
      ensures ok == client.acknowledges(|old(client.posts)|)
      ensures old(running.terminalReport).Some? ==>
        running.terminalReport == old(running.terminalReport) && queue.State() == old(queue.State())
      ensures old(running.terminalReport).None? && res.cancelled ==>
        running.terminalReport == Some(Bound(TerminalReport(res, count))) && queue.State() == old(queue.State())
      ensures old(running.terminalReport).None? && !res.cancelled ==>
        var (q, delivered) := Offered(queue.hash, queue.maxBytes, old(queue.State()), running.attempt,
                                      Worth(outputs), w);
        && (delivered ==> running.terminalReport == Some(Bound(TerminalReport(res, count))))
        && (delivered ==> exists n: nat ::
              n <= |q.items| && queue.State() == QueueStep(queue.hash, queue.maxBytes, q, Op.Drain(n)))
        && (!delivered ==> running.terminalReport == Some(Bound(QUEUE_FULL_REPORT)) && queue.State() == q)
        && (!delivered ==>
              running.terminalReport.value.status == "failed" && running.terminalReport.value.errorCode == "queue_full")
    {
      if running.terminalReport.Some? {
        ok := Send(running);
        return;
      }
      if !res.cancelled {
        var delivered := DeliverOutputs(running.attempt, outputs, w);
        if !delivered {
          ok := ReportTerminal(running, QUEUE_FULL_REPORT);
          return;
        }
        var drained, _ := queue.Drain(w.answer);
      }
      ok := ReportTerminal(running, TerminalReport(res, count));
    }

    /** Outputs in order, until the queue refuses one. */
    method DeliverOutputs(attempt: D.Attempt, outputs: seq<StageOutput>, w: Surroundings) returns (delivered: bool)
      requires queue.Valid() && Plausible(w)
      modifies queue
      ensures queue.Valid()
      ensures (queue.State(), delivered)
        == Offered(queue.hash, queue.maxBytes, old(queue.State()), attempt, Worth(outputs), w)
    {
      hide Worth, Offered, Enqueued, EnqueueFailed;
      WorthStep(outputs, 0);
      var calls := 0;
      delivered := true;
      ghost var start, h, cap := queue.State(), queue.hash, queue.maxBytes;
      OfferedStart(h, cap, start, attempt, w);
      for i := 0 to |outputs|
        invariant queue.Valid() && delivered && calls == |Worth(outputs[..i])|
        invariant (queue.State(), true) == Offered(h, cap, start, attempt, Worth(outputs[..i]), w)
      {
        var out := outputs[i];
        WorthStep(outputs, i + 1);
        if out.raw == "" && !out.complete { continue; }
        ghost var before := queue.State();
        assert Worth(outputs[..i + 1]) == Worth(outputs[..i]) + [out];
        OfferedStep(h, cap, start, attempt, Worth(outputs[..i]), out, w);
        var outcome := queue.Enqueue(Unkeyed(attempt, out), w.clock(calls), w.fault(calls));
        if outcome.Full? || outcome.DiskError? {
          StopsAtRefusal(h, cap, start, attempt, outputs, i + 1, w);
          return false;
        }
        assert (queue.State(), true) ==
          OfferedNext(h, cap, (before, true), attempt, out, w.clock(calls), w.fault(calls));
        calls := calls + 1;
      }
      assert outputs[..|outputs|] == outputs;
    }

    /** Bounds the report and keeps it before the first send. */
    method ReportTerminal(running: RunningJob, report: Report) returns (ok: bool)
      modifies running, client
      ensures running.terminalReport == Some(Bound(report))
      ensures client.posts == old(client.posts) + [(running.attempt, Bound(report))]
      ensures ok == client.acknowledges(|old(client.posts)|)
    {
      running.terminalReport := Some(Bound(report));
      ok := Send(running);
    }

    /** Only a stored report can be sent. */
    method Send(running: RunningJob) returns (ok: bool)
      requires running.terminalReport.Some?
      modifies client
      ensures client.posts == old(client.posts) + [(running.attempt, running.terminalReport.value)]
      ensures ok == client.acknowledges(|old(client.posts)|)
    {
      ok := client.ReportJobStatus(running.attempt, running.terminalReport.value);
    }
  }

  lemma WorthStep(outs: seq<StageOutput>, i: nat)
    requires i <= |outs|
    ensures i == 0 ==> Worth(outs[..i]) == []
    ensures i > 0 ==>
      Worth(outs[..i]) == if outs[i - 1].raw == "" && !outs[i - 1].complete then Worth(outs[..i - 1])
                          else Worth(outs[..i - 1]) + [outs[i - 1]]
  {
    if i > 0 { assert outs[..i][..i - 1] == outs[..i - 1]; }
  }

  lemma OfferedStart(h: string -> string, cap: int, q: QueueState, a: D.Attempt, w: Surroundings)
    ensures Offered(h, cap, q, a, [], w) == (q, true)
  {
  }

  lemma OfferedStep(h: string -> string, cap: int, q: QueueState, a: D.Attempt, outs: seq<StageOutput>,
                    out: StageOutput, w: Surroundings)
    ensures Offered(h, cap, q, a, outs + [out], w)
      == OfferedNext(h, cap, Offered(h, cap, q, a, outs, w), a, out, w.clock(|outs|), w.fault(|outs|))
  {
    assert (outs + [out])[..|outs|] == outs;
  }

  /** Nothing is offered after the first refusal. */
  lemma {:induction false} StopsAtRefusal(h: string -> string, cap: int, q: QueueState, a: D.Attempt,
                                          outs: seq<StageOutput>, i: nat, w: Surroundings)
    requires i <= |outs| && !Offered(h, cap, q, a, Worth(outs[..i]), w).1
    ensures Offered(h, cap, q, a, Worth(outs), w) == Offered(h, cap, q, a, Worth(outs[..i]), w)
    decreases |outs|
  {
    if i == |outs| {
      assert outs[..i] == outs;
    } else {
      var before := outs[..|outs| - 1];
      assert before[..i] == outs[..i];
      StopsAtRefusal(h, cap, q, a, before, i, w);
      assert Worth(outs) == Worth(before) || Worth(outs)[..|Worth(outs)| - 1] == Worth(before);
    }
  }

  // ----- What the finalizer does to the real queue is what the step system does to its abstract one -----

  ghost function Delivers(n: nat): seq<D.Event> {
    seq(n, _ => D.Event.Deliver(true))
  }

  lemma {:induction false} ReachesThen(h: string -> string, cap: int, s: D.State, events: seq<D.Event>, s': D.State,
                                       e: D.Event)
    requires D.Reaches(h, cap, s, events, s') && D.Enabled(h, cap, s', e)
    ensures D.Reaches(h, cap, s, events + [e], D.Next(h, cap, s', e))
    decreases |events|
  {
    hide D.Next, D.Enabled;
    if events == [] {
      assert ([e] + [])[1..] == [];
    } else {
      ReachesThen(h, cap, D.Next(h, cap, s, events[0]), events[1..], s', e);
      assert (events + [e])[1..] == events[1..] + [e];
    }
  }

  lemma DeliverStep(h: string -> string, cap: int, q: QueueState, s: D.State, out: StageOutput, now: int, limit: int)
    requires s.phase.Finishing? && s.phase.pos < |s.phase.outputs| && s.phase.outputs[s.phase.pos] == out
    requires Consistent(q) && s.queue == Unstamped(q.items) && q.last <= limit < MAX_INT64 && MIN_INT64 <= now <= limit
    requires OfferedNext(h, cap, (q, true), s.phase.a, out, now, NoFault).1
    ensures D.Enabled(h, cap, s, D.Event.Deliver(true))
    ensures var s', r := D.Next(h, cap, s, D.Event.Deliver(true)),
      OfferedNext(h, cap, (q, true), s.phase.a, out, now, NoFault).0;
      && s'.queue == Unstamped(r.items) && s'.phase == s.phase.(pos := s.phase.pos + 1)
      && Consistent(r) && r.last <= limit + 1
  {
    hide Enqueued, FifoEnqueued, Consistent, Unstamped, Stamp;
    var it := Unkeyed(s.phase.a, out);
    EnqueueKeepsConsistent(h, cap, q, it, now);
    LastGrowsByOne(h, cap, q, it, now, limit);
    SameOffer(h, cap, s.queue, s.phase.a, out);
    assert q.last <= MAX_INT64 - 1;
    EnqueueRefinesFifo(h, cap, q, it, now);
  }

  lemma LastGrowsByOne(h: string -> string, cap: int, q: QueueState, it: Item, now: int, limit: int)
    requires Consistent(q) && it.createdAt == 0 && q.last <= limit < MAX_INT64 && MIN_INT64 <= now <= limit
    ensures 0 <= q.last && Enqueued(h, cap, q, it, now).0.last <= limit + 1
  {
    StampRange(it, now, q.last);
  }

  /** With a disk that works and stamps left, delivering `n` outputs is `n` deliver steps. */
  lemma {:induction false} FinalizerTakesDeliverSteps(h: string -> string, cap: int, q: QueueState, w: Surroundings,
                                                      s: D.State, n: nat, limit: int) returns (s': D.State)
    requires s.phase.Finishing? && s.phase.pos == 0 && n <= |s.phase.outputs|
    requires Consistent(q) && s.queue == Unstamped(q.items) && q.last <= limit && limit + n <= MAX_INT64
    requires forall k: nat :: w.fault(k).NoFault? && MIN_INT64 <= w.clock(k) <= limit
    requires Offered(h, cap, q, s.phase.a, s.phase.outputs[..n], w).1
    ensures D.Reaches(h, cap, s, Delivers(n), s') && s'.phase == s.phase.(pos := n)
    ensures var r := Offered(h, cap, q, s.phase.a, s.phase.outputs[..n], w).0;
      s'.queue == Unstamped(r.items) && Consistent(r) && r.last <= limit + n
  {
    hide Consistent, Unstamped, OfferedNext, D.Next, D.Enabled, Enqueued;
    if n == 0 {
      s' := s;
    } else {
      var outs, a, m := s.phase.outputs, s.phase.a, n - 1;
      assert outs[..n] == outs[..m] + [outs[m]];
      OfferedStep(h, cap, q, a, outs[..m], outs[m], w);
      RefusedStays(h, cap, Offered(h, cap, q, a, outs[..m], w), a, outs[m], w.clock(m), w.fault(m));
      var s0 := FinalizerTakesDeliverSteps(h, cap, q, w, s, m, limit);
      DeliverStep(h, cap, Offered(h, cap, q, a, outs[..m], w).0, s0, outs[m], w.clock(m), limit + m);
      s' := D.Next(h, cap, s0, D.Event.Deliver(true));
      ReachesThen(h, cap, s, Delivers(m), s0, D.Event.Deliver(true));
      assert Delivers(m) + [D.Event.Deliver(true)] == Delivers(n);
    }
  }

  lemma RefusedStays(h: string -> string, cap: int, r: (QueueState, bool), a: D.Attempt, out: StageOutput, now: int,
                     fault: Fault)
    ensures OfferedNext(h, cap, r, a, out, now, fault).1 ==> r.1
  {
  }

  lemma SameOffer(h: string -> string, cap: int, f: seq<Item>, a: D.Attempt, out: StageOutput)
    ensures FifoEnqueued(h, cap, f, D.ItemOf(h, a, out)) == FifoEnqueued(h, cap, f, Unkeyed(a, out))
  {
    assert Keyed(h, Keyed(h, Unkeyed(a, out))) == Keyed(h, Unkeyed(a, out));
  }
}
