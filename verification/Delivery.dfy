/** The result-delivery pipeline as one step system: worker, durable queue, finalizer, drain loop, server.
    Steps interleave freely; a crash loses everything but the queue; the server may refuse an attempt for
    good, or until its reaper has marked the attempt expired. */
module Delivery {
  import opened ResultKeys
  import opened ResultQueue
  import opened Workflow

  datatype Attempt = Attempt(jobID: string, attemptID: string, leaseID: string, fencingToken: int)

  datatype Report = Report(status: string, errorCode: string)

  const QUEUE_FULL := Report("failed", "queue_full")

  /** The queue item of an output, keyed as the queue keys it. */
  function ItemOf(h: string -> string, a: Attempt, out: StageOutput): Item {
    Keyed(h, Item("", a.jobID, a.attemptID, a.leaseID, a.fencingToken, out.stage, out.scanner, out.raw,
                  out.complete, 0))
  }

  /** The row the server keeps for an upload: its job and its `api.ResultKey`. */
  datatype Row = Row(jobID: string, key: string)

  function RowOf(h: string -> string, it: Item): Row {
    Row(it.jobID, Key(h, it.jobID, if it.stage == "" then "discovery" else it.stage,
                      if it.scanner == "" then "nmap" else it.scanner, it.raw, it.complete))
  }

  /** What the server answered to an upload: it took the item, or the Scout dropped it because its attempt
      was refused. */
  datatype Answer = Answer(item: Item, taken: bool)

  /** `answers` records in order every upload the server took, repeats included, and every refusal the Scout
      learned of. `fenced` attempts have a newer one; the lease of `lapsed` attempts ended while they were
      active; `reaped` attempts are marked as expired. */
  datatype Server = Server(rows: seq<Row>, answers: seq<Answer>, fenced: set<string>, lapsed: set<string>,
                           reaped: set<string>)

  /** Uploads of a terminal attempt are welcome, so a lapse counts only until the attempt is reaped. */
  predicate Refuses(sv: Server, attemptID: string) {
    attemptID in sv.fenced || (attemptID in sv.lapsed && attemptID !in sv.reaped)
  }

  /** A refused item stays in the queue if the refusal is lost, and is dropped otherwise. */
  function Receive(h: string -> string, sv: Server, it: Item, acknowledged: bool): Server {
    if !Refuses(sv, it.attemptID) then
      sv.(answers := sv.answers + [Answer(it, true)],
          rows := if RowOf(h, it) in sv.rows then sv.rows else sv.rows + [RowOf(h, it)])
    else if acknowledged then sv.(answers := sv.answers + [Answer(it, false)])
    else sv
  }

  /** The scanner job in memory. */
  datatype Phase =
    | Idle
    | Working(a: Attempt)
    | Finishing(a: Attempt, outputs: seq<StageOutput>, pos: nat, planned: Report)
    | Reporting(a: Attempt, report: Report)

  datatype Execution = Execution(a: Attempt, trace: seq<Act>)

  /** `known` remembers what every attempt's worker did; `enqueued` every item the queue said yes to,
      in the order of the first time; `posted` every terminal report sent. */
  datatype State = State(queue: seq<Item>, phase: Phase, server: Server, known: map<string, Execution>,
                         enqueued: seq<Item>, posted: seq<(string, Report)>)

  datatype Event =
    | Start(offer: Attempt)
    | Emit(act: Act)
    | WorkerDone(cancelled: bool, planned: Report)
    | Deliver(ok: bool)
    | Delivered
    | Post(acknowledged: bool)
    | Upload(acknowledged: bool)
    | Fence(attemptID: string)
    | Lapse(attemptID: string)
    | Reap(attemptID: string)
    | Crash

  function Remember(enqueued: seq<Item>, it: Item): seq<Item> {
    if it in enqueued then enqueued else enqueued + [it]
  }

  function WithEnqueued(h: string -> string, cap: int, s: State, it: Item): State {
    s.(queue := FifoEnqueued(h, cap, s.queue, it).0, enqueued := Remember(s.enqueued, it))
  }

  predicate QueueTakes(h: string -> string, cap: int, s: State, it: Item) {
    !FifoEnqueued(h, cap, s.queue, it).1.Full?
  }

  predicate CleanOut(out: StageOutput) {
    NUL !in out.stage + out.scanner && out.stage != "" && out.scanner != ""
  }

  predicate CleanAttempt(a: Attempt) {
    a.attemptID != "" && NUL !in a.attemptID && NUL !in a.jobID
  }

  ghost predicate Enabled(h: string -> string, cap: int, s: State, e: Event) {
    match e
    case Start(a) => s.phase.Idle? && a.attemptID !in s.known && CleanAttempt(a)
    case Emit(act) =>
      && s.phase.Working? && s.phase.a.attemptID in s.known
      && CleanOut(act.out) && Legal(s.known[s.phase.a.attemptID].trace + [act])
      && (act.Sent? ==> QueueTakes(h, cap, s, ItemOf(h, s.phase.a, act.out)))
    case WorkerDone(_, _) => s.phase.Working? && s.phase.a.attemptID in s.known
    case Deliver(ok) =>
      && s.phase.Finishing? && s.phase.pos < |s.phase.outputs|
      && (ok ==> QueueTakes(h, cap, s, ItemOf(h, s.phase.a, s.phase.outputs[s.phase.pos])))
    case Delivered => s.phase.Finishing? && s.phase.pos == |s.phase.outputs|
    case Post(_) => s.phase.Reporting?
    case Upload(_) => s.queue != []
    case Fence(_) => true
    case Lapse(_) => true
    case Reap(_) => true
    case Crash => true
  }

  ghost function Next(h: string -> string, cap: int, s: State, e: Event): State
    requires Enabled(h, cap, s, e)
  {
    match e
    case Start(a) => s.(phase := Working(a), known := s.known[a.attemptID := Execution(a, [])])
    case Emit(act) =>
      var x := s.known[s.phase.a.attemptID];
      var s' := s.(known := s.known[s.phase.a.attemptID := x.(trace := x.trace + [act])]);
      if act.Sent? then WithEnqueued(h, cap, s', ItemOf(h, s.phase.a, act.out)) else s'
    case WorkerDone(cancelled, planned) =>
      var outputs := if cancelled then [] else Carried(s.known[s.phase.a.attemptID].trace);
      s.(phase := Finishing(s.phase.a, outputs, 0, planned))
    case Deliver(ok) =>
      if ok then WithEnqueued(h, cap, s, ItemOf(h, s.phase.a, s.phase.outputs[s.phase.pos]))
                 .(phase := s.phase.(pos := s.phase.pos + 1))
      else s.(phase := Reporting(s.phase.a, QUEUE_FULL))
    case Delivered => s.(phase := Reporting(s.phase.a, s.phase.planned))
    case Post(acknowledged) =>
      s.(posted := s.posted + [(s.phase.a.attemptID, s.phase.report)],
         phase := if acknowledged then Idle else s.phase)
    case Upload(acknowledged) =>
      s.(server := Receive(h, s.server, s.queue[0], acknowledged),
         queue := if acknowledged then s.queue[1..] else s.queue)
    case Fence(id) => s.(server := s.server.(fenced := s.server.fenced + {id}))
    case Lapse(id) => s.(server := s.server.(lapsed := s.server.lapsed + {id}))
    case Reap(id) => s.(server := s.server.(reaped := s.server.reaped + {id}))
    case Crash => s.(phase := Idle)
  }

  const INITIAL := State([], Idle, Server([], [], {}, {}, {}), map[], [], [])

  ghost predicate Reaches(h: string -> string, cap: int, s: State, events: seq<Event>, s': State)
    decreases |events|
  {
    if events == [] then s' == s
    else Enabled(h, cap, s, events[0]) && Reaches(h, cap, Next(h, cap, s, events[0]), events[1..], s')
  }

  // ----- The invariant -----

  ghost predicate Settled(answers: seq<Answer>, it: Item) {
    Answer(it, true) in answers || Answer(it, false) in answers
  }

  /** Dropped after a refusal, and not taken at any other time. */
  ghost predicate Lost(answers: seq<Answer>, it: Item) {
    Answer(it, false) in answers && Answer(it, true) !in answers
  }

  /** Executions are legal and filed under their own attempt; the job in memory is one of them. */
  ghost predicate KnownOk(known: map<string, Execution>) {
    forall id :: id in known ==>
      && known[id].a.attemptID == id && CleanAttempt(known[id].a)
      && Legal(known[id].trace)
      && forall i :: 0 <= i < |known[id].trace| ==> CleanOut(known[id].trace[i].out)
  }

  ghost predicate PhaseOk(s: State) {
    match s.phase
    case Idle => true
    case Working(a) => a.attemptID in s.known && s.known[a.attemptID].a == a
    case Finishing(a, outputs, pos, _) =>
      && a.attemptID in s.known && s.known[a.attemptID].a == a && pos <= |outputs|
      && (outputs == [] || outputs == Carried(s.known[a.attemptID].trace))
    case Reporting(a, _) => a.attemptID in s.known && s.known[a.attemptID].a == a
  }

  /** `it` is an output of the execution `x`. */
  ghost predicate OutputOf(h: string -> string, x: Execution, it: Item) {
    exists j :: 0 <= j < |x.trace| && it == ItemOf(h, x.a, x.trace[j].out)
  }

  ghost predicate Sourced(h: string -> string, s: State) {
    forall p :: 0 <= p < |s.enqueued| ==>
      s.enqueued[p].attemptID in s.known && OutputOf(h, s.known[s.enqueued[p].attemptID], s.enqueued[p])
  }

  /** Nothing the queue said yes to vanishes: it is pending, or it was answered. */
  ghost predicate NothingVanishes(s: State) {
    && (forall q :: 0 <= q < |s.queue| ==> s.queue[q] in s.enqueued)
    && (forall p :: 0 <= p < |s.enqueued| ==> s.enqueued[p] in s.queue || Settled(s.server.answers, s.enqueued[p]))
  }

  /** Pending items wait behind everything enqueued before them that is not answered. */
  ghost predicate InOrder(s: State) {
    forall p, p', q :: 0 <= p < p' < |s.enqueued| && 0 <= q < |s.queue| && s.queue[q] == s.enqueued[p'] ==>
      Settled(s.server.answers, s.enqueued[p]) || s.enqueued[p] in s.queue[..q]
  }

  /** The server answers items in the order the queue took them. */
  ghost predicate AnsweredInOrder(s: State) {
    && (forall m :: 0 <= m < |s.server.answers| ==> s.server.answers[m].item in s.enqueued)
    && (forall p, p', m ::
          (0 <= p < p' < |s.enqueued| && 0 <= m < |s.server.answers| && s.server.answers[m].item == s.enqueued[p'])
          ==> Settled(s.server.answers[..m], s.enqueued[p]))
  }

  /** Only fenced and lapsed attempts are refused, and after a refusal only a reaped one is taken. */
  ghost predicate RefusalsOk(sv: Server) {
    && (forall m :: 0 <= m < |sv.answers| && !sv.answers[m].taken ==>
          sv.answers[m].item.attemptID in sv.fenced + sv.lapsed)
    && (forall m, n ::
          (0 <= m < n < |sv.answers| && !sv.answers[m].taken && sv.answers[n].taken
            && sv.answers[m].item.attemptID == sv.answers[n].item.attemptID)
          ==> sv.answers[n].item.attemptID in sv.reaped)
  }

  ghost predicate SentEnqueued(h: string -> string, x: Execution, enqueued: seq<Item>) {
    forall i :: 0 <= i < |x.trace| && x.trace[i].Sent? ==> ItemOf(h, x.a, x.trace[i].out) in enqueued
  }

  /** What the sink accepted, and what the finalizer has delivered so far, was enqueued. */
  ghost predicate Handed(h: string -> string, s: State) {
    && (forall id :: id in s.known ==> SentEnqueued(h, s.known[id], s.enqueued))
    && (s.phase.Finishing? ==> forall k :: 0 <= k < s.phase.pos && k < |s.phase.outputs| ==>
          ItemOf(h, s.phase.a, s.phase.outputs[k]) in s.enqueued)
  }

  /** A marker is enqueued behind every batch of its scanner. */
  ghost predicate MarkersLast(h: string -> string, s: State) {
    forall id :: id in s.known ==> MarkersLastIn(h, s.known[id], s.enqueued)
  }

  ghost predicate MarkersLastIn(h: string -> string, x: Execution, enqueued: seq<Item>) {
    forall i, j, p ::
      (0 <= i < j < |x.trace| && 0 <= p < |enqueued| && x.trace[j].out.complete
        && SameScanner(x.trace[i].out, x.trace[j].out) && enqueued[p] == ItemOf(h, x.a, x.trace[j].out))
      ==> ItemOf(h, x.a, x.trace[i].out) in enqueued[..p]
  }

  /** The server's table has one row per content it took, and no other. */
  ghost predicate RowsOk(h: string -> string, sv: Server) {
    && (forall i, j :: 0 <= i < j < |sv.rows| ==> sv.rows[i] != sv.rows[j])
    && (forall it :: Answer(it, true) in sv.answers ==> RowOf(h, it) in sv.rows)
    && (forall r :: r in sv.rows ==> exists it :: Answer(it, true) in sv.answers && RowOf(h, it) == r)
  }

  /** One attempt has one terminal report, however often it is sent. */
  ghost predicate ReportsOk(s: State) {
    && (forall i, j :: 0 <= i < j < |s.posted| && s.posted[i].0 == s.posted[j].0 ==> s.posted[i].1 == s.posted[j].1)
    && (forall i :: 0 <= i < |s.posted| ==> s.posted[i].0 in s.known)
    && (s.phase.Working? || s.phase.Finishing? ==>
          forall i :: 0 <= i < |s.posted| ==> s.posted[i].0 != s.phase.a.attemptID)
    && (s.phase.Reporting? ==> forall i :: 0 <= i < |s.posted| && s.posted[i].0 == s.phase.a.attemptID ==>
          s.posted[i].1 == s.phase.report)
  }

  ghost predicate Inv(h: string -> string, s: State) {
    && KnownOk(s.known) && PhaseOk(s) && Sourced(h, s)
    && NothingVanishes(s) && InOrder(s) && AnsweredInOrder(s)
    && Handed(h, s) && MarkersLast(h, s)
    && RowsOk(h, s.server) && RefusalsOk(s.server) && ReportsOk(s)
  }
}
