/** The Scout's main loop: heartbeat, one job at a time, and the retries of its terminal report. The log
    records what the loop does; times are in seconds. */
module ScoutLoop {
  import opened Wrappers
  import opened Arithmetic

  datatype Heartbeat = Answered(cancellations: set<string>) | Rejected | Unanswered

  datatype Poll = NoJob | Job(id: string) | PollRejected | PollFailed

  /** What one iteration meets: the emergency stop, the orchestrator's answers, a worker that has finished,
      the clock when a report is due and after it failed, and an interrupt during the heartbeat or later. */
  datatype Inputs = Inputs(emergencyStop: bool, heartbeat: Heartbeat, poll: Poll, done: Option<string>,
                           now: int, acknowledged: bool, failedAt: int, interrupted: bool, interruptedLater: bool)

  datatype Event =
    | Renew(job: string)
    | Cancel(job: string)
    | Start(job: string)
    | Finalize(job: string, result: string, at: int, acknowledged: bool, failedAt: int)

  // ----- What the log says -----

  /** The job that has been started and whose report has not been acknowledged. */
  function Held(log: seq<Event>): Option<string> {
    if log == [] then None
    else
      var e := log[|log| - 1];
      match e
      case Start(j) => Some(j)
      case Finalize(_, _, _, true, _) => None
      case _ => Held(log[..|log| - 1])
  }

  /** The failed reports of that job, in order. */
  function Failures(log: seq<Event>): (s: seq<Event>)
    ensures forall f :: f in s ==> f.Finalize? && !f.acknowledged
  {
    if log == [] then []
    else
      var e, before := log[|log| - 1], Failures(log[..|log| - 1]);
      match e
      case Start(_) => []
      case Finalize(_, _, _, acknowledged, _) => if acknowledged then [] else before + [e]
      case _ => before
  }

  /** How long to wait after failure number k + 1. */
  function Delay(k: nat): nat {
    if k == 0 then 1 else if 2 * Delay(k - 1) > 30 then 30 else 2 * Delay(k - 1)
  }

  /** May `e` come next? */
  predicate Permitted(log: seq<Event>, e: Event) {
    match e
    case Renew(j) => Held(log) == Some(j)
    case Cancel(j) => Held(log) == Some(j)
    case Start(_) => Held(log).None?
    case Finalize(j, result, at, _, _) =>
      && Held(log) == Some(j)
      && var f := Failures(log); f != [] ==>
        f[|f| - 1].result == result && at >= f[|f| - 1].failedAt + Delay(|f| - 1)
  }

  ghost predicate Legal(log: seq<Event>) {
    forall k :: 0 <= k < |log| ==> Permitted(log[..k], log[k])
  }

  lemma LegalAppend(log: seq<Event>, e: Event)
    requires Legal(log) && Permitted(log, e)
    ensures Legal(log + [e])
  {
    var r := log + [e];
    forall k | 0 <= k < |r| ensures Permitted(r[..k], r[k]) {
      assert r[..k] == if k < |log| then log[..k] else log;
    }
  }

  lemma LogStep(log: seq<Event>, e: Event)
    ensures Held(log + [e]) == match e
      case Start(j) => Some(j)
      case Finalize(_, _, _, true, _) => None
      case _ => Held(log)
    ensures Failures(log + [e]) == match e
      case Start(_) => []
      case Finalize(_, _, _, true, _) => []
      case Finalize(_, _, _, false, _) => Failures(log) + [e]
      case _ => Failures(log)
  {
    assert (log + [e])[..|log|] == log;
  }

  // ----- The loop -----

  class Loop {
    var running: Option<string>
    var pendingResult: Option<string>
    var finalizeRetryDelay: nat
    var nextFinalizeAttempt: Option<int>
    ghost var log: seq<Event>

    /** Retry state and log agree. Without a job there is no result, and the delay starts over. */
    ghost predicate Valid()
      reads this
    {
      && Legal(log) && running == Held(log)
      && (pendingResult.Some? ==> running.Some?)
      && var f := Failures(log);
      && finalizeRetryDelay == Delay(|f|)
      && (f == [] ==> nextFinalizeAttempt.None?)
      && (f != [] ==> pendingResult == Some(f[|f| - 1].result))
      && (f != [] ==> nextFinalizeAttempt == Some(f[|f| - 1].failedAt + Delay(|f| - 1)))
      && (running.None? ==> f == [])
    }

    constructor ()
      ensures Valid() && log == [] && running.None?
    {
      running, pendingResult, finalizeRetryDelay, nextFinalizeAttempt, log := None, None, 1, None, [];
    }

    method Record(e: Event)
      requires Legal(log) && Permitted(log, e)
      modifies `log
      ensures Legal(log) && log == old(log) + [e]
      ensures Held(log) == match e
        case Start(j) => Some(j)
        case Finalize(_, _, _, true, _) => None
        case _ => Held(old(log))
      ensures Failures(log) == match e
        case Start(_) => []
        case Finalize(_, _, _, true, _) => []
        case Finalize(_, _, _, false, _) => Failures(old(log)) + [e]
        case _ => Failures(old(log))
    {
      LegalAppend(log, e);
      LogStep(log, e);
      log := log + [e];
    }

    method CancelRunning()
      requires Valid()
      modifies `log
      ensures Valid() && old(log) <= log
      ensures running.Some? ==> log == old(log) + [Cancel(running.value)]
    {
      hide Legal, Held, Failures, Delay;
      if running.Some? {
        Record(Cancel(running.value));
      }
    }

    /** One iteration. The log only grows by permitted events, and when the loop ends no worker is left:
        there is none, it was cancelled, or the interrupt has reached it through its context. */
    method Iterate(i: Inputs) returns (exit: Option<int>)
      requires Valid()
      modifies this
      ensures Valid() && old(log) <= log
      ensures exit.Some? ==>
        running.None? || i.interrupted || (log != [] && log[|log| - 1] == Cancel(running.value))
      ensures i.emergencyStop ==> exit == Some(0) && running == old(running)
    {
      hide Legal, Held, Failures, Delay;
      if i.emergencyStop {
        CancelRunning();
        return Some(0);
      }
      if running.Some? {
        Record(Renew(running.value));
      }
      match i.heartbeat {
        case Rejected =>
          CancelRunning();
          return Some(1);
        case Unanswered =>
          if i.interrupted {
            return Some(0);
          }
        case Answered(cancellations) =>
          var rejected := Answer(cancellations, i.poll);
          if rejected {
            return Some(1);
          }
      }
      Report(i);
      if i.interruptedLater {
        CancelRunning();
        return Some(0);
      }
      return None;
    }

    /** A cancellation counts until the worker's result is in; a poll is made only without a job. */
    method Answer(cancellations: set<string>, poll: Poll) returns (rejected: bool)
      requires Valid()
      modifies `running, `log
      ensures Valid() && old(log) <= log
      ensures rejected <==> old(running).None? && poll.PollRejected?
      ensures old(running).Some? ==> running == old(running)
      ensures old(running).Some? ==> log == if old(pendingResult).None? && old(running).value in cancellations
        then old(log) + [Cancel(old(running).value)] else old(log)
      ensures old(running).None? ==> running == if poll.Job? then Some(poll.id) else None
      ensures old(running).None? ==> log == if poll.Job? then old(log) + [Start(poll.id)] else old(log)
    {
      hide Legal, Held, Failures, Delay;
      rejected := false;
      if running.Some? {
        if pendingResult.None? && running.value in cancellations {
          Record(Cancel(running.value));
        }
      } else {
        match poll
        case PollRejected => return true;
        case PollFailed =>
        case NoJob =>
        case Job(id) =>
          Record(Start(id));
          running := Some(id);
      }
    }

    /** The result to report: the one taken earlier, or else what the worker has just produced. */
    function Taken(i: Inputs): Option<string>
      reads this
    {
      if running.None? || pendingResult.Some? then pendingResult else i.done
    }

    /** There is a result, and the delay after the latest failure is over. */
    predicate Due(i: Inputs)
      reads this
    {
      running.Some? && Taken(i).Some? && (nextFinalizeAttempt.Some? ==> i.now >= nextFinalizeAttempt.value)
    }

    /** Takes the worker's result once, and reports it when it is due. */
    method Report(i: Inputs)
      requires Valid()
      modifies this
      ensures Valid() && old(log) <= log
      ensures !old(Due(i)) ==> log == old(log) && running == old(running) && pendingResult == old(Taken(i))
      ensures !old(Due(i)) ==> finalizeRetryDelay == old(finalizeRetryDelay)
      ensures !old(Due(i)) ==> nextFinalizeAttempt == old(nextFinalizeAttempt)
      ensures old(Due(i)) ==>
        log == old(log) + [Finalize(old(running).value, old(Taken(i)).value, i.now, i.acknowledged, i.failedAt)]
      ensures old(Due(i)) && i.acknowledged ==>
        running.None? && pendingResult.None? && finalizeRetryDelay == 1 && nextFinalizeAttempt.None?
      ensures old(Due(i)) && !i.acknowledged ==> running == old(running) && pendingResult == old(Taken(i))
      ensures old(Due(i)) && !i.acknowledged ==>
        && nextFinalizeAttempt == Some(i.failedAt + old(finalizeRetryDelay))
        && finalizeRetryDelay == if 2 * old(finalizeRetryDelay) > 30 then 30 else 2 * old(finalizeRetryDelay)
    {
      hide Legal, Held, Failures;
      if running.None? {
        return;
      }
      if pendingResult.None? {
        pendingResult := i.done;
      }
      if pendingResult.None? || (nextFinalizeAttempt.Some? && i.now < nextFinalizeAttempt.value) {
        return;
      }
      Record(Finalize(running.value, pendingResult.value, i.now, i.acknowledged, i.failedAt));
      if !i.acknowledged {
        nextFinalizeAttempt := Some(i.failedAt + finalizeRetryDelay);
        finalizeRetryDelay := finalizeRetryDelay * 2;
        if finalizeRetryDelay > 30 {
          finalizeRetryDelay := 30;
        }
      } else {
        running, pendingResult := None, None;
        finalizeRetryDelay := 1;
        nextFinalizeAttempt := None;
      }
    }

    method Run(inputs: seq<Inputs>) returns (exit: Option<int>)
      requires Valid()
      modifies this
      ensures Valid() && Legal(log)
    {
      exit := None;
      var k := 0;
      while k < |inputs| && exit.None?
        invariant Valid()
      {
        exit := Iterate(inputs[k]);
        k := k + 1;
      }
    }
  }

  // ----- What every legal log has -----

  lemma {:induction false} HeldSince(log: seq<Event>, p: nat)
    requires p < |log| && log[p].Start?
    requires Legal(log)
    ensures Held(log) == Some(log[p].job) ||
      exists r :: p < r < |log| && log[r].Finalize? && log[r].acknowledged && log[r].job == log[p].job
  {
    hide Failures, Delay;
    var n := |log| - 1;
    var before := log[..n];
    if p < n {
      LegalPrefix(log, n);
      HeldSince(before, p);
      assert Permitted(before, log[n]);
      if r :| p < r < |before| && before[r].Finalize? && before[r].acknowledged && before[r].job == before[p].job {
        assert log[r] == before[r];
      }
    }
  }

  lemma LegalPrefix(log: seq<Event>, n: nat)
    requires Legal(log) && n <= |log|
    ensures Legal(log[..n])
  {
    var t := log[..n];
    forall k | 0 <= k < |t| ensures Permitted(t[..k], t[k]) {
      assert t[..k] == log[..k];
    }
  }

  /** One job at a time: before another job starts, the report of the one before it was acknowledged. */
  lemma JobsDoNotOverlap(log: seq<Event>, p: nat, q: nat)
    requires Legal(log) && p < q < |log| && log[p].Start? && log[q].Start?
    ensures exists r :: p < r < q && log[r].Finalize? && log[r].acknowledged && log[r].job == log[p].job
  {
    LegalPrefix(log, q);
    HeldSince(log[..q], p);
    assert Permitted(log[..q], log[q]);
    var r :| p < r < |log[..q]| && log[..q][r].Finalize? && log[..q][r].acknowledged
      && log[..q][r].job == log[..q][p].job;
    assert log[..q][r] == log[r];
  }

  /** Nothing but renewals and cancellations between p and the end, exclusive. */
  ghost predicate Quiet(log: seq<Event>, p: nat, q: nat) {
    forall k :: p < k < q && k < |log| ==> log[k].Renew? || log[k].Cancel?
  }

  lemma {:induction false} FailureStays(log: seq<Event>, p: nat)
    requires p < |log| && log[p].Finalize? && !log[p].acknowledged && Quiet(log, p, |log|)
    ensures Failures(log) != [] && Failures(log)[|Failures(log)| - 1] == log[p]
    ensures |Failures(log)| == |Failures(log[..p])| + 1 && Held(log) == Held(log[..p])
  {
    var before := log[..|log| - 1];
    if p < |before| {
      assert before[..p] == log[..p];
      FailureStays(before, p);
    } else {
      assert before == log[..p];
    }
  }

  /** A failed report is repeated with the same result, for the same job, and no sooner than the delay
      after the failure: 1, 2, 4, 8, 16 seconds, then 30 each time. */
  lemma RetriesBackOff(log: seq<Event>, p: nat, q: nat)
    requires Legal(log) && p < q < |log| && Quiet(log, p, q)
    requires log[p].Finalize? && !log[p].acknowledged && log[q].Finalize?
    ensures log[q].job == log[p].job && log[q].result == log[p].result
    ensures log[q].at >= log[p].failedAt + Delay(|Failures(log[..p])|)
  {
    FailureStays(log[..q], p);
    assert log[..q][..p] == log[..p];
    assert Permitted(log[..q], log[q]) && Permitted(log[..p], log[p]);
  }

  lemma {:induction false} DelayDoubles(k: nat)
    ensures Delay(k) == if k < 5 then Pow2(k) else 30
  {
    if k > 0 {
      DelayDoubles(k - 1);
      assert Pow2(4) == 2 * Pow2(3) == 4 * Pow2(2) == 8 * Pow2(1) == 16;
    }
  }
}
