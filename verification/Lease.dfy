/** Lease renewal: when a partitioned Scout stops its worker, measured against the server's lease.
    Time is in nanoseconds on one clock; calls and requests take as long as the caller says. */
module Lease {
  import opened Wrappers

  const RENEW_EVERY := 30_000_000_000
  const FAILURE_LIMIT := 150_000_000_000
  const SERVER_LEASE := 180_000_000_000
  const REQUEST_TIMEOUT := 30_000_000_000

  datatype Reply = Renewed | Stale | Failed

  /** One call of `RenewLease` at `start`; if it sends a request, the request takes `took`, and
      `servedAt` says when the server extended the lease, if it did. A failed request may have been served. */
  datatype Call = Call(start: int, took: nat, reply: Reply, servedAt: Option<int>)

  /** `last` is the agent's stamp; `served` is the server's latest extension; `stopped` the time of `Cancel`. */
  datatype State = State(last: int, served: int, stopped: Option<int>)

  predicate Sends(s: State, c: Call) { c.start - s.last >= RENEW_EVERY }

  function EndOf(s: State, c: Call): int {
    if Sends(s, c) then c.start + c.took else c.start
  }

  function Renew(s: State, c: Call): State {
    if !Sends(s, c) then s
    else
      var served := if c.servedAt.Some? && c.servedAt.value > s.served then c.servedAt.value else s.served;
      match c.reply
      case Renewed => State(c.start + c.took, served, s.stopped)
      case _ =>
        if (c.reply.Stale? || c.start - s.last >= FAILURE_LIMIT) && s.stopped.None?
        then State(s.last, served, Some(c.start + c.took))
        else State(s.last, served, s.stopped)
  }

  // ----- How a job starts -----

  /** A status report under way: how long it takes, whether the agent gets an acknowledgement, and when
      the server extended the lease for it, if it did. */
  datatype Exchange = Exchange(took: nat, acknowledged: bool, servedAt: Option<int>)

  /** The two reports of `PollAndStart`, one after the other: `accepted`, which must be acknowledged, and
      `running`, whose outcome is ignored. */
  datatype Launch = Launch(start: int, accepted: Exchange, running: Exchange)

  function RunningAt(b: Launch): int { b.start + b.accepted.took }

  function StampOf(b: Launch): int { RunningAt(b) + b.running.took }

  /** Reports take at most `e`, the server acts while one is under way, and acknowledging means it did. */
  ghost predicate PlausibleLaunch(b: Launch, e: nat) {
    && b.accepted.took <= e && b.running.took <= e
    && (b.accepted.acknowledged ==> b.accepted.servedAt.Some?)
    && (b.running.acknowledged ==> b.running.servedAt.Some?)
    && (b.accepted.servedAt.Some? ==> b.start <= b.accepted.servedAt.value <= RunningAt(b))
    && (b.running.servedAt.Some? ==> RunningAt(b) <= b.running.servedAt.value <= StampOf(b))
  }

  /** The state of a job that has just started: stamped after both reports. */
  function Launched(b: Launch): State {
    var accepted := if b.accepted.servedAt.Some? then b.accepted.servedAt.value else b.start;
    State(StampOf(b), if b.running.servedAt.Some? then b.running.servedAt.value else accepted, None)
  }

  /** The agent's part of it. */
  class RunningJob {
    var lastLeaseRenewal: int
    var cancelledAt: Option<int>
    ghost var served: int

    constructor (b: Launch)
      ensures Now() == Launched(b)
    {
      lastLeaseRenewal, cancelledAt, served := b.start + b.accepted.took + b.running.took, None, Launched(b).served;
    }

    /** The end of `PollAndStart`: there is a job exactly if `accepted` was acknowledged. */
    static method Begin(b: Launch) returns (job: Option<RunningJob>)
      ensures job.Some? <==> b.accepted.acknowledged
      ensures job.Some? ==> fresh(job.value) && job.value.Now() == Launched(b)
    {
      if !b.accepted.acknowledged { return None; }
      var running := new RunningJob(b);
      return Some(running);
    }

    ghost function Now(): State
      reads this
    {
      State(lastLeaseRenewal, served, cancelledAt)
    }

    method Cancel(now: int)
      modifies `cancelledAt
      ensures cancelledAt == if old(cancelledAt).None? then Some(now) else old(cancelledAt)
    {
      if cancelledAt.None? { cancelledAt := Some(now); }
    }

    method RenewLease(c: Call) returns (failed: bool)
      modifies this
      ensures Now() == Renew(old(Now()), c)
      ensures failed <==> Sends(old(Now()), c) && !c.reply.Renewed?
      ensures c.start - old(lastLeaseRenewal) < 30_000_000_000 ==> Now() == old(Now())
      ensures c.start - old(lastLeaseRenewal) >= 30_000_000_000 && c.reply.Renewed? ==>
        lastLeaseRenewal == c.start + c.took
      ensures old(cancelledAt).None? && cancelledAt.Some? <==>
        && old(cancelledAt).None?
        && (var since := c.start - old(lastLeaseRenewal);
            since >= 30_000_000_000 && (c.reply.Stale? || (c.reply.Failed? && since >= 150_000_000_000)))
    {
      var sinceRenewal := c.start - lastLeaseRenewal;
      if sinceRenewal < RENEW_EVERY { return false; }
      served := if c.servedAt.Some? && c.servedAt.value > served then c.servedAt.value else served;
      if !c.reply.Renewed? {
        if c.reply.Stale? || sinceRenewal >= FAILURE_LIMIT { Cancel(c.start + c.took); }
        return true;
      }
      lastLeaseRenewal := c.start + c.took;
      return false;
    }
  }

  /** Requests take at most `e`, the server acts while one is under way, and a renewal means it did. */
  ghost predicate Plausible(c: Call, e: nat) {
    && c.took <= e
    && (c.servedAt.Some? ==> c.start <= c.servedAt.value <= c.start + c.took)
    && (c.reply.Renewed? ==> c.servedAt.Some?)
  }

  /** The calls after `previous`, one after the other, starting at most `d` apart. */
  ghost predicate Spaced(s: State, previous: int, calls: seq<Call>, d: nat, e: nat)
    decreases |calls|
  {
    calls == [] ||
    (&& Plausible(calls[0], e)
     && previous <= calls[0].start <= previous + d
     && (|calls| > 1 ==> EndOf(s, calls[0]) <= calls[1].start)
     && Spaced(Renew(s, calls[0]), calls[0].start, calls[1..], d, e))
  }

  function After(s: State, calls: seq<Call>): State
    decreases |calls|
  {
    if calls == [] then s else After(Renew(s, calls[0]), calls[1..])
  }

  /** While the worker runs, the agent's stamp is at most `gap` ahead of the server's, and the latest call
      started before the failure limit. */
  ghost predicate Running(s: State, previous: int, gap: nat) {
    && s.stopped.None?
    && s.last - s.served <= gap
    && previous < s.last + FAILURE_LIMIT
  }

  function Min(a: nat, b: nat): nat { if a <= b then a else b }

  lemma CallKeepsRunning(s: State, previous: int, c: Call, d: nat, e: nat, gap: nat)
    requires Running(s, previous, gap) && Plausible(c, e)
    requires previous <= c.start <= previous + d
    ensures Renew(s, c).stopped.None? && (Sends(s, c) ==> c.took <= gap) ==> Running(Renew(s, c), c.start, gap)
    ensures EndOf(s, c) < s.served + gap + FAILURE_LIMIT + d + e
    ensures Renew(s, c).stopped.Some? ==> Renew(s, c).stopped == Some(EndOf(s, c))
    ensures s.served <= Renew(s, c).served
  {
  }

  /** Main result. Whenever the worker is still running after some calls, it is stopped, or has been
      renewed, before `gap + FAILURE_LIMIT + d + e` has passed since the server's last extension. A call
      that is followed by another takes no longer than `d`, so later renewals do not widen the gap. */
  lemma {:induction false} StopsInTime(s: State, previous: int, calls: seq<Call>, next: Call, d: nat, e: nat, gap: nat)
    requires Running(s, previous, gap) && Min(d, e) <= gap
    requires Spaced(s, previous, calls + [next], d, e)
    ensures var t := After(s, calls);
      t.stopped.None? ==> EndOf(t, next) < t.served + gap + FAILURE_LIMIT + d + e
    ensures var t := After(s, calls + [next]);
      t.stopped.Some? ==> t.stopped.value < t.served + gap + FAILURE_LIMIT + d + e
    decreases |calls|
  {
    if calls == [] {
      CallKeepsRunning(s, previous, next, d, e, gap);
      assert ([] + [next])[1..] == [];
    } else {
      var c, rest := calls[0], calls[1..] + [next];
      CallKeepsRunning(s, previous, c, d, e, gap);
      assert (calls + [next])[1..] == rest && (calls + [next])[0] == c && (calls + [next])[1] == rest[0];
      if Renew(s, c).stopped.None? {
        assert c.start <= rest[0].start <= c.start + d;
        StopsInTime(Renew(s, c), c.start, calls[1..], next, d, e, gap);
      } else {
        StoppedStays(Renew(s, c), rest);
        StoppedStays(Renew(s, c), calls[1..]);
      }
    }
  }

  lemma {:induction false} StoppedStays(s: State, calls: seq<Call>)
    requires s.stopped.Some?
    ensures After(s, calls).stopped == s.stopped && s.served <= After(s, calls).served
    decreases |calls|
  {
    if calls != [] { StoppedStays(Renew(s, calls[0]), calls[1..]); }
  }

  /** The next call ends before the server's lease does; the server counts it as expired from its last
      instant on. */
  predicate InLease(t: State, next: Call) {
    t.stopped.None? ==> EndOf(t, next) < t.served + SERVER_LEASE
  }

  /** A worker whose stamp is at most `gap` ahead of the server's never outlives its lease. */
  ghost predicate SafeTiming(gap: nat, d: nat, e: nat) {
    forall s, previous, calls, next ::
      Running(s, previous, gap) && Spaced(s, previous, calls + [next], d, e) ==> InLease(After(s, calls), next)
  }

  // ----- The bound is sharp -----

  function Quick(start: int): Call { Call(start, 0, Failed, None) }

  /** Failing calls `d` apart, up to `target`. */
  function Fill(previous: int, target: int, d: nat): seq<Call>
    requires previous <= target && d > 0
    decreases target - previous
  {
    if target - previous <= d then [Quick(target)]
    else [Quick(previous + d)] + Fill(previous + d, target, d)
  }

  lemma {:induction false} FillChangesNothing(s: State, previous: int, target: int, d: nat, last: Call, e: nat)
    requires d > 0 && previous <= target < s.last + FAILURE_LIMIT && s.stopped.None?
    requires last.start == target + d && Plausible(last, e)
    ensures After(s, Fill(previous, target, d)) == s
    ensures Spaced(s, previous, Fill(previous, target, d) + [last], d, e)
    decreases target - previous
  {
    var f := Fill(previous, target, d);
    var c := f[0];
    assert Renew(s, c) == s;
    assert (f + [last])[0] == c && (f + [last])[1..] == f[1..] + [last];
    if target - previous <= d {
      assert f[1..] + [last] == [last];
      assert [last][1..] == [];
      assert Spaced(s, target, [last], d, e);
    } else {
      FillChangesNothing(s, previous + d, target, d, last, e);
      assert f[1..] == Fill(previous + d, target, d);
      assert EndOf(s, c) == c.start <= (f[1..] + [last])[0].start;
    }
  }

  /** From any stamp `gap` ahead of the server's some run comes within one nanosecond of the bound: silence,
      and a last request that takes as long as it can. */
  lemma LateStopExists(s: State, previous: int, gap: nat, d: nat, e: nat) returns (calls: seq<Call>, next: Call)
    requires 0 < d && s.stopped.None? && s.last == s.served + gap && previous <= s.last <= previous + gap
    ensures calls != [] && calls[0].start >= (if s.last <= previous + d then s.last else previous + d)
    ensures Spaced(s, previous, calls + [next], d, e)
    ensures After(s, calls) == s && After(s, calls + [next]).stopped == Some(EndOf(s, next))
    ensures EndOf(s, next) == s.served + gap + FAILURE_LIMIT + d + e - 1
  {
    var target := s.last + FAILURE_LIMIT - 1;
    next := Call(target + d, e, Failed, None);
    calls := Fill(previous, target, d);
    FillChangesNothing(s, previous, target, d, next, e);
    AfterSplit(s, calls, next);
  }

  lemma {:induction false} AfterSplit(s: State, calls: seq<Call>, next: Call)
    ensures After(s, calls + [next]) == Renew(After(s, calls), next)
    decreases |calls|
  {
    if calls == [] {
      assert [next][1..] == [];
    } else {
      AfterSplit(Renew(s, calls[0]), calls[1..], next);
      assert (calls + [next])[1..] == calls[1..] + [next];
    }
  }

  /** For a stamp at most `gap` ahead, the three-minute lease is safe exactly when gap, spacing and latency
      fit in the thirty seconds the failure limit leaves of it. Bound and lease end are both exclusive, so
      the clock's tick does not enter. */
  lemma SafeExactlyWhenItFits(gap: nat, d: nat, e: nat)
    requires d > 0 && Min(d, e) <= gap
    ensures SafeTiming(gap, d, e) <==> gap + d + e <= 30_000_000_000
  {
    if gap + d + e <= SERVER_LEASE - FAILURE_LIMIT {
      forall s, previous, calls, next | Running(s, previous, gap) && Spaced(s, previous, calls + [next], d, e)
        ensures InLease(After(s, calls), next)
      {
        StopsInTime(s, previous, calls, next, d, e, gap);
      }
    } else {
      var s := State(gap, 0, None);
      var calls, next := LateStopExists(s, gap, gap, d, e);
      assert Running(s, gap, gap) && Spaced(s, gap, calls + [next], d, e) && !InLease(After(s, calls), next);
    }
  }

  // ----- The whole life of a worker -----

  /** A job started like this never outlives its lease, called first within `d` of its stamp. */
  ghost predicate SafeLaunch(b: Launch, d: nat, e: nat) {
    forall calls, next ::
      Spaced(Launched(b), StampOf(b), calls + [next], d, e) ==> InLease(After(Launched(b), calls), next)
  }

  ghost predicate SafeLaunches(d: nat, e: nat) {
    forall b :: PlausibleLaunch(b, e) && b.accepted.acknowledged ==> SafeLaunch(b, d, e)
  }

  ghost predicate SafeLaunchesWhenServed(d: nat, e: nat) {
    forall b :: PlausibleLaunch(b, e) && b.accepted.acknowledged && b.running.servedAt.Some? ==> SafeLaunch(b, d, e)
  }

  lemma LaunchSafe(b: Launch, gap: nat, d: nat, e: nat)
    requires d > 0 && Min(d, e) <= gap && gap + d + e <= SERVER_LEASE - FAILURE_LIMIT
    requires Launched(b).last - Launched(b).served <= gap
    ensures SafeLaunch(b, d, e)
  {
    SafeExactlyWhenItFits(gap, d, e);
    assert Running(Launched(b), StampOf(b), gap);
  }

  lemma LaunchUnsafe(b: Launch, gap: nat, d: nat, e: nat)
    requires d > 0 && gap + d + e > SERVER_LEASE - FAILURE_LIMIT
    requires Launched(b).last - Launched(b).served == gap
    ensures !SafeLaunch(b, d, e)
  {
    var calls, next := LateStopExists(Launched(b), StampOf(b), gap, d, e);
    assert Spaced(Launched(b), StampOf(b), calls + [next], d, e) && !InLease(After(Launched(b), calls), next);
  }

  /** Both reports of the start may be slow and the second may be lost: the stamp is then two requests
      ahead of the server's, and no worker outlives its lease exactly when three latencies fit. */
  lemma SafeExactlyWhenThreeLatenciesFit(d: nat, e: nat)
    requires d > 0
    ensures SafeLaunches(d, e) <==> d + 3 * e <= 30_000_000_000
  {
    if d + 3 * e <= SERVER_LEASE - FAILURE_LIMIT {
      forall b | PlausibleLaunch(b, e) && b.accepted.acknowledged ensures SafeLaunch(b, d, e) {
        LaunchSafe(b, 2 * e, d, e);
      }
    } else {
      var b := Launch(0, Exchange(e, true, Some(0)), Exchange(e, false, None));
      LaunchUnsafe(b, 2 * e, d, e);
      assert PlausibleLaunch(b, e) && b.accepted.acknowledged;
    }
  }

  /** If the second report was served, two latencies are enough, and needed. */
  lemma SafeExactlyWhenTwoLatenciesFit(d: nat, e: nat)
    requires d > 0
    ensures SafeLaunchesWhenServed(d, e) <==> d + 2 * e <= 30_000_000_000
  {
    if d + 2 * e <= SERVER_LEASE - FAILURE_LIMIT {
      forall b | PlausibleLaunch(b, e) && b.accepted.acknowledged && b.running.servedAt.Some?
        ensures SafeLaunch(b, d, e)
      {
        LaunchSafe(b, e, d, e);
      }
    } else {
      var b := Launch(0, Exchange(0, true, Some(0)), Exchange(e, true, Some(0)));
      LaunchUnsafe(b, e, d, e);
      assert PlausibleLaunch(b, e) && b.accepted.acknowledged && b.running.servedAt.Some?;
    }
  }

  /** After a renewal, however the job started. */
  ghost predicate SafeAfterRenewal(d: nat, e: nat) {
    forall s: State, previous: int, c: Call, calls: seq<Call>, next: Call ::
      s.stopped.None? && Sends(s, c) && c.reply.Renewed? && Spaced(s, previous, [c] + (calls + [next]), d, e)
      ==> InLease(After(Renew(s, c), calls), next)
  }

  /** A renewal that another call follows took at most `d`: the stamp is then no further than that, and no
      further than one latency, ahead of the server's. */
  lemma SafeAfterRenewalExactly(d: nat, e: nat)
    requires d > 0
    ensures SafeAfterRenewal(d, e) <==> Min(d, e) + d + e <= 30_000_000_000
  {
    var gap := Min(d, e);
    if gap + d + e <= SERVER_LEASE - FAILURE_LIMIT {
      forall s: State, previous: int, c: Call, calls: seq<Call>, next: Call |
        s.stopped.None? && Sends(s, c) && c.reply.Renewed? && Spaced(s, previous, [c] + (calls + [next]), d, e)
        ensures InLease(After(Renew(s, c), calls), next)
      {
        var all, rest := [c] + (calls + [next]), calls + [next];
        assert all[0] == c && all[1] == rest[0] && all[1..] == rest;
        assert Spaced(Renew(s, c), c.start, rest, d, e);
        assert c.start + c.took <= rest[0].start <= c.start + d;
        StopsInTime(Renew(s, c), c.start, calls, next, d, e, gap);
      }
    } else {
      var s, c := State(-RENEW_EVERY, -RENEW_EVERY, None), Call(0, gap, Renewed, Some(0));
      var calls, next := LateStopExists(Renew(s, c), 0, gap, d, e);
      var all, rest := [c] + (calls + [next]), calls + [next];
      assert all[0] == c && all[1] == rest[0] == calls[0] && all[1..] == rest;
      assert Spaced(s, 0, all, d, e) && !InLease(After(Renew(s, c), calls), next);
    }
  }

  /** The client's own thirty-second request timeout fits none of these conditions. */
  lemma RequestTimeoutDoesNotFit(d: nat)
    requires d > 0
    ensures var e := 30_000_000_000; !SafeLaunches(d, e) && !SafeLaunchesWhenServed(d, e) && !SafeAfterRenewal(d, e)
  {
    SafeExactlyWhenThreeLatenciesFit(d, REQUEST_TIMEOUT);
    SafeExactlyWhenTwoLatenciesFit(d, REQUEST_TIMEOUT);
    SafeAfterRenewalExactly(d, REQUEST_TIMEOUT);
  }
}
