/** Every step of the delivery pipeline keeps its invariant; what that means for the server. */
module DeliveryProof {
  import opened ResultKeys
  import opened ResultQueue
  import opened Workflow
  import opened Delivery

  lemma ItemInjective(h: string -> string, a: Attempt, o: StageOutput, a': Attempt, o': StageOutput)
    requires IdealHash(h) && CleanAttempt(a) && CleanAttempt(a') && CleanOut(o) && CleanOut(o')
    requires ItemOf(h, a, o).key == ItemOf(h, a', o').key
    ensures a.attemptID == a'.attemptID && o == o'
  {
    var k := Key(h, a.jobID, o.stage, o.scanner, o.raw, o.complete);
    var k' := Key(h, a'.jobID, o'.stage, o'.scanner, o'.raw, o'.complete);
    assert NUL !in k && NUL !in k';
    FencedKeyInjective(h, a.attemptID, a.fencingToken, k, a'.attemptID, a'.fencingToken, k');
    KeyInjective(h, a.jobID, o.stage, o.scanner, o.raw, o.complete,
                 a'.jobID, o'.stage, o'.scanner, o'.raw, o'.complete);
  }

  ghost predicate SourcedItem(h: string -> string, known: map<string, Execution>, it: Item) {
    it.attemptID in known && OutputOf(h, known[it.attemptID], it)
  }

  /** Two items of known executions with the same key are the same item. */
  lemma SameKeySameItem(h: string -> string, known: map<string, Execution>, x: Item, y: Item)
    requires IdealHash(h) && KnownOk(known)
    requires SourcedItem(h, known, x) && SourcedItem(h, known, y) && x.key == y.key
    ensures x == y
  {
    var ex, ey := known[x.attemptID], known[y.attemptID];
    var i :| 0 <= i < |ex.trace| && x == ItemOf(h, ex.a, ex.trace[i].out);
    var j :| 0 <= j < |ey.trace| && y == ItemOf(h, ey.a, ey.trace[j].out);
    ItemInjective(h, ex.a, ex.trace[i].out, ey.a, ey.trace[j].out);
  }

  ghost predicate QueueInv(h: string -> string, s: State) {
    KnownOk(s.known) && Sourced(h, s) && NothingVanishes(s) && InOrder(s) && AnsweredInOrder(s)
  }

  /** The queue says yes either because the item is pending or by taking it at the back. */
  lemma TakenAtBack(h: string -> string, cap: int, s: State, it: Item)
    requires IdealHash(h) && KnownOk(s.known) && Sourced(h, s) && NothingVanishes(s)
    requires SourcedItem(h, s.known, it) && QueueTakes(h, cap, s, it)
    ensures WithEnqueued(h, cap, s, it).queue == if it in s.queue then s.queue else s.queue + [it]
  {
    assert Keyed(h, it) == it;
    if HasKey(s.queue, it.key) {
      var y :| y in s.queue && y.key == it.key;
      assert y in s.enqueued;
      SameKeySameItem(h, s.known, y, it);
    }
  }

  lemma EnqueueKeeps(h: string -> string, cap: int, s: State, it: Item)
    requires IdealHash(h) && QueueInv(h, s)
    requires SourcedItem(h, s.known, it) && QueueTakes(h, cap, s, it)
    ensures QueueInv(h, WithEnqueued(h, cap, s, it))
    ensures it in WithEnqueued(h, cap, s, it).enqueued
  {
    TakenAtBack(h, cap, s, it);
    hide KnownOk, FifoEnqueued, Sourced, SourcedItem, NothingVanishes, InOrder, AnsweredInOrder;
    if it in s.queue {
      assert it in s.enqueued by { PendingIsEnqueued(s, it); }
      assert WithEnqueued(h, cap, s, it) == s;
    } else {
      AppendKeepsSources(h, s, it);
      AppendKeepsOrder(s, it);
    }
  }

  lemma PendingIsEnqueued(s: State, it: Item)
    requires NothingVanishes(s) && it in s.queue
    ensures it in s.enqueued
  {
    hide Settled;
  }

  lemma AppendKeepsSources(h: string -> string, s: State, it: Item)
    requires Sourced(h, s) && NothingVanishes(s) && SourcedItem(h, s.known, it)
    ensures var s' := s.(queue := s.queue + [it], enqueued := Remember(s.enqueued, it));
      Sourced(h, s') && NothingVanishes(s')
  {
    hide OutputOf, Settled;
  }

  lemma AppendKeepsOrder(s: State, it: Item)
    requires NothingVanishes(s) && InOrder(s) && AnsweredInOrder(s)
    ensures var s' := s.(queue := s.queue + [it], enqueued := Remember(s.enqueued, it));
      InOrder(s') && AnsweredInOrder(s')
  {
    var s' := s.(queue := s.queue + [it], enqueued := Remember(s.enqueued, it));
    var e, e', n := s.enqueued, s'.enqueued, |s.queue|;
    forall p, p', q | 0 <= p < p' < |e'| && 0 <= q < |s'.queue| && s'.queue[q] == e'[p']
      ensures Settled(s'.server.answers, e'[p]) || e'[p] in s'.queue[..q]
    {
      assert e'[p] == e[p];
      if q < n {
        assert s.queue[q] in e;
        assert p' < |e|;
        assert s'.queue[..q] == s.queue[..q];
      } else {
        assert s'.queue[..q] == s.queue;
      }
    }
    forall p, p', m | 0 <= p < p' < |e'| && 0 <= m < |s.server.answers| && s.server.answers[m].item == e'[p']
      ensures Settled(s.server.answers[..m], e'[p])
    {
      assert s.server.answers[m].item in e;
      assert p' < |e|;
    }
  }

  ghost function Uploaded(h: string -> string, s: State, acknowledged: bool): State
    requires s.queue != []
  {
    s.(server := Receive(h, s.server, s.queue[0], acknowledged),
       queue := if acknowledged then s.queue[1..] else s.queue)
  }

  lemma UploadKeeps(h: string -> string, s: State, acknowledged: bool)
    requires QueueInv(h, s) && RowsOk(h, s.server) && RefusalsOk(s.server) && s.queue != []
    ensures var s' := Uploaded(h, s, acknowledged);
      QueueInv(h, s') && RowsOk(h, s'.server) && RefusalsOk(s'.server)
  {
    hide KnownOk, OutputOf, RowOf, Settled;
    RowsKeep(h, s.server, s.queue[0], acknowledged);
    RefusalsKeep(h, s.server, s.queue[0], acknowledged);
    UploadKeepsOrder(h, s, acknowledged);
    UploadKeepsAnswered(h, s, acknowledged);
  }

  lemma UploadSettles(h: string -> string, s: State, acknowledged: bool)
    requires s.queue != []
    ensures var answers := Receive(h, s.server, s.queue[0], acknowledged).answers;
      && (acknowledged ==> Settled(answers, s.queue[0]))
      && forall x :: Settled(s.server.answers, x) ==> Settled(answers, x)
  {
  }

  lemma UploadKeepsOrder(h: string -> string, s: State, acknowledged: bool)
    requires NothingVanishes(s) && InOrder(s) && s.queue != []
    ensures InOrder(Uploaded(h, s, acknowledged)) && NothingVanishes(Uploaded(h, s, acknowledged))
  {
    var s', e := Uploaded(h, s, acknowledged), s.enqueued;
    UploadSettles(h, s, acknowledged);
    hide Receive, Settled;
    forall p, p', q | 0 <= p < p' < |e| && 0 <= q < |s'.queue| && s'.queue[q] == e[p']
      ensures Settled(s'.server.answers, e[p]) || e[p] in s'.queue[..q]
    {
      var q0 := if acknowledged then q + 1 else q;
      assert s.queue[q0] == e[p'];
      assert s.queue[..q0] == if acknowledged then [s.queue[0]] + s'.queue[..q] else s'.queue[..q];
    }
    forall p | 0 <= p < |e| ensures e[p] in s'.queue || Settled(s'.server.answers, e[p]) {
      assert s.queue == [s.queue[0]] + s.queue[1..];
    }
  }

  lemma UploadKeepsAnswered(h: string -> string, s: State, acknowledged: bool)
    requires NothingVanishes(s) && InOrder(s) && AnsweredInOrder(s) && s.queue != []
    ensures AnsweredInOrder(Uploaded(h, s, acknowledged))
  {
    hide Settled, RowOf;
    var it, sv, e, was := s.queue[0], Receive(h, s.server, s.queue[0], acknowledged), s.enqueued, s.server.answers;
    assert it in e;
    assert was <= sv.answers && |sv.answers| <= |was| + 1;
    forall p, p', m | 0 <= p < p' < |e| && 0 <= m < |sv.answers| && sv.answers[m].item == e[p']
      ensures Settled(sv.answers[..m], e[p])
    {
      if m < |was| {
        assert sv.answers[..m] == was[..m];
      } else {
        assert s.queue[0] == e[p'];
        assert sv.answers[..m] == was;
        assert s.queue[..0] == [];
      }
    }
  }

  lemma RowsKeep(h: string -> string, sv: Server, it: Item, acknowledged: bool)
    requires RowsOk(h, sv)
    ensures RowsOk(h, Receive(h, sv, it, acknowledged))
  {
    hide RowOf;
    var sv' := Receive(h, sv, it, acknowledged);
    forall r | r in sv'.rows ensures exists x :: Answer(x, true) in sv'.answers && RowOf(h, x) == r {
      if r in sv.rows {
        var x :| Answer(x, true) in sv.answers && RowOf(h, x) == r;
        assert Answer(x, true) in sv'.answers;
      } else {
        assert Answer(it, true) in sv'.answers;
      }
    }
  }

  lemma RefusalsKeep(h: string -> string, sv: Server, it: Item, acknowledged: bool)
    requires RefusalsOk(sv)
    ensures RefusalsOk(Receive(h, sv, it, acknowledged))
  {
    hide RowOf;
  }

  // ----- The worker and the finalizer -----

  lemma MarkersAppend(h: string -> string, x: Execution, e: seq<Item>, it: Item)
    requires MarkersLastIn(h, x, e)
    requires forall i, j :: (0 <= i < j < |x.trace| && x.trace[j].out.complete
                             && SameScanner(x.trace[i].out, x.trace[j].out) && it == ItemOf(h, x.a, x.trace[j].out))
                            ==> ItemOf(h, x.a, x.trace[i].out) in e
    ensures MarkersLastIn(h, x, Remember(e, it))
  {
    hide ItemOf;
    var e' := Remember(e, it);
    forall i, j, p |
      0 <= i < j < |x.trace| && 0 <= p < |e'| && x.trace[j].out.complete
      && SameScanner(x.trace[i].out, x.trace[j].out) && e'[p] == ItemOf(h, x.a, x.trace[j].out)
      ensures ItemOf(h, x.a, x.trace[i].out) in e'[..p]
    {
      if p < |e| {
        assert e'[..p] == e[..p];
      } else {
        assert e'[..p] == e;
      }
    }
  }

  lemma ItemsDiffer(h: string -> string, a: Attempt, o: StageOutput, o': StageOutput)
    requires IdealHash(h) && CleanAttempt(a) && CleanOut(o) && CleanOut(o')
    ensures o != o' <==> ItemOf(h, a, o) != ItemOf(h, a, o')
  {
    if ItemOf(h, a, o).key == ItemOf(h, a, o').key { ItemInjective(h, a, o, a, o'); }
  }

  /** A marker that may still be emitted has not been enqueued. */
  lemma NewMarkerNotEnqueued(h: string -> string, x: Execution, act: Act, it: Item)
    requires IdealHash(h) && CleanAttempt(x.a) && CleanOut(act.out)
    requires forall i :: 0 <= i < |x.trace| ==> CleanOut(x.trace[i].out)
    requires Legal(x.trace + [act]) && act.out.complete && OutputOf(h, x, it)
    ensures it != ItemOf(h, x.a, act.out)
  {
    var t := x.trace + [act];
    var k :| 0 <= k < |x.trace| && it == ItemOf(h, x.a, x.trace[k].out);
    assert t[k] == x.trace[k] && t[|x.trace|] == act;
    ItemsDiffer(h, x.a, x.trace[k].out, act.out);
  }

  lemma MarkersExtend(h: string -> string, x: Execution, act: Act, e: seq<Item>)
    requires IdealHash(h) && CleanAttempt(x.a) && CleanOut(act.out)
    requires forall i :: 0 <= i < |x.trace| ==> CleanOut(x.trace[i].out)
    requires MarkersLastIn(h, x, e) && Legal(x.trace + [act])
    requires forall p :: 0 <= p < |e| && e[p].attemptID == x.a.attemptID ==> OutputOf(h, x, e[p])
    ensures MarkersLastIn(h, Execution(x.a, x.trace + [act]), e)
  {
    var t := x.trace + [act];
    forall p | 0 <= p < |e| && e[p].attemptID == x.a.attemptID && act.out.complete
      ensures e[p] != ItemOf(h, x.a, act.out)
    {
      NewMarkerNotEnqueued(h, x, act, e[p]);
    }
    forall i, j, p |
      0 <= i < j < |t| && 0 <= p < |e| && t[j].out.complete
      && SameScanner(t[i].out, t[j].out) && e[p] == ItemOf(h, x.a, t[j].out)
      ensures ItemOf(h, x.a, t[i].out) in e[..p]
    {
      assert t[i] == x.trace[i];
      assert j < |x.trace| && t[j] == x.trace[j];
    }
  }

  /** Where an entry of the result's outputs comes from, and what comes before it. */
  lemma {:induction false} CarriedAt(t: seq<Act>, pos: nat) returns (j: nat)
    requires pos < |Carried(t)|
    ensures j < |t| && !t[j].Sent? && t[j].out == Carried(t)[pos]
    ensures forall i :: 0 <= i < j && !t[i].Sent? ==> t[i].out in Carried(t)[..pos]
  {
    var before := t[..|t| - 1];
    var rest := Carried(before);
    if pos < |rest| {
      j := CarriedAt(before, pos);
      assert Carried(t)[..pos] == rest[..pos];
    } else {
      j := |t| - 1;
      assert Carried(t)[..pos] == rest;
      forall i | 0 <= i < j && !t[i].Sent? ensures t[i].out in rest {
        CarriedHas(before, i);
      }
    }
  }

  lemma {:induction false} CarriedHas(t: seq<Act>, i: nat)
    requires i < |t| && !t[i].Sent?
    ensures t[i].out in Carried(t)
  {
    if i < |t| - 1 { CarriedHas(t[..|t| - 1], i); }
  }

  /** The state after the worker's act is recorded, before the queue is asked. */
  ghost function Recorded(s: State, act: Act): State
    requires s.phase.Working? && s.phase.a.attemptID in s.known
  {
    var x := s.known[s.phase.a.attemptID];
    s.(known := s.known[s.phase.a.attemptID := Execution(x.a, x.trace + [act])])
  }

  lemma RecordKeeps(h: string -> string, s: State, act: Act)
    requires IdealHash(h) && Inv(h, s) && s.phase.Working?
    requires CleanOut(act.out) && Legal(s.known[s.phase.a.attemptID].trace + [act])
    ensures QueueInv(h, Recorded(s, act)) && MarkersLast(h, Recorded(s, act))
    ensures SourcedItem(h, Recorded(s, act).known, ItemOf(h, s.phase.a, act.out))
  {
    hide KnownOk, Sourced, NothingVanishes, InOrder, AnsweredInOrder, MarkersLast, Handed, RowsOk, RefusalsOk,
      ReportsOk, Legal, SourcedItem;
    RecordKnown(s, act);
    RecordSourced(h, s, act);
    RecordMarkers(h, s, act);
    SameQueue(s, Recorded(s, act));
  }

  lemma SameQueue(s: State, s': State)
    requires NothingVanishes(s) && InOrder(s) && AnsweredInOrder(s)
    requires s'.queue == s.queue && s'.enqueued == s.enqueued && s'.server == s.server
    ensures NothingVanishes(s') && InOrder(s') && AnsweredInOrder(s')
  {
    hide Settled;
  }

  lemma RecordMarkers(h: string -> string, s: State, act: Act)
    requires IdealHash(h) && KnownOk(s.known) && Sourced(h, s) && MarkersLast(h, s)
    requires s.phase.Working? && s.phase.a.attemptID in s.known
    requires CleanOut(act.out) && Legal(s.known[s.phase.a.attemptID].trace + [act])
    ensures MarkersLast(h, Recorded(s, act))
  {
    var x := s.known[s.phase.a.attemptID];
    assert MarkersLastIn(h, x, s.enqueued);
    forall p | 0 <= p < |s.enqueued| && s.enqueued[p].attemptID == x.a.attemptID ensures OutputOf(h, x, s.enqueued[p]) {
    }
    MarkersExtend(h, x, act, s.enqueued);
    hide MarkersLastIn, OutputOf, Legal, ItemOf;
  }

  lemma RecordKnown(s: State, act: Act)
    requires KnownOk(s.known) && s.phase.Working? && s.phase.a.attemptID in s.known
    requires CleanOut(act.out) && Legal(s.known[s.phase.a.attemptID].trace + [act])
    ensures KnownOk(Recorded(s, act).known)
  {
    hide Legal;
  }

  lemma RecordSourced(h: string -> string, s: State, act: Act)
    requires Sourced(h, s) && s.phase.Working? && s.phase.a.attemptID in s.known
    requires s.known[s.phase.a.attemptID].a == s.phase.a
    ensures Sourced(h, Recorded(s, act))
    ensures SourcedItem(h, Recorded(s, act).known, ItemOf(h, s.phase.a, act.out))
  {
    var x, s' := s.known[s.phase.a.attemptID], Recorded(s, act);
    var x' := s'.known[s.phase.a.attemptID];
    assert x'.trace[|x.trace|] == act;
    assert OutputOf(h, x', ItemOf(h, s.phase.a, act.out));
    hide OutputOf;
    forall p | 0 <= p < |s.enqueued| ensures SourcedItem(h, s'.known, s.enqueued[p]) {
      GrownOutput(h, x, x', s.enqueued[p]);
    }
  }

  lemma GrownOutput(h: string -> string, x: Execution, x': Execution, it: Item)
    requires x'.a == x.a && x.trace <= x'.trace
    ensures OutputOf(h, x, it) ==> OutputOf(h, x', it)
  {
    if OutputOf(h, x, it) {
      var j :| 0 <= j < |x.trace| && it == ItemOf(h, x.a, x.trace[j].out);
      assert it == ItemOf(h, x'.a, x'.trace[j].out);
    }
  }

  /** Every batch of the scanner in front of the marker `it` has been enqueued. */
  ghost predicate BatchesBefore(h: string -> string, x: Execution, it: Item, e: seq<Item>) {
    forall i, j :: (0 <= i < j < |x.trace| && x.trace[j].out.complete
                    && SameScanner(x.trace[i].out, x.trace[j].out) && it == ItemOf(h, x.a, x.trace[j].out))
                   ==> ItemOf(h, x.a, x.trace[i].out) in e
  }

  lemma MarkersAppendAll(h: string -> string, s: State, e: seq<Item>, it: Item)
    requires MarkersLast(h, s) && KnownOk(s.known) && e == s.enqueued
    requires it.attemptID in s.known && BatchesBefore(h, s.known[it.attemptID], it, e)
    ensures forall id :: id in s.known ==> MarkersLastIn(h, s.known[id], Remember(e, it))
  {
    forall id | id in s.known ensures MarkersLastIn(h, s.known[id], Remember(e, it)) {
      assert BatchesBefore(h, s.known[id], it, e);
      MarkersAppend(h, s.known[id], e, it);
    }
  }

  /** The sink got the marker because it had every batch. */
  lemma SinkHasBatches(h: string -> string, x: Execution, act: Act, e: seq<Item>)
    requires IdealHash(h) && CleanAttempt(x.a) && CleanOut(act.out)
    requires forall i :: 0 <= i < |x.trace| ==> CleanOut(x.trace[i].out)
    requires Legal(x.trace + [act]) && act.Sent? && SentEnqueued(h, x, e)
    ensures BatchesBefore(h, Execution(x.a, x.trace + [act]), ItemOf(h, x.a, act.out), e)
  {
    var t := x.trace + [act];
    forall i, j |
      0 <= i < j < |t| && t[j].out.complete && SameScanner(t[i].out, t[j].out)
        && ItemOf(h, x.a, act.out) == ItemOf(h, x.a, t[j].out)
      ensures ItemOf(h, x.a, t[i].out) in e
    {
      ItemsDiffer(h, x.a, act.out, t[j].out);
      assert t[|x.trace|] == act;
      assert j == |x.trace|;
      assert t[i] == x.trace[i];
    }
  }

  /** The finalizer reaches the marker after every batch the sink refused. */
  lemma FinalizerHasBatches(h: string -> string, x: Execution, pos: nat, e: seq<Item>)
    requires IdealHash(h) && CleanAttempt(x.a) && Legal(x.trace)
    requires forall i :: 0 <= i < |x.trace| ==> CleanOut(x.trace[i].out)
    requires pos < |Carried(x.trace)| && SentEnqueued(h, x, e)
    requires forall k :: 0 <= k < pos ==> ItemOf(h, x.a, Carried(x.trace)[k]) in e
    ensures BatchesBefore(h, x, ItemOf(h, x.a, Carried(x.trace)[pos]), e)
  {
    var t, outs := x.trace, Carried(x.trace);
    var j0 := CarriedAt(t, pos);
    forall i, j |
      0 <= i < j < |t| && t[j].out.complete && SameScanner(t[i].out, t[j].out)
        && ItemOf(h, x.a, outs[pos]) == ItemOf(h, x.a, t[j].out)
      ensures ItemOf(h, x.a, t[i].out) in e
    {
      ItemsDiffer(h, x.a, t[j0].out, t[j].out);
      assert j == j0;
      if !t[i].Sent? {
        var k :| 0 <= k < pos && outs[k] == t[i].out;
      }
    }
  }

  lemma EmitKeeps(h: string -> string, cap: int, s: State, act: Act)
    requires IdealHash(h) && Inv(h, s) && Enabled(h, cap, s, Emit(act))
    ensures Inv(h, Next(h, cap, s, Emit(act)))
  {
    var id, x, r := s.phase.a.attemptID, s.known[s.phase.a.attemptID], Recorded(s, act);
    var it := ItemOf(h, s.phase.a, act.out);
    RecordKeeps(h, s, act);
    if act.Sent? {
      SinkHasBatches(h, x, act, s.enqueued);
      MarkersAppendAll(h, r, s.enqueued, it);
      EnqueueKeeps(h, cap, r, it);
    }
    HandedAfterEmit(h, cap, s, act);
    PhaseAfterEmit(h, cap, s, act);
    hide Legal, Carried, InOrder, AnsweredInOrder, NothingVanishes, RowsOk, RefusalsOk, MarkersLastIn, KnownOk,
      Sourced, FifoEnqueued, SentEnqueued, PhaseOk, Handed, ReportsOk, ItemOf;
    assert Next(h, cap, s, Emit(act)) == if act.Sent? then WithEnqueued(h, cap, r, it) else r;
  }

  lemma PhaseAfterEmit(h: string -> string, cap: int, s: State, act: Act)
    requires PhaseOk(s) && ReportsOk(s) && Enabled(h, cap, s, Emit(act))
    ensures PhaseOk(Next(h, cap, s, Emit(act))) && ReportsOk(Next(h, cap, s, Emit(act)))
  {
    hide Legal, Carried, FifoEnqueued, ItemOf;
  }

  lemma HandedAfterEmit(h: string -> string, cap: int, s: State, act: Act)
    requires Inv(h, s) && Enabled(h, cap, s, Emit(act))
    ensures Handed(h, Next(h, cap, s, Emit(act)))
  {
    hide Legal, Carried, InOrder, AnsweredInOrder, NothingVanishes, RowsOk, RefusalsOk, MarkersLast, ReportsOk,
      Sourced, FifoEnqueued, ItemOf;
    var s' := Next(h, cap, s, Emit(act));
    assert s.enqueued <= s'.enqueued;
    assert act.Sent? ==> ItemOf(h, s.phase.a, act.out) in s'.enqueued;
  }

  /** A step that only moves the job in memory. */
  lemma PhaseOnly(h: string -> string, s: State, s': State)
    requires QueueInv(h, s) && MarkersLast(h, s) && RowsOk(h, s.server) && RefusalsOk(s.server)
    requires s'.queue == s.queue && s'.enqueued == s.enqueued && s'.server == s.server && s'.known == s.known
    ensures QueueInv(h, s') && MarkersLast(h, s') && RowsOk(h, s'.server) && RefusalsOk(s'.server)
  {
    SameQueue(s, s');
    hide InOrder, AnsweredInOrder, NothingVanishes, OutputOf, MarkersLastIn, KnownOk;
  }

  lemma DeliverKeeps(h: string -> string, cap: int, s: State)
    requires IdealHash(h) && Inv(h, s) && Enabled(h, cap, s, Deliver(true))
    ensures Inv(h, Next(h, cap, s, Deliver(true)))
  {
    var it := ItemOf(h, s.phase.a, s.phase.outputs[s.phase.pos]);
    DeliveredItem(h, s);
    MarkersAppendAll(h, s, s.enqueued, it);
    EnqueueKeeps(h, cap, s, it);
    PhaseOnly(h, WithEnqueued(h, cap, s, it), Next(h, cap, s, Deliver(true)));
    HandedAfterDeliver(h, cap, s);
    hide QueueInv, MarkersLastIn, RowsOk, RefusalsOk, Handed, Legal, FifoEnqueued, KnownOk, Sourced, NothingVanishes,
      InOrder, AnsweredInOrder;
    assert ReportsOk(Next(h, cap, s, Deliver(true))) && PhaseOk(Next(h, cap, s, Deliver(true)));
  }

  lemma DeliveredItem(h: string -> string, s: State)
    requires IdealHash(h) && KnownOk(s.known) && PhaseOk(s) && Handed(h, s)
    requires s.phase.Finishing? && s.phase.pos < |s.phase.outputs|
    ensures var it := ItemOf(h, s.phase.a, s.phase.outputs[s.phase.pos]);
      SourcedItem(h, s.known, it) && BatchesBefore(h, s.known[it.attemptID], it, s.enqueued)
  {
    var x, pos := s.known[s.phase.a.attemptID], s.phase.pos;
    FinalizerHasBatches(h, x, pos, s.enqueued);
    var j := CarriedAt(x.trace, pos);
    assert OutputOf(h, x, ItemOf(h, s.phase.a, s.phase.outputs[pos]));
  }

  lemma HandedAfterDeliver(h: string -> string, cap: int, s: State)
    requires Inv(h, s) && Enabled(h, cap, s, Deliver(true))
    ensures Handed(h, Next(h, cap, s, Deliver(true)))
  {
    hide Legal, Carried, InOrder, AnsweredInOrder, NothingVanishes, RowsOk, RefusalsOk, MarkersLast, ReportsOk,
      Sourced, KnownOk, FifoEnqueued, ItemOf;
    var s' := Next(h, cap, s, Deliver(true));
    assert s.enqueued <= s'.enqueued;
    assert ItemOf(h, s.phase.a, s.phase.outputs[s.phase.pos]) in s'.enqueued;
  }

  /** A step that leaves alone what the worker and the finalizer have done. */
  lemma JobUntouched(h: string -> string, s: State, s': State)
    requires PhaseOk(s) && Handed(h, s) && MarkersLast(h, s) && ReportsOk(s)
    requires s'.phase == s.phase && s'.known == s.known && s'.enqueued == s.enqueued && s'.posted == s.posted
    ensures PhaseOk(s') && Handed(h, s') && MarkersLast(h, s') && ReportsOk(s')
  {
    hide MarkersLastIn, SentEnqueued, ItemOf, Carried;
  }

  lemma UploadStepKeeps(h: string -> string, cap: int, s: State, acknowledged: bool)
    requires Inv(h, s) && s.queue != []
    ensures Inv(h, Next(h, cap, s, Upload(acknowledged)))
  {
    hide KnownOk, Sourced, NothingVanishes, InOrder, AnsweredInOrder, Receive, RowsOk, RefusalsOk, PhaseOk, Handed,
      MarkersLast, ReportsOk;
    UploadKeeps(h, s, acknowledged);
    JobUntouched(h, s, Uploaded(h, s, acknowledged));
  }

  /** The server fences an attempt, its lease lapses, or the reaper marks it. */
  lemma ServerStepKeeps(h: string -> string, cap: int, s: State, e: Event)
    requires Inv(h, s) && (e.Fence? || e.Lapse? || e.Reap?)
    ensures Inv(h, Next(h, cap, s, e))
  {
    hide KnownOk, PhaseOk, Handed, MarkersLast, ReportsOk;
    JobUntouched(h, s, Next(h, cap, s, e));
    SameAnswers(h, s, Next(h, cap, s, e));
  }

  lemma SameAnswers(h: string -> string, s: State, s': State)
    requires Sourced(h, s) && NothingVanishes(s) && InOrder(s) && AnsweredInOrder(s) && RowsOk(h, s.server)
      && RefusalsOk(s.server)
    requires s'.queue == s.queue && s'.enqueued == s.enqueued && s'.known == s.known
    requires s'.server.answers == s.server.answers && s'.server.rows == s.server.rows
    requires s.server.fenced <= s'.server.fenced && s.server.lapsed <= s'.server.lapsed
      && s.server.reaped <= s'.server.reaped
    ensures Sourced(h, s') && NothingVanishes(s') && InOrder(s') && AnsweredInOrder(s') && RowsOk(h, s'.server)
      && RefusalsOk(s'.server)
  {
    hide Settled, OutputOf, RowOf;
  }

  lemma StartKeeps(h: string -> string, cap: int, s: State, a: Attempt)
    requires Inv(h, s) && Enabled(h, cap, s, Start(a))
    ensures Inv(h, Next(h, cap, s, Start(a)))
  {
    hide NothingVanishes, InOrder, AnsweredInOrder, RowsOk, RefusalsOk, MarkersLastIn, SentEnqueued, OutputOf, Legal,
      ItemOf;
    var s' := Next(h, cap, s, Start(a));
    SameQueue(s, s');
    FreshExecution(h, a, s.enqueued);
    assert KnownOk(s'.known) && Sourced(h, s');
    assert MarkersLast(h, s') && Handed(h, s');
  }

  lemma FreshExecution(h: string -> string, a: Attempt, e: seq<Item>)
    ensures Legal([]) && MarkersLastIn(h, Execution(a, []), e) && SentEnqueued(h, Execution(a, []), e)
  {
  }

  lemma JobStepKeeps(h: string -> string, cap: int, s: State, e: Event)
    requires Inv(h, s) && Enabled(h, cap, s, e)
    requires e.WorkerDone? || e.Delivered? || e.Post? || e.Crash? || e == Deliver(false)
    ensures Inv(h, Next(h, cap, s, e))
  {
    hide InOrder, AnsweredInOrder, NothingVanishes, Sourced, RowsOk, RefusalsOk, MarkersLast, KnownOk, PhaseOk,
      Handed, ReportsOk;
    var s' := Next(h, cap, s, e);
    PhaseOnly(h, s, s');
    PhaseStep(h, cap, s, e);
    assert s'.known == s.known;
  }

  lemma PhaseStep(h: string -> string, cap: int, s: State, e: Event)
    requires PhaseOk(s) && Handed(h, s) && ReportsOk(s) && Enabled(h, cap, s, e)
    requires e.WorkerDone? || e.Delivered? || e.Post? || e.Crash? || e == Deliver(false)
    ensures var s' := Next(h, cap, s, e); PhaseOk(s') && Handed(h, s') && ReportsOk(s')
  {
    hide SentEnqueued, ItemOf, Carried;
    if e.Post? {
      hide Handed;
      assert Handed(h, Next(h, cap, s, e)) by { HandedPosted(h, cap, s, e); }
    }
  }

  lemma HandedPosted(h: string -> string, cap: int, s: State, e: Event)
    requires Handed(h, s) && Enabled(h, cap, s, e) && e.Post?
    ensures Handed(h, Next(h, cap, s, e))
  {
    hide SentEnqueued, ItemOf;
  }

  lemma StepKeeps(h: string -> string, cap: int, s: State, e: Event)
    requires IdealHash(h) && Inv(h, s) && Enabled(h, cap, s, e)
    ensures Inv(h, Next(h, cap, s, e))
  {
    hide Inv;
    match e
    case Start(a) => StartKeeps(h, cap, s, a);
    case Emit(act) => EmitKeeps(h, cap, s, act);
    case Deliver(ok) => if ok { DeliverKeeps(h, cap, s); } else { JobStepKeeps(h, cap, s, e); }
    case Upload(acknowledged) => UploadStepKeeps(h, cap, s, acknowledged);
    case Fence(_) => ServerStepKeeps(h, cap, s, e);
    case Lapse(_) => ServerStepKeeps(h, cap, s, e);
    case Reap(_) => ServerStepKeeps(h, cap, s, e);
    case _ => JobStepKeeps(h, cap, s, e);
  }

  lemma {:induction false} RunKeeps(h: string -> string, cap: int, s: State, events: seq<Event>, s': State)
    requires IdealHash(h) && Inv(h, s) && Reaches(h, cap, s, events, s')
    ensures Inv(h, s')
    decreases |events|
  {
    hide Inv, Next, Enabled;
    if events != [] {
      StepKeeps(h, cap, s, events[0]);
      RunKeeps(h, cap, Next(h, cap, s, events[0]), events[1..], s');
    }
  }

  lemma InitialInv(h: string -> string)
    ensures Inv(h, INITIAL)
  {
  }

  lemma {:induction false} ReachesJoin(h: string -> string, cap: int, s: State, e: seq<Event>, t: State,
                                       f: seq<Event>, u: State)
    requires Reaches(h, cap, s, e, t) && Reaches(h, cap, t, f, u)
    ensures Reaches(h, cap, s, e + f, u)
    decreases |e|
  {
    hide Next, Enabled;
    if e == [] {
      assert e + f == f;
    } else {
      ReachesJoin(h, cap, Next(h, cap, s, e[0]), e[1..], t, f, u);
      assert (e + f)[1..] == e[1..] + f;
    }
  }

  // ----- What holds on every run -----

  lemma ReachableInv(h: string -> string, cap: int, events: seq<Event>, s: State)
    requires IdealHash(h) && Reaches(h, cap, INITIAL, events, s)
    ensures Inv(h, s)
  {
    InitialInv(h);
    RunKeeps(h, cap, INITIAL, events, s);
  }

  /** `batch` is a batch of the stage and scanner of `it` in what its attempt's worker did. */
  ghost predicate BatchOf(h: string -> string, known: map<string, Execution>, it: Item, batch: Item) {
    && it.attemptID in known
    && var x := known[it.attemptID];
    && exists i :: 0 <= i < |x.trace| && SameStageBatch(x.trace[i].out, it) && batch == ItemOf(h, x.a, x.trace[i].out)
  }

  predicate SameStageBatch(out: StageOutput, it: Item) {
    !out.complete && out.stage == it.stage && out.scanner == it.scanner
  }

  /** If the server takes a scanner's completion marker, every batch of that scanner was answered first,
      through any refusals, partial drains, lost acknowledgements, crashes, fences, lapses and reaping. It
      was taken first exactly if it was not lost, and nothing is lost before the marker of an attempt that
      was never reaped. */
  lemma MarkerAcceptedLast(h: string -> string, cap: int, events: seq<Event>, s: State, m: nat, batch: Item)
    requires IdealHash(h) && Reaches(h, cap, INITIAL, events, s)
    requires m < |s.server.answers| && s.server.answers[m].taken && s.server.answers[m].item.complete
    requires BatchOf(h, s.known, s.server.answers[m].item, batch)
    ensures var before := s.server.answers[..m];
      Answer(batch, true) in before <==> !Lost(before, batch)
    ensures s.server.answers[m].item.attemptID !in s.server.reaped ==> Answer(batch, true) in s.server.answers[..m]
  {
    ReachableInv(h, cap, events, s);
    hide Handed, RowsOk, RefusalsOk, ReportsOk, InOrder, NothingVanishes, PhaseOk, Reaches, KnownOk, MarkersLast,
      AnsweredInOrder, Sourced, BatchOf, IdealHash;
    BatchAnswered(h, s, m, batch);
    if Answer(batch, false) in s.server.answers[..m] { LossNeedsReaping(s.server, m, batch); }
  }

  /** What was dropped before another item of the attempt was taken was dropped before the reaper came. */
  lemma LossNeedsReaping(sv: Server, m: nat, batch: Item)
    requires RefusalsOk(sv) && m < |sv.answers| && sv.answers[m].taken
    requires batch.attemptID == sv.answers[m].item.attemptID && Answer(batch, false) in sv.answers[..m]
    ensures batch.attemptID in sv.reaped
  {
    var k :| 0 <= k < m && sv.answers[..m][k] == Answer(batch, false);
    assert sv.answers[k] == Answer(batch, false);
  }

  // ----- A marker without its batch -----

  /** The run so far: a worker has handed over a batch and its marker. */
  function Handover(a: Attempt, batch: StageOutput, marker: StageOutput, b: Item, it: Item): State {
    State([b, it], Working(a), INITIAL.server, map[a.attemptID := Execution(a, [Sent(batch), Sent(marker)])],
          [b, it], [])
  }

  /** A new item that fits goes to the back. */
  lemma Hands(h: string -> string, cap: int, s: State, a: Attempt, t: seq<Act>, out: StageOutput)
    requires s.phase == Working(a) && a.attemptID in s.known && s.known[a.attemptID] == Execution(a, t)
    requires CleanOut(out) && Legal(t + [Sent(out)])
    requires !HasKey(s.queue, ItemOf(h, a, out).key) && ItemOf(h, a, out) !in s.enqueued
    requires cap <= 0 || Bytes(s.queue) + |out.raw| <= cap
    ensures Enabled(h, cap, s, Emit(Sent(out)))
    ensures var it := ItemOf(h, a, out);
      Next(h, cap, s, Emit(Sent(out))) == s.(known := s.known[a.attemptID := Execution(a, t + [Sent(out)])],
                                             queue := s.queue + [it], enqueued := s.enqueued + [it])
  {
    TwiceKeyed(h, a, out);
    hide ItemOf, Keyed, Legal, CleanOut, Bytes, HasKey;
  }

  /** The same worker before it handed over the marker, and before it did anything. */
  function HandedBatch(a: Attempt, batch: StageOutput, b: Item): State {
    State([b], Working(a), INITIAL.server, map[a.attemptID := Execution(a, [Sent(batch)])], [b], [])
  }

  function Started(a: Attempt): State {
    State([], Working(a), INITIAL.server, map[a.attemptID := Execution(a, [])], [], [])
  }

  lemma HandsMarker(h: string -> string, cap: int, a: Attempt, batch: StageOutput, marker: StageOutput)
    requires IdealHash(h) && CleanAttempt(a) && CleanOut(batch) && SameScanner(batch, marker)
    requires batch.raw != "" && !batch.complete && marker.raw == "" && marker.complete
    requires cap <= 0 || |batch.raw| <= cap
    ensures var s, e := HandedBatch(a, batch, ItemOf(h, a, batch)), Emit(Sent(marker));
      Enabled(h, cap, s, e) && Next(h, cap, s, e) ==
        Handover(a, batch, marker, ItemOf(h, a, batch), ItemOf(h, a, marker))
  {
    var b, it := ItemOf(h, a, batch), ItemOf(h, a, marker);
    var s := HandedBatch(a, batch, b);
    if b.key == it.key { ItemInjective(h, a, batch, a, marker); }
    LegalPair(batch, marker);
    hide ItemOf, Legal, IdealHash;
    assert Bytes([b]) == |batch.raw| by { TwiceKeyed(h, a, batch); assert [b][1..] == []; }
    Hands(h, cap, s, a, [Sent(batch)], marker);
    assert [Sent(batch)] + [Sent(marker)] == [Sent(batch), Sent(marker)];
    assert Next(h, cap, s, Emit(Sent(marker))).known == Handover(a, batch, marker, b, it).known;
  }

  lemma HandoverReached(h: string -> string, cap: int, a: Attempt, batch: StageOutput, marker: StageOutput)
    requires IdealHash(h) && CleanAttempt(a) && CleanOut(batch) && SameScanner(batch, marker)
    requires batch.raw != "" && !batch.complete && marker.raw == "" && marker.complete
    requires cap <= 0 || |batch.raw| <= cap
    ensures Reaches(h, cap, INITIAL, [Start(a), Emit(Sent(batch)), Emit(Sent(marker))],
                    Handover(a, batch, marker, ItemOf(h, a, batch), ItemOf(h, a, marker)))
  {
    var b := ItemOf(h, a, batch);
    var s0, s1, s2 := Started(a), HandedBatch(a, batch, b), Handover(a, batch, marker, b, ItemOf(h, a, marker));
    LegalPair(batch, marker);
    HandsMarker(h, cap, a, batch, marker);
    hide ItemOf, Legal, IdealHash, HasKey, Handover;
    StartEnabled(h, cap, a);
    Hands(h, cap, s0, a, [], batch);
    assert [] + [Sent(batch)] == [Sent(batch)];
    assert Next(h, cap, s0, Emit(Sent(batch))) == s1;
    hide Next, Enabled, CleanOut;
    OneMore(h, cap, s1, Emit(Sent(marker)), [], s2);
    OneMore(h, cap, s0, Emit(Sent(batch)), [Emit(Sent(marker))], s2);
    OneMore(h, cap, INITIAL, Start(a), [Emit(Sent(batch)), Emit(Sent(marker))], s2);
  }

  lemma StartEnabled(h: string -> string, cap: int, a: Attempt)
    requires CleanAttempt(a)
    ensures Enabled(h, cap, INITIAL, Start(a)) && Next(h, cap, INITIAL, Start(a)) == Started(a)
  {
  }

  lemma LegalPair(batch: StageOutput, marker: StageOutput)
    requires batch.raw != "" && !batch.complete && marker.raw == "" && marker.complete
    ensures Legal([] + [Sent(batch)]) && Legal([Sent(batch)] + [Sent(marker)])
  {
  }

  lemma TwiceKeyed(h: string -> string, a: Attempt, out: StageOutput)
    ensures Keyed(h, ItemOf(h, a, out)) == ItemOf(h, a, out) && ItemOf(h, a, out).raw == out.raw
    ensures ItemOf(h, a, out).attemptID == a.attemptID
  {
  }

  lemma OneMore(h: string -> string, cap: int, s: State, e: Event, rest: seq<Event>, s': State)
    requires Enabled(h, cap, s, e) && Reaches(h, cap, Next(h, cap, s, e), rest, s')
    ensures Reaches(h, cap, s, [e] + rest, s')
  {
    hide Enabled, Next;
    assert ([e] + rest)[1..] == rest;
  }

  /** Every attempt can lose a batch so: its lease lapses while it is active, the batch is refused and
      dropped, the reaper marks the attempt, and the marker is taken. */
  lemma ReapedMarkerWithoutBatch(h: string -> string, cap: int, a: Attempt, batch: StageOutput, marker: StageOutput)
    returns (events: seq<Event>, s: State)
    requires IdealHash(h) && CleanAttempt(a) && CleanOut(batch) && SameScanner(batch, marker)
    requires batch.raw != "" && !batch.complete && marker.raw == "" && marker.complete
    requires cap <= 0 || |batch.raw| <= cap
    ensures Reaches(h, cap, INITIAL, events, s) && s.queue == []
    ensures s.server.answers == [Answer(ItemOf(h, a, batch), false), Answer(ItemOf(h, a, marker), true)]
    ensures BatchOf(h, s.known, ItemOf(h, a, marker), ItemOf(h, a, batch))
    ensures Lost(s.server.answers[..1], ItemOf(h, a, batch))
  {
    var id, b, it := a.attemptID, ItemOf(h, a, batch), ItemOf(h, a, marker);
    TwiceKeyed(h, a, batch);
    TwiceKeyed(h, a, marker);
    hide ItemOf, RowOf, IdealHash, CleanAttempt, CleanOut;
    var s0 := Handover(a, batch, marker, b, it);
    var s1 := Next(h, cap, s0, Lapse(id));
    var s2 := Next(h, cap, s1, Upload(true));
    var s3 := Next(h, cap, s2, Reap(id));
    s := Next(h, cap, s3, Upload(true));
    events := [Upload(true)];
    assert Enabled(h, cap, s1, Upload(true)) && Enabled(h, cap, s3, Upload(true));
    assert s.queue == [] && s.server.answers == [Answer(b, false), Answer(it, true)] && s.known == s0.known;
    assert s.server.answers[..1] == [Answer(b, false)];
    hide Next, Receive, Handover;
    assert Reaches(h, cap, s3, events, s) by { assert events[1..] == []; }
    OneMore(h, cap, s2, Reap(id), events, s);
    OneMore(h, cap, s1, Upload(true), [Reap(id)] + events, s);
    OneMore(h, cap, s0, Lapse(id), [Upload(true)] + ([Reap(id)] + events), s);
    events := [Lapse(id)] + ([Upload(true)] + ([Reap(id)] + events));
    HandoverReached(h, cap, a, batch, marker);
    ReachesJoin(h, cap, INITIAL, [Start(a), Emit(Sent(batch)), Emit(Sent(marker))], s0, events, s);
    events := [Start(a), Emit(Sent(batch)), Emit(Sent(marker))] + events;
    WorkerHadBatch(h, a, batch, marker, s);
  }

  lemma WorkerHadBatch(h: string -> string, a: Attempt, batch: StageOutput, marker: StageOutput, s: State)
    requires s.known == map[a.attemptID := Execution(a, [Sent(batch), Sent(marker)])]
    requires SameScanner(batch, marker) && !batch.complete
    ensures BatchOf(h, s.known, ItemOf(h, a, marker), ItemOf(h, a, batch))
  {
    assert s.known[a.attemptID].trace[0].out == batch;
  }

  lemma AnsweredIsEnqueued(h: string -> string, s: State, m: nat)
    requires Sourced(h, s) && AnsweredInOrder(s) && m < |s.server.answers|
    ensures s.server.answers[m].item in s.enqueued && SourcedItem(h, s.known, s.server.answers[m].item)
  {
    assert s.server.answers[m].item in s.enqueued;
    var p :| 0 <= p < |s.enqueued| && s.enqueued[p] == s.server.answers[m].item;
  }

  lemma BatchBeforeMarker(t: seq<Act>, i: nat, j: nat)
    requires Legal(t) && i < |t| && j < |t| && SameScanner(t[i].out, t[j].out)
    requires !t[i].out.complete && t[j].out.complete
    ensures i < j
  {
  }

  lemma MarkerBehindBatch(h: string -> string, x: Execution, e: seq<Item>, it: Item, i: nat) returns (p: nat, p': nat)
    requires Legal(x.trace) && MarkersLastIn(h, x, e) && OutputOf(h, x, it) && it in e && it.complete
    requires i < |x.trace| && SameStageBatch(x.trace[i].out, it)
    ensures p < p' < |e| && e[p'] == it && e[p] == ItemOf(h, x.a, x.trace[i].out)
  {
    p' :| 0 <= p' < |e| && e[p'] == it;
    var j :| 0 <= j < |x.trace| && it == ItemOf(h, x.a, x.trace[j].out);
    BatchBeforeMarker(x.trace, i, j);
    hide Legal, ItemOf;
    assert ItemOf(h, x.a, x.trace[i].out) in e[..p'];
    p :| 0 <= p < p' && e[p] == ItemOf(h, x.a, x.trace[i].out);
  }

  /** The server's order is the queue's order: the batch is among the items answered before the marker. */
  lemma BatchAnswered(h: string -> string, s: State, m: nat, batch: Item)
    requires KnownOk(s.known) && Sourced(h, s) && AnsweredInOrder(s) && MarkersLast(h, s)
    requires m < |s.server.answers| && s.server.answers[m].item.complete
    requires BatchOf(h, s.known, s.server.answers[m].item, batch)
    ensures Settled(s.server.answers[..m], batch) && batch.attemptID == s.server.answers[m].item.attemptID
  {
    AnsweredIsEnqueued(h, s, m);
    var it, x := s.server.answers[m].item, s.known[s.server.answers[m].item.attemptID];
    hide MarkersLastIn, Legal, OutputOf, Sourced, Settled;
    var i :| 0 <= i < |x.trace| && SameStageBatch(x.trace[i].out, it) && batch == ItemOf(h, x.a, x.trace[i].out);
    var p, p' := MarkerBehindBatch(h, x, s.enqueued, it, i);
  }

  /** An item the queue said yes to is pending, taken, or was dropped because its attempt was fenced or
      had lapsed; a taken item has its row, and no two rows are alike however often the upload was
      repeated. */
  lemma AcceptedItemsAreSafe(h: string -> string, cap: int, events: seq<Event>, s: State, it: Item)
    requires IdealHash(h) && Reaches(h, cap, INITIAL, events, s) && it in s.enqueued
    ensures it in s.queue || Answer(it, true) in s.server.answers || Lost(s.server.answers, it)
    ensures Answer(it, true) in s.server.answers ==> RowOf(h, it) in s.server.rows
    ensures Lost(s.server.answers, it) ==> it.attemptID in s.server.fenced + s.server.lapsed
    ensures multiset(s.server.rows)[RowOf(h, it)] <= 1
  {
    ReachableInv(h, cap, events, s);
    hide InOrder, AnsweredInOrder, Handed, ReportsOk, PhaseOk, KnownOk, MarkersLast, Sourced, Reaches;
    var p :| 0 <= p < |s.enqueued| && s.enqueued[p] == it;
    DistinctOnce(s.server.rows, RowOf(h, it));
  }

  lemma {:induction false} DistinctOnce(rows: seq<Row>, r: Row)
    requires forall i, j :: 0 <= i < j < |rows| ==> rows[i] != rows[j]
    ensures multiset(rows)[r] <= 1
  {
    if rows != [] {
      DistinctOnce(rows[1..], r);
      assert rows == [rows[0]] + rows[1..];
      if rows[0] == r { assert r !in rows[1..]; }
    }
  }

  /** What an upload without a stage or a scanner counts as. */
  function Or(name: string, default: string): string { if name == "" then default else name }

  /** Two uploads go to one row exactly if they are of one job and agree in payload, completion flag, stage
      and scanner. */
  ghost predicate SameContent(x: Item, y: Item) {
    && x.jobID == y.jobID && x.raw == y.raw && x.complete == y.complete
    && Or(x.stage, "discovery") == Or(y.stage, "discovery") && Or(x.scanner, "nmap") == Or(y.scanner, "nmap")
  }

  lemma RowsTellApart(h: string -> string, x: Item, y: Item)
    requires IdealHash(h)
    requires NUL !in x.jobID + x.stage + x.scanner && NUL !in y.jobID + y.stage + y.scanner
    ensures RowOf(h, x) == RowOf(h, y) <==> SameContent(x, y)
  {
    var st, sc := Or(x.stage, "discovery"), Or(x.scanner, "nmap");
    var st', sc' := Or(y.stage, "discovery"), Or(y.scanner, "nmap");
    assert NUL !in x.jobID + st + sc && NUL !in y.jobID + st' + sc';
    KeyInjective(h, x.jobID, st, sc, x.raw, x.complete, y.jobID, st', sc', y.raw, y.complete);
  }

  /** On every run, uploads the server took have their rows, and one row for both only if they agree in
      every part of their content: nothing is dropped as a duplicate of something else. */
  lemma TakenContentIsStored(h: string -> string, cap: int, events: seq<Event>, s: State, x: Item, y: Item)
    requires IdealHash(h) && Reaches(h, cap, INITIAL, events, s)
    requires Answer(x, true) in s.server.answers && Answer(y, true) in s.server.answers
    ensures RowOf(h, x) in s.server.rows && RowOf(h, y) in s.server.rows
    ensures RowOf(h, x) == RowOf(h, y) <==>
      x.jobID == y.jobID && x.stage == y.stage && x.scanner == y.scanner && x.raw == y.raw && x.complete == y.complete
  {
    hide Handed, ReportsOk, InOrder, NothingVanishes, PhaseOk, Reaches, MarkersLast, RefusalsOk, RowOf, IdealHash;
    ReachableInv(h, cap, events, s);
    CleanNames(h, s, x);
    CleanNames(h, s, y);
    RowsTellApart(h, x, y);
  }

  lemma CleanNames(h: string -> string, s: State, it: Item)
    requires KnownOk(s.known) && Sourced(h, s) && AnsweredInOrder(s) && Answer(it, true) in s.server.answers
    ensures NUL !in it.jobID + it.stage + it.scanner && it.stage != "" && it.scanner != ""
  {
    hide Legal;
    var m :| 0 <= m < |s.server.answers| && s.server.answers[m] == Answer(it, true);
    AnsweredIsEnqueued(h, s, m);
    var x := s.known[it.attemptID];
    var j :| 0 <= j < |x.trace| && it == ItemOf(h, x.a, x.trace[j].out);
    assert CleanOut(x.trace[j].out);
  }

  /** A row is there only because its content was accepted from a known execution. */
  lemma RowsComeFromWork(h: string -> string, cap: int, events: seq<Event>, s: State, r: Row)
    requires IdealHash(h) && Reaches(h, cap, INITIAL, events, s) && r in s.server.rows
    ensures exists it :: it in s.enqueued && SourcedItem(h, s.known, it) && RowOf(h, it) == r
  {
    hide RowsOk, RefusalsOk, Handed, ReportsOk, InOrder, NothingVanishes, PhaseOk, Reaches, KnownOk, MarkersLast,
      OutputOf, Sourced, AnsweredInOrder, RowOf, SourcedItem;
    ReachableInv(h, cap, events, s);
    var it := RowHasItem(h, s.server, r);
    var m :| 0 <= m < |s.server.answers| && s.server.answers[m] == Answer(it, true);
    AnsweredIsEnqueued(h, s, m);
  }

  lemma RowHasItem(h: string -> string, sv: Server, r: Row) returns (it: Item)
    requires RowsOk(h, sv) && r in sv.rows
    ensures Answer(it, true) in sv.answers && RowOf(h, it) == r
  {
    hide RowOf;
    it :| Answer(it, true) in sv.answers && RowOf(h, it) == r;
  }

  /** However often the terminal report of an attempt is sent, it is the same report. */
  lemma OneTerminalReport(h: string -> string, cap: int, events: seq<Event>, s: State, i: nat, j: nat)
    requires IdealHash(h) && Reaches(h, cap, INITIAL, events, s)
    requires i < |s.posted| && j < |s.posted| && s.posted[i].0 == s.posted[j].0
    ensures s.posted[i] == s.posted[j]
  {
    hide RowsOk, RefusalsOk, Handed, InOrder, NothingVanishes, PhaseOk, Reaches, KnownOk, MarkersLast, Sourced,
      AnsweredInOrder;
    ReachableInv(h, cap, events, s);
  }
}
