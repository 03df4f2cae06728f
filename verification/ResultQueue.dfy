/** The Scout's durable result queue: one file per item in a directory, ordered by persisted stamps. */
module ResultQueue {
  import opened Ordering
  import opened ResultKeys

  const MAX_INT64: int := 0x7FFF_FFFF_FFFF_FFFF
  const MIN_INT64: int := -0x8000_0000_0000_0000

  /** Two's-complement 64-bit wrap-around. */
  function Wrap64(n: int): int {
    (n + 0x8000_0000_0000_0000) % 0x1_0000_0000_0000_0000 - 0x8000_0000_0000_0000
  }

  ghost predicate Int64(n: int) { MIN_INT64 <= n <= MAX_INT64 }

  datatype Item = Item(key: string, jobID: string, attemptID: string, leaseID: string, fencingToken: int,
                       stage: string, scanner: string, raw: string, complete: bool, createdAt: int)

  /** Delivery order: the persisted stamp, ties broken by key. */
  predicate ItemLess(x: Item, y: Item) {
    x.createdAt < y.createdAt || (x.createdAt == y.createdAt && StringLess(x.key, y.key))
  }

  function ItemKey(h: string -> string, it: Item): string {
    FencedKey(h, it.attemptID, it.fencingToken, Key(h, it.jobID, it.stage, it.scanner, it.raw, it.complete))
  }

  function Keyed(h: string -> string, it: Item): Item {
    if it.key == "" then it.(key := ItemKey(h, it)) else it
  }

  predicate HasKey(items: seq<Item>, key: string) {
    exists x :: x in items && x.key == key
  }

  function Bytes(items: seq<Item>): nat {
    if items == [] then 0 else |items[0].raw| + Bytes(items[1..])
  }

  /** The stamp `Enqueue` persists: one past the latest when the clock has not advanced. */
  function Stamp(it: Item, now: int, last: int): int {
    if it.createdAt != 0 then it.createdAt
    else if now <= last then Wrap64(last + 1)
    else now
  }

  // ----- What the queue does to its abstract state -----

  datatype QueueState = QueueState(items: seq<Item>, last: int)

  datatype Outcome = Stored | AlreadyQueued | Full | DiskError

  function Enqueued(h: string -> string, cap: int, q: QueueState, it: Item, now: int): (QueueState, Outcome) {
    var keyed := Keyed(h, it);
    if HasKey(q.items, keyed.key) then (q, AlreadyQueued)
    else
      var stamped := keyed.(createdAt := Stamp(keyed, now, q.last));
      var last := if stamped.createdAt > q.last then stamped.createdAt else q.last;
      if cap > 0 && Bytes(q.items) + |it.raw| > cap then (QueueState(q.items, last), Full)
      else (QueueState(Insert(ItemLess, stamped, q.items), last), Stored)
  }

  function LatestStamp(items: seq<Item>): (m: int)
    ensures m >= 0
    ensures forall x :: x in items ==> x.createdAt <= m
    ensures m == 0 || exists x :: x in items && x.createdAt == m
  {
    if items == [] then 0
    else
      var m := LatestStamp(items[1..]);
      if items[0].createdAt > m then items[0].createdAt else m
  }

  /** Opening the directory again: only the stored items survive. */
  function Reopened(q: QueueState): QueueState {
    QueueState(q.items, LatestStamp(q.items))
  }

  ghost predicate Consistent(q: QueueState) {
    && StrictlySorted(ItemLess, q.items)
    && (forall i, j :: 0 <= i < j < |q.items| ==> q.items[i].key != q.items[j].key)
    && (forall x :: x in q.items ==> MIN_INT64 <= x.createdAt <= q.last)
    && 0 <= q.last <= MAX_INT64
  }

  lemma ItemLessIsStrictOrder()
    ensures StrictOrder(ItemLess)
  {
    StringLessIsStrictOrder({});
  }

  lemma ItemLessTotal(x: Item, y: Item)
    requires x.key != y.key
    ensures ItemLess(x, y) || ItemLess(y, x)
  {
    StringLessTotal(x.key, y.key);
  }

  // ----- The stamps keep the queue consistent, within its cap, and in insertion order -----

  lemma {:induction false} BytesInsert(x: Item, s: seq<Item>)
    ensures Bytes(Insert(ItemLess, x, s)) == |x.raw| + Bytes(s)
  {
    if s != [] {
      BytesInsert(x, s[1..]);
      assert ([s[0]] + Insert(ItemLess, x, s[1..]))[1..] == Insert(ItemLess, x, s[1..]);
      assert ([x] + s)[1..] == s;
    }
  }

  lemma InsertConsistent(q: QueueState, x: Item, last: int)
    requires Consistent(q) && !HasKey(q.items, x.key)
    requires q.last <= last <= MAX_INT64 && MIN_INT64 <= x.createdAt <= last
    ensures Consistent(QueueState(Insert(ItemLess, x, q.items), last))
  {
    ItemLessIsStrictOrder();
    forall y | y in q.items ensures ItemLess(x, y) || ItemLess(y, x) { ItemLessTotal(x, y); }
    InsertSorted(ItemLess, x, q.items);
    var r := Insert(ItemLess, x, q.items);
    forall y | y in r ensures y == x || y in q.items { assert y in multiset(r); }
    forall i, j | 0 <= i < j < |r| ensures r[i].key != r[j].key {
      assert ItemLess(r[i], r[j]);
      assert r[i] in r && r[j] in r;
      if r[i] != x && r[j] != x {
        var a :| 0 <= a < |q.items| && q.items[a] == r[i];
        var b :| 0 <= b < |q.items| && q.items[b] == r[j];
        assert a != b;
      } else if r[i] == x {
        assert r[j] != x;
      }
    }
  }

  /** Every outcome leaves the queue consistent, stores exactly the offered item or nothing,
      and respects the byte cap if it was respected before. */
  lemma EnqueueKeepsConsistent(h: string -> string, cap: int, q: QueueState, it: Item, now: int)
    requires Consistent(q) && Int64(now) && Int64(it.createdAt)
    ensures var (r, outcome) := Enqueued(h, cap, q, it, now);
      && Consistent(r)
      && (outcome.Stored? ==>
            multiset(r.items) == multiset(q.items)
              + multiset{Keyed(h, it).(createdAt := Stamp(it, now, q.last))})
      && (!outcome.Stored? ==> r.items == q.items)
      && (cap > 0 && Bytes(q.items) <= cap ==> Bytes(r.items) <= cap)
      && (outcome.AlreadyQueued? <==> HasKey(q.items, Keyed(h, it).key))
  {
    var (r, outcome) := Enqueued(h, cap, q, it, now);
    var x := Keyed(h, it).(createdAt := Stamp(it, now, q.last));
    StampRange(it, now, q.last);
    if outcome.Stored? {
      InsertConsistent(q, x, r.last);
      BytesInsert(x, q.items);
    }
  }

  lemma StampRange(it: Item, now: int, last: int)
    requires 0 <= last <= MAX_INT64 && Int64(now) && Int64(it.createdAt)
    ensures Int64(Stamp(it, now, last))
    ensures it.createdAt == 0 && last < MAX_INT64 ==> last < Stamp(it, now, last)
    ensures it.createdAt == 0 && last == MAX_INT64 ==> Stamp(it, now, last) == MIN_INT64
  {
  }

  lemma InsertsLastIff(x: Item, q: QueueState)
    requires Consistent(q)
    ensures Insert(ItemLess, x, q.items) == q.items + [x] <==> forall y :: y in q.items ==> !ItemLess(x, y)
  {
    if forall y :: y in q.items ==> !ItemLess(x, y) {
      InsertLast(ItemLess, x, q.items);
    } else {
      ItemLessIsStrictOrder();
      InsertsEarlier(x, q.items);
    }
  }

  lemma {:induction false} InsertsEarlier(x: Item, s: seq<Item>)
    requires !ItemLess(x, x)
    requires exists y :: y in s && ItemLess(x, y)
    ensures Insert(ItemLess, x, s) != s + [x]
  {
    if !ItemLess(x, s[0]) {
      InsertsEarlier(x, s[1..]);
      assert (s + [x])[1..] == s[1..] + [x];
    } else {
      assert Insert(ItemLess, x, s)[0] == x && (s + [x])[0] == s[0];
    }
  }

  /** An item the agent offers unstamped goes to the back of the queue whatever the clock says,
      exactly until the stamps of a 64-bit clock are used up. */
  lemma AppendsUnlessStampsExhausted(h: string -> string, q: QueueState, it: Item, now: int)
    requires Consistent(q) && Int64(now) && it.createdAt == 0
    requires !HasKey(q.items, Keyed(h, it).key)
    ensures var x := Keyed(h, it).(createdAt := Stamp(it, now, q.last));
      Enqueued(h, 0, q, it, now).0.items == q.items + [x]
      <==> q.last < MAX_INT64
           || forall y :: y in q.items ==> y.createdAt == MIN_INT64 && StringLess(y.key, x.key)
  {
    var x := Keyed(h, it).(createdAt := Stamp(it, now, q.last));
    StampRange(it, now, q.last);
    InsertsLastIff(x, q);
    forall y | y in q.items
      ensures ItemLess(x, y) <==> !(q.last < MAX_INT64 || (y.createdAt == MIN_INT64 && StringLess(y.key, x.key)))
    {
      StringLessTotal(x.key, y.key);
      assert y.key != x.key;
    }
  }

  /** The failing family is inhabited: with the last stamp used, a newer item overtakes an older one. */
  lemma StampOverflowReorders(h: string -> string, older: Item, newer: Item)
    requires older.createdAt == MAX_INT64
    requires newer.createdAt == 0 && newer.key != "" && newer.key != older.key
    ensures var q := QueueState([older], MAX_INT64);
      && Consistent(q)
      && Enqueued(h, 0, q, newer, MAX_INT64).0.items == [newer.(createdAt := MIN_INT64), older]
  {
  }

  // ----- Refinement: whatever the clock does, the directory is a first-in first-out queue -----

  /** The abstract queue knows neither stamps nor clocks: it appends what is new and fits. */
  function FifoEnqueued(h: string -> string, cap: int, f: seq<Item>, it: Item): (seq<Item>, Outcome) {
    var keyed := Keyed(h, it);
    if HasKey(f, keyed.key) then (f, AlreadyQueued)
    else if cap > 0 && Bytes(f) + |it.raw| > cap then (f, Full)
    else (f + [keyed], Stored)
  }

  datatype Op =
    | Enqueue(it: Item, now: int)
    | EnqueueLost(it: Item, now: int)   // a disk error or a crash before the final rename
    | Drain(accepted: nat)              // the uploads accepted before the first failure
    | Restart                           // a crash or a stop, then Open on the same directory

  function DropFirst(items: seq<Item>, n: nat): seq<Item> {
    if n <= |items| then items[n..] else []
  }

  /** An attempt that does not reach the rename can only move the latest stamp forward. */
  function EnqueueFailed(h: string -> string, q: QueueState, it: Item, now: int): QueueState {
    var keyed := Keyed(h, it);
    var stamp := Stamp(keyed, now, q.last);
    if HasKey(q.items, keyed.key) || stamp <= q.last then q else QueueState(q.items, stamp)
  }

  function QueueStep(h: string -> string, cap: int, q: QueueState, op: Op): QueueState {
    match op
    case Enqueue(it, now) => Enqueued(h, cap, q, it, now).0
    case EnqueueLost(it, now) => EnqueueFailed(h, q, it, now)
    case Drain(n) => QueueState(DropFirst(q.items, n), q.last)
    case Restart => Reopened(q)
  }

  function FifoStep(h: string -> string, cap: int, f: seq<Item>, op: Op): seq<Item> {
    match op
    case Enqueue(it, now) => FifoEnqueued(h, cap, f, it).0
    case EnqueueLost(it, now) => f
    case Drain(n) => DropFirst(f, n)
    case Restart => f
  }

  function RunQueue(h: string -> string, cap: int, q: QueueState, ops: seq<Op>): QueueState
    decreases |ops|
  {
    if ops == [] then q else RunQueue(h, cap, QueueStep(h, cap, q, ops[0]), ops[1..])
  }

  function RunFifo(h: string -> string, cap: int, f: seq<Item>, ops: seq<Op>): seq<Item>
    decreases |ops|
  {
    if ops == [] then f else RunFifo(h, cap, FifoStep(h, cap, f, ops[0]), ops[1..])
  }

  function Unstamped(items: seq<Item>): (r: seq<Item>)
    ensures |r| == |items|
    ensures forall i :: 0 <= i < |r| ==> r[i] == items[i].(createdAt := 0)
  {
    seq(|items|, i requires 0 <= i < |items| => items[i].(createdAt := 0))
  }

  lemma UnstampedKeepsKeys(items: seq<Item>, key: string)
    ensures HasKey(Unstamped(items), key) <==> HasKey(items, key)
  {
    var u := Unstamped(items);
    if HasKey(items, key) {
      var i :| 0 <= i < |items| && items[i].key == key;
      assert u[i] in u && u[i].key == key;
    }
    if HasKey(u, key) {
      var i :| 0 <= i < |u| && u[i].key == key;
      assert items[i] in items;
    }
  }

  lemma {:induction false} UnstampedKeepsBytes(items: seq<Item>)
    ensures Bytes(Unstamped(items)) == Bytes(items)
  {
    if items != [] {
      UnstampedKeepsBytes(items[1..]);
      assert Unstamped(items)[1..] == Unstamped(items[1..]);
    }
  }

  /** One enqueue of an unstamped item, stamps left: same content, same outcome as the abstract queue. */
  lemma EnqueueRefinesFifo(h: string -> string, cap: int, q: QueueState, it: Item, now: int)
    requires Consistent(q) && Int64(now) && it.createdAt == 0 && q.last < MAX_INT64
    ensures var (r, outcome) := Enqueued(h, cap, q, it, now);
      (Unstamped(r.items), outcome) == FifoEnqueued(h, cap, Unstamped(q.items), it)
  {
    var keyed := Keyed(h, it);
    UnstampedKeepsKeys(q.items, keyed.key);
    UnstampedKeepsBytes(q.items);
    var (r, outcome) := Enqueued(h, cap, q, it, now);
    if outcome.Stored? {
      AppendsUnlessStampsExhausted(h, q, it, now);
      var x := keyed.(createdAt := Stamp(keyed, now, q.last));
      assert r.items == q.items + [x];
      assert Unstamped(q.items + [x]) == Unstamped(q.items) + [keyed];
    }
  }

  ghost predicate ClockedBy(op: Op, limit: int) {
    match op
    case Enqueue(it, now) => it.createdAt == 0 && MIN_INT64 <= now <= limit
    case EnqueueLost(it, now) => it.createdAt == 0 && MIN_INT64 <= now <= limit
    case _ => true
  }

  lemma StepRefinesFifo(h: string -> string, cap: int, q: QueueState, op: Op, limit: int)
    requires Consistent(q) && q.last <= limit < MAX_INT64 && ClockedBy(op, limit)
    ensures var r := QueueStep(h, cap, q, op);
      && Consistent(r) && r.last <= limit + 1
      && Unstamped(r.items) == FifoStep(h, cap, Unstamped(q.items), op)
  {
    match op
    case Enqueue(it, now) =>
      EnqueueKeepsConsistent(h, cap, q, it, now);
      EnqueueRefinesFifo(h, cap, q, it, now);
    case EnqueueLost(it, now) =>
    case Drain(n) =>
      assert Unstamped(DropFirst(q.items, n)) == DropFirst(Unstamped(q.items), n);
    case Restart =>
  }

  /** Main result: over any sequence of enqueues, failed enqueues, drains and restarts, under any clock
      readings that leave one stamp per operation, the pending items are the abstract queue's, in order. */
  lemma {:induction false} RunRefinesFifo(h: string -> string, cap: int, q: QueueState, ops: seq<Op>)
    requires Consistent(q) && q.last <= MAX_INT64 - |ops|
    requires forall op :: op in ops ==> ClockedBy(op, MAX_INT64 - |ops|)
    ensures Consistent(RunQueue(h, cap, q, ops))
    ensures Unstamped(RunQueue(h, cap, q, ops).items) == RunFifo(h, cap, Unstamped(q.items), ops)
    decreases |ops|
  {
    if ops != [] {
      assert ops[0] in ops;
      StepRefinesFifo(h, cap, q, ops[0], MAX_INT64 - |ops|);
      forall op | op in ops[1..] ensures ClockedBy(op, MAX_INT64 - |ops[1..]|) {
        assert op in ops;
      }
      RunRefinesFifo(h, cap, QueueStep(h, cap, q, ops[0]), ops[1..]);
    }
  }

  lemma {:induction false} BytesDrop(items: seq<Item>, n: nat)
    ensures Bytes(DropFirst(items, n)) <= Bytes(items)
  {
    if 0 < n <= |items| {
      BytesDrop(items[1..], n - 1);
      assert items[1..][n - 1..] == items[n..];
    }
  }

  /** Backpressure: a queue opened within its cap never exceeds it. */
  lemma {:induction false} RunStaysWithinCap(h: string -> string, cap: int, q: QueueState, ops: seq<Op>)
    requires cap > 0 && Bytes(q.items) <= cap
    ensures Bytes(RunQueue(h, cap, q, ops).items) <= cap
    decreases |ops|
  {
    hide QueueStep;
    if ops != [] {
      StepStaysWithinCap(h, cap, q, ops[0]);
      RunStaysWithinCap(h, cap, QueueStep(h, cap, q, ops[0]), ops[1..]);
    }
  }

  lemma StepStaysWithinCap(h: string -> string, cap: int, q: QueueState, op: Op)
    requires cap > 0 && Bytes(q.items) <= cap
    ensures Bytes(QueueStep(h, cap, q, op).items) <= cap
  {
    if op.Drain? { BytesDrop(q.items, op.accepted); }
    if op.Enqueue? {
      BytesInsert(Keyed(h, op.it).(createdAt := Stamp(Keyed(h, op.it), op.now, q.last)), q.items);
    }
  }
}
