/** The audit hash chains: the legacy backfill, the sealing trigger under concurrent transactions, and
    what an equal last hash proves. Hashes and signatures are byte strings. */
module AuditChain {
  import opened Wrappers

  const HASH_LENGTH := 32

  /** The previous hash of the first row of every chain: zero bytes. */
  const GENESIS := "\0\0\0\0\0\0\0\0\0\0\0\0\0\0\0\0\0\0\0\0\0\0\0\0\0\0\0\0\0\0\0\0"

  /** No two of the hash inputs in `rows` collide, and none of them hashes to the genesis value. */
  ghost predicate CollisionFree(h: string -> string, rows: set<Row>) {
    && (forall r, q :: r in rows && q in rows && h(Link(r)) == h(Link(q)) ==> Link(r) == Link(q))
    && (forall r :: r in rows ==> h(Link(r)) != GENESIS)
  }

  datatype Event = Event(id: string, org: Option<string>)

  datatype Row = Row(id: string, scope: string, sequence: int, signature: string, previous: string, chain: string)

  function ScopeOf(e: Event): string {
    if e.org.Some? then e.org.value else "global"
  }

  /** What a row's chain hash is computed from. */
  function Link(r: Row): string { r.previous + r.signature }

  function InScope(rows: seq<Row>, scope: string): seq<Row> {
    if rows == [] then []
    else
      var rest := InScope(rows[..|rows| - 1], scope);
      if rows[|rows| - 1].scope == scope then rest + [rows[|rows| - 1]] else rest
  }

  ghost predicate LinkedAt(h: string -> string, s: seq<Row>, k: nat)
    requires k < |s|
  {
    && s[k].sequence == k + 1
    && s[k].previous == (if k == 0 then GENESIS else s[k - 1].chain)
    && s[k].chain == h(s[k].previous + s[k].signature)
  }

  /** Sequences are 1, 2, ... and every row links to its predecessor, the first to the genesis value. */
  ghost predicate Linked(h: string -> string, s: seq<Row>) {
    forall k :: 0 <= k < |s| ==> LinkedAt(h, s, k)
  }

  lemma LinkedSplits(h: string -> string, s: seq<Row>)
    requires s != []
    ensures Linked(h, s) <==> Linked(h, s[..|s| - 1]) && LinkedAt(h, s, |s| - 1)
  {
    var t := s[..|s| - 1];
    forall k | 0 <= k < |t| ensures LinkedAt(h, t, k) == LinkedAt(h, s, k) {
      assert t[k] == s[k];
    }
    if Linked(h, t) && LinkedAt(h, s, |s| - 1) {
      forall k | 0 <= k < |s| ensures LinkedAt(h, s, k) {
        assert k < |t| ==> LinkedAt(h, t, k);
      }
    }
  }

  ghost predicate Valid(h: string -> string, rows: seq<Row>) {
    forall scope :: Linked(h, InScope(rows, scope))
  }

  lemma {:induction false} InScopeAppend(a: seq<Row>, b: seq<Row>, scope: string)
    ensures InScope(a + b, scope) == InScope(a, scope) + InScope(b, scope)
  {
    if b == [] {
      assert a + b == a;
    } else {
      InScopeAppend(a, b[..|b| - 1], scope);
      assert (a + b)[..|a + b| - 1] == a + b[..|b| - 1];
    }
  }

  lemma {:induction false} InScopeMembers(rows: seq<Row>, scope: string)
    ensures forall r :: r in InScope(rows, scope) <==> r in rows && r.scope == scope
  {
    if rows != [] {
      InScopeMembers(rows[..|rows| - 1], scope);
      assert rows == rows[..|rows| - 1] + [rows[|rows| - 1]];
    }
  }

  /** No two rows of a scope share a sequence number, so the table's unique constraint is met. */
  lemma {:induction false} SequencesUnique(h: string -> string, rows: seq<Row>, i: nat, j: nat)
    requires i < j < |rows| && rows[i].scope == rows[j].scope
    requires Linked(h, InScope(rows, rows[i].scope))
    ensures rows[i].sequence < rows[j].sequence
  {
    hide LinkedAt;
    var scope, before := rows[i].scope, rows[..|rows| - 1];
    var s, t := InScope(rows, scope), InScope(before, scope);
    if rows[|rows| - 1].scope == scope {
      assert t == s[..|s| - 1];
      LinkedSplits(h, s);
    }
    if j < |rows| - 1 {
      SequencesUnique(h, before, i, j);
    } else {
      InScopeMembers(before, scope);
      assert before[i] in t;
      var k: nat :| k < |t| && t[k] == rows[i];
      SequenceAt(h, t, k);
      SequenceAt(h, s, |s| - 1);
    }
  }

  lemma SequenceAt(h: string -> string, s: seq<Row>, k: nat)
    requires Linked(h, s) && k < |s|
    ensures s[k].sequence == k + 1
  {
    assert LinkedAt(h, s, k);
  }

  // ----- Sealing -----

  /** The row the trigger's query finds: the highest sequence of the scope. */
  function Latest(rows: seq<Row>, scope: string): Option<Row> {
    if rows == [] then None
    else
      var rest := Latest(rows[..|rows| - 1], scope);
      var r := rows[|rows| - 1];
      if r.scope == scope && (rest.None? || r.sequence > rest.value.sequence) then Some(r) else rest
  }

  /** `vulna_seal_audit_event`. */
  function Seal(h: string -> string, rows: seq<Row>, e: Event, signature: string): Row {
    var scope := ScopeOf(e);
    var prior := Latest(rows, scope);
    var previous := if prior.Some? then prior.value.chain else GENESIS;
    Row(e.id, scope, (if prior.Some? then prior.value.sequence else 0) + 1, signature, previous,
        h(previous + signature))
  }

  lemma {:induction false} LatestIsLast(h: string -> string, rows: seq<Row>, scope: string)
    requires Linked(h, InScope(rows, scope))
    ensures var s := InScope(rows, scope); Latest(rows, scope) == if s == [] then None else Some(s[|s| - 1])
  {
    hide Linked;
    if rows != [] {
      var s, r := InScope(rows, scope), rows[|rows| - 1];
      if r.scope == scope {
        assert s[..|s| - 1] == InScope(rows[..|rows| - 1], scope);
        LinkedSplits(h, s);
        LatestIsLast(h, rows[..|rows| - 1], scope);
        if |s| > 1 {
          LinkedSplits(h, s[..|s| - 1]);
        }
      } else {
        LatestIsLast(h, rows[..|rows| - 1], scope);
      }
    }
  }

  /** A sealed row extends its own chain and no other. */
  lemma SealExtends(h: string -> string, rows: seq<Row>, e: Event, signature: string)
    requires Valid(h, rows)
    ensures Valid(h, rows + [Seal(h, rows, e, signature)])
  {
    hide Linked;
    var r := Seal(h, rows, e, signature);
    forall scope ensures Linked(h, InScope(rows + [r], scope)) {
      assert (rows + [r])[..|rows|] == rows;
      var s := InScope(rows, scope);
      assert Linked(h, s);
      if r.scope == scope {
        LatestIsLast(h, rows, scope);
        if s != [] {
          LinkedSplits(h, s);
        }
        assert (s + [r])[..|s|] == s;
        LinkedSplits(h, s + [r]);
      }
    }
  }

  // ----- The legacy backfill -----

  const LEGACY_PREFIX := "legacy-audit-event-v1\0"

  function LegacySignature(h: string -> string, e: Event): string {
    h(LEGACY_PREFIX + e.id)
  }

  ghost function Sealed(h: string -> string, events: seq<Event>): seq<Row> {
    if events == [] then []
    else
      var before := Sealed(h, events[..|events| - 1]);
      var e := events[|events| - 1];
      before + [Seal(h, before, e, LegacySignature(h, e))]
  }

  lemma {:induction false} SealedIsValid(h: string -> string, events: seq<Event>)
    ensures Valid(h, Sealed(h, events))
  {
    hide Valid, Seal, Latest;
    if events == [] {
      EmptyIsValid(h);
    } else {
      var e, before := events[|events| - 1], Sealed(h, events[..|events| - 1]);
      SealedIsValid(h, events[..|events| - 1]);
      SealExtends(h, before, e, LegacySignature(h, e));
    }
  }

  /** Every event gets exactly one row, in the order read, in its own scope and with its own signature. */
  lemma {:induction false} SealedKeepsEvents(h: string -> string, events: seq<Event>, i: nat)
    requires i < |events|
    ensures |Sealed(h, events)| == |events|
    ensures var r, e := Sealed(h, events)[i], events[i];
      && r.id == e.id && r.signature == h("legacy-audit-event-v1\0" + e.id)
      && r.scope == (match e.org case Some(org) => org case None => "global")
  {
    hide Seal;
    var n := |events| - 1;
    var before, e := events[..n], events[n];
    SealedAppend(h, before, e);
    assert events == before + [e];
    SealFields(h, Sealed(h, before), e, LegacySignature(h, e));
    if i < n {
      SealedKeepsEvents(h, before, i);
    } else if i > 0 {
      SealedKeepsEvents(h, before, i - 1);
    }
  }

  lemma SealedAppend(h: string -> string, before: seq<Event>, e: Event)
    ensures Sealed(h, before + [e]) == Sealed(h, before) + [Seal(h, Sealed(h, before), e, LegacySignature(h, e))]
    ensures before == [] ==> Sealed(h, before) == []
  {
    hide Seal;
    assert (before + [e])[..|before|] == before;
  }

  lemma SealFields(h: string -> string, rows: seq<Row>, e: Event, signature: string)
    ensures var r := Seal(h, rows, e, signature); r.id == e.id && r.scope == ScopeOf(e) && r.signature == signature
  {}

  /** `_backfill_legacy_chains`: a running (sequence, hash) per scope does what the trigger would have
      done row by row, in whatever order the rows come. */
  method Backfill(h: string -> string, events: seq<Event>) returns (rows: seq<Row>)
    ensures rows == Sealed(h, events)
    ensures Valid(h, rows)
  {
    hide Valid, Latest, StateOf, Sealed, Seal, ScopeOf;
    rows := [];
    var state: map<string, (int, string)> := map[];
    assert rows == Sealed(h, events[..0]) by { NothingSealed(h, events[..0]); }
    forall scope ensures StateOf(rows, scope) == (0, GENESIS) {
      NoState(scope);
    }
    for i := 0 to |events|
      invariant rows == Sealed(h, events[..i])
      invariant forall scope :: (if scope in state then state[scope] else (0, GENESIS)) == StateOf(rows, scope)
    {
      var e := events[i];
      var scope := ScopeOf(e);
      var (sequence, previous) := if scope in state then state[scope] else (0, GENESIS);
      var signature := h(LEGACY_PREFIX + e.id);
      var chain := h(previous + signature);
      ghost var before := rows;
      rows := rows + [Row(e.id, scope, sequence + 1, signature, previous, chain)];
      state := state[scope := (sequence + 1, chain)];
      SealFromState(h, before, e, signature);
      SealedAppend(h, events[..i], e);
      assert events[..i + 1] == events[..i] + [e];
      forall other ensures (if other in state then state[other] else (0, GENESIS)) == StateOf(rows, other) {
        SealIsLatest(h, before, e, signature, other);
      }
    }
    assert events[..|events|] == events;
    SealedIsValid(h, events);
  }

  ghost function StateOf(rows: seq<Row>, scope: string): (int, string) {
    var prior := Latest(rows, scope);
    if prior.Some? then (prior.value.sequence, prior.value.chain) else (0, GENESIS)
  }

  lemma NothingSealed(h: string -> string, events: seq<Event>)
    requires events == []
    ensures Sealed(h, events) == []
  {}

  lemma NoState(scope: string)
    ensures StateOf([], scope) == (0, GENESIS)
  {}

  /** The row built from the running state is the row the trigger would have built. */
  lemma SealFromState(h: string -> string, rows: seq<Row>, e: Event, signature: string)
    ensures var (sequence, previous) := StateOf(rows, ScopeOf(e));
      Seal(h, rows, e, signature) == Row(e.id, ScopeOf(e), sequence + 1, signature, previous, h(previous + signature))
  {}

  lemma SealIsLatest(h: string -> string, rows: seq<Row>, e: Event, signature: string, scope: string)
    ensures var r := Seal(h, rows, e, signature);
      StateOf(rows + [r], scope) == if scope == ScopeOf(e) then (r.sequence, r.chain) else StateOf(rows, scope)
  {
    var r := Seal(h, rows, e, signature);
    assert (rows + [r])[..|rows|] == rows;
  }

  lemma EmptyIsValid(h: string -> string)
    ensures Valid(h, [])
  {
    forall scope ensures Linked(h, InScope([], scope)) {}
  }

  // ----- Concurrent transactions -----

  /** Rows a transaction has inserted and not committed, and the advisory locks it holds to its end. */
  datatype Transaction = Transaction(pending: seq<Row>, locks: set<int>)

  datatype Database = Database(committed: seq<Row>, open: map<int, Transaction>)

  datatype Step =
    | Begin(tx: int)
    | Lock(tx: int, scope: string)
    | Insert(tx: int, event: Event, signature: string)
    | Commit(tx: int)
    | Abort(tx: int)

  /** A lock is granted when nobody else holds it; an insert has taken its scope's lock first. Scopes may
      share a lock. */
  ghost predicate Enabled(lockOf: string -> int, db: Database, s: Step) {
    match s
    case Begin(tx) => tx !in db.open
    case Lock(tx, scope) => tx in db.open && forall u :: u in db.open && u != tx ==> lockOf(scope) !in db.open[u].locks
    case Insert(tx, e, _) => tx in db.open && lockOf(ScopeOf(e)) in db.open[tx].locks
    case Commit(tx) => tx in db.open
    case Abort(tx) => tx in db.open
  }

  /** The trigger's query sees what is committed and what its own transaction inserted. Nothing updates or
      deletes a row: the append-only triggers reject it. */
  ghost function Next(h: string -> string, lockOf: string -> int, db: Database, s: Step): Database
    requires Enabled(lockOf, db, s)
  {
    match s
    case Begin(tx) => db.(open := db.open[tx := Transaction([], {})])
    case Lock(tx, scope) => db.(open := db.open[tx := db.open[tx].(locks := db.open[tx].locks + {lockOf(scope)})])
    case Insert(tx, e, signature) =>
      var t := db.open[tx];
      db.(open := db.open[tx := t.(pending := t.pending + [Seal(h, db.committed + t.pending, e, signature)])])
    case Commit(tx) => Database(db.committed + db.open[tx].pending, db.open - {tx})
    case Abort(tx) => db.(open := db.open - {tx})
  }

  ghost predicate Inv(h: string -> string, lockOf: string -> int, db: Database) {
    && Valid(h, db.committed)
    && (forall tx :: tx in db.open ==> Valid(h, db.committed + db.open[tx].pending))
    && (forall tx :: tx in db.open ==> Covered(lockOf, db.open[tx]))
    && (forall tx, u :: tx in db.open && u in db.open && tx != u ==> db.open[tx].locks !! db.open[u].locks)
  }

  ghost predicate Covered(lockOf: string -> int, t: Transaction) {
    forall r :: r in t.pending ==> lockOf(r.scope) in t.locks
  }

  /** Two transactions never hold rows of the same scope, so either can commit first. */
  lemma CommitsCommute(h: string -> string, lockOf: string -> int, committed: seq<Row>, t: Transaction, u: Transaction)
    requires Valid(h, committed + t.pending) && Valid(h, committed + u.pending)
    requires Covered(lockOf, t) && Covered(lockOf, u) && t.locks !! u.locks
    ensures Valid(h, committed + t.pending + u.pending)
  {
    forall scope ensures Linked(h, InScope(committed + t.pending + u.pending, scope)) {
      InScopeAppend(committed + t.pending, u.pending, scope);
      InScopeAppend(committed, t.pending, scope);
      InScopeAppend(committed, u.pending, scope);
      InScopeMembers(t.pending, scope);
      InScopeMembers(u.pending, scope);
      var a, b := InScope(t.pending, scope), InScope(u.pending, scope);
      assert a == [] || a[0] in a;
      assert b == [] || b[0] in b;
      assert a == [] || b == [];
      assert Linked(h, InScope(committed + t.pending, scope)) && Linked(h, InScope(committed + u.pending, scope));
      if a == [] {
        assert InScope(committed, scope) + a == InScope(committed, scope);
      } else {
        assert InScope(committed, scope) + a + b == InScope(committed, scope) + a;
      }
    }
  }

  lemma StepKeeps(h: string -> string, lockOf: string -> int, db: Database, s: Step)
    requires Inv(h, lockOf, db) && Enabled(lockOf, db, s)
    ensures Inv(h, lockOf, Next(h, lockOf, db, s))
    ensures db.committed <= Next(h, lockOf, db, s).committed
  {
    hide Valid;
    match s
    case Begin(tx) => assert db.committed + [] == db.committed;
    case Lock(_, _) =>
    case Insert(tx, e, signature) =>
      var t := db.open[tx];
      var r := Seal(h, db.committed + t.pending, e, signature);
      SealExtends(h, db.committed + t.pending, e, signature);
      assert db.committed + t.pending + [r] == db.committed + (t.pending + [r]);
    case Commit(tx) =>
      forall u | u in db.open && u != tx ensures Valid(h, db.committed + db.open[tx].pending + db.open[u].pending) {
        CommitsCommute(h, lockOf, db.committed, db.open[tx], db.open[u]);
      }
    case Abort(_) =>
  }

  ghost predicate Reaches(h: string -> string, lockOf: string -> int, db: Database, steps: seq<Step>, db': Database)
    decreases |steps|
  {
    if steps == [] then db' == db
    else Enabled(lockOf, db, steps[0]) && Reaches(h, lockOf, Next(h, lockOf, db, steps[0]), steps[1..], db')
  }

  lemma {:induction false} RunKeeps(h: string -> string, lockOf: string -> int, db: Database, steps: seq<Step>,
                                    db': Database)
    requires Inv(h, lockOf, db) && Reaches(h, lockOf, db, steps, db')
    ensures Inv(h, lockOf, db') && db.committed <= db'.committed
    decreases |steps|
  {
    hide Inv, Next, Enabled;
    if steps != [] {
      StepKeeps(h, lockOf, db, steps[0]);
      RunKeeps(h, lockOf, Next(h, lockOf, db, steps[0]), steps[1..], db');
    }
  }

  /** After the backfill, whatever transactions insert, commit or abort in any interleaving, every scope's
      committed rows form one chain, and earlier rows stay where they were. */
  lemma ChainsStayValid(h: string -> string, lockOf: string -> int, events: seq<Event>, steps: seq<Step>, db: Database)
    requires Reaches(h, lockOf, Database(Sealed(h, events), map[]), steps, db)
    ensures Valid(h, db.committed) && Sealed(h, events) <= db.committed
  {
    SealedIsValid(h, events);
    RunKeeps(h, lockOf, Database(Sealed(h, events), map[]), steps, db);
  }

  // ----- Tamper evidence -----

  /** Two chains of the same scope that end in the same hash are the same chain, equally long and with the
      same signature and hash at every position, unless the hash function itself has been broken on
      their rows. */
  lemma {:induction false} SameEndSameHistory(h: string -> string, s: seq<Row>, t: seq<Row>)
    requires forall x :: |h(x)| == HASH_LENGTH
    requires CollisionFree(h, Set(s) + Set(t)) && Linked(h, s) && Linked(h, t)
    requires s != [] && t != [] && s[|s| - 1].chain == t[|t| - 1].chain
    ensures |s| == |t|
    ensures forall k :: 0 <= k < |s| ==> s[k].signature == t[k].signature && s[k].chain == t[k].chain
  {
    hide CollisionFree, Linked, Link, Set;
    var x, y := s[|s| - 1], t[|t| - 1];
    var s', t' := s[..|s| - 1], t[..|t| - 1];
    LastRow(h, s);
    LastRow(h, t);
    SameLast(h, s, t);
    if s' != [] && t' != [] {
      CollisionFreeAbove(h, Set(s') + Set(t'), s, t);
      SameEndSameHistory(h, s', t');
      assert forall k :: 0 <= k < |s'| ==> s[k] == s'[k] && t[k] == t'[k];
    }
  }

  /** The last row of a chain commits to the row before it. */
  lemma LastRow(h: string -> string, s: seq<Row>)
    requires Linked(h, s) && s != []
    ensures var x, s' := s[|s| - 1], s[..|s| - 1];
      && Linked(h, s')
      && x.chain == h(Link(x))
      && x.previous == (if s' == [] then GENESIS else s'[|s'| - 1].chain)
      && (s' != [] ==> s'[|s'| - 1].chain == h(Link(s'[|s'| - 1])))
  {
    LinkedSplits(h, s);
    if |s| > 1 {
      LinkedSplits(h, s[..|s| - 1]);
    }
  }

  lemma SameLast(h: string -> string, s: seq<Row>, t: seq<Row>)
    requires forall x :: |h(x)| == HASH_LENGTH
    requires CollisionFree(h, Set(s) + Set(t)) && Linked(h, s) && Linked(h, t)
    requires s != [] && t != [] && s[|s| - 1].chain == t[|t| - 1].chain
    ensures s[|s| - 1].previous == t[|t| - 1].previous && s[|s| - 1].signature == t[|t| - 1].signature
    ensures |s| == 1 <==> |t| == 1
  {
    hide Linked;
    var x, y := s[|s| - 1], t[|t| - 1];
    LastRow(h, s);
    LastRow(h, t);
    assert x in s && y in t;
    assert Link(x) == Link(y);
    SplitEqual(x.previous, x.signature, y.previous, y.signature);
    assert |s| > 1 ==> s[|s| - 2] in s;
    assert |t| > 1 ==> t[|t| - 2] in t;
  }

  lemma CollisionFreeAbove(h: string -> string, fewer: set<Row>, s: seq<Row>, t: seq<Row>)
    requires s != [] && t != [] && fewer == Set(s[..|s| - 1]) + Set(t[..|t| - 1])
    requires CollisionFree(h, Set(s) + Set(t))
    ensures CollisionFree(h, fewer)
  {
    assert fewer <= Set(s) + Set(t);
  }

  function Set(s: seq<Row>): set<Row> { set r | r in s }

  lemma SplitEqual(a: string, x: string, b: string, y: string)
    requires |a| == |b| && a + x == b + y
    ensures a == b && x == y
  {
    assert (a + x)[..|a|] == a && (b + y)[..|b|] == b;
    assert (a + x)[|a|..] == x && (b + y)[|b|..] == y;
  }
}
