/** The relay's command sequences against the kernel's tables, and the loop that repeats them. */
module RelayAgent {
  import opened Wrappers
  import opened Addresses
  import opened RelayFirewall

  /** A line of the parent chain: the jump to ours, or somebody else's rule. */
  datatype ParentLine = Jump | Other(id: nat)

  /** One table as far as the relay sees it: its own chain, if it exists, and the parent chain. */
  datatype Table<R> = Table(chain: Option<seq<R>>, parent: seq<ParentLine>)

  function Jumps(parent: seq<ParentLine>): nat {
    if parent == [] then 0 else (if parent[0].Jump? then 1 else 0) + Jumps(parent[1..])
  }

  function Others(parent: seq<ParentLine>): seq<ParentLine> {
    if parent == [] then [] else (if parent[0].Jump? then [] else [parent[0]]) + Others(parent[1..])
  }

  function DropJump(parent: seq<ParentLine>): seq<ParentLine> {
    if parent == [] then [] else if parent[0].Jump? then parent[1..] else [parent[0]] + DropJump(parent[1..])
  }

  lemma {:induction false} DropJumpDrops(parent: seq<ParentLine>)
    ensures Jumps(DropJump(parent)) == if Jumps(parent) == 0 then 0 else Jumps(parent) - 1
    ensures Others(DropJump(parent)) == Others(parent)
  {
    if parent != [] && !parent[0].Jump? {
      DropJumpDrops(parent[1..]);
      assert ([parent[0]] + DropJump(parent[1..]))[1..] == DropJump(parent[1..]);
    }
  }

  lemma {:induction false} NoJump(parent: seq<ParentLine>)
    ensures Jump in parent <==> Jumps(parent) > 0
    ensures Jumps(parent) == 0 ==> DropJump(parent) == parent
  {
    if parent != [] { NoJump(parent[1..]); }
  }

  // ----- The kernel's answers to the commands -----

  function NewChain<R>(t: Table<R>): Table<R> { if t.chain.None? then t.(chain := Some([])) else t }

  function Flush<R>(t: Table<R>): Table<R> { if t.chain.Some? then t.(chain := Some([])) else t }

  function InsertJump<R>(t: Table<R>): Table<R> { if t.chain.Some? then t.(parent := [Jump] + t.parent) else t }

  function DeleteJump<R>(t: Table<R>): Table<R> { t.(parent := DropJump(t.parent)) }

  /** Deleting needs an empty chain that nothing jumps to. */
  function DeleteChain<R(==)>(t: Table<R>): Table<R> {
    if t.chain == Some([]) && Jump !in t.parent then t.(chain := None) else t
  }

  function Appended<R>(chain: Option<seq<R>>, rules: seq<R>): Option<seq<R>> {
    if chain.Some? then Some(chain.value + rules) else None
  }

  function AppendRule<R>(t: Table<R>, r: R): Table<R> { t.(chain := Appended(t.chain, [r])) }

  /** Whether the four commands of `ensureChain`, whose exit status counts for nothing, do their work: a
      check that fails to may deny a jump that is there. */
  datatype Ensuring = Ensuring(newChain: bool, flush: bool, check: bool, insert: bool)

  /** The same for the three commands of `removeChain`. */
  datatype Removing = Removing(deleteJump: bool, flush: bool, deleteChain: bool)

  function Emptied<R>(t: Table<R>, e: Ensuring): Table<R> {
    var u := if e.newChain then NewChain(t) else t;
    if e.flush then Flush(u) else u
  }

  function Ensured<R>(t: Table<R>, e: Ensuring): Table<R> {
    var u := Emptied(t, e);
    if (Jump in u.parent && e.check) || !e.insert then u else InsertJump(u)
  }

  function Unlinked<R>(t: Table<R>, r: Removing): Table<R> {
    var u := if r.deleteJump then DeleteJump(t) else t;
    if r.flush then Flush(u) else u
  }

  function Removed<R(==)>(t: Table<R>, r: Removing): Table<R> {
    if r.deleteChain then DeleteChain(Unlinked(t, r)) else Unlinked(t, r)
  }

  /** The kernel keeps a chain as long as something jumps to it. */
  ghost predicate Linked<R(!new)>(t: Table<R>) { Jumps(t.parent) > 0 ==> t.chain.Some? }

  ghost predicate Absent<R(!new)>(t: Table<R>) { t.chain.None? && Jumps(t.parent) == 0 }

  /** An empty chain behind one jump. */
  ghost predicate Ready<R(!new)>(t: Table<R>) { t.chain == Some([]) && Jumps(t.parent) == 1 }

  /** The chain is new or emptied; a missing jump is inserted; a single one is found, or not repeated. */
  ghost predicate GetsReady<R(!new)>(t: Table<R>, e: Ensuring) {
    && (if t.chain.None? then e.newChain else t.chain.value == [] || e.flush)
    && (if Jumps(t.parent) == 0 then e.insert else Jumps(t.parent) == 1 && (e.check || !e.insert))
  }

  /** There is at most one jump; what is there is removed, and a chain with rules is emptied first. */
  ghost predicate GetsRemoved<R(!new)>(t: Table<R>, r: Removing) {
    && (Jumps(t.parent) == 0 || (Jumps(t.parent) == 1 && r.deleteJump))
    && (t.chain.None? || (r.deleteChain && (t.chain.value == [] || r.flush)))
  }

  /** Which of the commands failed decides alone whether the sequence ends with one jump to an empty chain. */
  lemma EnsuredMeans<R(!new)>(t: Table<R>, e: Ensuring)
    ensures Ready(Ensured(t, e)) <==> GetsReady(t, e)
    ensures Others(Ensured(t, e).parent) == Others(t.parent)
    ensures Linked(t) ==> Linked(Ensured(t, e))
    ensures Jumps(t.parent) <= 1 && e.check ==> Jumps(Ensured(t, e).parent) <= 1
  {
    NoJump(t.parent);
    assert ([Jump] + t.parent)[1..] == t.parent;
  }

  /** The same for removal. */
  lemma RemovedMeans<R(!new)>(t: Table<R>, r: Removing)
    ensures Absent(Removed(t, r)) <==> GetsRemoved(t, r)
    ensures Others(Removed(t, r).parent) == Others(t.parent)
    ensures Linked(t) ==> Linked(Removed(t, r))
    ensures Jumps(Removed(t, r).parent) <= Jumps(t.parent)
  {
    DropJumpDrops(t.parent);
    NoJump(t.parent);
    NoJump(DropJump(t.parent));
  }

  /** A check that fails although the jump is there makes a second one, which keeps the chain alive through
      a removal whose commands all work. */
  lemma SecondJumpSurvivesRemoval<R(!new)>(t: Table<R>, e: Ensuring, r: Removing)
    requires t.chain.Some? && Jumps(t.parent) == 1 && !e.check && e.insert
    ensures Jumps(Ensured(t, e).parent) == 2
    ensures Removed(Ensured(t, e), Removing(true, true, true)).chain == Some([])
    ensures Jumps(Removed(Ensured(t, e), r).parent) >= 1
  {
    NoJump(t.parent);
    assert ([Jump] + t.parent)[1..] == t.parent;
  }

  /** If the flush fails, the chain of an earlier configuration stays in front. It ends with a rule for every
      tunnel packet, so the new configuration is installed and decides none of them. */
  lemma FailedFlushKeepsOldRules(t: Table<Rule>, e: Ensuring, was: Config, oldRoutes: Routes, oldLans: seq<string>,
                                 cfg: Config, routes: Routes, lans: seq<string>, p: Packet)
    requires t.chain == Some(Compiled(was, oldRoutes, oldLans)) && !e.flush && p.inIface == TUNNEL
    ensures !GetsReady(t, e)
    ensures var c := Appended(Ensured(t, e).chain, Compiled(cfg, routes, lans));
      && c == Some(t.chain.value + Compiled(cfg, routes, lans))
      && (forall r :: r in c.value ==> WellFormed(r))
      && Decide(c.value, p) == Decide(t.chain.value, p)
  {
    var a, b := Compiled(was, oldRoutes, oldLans), Compiled(cfg, routes, lans);
    DecideAppend(a, b, p);
    CompilationMeans(was, oldRoutes, oldLans, p);
    hide Compiled, Decide;
  }

  // ----- The agent -----

  /** One iteration: `route` is the kernel's routing answer; `obeys` says whether the n-th checked command
      succeeds; the others say the same of the unchecked ones and of the first look for the link;
      `iteration` is the order in which a map's keys come. */
  datatype World = World(route: Cidr -> Option<string>, obeys: nat -> bool, iteration: set<string> -> seq<string>,
                         linkSeen: bool, linkDeleted: bool,
                         ensureFwd: Ensuring, ensureNat: Ensuring, removeFwd: Removing, removeNat: Removing)

  ghost predicate Plausible(w: World) {
    forall s :: OrderingOf(w.iteration(s), s)
  }

  /** No check denies a jump that is there. */
  predicate Truthful(w: World) { w.ensureFwd.check && w.ensureNat.check }

  /** The commands whose exit status is ignored all do their work; the checked ones may fail. */
  predicate Steady(w: World) {
    && w.ensureFwd == w.ensureNat == Ensuring(true, true, true, true)
    && w.removeFwd == w.removeNat == Removing(true, true, true)
    && w.linkDeleted
  }

  ghost predicate Obedient(w: World) {
    Steady(w) && w.linkSeen && forall n :: w.obeys(n)
  }

  lemma SteadyWorks<R(!new)>(t: Table<R>, w: World)
    ensures Steady(w) ==> Truthful(w) && w.linkDeleted
    ensures Steady(w) && Jumps(t.parent) <= 1 ==>
      && GetsReady(t, w.ensureFwd) && GetsReady(t, w.ensureNat)
      && GetsRemoved(t, w.removeFwd) && GetsRemoved(t, w.removeNat)
    ensures Steady(w) ==> Ensured(t, w.ensureFwd).chain == Ensured(t, w.ensureNat).chain == Some([])
    ensures Steady(w) && Unlinked(t, w.removeFwd).chain.Some? ==> Unlinked(t, w.removeFwd).chain.value == []
    ensures Steady(w) && Removed(t, w.removeFwd).chain.Some? ==> Removed(t, w.removeFwd).chain.value == []
  {
  }

  /** The chain a configuration compiles to in this world. */
  ghost function Target(cfg: Config, w: World): (r: seq<Rule>)
    ensures forall x :: x in r ==> WellFormed(x)
  {
    Compiled(cfg, RoutesOf(w), w.iteration(LanSet(cfg, RoutesOf(w))))
  }

  datatype Fetch = Unavailable | Fetched(cfg: Config)

  ghost predicate Routed(w: World, cfg: Config) {
    forall c :: c in cfg.approved ==> w.route(c).Some? && w.route(c).value != ""
  }

  ghost function RoutesOf(w: World): Routes {
    (c: Cidr) => if w.route(c).Some? then w.route(c).value else ""
  }

  /** `chain` is what `left` was with some first part of `whole` behind it. */
  ghost predicate Between(left: Option<seq<Rule>>, chain: Option<seq<Rule>>, whole: seq<Rule>) {
    if left.None? then chain.None? else chain.Some? && left.value <= chain.value <= left.value + whole
  }

  class Relay {
    var fwd: Table<Rule>
    var natTable: Table<NatRule>
    var linkUp: bool
    var commands: nat
    /** Every content the forward chain has had. */
    ghost var seen: seq<Option<seq<Rule>>>

    ghost predicate Valid()
      reads this
    {
      Linked(fwd) && Linked(natTable)
    }

    /** What every round relies on: at most one jump into each chain. */
    ghost predicate Single()
      reads this
    {
      Jumps(fwd.parent) <= 1 && Jumps(natTable.parent) <= 1
    }

    ghost predicate Down()
      reads this
    {
      Absent(fwd) && Absent(natTable) && !linkUp
    }

    /** Exactly the compilation of `cfg`, reached by exactly one jump. */
    ghost predicate Reflects(cfg: Config, w: World)
      reads this
    {
      && linkUp && Jumps(fwd.parent) == 1 && Jumps(natTable.parent) == 1
      && fwd.chain == Some(Target(cfg, w))
      && natTable.chain == Some(NatCompiled(cfg, RoutesOf(w)))
    }

    /** Everybody else's rules in the parent chains. */
    ghost function Foreign(): (seq<ParentLine>, seq<ParentLine>)
      reads this
    {
      (Others(fwd.parent), Others(natTable.parent))
    }

    constructor (fwd: Table<Rule>, natTable: Table<NatRule>, linkUp: bool)
      requires Linked(fwd) && Linked(natTable)
      ensures Valid() && this.fwd == fwd && this.natTable == natTable && this.linkUp == linkUp && seen == [fwd.chain]
    {
      this.fwd, this.natTable, this.linkUp, commands, seen := fwd, natTable, linkUp, 0, [fwd.chain];
    }

    /** A command whose exit status the source checks. */
    method Checked(w: World) returns (ok: bool)
      modifies `commands
      ensures ok == w.obeys(old(commands))
    {
      ok := w.obeys(commands);
      commands := commands + 1;
    }

    static method EnsureChain<R>(t: Table<R>, e: Ensuring) returns (u: Table<R>)
      ensures u == Ensured(t, e)
    {
      u := t;
      if e.newChain { u := NewChain(u); }
      if e.flush { u := Flush(u); }
      var found := Jump in u.parent && e.check;
      if !found && e.insert { u := InsertJump(u); }
    }

    static method RemoveChain<R(==)>(t: Table<R>, r: Removing) returns (u: Table<R>)
      ensures u == Removed(t, r)
    {
      u := t;
      if r.deleteJump { u := DeleteJump(u); }
      if r.flush { u := Flush(u); }
      if r.deleteChain { u := DeleteChain(u); }
    }

    method EnsureChains(w: World)
      requires Valid()
      modifies `fwd, `natTable, `seen
      ensures Valid() && fwd == Ensured(old(fwd), w.ensureFwd) && natTable == Ensured(old(natTable), w.ensureNat)
      ensures seen == old(seen) + [fwd.chain]
    {
      EnsuredMeans(fwd, w.ensureFwd);
      EnsuredMeans(natTable, w.ensureNat);
      hide Ensured, GetsReady, Ready, Others, Jumps;
      fwd := EnsureChain(fwd, w.ensureFwd);
      seen := seen + [fwd.chain];
      natTable := EnsureChain(natTable, w.ensureNat);
    }

    /** `teardown`: everything is gone exactly if every command that had something to remove removed it. */
    method Teardown(w: World)
      requires Valid()
      modifies this
      ensures Valid() && fwd == Removed(old(fwd), w.removeFwd) && natTable == Removed(old(natTable), w.removeNat)
      ensures Foreign() == old(Foreign()) && (old(Single()) ==> Single())
      ensures Down() <==>
        old(GetsRemoved(fwd, w.removeFwd) && GetsRemoved(natTable, w.removeNat) && (linkUp ==> w.linkDeleted))
      ensures seen == old(seen) + [Unlinked(old(fwd), w.removeFwd).chain, fwd.chain]
    {
      RemovedMeans(fwd, w.removeFwd);
      RemovedMeans(natTable, w.removeNat);
      hide Removed, Unlinked, GetsRemoved, Absent, Others, Jumps, Linked;
      ghost var unlinked := Unlinked(fwd, w.removeFwd).chain;
      fwd := RemoveChain(fwd, w.removeFwd);
      seen := seen + [unlinked, fwd.chain];
      natTable := RemoveChain(natTable, w.removeNat);
      if w.linkDeleted { linkUp := false; }
    }

    /** A rule cannot be appended to a chain that is not there. */
    method AppendNat(r: NatRule, w: World) returns (ok: bool)
      modifies `natTable, `commands
      ensures ok == (w.obeys(old(commands)) && old(natTable).chain.Some?)
      ensures natTable == if ok then AppendRule(old(natTable), r) else old(natTable)
    {
      ok := Checked(w);
      ok := ok && natTable.chain.Some?;
      if ok { natTable := AppendRule(natTable, r); }
    }

    /** Since `from` the forward chain was `left` with a first part of `whole` behind it. */
    ghost predicate Growing(from: nat, left: Option<seq<Rule>>, whole: seq<Rule>)
      reads `fwd, `seen
    {
      && Between(left, fwd.chain, whole) && from <= |seen|
      && forall k :: from <= k < |seen| ==> Between(left, seen[k], whole)
    }

    method Grow(r: Rule, w: World, ghost from: nat, ghost left: Option<seq<Rule>>, ghost done: seq<Rule>,
                ghost whole: seq<Rule>)
      returns (ok: bool)
      requires Growing(from, left, whole) && fwd.chain == Appended(left, done) && done + [r] <= whole
      modifies `fwd, `seen, `commands
      ensures Growing(from, left, whole) && fwd.parent == old(fwd).parent && old(seen) <= seen
      ensures ok ==> left.Some? && fwd.chain == Appended(left, done + [r])
      ensures left.Some? && (forall n :: w.obeys(n)) ==> ok
    {
      ok := Checked(w);
      ok := ok && fwd.chain.Some?;
      if ok {
        fwd := AppendRule(fwd, r);
        assert left.value + done + [r] == left.value + (done + [r]);
        seen := seen + [fwd.chain];
      }
    }

    /** Both chains exist after `ensureChain`, whatever they contain. */
    ghost predicate ChainsStand(w: World)
      reads this
    {
      Ensured(fwd, w.ensureFwd).chain.Some? && Ensured(natTable, w.ensureNat).chain.Some?
    }

    /** `configureFirewall`: on success the compiled rules stand behind what `ensureChain` left. */
    method ConfigureFirewall(cfg: Config, routes: Routes, w: World) returns (ok: bool)
      requires Valid() && Plausible(w) && routes == RoutesOf(w)
      modifies `fwd, `natTable, `seen, `commands
      ensures Valid() && old(seen) <= seen
      ensures Growing(|old(seen)|, Ensured(old(fwd), w.ensureFwd).chain, Target(cfg, w))
      ensures fwd.parent == Ensured(old(fwd), w.ensureFwd).parent
      ensures natTable.parent == Ensured(old(natTable), w.ensureNat).parent
      ensures ok ==> fwd.chain.Some? && fwd.chain == Appended(Ensured(old(fwd), w.ensureFwd).chain, Target(cfg, w))
      ensures ok ==> natTable.chain == Appended(Ensured(old(natTable), w.ensureNat).chain, NatCompiled(cfg, routes))
      ensures (forall n :: w.obeys(n)) && Routed(w, cfg) && old(ChainsStand(w)) ==> ok
    {
      EnsuredMeans(fwd, w.ensureFwd);
      EnsuredMeans(natTable, w.ensureNat);
      ghost var from := |seen|;
      EnsureChains(w);
      ghost var left, natLeft := fwd.chain, natTable.chain;
      ok := InstallDenials(cfg, routes, w, from, left);
      if !ok { return; }
      var returnIfaces;
      ok, returnIfaces := InstallApprovals(cfg, routes, w, from, left, natLeft);
      if !ok { return; }
      ok := FinishFirewall(cfg, routes, w, returnIfaces, from, left);
    }

    method InstallDenials(cfg: Config, routes: Routes, w: World, ghost from: nat, ghost left: Option<seq<Rule>>)
      returns (ok: bool)
      requires routes == RoutesOf(w) && Growing(from, left, Target(cfg, w)) && fwd.chain == left
      modifies `fwd, `seen, `commands
      ensures Growing(from, left, Target(cfg, w)) && fwd.parent == old(fwd).parent && old(seen) <= seen
      ensures ok ==> fwd.chain == Appended(left, DenyRules(cfg.denied))
      ensures left.Some? && (forall n :: w.obeys(n)) ==> ok
    {
      ghost var whole, deny := Target(cfg, w), DenyRules(cfg.denied);
      assert left.Some? ==> left.value + deny[..0] == left.value;
      assert deny[..|cfg.denied|] == deny;
      for i := 0 to |cfg.denied|
        invariant Growing(from, left, whole) && fwd.chain == Appended(left, deny[..i]) && old(seen) <= seen
        invariant fwd.parent == old(fwd).parent
      {
        assert whole[..i + 1] == deny[..i] + [deny[i]];
        ok := Grow(Rule(TUNNEL, None, Some(cfg.denied[i]), false, Reject), w, from, left, deny[..i], whole);
        if !ok { return; }
        assert deny[..i + 1] == deny[..i] + [deny[i]];
      }
      ok := true;
    }

    method InstallApprovals(cfg: Config, routes: Routes, w: World, ghost from: nat, ghost left: Option<seq<Rule>>,
                            ghost natLeft: Option<seq<NatRule>>)
      returns (ok: bool, returnIfaces: set<string>)
      requires routes == RoutesOf(w) && Growing(from, left, Target(cfg, w))
      requires fwd.chain == Appended(left, DenyRules(cfg.denied)) && natTable.chain == natLeft
      modifies `fwd, `natTable, `seen, `commands
      ensures Growing(from, left, Target(cfg, w)) && fwd.parent == old(fwd).parent
        && natTable.parent == old(natTable).parent
      ensures natLeft.Some? ==> natTable.chain.Some?
      ensures old(seen) <= seen
      ensures ok ==> fwd.chain == Appended(left, DenyRules(cfg.denied) + AllowRules(cfg.approved, routes))
      ensures ok ==> natTable.chain == Appended(natLeft, NatCompiled(cfg, routes))
      ensures ok ==> returnIfaces == LanSet(cfg, routes)
      ensures left.Some? && natLeft.Some? && (forall n :: w.obeys(n)) && Routed(w, cfg) ==> ok
    {
      hide Between, OrderingOf, Growing;
      ghost var whole, deny, allow := Target(cfg, w), DenyRules(cfg.denied), AllowRules(cfg.approved, routes);
      ghost var nats := NatCompiled(cfg, routes);
      returnIfaces := {};
      assert deny + allow[..0] == deny;
      assert natLeft.Some? ==> natLeft.value + nats[..0] == natLeft.value;
      for i := 0 to |cfg.approved|
        invariant Growing(from, left, whole) && fwd.chain == Appended(left, deny + allow[..i]) && old(seen) <= seen
        invariant fwd.parent == old(fwd).parent && natTable.parent == old(natTable).parent
        invariant natTable.chain == Appended(natLeft, nats[..i])
        invariant returnIfaces == set k | 0 <= k < i :: routes(cfg.approved[k])
      {
        var lan := routes(cfg.approved[i]);
        if lan == "" {
          assert cfg.approved[i] in cfg.approved;
          return false, returnIfaces;
        }
        returnIfaces := returnIfaces + {lan};
        assert whole[..|deny| + i + 1] == deny + allow[..i] + [allow[i]];
        ok := Grow(Rule(TUNNEL, Some(lan), Some(cfg.approved[i]), false, Accept), w, from, left, deny + allow[..i],
                   whole);
        if !ok { return; }
        assert deny + allow[..i + 1] == deny + allow[..i] + [allow[i]];
        ok := AppendNat(Masquerade(cfg.server, cfg.approved[i], lan), w);
        if !ok { return; }
        assert nats[..i + 1] == nats[..i] + [nats[i]];
        assert natLeft.value + nats[..i] + [nats[i]] == natLeft.value + nats[..i + 1];
      }
      assert nats[..|cfg.approved|] == nats && allow[..|cfg.approved|] == allow;
      ok := true;
    }

    /** The reply rules, in whatever order, and the closing rule. */
    method FinishFirewall(cfg: Config, routes: Routes, w: World, returnIfaces: set<string>, ghost from: nat,
                          ghost left: Option<seq<Rule>>)
      returns (ok: bool)
      requires routes == RoutesOf(w) && returnIfaces == LanSet(cfg, routes)
      requires Growing(from, left, Target(cfg, w))
      requires fwd.chain == Appended(left, DenyRules(cfg.denied) + AllowRules(cfg.approved, routes))
      modifies `fwd, `seen, `commands
      ensures Growing(from, left, Target(cfg, w)) && fwd.parent == old(fwd).parent && old(seen) <= seen
      ensures ok ==> left.Some? && fwd.chain == Appended(left, Target(cfg, w))
      ensures left.Some? && (forall n :: w.obeys(n)) ==> ok
    {
      var lans := w.iteration(returnIfaces);
      ghost var whole, head := Target(cfg, w), DenyRules(cfg.denied) + AllowRules(cfg.approved, routes);
      ghost var replies := ReturnRules(lans);
      assert whole == head + replies + [LAST_RULE];
      assert head + replies[..0] == head;
      for i := 0 to |lans|
        invariant Growing(from, left, whole) && fwd.chain == Appended(left, head + replies[..i]) && old(seen) <= seen
        invariant fwd.parent == old(fwd).parent
      {
        assert whole[..|head| + i + 1] == head + replies[..i] + [replies[i]];
        ok := Grow(Rule(lans[i], Some(TUNNEL), None, true, Accept), w, from, left, head + replies[..i], whole);
        if !ok { return; }
        assert head + replies[..i + 1] == head + replies[..i] + [replies[i]];
      }
      assert head + replies[..|lans|] + [LAST_RULE] == whole;
      ok := Grow(Rule(TUNNEL, None, None, false, Drop), w, from, left, head + replies[..|lans|], whole);
    }

    /** Either the firewall was not touched yet, or both chains went through `ensureChain`. */
    ghost predicate Prepared(fwd0: Table<Rule>, nat0: Table<NatRule>, w: World)
      reads this
    {
      || (fwd == fwd0 && natTable == nat0)
      || (fwd.parent == Ensured(fwd0, w.ensureFwd).parent && natTable.parent == Ensured(nat0, w.ensureNat).parent)
    }

    /** `configure`: link, addresses and routes first; the firewall last. It reports success, and then the
        firewall is what was fetched exactly if both chains got ready; for success it is enough that they exist. */
    method Configure(cfg: Config, w: World) returns (ok: bool)
      requires Valid() && Plausible(w)
      modifies this
      ensures Valid() && old(seen) <= seen && Prepared(old(fwd), old(natTable), w)
      ensures forall k :: |old(seen)| <= k < |seen| ==>
        Between(Ensured(old(fwd), w.ensureFwd).chain, seen[k], Target(cfg, w))
      ensures ok ==> fwd.chain.Some? && fwd.chain == Appended(Ensured(old(fwd), w.ensureFwd).chain, Target(cfg, w))
      ensures ok ==> (Reflects(cfg, w) <==> old(GetsReady(fwd, w.ensureFwd) && GetsReady(natTable, w.ensureNat)))
      ensures w.linkSeen && (forall n :: w.obeys(n)) && Routed(w, cfg) && old(ChainsStand(w)) ==> ok
    {
      EnsuredMeans(fwd, w.ensureFwd);
      EnsuredMeans(natTable, w.ensureNat);
      if !linkUp || !w.linkSeen {
        ok := Checked(w);
        if !ok || linkUp { return false; }
        linkUp := true;
      }
      for i := 0 to 5
        invariant Valid() && linkUp && fwd == old(fwd) && natTable == old(natTable) && seen == old(seen)
      {
        ok := Checked(w);
        if !ok { return; }
      }
      for i := 0 to |cfg.approved|
        invariant forall k :: 0 <= k < i ==> w.route(cfg.approved[k]).Some?
      {
        if w.route(cfg.approved[i]).None? {
          assert cfg.approved[i] in cfg.approved;
          return false;
        }
      }
      var route := w.route;
      ok := ConfigureFirewall(cfg, (c: Cidr) => if route(c).Some? then route(c).value else "", w);
      if ok {
        var left, natLeft := Ensured(old(fwd), w.ensureFwd).chain, Ensured(old(natTable), w.ensureNat).chain;
        assert left.value + Target(cfg, w) == Target(cfg, w) <==> left.value == [];
        var nats := NatCompiled(cfg, RoutesOf(w));
        assert natLeft.Some? ==> (natLeft.value + nats == nats <==> natLeft.value == []);
      }
    }

    /** One iteration of the run loop, up to the heartbeat. */
    method Iterate(f: Fetch, w: World)
      requires Valid() && Plausible(w)
      modifies this
      ensures Valid() && Foreign() == old(Foreign()) && old(seen) <= seen
      ensures old(Single()) && Truthful(w) ==> Single()
      ensures old(Single()) && Steady(w) && (f.Unavailable? || !f.cfg.active) ==> Down()
      ensures old(Single()) && Steady(w) && f.Fetched? && f.cfg.active ==> Down() || Reflects(f.cfg, w)
      ensures old(Single()) && Obedient(w) && f.Fetched? && f.cfg.active && Routed(w, f.cfg) ==> Reflects(f.cfg, w)
      ensures Steady(w) ==> forall k :: |old(seen)| <= k < |seen| && seen[k].Some? && seen[k].value != [] ==>
        f.Fetched? && f.cfg.active && seen[k].value <= Target(f.cfg, w)
    {
      EnsuredMeans(fwd, w.ensureFwd);
      EnsuredMeans(natTable, w.ensureNat);
      SteadyWorks(fwd, w);
      SteadyWorks(natTable, w);
      hide Ensured, Removed, Unlinked, GetsReady, GetsRemoved, Linked, Others, Jumps, Steady, Target, Ready, Absent;
      if f.Unavailable? {
        Teardown(w);
      } else if !f.cfg.active {
        Teardown(w);
      } else {
        var ok := Configure(f.cfg, w);
        SteadyWorks(fwd, w);
        SteadyWorks(natTable, w);
        if !ok { Teardown(w); }
      }
    }

    /** The loop, for any number of iterations. If no check ever denies a jump that is there, an iteration
        whose unchecked commands work leaves the firewall down or exactly the configuration just fetched,
        however the earlier iterations and the checked commands went. If they always work, nothing of an
        earlier configuration was ever in front of the fetched one. */
    method Run(fetches: seq<Fetch>, worlds: seq<World>)
      requires Valid() && |worlds| == |fetches| && forall w :: w in worlds ==> Plausible(w)
      modifies this
      ensures Valid() && Foreign() == old(Foreign()) && old(seen) <= seen
      ensures old(Single()) && (forall w :: w in worlds ==> Truthful(w)) ==> Single()
      ensures
        (&& fetches != [] && old(Single()) && (forall w :: w in worlds ==> Truthful(w))
         && Steady(worlds[|fetches| - 1])) ==>
        var f, w := fetches[|fetches| - 1], worlds[|fetches| - 1];
        Down() || (f.Fetched? && f.cfg.active && Reflects(f.cfg, w))
      ensures (forall w :: w in worlds ==> Steady(w)) ==>
        forall k :: |old(seen)| <= k < |seen| && seen[k].Some? && seen[k].value != [] ==>
          exists i :: 0 <= i < |fetches| && fetches[i].Fetched? && fetches[i].cfg.active
            && seen[k].value <= Target(fetches[i].cfg, worlds[i])
    {
      for n := 0 to |fetches|
        invariant Valid() && Foreign() == old(Foreign()) && old(seen) <= seen
        invariant old(Single()) && (forall w :: w in worlds ==> Truthful(w)) ==> Single()
        invariant n > 0 && old(Single()) && (forall w :: w in worlds ==> Truthful(w)) && Steady(worlds[n - 1]) ==>
          var f, w := fetches[n - 1], worlds[n - 1];
          Down() || (f.Fetched? && f.cfg.active && Reflects(f.cfg, w))
        invariant (forall w :: w in worlds ==> Steady(w)) ==>
          forall k :: |old(seen)| <= k < |seen| && seen[k].Some? && seen[k].value != [] ==>
            exists i :: 0 <= i < n && fetches[i].Fetched? && fetches[i].cfg.active
              && seen[k].value <= Target(fetches[i].cfg, worlds[i])
      {
        Iterate(fetches[n], worlds[n]);
      }
    }
  }
}
