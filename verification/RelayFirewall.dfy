/** The relay's firewall: an approved/denied configuration compiled into an ordered first-match chain,
    installed by a command sequence and rebuilt or removed on every loop iteration. */
module RelayFirewall {
  import opened Wrappers
  import opened Addresses

  const TUNNEL := "vulna-wg0"

  datatype Packet = Packet(inIface: string, outIface: string, dst: IP, established: bool)

  datatype Verdict = Accept | Reject | Drop

  /** A rule of the forward chain; an absent part matches anything. */
  datatype Rule = Rule(inIface: string, outIface: Option<string>, dst: Option<Prefix>, established: bool,
                       verdict: Verdict)

  datatype NatRule = Masquerade(src: IP, dst: Prefix, outIface: string)

  type Cidr = p: Prefix | p.bits <= BitLen(p.family) witness Prefix(V4, 0, 0)

  datatype Config = Config(active: bool, server: IP, approved: seq<Cidr>, denied: seq<Cidr>)

  ghost predicate WellFormed(r: Rule) { r.dst.Some? ==> r.dst.value.bits <= BitLen(r.dst.value.family) }

  predicate Matches(r: Rule, p: Packet)
    requires WellFormed(r)
  {
    && r.inIface == p.inIface
    && (r.outIface.Some? ==> r.outIface.value == p.outIface)
    && (r.dst.Some? ==> Contains(r.dst.value, p.dst))
    && (r.established ==> p.established)
  }

  /** First match decides; no match returns to the parent chain. */
  function Decide(rules: seq<Rule>, p: Packet): Option<Verdict>
    requires forall r :: r in rules ==> WellFormed(r)
  {
    if rules == [] then None
    else if Matches(rules[0], p) then Some(rules[0].verdict)
    else Decide(rules[1..], p)
  }

  // ----- The compilation -----

  type Routes = Cidr -> string

  function DenyRules(denied: seq<Cidr>): (r: seq<Rule>)
    ensures |r| == |denied|
    ensures forall i :: 0 <= i < |r| ==> r[i] == Rule(TUNNEL, None, Some(denied[i]), false, Reject)
  {
    seq(|denied|, i requires 0 <= i < |denied| => Rule(TUNNEL, None, Some(denied[i]), false, Reject))
  }

  function AllowRules(approved: seq<Cidr>, routes: Routes): (r: seq<Rule>)
    ensures |r| == |approved|
    ensures forall i :: 0 <= i < |r| ==>
      r[i] == Rule(TUNNEL, Some(routes(approved[i])), Some(approved[i]), false, Accept)
  {
    seq(|approved|, i requires 0 <= i < |approved| =>
      Rule(TUNNEL, Some(routes(approved[i])), Some(approved[i]), false, Accept))
  }

  function ReturnRules(lans: seq<string>): (r: seq<Rule>)
    ensures |r| == |lans|
    ensures forall i :: 0 <= i < |r| ==> r[i] == Rule(lans[i], Some(TUNNEL), None, true, Accept)
  {
    seq(|lans|, i requires 0 <= i < |lans| => Rule(lans[i], Some(TUNNEL), None, true, Accept))
  }

  const LAST_RULE := Rule(TUNNEL, None, None, false, Drop)

  function Compiled(cfg: Config, routes: Routes, lans: seq<string>): (r: seq<Rule>)
    ensures forall x :: x in r ==> WellFormed(x)
  {
    DenyRules(cfg.denied) + AllowRules(cfg.approved, routes) + ReturnRules(lans) + [LAST_RULE]
  }

  function NatCompiled(cfg: Config, routes: Routes): seq<NatRule> {
    seq(|cfg.approved|, i requires 0 <= i < |cfg.approved| =>
      Masquerade(cfg.server, cfg.approved[i], routes(cfg.approved[i])))
  }

  function LanSet(cfg: Config, routes: Routes): set<string> {
    set c | c in cfg.approved :: routes(c)
  }

  /** The interfaces in the order a map iteration happens to yield them. */
  ghost predicate OrderingOf(lans: seq<string>, s: set<string>) {
    && (forall i, j :: 0 <= i < j < |lans| ==> lans[i] != lans[j])
    && (forall x :: x in lans <==> x in s)
  }

  // ----- What the chain means -----

  ghost predicate DeniedDestination(cfg: Config, p: Packet) {
    exists i :: 0 <= i < |cfg.denied| && Contains(cfg.denied[i], p.dst)
  }

  ghost predicate ApprovedRoute(cfg: Config, routes: Routes, p: Packet) {
    exists i :: 0 <= i < |cfg.approved| && Contains(cfg.approved[i], p.dst) && routes(cfg.approved[i]) == p.outIface
  }

  /** The reply path, which touches tunnel packets only if an approved range is routed into the tunnel. */
  ghost predicate ReplyPath(lans: seq<string>, p: Packet) {
    p.inIface in lans && p.outIface == TUNNEL && p.established
  }

  lemma {:induction false} DecideAppend(a: seq<Rule>, b: seq<Rule>, p: Packet)
    requires forall r :: r in a + b ==> WellFormed(r)
    ensures (forall r :: r in a ==> WellFormed(r)) && (forall r :: r in b ==> WellFormed(r))
    ensures Decide(a + b, p) == if Decide(a, p).Some? then Decide(a, p) else Decide(b, p)
  {
    assert forall r :: r in a || r in b ==> r in a + b;
    if a == [] {
      assert a + b == b;
    } else {
      assert (a + b)[1..] == a[1..] + b;
      DecideAppend(a[1..], b, p);
    }
  }

  /** A block of rules with one verdict applies it exactly when one of them matches. */
  lemma {:induction false} DecideBlock(rules: seq<Rule>, v: Verdict, p: Packet)
    requires forall r :: r in rules ==> WellFormed(r) && r.verdict == v
    ensures Decide(rules, p) == if exists i :: 0 <= i < |rules| && Matches(rules[i], p) then Some(v) else None
  {
    if rules != [] {
      DecideBlock(rules[1..], v, p);
      if exists i :: 0 <= i < |rules| && Matches(rules[i], p) {
        var i :| 0 <= i < |rules| && Matches(rules[i], p);
        assert i > 0 ==> Matches(rules[1..][i - 1], p);
      }
      if exists i :: 0 <= i < |rules[1..]| && Matches(rules[1..][i], p) {
        var i :| 0 <= i < |rules[1..]| && Matches(rules[1..][i], p);
        assert Matches(rules[i + 1], p);
      }
    }
  }

  lemma DenyMeans(cfg: Config, p: Packet)
    ensures Decide(DenyRules(cfg.denied), p)
      == if p.inIface == TUNNEL && DeniedDestination(cfg, p) then Some(Reject) else None
  {
    var rules := DenyRules(cfg.denied);
    DecideBlock(rules, Reject, p);
    assert forall i :: 0 <= i < |rules| ==>
      (Matches(rules[i], p) <==> p.inIface == TUNNEL && Contains(cfg.denied[i], p.dst));
  }

  lemma AllowMeans(cfg: Config, routes: Routes, p: Packet)
    ensures Decide(AllowRules(cfg.approved, routes), p)
      == if p.inIface == TUNNEL && ApprovedRoute(cfg, routes, p) then Some(Accept) else None
  {
    var rules := AllowRules(cfg.approved, routes);
    DecideBlock(rules, Accept, p);
    assert forall i :: 0 <= i < |rules| ==>
      (Matches(rules[i], p) <==>
        p.inIface == TUNNEL && Contains(cfg.approved[i], p.dst) && routes(cfg.approved[i]) == p.outIface);
  }

  lemma ReturnMeans(lans: seq<string>, p: Packet)
    ensures Decide(ReturnRules(lans), p) == if ReplyPath(lans, p) then Some(Accept) else None
  {
    var rules := ReturnRules(lans);
    DecideBlock(rules, Accept, p);
    assert forall i :: 0 <= i < |rules| ==>
      (Matches(rules[i], p) <==> lans[i] == p.inIface && p.outIface == TUNNEL && p.established);
  }

  /** Meaning of the chain, for every packet and any order of the return rules. */
  lemma CompilationMeans(cfg: Config, routes: Routes, lans: seq<string>, p: Packet)
    ensures Decide(Compiled(cfg, routes, lans), p) ==
      if p.inIface == TUNNEL then
        (if DeniedDestination(cfg, p) then Some(Reject)
         else if ApprovedRoute(cfg, routes, p) || ReplyPath(lans, p) then Some(Accept)
         else Some(Drop))
      else if ReplyPath(lans, p) then Some(Accept) else None
  {
    var a, b, c := DenyRules(cfg.denied), AllowRules(cfg.approved, routes), ReturnRules(lans);
    DenyMeans(cfg, p);
    AllowMeans(cfg, routes, p);
    ReturnMeans(lans, p);
    DecideAppend(a + b + c, [LAST_RULE], p);
    DecideAppend(a + b, c, p);
    DecideAppend(a, b, p);
    assert [LAST_RULE][1..] == [];
    assert Decide([LAST_RULE], p) == if p.inIface == TUNNEL then Some(Drop) else None;
  }

  predicate Masquerades(r: NatRule, src: IP, dst: IP, outIface: string)
    requires r.dst.bits <= BitLen(r.dst.family)
  {
    r.src == src && Contains(r.dst, dst) && r.outIface == outIface
  }

  /** Traffic is masqueraded exactly if it comes from the server and goes to an approved range over that
      range's own route. */
  lemma MasqueradeMeans(cfg: Config, routes: Routes, src: IP, dst: IP, outIface: string)
    ensures (forall r :: r in NatCompiled(cfg, routes) ==> r.dst.bits <= BitLen(r.dst.family))
      && ((exists r :: r in NatCompiled(cfg, routes) && Masquerades(r, src, dst, outIface)) <==>
          src == cfg.server && exists c :: c in cfg.approved && Contains(c, dst) && routes(c) == outIface)
  {
    var rules := NatCompiled(cfg, routes);
    hide Contains;
    if c :| c in cfg.approved && Contains(c, dst) && routes(c) == outIface {
      var i :| 0 <= i < |cfg.approved| && cfg.approved[i] == c;
      assert rules[i] in rules && rules[i] == Masquerade(cfg.server, c, outIface);
    }
  }

  /** With no approved range routed into the tunnel, a tunnel packet is accepted exactly when its
      destination is in no denied range and in an approved one routed to its output interface. */
  lemma TunnelPolicy(cfg: Config, routes: Routes, lans: seq<string>, p: Packet)
    requires OrderingOf(lans, LanSet(cfg, routes)) && p.inIface == "vulna-wg0"
    requires forall c :: c in cfg.approved ==> routes(c) != "vulna-wg0"
    ensures Decide(Compiled(cfg, routes, lans), p) == Some(Accept)
      <==> !DeniedDestination(cfg, p) && ApprovedRoute(cfg, routes, p)
  {
    CompilationMeans(cfg, routes, lans, p);
  }

  /** While the chain is being built it is a prefix of the compilation: what a prefix decides, the whole
      chain decides the same way. */
  lemma PrefixDecidesAlike(cfg: Config, routes: Routes, lans: seq<string>, n: nat, p: Packet)
    requires n <= |Compiled(cfg, routes, lans)|
    ensures Decide(Compiled(cfg, routes, lans)[..n], p).Some? ==>
      Decide(Compiled(cfg, routes, lans)[..n], p) == Decide(Compiled(cfg, routes, lans), p)
  {
    var r := Compiled(cfg, routes, lans);
    assert r == r[..n] + r[n..];
    DecideAppend(r[..n], r[n..], p);
  }
}
