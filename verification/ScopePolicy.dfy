/** The Scout's local policy as a safety boundary: which targets, and which jobs, it lets through. */
module ScopePolicy {
  import opened Wrappers
  import opened Arithmetic
  import opened Addresses

  /** A target string after parsing: a bare address, a CIDR, or neither. */
  datatype Target = Address(ip: IP) | Cidr(prefix: Prefix) | Invalid(text: string)

  ghost predicate ValidTarget(t: Target) {
    match t
    case Address(ip) => ValidIP(ip)
    case Cidr(p) => ValidPrefix(p)
    case Invalid(_) => true
  }

  /** The addresses a target denotes. */
  predicate Covers(t: Target, ip: IP)
    requires t.Cidr? ==> t.prefix.bits <= BitLen(t.prefix.family)
  {
    match t
    case Address(a) => a == ip
    case Cidr(p) => Contains(p, ip)
    case Invalid(_) => false
  }

  /** `parseTargetPrefix`. */
  function TargetPrefix(t: Target): Option<Prefix>
    requires t.Cidr? ==> t.prefix.bits <= BitLen(t.prefix.family)
  {
    match t
    case Address(ip) => Some(Prefix(ip.family, ip.value, BitLen(ip.family)))
    case Cidr(p) => Some(Masked(p))
    case Invalid(_) => None
  }

  lemma TargetPrefixDenotes(t: Target)
    requires ValidTarget(t) && !t.Invalid?
    ensures ValidPrefix(TargetPrefix(t).value)
    ensures Masked(TargetPrefix(t).value) == TargetPrefix(t).value
    ensures forall ip :: Contains(TargetPrefix(t).value, ip) <==> Covers(t, ip)
  {
    match t
    case Address(a) =>
      assert Pow2(0) == 1;
    case Cidr(p) =>
      hide Pow2;
      MaskedIsInterval(p, IP(p.family, p.addr));
      SameInterval(p.addr, p.addr, Pow2(HostBits(p)));
      forall ip ensures Contains(Masked(p), ip) <==> Contains(p, ip) { MaskedIsInterval(p, ip); }
  }

  const PRIVATE_BLOCKS: seq<Prefix> := [
    // private use, loopback, link-local unicast, IPv4 link-local multicast
    Prefix(V4, 0x0A00_0000, 8), Prefix(V4, 0xAC10_0000, 12), Prefix(V4, 0xC0A8_0000, 16),
    Prefix(V4, 0x7F00_0000, 8), Prefix(V4, 0xA9FE_0000, 16), Prefix(V4, 0xE000_0000, 24),
    Prefix(V6, 0xFC00_0000_0000_0000_0000_0000_0000_0000, 7), Prefix(V6, 1, 128),
    Prefix(V6, 0xFE80_0000_0000_0000_0000_0000_0000_0000, 10)]

  /** `isPrivatePrefix` looks at the network address only. */
  predicate PrivateNetwork(t: Prefix) {
    LinkLocalMulticast6(t) ||
    exists k :: 0 <= k < |PRIVATE_BLOCKS| && PRIVATE_BLOCKS[k].bits <= BitLen(PRIVATE_BLOCKS[k].family)
      && Contains(PRIVATE_BLOCKS[k], IP(t.family, t.addr))
  }

  /** Multicast with link-local scope, whatever the flags. */
  predicate LinkLocalMulticast6(t: Prefix) {
    var first16 := t.addr / Pow2(112);
    t.family == V6 && first16 / 256 == 0xFF && first16 % 16 == 2
  }

  /** The addresses that count as private, octet by octet: 10/8, 172.16/12, 192.168/16, 127/8, 169.254/16 and
      224.0.0/24; and by their first sixteen bits: fc00 to fdff, fe80 to febf, ff02 with any flags, and ::1. */
  predicate PrivateAddress(ip: IP) {
    match ip.family
    case V4 =>
      var a, b, c := ip.value / 0x100_0000, ip.value / 0x1_0000 % 256, ip.value / 0x100 % 256;
      || a == 10 || (a == 172 && 16 <= b <= 31) || (a == 192 && b == 168)
      || a == 127 || (a == 169 && b == 254) || (a == 224 && b == 0 && c == 0)
    case V6 =>
      var first := ip.value / 0x1_0000_0000_0000_0000_0000_0000_0000;
      || ip.value == 1 || 0xFC00 <= first <= 0xFDFF || 0xFE80 <= first <= 0xFEBF
      || (first / 256 == 0xFF && first % 16 == 2)
  }

  /** The table of blocks says the same. */
  lemma PrivateMeans(t: Prefix)
    requires ValidPrefix(t)
    ensures PrivateNetwork(t) <==> PrivateAddress(IP(t.family, t.addr))
  {
    match t.family
    case V4 => Private4(t);
    case V6 => Private6(t);
  }

  lemma Private4(t: Prefix)
    requires t.family == V4
    ensures PrivateNetwork(t) <==> PrivateAddress(IP(V4, t.addr))
  {
    var ip := IP(V4, t.addr);
    BlockPowers();
    BlocksOf4(t.addr);
    hide Pow2;
    assert Contains(PRIVATE_BLOCKS[0], ip) <==> t.addr / 0x100_0000 == 10;
    assert Contains(PRIVATE_BLOCKS[1], ip) <==> t.addr / 0x100_0000 == 172 && 16 <= t.addr / 0x1_0000 % 256 <= 31;
    assert Contains(PRIVATE_BLOCKS[2], ip) <==> t.addr / 0x100_0000 == 192 && t.addr / 0x1_0000 % 256 == 168;
    assert Contains(PRIVATE_BLOCKS[3], ip) <==> t.addr / 0x100_0000 == 127;
    assert Contains(PRIVATE_BLOCKS[4], ip) <==> t.addr / 0x100_0000 == 169 && t.addr / 0x1_0000 % 256 == 254;
    assert Contains(PRIVATE_BLOCKS[5], ip) <==>
      t.addr / 0x100_0000 == 224 && t.addr / 0x1_0000 % 256 == 0 && t.addr / 0x100 % 256 == 0;
    hide Contains;
  }

  lemma Private6(t: Prefix)
    requires t.family == V6
    ensures PrivateNetwork(t) <==> PrivateAddress(IP(V6, t.addr))
  {
    var ip, m := IP(V6, t.addr), 0x1_0000_0000_0000_0000_0000_0000_0000;
    BlockPowers();
    BlocksOf6(t.addr);
    hide Pow2;
    assert Contains(PRIVATE_BLOCKS[6], ip) <==> 0xFC00 <= t.addr / m <= 0xFDFF;
    assert Contains(PRIVATE_BLOCKS[7], ip) <==> t.addr == 1;
    assert Contains(PRIVATE_BLOCKS[8], ip) <==> 0xFE80 <= t.addr / m <= 0xFEBF;
    hide Contains;
  }

  lemma BlockPowers()
    ensures Pow2(0) == 1 && Pow2(8) == 0x100 && Pow2(16) == 0x1_0000 && Pow2(20) == 0x10_0000 && Pow2(24) == 0x100_0000
    ensures Pow2(112) == 0x1_0000_0000_0000_0000_0000_0000_0000
    ensures Pow2(118) == 64 * Pow2(112) && Pow2(121) == 512 * Pow2(112)
  {
    FirstPowers();
    hide Pow2;
    Pow2Adds(8, 8);
    Pow2Adds(16, 4);
    Pow2Adds(16, 8);
    Pow2Adds(16, 16);
    Pow2Adds(32, 16);
    Pow2Adds(48, 48);
    Pow2Adds(96, 16);
    Pow2Adds(6, 112);
    Pow2Adds(9, 112);
  }

  lemma FirstPowers()
    ensures Pow2(0) == 1 && Pow2(4) == 16 && Pow2(6) == 64 && Pow2(8) == 256 && Pow2(9) == 512
  {
    assert Pow2(4) == 16;
    Pow2Adds(4, 4);
  }

  lemma BlocksOf4(v: nat)
    ensures v / 0x100_0000 == 0x0A00_0000 / 0x100_0000 <==> v / 0x100_0000 == 10
    ensures v / 0x10_0000 == 0xAC10_0000 / 0x10_0000 <==> v / 0x100_0000 == 172 && 16 <= v / 0x1_0000 % 256 <= 31
    ensures v / 0x1_0000 == 0xC0A8_0000 / 0x1_0000 <==> v / 0x100_0000 == 192 && v / 0x1_0000 % 256 == 168
    ensures v / 0x100_0000 == 0x7F00_0000 / 0x100_0000 <==> v / 0x100_0000 == 127
    ensures v / 0x1_0000 == 0xA9FE_0000 / 0x1_0000 <==> v / 0x100_0000 == 169 && v / 0x1_0000 % 256 == 254
    ensures v / 0x100 == 0xE000_0000 / 0x100 <==>
      v / 0x100_0000 == 224 && v / 0x1_0000 % 256 == 0 && v / 0x100 % 256 == 0
  {
  }

  lemma BlocksOf6(v: nat)
    ensures var m := 0x1_0000_0000_0000_0000_0000_0000_0000;
      && (v / (512 * m) == 0xFC00_0000_0000_0000_0000_0000_0000_0000 / (512 * m) <==> 0xFC00 <= v / m <= 0xFDFF)
      && (v / (64 * m) == 0xFE80_0000_0000_0000_0000_0000_0000_0000 / (64 * m) <==> 0xFE80 <= v / m <= 0xFEBF)
  {
  }

  datatype Limits = Limits(maxHosts: int, maxParallelHosts: int, maxPacketsPerSecond: int, maxDurationSeconds: int)

  datatype Policy = Policy(policyVersion: int, probeID: string, siteID: string, approved: seq<Prefix>,
                           denied: seq<Prefix>, allowPublic: bool, modes: set<string>, plugins: set<string>,
                           activeWeb: bool, credentialed: bool, limits: Limits)

  ghost predicate ValidPolicy(p: Policy) {
    && (forall k :: 0 <= k < |p.approved| ==> ValidPrefix(p.approved[k]))
    && (forall k :: 0 <= k < |p.denied| ==> ValidPrefix(p.denied[k]))
  }

  ghost predicate Disjoint(a: Prefix, b: Prefix)
    requires a.bits <= BitLen(a.family) && b.bits <= BitLen(b.family)
  {
    forall ip :: ValidIP(ip) ==> !(Contains(a, ip) && Contains(b, ip))
  }

  ghost predicate InScope(p: Policy, t: Prefix)
    requires ValidPolicy(p) && t.bits <= BitLen(t.family)
  {
    exists k :: 0 <= k < |p.approved| && Within(t, p.approved[k])
  }

  ghost predicate OutOfDenied(p: Policy, t: Prefix)
    requires ValidPolicy(p) && t.bits <= BitLen(t.family)
  {
    forall k :: 0 <= k < |p.denied| ==> Disjoint(p.denied[k], t)
  }

  datatype Verdict = Allowed | Unparsed | OutsideScope | Denied | Public

  /** What `AllowsTarget` means, in terms of sets of addresses. */
  ghost function VerdictOf(p: Policy, target: Target): Verdict
    requires ValidPolicy(p) && ValidTarget(target)
  {
    if target.Invalid? then Unparsed
    else
      var t := TargetPrefix(target).value;
      if !InScope(p, t) then OutsideScope
      else if !OutOfDenied(p, t) then Denied
      else if !p.allowPublic && !PrivateAddress(IP(t.family, t.addr)) then Public
      else Allowed
  }

  /** `contains`: some single approved prefix holds the whole target. */
  method ApprovedContains(p: Policy, t: Prefix) returns (b: bool)
    requires ValidPolicy(p) && ValidPrefix(t) && Masked(t) == t
    ensures b <==> InScope(p, t)
  {
    for i := 0 to |p.approved|
      invariant forall k :: 0 <= k < i ==> !Within(t, p.approved[k])
    {
      var a := p.approved[i];
      ContainmentTest(a, t);
      if a.bits <= t.bits && Contains(a, IP(t.family, t.addr)) { return true; }
    }
    return false;
  }

  method AllowsTarget(p: Policy, target: Target) returns (v: Verdict)
    requires ValidPolicy(p) && ValidTarget(target)
    ensures v == VerdictOf(p, target)
  {
    if target.Invalid? { return Unparsed; }
    TargetPrefixDenotes(target);
    var t := TargetPrefix(target).value;
    var contained := ApprovedContains(p, t);
    if !contained { return OutsideScope; }
    for i := 0 to |p.denied|
      invariant forall k :: 0 <= k < i ==> Disjoint(p.denied[k], t)
    {
      OverlapTest(p.denied[i], t);
      if Overlaps(p.denied[i], t) { return Denied; }
    }
    PrivateMeans(t);
    if !p.allowPublic && !PrivateNetwork(t) { return Public; }
    return Allowed;
  }

  /** The scope test is per prefix: a target covered only by several approved prefixes together is refused. */
  lemma UnionIsNotEnough()
    ensures var a, b, t := Prefix(V4, 0, 25), Prefix(V4, 128, 25), Prefix(V4, 0, 24);
      && (forall ip :: Contains(t, ip) ==> Contains(a, ip) || Contains(b, ip))
      && !Within(t, a) && !Within(t, b)
  {
    var a, b, t := Prefix(V4, 0, 25), Prefix(V4, 128, 25), Prefix(V4, 0, 24);
    SmallPowers();
    hide Pow2;
    assert ValidIP(IP(V4, 0)) && ValidIP(IP(V4, 128));
    assert Contains(t, IP(V4, 0)) && Contains(t, IP(V4, 128));
    assert !Contains(a, IP(V4, 128)) && !Contains(b, IP(V4, 0));
  }

  lemma SmallPowers()
    ensures Pow2(7) == 128 && Pow2(8) == 256 && Pow2(32) > 256
  {
    assert Pow2(3) == 8;
    assert Pow2(4) == 16;
    Pow2Adds(3, 4);
    Pow2Monotone(8, 32);
  }

  // ----- Counting addresses -----

  const SATURATION := 0x4000_0000

  function Min(a: int, b: int): int { if a <= b then a else b }

  /** `hostCount`, whose cap cannot be told from the true count below it. */
  function HostCount(t: Prefix): (n: nat)
    requires t.bits <= BitLen(t.family)
  {
    if HostBits(t) >= 30 then SATURATION else Pow2(HostBits(t))
  }

  lemma HostCountSaturates(t: Prefix)
    requires t.bits <= BitLen(t.family)
    ensures HostCount(t) == Min(SATURATION, AddressCount(t))
  {
    assert Pow2(10) == 1024;
    Pow2Adds(10, 10);
    Pow2Adds(20, 10);
    assert Pow2(30) == SATURATION;
    Pow2Monotone(30, HostBits(t));
    Pow2Monotone(HostBits(t), 30);
  }

  function TrueCount(targets: seq<Target>): nat
    requires forall k :: 0 <= k < |targets| && targets[k].Cidr? ==>
      targets[k].prefix.bits <= BitLen(targets[k].prefix.family)
  {
    if targets == [] then 0
    else
      var t := TargetPrefix(targets[|targets| - 1]);
      TrueCount(targets[..|targets| - 1]) + if t.Some? then AddressCount(t.value) else 0
  }

  // ----- Whole jobs -----

  datatype Stage = Stage(plugin: string, profile: string)

  datatype Job = Job(schemaVersion: int, profileVersion: int, notBefore: Option<int>, expiresAt: Option<int>,
                     policyVersion: int, probeID: string, siteID: string, mode: string, targets: seq<Target>,
                     limits: Limits, workflow: seq<Stage>, hasCredentials: bool)

  datatype JobError =
    | BadSchema | BadProfile | BadNotBefore | BadExpiry | Expired | NotYetValid | NoPolicy
    | PolicyVersionMismatch | WrongProbe | WrongSite | ModeRefused | NoTargets
    | TargetRefused(verdict: Verdict) | TooManyHosts | LimitExceeded | PluginRefused | ActiveScanRefused
    | CredentialsRefused

  ghost predicate ValidTargets(targets: seq<Target>) {
    forall k :: 0 <= k < |targets| ==> ValidTarget(targets[k])
  }

  ghost function FirstRefusal(p: Policy, targets: seq<Target>): Option<Verdict>
    requires ValidPolicy(p) && ValidTargets(targets)
  {
    if targets == [] then None
    else
      var before := FirstRefusal(p, targets[..|targets| - 1]);
      var v := VerdictOf(p, targets[|targets| - 1]);
      if before.Some? then before else if v.Allowed? then None else Some(v)
  }

  /** The first refused target decides. */
  lemma {:induction false} FirstRefusalMeans(p: Policy, targets: seq<Target>, v: Verdict)
    requires ValidPolicy(p) && ValidTargets(targets)
    ensures FirstRefusal(p, targets) == Some(v) <==>
      exists k :: 0 <= k < |targets| && FirstRefusedAt(p, targets, k, v)
  {
    hide VerdictOf;
    if targets != [] {
      var last := |targets| - 1;
      var before := targets[..last];
      FirstRefusalMeans(p, before, v);
      NoRefusalMeansAllowed(p, before);
      forall k | 0 <= k < last ensures FirstRefusedAt(p, before, k, v) <==> FirstRefusedAt(p, targets, k, v) {
        assert forall j :: 0 <= j <= k ==> before[j] == targets[j];
      }
      assert FirstRefusedAt(p, targets, last, v) <==>
        FirstRefusal(p, before).None? && VerdictOf(p, targets[last]) == v && !v.Allowed? by {
        assert forall j :: 0 <= j < last ==> before[j] == targets[j];
      }
      hide FirstRefusedAt;
      if FirstRefusal(p, before).Some? { RefusedOnce(p, before, targets, v); }
    }
  }

  lemma RefusedOnce(p: Policy, before: seq<Target>, targets: seq<Target>, v: Verdict)
    requires ValidPolicy(p) && ValidTargets(targets) && ValidTargets(before) && targets != []
    requires before == targets[..|targets| - 1] && FirstRefusal(p, before).Some?
    ensures FirstRefusal(p, targets) == FirstRefusal(p, before)
  {
    hide VerdictOf;
  }

  ghost predicate FirstRefusedAt(p: Policy, targets: seq<Target>, k: nat, v: Verdict)
    requires ValidPolicy(p) && ValidTargets(targets) && k < |targets|
  {
    && VerdictOf(p, targets[k]) == v && !v.Allowed?
    && forall j :: 0 <= j < k ==> VerdictOf(p, targets[j]).Allowed?
  }

  lemma {:induction false} NoRefusalMeansAllowed(p: Policy, targets: seq<Target>)
    requires ValidPolicy(p) && ValidTargets(targets)
    ensures FirstRefusal(p, targets).None? <==> forall k :: 0 <= k < |targets| ==> VerdictOf(p, targets[k]).Allowed?
  {
    hide VerdictOf;
    if targets != [] {
      var before := targets[..|targets| - 1];
      NoRefusalMeansAllowed(p, before);
      assert forall k :: 0 <= k < |before| ==> before[k] == targets[k];
    }
  }

  lemma {:induction false} RefusalPersists(p: Policy, targets: seq<Target>, i: nat)
    requires ValidPolicy(p) && ValidTargets(targets) && i <= |targets|
    requires FirstRefusal(p, targets[..i]).Some?
    ensures FirstRefusal(p, targets) == FirstRefusal(p, targets[..i])
    decreases |targets|
  {
    hide VerdictOf;
    if i == |targets| {
      assert targets[..i] == targets;
    } else {
      var before := targets[..|targets| - 1];
      assert before[..i] == targets[..i];
      RefusalPersists(p, before, i);
    }
  }

  /** A ceiling of zero or less is none. */
  ghost predicate WithinLimits(job: Limits, ceiling: Limits) {
    && (ceiling.maxHosts > 0 ==> job.maxHosts <= ceiling.maxHosts)
    && (ceiling.maxParallelHosts > 0 ==> job.maxParallelHosts <= ceiling.maxParallelHosts)
    && (ceiling.maxPacketsPerSecond > 0 ==> job.maxPacketsPerSecond <= ceiling.maxPacketsPerSecond)
    && (ceiling.maxDurationSeconds > 0 ==> job.maxDurationSeconds <= ceiling.maxDurationSeconds)
  }

  /** `enforceLimits`: a loop over the table of declared limits and their ceilings. */
  method EnforceLimits(job: Limits, ceiling: Limits) returns (ok: bool)
    ensures ok <==> WithinLimits(job, ceiling)
  {
    var checks := [(job.maxHosts, ceiling.maxHosts), (job.maxParallelHosts, ceiling.maxParallelHosts),
                   (job.maxPacketsPerSecond, ceiling.maxPacketsPerSecond),
                   (job.maxDurationSeconds, ceiling.maxDurationSeconds)];
    assert WithinLimits(job, ceiling) <==>
      && (checks[0].1 > 0 ==> checks[0].0 <= checks[0].1) && (checks[1].1 > 0 ==> checks[1].0 <= checks[1].1)
      && (checks[2].1 > 0 ==> checks[2].0 <= checks[2].1) && (checks[3].1 > 0 ==> checks[3].0 <= checks[3].1);
    for i := 0 to |checks|
      invariant forall k :: 0 <= k < i ==> checks[k].1 > 0 ==> checks[k].0 <= checks[k].1
    {
      if checks[i].1 > 0 && checks[i].0 > checks[i].1 { return false; }
    }
    return true;
  }

  ghost predicate PluginsPermitted(p: Policy, workflow: seq<Stage>) {
    forall k :: 0 <= k < |workflow| ==> workflow[k].plugin == "" || workflow[k].plugin in p.plugins
  }

  ghost predicate ProfilesPermitted(p: Policy, workflow: seq<Stage>) {
    forall k :: 0 <= k < |workflow| && workflow[k].plugin == "zap" && workflow[k].profile == "limited_active" ==>
      p.activeWeb
  }

  /** A job the Scout may run: in time, for this probe and policy, inside the approved scope and outside
      every denied range, no wider than the host limit, within every ceiling, with permitted plugins. */
  ghost predicate Acceptable(job: Job, policy: Option<Policy>, now: int)
    requires policy.Some? ==> ValidPolicy(policy.value)
    requires ValidTargets(job.targets)
  {
    && job.schemaVersion == 1 && job.profileVersion >= 1
    && job.notBefore.Some? && job.expiresAt.Some? && job.notBefore.value <= now < job.expiresAt.value
    && policy.Some?
    && var p := policy.value;
       && job.policyVersion == p.policyVersion
       && (p.probeID != "" ==> job.probeID == p.probeID) && (p.siteID != "" ==> job.siteID == p.siteID)
       && job.mode in p.modes
       && job.targets != []
       && (forall k :: 0 <= k < |job.targets| ==> VerdictOf(p, job.targets[k]).Allowed?)
       && (0 < p.limits.maxHosts < SATURATION ==> TrueCount(job.targets) <= p.limits.maxHosts)
       && WithinLimits(job.limits, p.limits)
       && PluginsPermitted(p, job.workflow) && ProfilesPermitted(p, job.workflow)
       && (job.hasCredentials ==> p.credentialed)
  }

  method AllowsWorkflow(p: Policy, workflow: seq<Stage>) returns (r: Option<JobError>)
    ensures r == if !PluginsPermitted(p, workflow) then Some(PluginRefused)
                 else if !ProfilesPermitted(p, workflow) then Some(ActiveScanRefused) else None
  {
    for i := 0 to |workflow|
      invariant forall k :: 0 <= k < i ==> workflow[k].plugin == "" || workflow[k].plugin in p.plugins
    {
      if workflow[i].plugin != "" && workflow[i].plugin !in p.plugins { return Some(PluginRefused); }
    }
    for i := 0 to |workflow|
      invariant forall k :: 0 <= k < i && workflow[k].plugin == "zap" && workflow[k].profile == "limited_active" ==>
        p.activeWeb
    {
      if workflow[i].plugin != "zap" { continue; }
      if workflow[i].profile == "limited_active" && !p.activeWeb { return Some(ActiveScanRefused); }
    }
    return None;
  }

  /** The target loop of `VerifyJob`: the first refused target decides; otherwise the saturating total. */
  method VerifyTargets(p: Policy, targets: seq<Target>) returns (refusal: Option<Verdict>, total: int)
    requires ValidPolicy(p) && ValidTargets(targets)
    ensures refusal == FirstRefusal(p, targets)
    ensures refusal.None? ==> total == Min(SATURATION, TrueCount(targets))
  {
    hide VerdictOf, AddressCount, HostCount, TargetPrefix, Pow2;
    total := 0;
    for i := 0 to |targets|
      invariant FirstRefusal(p, targets[..i]).None?
      invariant total == Min(SATURATION, TrueCount(targets[..i]))
    {
      assert targets[..i + 1][..i] == targets[..i];
      var v := AllowsTarget(p, targets[i]);
      if !v.Allowed? {
        RefusalPersists(p, targets, i + 1);
        return Some(v), total;
      }
      AllowedIsParsed(p, targets[i]);
      var t := TargetPrefix(targets[i]).value;
      HostCountSaturates(t);
      total := total + HostCount(t);
      if total > SATURATION { total := SATURATION; }
    }
    assert targets[..|targets|] == targets;
    refusal := None;
  }

  lemma AllowedIsParsed(p: Policy, t: Target)
    requires ValidPolicy(p) && ValidTarget(t) && VerdictOf(p, t).Allowed?
    ensures TargetPrefix(t).Some? && ValidPrefix(TargetPrefix(t).value)
  {
    TargetPrefixDenotes(t);
  }

  lemma WorkflowRefusals(p: Policy, workflow: seq<Stage>)
    ensures PluginsPermitted(p, workflow) <==>
      !exists st :: st in workflow && st.plugin != "" && st.plugin !in p.plugins
    ensures ProfilesPermitted(p, workflow) <==> p.activeWeb || Stage("zap", "limited_active") !in workflow
  {
    if st :| st in workflow && st.plugin != "" && st.plugin !in p.plugins {
      var k :| 0 <= k < |workflow| && workflow[k] == st;
    }
    if Stage("zap", "limited_active") in workflow {
      var k :| 0 <= k < |workflow| && workflow[k] == Stage("zap", "limited_active");
    }
  }

  /** What each rejection says of the job. */
  ghost predicate Violates(job: Job, policy: Option<Policy>, now: int, e: JobError)
    requires policy.Some? ==> ValidPolicy(policy.value)
    requires ValidTargets(job.targets)
  {
    match e
    case BadSchema => job.schemaVersion != 1
    case BadProfile => job.profileVersion < 1
    case BadNotBefore => job.notBefore.None?
    case BadExpiry => job.expiresAt.None?
    case Expired => job.expiresAt.Some? && job.expiresAt.value <= now
    case NotYetValid => job.notBefore.Some? && now < job.notBefore.value
    case NoPolicy => policy.None?
    case PolicyVersionMismatch => policy.Some? && policy.value.policyVersion != job.policyVersion
    case WrongProbe => policy.Some? && policy.value.probeID !in {"", job.probeID}
    case WrongSite => policy.Some? && policy.value.siteID !in {"", job.siteID}
    case ModeRefused => policy.Some? && job.mode !in policy.value.modes
    case NoTargets => job.targets == []
    case TargetRefused(v) =>
      policy.Some? && exists k :: 0 <= k < |job.targets| && FirstRefusedAt(policy.value, job.targets, k, v)
    case TooManyHosts => policy.Some? && TrueCount(job.targets) > policy.value.limits.maxHosts > 0
    case LimitExceeded => policy.Some? && !WithinLimits(job.limits, policy.value.limits)
    case PluginRefused =>
      policy.Some? && exists st :: st in job.workflow && st.plugin != "" && st.plugin !in policy.value.plugins
    case ActiveScanRefused => policy.Some? && !policy.value.activeWeb && Stage("zap", "limited_active") in job.workflow
    case CredentialsRefused => policy.Some? && job.hasCredentials && !policy.value.credentialed
  }

  /** `VerifyJob` after the signature. */
  method VerifyJob(job: Job, policy: Option<Policy>, now: int) returns (rejected: Option<JobError>)
    requires policy.Some? ==> ValidPolicy(policy.value)
    requires ValidTargets(job.targets)
    ensures rejected.None? <==> Acceptable(job, policy, now)
    ensures rejected.Some? ==> Violates(job, policy, now, rejected.value)
  {
    hide VerdictOf, FirstRefusal, TrueCount, FirstRefusedAt, WithinLimits, PluginsPermitted, ProfilesPermitted;
    if job.schemaVersion != 1 { return Some(BadSchema); }
    if job.profileVersion < 1 { return Some(BadProfile); }
    if job.notBefore.None? { return Some(BadNotBefore); }
    if job.expiresAt.None? { return Some(BadExpiry); }
    if now >= job.expiresAt.value { return Some(Expired); }
    if now < job.notBefore.value { return Some(NotYetValid); }
    if policy.None? { return Some(NoPolicy); }
    var p := policy.value;
    if job.policyVersion != p.policyVersion { return Some(PolicyVersionMismatch); }
    if p.probeID != "" && job.probeID != p.probeID { return Some(WrongProbe); }
    if p.siteID != "" && job.siteID != p.siteID { return Some(WrongSite); }
    if job.mode !in p.modes { return Some(ModeRefused); }
    if |job.targets| == 0 { return Some(NoTargets); }
    var refusal, total := VerifyTargets(p, job.targets);
    NoRefusalMeansAllowed(p, job.targets);
    if refusal.Some? {
      FirstRefusalMeans(p, job.targets, refusal.value);
      return Some(TargetRefused(refusal.value));
    }
    if p.limits.maxHosts > 0 && total > p.limits.maxHosts { return Some(TooManyHosts); }
    var fits := EnforceLimits(job.limits, p.limits);
    if !fits { return Some(LimitExceeded); }
    var w := AllowsWorkflow(p, job.workflow);
    WorkflowRefusals(p, job.workflow);
    if w.Some? { return w; }
    if job.hasCredentials && !p.credentialed { return Some(CredentialsRefused); }
    return None;
  }
}
