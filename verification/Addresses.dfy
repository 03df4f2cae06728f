/** IP addresses and prefixes as sets of addresses. */
module Addresses {
  import opened Arithmetic

  // ----- Addresses -----

  datatype Family = V4 | V6

  function BitLen(f: Family): nat {
    match f
    case V4 => 32
    case V6 => 128
  }

  datatype IP = IP(family: Family, value: nat)

  ghost predicate ValidIP(ip: IP) { ip.value < Pow2(BitLen(ip.family)) }

  datatype Prefix = Prefix(family: Family, addr: nat, bits: nat)

  ghost predicate ValidPrefix(p: Prefix) {
    p.bits <= BitLen(p.family) && p.addr < Pow2(BitLen(p.family))
  }

  function HostBits(p: Prefix): nat
    requires p.bits <= BitLen(p.family)
  {
    BitLen(p.family) - p.bits
  }

  /** Clears the host bits. */
  function Masked(p: Prefix): Prefix
    requires p.bits <= BitLen(p.family)
  {
    SameInterval(p.addr, p.addr, Pow2(HostBits(p)));
    p.(addr := p.addr / Pow2(HostBits(p)) * Pow2(HostBits(p)))
  }

  /** `netip.Prefix.Contains`: same family and equal network bits. */
  predicate Contains(p: Prefix, ip: IP)
    requires p.bits <= BitLen(p.family)
  {
    p.family == ip.family && p.addr / Pow2(HostBits(p)) == ip.value / Pow2(HostBits(p))
  }

  /** `netip.Prefix.Overlaps`: same family and equal bits up to the shorter length. */
  predicate Overlaps(p: Prefix, q: Prefix)
    requires p.bits <= BitLen(p.family) && q.bits <= BitLen(q.family)
  {
    var h := if p.bits <= q.bits then p.(addr := 0) else q.(addr := 0);
    p.family == q.family && p.addr / Pow2(HostBits(h)) == q.addr / Pow2(HostBits(h))
  }

  /** Equal network bits stay equal for every shorter network. */
  lemma ShorterNetwork(x: nat, y: nat, h: nat, h': nat)
    requires h <= h' && x / Pow2(h) == y / Pow2(h)
    ensures x / Pow2(h') == y / Pow2(h')
  {
    hide Pow2;
    Pow2Adds(h, h' - h);
    QuotientTwice(x, Pow2(h), Pow2(h' - h));
    QuotientTwice(y, Pow2(h), Pow2(h' - h));
  }

  // ----- Prefixes are intervals -----

  lemma MaskedIsInterval(p: Prefix, ip: IP)
    requires p.bits <= BitLen(p.family)
    ensures Contains(p, ip) <==>
      p.family == ip.family && Masked(p).addr <= ip.value < Masked(p).addr + Pow2(HostBits(p))
    ensures Contains(Masked(p), ip) <==> Contains(p, ip)
    ensures Masked(p).addr <= p.addr
  {
    hide Pow2;
    SameInterval(ip.value, p.addr, Pow2(HostBits(p)));
  }

  /** A prefix never reaches past the last address of its family. */
  lemma PrefixFits(p: Prefix)
    requires ValidPrefix(p)
    ensures Masked(p).addr + Pow2(HostBits(p)) <= Pow2(BitLen(p.family))
  {
    hide Pow2;
    Pow2Adds(p.bits, HostBits(p));
    LastInterval(p.addr, Pow2(HostBits(p)), Pow2(p.bits));
  }

  /** Every address of `t` is an address of `a`. */
  ghost predicate Within(t: Prefix, a: Prefix)
    requires t.bits <= BitLen(t.family) && a.bits <= BitLen(a.family)
  {
    forall ip :: ValidIP(ip) && Contains(t, ip) ==> Contains(a, ip)
  }

  /** The bit-length and network-address test is set inclusion. */
  lemma ContainmentTest(a: Prefix, t: Prefix)
    requires ValidPrefix(a) && ValidPrefix(t)
    ensures (a.bits <= t.bits && Contains(a, IP(t.family, Masked(t).addr))) <==> Within(t, a)
  {
    hide Pow2;
    var net := IP(t.family, Masked(t).addr);
    PrefixFits(t);
    MaskedIsInterval(t, net);
    if a.bits <= t.bits && Contains(a, net) {
      forall ip | ValidIP(ip) && Contains(t, ip) ensures Contains(a, ip) {
        ShorterNetwork(ip.value, net.value, HostBits(t), HostBits(a));
      }
    }
    if Within(t, a) {
      var top := IP(t.family, net.value + Pow2(HostBits(t)) - 1);
      MaskedIsInterval(t, top);
      assert Contains(a, net) && Contains(a, top);
      MaskedIsInterval(a, net);
      MaskedIsInterval(a, top);
      Pow2Monotone(HostBits(a), HostBits(t));
    }
  }

  /** The overlap test is a common address. */
  lemma OverlapTest(p: Prefix, q: Prefix)
    requires ValidPrefix(p) && ValidPrefix(q)
    ensures Overlaps(p, q) <==> exists ip :: ValidIP(ip) && Contains(p, ip) && Contains(q, ip)
  {
    if p.bits <= q.bits { OverlapOrdered(p, q); } else { OverlapOrdered(q, p); }
  }

  lemma OverlapOrdered(p: Prefix, q: Prefix)
    requires ValidPrefix(p) && ValidPrefix(q) && p.bits <= q.bits
    ensures p.family == q.family && p.addr / Pow2(HostBits(p)) == q.addr / Pow2(HostBits(p))
      <==> exists ip :: ValidIP(ip) && Contains(p, ip) && Contains(q, ip)
  {
    if p.family == q.family && p.addr / Pow2(HostBits(p)) == q.addr / Pow2(HostBits(p)) {
      var ip := IP(q.family, q.addr);
      assert ValidIP(ip) && Contains(p, ip) && Contains(q, ip);
    }
    if exists ip :: ValidIP(ip) && Contains(p, ip) && Contains(q, ip) {
      var ip :| ValidIP(ip) && Contains(p, ip) && Contains(q, ip);
      ShorterNetwork(q.addr, ip.value, HostBits(q), HostBits(p));
    }
  }

  /** The number of addresses of a prefix. */
  function AddressCount(p: Prefix): nat
    requires p.bits <= BitLen(p.family)
  {
    Pow2(HostBits(p))
  }

  /** It is the number of addresses the prefix contains. */
  lemma AddressesCounted(p: Prefix)
    requires ValidPrefix(p)
    ensures |set v: nat | v < Pow2(BitLen(p.family)) && Contains(p, IP(p.family, v))| == AddressCount(p)
  {
    PrefixFits(p);
    var from, n := Masked(p).addr, Pow2(HostBits(p));
    IntervalSize(from, n);
    forall v: nat ensures Contains(p, IP(p.family, v)) <==> from <= v < from + n {
      MaskedIsInterval(p, IP(p.family, v));
    }
    hide Contains, Pow2;
    assert (set v: nat | v < Pow2(BitLen(p.family)) && Contains(p, IP(p.family, v))) == Interval(from, n);
  }

  ghost function Interval(from: nat, n: nat): set<nat> {
    if n == 0 then {} else Interval(from, n - 1) + {from + n - 1}
  }

  lemma {:induction false} IntervalSize(from: nat, n: nat)
    ensures |Interval(from, n)| == n
    ensures forall v :: v in Interval(from, n) <==> from <= v < from + n
  {
    if n > 0 { IntervalSize(from, n - 1); }
  }
}
