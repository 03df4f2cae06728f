/** Splitting scan targets into chunks: subdivision along /24 boundaries and greedy packing. */
module Chunks {
  import opened Wrappers
  import opened Arithmetic
  import opened Addresses
  import opened ScopePolicy

  const MAX_INT32 := 0x7FFF_FFFF
  const MAX_SUBDIVIDE_PARTS := 4096
  const SUB_BITS := 24

  /** `prefixSize`, capped to avoid overflow. */
  function PrefixSize(p: Prefix): (n: nat)
    requires p.bits <= BitLen(p.family)
    ensures n > 0
  {
    if HostBits(p) >= 31 then MAX_INT32 else Pow2(HostBits(p))
  }

  lemma PrefixSizeSaturates(p: Prefix)
    requires p.bits <= BitLen(p.family)
    ensures PrefixSize(p) == Min(0x7FFF_FFFF, AddressCount(p))
  {
    assert Pow2(1) == 2;
    Pow2Values();
    hide Pow2;
    Pow2Adds(31, 1);
    Pow2Monotone(31, HostBits(p));
    Pow2Monotone(HostBits(p), 30);
    Pow2Adds(30, 1);
  }

  function UnitSize(u: Target): (n: nat)
    requires u.Cidr? ==> u.prefix.bits <= BitLen(u.prefix.family)
    ensures n > 0
  {
    if u.Cidr? then PrefixSize(u.prefix) else 1
  }

  function Size(units: seq<Target>): nat
    requires ValidTargets(units)
  {
    if units == [] then 0 else Size(units[..|units| - 1]) + UnitSize(units[|units| - 1])
  }

  function Flatten(chunks: seq<seq<Target>>): seq<Target> {
    if chunks == [] then [] else chunks[0] + Flatten(chunks[1..])
  }

  /** The true number of addresses of some targets, one for anything that is no CIDR. */
  function Estimate(targets: seq<Target>): nat
    requires ValidTargets(targets)
  {
    if targets == [] then 0
    else
      var t := targets[|targets| - 1];
      Estimate(targets[..|targets| - 1]) + if t.Cidr? then AddressCount(t.prefix) else 1
  }

  // ----- Packing -----

  /** What a chunk may be: a single unit, or units of at most `max` addresses together. */
  ghost predicate Fits(chunk: seq<Target>, max: int)
    requires ValidTargets(chunk)
  {
    |chunk| <= 1 || Size(chunk) <= max
  }

  ghost predicate ValidChunks(chunks: seq<seq<Target>>) {
    forall k :: 0 <= k < |chunks| ==> ValidTargets(chunks[k])
  }

  /** An order-preserving split of `units` into chunks that fit. */
  ghost predicate SplitOf(chunks: seq<seq<Target>>, units: seq<Target>, max: int) {
    && Flatten(chunks) == units && ValidChunks(chunks)
    && forall k :: 0 <= k < |chunks| ==> Fits(chunks[k], max)
  }

  lemma {:induction false} SizeAppend(a: seq<Target>, b: seq<Target>)
    requires ValidTargets(a) && ValidTargets(b)
    ensures ValidTargets(a + b) && Size(a + b) == Size(a) + Size(b)
  {
    if b == [] {
      assert a + b == a;
    } else {
      SizeAppend(a, b[..|b| - 1]);
      assert (a + b)[..|a + b| - 1] == a + b[..|b| - 1];
    }
  }

  lemma {:induction false} ValidFlatten(chunks: seq<seq<Target>>)
    ensures ValidChunks(chunks) <==> ValidTargets(Flatten(chunks))
  {
    if chunks != [] {
      ValidFlatten(chunks[1..]);
      var f := Flatten(chunks);
      assert ValidTargets(f) ==> ValidTargets(f[..|chunks[0]|]) && ValidTargets(f[|chunks[0]|..]);
      assert f[..|chunks[0]|] == chunks[0] && f[|chunks[0]|..] == Flatten(chunks[1..]);
      assert ValidChunks(chunks) <==> ValidTargets(chunks[0]) && ValidChunks(chunks[1..]) by {
        assert forall k :: 1 <= k < |chunks| ==> chunks[k] == chunks[1..][k - 1];
      }
    }
  }

  /** Dropping units from the front of a split leaves a split, one chunk shorter if a whole chunk goes. */
  lemma {:induction false} DropUnits(chunks: seq<seq<Target>>, units: seq<Target>, max: int, n: nat)
    returns (rest: seq<seq<Target>>)
    requires SplitOf(chunks, units, max) && n <= |units|
    ensures SplitOf(rest, units[n..], max) && |rest| <= |chunks|
    ensures chunks != [] && n >= |chunks[0]| ==> |rest| < |chunks|
  {
    if chunks == [] {
      rest := [];
    } else if n >= |chunks[0]| {
      var tail := chunks[1..];
      assert Flatten(tail) == units[|chunks[0]|..];
      assert forall k :: 0 <= k < |tail| ==> tail[k] == chunks[k + 1];
      rest := DropUnits(tail, units[|chunks[0]|..], max, n - |chunks[0]|);
      assert units[|chunks[0]|..][n - |chunks[0]|..] == units[n..];
    } else {
      rest := TrimFirst(chunks, units, max, n);
    }
  }

  lemma TrimFirst(chunks: seq<seq<Target>>, units: seq<Target>, max: int, n: nat) returns (rest: seq<seq<Target>>)
    requires SplitOf(chunks, units, max) && chunks != [] && n < |chunks[0]|
    ensures SplitOf(rest, units[n..], max) && |rest| == |chunks|
  {
    hide Size;
    var c := chunks[0];
    assert Fits(c, max) && ValidTargets(c);
    SizeAppend(c[..n], c[n..]);
    assert c == c[..n] + c[n..];
    rest := [c[n..]] + chunks[1..];
    assert rest[1..] == chunks[1..] && rest[0] == c[n..];
    assert units[n..] == c[n..] + Flatten(chunks[1..]);
    assert forall k :: 1 <= k < |rest| ==> rest[k] == chunks[k];
  }

  /** Greedy packing, as the source's loop does it: `cur` is the open chunk. */
  function Packed(cur: seq<Target>, units: seq<Target>, max: int): (chunks: seq<seq<Target>>)
    requires ValidTargets(cur) && ValidTargets(units)
    decreases |units|
  {
    if units == [] then (if cur == [] then [] else [cur])
    else if cur != [] && Size(cur) + UnitSize(units[0]) > max then [cur] + Packed([units[0]], units[1..], max)
    else Packed(cur + [units[0]], units[1..], max)
  }

  lemma {:induction false} PackedSplits(cur: seq<Target>, units: seq<Target>, max: int)
    requires ValidTargets(cur) && ValidTargets(units) && Fits(cur, max)
    ensures SplitOf(Packed(cur, units, max), cur + units, max)
    ensures forall k :: 0 <= k < |Packed(cur, units, max)| ==> Packed(cur, units, max)[k] != []
    decreases |units|
  {
    hide SplitOf, Size, Fits;
    if units == [] {
      assert cur + units == cur;
      SplitOne(cur, max);
    } else if cur != [] && Size(cur) + UnitSize(units[0]) > max {
      SingleFits(units[0], max);
      PackedSplits([units[0]], units[1..], max);
      assert [units[0]] + units[1..] == units;
      SplitCons(cur, Packed([units[0]], units[1..], max), units, max);
    } else {
      OpenChunkFits(cur, units[0], max);
      PackedSplits(cur + [units[0]], units[1..], max);
      assert cur + [units[0]] + units[1..] == cur + units;
    }
  }

  lemma SplitOne(c: seq<Target>, max: int)
    requires ValidTargets(c) && Fits(c, max)
    ensures SplitOf(if c == [] then [] else [c], c, max)
  {
    assert [c][1..] == [];
    assert c + [] == c;
    assert Flatten([c]) == c;
  }

  lemma SplitCons(c: seq<Target>, chunks: seq<seq<Target>>, units: seq<Target>, max: int)
    requires ValidTargets(c) && Fits(c, max) && SplitOf(chunks, units, max)
    ensures SplitOf([c] + chunks, c + units, max)
  {
    hide Fits;
    assert ([c] + chunks)[1..] == chunks;
  }

  lemma SingleFits(u: Target, max: int)
    requires ValidTarget(u)
    ensures ValidTargets([u]) && Fits([u], max)
  {
  }

  lemma OpenChunkFits(cur: seq<Target>, u: Target, max: int)
    requires ValidTargets(cur) && ValidTarget(u)
    requires cur == [] || Size(cur) + UnitSize(u) <= max
    ensures ValidTargets(cur + [u]) && Fits(cur + [u], max)
  {
    assert (cur + [u])[..|cur|] == cur;
  }

  /** Greedy stays ahead: no split of the open chunk and the remaining units has fewer chunks. */
  lemma {:induction false} PackedIsFewest(cur: seq<Target>, units: seq<Target>, max: int, other: seq<seq<Target>>)
    requires ValidTargets(cur) && ValidTargets(units)
    requires SplitOf(other, cur + units, max)
    ensures |Packed(cur, units, max)| <= |other|
    decreases |units|
  {
    if units == [] {
      if cur != [] { assert other != []; }
    } else {
      var u := units[0];
      assert cur + units == cur + [u] + units[1..];
      if cur != [] && Size(cur) + UnitSize(u) > max {
        FirstChunkStops(cur, units, max, other);
        var rest := DropUnits(other, cur + units, max, |cur|);
        assert (cur + units)[|cur|..] == [u] + units[1..];
        PackedIsFewest([u], units[1..], max, rest);
      } else {
        PackedIsFewest(cur + [u], units[1..], max, other);
      }
    }
  }

  /** The first chunk of any split cannot reach past a full open chunk, unless it is empty. */
  lemma FirstChunkStops(cur: seq<Target>, units: seq<Target>, max: int, other: seq<seq<Target>>)
    requires ValidTargets(cur) && ValidTargets(units) && cur != [] && units != []
    requires Size(cur) + UnitSize(units[0]) > max && SplitOf(other, cur + units, max)
    ensures other != [] && |cur| >= |other[0]|
  {
    var c := other[0];
    if |c| > |cur| {
      assert (cur + units)[..|c|] == c;
      assert c[..|cur| + 1] == cur + [units[0]];
      TooBig(cur, units[0], c, max);
    }
  }

  lemma TooBig(cur: seq<Target>, u: Target, c: seq<Target>, max: int)
    requires ValidTargets(cur) && ValidTarget(u) && ValidTargets(c) && cur != []
    requires |c| > |cur| && c[..|cur| + 1] == cur + [u] && Size(cur) + UnitSize(u) > max
    ensures !Fits(c, max)
  {
    var s := cur + [u];
    SizeAppend(s, c[|s|..]);
    assert c == s + c[|s|..];
    assert s[..|s| - 1] == cur;
  }

  // ----- Subdivision -----

  /** `addUint32` wraps like the 32-bit word it is. */
  function AddUint32(addr: nat, n: nat): nat {
    (addr + n) % 0x1_0000_0000
  }

  function Pieces(base: nat, n: nat): (r: seq<Target>)
    ensures |r| == n
    ensures forall i :: 0 <= i < n ==> r[i] == Cidr(Prefix(V4, base + 256 * i, SUB_BITS))
  {
    seq(n, i requires 0 <= i < n => Cidr(Prefix(V4, base + 256 * i, SUB_BITS)))
  }

  predicate Divides(p: Prefix, max: int)
    requires p.bits <= BitLen(p.family)
  {
    PrefixSize(p) > max && p.bits < SUB_BITS && Pow2(SUB_BITS - p.bits) <= MAX_SUBDIVIDE_PARTS
  }

  function Subdivided(t: Target, max: int): (r: seq<Target>)
    requires ValidTarget(t)
    ensures r != []
  {
    if !t.Cidr? || t.prefix.family != V4 then [t]
    else
      var p := Masked(t.prefix);
      if Divides(p, max) then Pieces(p.addr, Pow2(SUB_BITS - p.bits)) else [Cidr(p)]
  }

  /** The /24 pieces end where the prefix ends, so stepping never wraps into an emitted address. */
  lemma PiecesTile(p: Prefix)
    requires ValidPrefix(p) && p.family == V4 && p.bits < SUB_BITS
    ensures Pow2(HostBits(p)) == 256 * Pow2(SUB_BITS - p.bits)
    ensures Masked(p).addr + 256 * Pow2(SUB_BITS - p.bits) <= 0x1_0000_0000
    ensures Masked(p).addr % 256 == 0
  {
    Pow2Values();
    hide Pow2;
    Pow2Adds(SUB_BITS - p.bits, 8);
    PrefixFits(p);
    var k, n := p.addr / Pow2(HostBits(p)), Pow2(SUB_BITS - p.bits);
    Associate(k, n, 256);
    assert Masked(p).addr == k * (n * 256) == (k * n) * 256;
    MultipleOf256(k * n);
  }

  lemma MultipleOf256(k: nat)
    ensures (k * 256) % 256 == 0
  {
  }

  lemma Pow2Values()
    ensures Pow2(8) == 256 && Pow2(32) == 0x1_0000_0000
  {
    assert Pow2(4) == 16;
    Pow2Adds(4, 4);
    Pow2Adds(8, 8);
    Pow2Adds(16, 16);
  }

  /** How a target that is not divided appears among the units. */
  function Whole(t: Target): Target
    requires t.Cidr? ==> t.prefix.bits <= BitLen(t.prefix.family)
  {
    if t.Cidr? && t.prefix.family == V4 then Cidr(Masked(t.prefix)) else t
  }

  /** A V4 range wider than `max` and than a /24, of at most 4096 /24s, is divided into them; nothing else is. */
  ghost predicate Splits(t: Target, max: int)
    requires ValidTarget(t)
  {
    && t.Cidr? && t.prefix.family == V4
    && AddressCount(t.prefix) > max && 256 < AddressCount(t.prefix) <= 4096 * 256
  }

  /** `r` is as many blocks of 256 addresses as the target holds, or the whole target. */
  ghost predicate IntoBlocks(t: Target, max: int, r: seq<Target>)
    requires ValidTarget(t)
  {
    if Splits(t, max) then
      && (forall u :: u in r ==> u.Cidr? && ValidTarget(u) && u.prefix.family == V4 && AddressCount(u.prefix) == 256)
      && 256 * |r| == AddressCount(t.prefix)
    else r == [Whole(t)]
  }

  lemma DividesMeans(p: Prefix, max: int)
    requires ValidPrefix(p) && p.family == V4
    ensures Divides(Masked(p), max) <==> Splits(Cidr(p), max)
    ensures p.bits < SUB_BITS ==> AddressCount(p) == 256 * Pow2(SUB_BITS - p.bits)
  {
    Pow2Values();
    PrefixSizeSaturates(p);
    hide Pow2, PrefixSize;
    Pow2Monotone(8, HostBits(p));
    Pow2Monotone(HostBits(p), 8);
    if p.bits < SUB_BITS { PiecesTile(p); }
  }

  /** What subdividing gives, in true numbers of addresses. */
  lemma SubdividedMeans(t: Target, max: int)
    requires ValidTarget(t)
    ensures ValidTargets(Subdivided(t, max)) && IntoBlocks(t, max, Subdivided(t, max))
  {
    SubdividedCount(t, max, IP(V4, 0));
    if t.Cidr? && t.prefix.family == V4 {
      DividesMeans(t.prefix, max);
      Pow2Values();
      hide Pow2, PrefixSize, Divides;
    }
  }

  method Subdivide(t: Target, max: int) returns (r: seq<Target>)
    requires ValidTarget(t)
    ensures r == Subdivided(t, max)
    ensures IntoBlocks(t, max, r)
  {
    SubdividedMeans(t, max);
    hide IntoBlocks, Pow2;
    if !t.Cidr? || t.prefix.family != V4 { return [t]; }
    var p := Masked(t.prefix);
    if PrefixSize(p) <= max { return [Cidr(p)]; }
    if p.bits >= SUB_BITS { return [Cidr(p)]; }
    var parts := Pow2(SUB_BITS - p.bits);
    if parts > MAX_SUBDIVIDE_PARTS { return [Cidr(p)]; }
    PiecesTile(t.prefix);
    var addr := p.addr;
    r := [];
    for i := 0 to parts
      invariant r == Pieces(p.addr, i)
      invariant addr == (p.addr + 256 * i) % 0x1_0000_0000
    {
      assert addr == p.addr + 256 * i;
      r := r + [Cidr(Prefix(V4, addr, SUB_BITS))];
      addr := AddUint32(addr, 256);
      assert r == Pieces(p.addr, i + 1);
    }
  }

  /** How many units cover an address. */
  function Count(units: seq<Target>, ip: IP): nat
    requires ValidTargets(units)
  {
    if units == [] then 0
    else Count(units[..|units| - 1], ip) + if Covers(units[|units| - 1], ip) then 1 else 0
  }

  lemma {:induction false} CountAppend(a: seq<Target>, b: seq<Target>, ip: IP)
    requires ValidTargets(a) && ValidTargets(b)
    ensures ValidTargets(a + b) && Count(a + b, ip) == Count(a, ip) + Count(b, ip)
  {
    hide Covers;
    if b == [] {
      assert a + b == a;
    } else {
      CountAppend(a, b[..|b| - 1], ip);
      assert (a + b)[..|a + b| - 1] == a + b[..|b| - 1];
    }
  }

  lemma {:induction false} PiecesCount(base: nat, n: nat, ip: IP)
    requires base % 256 == 0 && base + 256 * n <= 0x1_0000_0000
    ensures ValidTargets(Pieces(base, n))
    ensures Count(Pieces(base, n), ip) == if ip.family == V4 && base <= ip.value < base + 256 * n then 1 else 0
  {
    hide Pow2, Contains;
    Pow2Values();
    if n > 0 {
      PiecesCount(base, n - 1, ip);
      assert Pieces(base, n)[..n - 1] == Pieces(base, n - 1);
      PieceIsInterval(base + 256 * (n - 1), ip);
    }
  }

  lemma PieceIsInterval(addr: nat, ip: IP)
    requires addr % 256 == 0
    ensures Contains(Prefix(V4, addr, SUB_BITS), ip) <==> ip.family == V4 && addr <= ip.value < addr + 256
  {
    Pow2Values();
    hide Pow2;
    assert addr / 256 * 256 == addr;
    SameInterval(ip.value, addr, 256);
  }

  /** Subdividing covers every address exactly as often as the target did. */
  lemma SubdividedCount(t: Target, max: int, ip: IP)
    requires ValidTarget(t)
    ensures ValidTargets(Subdivided(t, max))
    ensures Count(Subdivided(t, max), ip) == if Covers(t, ip) then 1 else 0
  {
    hide Pow2, PrefixSize, Pieces, Contains;
    if t.Cidr? && t.prefix.family == V4 {
      var p := Masked(t.prefix);
      MaskedIsInterval(t.prefix, ip);
      MaskedIsInterval(t.prefix, IP(V4, 0));
      if Divides(p, max) {
        PiecesTile(t.prefix);
        PiecesCount(p.addr, Pow2(SUB_BITS - p.bits), ip);
      } else {
        assert [Cidr(p)][..0] == [];
      }
    } else {
      assert [t][..0] == [];
    }
  }

  function UnitsOf(targets: seq<Target>, max: int): seq<Target>
    requires ValidTargets(targets)
  {
    if targets == [] then []
    else UnitsOf(targets[..|targets| - 1], max) + Subdivided(targets[|targets| - 1], max)
  }

  lemma {:induction false} UnitsCount(targets: seq<Target>, max: int, ip: IP)
    requires ValidTargets(targets)
    ensures ValidTargets(UnitsOf(targets, max))
    ensures Count(UnitsOf(targets, max), ip) == Count(targets, ip)
  {
    hide Covers, Subdivided;
    if targets != [] {
      var before := targets[..|targets| - 1];
      UnitsCount(before, max, ip);
      SubdividedCount(targets[|targets| - 1], max, ip);
      CountAppend(UnitsOf(before, max), Subdivided(targets[|targets| - 1], max), ip);
    }
  }

  // ----- Chunks in true numbers of addresses -----

  /** Anything but an IPv6 range or an IPv4 range of more than 4096 /24s. */
  ghost predicate Narrow(t: Target)
    requires ValidTarget(t)
  {
    t.Cidr? ==> t.prefix.family == V4 && AddressCount(t.prefix) <= 4096 * 256
  }

  ghost predicate AllNarrow(targets: seq<Target>)
    requires ValidTargets(targets)
  {
    forall k :: 0 <= k < |targets| ==> Narrow(targets[k])
  }

  /** No unit of narrow targets is wider than a chunk may be. */
  lemma {:induction false} UnitsAreNarrow(targets: seq<Target>, max: int)
    requires ValidTargets(targets) && max >= 256 && AllNarrow(targets)
    ensures ValidTargets(UnitsOf(targets, max))
    ensures forall u :: u in UnitsOf(targets, max) ==> Narrow(u) && (u.Cidr? ==> AddressCount(u.prefix) <= max)
  {
    hide AddressCount, Subdivided;
    UnitsCount(targets, max, IP(V4, 0));
    if targets != [] {
      var before, t := targets[..|targets| - 1], targets[|targets| - 1];
      assert AllNarrow(before) by { assert forall k :: 0 <= k < |before| ==> before[k] == targets[k]; }
      UnitsAreNarrow(before, max);
      assert Narrow(t);
      SubdividedMeans(t, max);
      SameSize(t);
    }
  }

  lemma SameSize(t: Target)
    requires ValidTarget(t)
    ensures t.Cidr? ==> AddressCount(Masked(t.prefix)) == AddressCount(t.prefix)
  {
  }

  /** A target that is not divided is a unit, and so in some chunk. */
  lemma {:induction false} WholeTargetsAreUnits(targets: seq<Target>, max: int, k: nat)
    requires ValidTargets(targets) && k < |targets| && !Splits(targets[k], max)
    ensures Whole(targets[k]) in UnitsOf(targets, max)
  {
    hide Subdivided, Splits;
    var n := |targets| - 1;
    SubdividedMeans(targets[n], max);
    if k < n { WholeTargetsAreUnits(targets[..n], max, k); }
  }

  /** The capped sizes that packing adds up are true ones, unless a cap is reached. */
  lemma {:induction false} SizeIsEstimate(units: seq<Target>)
    requires ValidTargets(units)
    ensures Size(units) < 0x7FFF_FFFF || AllNarrow(units) ==> Size(units) == Estimate(units)
  {
    hide AddressCount, PrefixSize;
    if units != [] {
      var before, u := units[..|units| - 1], units[|units| - 1];
      assert AllNarrow(units) ==> AllNarrow(before) by {
        assert forall k :: 0 <= k < |before| ==> before[k] == units[k];
      }
      SizeIsEstimate(before);
      if u.Cidr? { PrefixSizeSaturates(u.prefix); }
    }
  }

  lemma {:induction false} InFlatten(chunks: seq<seq<Target>>, k: nat)
    requires k < |chunks|
    ensures forall u :: u in chunks[k] ==> u in Flatten(chunks)
  {
    if k > 0 { InFlatten(chunks[1..], k - 1); }
  }

  /** A chunk that fits holds no more addresses than allowed: always if its units are narrow enough
      themselves, and otherwise if it has several. */
  lemma ChunkHolds(chunks: seq<seq<Target>>, units: seq<Target>, max: int, k: nat)
    requires SplitOf(chunks, units, max) && k < |chunks|
    ensures ValidTargets(chunks[k])
    ensures |chunks[k]| > 1 && max < 0x7FFF_FFFF ==> Estimate(chunks[k]) <= max
    ensures
      ValidTargets(units) && max >= 256
        && (forall u :: u in units ==> Narrow(u) && (u.Cidr? ==> AddressCount(u.prefix) <= max)) ==>
      Estimate(chunks[k]) <= max
  {
    hide AddressCount, Size;
    var c := chunks[k];
    assert Fits(c, max);
    InFlatten(chunks, k);
    SizeIsEstimate(c);
    if |c| == 1 { assert c[..0] == []; }
  }

  /** No chunk of narrow targets holds more than `max` addresses; of any targets, none with several units. */
  ghost predicate Bounded(chunks: seq<seq<Target>>, targets: seq<Target>, max: int)
    requires ValidTargets(targets)
  {
    forall k :: 0 <= k < |chunks| ==>
      && ValidTargets(chunks[k])
      && (max >= 256 && AllNarrow(targets) ==> Estimate(chunks[k]) <= max)
      && (|chunks[k]| > 1 && max < 0x7FFF_FFFF ==> Estimate(chunks[k]) <= max)
  }

  lemma ChunksAreBounded(chunks: seq<seq<Target>>, targets: seq<Target>, max: int)
    requires ValidTargets(targets) && SplitOf(chunks, UnitsOf(targets, max), max)
    ensures Bounded(chunks, targets, max)
    ensures forall k :: 0 <= k < |targets| && !Splits(targets[k], max) ==> Whole(targets[k]) in Flatten(chunks)
  {
    hide AddressCount, Estimate, Splits, Narrow;
    var units := UnitsOf(targets, max);
    UnitsCount(targets, max, IP(V4, 0));
    if max >= 256 && AllNarrow(targets) { UnitsAreNarrow(targets, max); }
    forall k | 0 <= k < |chunks| ensures ValidTargets(chunks[k])
      ensures max >= 256 && AllNarrow(targets) ==> Estimate(chunks[k]) <= max
      ensures |chunks[k]| > 1 && max < 0x7FFF_FFFF ==> Estimate(chunks[k]) <= max
    {
      ChunkHolds(chunks, units, max, k);
    }
    forall k | 0 <= k < |targets| && !Splits(targets[k], max) ensures Whole(targets[k]) in Flatten(chunks) {
      WholeTargetsAreUnits(targets, max, k);
    }
  }

  // ----- The whole operation -----

  /** No split of the same units into chunks that fit has fewer chunks. */
  ghost predicate Fewest(chunks: seq<seq<Target>>, units: seq<Target>, max: int) {
    forall other :: SplitOf(other, units, max) ==> |chunks| <= |other|
  }

  /** What the chunks are. */
  function Chunked(targets: seq<Target>, max: int): seq<seq<Target>>
    requires ValidTargets(targets)
  {
    UnitsCount(targets, max, IP(V4, 0));
    if max <= 0 || targets == [] then [targets] else Packed([], UnitsOf(targets, max), max)
  }

  method ChunkTargets(targets: seq<Target>, max: int) returns (chunks: seq<seq<Target>>)
    requires ValidTargets(targets)
    ensures chunks == Chunked(targets, max) && chunks != []
    ensures max <= 0 || targets == [] ==> chunks == [targets]
    ensures max > 0 && targets != [] ==>
      SplitOf(chunks, UnitsOf(targets, max), max) && Fewest(chunks, UnitsOf(targets, max), max)
    ensures max > 0 && targets != [] ==> forall k :: 0 <= k < |chunks| ==> chunks[k] != []
    ensures max > 0 ==> Bounded(chunks, targets, max)
    ensures max > 0 ==> forall k :: 0 <= k < |targets| && !Splits(targets[k], max) ==>
      Whole(targets[k]) in Flatten(chunks)
    ensures ValidTargets(Flatten(chunks))
    ensures forall ip :: Count(Flatten(chunks), ip) == Count(targets, ip)
  {
    if max <= 0 || |targets| == 0 {
      assert [targets][1..] == [];
      assert Flatten([targets]) == targets;
      return [targets];
    }
    var units := CollectUnits(targets, max);
    chunks := Pack(units, max);
    hide Packed, SplitOf, Count, UnitsOf, Bounded, Splits;
    PackedSplits([], units, max);
    ChunksAreBounded(chunks, targets, max);
    assert [] + units == units;
    forall other | SplitOf(other, units, max) ensures |chunks| <= |other| {
      PackedIsFewest([], units, max, other);
    }
    SplitFlattens(chunks, units, max);
  }

  // ----- In how many chunks an address is -----

  function Covering(chunks: seq<seq<Target>>, ip: IP): nat
    requires ValidChunks(chunks)
  {
    if chunks == [] then 0
    else (if Count(chunks[0], ip) > 0 then 1 else 0) + Covering(chunks[1..], ip)
  }

  ghost predicate PairwiseDisjoint(targets: seq<Target>)
    requires ValidTargets(targets)
  {
    forall i, j, ip :: 0 <= i < j < |targets| && Covers(targets[i], ip) ==> !Covers(targets[j], ip)
  }

  lemma ChunkedIsValid(targets: seq<Target>, max: int)
    requires ValidTargets(targets)
    ensures var chunks := Chunked(targets, max);
      ValidChunks(chunks) && ValidTargets(Flatten(chunks))
        && forall ip :: Count(Flatten(chunks), ip) == Count(targets, ip)
  {
    hide Count, UnitsOf, Packed, ValidTarget;
    var chunks := Chunked(targets, max);
    if max <= 0 || targets == [] {
      assert [targets][1..] == [];
      assert Flatten([targets]) == targets;
    } else {
      UnitsCount(targets, max, IP(V4, 0));
      PackedSplits([], UnitsOf(targets, max), max);
      assert [] + UnitsOf(targets, max) == UnitsOf(targets, max);
      forall ip ensures Count(UnitsOf(targets, max), ip) == Count(targets, ip) {
        UnitsCount(targets, max, ip);
      }
    }
    ValidFlatten(chunks);
  }

  /** An address is in a chunk for each unit that covers it, unless a chunk holds several of them. */
  lemma {:induction false} CoveringIsCount(chunks: seq<seq<Target>>, ip: IP)
    requires ValidChunks(chunks)
    ensures ValidTargets(Flatten(chunks))
    ensures Covering(chunks, ip) <= Count(Flatten(chunks), ip)
    ensures Covering(chunks, ip) > 0 <==> Count(Flatten(chunks), ip) > 0
    ensures (forall k :: 0 <= k < |chunks| ==> |chunks[k]| == 1) ==> Covering(chunks, ip) == Count(Flatten(chunks), ip)
  {
    hide Covers, ValidTarget;
    ValidFlatten(chunks);
    if chunks != [] {
      ValidFlatten(chunks[1..]);
      CoveringIsCount(chunks[1..], ip);
      CountAppend(chunks[0], Flatten(chunks[1..]), ip);
      if |chunks[0]| == 1 {
        assert chunks[0][..0] == [];
      }
    }
  }

  lemma {:induction false} CoveredTwice(targets: seq<Target>, i: nat, j: nat, ip: IP)
    requires ValidTargets(targets) && i < j < |targets| && Covers(targets[i], ip) && Covers(targets[j], ip)
    ensures Count(targets, ip) >= 2
  {
    hide Covers;
    var before := targets[..|targets| - 1];
    if j < |before| {
      CoveredTwice(before, i, j, ip);
    } else {
      CountedIsCovered(before, ip);
      assert Covers(before[i], ip);
    }
  }

  lemma {:induction false} DisjointCountsOnce(targets: seq<Target>, ip: IP)
    requires ValidTargets(targets) && PairwiseDisjoint(targets)
    ensures Count(targets, ip) <= 1
  {
    hide Covers;
    if targets != [] {
      DisjointCountsOnce(targets[..|targets| - 1], ip);
      CountedIsCovered(targets[..|targets| - 1], ip);
    }
  }

  /** With a limit of one address every unit is a chunk of its own. */
  lemma {:induction false} LimitOneSeparates(cur: seq<Target>, units: seq<Target>)
    requires ValidTargets(cur) && ValidTargets(units) && |cur| <= 1
    ensures forall k :: 0 <= k < |Packed(cur, units, 1)| ==> |Packed(cur, units, 1)[k]| == 1
    decreases |units|
  {
    hide UnitSize;
    if units != [] {
      SizePositive(cur);
      if cur == [] {
        assert cur + [units[0]] == [units[0]];
      }
      LimitOneSeparates([units[0]], units[1..]);
    }
  }

  /** Targets without common addresses put every address they cover into exactly one chunk. */
  lemma DisjointTargetsAreChunkedOnce(targets: seq<Target>, max: int, ip: IP)
    requires ValidTargets(targets) && PairwiseDisjoint(targets)
    ensures ValidChunks(Chunked(targets, max))
    ensures Covering(Chunked(targets, max), ip) == if Count(targets, ip) > 0 then 1 else 0
  {
    ChunkedIsValid(targets, max);
    CoveringIsCount(Chunked(targets, max), ip);
    DisjointCountsOnce(targets, ip);
  }

  ghost predicate InOneChunk(targets: seq<Target>, max: int, ip: IP)
    requires ValidTargets(targets)
  {
    ValidChunks(Chunked(targets, max)) && Covering(Chunked(targets, max), ip) <= 1
  }

  ghost predicate AlwaysInOneChunk(targets: seq<Target>)
    requires ValidTargets(targets)
  {
    forall max, ip :: InOneChunk(targets, max, ip)
  }

  /** Every address is in at most one chunk, whatever the limit, if and only if no two targets have an
      address in common. */
  lemma OneChunkExactlyForDisjointTargets(targets: seq<Target>)
    requires ValidTargets(targets)
    ensures AlwaysInOneChunk(targets) <==> PairwiseDisjoint(targets)
  {
    hide Covering, Count, Chunked, Contains;
    if PairwiseDisjoint(targets) {
      forall max, ip ensures InOneChunk(targets, max, ip) {
        DisjointTargetsAreChunkedOnce(targets, max, ip);
      }
    }
    if AlwaysInOneChunk(targets) {
      forall i, j, ip | 0 <= i < j < |targets| && Covers(targets[i], ip) ensures !Covers(targets[j], ip) {
        SeparatedCount(targets, ip);
        assert InOneChunk(targets, 1, ip);
        if Covers(targets[j], ip) {
          CoveredTwice(targets, i, j, ip);
        }
      }
    }
  }

  lemma SeparatedCount(targets: seq<Target>, ip: IP)
    requires ValidTargets(targets)
    ensures ValidChunks(Chunked(targets, 1))
    ensures Covering(Chunked(targets, 1), ip) == Count(targets, ip)
  {
    hide UnitsOf, Packed, Count, Covering, Covers;
    ChunkedIsValid(targets, 1);
    CoveringIsCount(Chunked(targets, 1), ip);
    if targets == [] {
      NothingCovered(ip);
    } else {
      UnitsCount(targets, 1, ip);
      LimitOneSeparates([], UnitsOf(targets, 1));
    }
  }

  lemma NothingCovered(ip: IP)
    ensures Count([], ip) == 0 && Covering([[]], ip) == 0
  {
    var chunks: seq<seq<Target>> := [[]];
    assert chunks[1..] == [];
  }

  /** The same /24 twice, with the limit of one /24, is scanned in two chunks; the same /30 twice in one. */
  lemma RepeatedTargets()
    ensures var t, ip := Cidr(Prefix(V4, 0x0A00_0000, 24)), IP(V4, 0x0A00_0001);
      ValidTargets([t, t]) && Chunked([t, t], 256) == [[t], [t]] && Covering([[t], [t]], ip) == 2
    ensures var t, ip := Cidr(Prefix(V4, 0, 30)), IP(V4, 1);
      ValidTargets([t, t]) && Chunked([t, t], 256) == [[t, t]] && Count([t, t], ip) == 2 && Covering([[t, t]], ip) == 1
  {
    var t, ip := Cidr(Prefix(V4, 0x0A00_0000, 24)), IP(V4, 0x0A00_0001);
    SmallPrefixes();
    hide Pow2;
    TwoUnits(t, 256, ip);
    TwoUnits(Cidr(Prefix(V4, 0, 30)), 256, IP(V4, 1));
  }

  lemma SmallPrefixes()
    ensures Pow2(2) == 4 && Pow2(8) == 256 && Pow2(32) == 0x1_0000_0000
  {
    Pow2Values();
  }

  /** A target that is a unit and comes twice is in one chunk if that holds both, else in two. */
  lemma TwoUnits(t: Target, max: int, ip: IP)
    requires ValidTarget(t) && max > 0 && Subdivided(t, max) == [t] && Covers(t, ip)
    ensures ValidTargets([t, t]) && Count([t, t], ip) == 2
    ensures Chunked([t, t], max) == if 2 * UnitSize(t) > max then [[t], [t]] else [[t, t]]
    ensures Covering([[t], [t]], ip) == 2 && Covering([[t, t]], ip) == 1
  {
    hide Subdivided, Covers, UnitSize;
    assert [t, t][..1] == [t] && [t][..0] == [] && [t, t][1..] == [t] && [t][1..] == [];
    assert UnitsOf([t], max) == [] + [t];
    assert UnitsOf([t, t], max) == [t] + [t] == [t, t];
    assert Count([t], ip) == 1;
    var two, one, all := [[t], [t]], [[t]], [[t, t]];
    assert two[1..] == one && one[1..] == [] && all[1..] == [];
    assert Covering(one, ip) == 1 && Covering(all, ip) == 1 && Covering(two, ip) == 2;
    assert Size([t]) == UnitSize(t);
    assert [] + [t] == [t] && [t] + [t] == [t, t];
    assert Packed([t], [t], max) ==
      if 2 * UnitSize(t) > max then [[t]] + Packed([t], [], max) else Packed([t, t], [], max);
  }

  lemma SplitFlattens(chunks: seq<seq<Target>>, units: seq<Target>, max: int)
    requires SplitOf(chunks, units, max)
    ensures Flatten(chunks) == units && (units != [] ==> chunks != [])
  {
  }

  /** The packing loop. */
  method Pack(units: seq<Target>, max: int) returns (chunks: seq<seq<Target>>)
    requires ValidTargets(units)
    ensures chunks == Packed([], units, max)
  {
    hide UnitSize, Size, Packed;
    var cur, curCount := [], 0;
    NothingPacked([], []);
    chunks := [];
    for i := 0 to |units|
      invariant ValidTargets(cur) && curCount == Size(cur)
      invariant chunks + Packed(cur, units[i..], max) == Packed([], units, max)
    {
      var u := units[i];
      assert units[i..][0] == u && units[i..][1..] == units[i + 1..];
      var n := UnitSize(u);
      PackedStep(cur, units[i..], max);
      if curCount > 0 && curCount + n > max {
        chunks := chunks + [cur];
        cur, curCount := [], 0;
        NothingPacked([], []);
      }
      SizeGrows(cur, u);
      cur := cur + [u];
      curCount := curCount + n;
    }
    assert units[|units|..] == [];
    NothingPacked(cur, units[|units|..]);
    if |cur| > 0 { chunks := chunks + [cur]; }
  }

  lemma NothingPacked(cur: seq<Target>, units: seq<Target>)
    requires ValidTargets(cur) && units == []
    ensures Size([]) == 0
    ensures forall max :: Packed(cur, units, max) == if cur == [] then [] else [cur]
  {
  }

  lemma SizeGrows(cur: seq<Target>, u: Target)
    requires ValidTargets(cur) && ValidTarget(u)
    ensures ValidTargets(cur + [u]) && Size(cur + [u]) == Size(cur) + UnitSize(u)
  {
    assert (cur + [u])[..|cur|] == cur;
  }

  lemma PackedStep(cur: seq<Target>, units: seq<Target>, max: int)
    requires ValidTargets(cur) && ValidTargets(units) && units != []
    ensures Packed(cur, units, max) ==
      if Size(cur) > 0 && Size(cur) + UnitSize(units[0]) > max then [cur] + Packed([] + [units[0]], units[1..], max)
      else Packed(cur + [units[0]], units[1..], max)
  {
    SizePositive(cur);
    assert [] + [units[0]] == [units[0]];
  }

  lemma SizePositive(units: seq<Target>)
    requires ValidTargets(units)
    ensures Size(units) > 0 <==> units != []
  {
  }

  method CollectUnits(targets: seq<Target>, max: int) returns (units: seq<Target>)
    requires ValidTargets(targets)
    ensures units == UnitsOf(targets, max) && ValidTargets(units)
    ensures targets != [] ==> units != []
    ensures forall ip :: Count(units, ip) == Count(targets, ip)
  {
    units := [];
    for i := 0 to |targets|
      invariant units == UnitsOf(targets[..i], max)
      invariant i > 0 ==> units != []
    {
      assert targets[..i + 1][..i] == targets[..i];
      var pieces := Subdivide(targets[i], max);
      units := units + pieces;
    }
    assert targets[..|targets|] == targets;
    forall ip ensures ValidTargets(units) && Count(units, ip) == Count(targets, ip) {
      UnitsCount(targets, max, ip);
    }
    UnitsCount(targets, max, IP(V4, 0));
  }

  lemma {:induction false} CountedIsCovered(units: seq<Target>, ip: IP)
    requires ValidTargets(units)
    ensures Count(units, ip) > 0 <==> exists k :: 0 <= k < |units| && Covers(units[k], ip)
  {
    hide Covers;
    if units != [] {
      var before := units[..|units| - 1];
      CountedIsCovered(before, ip);
      if Count(before, ip) > 0 {
        var k :| 0 <= k < |before| && Covers(before[k], ip);
        assert Covers(units[k], ip);
      }
      if exists k :: 0 <= k < |units| && Covers(units[k], ip) {
        var k :| 0 <= k < |units| && Covers(units[k], ip);
        assert k < |before| ==> Covers(before[k], ip);
      }
    }
  }

  /** The boundary holds end to end: whatever chunks the targets of an accepted job are split into, every
      address scanned is in some approved prefix and in no denied one. */
  lemma AcceptedJobStaysInScope(job: Job, policy: Policy, now: int, units: seq<Target>, k: nat, ip: IP)
    requires ValidPolicy(policy) && ValidTargets(job.targets) && Acceptable(job, Some(policy), now)
    requires ValidTargets(units) && forall a :: Count(units, a) == Count(job.targets, a)
    requires k < |units| && ValidIP(ip) && Covers(units[k], ip)
    ensures exists i :: 0 <= i < |policy.approved| && Contains(policy.approved[i], ip)
    ensures forall i :: 0 <= i < |policy.denied| ==> !Contains(policy.denied[i], ip)
  {
    CountedIsCovered(units, ip);
    CountedIsCovered(job.targets, ip);
    var j :| 0 <= j < |job.targets| && Covers(job.targets[j], ip);
    AllowedAddress(policy, job.targets[j], ip);
  }

  lemma AllowedAddress(policy: Policy, t: Target, ip: IP)
    requires ValidPolicy(policy) && ValidTarget(t) && VerdictOf(policy, t).Allowed?
    requires ValidIP(ip) && Covers(t, ip)
    ensures exists i :: 0 <= i < |policy.approved| && Contains(policy.approved[i], ip)
    ensures forall i :: 0 <= i < |policy.denied| ==> !Contains(policy.denied[i], ip)
  {
    hide Pow2;
    TargetPrefixDenotes(t);
    var p := TargetPrefix(t).value;
    var i :| 0 <= i < |policy.approved| && Within(p, policy.approved[i]);
    assert Contains(policy.approved[i], ip);
  }

  // ----- The estimate in progress reports -----

  const MAXIMUM_ESTIMATE := 1_000_000_000

  lemma {:induction false} EstimateGrows(targets: seq<Target>, i: nat)
    requires ValidTargets(targets) && i <= |targets|
    ensures Estimate(targets[..i]) <= Estimate(targets)
    decreases |targets|
  {
    hide AddressCount;
    if i == |targets| {
      assert targets[..i] == targets;
    } else {
      assert targets[..|targets| - 1][..i] == targets[..i];
      EstimateGrows(targets[..|targets| - 1], i);
    }
  }

  lemma LargePrefix(p: Prefix)
    requires p.bits <= BitLen(p.family) && HostBits(p) >= 30
    ensures AddressCount(p) >= 0x4000_0000
  {
    HostCountSaturates(p);
  }

  /** `TargetAddressCount`: the early returns saturate exactly. */
  method TargetAddressCount(targets: seq<Target>) returns (total: nat)
    requires ValidTargets(targets)
    ensures total == Min(1_000_000_000, Estimate(targets))
  {
    hide Pow2;
    total := 0;
    for i := 0 to |targets|
      invariant total == Estimate(targets[..i]) <= MAXIMUM_ESTIMATE
    {
      assert targets[..i + 1][..i] == targets[..i];
      EstimateGrows(targets, i + 1);
      var t, count := targets[i], 1;
      if t.Cidr? {
        var hostBits := HostBits(t.prefix);
        if hostBits >= 30 {
          LargePrefix(t.prefix);
          return MAXIMUM_ESTIMATE;
        }
        count := Pow2(hostBits);
      }
      if total > MAXIMUM_ESTIMATE - count { return MAXIMUM_ESTIMATE; }
      total := total + count;
    }
    assert targets[..|targets|] == targets;
  }
}
