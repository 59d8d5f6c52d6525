/** Scanning a CIDR block: a loop that counts an address up in place for as long as the block contains it. */
module CidrScan {
  import opened Options
  import opened Wire
  import opened Addresses

  predicate IsMapped(ip: Ip) {
    |ip| == 16 && ip[..12] == MAPPED_PREFIX
  }

  /** An IPv4 address, also one written as an IPv6 address. */
  function To4(ip: Ip): Option<Ip> {
    if |ip| == 4 then Some(ip) else if IsMapped(ip) then Some(ip[12..]) else None
  }

  function Shortest(ip: Ip): Ip {
    if To4(ip).Some? then To4(ip).value else ip
  }

  /** As the net package decides it: addresses are compared in their shortest forms. */
  predicate Contains(network: Ip, p: nat, ip: Ip) {
    var q := if |network| == 16 && To4(network).Some? then (if p > 96 then p - 96 else 0) else p;
    SameNetwork(Shortest(network), Shortest(ip), q)
  }

  // ---------------------------------------------------------------- what a block contains

  lemma AllBits(x: byte)
    ensures MaskByte(x, 8) == x
  {
  }

  lemma NotAllBits(x: byte, k: nat)
    requires k < 8
    ensures MaskByte(x, k) != 255
  {
    var u := Unit(k);
    assert u == 2 * (u / 2) && x == u * (x / u) + x % u;
    assert MaskByte(x, k) == 2 * ((u / 2) * (x / u));
  }

  lemma BitsBehind(p: nat, i: nat)
    requires p >= 96 && 12 <= i
    ensures MaskBits(p, i) == MaskBits(p - 96, i - 12)
  {
  }

  lemma SameNetworkParts(a: Ip, b: Ip, p: nat)
    requires |a| == |b| == 16 && p >= 96
    ensures SameNetwork(a, b, p) <==> a[..12] == b[..12] && SameNetwork(a[12..], b[12..], p - 96)
  {
    if SameNetwork(a, b, p) {
      forall i | 0 <= i < 12 ensures a[i] == b[i] {
        assert MaskByte(a[i], MaskBits(p, i)) == MaskByte(b[i], MaskBits(p, i));
        AllBits(a[i]);
        AllBits(b[i]);
      }
      forall i | 0 <= i < 4 ensures MaskByte(a[12..][i], MaskBits(p - 96, i)) == MaskByte(b[12..][i], MaskBits(p - 96, i)) {
        assert a[12..][i] == a[i + 12] && b[12..][i] == b[i + 12];
        BitsBehind(p, i + 12);
      }
    }
    if a[..12] == b[..12] && SameNetwork(a[12..], b[12..], p - 96) {
      forall i | 0 <= i < 16 ensures MaskByte(a[i], MaskBits(p, i)) == MaskByte(b[i], MaskBits(p, i)) {
        if i < 12 {
          assert a[..12][i] == b[..12][i];
        } else {
          assert a[12..][i - 12] == a[i] && b[12..][i - 12] == b[i];
          BitsBehind(p, i);
        }
      }
    }
  }

  /** A network of fewer than 96 bits has no byte of all ones where the mapped ones need it. */
  lemma ShortIsNotMapped(addr: Ip, p: nat)
    requires |addr| == 16 && p < 96
    ensures !IsMapped(Mask(addr, p))
  {
    hide MaskByte;
    var network := Mask(addr, p);
    NotAllBits(addr[11], MaskBits(p, 11));
    assert network[..12][11] == network[11] != MAPPED_PREFIX[11];
  }

  /** A block contains what is in its network; but one wider than the mapped addresses around it contains none of them. */
  lemma ContainsIff(addr: Ip, p: nat, ip: Ip)
    requires (|addr| == 4 || |addr| == 16) && |ip| == |addr| && p <= 8 * |addr|
    ensures Contains(Mask(addr, p), p, ip)
            <==> SameNetwork(Mask(addr, p), ip, p) && !(|addr| == 16 && p < 96 && IsMapped(ip))
  {
    hide SameNetwork, Mask;
    var network := Mask(addr, p);
    assert |network| == |addr| by { MaskLength(addr, p); }
    if |addr| == 16 {
      if p >= 96 {
        SameNetworkParts(network, ip, p);
        SameLength(network, ip[12..], p);
        SameLength(network[12..], ip, p - 96);
      } else {
        ShortIsNotMapped(addr, p);
        SameLength(network, ip[12..], p);
      }
    }
  }

  lemma MaskLength(addr: Ip, p: nat)
    ensures |Mask(addr, p)| == |addr|
  {
  }

  lemma SameLength(a: Ip, b: Ip, p: nat)
    ensures SameNetwork(a, b, p) ==> |a| == |b|
  {
  }

  // ---------------------------------------------------------------- blocks as ranges of numbers

  lemma {:induction false} MaskClears(addr: Ip, p: nat)
    requires p <= 8 * |addr|
    ensures FromBE(Mask(addr, p)) % Pow2(8 * |addr| - p) == 0
  {
    if addr == [] {
      assert p == 0;
    } else {
      var n := |addr| - 1;
      var q := if p > 8 * n then 8 * n else p;
      MaskClears(addr[..n], q);
      MaskStep(addr, p);
      var x := FromBE(Mask(addr[..n], q));
      if p > 8 * n {
        ClearsInLastByte(x, addr[n], p - 8 * n);
      } else {
        ClearsBefore(x, 8 * n - p);
      }
    }
  }

  lemma MaskStep(addr: Ip, p: nat)
    requires addr != []
    ensures var n := |addr| - 1;
            var q := if p > 8 * n then 8 * n else p;
            && |Mask(addr, p)| == n + 1
            && Mask(addr, p)[..n] == Mask(addr[..n], q) && Mask(addr, p)[n] == MaskByte(addr[n], MaskBits(p, n))
            && MaskByte(addr[n], 0) == 0
  {
    hide MaskByte;
    var n := |addr| - 1;
    var q := if p > 8 * n then 8 * n else p;
    forall i | 0 <= i < n ensures MaskBits(p, i) == MaskBits(q, i) {
    }
    assert MaskByte(addr[n], 0) == 0 by { NoneLeft(addr[n]); }
  }

  lemma NoneLeft(a: byte)
    ensures MaskByte(a, 0) == 0
  {
  }

  lemma ClearsInLastByte(x: nat, a: byte, k: nat)
    requires k <= 8
    ensures (x * 256 + MaskByte(a, k)) % Pow2(8 - k) == 0
  {
    var u, w := Unit(k), 256 / Unit(k);
    UnitIsPow2(k);
    assert u * w == 256;
    assert a == u * (a / u) + a % u;
    Regroup(x, a / u, u, w);
    ModUnique(x * 256 + MaskByte(a, k), u, x * w + a / u, 0);
  }

  lemma ClearsBefore(x: nat, e: nat)
    requires x % Pow2(e) == 0
    ensures (x * 256) % Pow2(e + 8) == 0
  {
    Pow2Eight(e);
    var d := Pow2(e);
    assert x == d * (x / d);
    assert x * 256 == (256 * d) * (x / d);
    ModUnique(x * 256, 256 * d, x / d, 0);
  }

  function Base(addr: Ip, p: nat): nat {
    FromBE(Mask(addr, p))
  }

  function Size(addr: Ip, p: nat): nat
    requires p <= 8 * |addr|
  {
    Pow2(8 * |addr| - p)
  }

  lemma SameQuotientIff(v: nat, n: nat, d: nat)
    requires d > 0 && n % d == 0
    ensures v / d == n / d <==> n <= v < n + d
  {
    var q := n / d;
    assert n == d * q;
    assert v == d * (v / d) + v % d;
    if n <= v < n + d {
      DivUnique(v, d, q, v - n);
    }
  }

  /** A network is the range of numbers of its size from its first address on. */
  lemma NetworkIsRange(addr: Ip, p: nat, ip: Ip)
    requires |ip| == |addr| && p <= 8 * |addr|
    ensures SameNetwork(Mask(addr, p), ip, p) <==> Base(addr, p) <= FromBE(ip) < Base(addr, p) + Size(addr, p)
  {
    hide SameNetwork;
    MaskLength(addr, p);
    MaskClears(addr, p);
    SameNetworkIff(Mask(addr, p), ip, p);
    SameQuotientIff(FromBE(ip), Base(addr, p), Size(addr, p));
  }

  lemma NextMultiple(n: nat, d: nat, w: nat)
    requires d > 0 && n % d == 0 && n < d * w
    ensures n + d <= d * w
    ensures w >= 2 && n == 0 ==> n + d < d * w
  {
    var q := n / d;
    assert n == d * q;
    if q >= w {
      TimesMonotone(d, w, q);
    } else {
      TimesMonotone(d, q + 1, w);
    }
    if w >= 2 {
      TimesMonotone(d, 2, w);
    }
  }

  /** The block ends within the address space; the last one ends exactly with it. */
  lemma BlockFits(addr: Ip, p: nat)
    requires p <= 8 * |addr|
    ensures Base(addr, p) + Size(addr, p) <= Pow256(|addr|)
    ensures p > 0 && Base(addr, p) + Size(addr, p) == Pow256(|addr|) ==> Base(addr, p) > 0
  {
    SpaceOfBlocks(addr, p);
    MaskClears(addr, p);
    hide Pow2, Pow256, Mask, FromBE;
    NextMultiple(Base(addr, p), Size(addr, p), Pow2(p));
    if p > 0 {
      Twice(p);
    }
  }

  lemma SpaceOfBlocks(addr: Ip, p: nat)
    requires p <= 8 * |addr|
    ensures Base(addr, p) < Pow256(|addr|) == Size(addr, p) * Pow2(p)
  {
    hide Pow2, Pow256, FromBE;
    MaskLength(addr, p);
    InRange(Mask(addr, p));
    Pow2Of256(|addr|);
    Pow2Sum(8 * |addr| - p, p);
  }

  lemma Twice(p: nat)
    requires p > 0
    ensures Pow2(p) >= 2
  {
  }

  // ---------------------------------------------------------------- the mapped addresses

  lemma {:induction false} ZerosNumber(k: nat)
    ensures FromBE(Zeros(k)) == 0
  {
    if k > 0 {
      ZerosNumber(k - 1);
      assert Zeros(k)[..k - 1] == Zeros(k - 1);
    }
  }

  lemma MappedPrefixNumber()
    ensures FromBE(MAPPED_PREFIX) == 0xFFFF
  {
    ZerosNumber(10);
    var s := MAPPED_PREFIX;
    assert s[..11][..10] == Zeros(10);
    assert s[..12] == s && s[..12][..11] == s[..11];
    assert FromBE(s[..11]) == FromBE(s[..11][..10]) * 256 + 255;
  }

  /** The number of the first mapped address. */
  function FirstMapped(): nat {
    Pow256(4) * 0xFFFF
  }

  lemma MappedIff(ip: Ip)
    requires |ip| == 16
    ensures IsMapped(ip) <==> FirstMapped() <= FromBE(ip) < FirstMapped() + Pow256(4)
  {
    hide FromBE, Pow256;
    var high, low := ip[..12], ip[12..];
    assert ip == high + low;
    NumberOfParts(high, low);
    InRange(low);
    MappedPrefixNumber();
    SameNumber(high, MAPPED_PREFIX);
    PlacesUnique(FromBE(high), 0xFFFF, FromBE(low), FromBE(low), Pow256(4));
    Between(FromBE(high), FromBE(low), Pow256(4), 0xFFFF);
  }

  lemma Between(x: nat, r: nat, m: nat, k: nat)
    requires r < m
    ensures m * k <= x * m + r < m * k + m <==> x == k
  {
    assert x < k ==> (x + 1) * m <= k * m;
    assert x > k ==> x * m >= (k + 1) * m;
  }

  /** A block wider than the mapped addresses that contains one of them contains the first. */
  lemma FirstMappedFirst(addr: Ip, p: nat, v: nat)
    requires |addr| == 16 && p < 96 && Base(addr, p) <= v && FirstMapped() <= v < FirstMapped() + Pow256(4)
    ensures Base(addr, p) <= FirstMapped()
  {
    MaskClears(addr, p);
    Pow2Of256(4);
    Pow2Sum(32, 96 - p);
    hide Pow2, Pow256, FromBE, Mask;
    var m, e := Pow256(4), Pow2(96 - p);
    assert Size(addr, p) == m * e;
    AlignedBelow(Base(addr, p), m, e, 0xFFFF, v);
  }

  lemma AlignedBelow(n: nat, m: nat, e: nat, k: nat, v: nat)
    requires m > 0 && e > 0 && n % (m * e) == 0 && n <= v < m * k + m
    ensures n <= m * k
  {
    var q := n / (m * e);
    assert n == (m * e) * q == m * (e * q);
    assert e * q > k ==> m * (e * q) >= m * (k + 1);
    assert e * q <= k ==> m * (e * q) <= m * k;
  }

  // ---------------------------------------------------------------- the scan

  /** The block is wider than the mapped addresses and has them within it. */
  predicate AroundMapped(addr: Ip, p: nat)
    requires p <= 8 * |addr|
  {
    |addr| == 16 && p < 96 && Base(addr, p) <= FirstMapped() < Base(addr, p) + Size(addr, p)
  }

  /** How many addresses a scan visits: the whole block, or only those before the mapped ones within it. */
  function ScanCount(addr: Ip, p: nat): nat
    requires p <= 8 * |addr|
  {
    if AroundMapped(addr, p) then FirstMapped() - Base(addr, p) else Size(addr, p)
  }

  /** The number of the address a scan is at after t addresses. */
  function Position(addr: Ip, p: nat, t: nat): nat {
    if Base(addr, p) + t == Pow256(|addr|) then 0 else Base(addr, p) + t
  }

  /** The block contains the address the scan is at exactly as long as there are addresses to visit. */
  lemma ScanGoesOn(addr: Ip, p: nat, ip: Ip, t: nat)
    requires (|addr| == 4 || |addr| == 16) && |ip| == |addr| && p <= 8 * |addr| && !NeverEnds(addr, p)
    requires t <= ScanCount(addr, p) && FromBE(ip) == Position(addr, p, t)
    ensures Contains(Mask(addr, p), p, ip) <==> t < ScanCount(addr, p)
    ensures t < ScanCount(addr, p) ==> FromBE(ip) == Base(addr, p) + t
  {
    hide Contains, SameNetwork, Mask, Pow256, FromBE, IsMapped, FirstMapped;
    if p == 0 {
      WholeSpace(addr);
    }
    ContainsIff(addr, p, ip);
    NetworkIsRange(addr, p, ip);
    BlockFits(addr, p);
    assert Pow256(4) > 0;
    if |addr| == 16 {
      MappedIff(ip);
      if p < 96 && IsMapped(ip) && Base(addr, p) <= FromBE(ip) {
        FirstMappedFirst(addr, p, FromBE(ip));
      }
    }
  }

  /** The block of all IPv4 addresses: counting up wraps around within it. */
  predicate NeverEnds(addr: Ip, p: nat) {
    |addr| == 4 && p == 0
  }

  lemma NeverLeaves(addr: Ip, p: nat, ip: Ip)
    requires NeverEnds(addr, p) && |ip| == 4
    ensures Contains(Mask(addr, p), p, ip) && |Next(ip)| == 4
  {
    hide MaskByte, Next;
    NextCounts(ip);
    forall i | 0 <= i < 4 ensures MaskByte(Mask(addr, 0)[i], 0) == MaskByte(ip[i], 0) {
      NoneLeft(Mask(addr, 0)[i]);
      NoneLeft(ip[i]);
    }
  }

  /** The block of all IPv6 addresses starts at 0 and has the mapped ones within it. */
  lemma WholeSpace(addr: Ip)
    requires |addr| == 16
    ensures Base(addr, 0) == 0 <= FirstMapped() < Base(addr, 0) + Size(addr, 0)
  {
    var low: Ip := [0, 0, 0, 0];
    var ip := MAPPED_PREFIX + low;
    assert ip[..12] == MAPPED_PREFIX;
    MappedIff(ip);
    InRange(ip);
    BlockFits(addr, 0);
    Pow2Of256(16);
  }

  /** Addresses counted up from the first of the block, as many as a scan visits. */
  ghost predicate IsScan(addr: Ip, p: nat, targets: seq<Ip>)
    requires p <= 8 * |addr|
  {
    && |targets| == ScanCount(addr, p)
    && forall t :: 0 <= t < |targets| ==> |targets[t]| == |addr| && FromBE(targets[t]) == Base(addr, p) + t
  }

  /** The addresses a scan probes. */
  method ScanCIDR(addr: Ip, p: nat) returns (targets: seq<Ip>)
    requires (|addr| == 4 || |addr| == 16) && p <= 8 * |addr| && !NeverEnds(addr, p)
    ensures IsScan(addr, p, targets)
  {
    hide Contains, Mask, Pow256, FromBE, ScanCount, Next;
    var network := Mask(addr, p);
    MaskLength(addr, p);
    var ip := new byte[|addr|](i requires 0 <= i < |addr| => network[i]);
    assert ip[..] == network;
    targets := [];
    BlockFits(addr, p);
    CountAtMost(addr, p);
    while Contains(network, p, ip[..])
      invariant |targets| <= ScanCount(addr, p) && FromBE(ip[..]) == Position(addr, p, |targets|)
      invariant forall t :: 0 <= t < |targets| ==> |targets[t]| == |addr| && FromBE(targets[t]) == Base(addr, p) + t
      decreases ScanCount(addr, p) - |targets|
    {
      ScanGoesOn(addr, p, ip[..], |targets|);
      targets := targets + [ip[..]];
      NextCounts(ip[..]);
      IncrementIP(ip);
    }
    ScanGoesOn(addr, p, ip[..], |targets|);
  }

  lemma CountAtMost(addr: Ip, p: nat)
    requires p <= 8 * |addr|
    ensures ScanCount(addr, p) <= Size(addr, p) && Size(addr, p) > 0
  {
  }

  /** The addresses a scan visits are those of as many numbers as it counts. */
  lemma ScanVisits(addr: Ip, p: nat, targets: seq<Ip>, ip: Ip)
    requires p <= 8 * |addr| && IsScan(addr, p, targets) && |ip| == |addr|
    ensures ip in targets <==> Base(addr, p) <= FromBE(ip) < Base(addr, p) + ScanCount(addr, p)
  {
    hide Base, ScanCount, FromBE;
    if Base(addr, p) <= FromBE(ip) < Base(addr, p) + ScanCount(addr, p) {
      SameNumber(targets[FromBE(ip) - Base(addr, p)], ip);
    }
  }

  /** The first of the mapped addresses. */
  lemma FirstMappedIp() returns (ip: Ip)
    ensures |ip| == 16 && FromBE(ip) == FirstMapped()
  {
    hide Pow256;
    var low: Ip := Zeros(4);
    ip := MAPPED_PREFIX + low;
    NumberOfParts(MAPPED_PREFIX, low);
    MappedPrefixNumber();
    ZerosNumber(4);
  }

  /**
   * The addresses a scan visits are those of the network, each once, exactly unless the block is wider than the
   * mapped addresses and around them. It never visits any other.
   */
  lemma ScanIsCompleteIff(addr: Ip, p: nat, targets: seq<Ip>)
    requires p <= 8 * |addr| && IsScan(addr, p, targets)
    ensures (forall ip: Ip :: |ip| == |addr| ==> (ip in targets <==> SameNetwork(Mask(addr, p), ip, p))) <==> !AroundMapped(addr, p)
    ensures forall ip :: ip in targets ==> SameNetwork(Mask(addr, p), ip, p)
    ensures forall s, t :: 0 <= s < t < |targets| ==> targets[s] != targets[t]
  {
    hide Base, Size, FromBE, SameNetwork, Mask, FirstMapped;
    CountAtMost(addr, p);
    forall ip: Ip | |ip| == |addr|
      ensures ip in targets <==> Base(addr, p) <= FromBE(ip) < Base(addr, p) + ScanCount(addr, p)
      ensures SameNetwork(Mask(addr, p), ip, p) <==> Base(addr, p) <= FromBE(ip) < Base(addr, p) + Size(addr, p)
    {
      ScanVisits(addr, p, targets, ip);
      NetworkIsRange(addr, p, ip);
    }
    EachOnce(addr, p, targets);
    if AroundMapped(addr, p) {
      var ip := FirstMappedIp();
      assert ip !in targets && SameNetwork(Mask(addr, p), ip, p);
    }
  }

  lemma EachOnce(addr: Ip, p: nat, targets: seq<Ip>)
    requires p <= 8 * |addr| && IsScan(addr, p, targets)
    ensures forall s, t :: 0 <= s < t < |targets| ==> targets[s] != targets[t]
  {
    hide Base, ScanCount, FromBE;
  }
}
