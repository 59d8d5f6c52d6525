/** IP addresses as bytes and as numbers: counting up, and which addresses a CIDR block contains. */
module Addresses {
  import opened Wire

  type Ip = seq<byte>

  function Pow2(k: nat): (p: nat)
    ensures p > 0
  {
    if k == 0 then 1 else 2 * Pow2(k - 1)
  }

  lemma {:induction false} Pow2Of256(k: nat)
    ensures Pow2(8 * k) == Pow256(k)
  {
    if k > 0 {
      Pow2Of256(k - 1);
      Pow2Sum(8 * (k - 1), 8);
      assert Pow2(8) == 256;
    }
  }

  lemma {:induction false} Pow2Sum(a: nat, b: nat)
    ensures Pow2(a + b) == Pow2(a) * Pow2(b)
  {
    if b > 0 {
      Pow2Sum(a, b - 1);
      DoubleFactor(Pow2(a), Pow2(b - 1));
    }
  }

  lemma DoubleFactor(x: nat, y: nat)
    ensures x * (2 * y) == 2 * (x * y)
  {
  }

  // ---------------------------------------------------------------- bytes and numbers

  lemma {:induction false} InRange(ip: Ip)
    ensures FromBE(ip) < Pow256(|ip|)
  {
    if ip != [] {
      InRange(ip[..|ip| - 1]);
    }
  }

  /** Addresses of the same length are equal when their numbers are. */
  lemma {:induction false} SameNumber(a: Ip, b: Ip)
    requires |a| == |b|
    ensures a == b <==> FromBE(a) == FromBE(b)
  {
    if a != [] {
      var n := |a| - 1;
      SameNumber(a[..n], b[..n]);
      assert a == a[..n] + [a[n]] && b == b[..n] + [b[n]];
      var x, y: int, u: int, v: int := FromBE(a[..n]), FromBE(b[..n]), a[n], b[n];
      assert x * 256 + u == y * 256 + v ==> x == y && u == v;
    }
  }

  lemma {:induction false} NumberOfParts(a: Ip, b: Ip)
    ensures FromBE(a + b) == FromBE(a) * Pow256(|b|) + FromBE(b)
  {
    if b == [] {
      assert a + b == a;
    } else {
      var n := |b| - 1;
      NumberOfParts(a, b[..n]);
      assert (a + b)[..|a + b| - 1] == a + b[..n];
      assert FromBE(a) * Pow256(n) * 256 == FromBE(a) * (256 * Pow256(n));
    }
  }

  // ---------------------------------------------------------------- counting up

  function Next(ip: Ip): Ip {
    if ip == [] then []
    else
      var n := |ip| - 1;
      if ip[n] < 255 then ip[..n] + [ip[n] + 1] else Next(ip[..n]) + [0]
  }

  lemma {:induction false} NextCounts(ip: Ip)
    ensures |Next(ip)| == |ip|
    ensures FromBE(Next(ip)) == if FromBE(ip) + 1 == Pow256(|ip|) then 0 else FromBE(ip) + 1
  {
    InRange(ip);
    if ip != [] {
      var n := |ip| - 1;
      NextCounts(ip[..n]);
      InRange(ip[..n]);
      assert Next(ip)[..n] == if ip[n] < 255 then ip[..n] else Next(ip[..n]);
    }
  }

  lemma NextOf(ip: Ip, x: byte)
    ensures Next(ip + [x]) == if x < 255 then ip + [x + 1] else Next(ip) + [0]
  {
    assert (ip + [x])[..|ip|] == ip;
  }

  /** The next address, in place; the last one wraps around to the first. */
  method IncrementIP(ip: array<byte>)
    modifies ip
    ensures ip[..] == Next(old(ip[..]))
  {
    hide Next;
    ghost var was, tail: Ip := ip[..], [];
    var j := ip.Length - 1;
    NextOfNone();
    assert was[..j + 1] == was && was + [] == was && Next(was) + [] == Next(was);
    while j >= 0
      invariant -1 <= j < ip.Length == |was|
      invariant ip[..] == was[..j + 1] + tail && Next(was) == Next(was[..j + 1]) + tail
    {
      NextStep(was, j, tail);
      ip[j] := if ip[j] == 255 then 0 else ip[j] + 1;
      if ip[j] > 0 {
        return;
      }
      tail := [0] + tail;
      j := j - 1;
    }
  }

  lemma NextStep(was: Ip, j: nat, tail: Ip)
    requires j < |was|
    ensures var all := was[..j + 1] + tail;
            && all[j] == was[j]
            && if was[j] == 255 then
                 && all[j := 0] == was[..j] + ([0] + tail)
                 && Next(was[..j + 1]) + tail == Next(was[..j]) + ([0] + tail)
               else all[j := was[j] + 1] == Next(was[..j + 1]) + tail
  {
    hide Next;
    var l, x := was[..j], was[j];
    assert was[..j + 1] == l + [x];
    NextOf(l, x);
    SetMiddle(l, x, tail, if x == 255 then 0 else x + 1);
    assert Next(l) + [0] + tail == Next(l) + ([0] + tail);
  }

  lemma SetMiddle(l: Ip, x: byte, tail: Ip, y: byte)
    ensures (l + [x] + tail)[|l| := y] == l + [y] + tail == l + ([y] + tail)
  {
  }

  lemma NextOfNone()
    ensures Next([]) == []
  {
  }

  // ---------------------------------------------------------------- masks

  /** How many bits of the i-th byte a prefix of p bits covers. */
  function MaskBits(p: nat, i: nat): (k: nat)
    ensures k <= 8
  {
    if p <= 8 * i then 0 else if p >= 8 * i + 8 then 8 else p - 8 * i
  }

  /** The weight of the last of k leading bits of a byte. */
  function Unit(k: nat): nat
    requires k <= 8
  {
    if k == 0 then 256 else if k == 1 then 128 else if k == 2 then 64 else if k == 3 then 32 else if k == 4 then 16
    else if k == 5 then 8 else if k == 6 then 4 else if k == 7 then 2 else 1
  }

  /** A byte and a mask of k leading ones. */
  function MaskByte(x: byte, k: nat): (y: byte)
    requires k <= 8
  {
    x - x % Unit(k)
  }

  function Mask(ip: Ip, p: nat): Ip {
    seq(|ip|, i requires 0 <= i < |ip| => MaskByte(ip[i], MaskBits(p, i)))
  }

  predicate SameNetwork(a: Ip, b: Ip, p: nat) {
    |a| == |b| && forall i :: 0 <= i < |a| ==> MaskByte(a[i], MaskBits(p, i)) == MaskByte(b[i], MaskBits(p, i))
  }

  lemma UnitIsPow2(k: nat)
    requires k <= 8
    ensures Unit(k) == Pow2(8 - k)
  {
    assert Pow2(0) == 1 && Pow2(1) == 2 && Pow2(2) == 4 && Pow2(3) == 8 && Pow2(4) == 16;
    assert Pow2(5) == 32 && Pow2(6) == 64 && Pow2(7) == 128 && Pow2(8) == 256;
  }

  lemma DivUnique(x: int, m: nat, q: int, r: nat)
    requires r < m && x == m * q + r
    ensures x / m == q
  {
    var d := x / m - q;
    assert m * d == r - x % m;
    assert d > 0 ==> m * d >= m;
    assert d < 0 ==> m * d + m <= 0;
  }

  lemma Regroup(x: nat, q: nat, u: nat, w: nat)
    requires u * w == 256
    ensures u * (x * w + q) == x * 256 + u * q
  {
    assert u * (x * w + q) == u * (x * w) + u * q;
    assert u * (x * w) == (u * w) * x;
  }

  lemma LastByteQuotient(x: nat, a: byte, u: nat, w: nat)
    requires u > 0 && u * w == 256
    ensures (x * 256 + a) / u == x * w + a / u && 0 <= a / u < w
  {
    var q, r := a / u, a % u;
    assert a == u * q + r;
    if q >= w {
      TimesMonotone(u, w, q);
    }
    Regroup(x, q, u, w);
    var n: nat, m: nat := x * 256 + a, x * w + q;
    assert n == u * m + r;
    DivUnique(n, u, m, r);
  }

  lemma PlacesUnique(x: nat, y: nat, c: nat, d: nat, w: nat)
    requires c < w && d < w
    ensures x * w + c == y * w + d <==> x == y && c == d
  {
    if x > y {
      assert x * w >= (y + 1) * w == y * w + w;
    } else if x < y {
      assert y * w >= (x + 1) * w == x * w + w;
    }
  }

  lemma MaskEqualIff(a: byte, b: byte, k: nat)
    requires k <= 8
    ensures MaskByte(a, k) == MaskByte(b, k) <==> a / Unit(k) == b / Unit(k)
  {
    var u := Unit(k);
    assert a == u * (a / u) + a % u && b == u * (b / u) + b % u;
    PlacesUnique(a / u, b / u, 0, 0, u);
    assert MaskByte(a, k) == u * (a / u) && MaskByte(b, k) == u * (b / u);
  }

  /** The last byte adds to the quotient what the mask leaves of it. */
  lemma LastByteDivided(x: nat, y: nat, a: byte, b: byte, k: nat)
    requires k <= 8
    ensures (x * 256 + a) / Unit(k) == (y * 256 + b) / Unit(k) <==> x == y && MaskByte(a, k) == MaskByte(b, k)
  {
    var u, w := Unit(k), 256 / Unit(k);
    assert u * w == 256;
    LastByteQuotient(x, a, u, w);
    LastByteQuotient(y, b, u, w);
    PlacesUnique(x, y, a / u, b / u, w);
    MaskEqualIff(a, b, k);
  }

  lemma DropLastByte(x: nat, a: byte, d: nat)
    requires d > 0
    ensures (x * 256 + a) / (256 * d) == x / d
  {
    var q, r := x / d, x % d;
    assert x == d * q + r;
    assert x * 256 + a == (256 * d) * q + (256 * r + a);
    assert 256 * r + a < 256 * d;
    DivUnique(x * 256 + a, 256 * d, q, 256 * r + a);
  }

  lemma SameNetworkStep(a: Ip, b: Ip, p: nat)
    requires |a| == |b| && a != []
    ensures var n := |a| - 1;
            var q := if p > 8 * n then 8 * n else p;
            SameNetwork(a, b, p)
            <==> SameNetwork(a[..n], b[..n], q) && MaskByte(a[n], MaskBits(p, n)) == MaskByte(b[n], MaskBits(p, n))
  {
    hide MaskByte;
    var n := |a| - 1;
    var q := if p > 8 * n then 8 * n else p;
    forall i | 0 <= i < n ensures MaskBits(p, i) == MaskBits(q, i) {
    }
  }

  /** Addresses are in the same network exactly when their numbers agree but for the bits behind the prefix. */
  lemma {:induction false} SameNetworkIff(a: Ip, b: Ip, p: nat)
    requires |a| == |b| && p <= 8 * |a|
    ensures SameNetwork(a, b, p) <==> FromBE(a) / Pow2(8 * |a| - p) == FromBE(b) / Pow2(8 * |a| - p)
  {
    hide MaskByte, Unit;
    if a != [] {
      hide SameNetwork, Pow2;
      var n := |a| - 1;
      var q := if p > 8 * n then 8 * n else p;
      SameNetworkStep(a, b, p);
      SameNetworkIff(a[..n], b[..n], q);
      if p > 8 * n {
        InLastByte(FromBE(a[..n]), FromBE(b[..n]), a[n], b[n], p - 8 * n);
      } else {
        BeforeLastByte(FromBE(a[..n]), FromBE(b[..n]), a[n], b[n], 8 * n - p);
      }
    }
  }

  lemma InLastByte(x: nat, y: nat, a: byte, b: byte, k: nat)
    requires k <= 8
    ensures (x * 256 + a) / Pow2(8 - k) == (y * 256 + b) / Pow2(8 - k)
            <==> x / Pow2(0) == y / Pow2(0) && MaskByte(a, k) == MaskByte(b, k)
  {
    hide MaskByte, Unit, Pow2;
    Pow2Zero();
    UnitIsPow2(k);
    LastByteDivided(x, y, a, b, k);
  }

  lemma BeforeLastByte(x: nat, y: nat, a: byte, b: byte, e: nat)
    ensures (x * 256 + a) / Pow2(e + 8) == x / Pow2(e) && (y * 256 + b) / Pow2(e + 8) == y / Pow2(e)
    ensures MaskByte(a, 0) == MaskByte(b, 0)
  {
    hide Pow2;
    Pow2Eight(e);
    DropLastByte(x, a, Pow2(e));
    DropLastByte(y, b, Pow2(e));
  }

  lemma Pow2Zero()
    ensures Pow2(0) == 1
  {
  }

  lemma Pow2Eight(k: nat)
    ensures Pow2(k + 8) == 256 * Pow2(k)
  {
    Pow2Sum(k, 8);
    assert Pow2(8) == 256;
  }
}
