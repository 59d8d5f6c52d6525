/** Bytes: big-endian integers, as encoding/binary writes and reads them, and the start of a mapped address. */
module Wire {
  type byte = x: int | 0 <= x < 256

  function Pow256(w: nat): (p: nat)
    ensures p > 0
  {
    if w == 0 then 1 else 256 * Pow256(w - 1)
  }

  /** The w low-order bytes of x, most significant first; a wider x is truncated. */
  function BE(x: int, w: nat): (b: seq<byte>)
    ensures |b| == w
    decreases w
  {
    if w == 0 then [] else BE(x / 256, w - 1) + [x % 256]
  }

  function FromBE(b: seq<byte>): nat {
    if b == [] then 0 else FromBE(b[..|b| - 1]) * 256 + b[|b| - 1]
  }

  function Zeros(n: nat): (z: seq<byte>)
    ensures |z| == n && forall i :: 0 <= i < n ==> z[i] == 0
  {
    seq(n, i => 0)
  }

  /** The first 12 bytes of an IPv4-mapped IPv6 address. */
  const MAPPED_PREFIX: seq<byte> := Zeros(10) + [255, 255]

  lemma TimesMonotone(d: nat, a: nat, b: nat)
    requires a <= b
    ensures d * a <= d * b
  {
  }

  lemma ModUnique(x: int, m: nat, q: int, r: nat)
    requires r < m && x == m * q + r
    ensures x % m == r
  {
    var d := x / m - q;
    assert m * d == r - x % m;
    assert d > 0 ==> m * d >= m;
    assert d < 0 ==> m * d + m <= 0;
  }

  lemma SplitLowByte(x: int, p: nat)
    requires p > 0
    ensures x % (256 * p) == ((x / 256) % p) * 256 + x % 256
  {
    var h, l := x / 256, x % 256;
    var q, r := h / p, h % p;
    assert h == p * q + r;
    assert x == 256 * (p * q + r) + l;
    assert 256 * (p * q) == (256 * p) * q;
    assert r * 256 + l < 256 * p;
    ModUnique(x, 256 * p, q, r * 256 + l);
  }

  /** Reading back a written integer gives it modulo its width. */
  lemma {:induction false} ReadsBack(x: int, w: nat)
    ensures FromBE(BE(x, w)) == x % Pow256(w)
    decreases w
  {
    if w > 0 {
      ReadsBack(x / 256, w - 1);
      SplitLowByte(x, Pow256(w - 1));
      assert BE(x, w)[..w - 1] == BE(x / 256, w - 1);
    }
  }
}
