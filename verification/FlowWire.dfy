/**
 * The messages byte by byte: which element of a flow stands at which place, as a collector that knows only the
 * template on the wire reads it.
 */
module FlowWire {
  import opened Wire
  import opened FlowRecord
  import opened FlowCodec

  // ---------------------------------------------------------------- numbers in a message

  function U16At(b: seq<byte>, i: nat): nat
    requires i + 2 <= |b|
  {
    var hi: nat, lo: nat := b[i], b[i + 1];
    hi * 0x100 + lo
  }

  function U32At(b: seq<byte>, i: nat): nat
    requires i + 4 <= |b|
  {
    U16At(b, i) * 0x1_0000 + U16At(b, i + 2)
  }

  function U64At(b: seq<byte>, i: nat): nat
    requires i + 8 <= |b|
  {
    U32At(b, i) * 0x1_0000_0000 + U32At(b, i + 4)
  }

  // ---------------------------------------------------------------- the layout

  predicate CarriesMac(b: seq<byte>, i: nat, m: Mac)
    requires i + 6 <= |b|
  {
    b[i..i + 6] == if m.Mac? && |m.bytes| >= 6 then m.bytes[..6] else [0, 0, 0, 0, 0, 0]
  }

  predicate CarriesV6(b: seq<byte>, i: nat, a: Addr)
    requires i + 16 <= |b|
  {
    b[i..i + 16] == if a.V6? then a.bytes else [0, 0, 0, 0, 0, 0, 0, 0, 0, 0, 0, 0, 0, 0, 0, 0]
  }

  /** The 124 bytes from `at` on are the record of a flow. */
  predicate CarriesFlow(b: seq<byte>, at: nat, f: Flow, protocols: Protocols)
    requires at + 124 <= |b|
  {
    && b[at] == (if f.protocol in protocols.nums then protocols.nums[f.protocol] % 0x100 else 0)
    && b[at + 1] == f.tos % 0x100
    && U16At(b, at + 2) == f.tcpFlags % 0x1_0000
    && CarriesMac(b, at + 4, f.srcMac)
    && CarriesMac(b, at + 10, f.dstMac)
    && U32At(b, at + 16) == (if f.srcAddr.V4? then f.srcAddr.n else 0)
    && U32At(b, at + 20) == (if f.dstAddr.V4? then f.dstAddr.n else 0)
    && U16At(b, at + 24) == f.srcPort % 0x1_0000
    && U16At(b, at + 26) == f.dstPort % 0x1_0000
    && CarriesV6(b, at + 28, f.srcAddr)
    && CarriesV6(b, at + 44, f.dstAddr)
    && U32At(b, at + 60) == f.srcAs % 0x1_0000_0000
    && U32At(b, at + 64) == f.dstAs % 0x1_0000_0000
    && U32At(b, at + 68) == f.inputPort % 0x1_0000_0000
    && U32At(b, at + 72) == f.outputPort % 0x1_0000_0000
    && U64At(b, at + 76) == f.inBytes % 0x1_0000_0000_0000_0000
    && U64At(b, at + 84) == f.outBytes % 0x1_0000_0000_0000_0000
    && U64At(b, at + 92) == f.inPkts % 0x1_0000_0000_0000_0000
    && U64At(b, at + 100) == f.outPkts % 0x1_0000_0000_0000_0000
    // the company in the upper half and the device in the lower one, which runs over into it when it is wider
    && U32At(b, at + 108) == (f.companyId % 0x1_0000 + f.deviceId / 0x1_0000_0000) % 0x1_0000_0000
    && U32At(b, at + 112) == f.deviceId % 0x1_0000_0000
    && U32At(b, at + 116) == f.timestamp % 0x1_0000_0000
    && U32At(b, at + 120) == (f.timestamp + 60) % 0x1_0000_0000
  }

  /** The elements of a record in their order: the ids RFC 5102 gives them, and their widths. */
  const ELEMENTS: seq<(nat, nat)> := [
    (4, 1), (5, 1), (6, 2), (56, 6), (80, 6), (8, 4), (12, 4), (7, 2), (11, 2), (27, 16), (28, 16),
    (16, 4), (17, 4), (10, 4), (14, 4), (1, 8), (23, 8), (2, 8), (24, 8), (138, 8), (150, 4), (151, 4)]

  /** The 92 bytes from `at` on announce template 256 with these elements. */
  predicate IsTemplate(b: seq<byte>, at: nat)
    requires at + 92 <= |b|
  {
    && U16At(b, at) == 256 && U16At(b, at + 2) == 22
    && forall k :: 0 <= k < 22 ==> U16At(b, at + 4 + 4 * k) == ELEMENTS[k].0 && U16At(b, at + 4 + 4 * k + 2) == ELEMENTS[k].1
  }

  /** The 96 bytes from `at` on are a template set of that id. */
  predicate CarriesTemplate(b: seq<byte>, at: nat, setId: nat)
    requires at + 96 <= |b|
  {
    U16At(b, at) == setId && U16At(b, at + 2) == 96 && IsTemplate(b, at + 4)
  }

  /** From `at` on: the template set, and a data set for each flow. */
  predicate CarriesAll(b: seq<byte>, at: nat, setId: nat, flows: seq<Flow>, protocols: Protocols) {
    && |b| == at + 96 + 128 * |flows|
    && CarriesTemplate(b, at, setId)
    && CarriesDataSets(b, at + 96, flows, protocols)
  }

  /** From `at` on a data set for each flow, one after the other. */
  predicate CarriesDataSets(b: seq<byte>, at: nat, flows: seq<Flow>, protocols: Protocols) {
    forall i :: 0 <= i < |flows| ==> CarriesDataSet(b, at + 128 * i, flows[i], protocols)
  }

  predicate CarriesDataSet(b: seq<byte>, at: nat, f: Flow, protocols: Protocols) {
    && at + 128 <= |b|
    && U16At(b, at) == 256 && U16At(b, at + 2) == 128
    && CarriesFlow(b, at + 4, f, protocols)
  }

  predicate IsIpfix(b: seq<byte>, flows: seq<Flow>, protocols: Protocols) {
    && CarriesAll(b, 16, 2, flows, protocols)
    && U16At(b, 0) == 10 && U16At(b, 2) == |b| % 0x1_0000
    && U32At(b, 4) == 0 && U32At(b, 8) == 0 && U32At(b, 12) == 0
  }

  predicate IsNetflow9(b: seq<byte>, flows: seq<Flow>, protocols: Protocols) {
    && CarriesAll(b, 20, 0, flows, protocols)
    && U16At(b, 0) == 9 && U16At(b, 2) == (|flows| + 1) % 0x1_0000
    && U32At(b, 4) == 0 && U32At(b, 8) == 0 && U32At(b, 12) == 0 && U32At(b, 16) == 0
  }

  // ---------------------------------------------------------------- numbers as they are written

  lemma TwoBytes(s: seq<byte>)
    requires |s| == 2
    ensures FromBE(s) == U16At(s, 0)
  {
    assert s[..1] == [s[0]] && s[..1][..0] == [];
    assert FromBE(s[..1]) == s[0];
  }

  lemma Reads16(b: seq<byte>, i: nat, x: int)
    requires i + 2 <= |b| && b[i..i + 2] == BE(x, 2)
    ensures U16At(b, i) == x % 0x1_0000
  {
    hide BE;
    TwoBytes(b[i..i + 2]);
    ReadsBack(x, 2);
    Pow16();
  }

  lemma FourBytes(s: seq<byte>)
    requires |s| == 4
    ensures FromBE(s) == U32At(s, 0)
  {
    assert s[..3][..2] == s[..2];
    TwoBytes(s[..2]);
    assert FromBE(s[..3]) == FromBE(s[..2]) * 256 + s[2];
  }

  lemma Pow32()
    ensures Pow256(4) == 0x1_0000_0000
  {
    assert Pow256(3) == 0x100_0000;
  }

  lemma Reads32(b: seq<byte>, i: nat, x: int)
    requires i + 4 <= |b| && b[i..i + 4] == BE(x, 4)
    ensures U32At(b, i) == x % 0x1_0000_0000
  {
    hide BE, FromBE;
    FourBytes(b[i..i + 4]);
    ReadsBack(x, 4);
    Pow32();
  }

  lemma {:induction false} HalvesOf(x: int, w: nat, v: nat)
    ensures |BE(x, w + v)| == w + v
    ensures BE(x, w + v)[w..] == BE(x, v) && BE(x, w + v)[..w] == BE(x / Pow256(v), w)
    decreases v
  {
    if v > 0 {
      HalvesOf(x / 256, w, v - 1);
      DivTwice(x, Pow256(v - 1));
    } else {
      assert Pow256(0) == 1;
    }
  }

  lemma DivTwice(x: int, d: nat)
    requires d > 0
    ensures x / 256 / d == x / (256 * d)
  {
    var y, l := x / 256, x % 256;
    var q, r := y / d, y % d;
    assert y == d * q + r && x == 256 * y + l;
    assert 256 * (d * q) == (256 * d) * q;
    QuotientIs(x, 256 * d, q, 256 * r + l);
  }

  lemma QuotientIs(x: int, m: nat, q: int, r: nat)
    requires r < m && x == m * q + r
    ensures x / m == q
  {
    var d := x / m - q;
    assert m * d == r - x % m;
    assert d > 0 ==> m * d >= m;
    assert d < 0 ==> m * d + m <= 0;
  }

  /** The two halves of an eight-byte number. */
  lemma ReadsHalves(b: seq<byte>, i: nat, x: int)
    requires i + 8 <= |b| && b[i..i + 8] == BE(x, 8)
    ensures U32At(b, i) == (x / 0x1_0000_0000) % 0x1_0000_0000 && U32At(b, i + 4) == x % 0x1_0000_0000
  {
    hide BE;
    HalvesOf(x, 4, 4);
    Pow32();
    assert b[i..i + 4] == b[i..i + 8][..4] && b[i + 4..i + 8] == b[i..i + 8][4..];
    Reads32(b, i, x / 0x1_0000_0000);
    Reads32(b, i + 4, x);
  }

  lemma Reads64(b: seq<byte>, i: nat, x: int)
    requires i + 8 <= |b| && b[i..i + 8] == BE(x, 8)
    ensures U64At(b, i) == x % 0x1_0000_0000_0000_0000
  {
    hide BE, U32At;
    ReadsHalves(b, i, x);
    TwoPlaces(x, 0x1_0000_0000);
  }

  lemma TwoPlaces(x: int, m: nat)
    requires m > 0
    ensures x % (m * m) == (x / m % m) * m + x % m
  {
    var y, l := x / m, x % m;
    var q, h := y / m, y % m;
    assert y == m * q + h && x == m * y + l;
    assert m * (m * q + h) == (m * m) * q + h * m;
    Below(h, l, m);
    ModUnique(x, m * m, q, h * m + l);
  }

  lemma Below(h: nat, l: nat, m: nat)
    requires h < m && l < m
    ensures h * m + l < m * m
  {
    TimesMonotone(m, h + 1, m);
    assert m * (h + 1) == h * m + m;
  }

  // ---------------------------------------------------------------- one record

  /** Where an element starts in its record. */
  function Offset(k: nat): nat
    requires k <= FIELD_COUNT
  {
    if k == 0 then 0 else Offset(k - 1) + FieldAt(k - 1).length
  }

  lemma {:induction false} ElementAt(f: Flow, protocols: Protocols, k: nat)
    requires Valid(f) && k < FIELD_COUNT
    ensures var record := RecordFrom(f, protocols, 0);
            && Offset(k) + FieldAt(k).length <= |record|
            && record[Offset(k)..] == RecordFrom(f, protocols, k)
            && record[Offset(k)..Offset(k) + FieldAt(k).length] == FieldBytes(f, protocols, FieldAt(k).id)
  {
    hide FieldBytes, FieldAt;
    var record := RecordFrom(f, protocols, 0);
    if k > 0 {
      ElementAt(f, protocols, k - 1);
      FieldWidth(f, protocols, k - 1);
      var before := RecordFrom(f, protocols, k - 1);
      assert before[FieldAt(k - 1).length..] == RecordFrom(f, protocols, k);
      assert record[Offset(k)..] == record[Offset(k - 1)..][FieldAt(k - 1).length..];
    } else {
      assert record[0..] == record;
    }
    FieldWidth(f, protocols, k);
    var from := RecordFrom(f, protocols, k);
    assert from[..FieldAt(k).length] == FieldBytes(f, protocols, FieldAt(k).id);
    assert record[Offset(k)..Offset(k) + FieldAt(k).length] == record[Offset(k)..][..FieldAt(k).length];
  }

  lemma Offsets()
    ensures Offset(0) == 0 && Offset(1) == 1 && Offset(2) == 2 && Offset(3) == 4 && Offset(4) == 10 && Offset(5) == 16 && Offset(6) == 20
    ensures Offset(7) == 24 && Offset(8) == 26 && Offset(9) == 28 && Offset(10) == 44 && Offset(11) == 60
    ensures Offset(12) == 64 && Offset(13) == 68 && Offset(14) == 72 && Offset(15) == 76 && Offset(16) == 84
    ensures Offset(17) == 92 && Offset(18) == 100 && Offset(19) == 108 && Offset(20) == 116 && Offset(21) == 120
  {
  }

  lemma MacAt(b: seq<byte>, i: nat, m: Mac)
    requires i + 6 <= |b| && ValidMac(m) && b[i..i + 6] == MacBytes(m)
    ensures CarriesMac(b, i, m)
  {
  }

  lemma V6At(b: seq<byte>, i: nat, a: Addr)
    requires i + 16 <= |b| && ValidAddr(a) && b[i..i + 16] == V6Half(a)
    ensures CarriesV6(b, i, a)
  {
  }

  lemma SliceOfSlice(b: seq<byte>, at: nat, n: nat, i: nat, m: nat)
    requires at + n <= |b| && i + m <= n
    ensures b[at..at + n][i..i + m] == b[at + i..at + i + m]
  {
    var r := b[at..at + n];
    var x, y := r[i..i + m], b[at + i..at + i + m];
    forall j | 0 <= j < m ensures x[j] == y[j] {
      assert x[j] == r[i + j];
    }
  }

  /** The bytes of one element of a record within a message. */
  lemma ElementIn(b: seq<byte>, at: nat, f: Flow, protocols: Protocols, k: nat)
    requires Valid(f) && k < FIELD_COUNT && at + 124 <= |b| && b[at..at + 124] == RecordFrom(f, protocols, 0)
    ensures Offset(k) + FieldAt(k).length <= 124
    ensures b[at + Offset(k)..at + Offset(k) + FieldAt(k).length] == FieldBytes(f, protocols, FieldAt(k).id)
  {
    hide RecordFrom, FieldBytes, FieldAt, Offset;
    RecordIs124Bytes(f, protocols);
    ElementAt(f, protocols, k);
    SliceOfSlice(b, at, 124, Offset(k), FieldAt(k).length);
  }

  /** The bytes from `at` on are the record of a flow. */
  ghost predicate IsRecord(b: seq<byte>, at: nat, f: Flow, protocols: Protocols) {
    Valid(f) && at + 124 <= |b| && b[at..at + 124] == RecordFrom(f, protocols, 0)
  }

  lemma Element16(b: seq<byte>, at: nat, f: Flow, protocols: Protocols, k: nat, x: int)
    requires IsRecord(b, at, f, protocols) && k < FIELD_COUNT
    requires FieldAt(k).length == 2 && FieldBytes(f, protocols, FieldAt(k).id) == BE(x, 2)
    ensures Offset(k) + 2 <= 124 && U16At(b, at + Offset(k)) == x % 0x1_0000
  {
    hide RecordFrom, FieldBytes, FieldAt, Offset, BE, U16At;
    ElementIn(b, at, f, protocols, k);
    Reads16(b, at + Offset(k), x);
  }

  lemma Element32(b: seq<byte>, at: nat, f: Flow, protocols: Protocols, k: nat, x: int)
    requires IsRecord(b, at, f, protocols) && k < FIELD_COUNT
    requires FieldAt(k).length == 4 && FieldBytes(f, protocols, FieldAt(k).id) == BE(x, 4)
    ensures Offset(k) + 4 <= 124 && U32At(b, at + Offset(k)) == x % 0x1_0000_0000
  {
    hide RecordFrom, FieldBytes, FieldAt, Offset, BE, U32At;
    ElementIn(b, at, f, protocols, k);
    Reads32(b, at + Offset(k), x);
  }

  lemma Element64(b: seq<byte>, at: nat, f: Flow, protocols: Protocols, k: nat, x: int)
    requires IsRecord(b, at, f, protocols) && k < FIELD_COUNT
    requires FieldAt(k).length == 8 && FieldBytes(f, protocols, FieldAt(k).id) == BE(x, 8)
    ensures Offset(k) + 8 <= 124 && U64At(b, at + Offset(k)) == x % 0x1_0000_0000_0000_0000
    ensures U32At(b, at + Offset(k)) == (x / 0x1_0000_0000) % 0x1_0000_0000 && U32At(b, at + Offset(k) + 4) == x % 0x1_0000_0000
  {
    hide RecordFrom, FieldBytes, FieldAt, Offset, BE, U64At, U32At;
    ElementIn(b, at, f, protocols, k);
    Reads64(b, at + Offset(k), x);
    ReadsHalves(b, at + Offset(k), x);
  }

  lemma CarriesSmall(b: seq<byte>, at: nat, f: Flow, protocols: Protocols)
    requires IsRecord(b, at, f, protocols)
    ensures b[at] == if f.protocol in protocols.nums then protocols.nums[f.protocol] % 0x100 else 0
    ensures b[at + 1] == f.tos % 0x100
    ensures U16At(b, at + 2) == f.tcpFlags % 0x1_0000
    ensures U16At(b, at + 24) == f.srcPort % 0x1_0000 && U16At(b, at + 26) == f.dstPort % 0x1_0000
  {
    hide RecordFrom, Offset, BE, U16At;
    Offsets();
    ElementIn(b, at, f, protocols, 0);
    ElementIn(b, at, f, protocols, 1);
    OneByteOf(protocols.Num(f.protocol));
    OneByteOf(f.tos);
    assert b[at..at + 1][0] == b[at] && b[at + 1..at + 2][0] == b[at + 1];
    Element16(b, at, f, protocols, 2, f.tcpFlags);
    Element16(b, at, f, protocols, 7, f.srcPort);
    Element16(b, at, f, protocols, 8, f.dstPort);
  }

  lemma OneByteOf(x: int)
    ensures BE(x, 1) == [x % 256]
  {
    assert BE(x / 256, 0) == [];
  }

  lemma CarriesMacs(b: seq<byte>, at: nat, f: Flow, protocols: Protocols)
    requires IsRecord(b, at, f, protocols)
    ensures CarriesMac(b, at + 4, f.srcMac) && CarriesMac(b, at + 10, f.dstMac)
  {
    hide RecordFrom, Offset, BE, CarriesMac;
    Offsets();
    ElementIn(b, at, f, protocols, 3);
    MacAt(b, at + 4, f.srcMac);
    ElementIn(b, at, f, protocols, 4);
    MacAt(b, at + 10, f.dstMac);
  }

  lemma CarriesV4s(b: seq<byte>, at: nat, f: Flow, protocols: Protocols)
    requires IsRecord(b, at, f, protocols)
    ensures U32At(b, at + 16) == if f.srcAddr.V4? then f.srcAddr.n else 0
    ensures U32At(b, at + 20) == if f.dstAddr.V4? then f.dstAddr.n else 0
  {
    hide RecordFrom, Offset, BE, U32At;
    Offsets();
    Element32(b, at, f, protocols, 5, V4Half(f.srcAddr));
    Element32(b, at, f, protocols, 6, V4Half(f.dstAddr));
  }

  lemma CarriesV6s(b: seq<byte>, at: nat, f: Flow, protocols: Protocols)
    requires IsRecord(b, at, f, protocols)
    ensures CarriesV6(b, at + 28, f.srcAddr) && CarriesV6(b, at + 44, f.dstAddr)
  {
    hide RecordFrom, Offset, BE, CarriesV6, V6Half;
    Offsets();
    ElementIn(b, at, f, protocols, 9);
    V6At(b, at + 28, f.srcAddr);
    ElementIn(b, at, f, protocols, 10);
    V6At(b, at + 44, f.dstAddr);
  }

  lemma CarriesWords(b: seq<byte>, at: nat, f: Flow, protocols: Protocols)
    requires IsRecord(b, at, f, protocols)
    ensures U32At(b, at + 60) == f.srcAs % 0x1_0000_0000 && U32At(b, at + 64) == f.dstAs % 0x1_0000_0000
    ensures U32At(b, at + 68) == f.inputPort % 0x1_0000_0000 && U32At(b, at + 72) == f.outputPort % 0x1_0000_0000
    ensures U32At(b, at + 116) == f.timestamp % 0x1_0000_0000 && U32At(b, at + 120) == (f.timestamp + 60) % 0x1_0000_0000
  {
    hide RecordFrom, Offset, BE, U32At, IsRecord;
    Offsets();
    Element32(b, at, f, protocols, 11, f.srcAs);
    Element32(b, at, f, protocols, 12, f.dstAs);
    Element32(b, at, f, protocols, 13, f.inputPort);
    Element32(b, at, f, protocols, 14, f.outputPort);
    Element32(b, at, f, protocols, 20, f.timestamp);
    Element32(b, at, f, protocols, 21, f.timestamp + 60);
  }

  lemma CarriesCounters(b: seq<byte>, at: nat, f: Flow, protocols: Protocols)
    requires IsRecord(b, at, f, protocols)
    ensures U64At(b, at + 76) == f.inBytes % 0x1_0000_0000_0000_0000
    ensures U64At(b, at + 84) == f.outBytes % 0x1_0000_0000_0000_0000
    ensures U64At(b, at + 92) == f.inPkts % 0x1_0000_0000_0000_0000
    ensures U64At(b, at + 100) == f.outPkts % 0x1_0000_0000_0000_0000
    ensures U32At(b, at + 108) == (f.companyId % 0x1_0000 + f.deviceId / 0x1_0000_0000) % 0x1_0000_0000
    ensures U32At(b, at + 112) == f.deviceId % 0x1_0000_0000
  {
    hide RecordFrom, Offset, BE, U64At, U32At, IsRecord;
    Offsets();
    Element64(b, at, f, protocols, 15, f.inBytes);
    Element64(b, at, f, protocols, 16, f.outBytes);
    Element64(b, at, f, protocols, 17, f.inPkts);
    Element64(b, at, f, protocols, 18, f.outPkts);
    Element64(b, at, f, protocols, 19, ObservationPoint(f));
  }

  lemma RecordCarriesFlow(b: seq<byte>, at: nat, f: Flow, protocols: Protocols)
    requires IsRecord(b, at, f, protocols)
    ensures at + 124 <= |b| && CarriesFlow(b, at, f, protocols)
  {
    hide RecordFrom, U16At, U32At, U64At, CarriesMac, CarriesV6;
    CarriesSmall(b, at, f, protocols);
    CarriesMacs(b, at, f, protocols);
    CarriesV4s(b, at, f, protocols);
    CarriesV6s(b, at, f, protocols);
    CarriesWords(b, at, f, protocols);
    CarriesCounters(b, at, f, protocols);
  }

  // ---------------------------------------------------------------- whole messages

  lemma {:induction false} SpecsTail(n: nat)
    requires n <= FIELD_COUNT
    ensures |SpecsFrom(0)| == 88 && SpecsFrom(0)[4 * n..] == SpecsFrom(n)
  {
    hide FieldAt, BE;
    SpecsWidthIs(0);
    if n > 0 {
      SpecsTail(n - 1);
      var before := SpecsFrom(n - 1);
      assert before[4..] == SpecsFrom(n);
      assert SpecsFrom(0)[4 * n..] == SpecsFrom(0)[4 * (n - 1)..][4..];
    }
  }

  /** Two numbers of two bytes and what follows them. */
  lemma TwoNumbers(b: seq<byte>, at: nat, x: nat, y: nat, rest: seq<byte>)
    requires x < 0x1_0000 && y < 0x1_0000 && at + 4 + |rest| <= |b|
    requires b[at..at + (4 + |rest|)] == BE(x, 2) + BE(y, 2) + rest
    ensures U16At(b, at) == x && U16At(b, at + 2) == y && b[at + 4..at + 4 + |rest|] == rest
  {
    hide BE, U16At;
    var n := 4 + |rest|;
    var s := b[at..at + n];
    assert s[0..2] == BE(x, 2) && s[2..4] == BE(y, 2) && s[4..n] == rest;
    SliceOfSlice(b, at, n, 0, 2);
    SliceOfSlice(b, at, n, 2, 2);
    SliceOfSlice(b, at, n, 4, |rest|);
    Reads16(b, at, x);
    Reads16(b, at + 2, y);
  }

  lemma TemplateElement(b: seq<byte>, at: nat, k: nat)
    requires k < 22 && at + 88 <= |b| && b[at..at + 88] == SpecsFrom(0)
    ensures U16At(b, at + 4 * k) == ELEMENTS[k].0 && U16At(b, at + 4 * k + 2) == ELEMENTS[k].1
  {
    hide FieldAt, BE, U16At, SpecsFrom;
    SpecsTail(k);
    SpecsStep(k);
    SpecsWidthIs(k + 1);
    ElementsAre(k);
    var from, rest := 4 * k, SpecsFrom(k + 1);
    assert SpecsFrom(0)[from..] == SpecsFrom(0)[from..from + (4 + |rest|)];
    SliceOfSlice(b, at, 88, from, 4 + |rest|);
    TwoNumbers(b, at + from, FieldAt(k).id, FieldAt(k).length, rest);
  }

  lemma SpecsStep(k: nat)
    requires k < FIELD_COUNT
    ensures SpecsFrom(k) == BE(FieldAt(k).id, 2) + BE(FieldAt(k).length, 2) + SpecsFrom(k + 1)
  {
    hide FieldAt, BE;
  }

  lemma TemplateIs(b: seq<byte>, at: nat)
    requires at + 92 <= |b| && b[at..at + 92] == TemplateBytes()
    ensures IsTemplate(b, at)
  {
    hide FieldAt, U16At, SpecsFrom, BE;
    SpecsWidthIs(0);
    TwoNumbers(b, at, 256, 22, SpecsFrom(0));
    forall k | 0 <= k < 22
      ensures U16At(b, at + 4 + 4 * k) == ELEMENTS[k].0 && U16At(b, at + 4 + 4 * k + 2) == ELEMENTS[k].1
    {
      TemplateElement(b, at + 4, k);
    }
  }

  lemma TemplateCarried(b: seq<byte>, at: nat, setId: nat)
    requires setId < 0x1_0000 && at + 96 <= |b| && b[at..at + 96] == SetBytes(setId, TemplateBytes())
    ensures CarriesTemplate(b, at, setId)
  {
    hide U16At, TemplateBytes, BE, IsTemplate;
    SetLengths(EMPTY_FLOW, Protocols(map[], map[]), setId);
    TwoNumbers(b, at, setId, 96, TemplateBytes());
    TemplateIs(b, at + 4);
  }

  lemma ElementsAre(k: nat)
    requires k < 22
    ensures FieldAt(k).id == ELEMENTS[k].0 < 0x1_0000 && FieldAt(k).length == ELEMENTS[k].1 < 0x1_0000
  {
  }

  lemma DataSetCarried(b: seq<byte>, at: nat, f: Flow, protocols: Protocols)
    requires Valid(f) && at + 128 <= |b| && b[at..at + 128] == SetBytes(TEMPLATE_ID, Padded(RecordFrom(f, protocols, 0)))
    ensures CarriesDataSet(b, at, f, protocols)
  {
    hide RecordFrom, BE, U16At, CarriesFlow, Padded;
    SetLengths(f, protocols, TEMPLATE_ID);
    RecordIs124Bytes(f, protocols);
    TwoNumbers(b, at, 256, 128, RecordFrom(f, protocols, 0));
    RecordCarriesFlow(b, at + 4, f, protocols);
  }

  lemma {:induction false} DataSetIn(flows: seq<Flow>, protocols: Protocols, i: nat)
    requires AllValid(flows) && i < |flows|
    ensures |DataSets(flows, protocols)| == 128 * |flows|
    ensures DataSets(flows, protocols)[128 * i..128 * i + 128] == SetBytes(TEMPLATE_ID, Padded(RecordFrom(flows[i], protocols, 0)))
    decreases |flows|
  {
    hide RecordFrom, SetBytes, Padded;
    var n := |flows| - 1;
    var before := DataSets(flows[..n], protocols);
    DataSetsLength(flows, protocols);
    DataSetsLength(flows[..n], protocols);
    if i < n {
      DataSetIn(flows[..n], protocols, i);
      assert DataSets(flows, protocols)[128 * i..128 * i + 128] == before[128 * i..128 * i + 128];
    }
  }

  lemma PaddedIs(record: seq<byte>)
    ensures |record| % 4 == 0 ==> Padded(record) == record
    ensures Padded(record) == record + Zeros(|record| % 4)
  {
  }

  /** From `at` on a data set for each flow. */
  lemma DataSetsCarried(b: seq<byte>, at: nat, flows: seq<Flow>, protocols: Protocols)
    requires AllValid(flows) && at <= |b| && b[at..] == DataSets(flows, protocols)
    ensures |b| == at + 128 * |flows|
    ensures CarriesDataSets(b, at, flows, protocols)
  {
    hide DataSets, SetBytes, CarriesDataSet, Padded, RecordFrom;
    DataSetsLength(flows, protocols);
    forall i | 0 <= i < |flows| ensures CarriesDataSet(b, at + 128 * i, flows[i], protocols) {
      DataSetIn(flows, protocols, i);
      SliceBehind(b, at, 128 * i, 128);
      DataSetCarried(b, at + 128 * i, flows[i], protocols);
    }
  }

  lemma SliceBehind(b: seq<byte>, at: nat, i: nat, m: nat)
    requires at + i + m <= |b|
    ensures b[at..][i..i + m] == b[at + i..at + i + m]
  {
    assert b[at..] == b[at..at + (|b| - at)];
    SliceOfSlice(b, at, |b| - at, i, m);
  }

  lemma PayloadCarried(b: seq<byte>, at: nat, setId: nat, flows: seq<Flow>, protocols: Protocols)
    requires AllValid(flows) && setId < 0x1_0000 && at <= |b| && b[at..] == Payload(flows, protocols, setId)
    ensures CarriesAll(b, at, setId, flows, protocols)
  {
    hide DataSets, SetBytes, TemplateBytes, CarriesTemplate, CarriesDataSets;
    PayloadLength(flows, protocols, setId);
    SetLengths(EMPTY_FLOW, protocols, setId);
    var template, all := SetBytes(setId, TemplateBytes()), DataSets(flows, protocols);
    assert b[at..][..96] == template && b[at..][96..] == all;
    SliceBehind(b, at, 0, 96);
    TemplateCarried(b, at, setId);
    assert b[at + 96..] == b[at..][96..];
    DataSetsCarried(b, at + 96, flows, protocols);
  }

  /** An IPFIX message as it stands on the wire. */
  lemma IpfixOnTheWire(flows: seq<Flow>, protocols: Protocols)
    requires AllValid(flows)
    ensures IsIpfix(IpfixMessage(flows, protocols), flows, protocols)
  {
    hide Payload, BE, U16At, U32At, CarriesAll;
    var m, p := IpfixMessage(flows, protocols), Payload(flows, protocols, IPFIX_TEMPLATE_SET);
    PayloadLength(flows, protocols, IPFIX_TEMPLATE_SET);
    assert m[..2] == BE(10, 2) && m[2..4] == BE(|p| + 16, 2) && m[4..8] == m[8..12] == m[12..16] == BE(0, 4) && m[16..] == p;
    Reads16(m, 0, 10);
    Reads16(m, 2, |p| + 16);
    Reads32(m, 4, 0);
    Reads32(m, 8, 0);
    Reads32(m, 12, 0);
    PayloadCarried(m, 16, 2, flows, protocols);
  }

  /** A v9 packet as it stands on the wire. */
  lemma Netflow9OnTheWire(flows: seq<Flow>, protocols: Protocols)
    requires AllValid(flows)
    ensures IsNetflow9(Netflow9Packet(flows, protocols), flows, protocols)
  {
    hide Payload, BE, U16At, U32At, CarriesAll;
    var m, p := Netflow9Packet(flows, protocols), Payload(flows, protocols, NETFLOW9_TEMPLATE_SET);
    PayloadLength(flows, protocols, NETFLOW9_TEMPLATE_SET);
    assert m[..2] == BE(9, 2) && m[2..4] == BE(|flows| + 1, 2) && m[4..8] == m[8..12] == m[12..16] == m[16..20] == BE(0, 4) && m[20..] == p;
    Reads16(m, 0, 9);
    Reads16(m, 2, |flows| + 1);
    Reads32(m, 4, 0);
    Reads32(m, 8, 0);
    Reads32(m, 12, 0);
    Reads32(m, 16, 0);
    PayloadCarried(m, 20, 0, flows, protocols);
  }
}
