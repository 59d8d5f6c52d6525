/**
 * The NetFlow record: which elements a flow is written as, in which order and
 * width, and what a collector that gets all of them back can know of the flow.
 */
module FlowRecord {
  import opened Wire

  /**
   * An address as net.ParseIP understands it: none, IPv4 (also when written as an
   * IPv4-mapped IPv6 address), IPv6, or text that is no address.
   */
  datatype Addr = NoAddr | V4(n: nat) | V6(bytes: seq<byte>) | OtherText(text: string)

  datatype Mac = NoMac | Mac(bytes: seq<byte>) | NotMac(text: string)

  datatype Flow = Flow(
    protocol: string, tos: nat, tcpFlags: nat, srcMac: Mac, dstMac: Mac, srcAddr: Addr, dstAddr: Addr,
    srcPort: nat, dstPort: nat, srcAs: nat, dstAs: nat, inputPort: nat, outputPort: nat,
    inBytes: nat, outBytes: nat, inPkts: nat, outPkts: nat, companyId: nat, deviceId: nat, timestamp: int)

  /** What NewJCHF returns. */
  const EMPTY_FLOW := Flow("", 0, 0, NoMac, NoMac, NoAddr, NoAddr, 0, 0, 0, 0, 0, 0, 0, 0, 0, 0, 0, 0, 0)

  predicate ValidAddr(a: Addr) {
    match a
    case V4(n) => n < 0x1_0000_0000
    case V6(b) => |b| == 16 && b[..12] != MAPPED_PREFIX
    case _ => true
  }

  predicate ValidMac(m: Mac) {
    m.Mac? ==> |m.bytes| in {6, 8, 20}
  }

  predicate Valid(f: Flow) {
    ValidAddr(f.srcAddr) && ValidAddr(f.dstAddr) && ValidMac(f.srcMac) && ValidMac(f.dstMac)
  }

  /** The protocol tables: names by number, and the numbers by name built from them. */
  datatype Protocols = Protocols(names: map<nat, string>, nums: map<string, nat>) {
    ghost predicate Valid() {
      && 0 in names
      && (forall n :: n in names ==> n < 256 && names[n] in nums)
      && (forall p :: p in nums ==> nums[p] in names && names[nums[p]] == p)
    }

    function Num(p: string): nat { if p in nums then nums[p] else 0 }

    function Name(n: nat): string { if n in names then names[n] else "" }
  }

  // ---------------------------------------------------------------- elements

  const PROTOCOL := 4
  const TOS := 5
  const TCP_FLAGS := 6
  const L4_SRC_PORT := 7
  const IPV4_SRC_ADDR := 8
  const INPUT_SNMP := 10
  const L4_DST_PORT := 11
  const IPV4_DST_ADDR := 12
  const OUTPUT_SNMP := 14
  const SRC_AS := 16
  const DST_AS := 17
  const IN_BYTES := 1
  const IN_PKTS := 2
  const OUT_BYTES := 23
  const OUT_PKTS := 24
  const IPV6_SRC_ADDR := 27
  const IPV6_DST_ADDR := 28
  const SRC_MAC := 56
  const DST_MAC := 80
  const OBSERVATION_POINT_ID := 138
  const FLOW_START_SECONDS := 150
  const FLOW_END_SECONDS := 151

  datatype Field = Field(id: nat, length: nat)

  const FIELDS: seq<Field> := [
    Field(PROTOCOL, 1), Field(TOS, 1), Field(TCP_FLAGS, 2), Field(SRC_MAC, 6), Field(DST_MAC, 6),
    Field(IPV4_SRC_ADDR, 4), Field(IPV4_DST_ADDR, 4), Field(L4_SRC_PORT, 2), Field(L4_DST_PORT, 2),
    Field(IPV6_SRC_ADDR, 16), Field(IPV6_DST_ADDR, 16), Field(SRC_AS, 4), Field(DST_AS, 4),
    Field(INPUT_SNMP, 4), Field(OUTPUT_SNMP, 4), Field(IN_BYTES, 8), Field(OUT_BYTES, 8),
    Field(IN_PKTS, 8), Field(OUT_PKTS, 8), Field(OBSERVATION_POINT_ID, 8),
    Field(FLOW_START_SECONDS, 4), Field(FLOW_END_SECONDS, 4)]

  const FIELD_COUNT := 22

  function FieldAt(k: nat): Field
    requires k < FIELD_COUNT
  {
    FIELDS[k]
  }

  // ---------------------------------------------------------------- one record

  /** The IPv4 half of an address, 0 when there is none. */
  function V4Half(a: Addr): nat { if a.V4? then a.n else 0 }

  /** The IPv6 half of an address, zero when there is none. */
  function V6Half(a: Addr): seq<byte> { if a.V6? then a.bytes else Zeros(16) }

  function MacBytes(m: Mac): (b: seq<byte>)
    requires ValidMac(m)
    ensures |b| == 6
  {
    if m.Mac? then m.bytes[..6] else Zeros(6)
  }

  function ObservationPoint(f: Flow): nat {
    (f.companyId % 0x1_0000) * 0x1_0000_0000 + f.deviceId
  }

  /** The bytes one element of a flow is written as. */
  function FieldBytes(f: Flow, protocols: Protocols, id: nat): seq<byte>
    requires Valid(f)
  {
    if id == PROTOCOL then BE(protocols.Num(f.protocol), 1)
    else if id == TOS then BE(f.tos, 1)
    else if id == TCP_FLAGS then BE(f.tcpFlags, 2)
    else if id == SRC_MAC then MacBytes(f.srcMac)
    else if id == DST_MAC then MacBytes(f.dstMac)
    else if id == IPV4_SRC_ADDR then BE(V4Half(f.srcAddr), 4)
    else if id == IPV4_DST_ADDR then BE(V4Half(f.dstAddr), 4)
    else if id == L4_SRC_PORT then BE(f.srcPort, 2)
    else if id == L4_DST_PORT then BE(f.dstPort, 2)
    else if id == IPV6_SRC_ADDR then V6Half(f.srcAddr)
    else if id == IPV6_DST_ADDR then V6Half(f.dstAddr)
    else if id == SRC_AS then BE(f.srcAs, 4)
    else if id == DST_AS then BE(f.dstAs, 4)
    else if id == INPUT_SNMP then BE(f.inputPort, 4)
    else if id == OUTPUT_SNMP then BE(f.outputPort, 4)
    else if id == IN_BYTES then BE(f.inBytes, 8)
    else if id == OUT_BYTES then BE(f.outBytes, 8)
    else if id == IN_PKTS then BE(f.inPkts, 8)
    else if id == OUT_PKTS then BE(f.outPkts, 8)
    else if id == OBSERVATION_POINT_ID then BE(ObservationPoint(f), 8)
    else if id == FLOW_START_SECONDS then BE(f.timestamp, 4)
    else if id == FLOW_END_SECONDS then BE(f.timestamp + 60, 4)
    else []
  }

  /** Every element is written in exactly the width its template announces. */
  lemma FieldWidth(f: Flow, protocols: Protocols, k: nat)
    requires Valid(f) && k < FIELD_COUNT
    ensures |FieldBytes(f, protocols, FieldAt(k).id)| == FieldAt(k).length
  {
  }

  /** The elements of a record from the k-th on. */
  function RecordFrom(f: Flow, protocols: Protocols, k: nat): seq<byte>
    requires Valid(f) && k <= FIELD_COUNT
    decreases FIELD_COUNT - k
  {
    if k == FIELD_COUNT then []
    else FieldBytes(f, protocols, FieldAt(k).id) + RecordFrom(f, protocols, k + 1)
  }

  function WidthFrom(k: nat): nat
    requires k <= FIELD_COUNT
    decreases FIELD_COUNT - k
  {
    if k == FIELD_COUNT then 0 else FieldAt(k).length + WidthFrom(k + 1)
  }

  lemma {:induction false} RecordWidth(f: Flow, protocols: Protocols, k: nat)
    requires Valid(f) && k <= FIELD_COUNT
    ensures |RecordFrom(f, protocols, k)| == WidthFrom(k)
    decreases FIELD_COUNT - k
  {
    hide FieldBytes, FieldAt;
    if k < FIELD_COUNT {
      FieldWidth(f, protocols, k);
      RecordWidth(f, protocols, k + 1);
    }
  }

  const RECORD_LENGTH := 124

  lemma WidthIs124()
    ensures WidthFrom(0) == RECORD_LENGTH
  {
    assert WidthFrom(20) == 8;
    assert WidthFrom(18) == 24;
    assert WidthFrom(16) == 40;
    assert WidthFrom(14) == 52;
    assert WidthFrom(12) == 60;
    assert WidthFrom(10) == 80;
    assert WidthFrom(8) == 98;
    assert WidthFrom(6) == 104;
    assert WidthFrom(4) == 114;
    assert WidthFrom(2) == 122;
  }

  /** A whole record is 124 bytes, so it never needs padding. */
  lemma RecordIs124Bytes(f: Flow, protocols: Protocols)
    requires Valid(f)
    ensures |RecordFrom(f, protocols, 0)| == RECORD_LENGTH && RECORD_LENGTH % 4 == 0
  {
    RecordWidth(f, protocols, 0);
    WidthIs124();
  }
}
