/**
 * The collector: the IPFIX and NetFlow v9 readers over a session of templates,
 * and the translation of one element back into a field of a flow.
 *
 * Options templates and elements of variable length never occur in what the writer
 * emits; the readers reject them here. Enterprise elements stay untranslated.
 */
module FlowReader {
  import opened Options
  import opened Wire
  import opened FlowRecord

  /** A field of a template: the element, its width, and its enterprise (0 for IANA elements). */
  datatype Spec = Spec(id: nat, length: nat, enterprise: nat)

  /** The bytes of one field of one data record. */
  datatype RawField = RawField(id: nat, enterprise: nat, bytes: seq<byte>)

  /** The templates seen so far, by observation domain and template id. */
  type Session = map<(nat, nat), seq<Spec>>

  const IPFIX_VERSION := 10
  const NETFLOW9_VERSION := 9
  const ENTERPRISE_BIT := 0x8000
  const VARIABLE_LENGTH := 0xffff

  // ---------------------------------------------------------------- templates

  /** Reads n field specifiers: what they are, and the bytes after them. Only IPFIX has the enterprise bit. */
  function ReadSpecs(b: seq<byte>, n: nat, version: nat): (r: Option<(seq<Spec>, seq<byte>)>)
    ensures r.Some? ==> |r.value.0| == n && |r.value.1| <= |b|
    decreases n
  {
    if n == 0 then Some(([], b))
    else if |b| < 4 then None
    else
      var id, length := FromBE(b[..2]), FromBE(b[2..4]);
      if version == IPFIX_VERSION && length == VARIABLE_LENGTH then None
      else if version == IPFIX_VERSION && id >= ENTERPRISE_BIT then
        if |b| < 8 then None
        else
          match ReadSpecs(b[8..], n - 1, version)
          case None => None
          case Some((specs, rest)) => Some(([Spec(id - ENTERPRISE_BIT, length, FromBE(b[4..8]))] + specs, rest))
      else
        match ReadSpecs(b[4..], n - 1, version)
        case None => None
        case Some((specs, rest)) => Some(([Spec(id, length, 0)] + specs, rest))
  }

  /** Registers every template of a template set. Four bytes or fewer at the end are padding. */
  function ReadTemplates(b: seq<byte>, version: nat, domain: nat, session: Session): Option<Session>
    decreases |b|
  {
    if |b| <= 4 then Some(session)
    else
      var id, count := FromBE(b[..2]), FromBE(b[2..4]);
      match ReadSpecs(b[4..], count, version)
      case None => None
      case Some((specs, rest)) => ReadTemplates(rest, version, domain, session[(domain, id) := specs])
  }

  // ---------------------------------------------------------------- data records

  /** bytes.Buffer.Read into a fresh slice of n bytes: what is missing stays zero. */
  function Take(b: seq<byte>, n: nat): (r: seq<byte>)
    ensures |r| == n
  {
    if n <= |b| then b[..n] else b + Zeros(n - |b|)
  }

  function Drop(b: seq<byte>, n: nat): (r: seq<byte>)
    ensures |r| <= |b|
  {
    if n <= |b| then b[n..] else []
  }

  /** The fields of one IPFIX data record, None when the buffer ends before a field. */
  function ReadRecord(b: seq<byte>, specs: seq<Spec>): (r: Option<(seq<RawField>, seq<byte>)>)
    ensures r.Some? ==> |r.value.1| <= |b|
    decreases |specs|
  {
    if specs == [] then Some(([], b))
    else if specs[0].length > 0 && b == [] then None
    else
      match ReadRecord(Drop(b, specs[0].length), specs[1..])
      case None => None
      case Some((fields, rest)) =>
        Some(([RawField(specs[0].id, specs[0].enterprise, Take(b, specs[0].length))] + fields, rest))
  }

  /** The data records of an IPFIX data set; a last one that is cut off is dropped. */
  function ReadRecords(b: seq<byte>, specs: seq<Spec>): Option<seq<seq<RawField>>>
    decreases |b|
  {
    if b == [] then Some([])
    else
      match ReadRecord(b, specs)
      case None => Some([])
      case Some((fields, rest)) =>
        if |rest| == |b| then None
        else
          match ReadRecords(rest, specs)
          case None => None
          case Some(more) => Some([fields] + more)
  }

  /** The fields of one v9 data record: as many as its bytes last for. */
  function ReadRecord9(b: seq<byte>, specs: seq<Spec>): seq<RawField>
    decreases |specs|
  {
    if specs == [] || b == [] then []
    else [RawField(specs[0].id, 0, Take(b, specs[0].length))] + ReadRecord9(Drop(b, specs[0].length), specs[1..])
  }

  function SpecsWidth(specs: seq<Spec>): nat {
    if specs == [] then 0 else specs[0].length + SpecsWidth(specs[1..])
  }

  /** The data records of a v9 data flow set; fewer than four bytes at the end are padding. */
  function ReadRecords9(b: seq<byte>, specs: seq<Spec>): Option<seq<seq<RawField>>>
    decreases |b|
  {
    if |b| < 4 then Some([])
    else if SpecsWidth(specs) == 0 then None
    else
      match ReadRecords9(Drop(b, SpecsWidth(specs)), specs)
      case None => None
      case Some(more) => Some([ReadRecord9(b[..if SpecsWidth(specs) <= |b| then SpecsWidth(specs) else |b|], specs)] + more)
  }

  // ---------------------------------------------------------------- sets

  /** The templates known after reading, and the data records, or none for an error: what came before it stays known. */
  datatype Read = Read(known: Session, records: Option<seq<seq<RawField>>>)

  function After(records: seq<seq<RawField>>, r: Read): Read {
    if r.records.Some? then r.(records := Some(records + r.records.value)) else r
  }

  /** The sets of an IPFIX message, read in order. */
  function ReadSets(b: seq<byte>, domain: nat, session: Session): Read
    decreases |b|
  {
    if b == [] then Read(session, Some([]))
    else if |b| < 4 then Read(session, None)
    else
      var id, length := FromBE(b[..2]), FromBE(b[2..4]);
      if length <= 4 || length > |b| then Read(session, None)
      else
        var body, rest := b[4..length], b[length..];
        if id < 2 || id == 3 then Read(session, None)
        else if id == 2 then
          match ReadTemplates(body, IPFIX_VERSION, domain, session)
          case None => Read(session, None)
          case Some(known) => ReadSets(rest, domain, known)
        else if id <= 255 || (domain, id) !in session then ReadSets(rest, domain, session)
        else
          match ReadRecords(body, session[(domain, id)])
          case None => Read(session, None)
          case Some(records) => After(records, ReadSets(rest, domain, session))
  }

  /** At most `count` flow sets of a v9 packet, read in order. */
  function ReadSets9(b: seq<byte>, count: nat, source: nat, session: Session): Read
    decreases count
  {
    if b == [] || count == 0 then Read(session, Some([]))
    else if |b| < 4 then Read(session, None)
    else
      var id, length := FromBE(b[..2]), FromBE(b[2..4]);
      if length <= 4 || length > |b| then Read(session, None)
      else
        var body, rest := b[4..length], b[length..];
        if id == 1 then Read(session, None)
        else if id == 0 then
          match ReadTemplates(body, NETFLOW9_VERSION, source, session)
          case None => Read(session, None)
          case Some(known) => ReadSets9(rest, count - 1, source, known)
        else if (source, id) !in session then ReadSets9(rest, count - 1, source, session)
        else
          match ReadRecords9(body, session[(source, id)])
          case None => Read(session, None)
          case Some(records) => After(records, ReadSets9(rest, count - 1, source, session))
  }

  /** Reads a whole message of either version. */
  function ReadMessage(b: seq<byte>, session: Session): Read {
    if |b| < 2 then Read(session, None)
    else if FromBE(b[..2]) == IPFIX_VERSION then
      if |b| < 16 then Read(session, None)
      else
        var length := FromBE(b[2..4]);
        if length <= 16 || length > |b| then Read(session, None)
        else ReadSets(b[16..length], FromBE(b[12..16]), session)
    else if FromBE(b[..2]) == NETFLOW9_VERSION then
      if |b| < 20 then Read(session, None)
      else
        var count := FromBE(b[2..4]);
        if count == 0 then Read(session, Some([]))
        else if |b| == 20 then Read(session, None)
        else ReadSets9(b[20..], count, FromBE(b[16..20]), session)
    else Read(session, None)
  }

  // ---------------------------------------------------------------- one element

  datatype Kind = Unsigned8 | Unsigned16 | Unsigned32 | Unsigned64 | MacAddress | IpAddress(min: nat) | Seconds

  /** The types RFC 5102 gives the elements a flow is made of. */
  function KindOf(id: nat): Option<Kind> {
    if id in {PROTOCOL, TOS} then Some(Unsigned8)
    else if id in {TCP_FLAGS, L4_SRC_PORT, L4_DST_PORT} then Some(Unsigned16)
    else if id in {INPUT_SNMP, OUTPUT_SNMP, SRC_AS, DST_AS} then Some(Unsigned32)
    else if id in {IN_BYTES, IN_PKTS, OUT_BYTES, OUT_PKTS, OBSERVATION_POINT_ID} then Some(Unsigned64)
    else if id in {SRC_MAC, DST_MAC} then Some(MacAddress)
    else if id in {IPV4_SRC_ADDR, IPV4_DST_ADDR} then Some(IpAddress(4))
    else if id in {IPV6_SRC_ADDR, IPV6_DST_ADDR} then Some(IpAddress(16))
    else if id in {FLOW_START_SECONDS, FLOW_END_SECONDS} then Some(Seconds)
    else None
  }

  datatype Value = U8(n: nat) | U16(n: nat) | U32(n: nat) | U64(n: nat) | HardwareAddr(b: seq<byte>) | IP(b: seq<byte>)
                 | Time(n: nat) | Raw(b: seq<byte>) | Untranslated

  /** Reduced-size integers of 1, 2, 3, 4 and 8 bytes are understood, up to the type's own width. */
  function ReducedSize(b: seq<byte>, width: nat): Option<nat> {
    if |b| <= width && |b| in {1, 2, 3, 4, 8} then Some(FromBE(b)) else None
  }

  /** The value of an element of a known type, or its raw bytes when they do not fit the type. */
  function Translate(f: RawField): Value {
    if f.enterprise != 0 then Untranslated
    else
      match KindOf(f.id)
      case None => Untranslated
      case Some(Unsigned8) => if f.bytes == [] then Raw(f.bytes) else U8(f.bytes[0])
      case Some(Unsigned16) => (match ReducedSize(f.bytes, 2) case Some(n) => U16(n) case None => Raw(f.bytes))
      case Some(Unsigned32) => (match ReducedSize(f.bytes, 4) case Some(n) => U32(n) case None => Raw(f.bytes))
      case Some(Unsigned64) => (match ReducedSize(f.bytes, 8) case Some(n) => U64(n) case None => Raw(f.bytes))
      case Some(MacAddress) => if |f.bytes| < 6 then Raw(f.bytes) else HardwareAddr(f.bytes)
      case Some(IpAddress(min)) => if |f.bytes| < min then Raw(f.bytes) else IP(f.bytes)
      case Some(Seconds) => if |f.bytes| < 4 then Raw(f.bytes) else Time(FromBE(f.bytes[..4]))
  }

  /** The address net.IP.String prints. */
  function AddrOf(b: seq<byte>): Addr {
    if |b| == 4 then V4(FromBE(b))
    else if |b| == 16 then (if b[..12] == MAPPED_PREFIX then V4(FromBE(b[12..])) else V6(b))
    else OtherText("?") // of the text for any other length only the leading mark is kept
  }

  /** What setCHFField makes of a flow, None when it rejects the value. */
  function SetField(flow: Flow, protocols: Protocols, id: nat, value: Value): Option<Flow> {
    if id == PROTOCOL then (if value.U8? then Some(flow.(protocol := protocols.Name(value.n))) else None)
    else if id == TOS then (if value.U8? then Some(flow.(tos := value.n)) else None)
    else if id == TCP_FLAGS then (if value.U16? then Some(flow.(tcpFlags := value.n)) else None)
    else if id == L4_SRC_PORT then (if value.U16? then Some(flow.(srcPort := value.n)) else None)
    else if id == L4_DST_PORT then (if value.U16? then Some(flow.(dstPort := value.n)) else None)
    else if id == IPV4_SRC_ADDR then
      (if !value.IP? then None else Some(if AddrOf(value.b) == V4(0) then flow else flow.(srcAddr := AddrOf(value.b))))
    else if id == IPV4_DST_ADDR then
      (if !value.IP? then None else Some(if AddrOf(value.b) == V4(0) then flow else flow.(dstAddr := AddrOf(value.b))))
    else if id == IPV6_SRC_ADDR then
      (if !value.IP? then None else Some(if AddrOf(value.b) == V6(Zeros(16)) then flow else flow.(srcAddr := AddrOf(value.b))))
    else if id == IPV6_DST_ADDR then
      (if !value.IP? then None else Some(if AddrOf(value.b) == V6(Zeros(16)) then flow else flow.(dstAddr := AddrOf(value.b))))
    else if id == INPUT_SNMP then (if value.U32? then Some(flow.(inputPort := value.n)) else None)
    else if id == OUTPUT_SNMP then (if value.U32? then Some(flow.(outputPort := value.n)) else None)
    else if id == SRC_AS then (if value.U32? then Some(flow.(srcAs := value.n)) else None)
    else if id == DST_AS then (if value.U32? then Some(flow.(dstAs := value.n)) else None)
    else if id == IN_PKTS then (if value.U64? then Some(flow.(inPkts := value.n)) else None)
    else if id == IN_BYTES then (if value.U64? then Some(flow.(inBytes := value.n)) else None)
    else if id == OUT_PKTS then (if value.U64? then Some(flow.(outPkts := value.n)) else None)
    else if id == OUT_BYTES then (if value.U64? then Some(flow.(outBytes := value.n)) else None)
    else if id == SRC_MAC then (if value.HardwareAddr? then Some(flow.(srcMac := Mac(value.b))) else None)
    else if id == DST_MAC then (if value.HardwareAddr? then Some(flow.(dstMac := Mac(value.b))) else None)
    else if id == FLOW_START_SECONDS then (if value.Time? then Some(flow.(timestamp := value.n)) else None)
    else Some(flow)
  }

  /** The flow of one data record: one bad field and the record is thrown away. */
  function DecodeFields(flow: Flow, protocols: Protocols, fields: seq<RawField>): Option<Flow>
    decreases |fields|
  {
    if fields == [] then Some(flow)
    else
      match SetField(flow, protocols, fields[0].id, Translate(fields[0]))
      case None => None
      case Some(next) => DecodeFields(next, protocols, fields[1..])
  }

  function DecodeRecords(protocols: Protocols, records: seq<seq<RawField>>): seq<Flow> {
    if records == [] then []
    else
      var last := |records| - 1;
      DecodeRecords(protocols, records[..last])
      + match DecodeFields(EMPTY_FLOW, protocols, records[last]) case None => [] case Some(flow) => [flow]
  }

  // ---------------------------------------------------------------- what is rejected

  /** The type of value an element must have; others are ignored whatever they hold. */
  predicate IsOfType(id: nat, value: Value) {
    if id in {4, 5} then value.U8?
    else if id in {6, 7, 11} then value.U16?
    else if id in {10, 14, 16, 17} then value.U32?
    else if id in {1, 2, 23, 24} then value.U64?
    else if id in {8, 12, 27, 28} then value.IP?
    else if id in {56, 80} then value.HardwareAddr?
    else if id == 150 then value.Time?
    else true
  }

  lemma SetsIff(flow: Flow, protocols: Protocols, id: nat, value: Value)
    ensures SetField(flow, protocols, id, value).Some? <==> IsOfType(id, value)
  {
  }

  /** A record gives a flow exactly when every element of it has its type. */
  lemma {:induction false} DecodesIff(flow: Flow, protocols: Protocols, fields: seq<RawField>)
    ensures DecodeFields(flow, protocols, fields).Some?
            <==> forall i :: 0 <= i < |fields| ==> IsOfType(fields[i].id, Translate(fields[i]))
    decreases |fields|
  {
    hide SetField, Translate, IsOfType;
    if fields != [] {
      var id, value, rest := fields[0].id, Translate(fields[0]), fields[1..];
      SetsIff(flow, protocols, id, value);
      match SetField(flow, protocols, id, value)
      case None =>
      case Some(next) =>
        DecodesIff(next, protocols, rest);
        assert forall i :: 0 < i < |fields| ==> fields[i] == rest[i - 1];
        assert forall i :: 0 <= i < |rest| ==> rest[i] == fields[i + 1];
    }
  }

  /** Numbers may be shorter than their type; other values must be as long as theirs at least. */
  lemma TranslatesIff(f: RawField)
    requires f.enterprise == 0
    ensures f.id in {4, 5} ==> (Translate(f).U8? <==> |f.bytes| >= 1)
    ensures f.id in {6, 7, 11} ==> (Translate(f).U16? <==> |f.bytes| in {1, 2})
    ensures f.id in {10, 14, 16, 17} ==> (Translate(f).U32? <==> |f.bytes| in {1, 2, 3, 4})
    ensures f.id in {1, 2, 23, 24} ==> (Translate(f).U64? <==> |f.bytes| in {1, 2, 3, 4, 8})
    ensures f.id in {8, 12} ==> (Translate(f).IP? <==> |f.bytes| >= 4)
    ensures f.id in {27, 28} ==> (Translate(f).IP? <==> |f.bytes| >= 16)
    ensures f.id in {56, 80} ==> (Translate(f).HardwareAddr? <==> |f.bytes| >= 6)
    ensures f.id == 150 ==> (Translate(f).Time? <==> |f.bytes| >= 4)
    ensures Translate(f).U16? || Translate(f).U32? || Translate(f).U64? ==> Translate(f).n == FromBE(f.bytes)
  {
    hide FromBE;
  }

  /** Four bytes are an IPv4 address, and so are sixteen that map one; any other sixteen are an IPv6 address. */
  lemma AddrOfIs(b: seq<byte>)
    ensures |b| == 4 ==> AddrOf(b) == V4(FromBE(b))
    ensures |b| == 16 && b[..12] == [0, 0, 0, 0, 0, 0, 0, 0, 0, 0, 255, 255] ==> AddrOf(b) == V4(FromBE(b[12..]))
    ensures |b| == 16 && b[..12] != [0, 0, 0, 0, 0, 0, 0, 0, 0, 0, 255, 255] ==> AddrOf(b) == V6(b)
  {
    assert MAPPED_PREFIX == [0, 0, 0, 0, 0, 0, 0, 0, 0, 0, 255, 255];
  }

  /** A record of fields that are not empty is read exactly when the last one has a byte at least; its end may be missing. */
  lemma {:induction false} ReadsRecordIff(b: seq<byte>, specs: seq<Spec>)
    requires specs != [] && forall i :: 0 <= i < |specs| ==> specs[i].length > 0
    ensures ReadRecord(b, specs).Some? <==> |b| + specs[|specs| - 1].length > SpecsWidth(specs)
    decreases |specs|
  {
    var rest := specs[1..];
    if rest == [] {
      assert SpecsWidth(rest) == 0;
    } else {
      assert rest[|rest| - 1] == specs[|specs| - 1];
      ReadsRecordIff(Drop(b, specs[0].length), rest);
      LastFits(rest);
    }
  }

  lemma {:induction false} LastFits(specs: seq<Spec>)
    requires specs != []
    ensures specs[|specs| - 1].length <= SpecsWidth(specs)
  {
    if |specs| > 1 {
      LastFits(specs[1..]);
    }
  }
}
