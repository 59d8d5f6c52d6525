/** The round trip of whole messages, and exactly what survives it. */
module FlowRoundTrip {
  import opened Options
  import opened Wire
  import opened FlowRecord
  import opened FlowReader
  import opened FlowCodec

  /** An address comes back unless it is none, no address at all, or the zero address of its family. */
  function ReceivedAddr(a: Addr): Addr {
    match a
    case V4(n) => if n == 0 then NoAddr else a
    case V6(b) => if b == Zeros(16) then NoAddr else a
    case _ => NoAddr
  }

  /** What a collector receives of a flow. */
  function Received(f: Flow, protocols: Protocols): Flow
    requires FlowRecord.Valid(f)
  {
    Flow(
      protocols.Name(protocols.Num(f.protocol)), f.tos % 0x100, f.tcpFlags % 0x1_0000,
      Mac(MacBytes(f.srcMac)), Mac(MacBytes(f.dstMac)), ReceivedAddr(f.srcAddr), ReceivedAddr(f.dstAddr),
      f.srcPort % 0x1_0000, f.dstPort % 0x1_0000, f.srcAs % 0x1_0000_0000, f.dstAs % 0x1_0000_0000,
      f.inputPort % 0x1_0000_0000, f.outputPort % 0x1_0000_0000,
      f.inBytes % 0x1_0000_0000_0000_0000, f.outBytes % 0x1_0000_0000_0000_0000,
      f.inPkts % 0x1_0000_0000_0000_0000, f.outPkts % 0x1_0000_0000_0000_0000,
      0, 0, f.timestamp % 0x1_0000_0000)
  }

  /** The same flow without what the reader ignores: the observation point. */
  function Carried(f: Flow): Flow {
    f.(companyId := 0, deviceId := 0)
  }

  function AddrPart(a: Addr, v4: bool, v6: bool): Addr {
    var r := ReceivedAddr(a);
    if (r.V4? && v4) || (r.V6? && v6) then r else NoAddr
  }

  /** What is known of a flow after its first k elements. */
  function Partial(f: Flow, protocols: Protocols, k: nat): Flow
    requires FlowRecord.Valid(f)
  {
    var r := Received(f, protocols);
    Flow(
      if k > 0 then r.protocol else "", if k > 1 then r.tos else 0, if k > 2 then r.tcpFlags else 0,
      if k > 3 then r.srcMac else NoMac, if k > 4 then r.dstMac else NoMac,
      AddrPart(f.srcAddr, k > 5, k > 9), AddrPart(f.dstAddr, k > 6, k > 10),
      if k > 7 then r.srcPort else 0, if k > 8 then r.dstPort else 0,
      if k > 11 then r.srcAs else 0, if k > 12 then r.dstAs else 0,
      if k > 13 then r.inputPort else 0, if k > 14 then r.outputPort else 0,
      if k > 15 then r.inBytes else 0, if k > 16 then r.outBytes else 0,
      if k > 17 then r.inPkts else 0, if k > 18 then r.outPkts else 0,
      0, 0, if k > 20 then r.timestamp else 0)
  }

  function RawField0(f: Flow, protocols: Protocols, k: nat): RawField
    requires FlowRecord.Valid(f) && k < FIELD_COUNT
  {
    RawField(FieldAt(k).id, 0, FieldBytes(f, protocols, FieldAt(k).id))
  }

  lemma Powers()
    ensures Pow256(1) == 0x100 && Pow256(2) == 0x1_0000 && Pow256(4) == 0x1_0000_0000
    ensures Pow256(8) == 0x1_0000_0000_0000_0000
  {
    assert Pow256(6) == 0x1_0000_0000_0000;
  }

  lemma OneByte(x: int)
    ensures BE(x, 1) == [x % 256]
  {
    assert BE(x / 256, 0) == [];
  }

  /** Where the k-th element of the record is stored. */
  ghost predicate Stores(f: Flow, protocols: Protocols, k: nat)
    requires FlowRecord.Valid(f) && k < FIELD_COUNT
  {
    SetField(Partial(f, protocols, k), protocols, FieldAt(k).id, Translate(RawField0(f, protocols, k)))
    == Some(Partial(f, protocols, k + 1))
  }

  lemma StoresSmall(f: Flow, protocols: Protocols, k: nat)
    requires FlowRecord.Valid(f) && protocols.Valid() && k in {0, 1}
    ensures Stores(f, protocols, k)
  {
    hide BE, FromBE, Pow256, Zeros;
    if k == 0 { OneByte(protocols.Num(f.protocol)); }
    if k == 1 { OneByte(f.tos); }
  }

  lemma StoresPorts(f: Flow, protocols: Protocols, k: nat)
    requires FlowRecord.Valid(f) && k in {2, 7, 8}
    ensures Stores(f, protocols, k)
  {
    hide BE, FromBE, Pow256, Zeros;
    Powers();
    if k == 2 { ReadsBack(f.tcpFlags, 2); }
    if k == 7 { ReadsBack(f.srcPort, 2); }
    if k == 8 { ReadsBack(f.dstPort, 2); }
  }

  lemma StoresWords(f: Flow, protocols: Protocols, k: nat)
    requires FlowRecord.Valid(f) && k in {11, 12, 13, 14}
    ensures Stores(f, protocols, k)
  {
    hide BE, FromBE, Pow256, Zeros;
    Powers();
    if k == 11 { ReadsBack(f.srcAs, 4); }
    if k == 12 { ReadsBack(f.dstAs, 4); }
    if k == 13 { ReadsBack(f.inputPort, 4); }
    if k == 14 { ReadsBack(f.outputPort, 4); }
  }

  lemma StoresCounters(f: Flow, protocols: Protocols, k: nat)
    requires FlowRecord.Valid(f) && k in {15, 16, 17, 18}
    ensures Stores(f, protocols, k)
  {
    hide BE, FromBE, Pow256, Zeros;
    Powers();
    if k == 15 { ReadsBack(f.inBytes, 8); }
    if k == 16 { ReadsBack(f.outBytes, 8); }
    if k == 17 { ReadsBack(f.inPkts, 8); }
    if k == 18 { ReadsBack(f.outPkts, 8); }
  }

  /** Of the last three elements only the start time is kept. */
  lemma StoresTimes(f: Flow, protocols: Protocols, k: nat)
    requires FlowRecord.Valid(f) && k in {19, 20, 21}
    ensures Stores(f, protocols, k)
  {
    hide BE, FromBE, Pow256, Zeros;
    Powers();
    if k == 20 {
      ReadsBack(f.timestamp, 4);
      var b := BE(f.timestamp, 4);
      assert b[..4] == b;
    }
  }

  lemma StoresMacs(f: Flow, protocols: Protocols, k: nat)
    requires FlowRecord.Valid(f) && k in {3, 4}
    ensures Stores(f, protocols, k)
  {
    hide BE, FromBE, Zeros;
  }

  /** Exactly one of the two address elements of an end can set it; the zero address sets nothing. */
  lemma StoresV4(f: Flow, protocols: Protocols, k: nat)
    requires FlowRecord.Valid(f) && k in {5, 6}
    ensures Stores(f, protocols, k)
  {
    hide BE, FromBE, Pow256, Zeros;
    Powers();
    if k == 5 {
      ReadsBack(V4Half(f.srcAddr), 4);
    } else {
      ReadsBack(V4Half(f.dstAddr), 4);
    }
  }

  lemma StoresV6(f: Flow, protocols: Protocols, k: nat)
    requires FlowRecord.Valid(f) && k in {9, 10}
    ensures Stores(f, protocols, k)
  {
    hide FromBE, Zeros, AddrOf;
    if k == 9 { V6HalfIs(f.srcAddr); }
    if k == 10 { V6HalfIs(f.dstAddr); }
  }

  lemma V6HalfIs(a: Addr)
    requires ValidAddr(a)
    ensures AddrOf(V6Half(a)) == V6(V6Half(a))
  {
    assert Zeros(16)[..12][11] == 0 && MAPPED_PREFIX[11] == 255;
  }

  /** Every element is stored as it was written, and nothing else of the flow changes. */
  lemma StoresElement(f: Flow, protocols: Protocols, k: nat)
    requires FlowRecord.Valid(f) && protocols.Valid() && k < FIELD_COUNT
    ensures Stores(f, protocols, k)
  {
    hide Stores;
    if k in {0, 1} {
      StoresSmall(f, protocols, k);
    } else if k in {2, 7, 8} {
      StoresPorts(f, protocols, k);
    } else if k in {3, 4} {
      StoresMacs(f, protocols, k);
    } else if k in {5, 6} {
      StoresV4(f, protocols, k);
    } else if k in {9, 10} {
      StoresV6(f, protocols, k);
    } else if k in {11, 12, 13, 14} {
      StoresWords(f, protocols, k);
    } else if k in {15, 16, 17, 18} {
      StoresCounters(f, protocols, k);
    } else {
      StoresTimes(f, protocols, k);
    }
  }

  lemma {:induction false} DecodesFrom(f: Flow, protocols: Protocols, k: nat)
    requires FlowRecord.Valid(f) && protocols.Valid() && k <= FIELD_COUNT
    ensures DecodeFields(Partial(f, protocols, k), protocols, RawFrom(f, protocols, k)) == Some(Partial(f, protocols, FIELD_COUNT))
    decreases FIELD_COUNT - k
  {
    hide FieldBytes, FieldAt, SetField, Translate, Partial;
    if k < FIELD_COUNT {
      DecodesFrom(f, protocols, k + 1);
      StoresElement(f, protocols, k);
      assert RawFrom(f, protocols, k)[0] == RawField0(f, protocols, k);
      assert RawFrom(f, protocols, k)[1..] == RawFrom(f, protocols, k + 1);
    }
  }

  /** The fields of a record, stored one after the other, make up the received flow. */
  lemma RecordDecodes(f: Flow, protocols: Protocols)
    requires FlowRecord.Valid(f) && protocols.Valid()
    ensures DecodeFields(EMPTY_FLOW, protocols, RawFrom(f, protocols, 0)) == Some(Received(f, protocols))
  {
    hide DecodeFields, RawFrom;
    DecodesFrom(f, protocols, 0);
  }

  // ---------------------------------------------------------------- whole messages

  function ReceivedAll(flows: seq<Flow>, protocols: Protocols): seq<Flow>
    requires forall i :: 0 <= i < |flows| ==> FlowRecord.Valid(flows[i])
  {
    seq(|flows|, i requires 0 <= i < |flows| => Received(flows[i], protocols))
  }

  lemma {:induction false} RecordsDecode(flows: seq<Flow>, protocols: Protocols)
    requires AllValid(flows) && protocols.Valid()
    ensures DecodeRecords(protocols, AllRaw(flows, protocols)) == ReceivedAll(flows, protocols)
  {
    hide RawFrom, DecodeFields, Received;
    if flows != [] {
      var before, last := flows[..|flows| - 1], flows[|flows| - 1];
      RecordsDecode(before, protocols);
      RecordDecodes(last, protocols);
      var all := AllRaw(flows, protocols);
      assert all[..|all| - 1] == AllRaw(before, protocols);
    }
  }

  /** What From returns for the bytes of a message: the flows of its data records, None when it is malformed. */
  function From(b: seq<byte>, protocols: Protocols, session: Session): Option<seq<Flow>> {
    match ReadMessage(b, session).records
    case None => None
    case Some(records) => Some(DecodeRecords(protocols, records))
  }

  lemma ReadsTemplateSet(rest: seq<byte>, domain: nat, session: Session, count: nat)
    ensures var known := session[(domain, TEMPLATE_ID) := SpecsOf(0)];
            && Knows(known, domain)
            && ReadSets(SetBytes(IPFIX_TEMPLATE_SET, TemplateBytes()) + rest, domain, session) == ReadSets(rest, domain, known)
            && ReadSets9(SetBytes(NETFLOW9_TEMPLATE_SET, TemplateBytes()) + rest, count + 1, domain, session)
               == ReadSets9(rest, count, domain, known)
  {
    hide SpecsOf, ReadRecords, ReadRecords9, SetBytes, TemplateBytes, FromBE, ReadTemplates;
    SetLengths(EMPTY_FLOW, Protocols(map[], map[]), 0);
    ReadsSet(IPFIX_TEMPLATE_SET, TemplateBytes(), rest);
    ReadsSet(NETFLOW9_TEMPLATE_SET, TemplateBytes(), rest);
    ReadsTemplate(IPFIX_VERSION, domain, session);
    ReadsTemplate(NETFLOW9_VERSION, domain, session);
  }

  /** The Length field counts whole data sets: what wraps around is 512 of them. */
  lemma LengthWraps(n: nat)
    ensures (16 + 96 + 128 * n) % 0x1_0000 == 16 + 96 + 128 * (n % 512)
  {
    ModUnique(16 + 96 + 128 * n, 0x1_0000, n / 512, 16 + 96 + 128 * (n % 512));
  }

  /** How many flows of an IPFIX message its Length admits. */
  function AdmittedIpfix(n: nat): (r: nat)
    ensures r <= n && r <= 511
  {
    n % 512
  }

  lemma IpfixHeader(flows: seq<Flow>, protocols: Protocols)
    requires AllValid(flows)
    ensures var m := IpfixMessage(flows, protocols);
            && |m| == 16 + 96 + 128 * |flows|
            && FromBE(m[..2]) == IPFIX_VERSION
            && FromBE(m[2..4]) == 16 + 96 + 128 * AdmittedIpfix(|flows|)
            && FromBE(m[12..16]) == 0
            && m[16..] == Payload(flows, protocols, IPFIX_TEMPLATE_SET)
  {
    hide Payload, BE, FromBE;
    var m, p := IpfixMessage(flows, protocols), Payload(flows, protocols, IPFIX_TEMPLATE_SET);
    PayloadLength(flows, protocols, IPFIX_TEMPLATE_SET);
    assert m[..2] == BE(IPFIX_VERSION, 2) && m[2..4] == BE(|p| + 16, 2) && m[12..16] == BE(0, 4) && m[16..] == p;
    ReadBackSmall(IPFIX_VERSION);
    ReadsBack(|p| + 16, 2);
    ReadsBack(0, 4);
    Powers();
    LengthWraps(|flows|);
  }

  /**
   * Reading an IPFIX message of n > 0 flows, with whatever templates were known before,
   * gives the first n mod 512 of them and no error.
   */
  lemma IpfixReceives(flows: seq<Flow>, protocols: Protocols, session: Session)
    requires AllValid(flows) && protocols.Valid()
    ensures From(IpfixMessage(flows, protocols), protocols, session)
            == Some(ReceivedAll(flows[..AdmittedIpfix(|flows|)], protocols))
  {
    hide AdmittedIpfix, IpfixMessage, Payload, ReadSets, ReadSets9, DecodeRecords, ReceivedAll, AllRaw, FromBE;
    var m, first := IpfixMessage(flows, protocols), flows[..AdmittedIpfix(|flows|)];
    IpfixHeader(flows, protocols);
    var n := 96 + 128 * |first|;
    assert m[16..16 + n] == m[16..][..n];
    IpfixSets(flows, protocols, session, |first|);
    RecordsDecode(first, protocols);
  }

  lemma IpfixSets(flows: seq<Flow>, protocols: Protocols, session: Session, n: nat)
    requires AllValid(flows) && n <= |flows|
    ensures 96 + 128 * n <= |Payload(flows, protocols, IPFIX_TEMPLATE_SET)|
    ensures var r := ReadSets(Payload(flows, protocols, IPFIX_TEMPLATE_SET)[..96 + 128 * n], 0, session);
            r.records == Some(AllRaw(flows[..n], protocols))
  {
    hide SetBytes, DataSets, ReadSets, ReadSets9, AllRaw, TemplateBytes, SpecsOf, Knows;
    var known := session[(0, TEMPLATE_ID) := SpecsOf(0)];
    var template, first := SetBytes(IPFIX_TEMPLATE_SET, TemplateBytes()), DataSets(flows[..n], protocols);
    SetLengths(EMPTY_FLOW, Protocols(map[], map[]), IPFIX_TEMPLATE_SET);
    FirstDataSets(flows, protocols, n);
    assert Payload(flows, protocols, IPFIX_TEMPLATE_SET)[..96 + 128 * n] == template + (first + []);
    ReadsTemplateSet(first + [], 0, session, 0);
    assert ReadSets([], 0, known) == Read(known, Some([])) by { ReadsNothing(0, known, 0); }
    ReadsDataSets(flows[..n], protocols, [], 0, known);
    assert AllRaw(flows[..n], protocols) + [] == AllRaw(flows[..n], protocols);
  }

  lemma ReadsNothing(domain: nat, session: Session, count: nat)
    ensures ReadSets([], domain, session) == Read(session, Some([]))
    ensures ReadSets9([], count, domain, session) == Read(session, Some([]))
  {
  }

  /** So an IPFIX message brings all its flows back exactly up to 511 of them. */
  lemma IpfixRoundTripIff(flows: seq<Flow>, protocols: Protocols, session: Session)
    requires AllValid(flows) && protocols.Valid() && flows != []
    ensures From(IpfixMessage(flows, protocols), protocols, session) == Some(ReceivedAll(flows, protocols))
            <==> |flows| <= 511
  {
    hide From, IpfixMessage, Received;
    IpfixReceives(flows, protocols, session);
    assert |ReceivedAll(flows[..AdmittedIpfix(|flows|)], protocols)| == AdmittedIpfix(|flows|);
    assert |ReceivedAll(flows, protocols)| == |flows|;
    if |flows| <= 511 {
      assert flows[..AdmittedIpfix(|flows|)] == flows;
    }
  }

  /** How many flows of a v9 packet its Count admits. */
  function Admitted9(n: nat): (r: nat)
    ensures r <= n && r < 65535
  {
    if (n + 1) % 0x1_0000 == 0 then 0 else (n + 1) % 0x1_0000 - 1
  }

  lemma Netflow9Header(flows: seq<Flow>, protocols: Protocols)
    requires AllValid(flows)
    ensures var m := Netflow9Packet(flows, protocols);
            && |m| == 20 + 96 + 128 * |flows|
            && FromBE(m[..2]) == NETFLOW9_VERSION
            && FromBE(m[2..4]) == (|flows| + 1) % 0x1_0000
            && FromBE(m[16..20]) == 0
            && m[20..] == Payload(flows, protocols, NETFLOW9_TEMPLATE_SET)
  {
    hide Payload, BE, FromBE;
    var m, p := Netflow9Packet(flows, protocols), Payload(flows, protocols, NETFLOW9_TEMPLATE_SET);
    PayloadLength(flows, protocols, NETFLOW9_TEMPLATE_SET);
    assert m[..2] == BE(NETFLOW9_VERSION, 2) && m[2..4] == BE(|flows| + 1, 2) && m[16..20] == BE(0, 4) && m[20..] == p;
    ReadBackSmall(NETFLOW9_VERSION);
    ReadsBack(|flows| + 1, 2);
    ReadsBack(0, 4);
    Powers();
  }

  /** Reading a v9 packet gives as many of its first flows as its Count admits, and no error. */
  lemma Netflow9Receives(flows: seq<Flow>, protocols: Protocols, session: Session)
    requires AllValid(flows) && protocols.Valid()
    ensures From(Netflow9Packet(flows, protocols), protocols, session)
            == Some(ReceivedAll(flows[..Admitted9(|flows|)], protocols))
  {
    hide Netflow9Packet, SetBytes, DataSets, FromBE, ReadSets, ReadSets9, DecodeRecords, ReceivedAll, AllRaw, TemplateBytes, SpecsOf, Knows;
    var m, n := Netflow9Packet(flows, protocols), Admitted9(|flows|);
    Netflow9Header(flows, protocols);
    if (|flows| + 1) % 0x1_0000 == 0 {
      assert DecodeRecords(protocols, []) == ReceivedAll(flows[..0], protocols) by { DecodesNothing(flows, protocols); }
    } else {
      Netflow9Sets(flows, protocols, session, n);
      assert m[20..] == Payload(flows, protocols, NETFLOW9_TEMPLATE_SET);
      RecordsDecode(flows[..n], protocols);
    }
  }

  lemma DecodesNothing(flows: seq<Flow>, protocols: Protocols)
    requires AllValid(flows)
    ensures DecodeRecords(protocols, []) == ReceivedAll(flows[..0], protocols)
  {
  }

  lemma Netflow9Sets(flows: seq<Flow>, protocols: Protocols, session: Session, n: nat)
    requires AllValid(flows) && n <= |flows|
    ensures var r := ReadSets9(Payload(flows, protocols, NETFLOW9_TEMPLATE_SET), n + 1, 0, session);
            r.records == Some(AllRaw(flows[..n], protocols))
  {
    hide SetBytes, DataSets, ReadSets, ReadSets9, AllRaw, TemplateBytes, SpecsOf, Knows;
    var known := session[(0, TEMPLATE_ID) := SpecsOf(0)];
    FirstDataSets(flows, protocols, n);
    var all, first := DataSets(flows, protocols), DataSets(flows[..n], protocols);
    var rest := all[SET_LENGTH * n..];
    assert all == first + rest;
    ReadsTemplateSet(all, 0, session, n);
    assert ReadSets9(rest, 0, 0, known) == Read(known, Some([])) by { ReadsNoMore(rest, 0, known); }
    ReadsDataSets9(flows[..n], protocols, rest, 0, 0, known);
    assert AllRaw(flows[..n], protocols) + [] == AllRaw(flows[..n], protocols);
  }

  lemma ReadsNoMore(rest: seq<byte>, domain: nat, session: Session)
    ensures ReadSets9(rest, 0, domain, session) == Read(session, Some([]))
  {
  }

  /** So a v9 packet brings all its flows back exactly below 65535 of them. */
  lemma Netflow9RoundTripIff(flows: seq<Flow>, protocols: Protocols, session: Session)
    requires AllValid(flows) && protocols.Valid()
    ensures From(Netflow9Packet(flows, protocols), protocols, session) == Some(ReceivedAll(flows, protocols))
            <==> |flows| < 65535
  {
    hide From, Netflow9Packet, Received;
    Netflow9Receives(flows, protocols, session);
    assert |ReceivedAll(flows[..Admitted9(|flows|)], protocols)| == Admitted9(|flows|);
    assert |ReceivedAll(flows, protocols)| == |flows|;
    if |flows| < 65535 {
      assert flows[..Admitted9(|flows|)] == flows;
    }
  }

  predicate Restorable(a: Addr) {
    (a.V4? && a.n != 0) || (a.V6? && a.bytes != Zeros(16)) || a.NoAddr?
  }

  /** A flow is received whole, but for its observation point, exactly when each part fits its element. */
  lemma ReceivedWholeIff(f: Flow, protocols: Protocols)
    requires FlowRecord.Valid(f) && protocols.Valid()
    ensures Received(f, protocols) == Carried(f)
            <==>
            && f.protocol in protocols.nums
            && f.tos < 0x100 && f.tcpFlags < 0x1_0000 && f.srcPort < 0x1_0000 && f.dstPort < 0x1_0000
            && f.srcMac.Mac? && |f.srcMac.bytes| == 6 && f.dstMac.Mac? && |f.dstMac.bytes| == 6
            && Restorable(f.srcAddr) && Restorable(f.dstAddr)
            && f.srcAs < 0x1_0000_0000 && f.dstAs < 0x1_0000_0000
            && f.inputPort < 0x1_0000_0000 && f.outputPort < 0x1_0000_0000
            && f.inBytes < 0x1_0000_0000_0000_0000 && f.outBytes < 0x1_0000_0000_0000_0000
            && f.inPkts < 0x1_0000_0000_0000_0000 && f.outPkts < 0x1_0000_0000_0000_0000
            && 0 <= f.timestamp < 0x1_0000_0000
  {
    assert protocols.names[0] in protocols.nums;
    forall m: Mac | ValidMac(m) ensures Mac(MacBytes(m)) == m <==> m.Mac? && |m.bytes| == 6 {
      if m.Mac? && |m.bytes| == 6 { assert m.bytes[..6] == m.bytes; }
    }
  }
}
