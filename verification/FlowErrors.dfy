/** What the readers make of messages that are cut off, and of sets the writer never emits. */
module FlowErrors {
  import opened Options
  import opened Wire
  import opened FlowRecord
  import opened FlowReader
  import opened FlowCodec
  import opened FlowRoundTrip
  import opened FlowWire

  // ---------------------------------------------------------------- sets by their ids

  /** Legacy ids are an error, reserved ones and unknown templates are skipped. */
  lemma OtherSets(id: nat, body: seq<byte>, rest: seq<byte>, domain: nat, session: Session, count: nat)
    requires id < 0x1_0000 && 0 < |body| && |body| + 4 < 0x1_0000
    ensures var b := SetBytes(id, body) + rest;
            && (id == 0 || id == 1 ==> ReadSets(b, domain, session) == Read(session, None))
            && (4 <= id <= 255 ==> ReadSets(b, domain, session) == ReadSets(rest, domain, session))
            && (256 <= id && (domain, id) !in session ==> ReadSets(b, domain, session) == ReadSets(rest, domain, session))
            && (2 <= id && (domain, id) !in session ==> ReadSets9(b, count + 1, domain, session) == ReadSets9(rest, count, domain, session))
  {
    hide SetBytes, FromBE, ReadTemplates, ReadRecords, ReadRecords9;
    ReadsSet(id, body, rest);
  }

  // ---------------------------------------------------------------- cut off messages

  /** A set that is cut off is an error, for both readers. */
  lemma CutSet(id: nat, body: seq<byte>, r: nat, domain: nat, session: Session, count: nat)
    requires id < 0x1_0000 && 0 < |body| && |body| + 4 < 0x1_0000 && 0 < r < |body| + 4 && count > 0
    ensures |SetBytes(id, body)| == |body| + 4
    ensures ReadSets9(SetBytes(id, body)[..r], count, domain, session) == Read(session, None)
  {
    hide BE, FromBE, ReadTemplates, ReadRecords, ReadRecords9, SetBytes;
    ReadsSet(id, body, []);
    var s := SetBytes(id, body);
    assert s + [] == s && |s| == |body| + 4 by { SetSize(id, body); }
    var b := s[..r];
    if r >= 4 {
      assert b[..2] == s[..2] && b[2..4] == s[2..4];
    }
  }

  lemma SetSize(id: nat, body: seq<byte>)
    ensures |SetBytes(id, body)| == |body| + 4
  {
  }

  lemma CutHeader(b: seq<byte>, session: Session)
    requires (|b| >= 2 ==> FromBE(b[..2]) == IPFIX_VERSION) && (|b| >= 4 ==> FromBE(b[2..4]) > 16)
    ensures ReadMessage(b, session)
            == if |b| < 16 || FromBE(b[2..4]) > |b| then Read(session, None)
               else ReadSets(b[16..FromBE(b[2..4])], FromBE(b[12..16]), session)
  {
    hide ReadSets, ReadSets9, FromBE;
  }

  /** The same bytes at the start of a message that is cut off. */
  lemma CutSlice(m: seq<byte>, n: nat, i: nat, j: nat)
    requires i <= j <= n <= |m|
    ensures m[..n][i..j] == m[i..j]
  {
  }

  /** An IPFIX message is read exactly when it is there as far as its Length says. */
  lemma IpfixCutIff(flows: seq<Flow>, protocols: Protocols, session: Session, n: nat)
    requires AllValid(flows) && n <= |IpfixMessage(flows, protocols)|
    ensures From(IpfixMessage(flows, protocols)[..n], protocols, session)
            == if n < 16 + 96 + 128 * AdmittedIpfix(|flows|) then None else From(IpfixMessage(flows, protocols), protocols, session)
  {
    hide IpfixMessage, ReadSets, ReadSets9, ReadMessage, DecodeRecords, FromBE, AdmittedIpfix, Payload;
    IpfixHeader(flows, protocols);
    var m := IpfixMessage(flows, protocols);
    var b, length := m[..n], 16 + 96 + 128 * AdmittedIpfix(|flows|);
    if n >= 2 {
      CutSlice(m, n, 0, 2);
    }
    if n >= 4 {
      CutSlice(m, n, 2, 4);
    }
    if n >= length {
      CutSlice(m, n, 12, 16);
      CutSlice(m, n, 16, length);
    }
    CutHeader(b, session);
    CutHeader(m, session);
  }

  /** What is left of the data sets of a v9 packet: whole ones, and one that is cut off. */
  lemma CutDataSets(flows: seq<Flow>, protocols: Protocols, k: nat, r: nat, session: Session)
    requires AllValid(flows) && r < 128 && 128 * k + r <= 128 * |flows| && Knows(session, 0)
    ensures |DataSets(flows, protocols)| == 128 * |flows|
    ensures ReadSets9(DataSets(flows, protocols)[..128 * k + r], |flows|, 0, session).records
            == if r > 0 then None else Some(AllRaw(flows[..k], protocols))
  {
    hide DataSets, ReadSets9, AllRaw, SetBytes, Padded, RecordFrom, Knows;
    var all, n := DataSets(flows, protocols), 128 * k + r;
    DataSetsLength(flows, protocols);
    FirstDataSets(flows, protocols, k);
    var tail := all[128 * k..n];
    assert all[..n] == all[..128 * k] + tail;
    ReadsDataSets9(flows[..k], protocols, tail, |flows| - k, 0, session);
    if r == 0 {
      ReadsNothing(0, session, |flows| - k);
      assert tail == [] && AllRaw(flows[..k], protocols) + [] == AllRaw(flows[..k], protocols);
    } else {
      CutTail(flows, protocols, k, r);
      CutSet(TEMPLATE_ID, Padded(RecordFrom(flows[k], protocols, 0)), r, 0, session, |flows| - k);
    }
  }

  lemma CutTail(flows: seq<Flow>, protocols: Protocols, k: nat, r: nat)
    requires AllValid(flows) && k < |flows| && r < 128
    ensures |Padded(RecordFrom(flows[k], protocols, 0))| == 124 && |DataSets(flows, protocols)| == 128 * |flows|
    ensures |SetBytes(TEMPLATE_ID, Padded(RecordFrom(flows[k], protocols, 0)))| == 128
    ensures DataSets(flows, protocols)[128 * k..128 * k + r] == SetBytes(TEMPLATE_ID, Padded(RecordFrom(flows[k], protocols, 0)))[..r]
  {
    hide DataSets, SetBytes, Padded, RecordFrom;
    DataSetIn(flows, protocols, k);
    SetLengths(flows[k], protocols, TEMPLATE_ID);
    RecordIs124Bytes(flows[k], protocols);
    var all := DataSets(flows, protocols);
    SliceOfSlice(all, 128 * k, 128, 0, r);
  }

  /** The template is read, and what is left of the data sets remains. */
  lemma BehindTemplate(flows: seq<Flow>, protocols: Protocols, n: nat, session: Session)
    requires AllValid(flows) && n <= 128 * |flows|
    ensures |Payload(flows, protocols, NETFLOW9_TEMPLATE_SET)| == 96 + 128 * |flows| && |DataSets(flows, protocols)| == 128 * |flows|
    ensures Knows(session[(0, TEMPLATE_ID) := SpecsOf(0)], 0)
    ensures ReadSets9(Payload(flows, protocols, NETFLOW9_TEMPLATE_SET)[..96 + n], |flows| + 1, 0, session)
            == ReadSets9(DataSets(flows, protocols)[..n], |flows|, 0, session[(0, TEMPLATE_ID) := SpecsOf(0)])
  {
    hide DataSets, ReadSets9, SetBytes, TemplateBytes, Knows, SpecsOf, Payload, BE, FromBE, RecordFrom, ReadSets;
    PayloadLength(flows, protocols, NETFLOW9_TEMPLATE_SET);
    DataSetsLength(flows, protocols);
    CutParts(flows, protocols, n);
    ReadsTemplateSet(DataSets(flows, protocols)[..n], 0, session, |flows|);
  }

  lemma CutParts(flows: seq<Flow>, protocols: Protocols, n: nat)
    requires AllValid(flows) && n <= |DataSets(flows, protocols)|
    ensures |Payload(flows, protocols, NETFLOW9_TEMPLATE_SET)| == 96 + |DataSets(flows, protocols)|
    ensures Payload(flows, protocols, NETFLOW9_TEMPLATE_SET)[..96 + n]
            == SetBytes(NETFLOW9_TEMPLATE_SET, TemplateBytes()) + DataSets(flows, protocols)[..n]
  {
    hide DataSets, SetBytes, TemplateBytes, Payload, BE, FromBE, RecordFrom;
    PayloadParts(flows, protocols);
    SetLengths(EMPTY_FLOW, protocols, NETFLOW9_TEMPLATE_SET);
    CutBehind(SetBytes(NETFLOW9_TEMPLATE_SET, TemplateBytes()), DataSets(flows, protocols), n);
  }

  lemma CutPayload(flows: seq<Flow>, protocols: Protocols, k: nat, r: nat, session: Session)
    requires AllValid(flows) && r < 128 && 128 * k + r <= 128 * |flows|
    ensures |Payload(flows, protocols, NETFLOW9_TEMPLATE_SET)| == 96 + 128 * |flows|
    ensures ReadSets9(Payload(flows, protocols, NETFLOW9_TEMPLATE_SET)[..96 + (128 * k + r)], |flows| + 1, 0, session).records
            == if r > 0 then None else Some(AllRaw(flows[..k], protocols))
  {
    hide DataSets, ReadSets9, AllRaw, Knows, SpecsOf, Payload;
    BehindTemplate(flows, protocols, 128 * k + r, session);
    CutDataSets(flows, protocols, k, r, session[(0, TEMPLATE_ID) := SpecsOf(0)]);
  }

  lemma PayloadParts(flows: seq<Flow>, protocols: Protocols)
    requires AllValid(flows)
    ensures Payload(flows, protocols, NETFLOW9_TEMPLATE_SET) == SetBytes(NETFLOW9_TEMPLATE_SET, TemplateBytes()) + DataSets(flows, protocols)
  {
    hide DataSets, SetBytes, TemplateBytes;
  }

  lemma CutBehind(a: seq<byte>, b: seq<byte>, n: nat)
    requires n <= |b|
    ensures (a + b)[..|a| + n] == a + b[..n]
  {
  }

  lemma CutTemplate(flows: seq<Flow>, protocols: Protocols, n: nat, session: Session)
    requires AllValid(flows) && 0 < n < 96
    ensures |Payload(flows, protocols, NETFLOW9_TEMPLATE_SET)| == 96 + 128 * |flows|
    ensures ReadSets9(Payload(flows, protocols, NETFLOW9_TEMPLATE_SET)[..n], |flows| + 1, 0, session).records == None
  {
    hide DataSets, ReadSets9, SetBytes, TemplateBytes;
    PayloadLength(flows, protocols, NETFLOW9_TEMPLATE_SET);
    SetLengths(EMPTY_FLOW, protocols, NETFLOW9_TEMPLATE_SET);
    var template, all := SetBytes(NETFLOW9_TEMPLATE_SET, TemplateBytes()), DataSets(flows, protocols);
    assert (template + all)[..n] == template[..n];
    CutSet(NETFLOW9_TEMPLATE_SET, TemplateBytes(), n, 0, session, |flows| + 1);
  }

  lemma CutHeader9(b: seq<byte>, session: Session)
    requires |b| >= 2 ==> FromBE(b[..2]) == NETFLOW9_VERSION
    requires |b| >= 4 ==> FromBE(b[2..4]) > 0
    ensures ReadMessage(b, session)
            == if |b| <= 20 then Read(session, None) else ReadSets9(b[20..], FromBE(b[2..4]), FromBE(b[16..20]), session)
  {
    hide ReadSets, ReadSets9, FromBE;
  }

  /** The header of a v9 packet that is cut off, and what is left behind it. */
  lemma CutPacket(flows: seq<Flow>, protocols: Protocols, session: Session, n: nat)
    requires AllValid(flows) && |flows| < 65535 && n <= |Netflow9Packet(flows, protocols)|
    ensures |Payload(flows, protocols, NETFLOW9_TEMPLATE_SET)| == 96 + 128 * |flows| && |Netflow9Packet(flows, protocols)| == 116 + 128 * |flows|
    ensures ReadMessage(Netflow9Packet(flows, protocols)[..n], session)
            == if n <= 20 then Read(session, None)
               else ReadSets9(Payload(flows, protocols, NETFLOW9_TEMPLATE_SET)[..n - 20], |flows| + 1, 0, session)
  {
    hide Netflow9Packet, ReadMessage, ReadSets9, FromBE, Payload;
    Netflow9Header(flows, protocols);
    PayloadLength(flows, protocols, NETFLOW9_TEMPLATE_SET);
    var m := Netflow9Packet(flows, protocols);
    var b := m[..n];
    if n >= 2 {
      CutSlice(m, n, 0, 2);
    }
    if n >= 4 {
      CutSlice(m, n, 2, 4);
    }
    if n >= 20 {
      CutSlice(m, n, 16, 20);
      assert b[20..] == m[20..][..n - 20];
    }
    CutHeader9(b, session);
  }

  /** A v9 packet has no length: cut off behind its template, it is an error exactly within a set, and else read as far as it goes. */
  lemma Netflow9CutIff(flows: seq<Flow>, protocols: Protocols, session: Session, k: nat, r: nat)
    requires AllValid(flows) && protocols.Valid() && |flows| < 65535 && r < 128 && 128 * k + r <= 128 * |flows|
    ensures |Netflow9Packet(flows, protocols)| == 116 + 128 * |flows|
    ensures From(Netflow9Packet(flows, protocols)[..116 + 128 * k + r], protocols, session)
            == if r > 0 then None else Some(ReceivedAll(flows[..k], protocols))
  {
    hide Netflow9Packet, ReadMessage, ReadSets9, DecodeRecords, ReceivedAll, Payload, AllRaw;
    Netflow9Header(flows, protocols);
    CutPacket(flows, protocols, session, 116 + 128 * k + r);
    CutPayload(flows, protocols, k, r, session);
    RecordsDecode(flows[..k], protocols);
  }

  /** Cut off within its header or its template, it is an error. */
  lemma Netflow9CutEarly(flows: seq<Flow>, protocols: Protocols, session: Session, n: nat)
    requires AllValid(flows) && |flows| < 65535 && n < 116
    ensures |Netflow9Packet(flows, protocols)| == 116 + 128 * |flows|
    ensures From(Netflow9Packet(flows, protocols)[..n], protocols, session) == None
  {
    hide Netflow9Packet, ReadMessage, ReadSets9, DecodeRecords, Payload;
    Netflow9Header(flows, protocols);
    CutPacket(flows, protocols, session, n);
    if n > 20 {
      CutTemplate(flows, protocols, n - 20, session);
    }
  }
}
