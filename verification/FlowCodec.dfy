/**
 * What the writer emits, and the round trip: reading a written message by its own
 * template gives back the flows, each known up to the width of its elements.
 */
module FlowCodec {
  import opened Options
  import opened Wire
  import opened FlowRecord
  import opened FlowReader

  const TEMPLATE_ID := 256
  const IPFIX_TEMPLATE_SET := 2
  const NETFLOW9_TEMPLATE_SET := 0

  // ---------------------------------------------------------------- the writer

  function SpecsFrom(k: nat): seq<byte>
    requires k <= FIELD_COUNT
    decreases FIELD_COUNT - k
  {
    if k == FIELD_COUNT then [] else BE(FieldAt(k).id, 2) + BE(FieldAt(k).length, 2) + SpecsFrom(k + 1)
  }

  function TemplateBytes(): seq<byte> {
    BE(TEMPLATE_ID, 2) + BE(FIELD_COUNT, 2) + SpecsFrom(0)
  }

  /** A set: its id, its length with this header, and its body. */
  function SetBytes(id: nat, body: seq<byte>): seq<byte> {
    BE(id, 2) + BE(|body| + 4, 2) + body
  }

  /** The writer's padding: as many zeros as the length is past a multiple of four. */
  function Padded(record: seq<byte>): seq<byte> {
    record + Zeros(|record| % 4)
  }

  ghost predicate AllValid(flows: seq<Flow>) {
    forall i :: 0 <= i < |flows| ==> FlowRecord.Valid(flows[i])
  }

  /** One data set per flow. */
  function DataSets(flows: seq<Flow>, protocols: Protocols): seq<byte>
    requires forall i :: 0 <= i < |flows| ==> FlowRecord.Valid(flows[i])
  {
    if flows == [] then []
    else
      var last := |flows| - 1;
      DataSets(flows[..last], protocols) + SetBytes(TEMPLATE_ID, Padded(RecordFrom(flows[last], protocols, 0)))
  }

  function Payload(flows: seq<Flow>, protocols: Protocols, templateSet: nat): seq<byte>
    requires forall i :: 0 <= i < |flows| ==> FlowRecord.Valid(flows[i])
  {
    SetBytes(templateSet, TemplateBytes()) + DataSets(flows, protocols)
  }

  function IpfixMessage(flows: seq<Flow>, protocols: Protocols): seq<byte>
    requires forall i :: 0 <= i < |flows| ==> FlowRecord.Valid(flows[i])
  {
    var payload := Payload(flows, protocols, IPFIX_TEMPLATE_SET);
    BE(IPFIX_VERSION, 2) + BE(|payload| + 16, 2) + BE(0, 4) + BE(0, 4) + BE(0, 4) + payload
  }

  function Netflow9Packet(flows: seq<Flow>, protocols: Protocols): seq<byte>
    requires forall i :: 0 <= i < |flows| ==> FlowRecord.Valid(flows[i])
  {
    BE(NETFLOW9_VERSION, 2) + BE(|flows| + 1, 2) + BE(0, 4) + BE(0, 4) + BE(0, 4) + BE(0, 4)
    + Payload(flows, protocols, NETFLOW9_TEMPLATE_SET)
  }

  // ---------------------------------------------------------------- lengths

  lemma {:induction false} SpecsWidthIs(k: nat)
    requires k <= FIELD_COUNT
    ensures |SpecsFrom(k)| == 4 * (FIELD_COUNT - k)
    decreases FIELD_COUNT - k
  {
    hide FieldAt;
    if k < FIELD_COUNT {
      SpecsWidthIs(k + 1);
    }
  }

  const SET_LENGTH := 128
  const TEMPLATE_SET_LENGTH := 96

  lemma SetLengths(f: Flow, protocols: Protocols, id: nat)
    requires FlowRecord.Valid(f)
    ensures |TemplateBytes()| == TEMPLATE_SET_LENGTH - 4 && |SetBytes(id, TemplateBytes())| == TEMPLATE_SET_LENGTH
    ensures Padded(RecordFrom(f, protocols, 0)) == RecordFrom(f, protocols, 0)
    ensures |SetBytes(id, RecordFrom(f, protocols, 0))| == SET_LENGTH
  {
    hide RecordFrom, SpecsFrom;
    SpecsWidthIs(0);
    RecordIs124Bytes(f, protocols);
  }

  lemma {:induction false} DataSetsLength(flows: seq<Flow>, protocols: Protocols)
    requires AllValid(flows)
    ensures |DataSets(flows, protocols)| == SET_LENGTH * |flows|
  {
    hide RecordFrom, SetBytes, Padded;
    if flows != [] {
      DataSetsLength(flows[..|flows| - 1], protocols);
      SetLengths(flows[|flows| - 1], protocols, TEMPLATE_ID);
    }
  }

  lemma PayloadLength(flows: seq<Flow>, protocols: Protocols, templateSet: nat)
    requires AllValid(flows)
    ensures |Payload(flows, protocols, templateSet)| == TEMPLATE_SET_LENGTH + SET_LENGTH * |flows|
  {
    hide DataSets, SetBytes, TemplateBytes;
    DataSetsLength(flows, protocols);
    SetLengths(EMPTY_FLOW, protocols, templateSet);
  }

  /** The size of a message is 16 + 96 + 128 n, and its Length field says so exactly up to 511 flows. */
  lemma IpfixLengthExactIff(flows: seq<Flow>, protocols: Protocols)
    requires AllValid(flows)
    ensures var m := IpfixMessage(flows, protocols);
            && |m| == 16 + 96 + 128 * |flows|
            && (FromBE(m[2..4]) == |m| <==> |flows| <= 511)
  {
    hide Payload, BE, FromBE;
    var m, p := IpfixMessage(flows, protocols), Payload(flows, protocols, IPFIX_TEMPLATE_SET);
    PayloadLength(flows, protocols, IPFIX_TEMPLATE_SET);
    assert m[2..4] == BE(|p| + 16, 2);
    ReadsBack(|p| + 16, 2);
    Pow16();
  }

  lemma Pow16()
    ensures Pow256(2) == 0x1_0000
  {
    assert Pow256(1) == 256;
  }

  /** The v9 Count is the number of records, the template included, exactly below 65535 flows. */
  lemma Netflow9CountExactIff(flows: seq<Flow>, protocols: Protocols)
    requires AllValid(flows)
    ensures var m := Netflow9Packet(flows, protocols);
            FromBE(m[2..4]) == |flows| + 1 <==> |flows| < 65535
  {
    hide Payload, BE, FromBE;
    var m := Netflow9Packet(flows, protocols);
    assert m[2..4] == BE(|flows| + 1, 2);
    ReadsBack(|flows| + 1, 2);
    Pow16();
  }

  // ---------------------------------------------------------------- reading the template

  /** The template as the reader knows it. */
  function SpecsOf(k: nat): seq<Spec>
    requires k <= FIELD_COUNT
    decreases FIELD_COUNT - k
  {
    if k == FIELD_COUNT then [] else [Spec(FieldAt(k).id, FieldAt(k).length, 0)] + SpecsOf(k + 1)
  }

  lemma ReadBackSmall(x: nat)
    requires x < 0x1_0000
    ensures FromBE(BE(x, 2)) == x
  {
    ReadsBack(x, 2);
    Pow16();
  }

  lemma SmallFields(k: nat)
    requires k < FIELD_COUNT
    ensures FieldAt(k).id < ENTERPRISE_BIT && 0 < FieldAt(k).length < VARIABLE_LENGTH
  {
  }

  lemma ReadsSpec(id: nat, length: nat, more: seq<byte>, n: nat, version: nat, specs: seq<Spec>, rest: seq<byte>)
    requires id < ENTERPRISE_BIT && 0 < length < VARIABLE_LENGTH && ReadSpecs(more, n, version) == Some((specs, rest))
    ensures ReadSpecs(BE(id, 2) + BE(length, 2) + more, n + 1, version) == Some(([Spec(id, length, 0)] + specs, rest))
  {
    hide BE, FromBE;
    var b := BE(id, 2) + BE(length, 2) + more;
    ReadBackSmall(id);
    ReadBackSmall(length);
    assert b[..2] == BE(id, 2) && b[2..4] == BE(length, 2) && b[4..] == more;
  }

  lemma Regroup(a: seq<byte>, b: seq<byte>, c: seq<byte>, d: seq<byte>)
    ensures a + b + c + d == a + b + (c + d)
  {
  }

  lemma {:induction false} ReadsSpecs(k: nat, rest: seq<byte>, version: nat)
    requires k <= FIELD_COUNT
    ensures ReadSpecs(SpecsFrom(k) + rest, FIELD_COUNT - k, version) == Some((SpecsOf(k), rest))
    decreases FIELD_COUNT - k
  {
    hide BE, FromBE, FieldAt;
    if k == FIELD_COUNT {
      assert SpecsFrom(k) + rest == rest;
    } else {
      hide ReadSpecs;
      ReadsSpecs(k + 1, rest, version);
      SmallFields(k);
      var id, length, more := FieldAt(k).id, FieldAt(k).length, SpecsFrom(k + 1) + rest;
      ReadsSpec(id, length, more, FIELD_COUNT - k - 1, version, SpecsOf(k + 1), rest);
      Regroup(BE(id, 2), BE(length, 2), SpecsFrom(k + 1), rest);
    }
  }

  lemma ReadsTemplate(version: nat, domain: nat, session: Session)
    ensures ReadTemplates(TemplateBytes(), version, domain, session) == Some(session[(domain, TEMPLATE_ID) := SpecsOf(0)])
  {
    hide BE, FromBE, SpecsFrom, SpecsOf, ReadSpecs;
    var b := TemplateBytes();
    SpecsWidthIs(0);
    ReadBackSmall(TEMPLATE_ID);
    ReadBackSmall(FIELD_COUNT);
    assert b[..2] == BE(TEMPLATE_ID, 2) && b[2..4] == BE(FIELD_COUNT, 2);
    assert b[4..] == SpecsFrom(0) + [];
    ReadsSpecs(0, [], version);
  }

  // ---------------------------------------------------------------- reading a record

  function RawFrom(f: Flow, protocols: Protocols, k: nat): seq<RawField>
    requires FlowRecord.Valid(f) && k <= FIELD_COUNT
    decreases FIELD_COUNT - k
  {
    if k == FIELD_COUNT then []
    else [RawField(FieldAt(k).id, 0, FieldBytes(f, protocols, FieldAt(k).id))] + RawFrom(f, protocols, k + 1)
  }

  lemma ReadsField(field: seq<byte>, more: seq<byte>, spec: Spec, specs: seq<Spec>, fields: seq<RawField>, rest: seq<byte>)
    requires spec.length == |field| > 0 && spec.enterprise == 0 && ReadRecord(more, specs) == Some((fields, rest))
    ensures ReadRecord(field + more, [spec] + specs) == Some(([RawField(spec.id, 0, field)] + fields, rest))
  {
    var b := field + more;
    assert b[..|field|] == field && b[|field|..] == more;
    assert ([spec] + specs)[1..] == specs;
  }

  lemma {:induction false} ReadsRecord(f: Flow, protocols: Protocols, k: nat, rest: seq<byte>)
    requires FlowRecord.Valid(f) && k <= FIELD_COUNT
    ensures ReadRecord(RecordFrom(f, protocols, k) + rest, SpecsOf(k)) == Some((RawFrom(f, protocols, k), rest))
    decreases FIELD_COUNT - k
  {
    hide FieldBytes, FieldAt;
    if k == FIELD_COUNT {
      assert RecordFrom(f, protocols, k) + rest == rest;
    } else {
      hide ReadRecord;
      ReadsRecord(f, protocols, k + 1, rest);
      var field, more := FieldBytes(f, protocols, FieldAt(k).id), RecordFrom(f, protocols, k + 1) + rest;
      FieldWidth(f, protocols, k);
      SmallFields(k);
      ReadsField(field, more, Spec(FieldAt(k).id, FieldAt(k).length, 0), SpecsOf(k + 1), RawFrom(f, protocols, k + 1), rest);
      assert RecordFrom(f, protocols, k) + rest == field + more;
    }
  }

  lemma {:induction false} SpecsWidthOf(k: nat)
    requires k <= FIELD_COUNT
    ensures SpecsWidth(SpecsOf(k)) == WidthFrom(k)
    decreases FIELD_COUNT - k
  {
    hide FieldAt;
    if k < FIELD_COUNT {
      SpecsWidthOf(k + 1);
      assert SpecsOf(k)[1..] == SpecsOf(k + 1);
    }
  }

  lemma {:induction false} ReadsRecord9(f: Flow, protocols: Protocols, k: nat)
    requires FlowRecord.Valid(f) && k <= FIELD_COUNT
    ensures ReadRecord9(RecordFrom(f, protocols, k), SpecsOf(k)) == RawFrom(f, protocols, k)
    decreases FIELD_COUNT - k
  {
    hide FieldBytes, FieldAt;
    if k < FIELD_COUNT {
      ReadsRecord9(f, protocols, k + 1);
      var b, field := RecordFrom(f, protocols, k), FieldBytes(f, protocols, FieldAt(k).id);
      FieldWidth(f, protocols, k);
      SmallFields(k);
      assert b[..|field|] == field && b[|field|..] == RecordFrom(f, protocols, k + 1);
      assert SpecsOf(k)[1..] == SpecsOf(k + 1);
    }
  }

  /** A data set holds exactly the one record that was written, for both readers. */
  lemma ReadsDataSet(f: Flow, protocols: Protocols)
    requires FlowRecord.Valid(f)
    ensures var record := RecordFrom(f, protocols, 0);
            && ReadRecords(record, SpecsOf(0)) == Some([RawFrom(f, protocols, 0)])
            && ReadRecords9(record, SpecsOf(0)) == Some([RawFrom(f, protocols, 0)])
  {
    hide RecordFrom, RawFrom, SpecsOf, ReadRecord, ReadRecord9, SpecsWidth;
    var record, raw := RecordFrom(f, protocols, 0), RawFrom(f, protocols, 0);
    RecordIs124Bytes(f, protocols);
    ReadsRecord(f, protocols, 0, []);
    assert record + [] == record;
    assert [raw] + [] == [raw];
    ReadsRecord9(f, protocols, 0);
    SpecsWidthOf(0);
    WidthIs124();
    assert record[..|record|] == record;
  }

  // ---------------------------------------------------------------- reading the sets

  function AllRaw(flows: seq<Flow>, protocols: Protocols): seq<seq<RawField>>
    requires forall i :: 0 <= i < |flows| ==> FlowRecord.Valid(flows[i])
  {
    if flows == [] then []
    else AllRaw(flows[..|flows| - 1], protocols) + [RawFrom(flows[|flows| - 1], protocols, 0)]
  }

  ghost predicate Knows(session: Session, domain: nat) {
    (domain, TEMPLATE_ID) in session && session[(domain, TEMPLATE_ID)] == SpecsOf(0)
  }

  /** A set is read back by its header: its id, its body and what follows it. */
  lemma ReadsSet(id: nat, body: seq<byte>, rest: seq<byte>)
    requires id < 0x1_0000 && 0 < |body| && |body| + 4 < 0x1_0000
    ensures var b := SetBytes(id, body) + rest;
            && |b| >= |body| + 4
            && FromBE(b[..2]) == id && FromBE(b[2..4]) == |body| + 4
            && b[4..|body| + 4] == body && b[|body| + 4..] == rest
  {
    hide BE, FromBE;
    var b := SetBytes(id, body) + rest;
    ReadBackSmall(id);
    ReadBackSmall(|body| + 4);
    assert b[..2] == BE(id, 2) && b[2..4] == BE(|body| + 4, 2);
  }

  lemma ReadsOneDataSet(f: Flow, protocols: Protocols, rest: seq<byte>, domain: nat, session: Session, count: nat)
    requires FlowRecord.Valid(f) && Knows(session, domain)
    ensures var b, raw := SetBytes(TEMPLATE_ID, Padded(RecordFrom(f, protocols, 0))) + rest, RawFrom(f, protocols, 0);
            && ReadSets(b, domain, session) == After([raw], ReadSets(rest, domain, session))
            && ReadSets9(b, count + 1, domain, session) == After([raw], ReadSets9(rest, count, domain, session))
  {
    hide RecordFrom, RawFrom, SpecsOf, ReadRecords, ReadRecords9, SetBytes, FromBE, Padded, ReadTemplates;
    var record := RecordFrom(f, protocols, 0);
    SetLengths(f, protocols, TEMPLATE_ID);
    RecordIs124Bytes(f, protocols);
    ReadsDataSet(f, protocols);
    ReadsSet(TEMPLATE_ID, record, rest);
  }

  lemma AfterBoth(records: seq<seq<RawField>>, record: seq<RawField>, r: Read)
    ensures After(records, After([record], r)) == After(records + [record], r)
  {
    assert r.records.Some? ==> records + ([record] + r.records.value) == records + [record] + r.records.value;
  }

  lemma {:induction false} ReadsDataSets(flows: seq<Flow>, protocols: Protocols, rest: seq<byte>, domain: nat, session: Session)
    requires AllValid(flows) && Knows(session, domain)
    ensures ReadSets(DataSets(flows, protocols) + rest, domain, session)
            == After(AllRaw(flows, protocols), ReadSets(rest, domain, session))
    decreases |flows|
  {
    hide RecordFrom, RawFrom, SetBytes, Padded, ReadSets, Knows;
    var r := ReadSets(rest, domain, session);
    if flows == [] {
      assert DataSets(flows, protocols) + rest == rest;
      assert r.records.Some? ==> AllRaw(flows, protocols) + r.records.value == r.records.value;
    } else {
      var before, last := flows[..|flows| - 1], flows[|flows| - 1];
      var one := SetBytes(TEMPLATE_ID, Padded(RecordFrom(last, protocols, 0)));
      ReadsOneDataSet(last, protocols, rest, domain, session, 0);
      ReadsDataSets(before, protocols, one + rest, domain, session);
      assert DataSets(flows, protocols) + rest == DataSets(before, protocols) + (one + rest);
      AfterBoth(AllRaw(before, protocols), RawFrom(last, protocols, 0), r);
    }
  }

  lemma {:induction false} ReadsDataSets9(flows: seq<Flow>, protocols: Protocols, rest: seq<byte>, count: nat,
                                          domain: nat, session: Session)
    requires AllValid(flows) && Knows(session, domain)
    ensures ReadSets9(DataSets(flows, protocols) + rest, |flows| + count, domain, session)
            == After(AllRaw(flows, protocols), ReadSets9(rest, count, domain, session))
    decreases |flows|
  {
    hide RecordFrom, RawFrom, SetBytes, Padded, ReadSets9, Knows;
    var r := ReadSets9(rest, count, domain, session);
    if flows == [] {
      assert DataSets(flows, protocols) + rest == rest;
      assert r.records.Some? ==> AllRaw(flows, protocols) + r.records.value == r.records.value;
    } else {
      var before, last := flows[..|flows| - 1], flows[|flows| - 1];
      var one := SetBytes(TEMPLATE_ID, Padded(RecordFrom(last, protocols, 0)));
      ReadsOneDataSet(last, protocols, rest, domain, session, count);
      ReadsDataSets9(before, protocols, one + rest, count + 1, domain, session);
      assert DataSets(flows, protocols) + rest == DataSets(before, protocols) + (one + rest);
      AfterBoth(AllRaw(before, protocols), RawFrom(last, protocols, 0), r);
    }
  }

  /** The first m data sets are those of the first m flows. */
  lemma {:induction false} FirstDataSets(flows: seq<Flow>, protocols: Protocols, m: nat)
    requires AllValid(flows) && m <= |flows|
    ensures SET_LENGTH * m <= |DataSets(flows, protocols)|
    ensures DataSets(flows, protocols)[..SET_LENGTH * m] == DataSets(flows[..m], protocols)
    decreases |flows|
  {
    hide RecordFrom, SetBytes, Padded;
    DataSetsLength(flows, protocols);
    if m == |flows| {
      assert flows[..m] == flows;
    } else {
      var before := flows[..|flows| - 1];
      FirstDataSets(before, protocols, m);
      assert before[..m] == flows[..m];
      DataSetsLength(before, protocols);
    }
  }
}
