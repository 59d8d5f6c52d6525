/** The NetFlow formatter in its own form: buffers appended to in loops, flows filled in field by field. */
module FlowFormat {
  import opened Options
  import opened Wire
  import opened FlowRecord
  import opened FlowReader
  import opened FlowCodec
  import opened FlowRoundTrip
  import opened FlowWire

  /** A flow under construction. */
  class Jchf {
    var fields: Flow

    constructor ()
      ensures fields == EMPTY_FLOW
    {
      fields := EMPTY_FLOW;
    }
  }

  class NetflowFormat {
    const version: nat
    const protocols: Protocols
    var session: Session

    constructor (version: nat, protocols: Protocols)
      ensures this.version == version && this.protocols == protocols && session == map[]
    {
      this.version, this.protocols, this.session := version, protocols, map[];
    }

    method EncodeTemplate() returns (buf: seq<byte>)
      ensures buf == TemplateBytes()
      ensures |buf| == 92 && IsTemplate(buf, 0)
    {
      hide BE, FieldAt, IsTemplate, SpecsFrom;
      buf := BE(TEMPLATE_ID, 2) + BE(FIELD_COUNT, 2);
      SpecsWidthIs(FIELD_COUNT);
      for k := 0 to FIELD_COUNT
        invariant buf + SpecsFrom(k) == TemplateBytes()
      {
        ghost var was := buf;
        var f := FieldAt(k);
        buf := buf + BE(f.id, 2) + BE(f.length, 2);
        SpecsStep(k);
        Regroup(was, BE(f.id, 2), BE(f.length, 2), SpecsFrom(k + 1));
        ThreeParts(was, BE(f.id, 2), BE(f.length, 2) + SpecsFrom(k + 1));
        ThreeParts(BE(f.id, 2), BE(f.length, 2), SpecsFrom(k + 1));
      }
      SetLengths(EMPTY_FLOW, protocols, 0);
      assert buf[0..92] == buf;
      TemplateIs(buf, 0);
    }

    method EncodeFlow(flow: Flow) returns (buf: seq<byte>)
      requires FlowRecord.Valid(flow)
      ensures buf == RecordFrom(flow, protocols, 0)
      ensures |buf| == 124 && CarriesFlow(buf, 0, flow, protocols)
    {
      hide FieldBytes, FieldAt, CarriesFlow;
      buf := [];
      for k := 0 to FIELD_COUNT
        invariant buf + RecordFrom(flow, protocols, k) == RecordFrom(flow, protocols, 0)
      {
        ghost var was := buf;
        var value := FieldBytes(flow, protocols, FieldAt(k).id);
        buf := buf + value;
        assert buf + RecordFrom(flow, protocols, k + 1) == was + RecordFrom(flow, protocols, k);
      }
      RecordIs124Bytes(flow, protocols);
      assert buf[0..124] == buf;
      RecordCarriesFlow(buf, 0, flow, protocols);
    }

    method WriteWithHeader(buf: seq<byte>, id: nat, body: seq<byte>) returns (out: seq<byte>)
      ensures out == buf + SetBytes(id, body)
    {
      out := buf + BE(id, 2) + BE(|body| + 4, 2);
      out := out + body;
    }

    method AppendFlows(buf: seq<byte>, flows: seq<Flow>) returns (out: seq<byte>)
      requires AllValid(flows)
      ensures IsAppended(out, buf, flows, protocols)
      ensures |out| == |buf| + 128 * |flows|
      ensures CarriesDataSets(out, |buf|, flows, protocols)
    {
      hide RecordFrom, SetBytes, CarriesFlow, CarriesDataSets, Padded;
      out := buf;
      for i := 0 to |flows|
        invariant out == buf + DataSets(flows[..i], protocols)
      {
        var flow := EncodeFlow(flows[i]);
        var n: nat := |flow| % 4;
        if n > 0 {
          flow := flow + Zeros(n);
        }
        out := WriteWithHeader(out, TEMPLATE_ID, flow);
        assert flows[..i + 1][..i] == flows[..i];
        assert flow == Padded(RecordFrom(flows[i], protocols, 0)) by { PaddedIs(flow); }
      }
      assert flows[..|flows|] == flows;
      assert out[|buf|..] == DataSets(flows, protocols);
      DataSetsCarried(out, |buf|, flows, protocols);
    }

    method PackIpfix(flows: seq<Flow>) returns (message: Option<seq<byte>>)
      requires AllValid(flows) && version == IPFIX_VERSION
      ensures message == if flows == [] then None else Some(IpfixMessage(flows, protocols))
      ensures flows != [] ==> IsIpfix(message.value, flows, protocols)
    {
      hide BE, DataSets, SetBytes, TemplateBytes, IsIpfix, IsNetflow9, IsTemplate, CarriesDataSets;
      if flows == [] {
        return None;
      }
      var template := EncodeTemplate();
      var data := WriteWithHeader([], IPFIX_TEMPLATE_SET, template);
      data := AppendFlows(data, flows);
      var buf := BE(version, 2) + BE(|data| + 16, 2) + BE(0, 4) + BE(0, 4) + BE(0, 4);
      assert data == Payload(flows, protocols, IPFIX_TEMPLATE_SET);
      IpfixOnTheWire(flows, protocols);
      return Some(buf + data);
    }

    method Pack9(flows: seq<Flow>) returns (packet: seq<byte>)
      requires AllValid(flows)
      ensures packet == Netflow9Packet(flows, protocols)
      ensures IsNetflow9(packet, flows, protocols)
    {
      hide BE, DataSets, SetBytes, TemplateBytes, IsIpfix, IsNetflow9, IsTemplate, CarriesDataSets;
      var header := BE(NETFLOW9_VERSION, 2) + BE(|flows| + 1, 2) + BE(0, 4) + BE(0, 4) + BE(0, 4) + BE(0, 4);
      packet := header;
      var template := EncodeTemplate();
      packet := WriteWithHeader(packet, NETFLOW9_TEMPLATE_SET, template);
      packet := AppendFlows(packet, flows);
      assert packet == header + Payload(flows, protocols, NETFLOW9_TEMPLATE_SET) by {
        ThreeParts(header, SetBytes(NETFLOW9_TEMPLATE_SET, TemplateBytes()), DataSets(flows, protocols));
      }
      Netflow9OnTheWire(flows, protocols);
    }

    /** Stores one element in a flow; false, and nothing stored, when its value has the wrong type. */
    method SetChfField(flow: Jchf, id: nat, value: Value) returns (ok: bool)
      modifies flow
      ensures var r := SetField(old(flow.fields), protocols, id, value);
              ok == r.Some? && flow.fields == if ok then r.value else old(flow.fields)
      ensures ok <==> IsOfType(id, value)
    {
      if id == PROTOCOL {
        if !value.U8? { return false; }
        flow.fields := flow.fields.(protocol := protocols.Name(value.n));
      } else if id == TOS {
        if !value.U8? { return false; }
        flow.fields := flow.fields.(tos := value.n);
      } else if id == TCP_FLAGS {
        if !value.U16? { return false; }
        flow.fields := flow.fields.(tcpFlags := value.n);
      } else if id == L4_SRC_PORT {
        if !value.U16? { return false; }
        flow.fields := flow.fields.(srcPort := value.n);
      } else if id == L4_DST_PORT {
        if !value.U16? { return false; }
        flow.fields := flow.fields.(dstPort := value.n);
      } else if id == IPV4_SRC_ADDR {
        if !value.IP? { return false; }
        if AddrOf(value.b) != V4(0) { flow.fields := flow.fields.(srcAddr := AddrOf(value.b)); }
      } else if id == IPV4_DST_ADDR {
        if !value.IP? { return false; }
        if AddrOf(value.b) != V4(0) { flow.fields := flow.fields.(dstAddr := AddrOf(value.b)); }
      } else if id == IPV6_SRC_ADDR {
        if !value.IP? { return false; }
        if AddrOf(value.b) != V6(Zeros(16)) { flow.fields := flow.fields.(srcAddr := AddrOf(value.b)); }
      } else if id == IPV6_DST_ADDR {
        if !value.IP? { return false; }
        if AddrOf(value.b) != V6(Zeros(16)) { flow.fields := flow.fields.(dstAddr := AddrOf(value.b)); }
      } else if id == INPUT_SNMP {
        if !value.U32? { return false; }
        flow.fields := flow.fields.(inputPort := value.n);
      } else if id == OUTPUT_SNMP {
        if !value.U32? { return false; }
        flow.fields := flow.fields.(outputPort := value.n);
      } else if id == SRC_AS {
        if !value.U32? { return false; }
        flow.fields := flow.fields.(srcAs := value.n);
      } else if id == DST_AS {
        if !value.U32? { return false; }
        flow.fields := flow.fields.(dstAs := value.n);
      } else if id == IN_PKTS {
        if !value.U64? { return false; }
        flow.fields := flow.fields.(inPkts := value.n);
      } else if id == IN_BYTES {
        if !value.U64? { return false; }
        flow.fields := flow.fields.(inBytes := value.n);
      } else if id == OUT_PKTS {
        if !value.U64? { return false; }
        flow.fields := flow.fields.(outPkts := value.n);
      } else if id == OUT_BYTES {
        if !value.U64? { return false; }
        flow.fields := flow.fields.(outBytes := value.n);
      } else if id == SRC_MAC {
        if !value.HardwareAddr? { return false; }
        flow.fields := flow.fields.(srcMac := Mac(value.b));
      } else if id == DST_MAC {
        if !value.HardwareAddr? { return false; }
        flow.fields := flow.fields.(dstMac := Mac(value.b));
      } else if id == FLOW_START_SECONDS {
        if !value.Time? { return false; }
        flow.fields := flow.fields.(timestamp := value.n);
      }
      return true;
    }

    /** One data record as a flow; on a bad field the whole record is thrown away. */
    method DecodeRecord(fields: seq<RawField>) returns (flow: Option<Flow>)
      ensures flow == DecodeFields(EMPTY_FLOW, protocols, fields)
      ensures flow.Some? <==> forall i :: 0 <= i < |fields| ==> IsOfType(fields[i].id, Translate(fields[i]))
    {
      DecodesIff(EMPTY_FLOW, protocols, fields);
      hide IsOfType;
      hide SetField, Translate;
      var res := new Jchf();
      for i := 0 to |fields|
        invariant fresh(res)
        invariant DecodeFields(res.fields, protocols, fields[i..]) == DecodeFields(EMPTY_FLOW, protocols, fields)
      {
        ghost var was := res.fields;
        assert fields[i..][0] == fields[i] && fields[i..][1..] == fields[i + 1..];
        var ok := SetChfField(res, fields[i].id, Translate(fields[i]));
        if !ok {
          return None;
        }
      }
      assert fields[|fields|..] == [];
      return Some(res.fields);
    }

    /** Reads a message and decodes its records; templates stay known for later messages. */
    method From(raw: seq<byte>) returns (flows: Option<seq<Flow>>)
      modifies this
      ensures flows == FlowRoundTrip.From(raw, protocols, old(session))
      ensures session == ReadMessage(raw, old(session)).known
    {
      hide ReadMessage, DecodeFields;
      var read := ReadMessage(raw, session);
      session := read.known;
      match read.records
      case None =>
        return None;
      case Some(records) =>
        var chfs := [];
        for i := 0 to |records|
          invariant session == read.known
          invariant chfs == DecodeRecords(protocols, records[..i])
        {
          var chf := DecodeRecord(records[i]);
          if chf.Some? {
            chfs := chfs + [chf.value];
          }
          assert records[..i + 1][..i] == records[..i];
        }
        assert records[..|records|] == records;
        return Some(chfs);
    }
  }

  /** The data sets of the flows behind what there was. */
  ghost predicate IsAppended(out: seq<byte>, buf: seq<byte>, flows: seq<Flow>, protocols: Protocols)
    requires AllValid(flows)
  {
    out == buf + DataSets(flows, protocols)
  }

  lemma ThreeParts(a: seq<byte>, b: seq<byte>, c: seq<byte>)
    ensures a + b + c == a + (b + c)
  {
  }
}
