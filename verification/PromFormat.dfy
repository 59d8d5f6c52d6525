/** The Prometheus format in its own form: maps that grow as data points come in. */
module PromFormats {
  import opened Options
  import opened PromModel

  /** Positions with the tags of a data point added, in whatever order the map gives them. */
  method AddTags(positions: map<string, nat>, tags: map<string, string>) returns (all: map<string, nat>)
    requires Numbered(positions)
    ensures Extends(positions, tags, all)
    ensures forall tag :: tag in all <==>
              tag in positions || (tag in tags && (tag == "" || exists i :: 0 <= i < |tag| && !('0' <= tag[i] <= '9')))
  {
    hide IsInvalidTag, Numbered;
    forall tag ensures IsInvalidTag(tag) <==> tag != "" && forall i :: 0 <= i < |tag| ==> '0' <= tag[i] <= '9' {
      InvalidTagIff(tag);
    }
    all := positions;
    var next := |positions|;
    var todo := tags.Keys;
    while todo != {}
      invariant todo <= tags.Keys && next == |all| && Numbered(all)
      invariant forall tag :: tag in all <==> tag in positions || (tag in tags && tag !in todo && !IsInvalidTag(tag))
      invariant forall tag :: tag in positions ==> all[tag] == positions[tag]
    {
      var k :| k in todo;
      todo := todo - {k};
      if IsInvalidTag(k) {
        continue;
      }
      if k !in all {
        NextPosition(all, k);
        all := all[k := next];
        next := next + 1;
      }
    }
  }

  method AddTagLabels(d: PromData, vecTags: map<string, map<string, nat>>) returns (after: map<string, map<string, nat>>)
    requires forall name :: name in vecTags ==> Numbered(vecTags[name])
    ensures d.name in after && after == vecTags[d.name := after[d.name]]
    ensures Extends(if d.name in vecTags then vecTags[d.name] else map[], d.tags, after[d.name])
  {
    hide Numbered, Extends;
    NothingNumbered();
    after := vecTags;
    if d.name !in after {
      after := after[d.name := map[]];
    }
    var all := AddTags(after[d.name], d.tags);
    after := after[d.name := all];
  }

  method GetTagValues(d: PromData, positions: map<string, nat>) returns (tags: seq<string>)
    requires Numbered(positions)
    ensures IsValues(tags, positions, d.tags)
  {
    tags := seq(|positions|, _ => "");
    var todo := d.tags.Keys;
    while todo != {}
      invariant todo <= d.tags.Keys && |tags| == |positions|
      invariant forall k :: k in positions ==> tags[positions[k]] == if k in d.tags && k !in todo then d.tags[k] else ""
    {
      var k :| k in todo;
      todo := todo - {k};
      if k in positions {
        tags := tags[positions[k] := d.tags[k]];
      }
    }
  }

  method ToLabels(positions: map<string, nat>) returns (labels: seq<string>)
    requires Numbered(positions)
    ensures IsLabels(labels, positions)
    ensures forall tag :: tag in positions ==> positions[tag] < |labels| && IsSafe(tag, labels[positions[tag]])
  {
    forall tag ensures IsSafe(tag, MakeSafe(tag)) {
    }
    hide IsSafe, MakeSafe;
    labels := seq(|positions|, _ => "");
    var todo := positions.Keys;
    while todo != {}
      invariant todo <= positions.Keys && |labels| == |positions|
      invariant forall k :: k in positions && k !in todo ==> labels[positions[k]] == MakeSafe(k)
    {
      var k :| k in todo;
      labels := labels[positions[k] := MakeSafe(k)];
      todo := todo - {k};
    }
  }

  class PromFormat {
    const flowsNeeded: int
    var vecTags: map<string, map<string, nat>>
    var seen: map<string, int>
    var vecs: map<string, seq<string>>

    constructor (flowsNeeded: int)
      ensures View() == Prom(map[], map[], map[]) && this.flowsNeeded == flowsNeeded
    {
      this.flowsNeeded, vecTags, seen, vecs := flowsNeeded, map[], map[], map[];
    }

    function View(): Prom
      reads this
    {
      Prom(vecTags, seen, vecs)
    }

    method Write(d: PromData) returns (out: Option<Sample>)
      requires Valid(flowsNeeded, View())
      modifies this
      ensures Valid(flowsNeeded, View()) && Next(flowsNeeded, old(View()), d, View(), out)
      ensures var n := if d.name in old(seen) then old(seen)[d.name] else 0;
              if n < flowsNeeded then out == None && seen == old(seen)[d.name := n + 1] && vecs == old(vecs)
              else
                && out.Some? && out.value.name == d.name && out.value.value == d.value && seen == old(seen) && vecTags == old(vecTags)
                && (d.name in old(vecs) ==> vecs == old(vecs))
    {
      hide Numbered, Extends, IsLabels, IsValues;
      NothingNumbered();
      ghost var was := View();
      var seenSoFar := SeenOf(View(), d.name);
      if seenSoFar < flowsNeeded {
        vecTags := AddTagLabels(d, vecTags);
        seen := seen[d.name := seenSoFar + 1];
        out := None;
      } else {
        if d.name !in vecs {
          var labels := ToLabels(PositionsOf(View(), d.name));
          vecs := vecs[d.name := labels];
        }
        var values := GetTagValues(d, PositionsOf(View(), d.name));
        out := Some(Sample(d.name, values, d.value));
      }
      NextKeepsValid(flowsNeeded, was, d, View(), out);
    }

    method To(data: seq<PromData>) returns (out: seq<Option<Sample>>, ghost states: seq<Prom>)
      requires Valid(flowsNeeded, View())
      modifies this
      ensures Valid(flowsNeeded, View()) && |states| == |data| + 1 && |out| == |data|
      ensures states[0] == old(View()) && states[|data|] == View()
      ensures forall n :: 0 <= n < |data| ==> StepAt(flowsNeeded, states, data, out, n)
    {
      hide Next, Valid;
      out, states := [], [View()];
      for n := 0 to |data|
        invariant Valid(flowsNeeded, View()) && |states| == n + 1 && |out| == n
        invariant states[0] == old(View()) && states[n] == View()
        invariant forall k :: 0 <= k < n ==> StepAt(flowsNeeded, states, data, out, k)
      {
        ghost var states0, out0 := states, out;
        var sample := Write(data[n]);
        out, states := out + [sample], states + [View()];
        forall k | 0 <= k <= n ensures StepAt(flowsNeeded, states, data, out, k) {
          assert k < n ==> StepAt(flowsNeeded, states0, data, out0, k);
        }
      }
    }
  }
}
