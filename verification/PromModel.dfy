/** Label vectors: every tag of a metric name has a position, and a vector once made never changes. */
module PromModel {
  import opened Options

  datatype PromData = PromData(name: string, value: real, tags: map<string, string>)

  /** A data point written: the values go to the labels of the vector of its name, position by position. */
  datatype Sample = Sample(name: string, values: seq<string>, value: real)

  /** The vectors are known by their labels. */
  datatype Prom = Prom(vecTags: map<string, map<string, nat>>, seen: map<string, int>, vecs: map<string, seq<string>>)

  function PositionsOf(p: Prom, name: string): map<string, nat> {
    if name in p.vecTags then p.vecTags[name] else map[]
  }

  function SeenOf(p: Prom, name: string): int {
    if name in p.seen then p.seen[name] else 0
  }

  /** A tag of digits only. */
  predicate IsInvalidTag(tag: string) {
    tag != "" && forall i :: 0 <= i < |tag| ==> '0' <= tag[i] <= '9'
  }

  function SafeChar(c: char): char {
    if c == '.' || c == ' ' then '_' else c
  }

  function MakeSafe(tag: string): (safe: string)
    ensures |safe| == |tag|
  {
    seq(|tag|, i requires 0 <= i < |tag| => SafeChar(tag[i]))
  }

  lemma InvalidTagIff(tag: string)
    ensures IsInvalidTag(tag) <==> tag != "" && forall i :: 0 <= i < |tag| ==> '0' <= tag[i] <= '9'
  {
  }

  /** The same but for underscores where there were dots and blanks. */
  predicate IsSafe(tag: string, safe: string) {
    && |safe| == |tag|
    && forall i :: 0 <= i < |tag| ==> safe[i] == if tag[i] in {'.', ' '} then '_' else tag[i]
  }

  // ---------------------------------------------------------------- positions

  ghost predicate HasTagAt(m: map<string, nat>, i: nat) {
    exists tag :: tag in m && m[tag] == i
  }

  /** A bijection onto 0, ..., n - 1. */
  ghost predicate Numbered(m: map<string, nat>) {
    && (forall tag :: tag in m ==> m[tag] < |m|)
    && (forall a, b :: a in m && b in m && m[a] == m[b] ==> a == b)
    && (forall i: nat :: i < |m| ==> HasTagAt(m, i))
  }

  lemma NextPosition(m: map<string, nat>, tag: string)
    requires Numbered(m) && tag !in m
    ensures Numbered(m[tag := |m|]) && |m[tag := |m|]| == |m| + 1
  {
    var t := m[tag := |m|];
    assert t.Keys == m.Keys + {tag};
    assert |t| == |t.Keys| && |m| == |m.Keys|;
    forall i: nat | i < |t| ensures HasTagAt(t, i) {
      if i < |m| {
        assert HasTagAt(m, i);
        var a :| a in m && m[a] == i;
        assert t[a] == i;
      } else {
        assert t[tag] == i;
      }
    }
  }

  /** The tags of a data point that are not numbers are added, at the positions after those there are. */
  ghost predicate Extends(m: map<string, nat>, tags: map<string, string>, t: map<string, nat>) {
    && (forall tag :: tag in t <==> tag in m || (tag in tags && !IsInvalidTag(tag)))
    && (forall tag :: tag in m ==> t[tag] == m[tag])
    && Numbered(t)
  }

  // ---------------------------------------------------------------- labels and values

  ghost predicate IsLabels(labels: seq<string>, m: map<string, nat>) {
    |labels| == |m| && forall tag :: tag in m ==> m[tag] < |labels| && labels[m[tag]] == MakeSafe(tag)
  }

  ghost predicate IsValues(values: seq<string>, m: map<string, nat>, tags: map<string, string>) {
    |values| == |m| && forall tag :: tag in m ==> m[tag] < |values| && values[m[tag]] == if tag in tags then tags[tag] else ""
  }

  /** Two tags get the same label when they differ only in '.', ' ' and '_'; otherwise all labels are distinct. */
  lemma LabelsDistinctIff(labels: seq<string>, m: map<string, nat>)
    requires Numbered(m) && IsLabels(labels, m)
    ensures (forall i, j :: 0 <= i < j < |labels| ==> labels[i] != labels[j])
            <==> (forall a, b :: a in m && b in m && MakeSafe(a) == MakeSafe(b) ==> a == b)
  {
    hide MakeSafe;
    if forall i, j :: 0 <= i < j < |labels| ==> labels[i] != labels[j] {
      forall a, b | a in m && b in m && MakeSafe(a) == MakeSafe(b) ensures a == b {
        assert labels[m[a]] == labels[m[b]];
      }
    }
    if forall a, b :: a in m && b in m && MakeSafe(a) == MakeSafe(b) ==> a == b {
      forall i, j | 0 <= i < j < |labels| ensures labels[i] != labels[j] {
        assert HasTagAt(m, i) && HasTagAt(m, j);
        var a :| a in m && m[a] == i;
        var b :| b in m && m[b] == j;
      }
    }
  }

  // ---------------------------------------------------------------- steps

  /** One data point: counted and its tags added, until enough were seen; then written to the vector of its name. */
  ghost predicate Next(needed: int, p: Prom, d: PromData, q: Prom, out: Option<Sample>) {
    if SeenOf(p, d.name) < needed then
      && out == None && q.vecs == p.vecs && q.seen == p.seen[d.name := SeenOf(p, d.name) + 1]
      && d.name in q.vecTags && q.vecTags == p.vecTags[d.name := q.vecTags[d.name]]
      && Extends(PositionsOf(p, d.name), d.tags, q.vecTags[d.name])
    else
      && q.vecTags == p.vecTags && q.seen == p.seen
      && d.name in q.vecs && (if d.name in p.vecs then q.vecs == p.vecs
                              else q.vecs == p.vecs[d.name := q.vecs[d.name]]
                                   && IsLabels(q.vecs[d.name], PositionsOf(p, d.name)))
      && out.Some? && out.value.name == d.name && out.value.value == d.value
      && IsValues(out.value.values, PositionsOf(p, d.name), d.tags)
  }

  ghost predicate Valid(needed: int, p: Prom) {
    && (forall name :: name in p.vecTags ==> Numbered(p.vecTags[name]))
    && forall name :: name in p.vecs ==> IsLabels(p.vecs[name], PositionsOf(p, name)) && SeenOf(p, name) >= needed
  }

  lemma NextKeepsValid(needed: int, p: Prom, d: PromData, q: Prom, out: Option<Sample>)
    requires Valid(needed, p) && Next(needed, p, d, q, out)
    ensures Valid(needed, q)
    ensures out.Some? ==> d.name in q.vecs && PositionsOf(q, d.name) == PositionsOf(p, d.name)
  {
    hide IsLabels, IsValues, Numbered;
    if SeenOf(p, d.name) < needed {
      assert Numbered(q.vecTags[d.name]) by { ExtendsNumbered(PositionsOf(p, d.name), d.tags, q.vecTags[d.name]); }
    }
  }

  /** A name with a vector has the same one in q, with its tags at the same positions. */
  ghost predicate SameVec(p: Prom, q: Prom, name: string) {
    name in p.vecs ==>
      name in q.vecs && q.vecs[name] == p.vecs[name] && PositionsOf(q, name) == PositionsOf(p, name)
  }

  lemma NextFreezes(needed: int, p: Prom, d: PromData, q: Prom, out: Option<Sample>, name: string)
    requires Valid(needed, p) && Next(needed, p, d, q, out)
    ensures SameVec(p, q, name)
  {
    hide IsLabels, IsValues, Numbered, Extends;
  }

  lemma SameVecRefl(p: Prom, name: string)
    ensures SameVec(p, p, name)
  {
  }

  lemma SameVecTrans(p: Prom, q: Prom, r: Prom, name: string)
    requires SameVec(p, q, name) && SameVec(q, r, name)
    ensures SameVec(p, r, name)
  {
    hide PositionsOf;
  }

  lemma ExtendsNumbered(m: map<string, nat>, tags: map<string, string>, t: map<string, nat>)
    requires Extends(m, tags, t)
    ensures Numbered(t)
  {
  }

  // ---------------------------------------------------------------- runs

  /** A run over some data points: the state before each and after the last, and what each writes. */
  ghost predicate IsRun(needed: int, states: seq<Prom>, data: seq<PromData>, out: seq<Option<Sample>>) {
    && |states| == |data| + 1 && |out| == |data|
    && states[0] == Prom(map[], map[], map[])
    && forall n :: 0 <= n < |data| ==> StepAt(needed, states, data, out, n)
  }

  ghost predicate StepAt(needed: int, states: seq<Prom>, data: seq<PromData>, out: seq<Option<Sample>>, n: nat) {
    && n < |data| && n < |out| && n + 1 < |states|
    && Next(needed, states[n], data[n], states[n + 1], out[n])
  }

  lemma StepOf(needed: int, states: seq<Prom>, data: seq<PromData>, out: seq<Option<Sample>>, n: nat)
    requires IsRun(needed, states, data, out) && n < |data|
    ensures |states| == |data| + 1 && |out| == |data| && Next(needed, states[n], data[n], states[n + 1], out[n])
  {
    hide Next;
    assert StepAt(needed, states, data, out, n);
  }

  lemma {:induction false} RunValid(needed: int, states: seq<Prom>, data: seq<PromData>, out: seq<Option<Sample>>, n: nat)
    requires IsRun(needed, states, data, out) && n < |states|
    ensures Valid(needed, states[n])
  {
    if n > 0 {
      hide Next, Valid;
      RunValid(needed, states, data, out, n - 1);
      StepOf(needed, states, data, out, n - 1);
      NextKeepsValid(needed, states[n - 1], data[n - 1], states[n], out[n - 1]);
    } else {
      hide Next;
    }
  }

  lemma RunSizes(needed: int, states: seq<Prom>, data: seq<PromData>, out: seq<Option<Sample>>)
    requires IsRun(needed, states, data, out)
    ensures |states| == |data| + 1 && |out| == |data|
  {
  }

  /** Once a name has its vector, neither its labels nor the positions of its tags ever change again. */
  lemma {:induction false} Frozen(needed: int, states: seq<Prom>, data: seq<PromData>, out: seq<Option<Sample>>, name: string, m: nat, n: nat)
    requires IsRun(needed, states, data, out) && m <= n < |states|
    ensures SameVec(states[m], states[n], name)
    decreases n
  {
    hide IsRun, Next, Valid, SameVec;
    if m == n {
      SameVecRefl(states[m], name);
    } else {
      Frozen(needed, states, data, out, name, m, n - 1);
      RunValid(needed, states, data, out, n - 1);
      RunSizes(needed, states, data, out);
      StepOf(needed, states, data, out, n - 1);
      NextFreezes(needed, states[n - 1], data[n - 1], states[n], out[n - 1], name);
      SameVecTrans(states[m], states[n - 1], states[n], name);
    }
  }

  /**
   * Every data point ever written passes exactly one value for each label of its vector, and at the position
   * of a tag's label the value of that tag, or nothing if it does not have it.
   */
  lemma WrittenInPlace(needed: int, states: seq<Prom>, data: seq<PromData>, out: seq<Option<Sample>>, n: nat, last: nat)
    requires IsRun(needed, states, data, out) && n < |data| && out[n].Some? && n < last < |states|
    ensures var name, values := data[n].name, out[n].value.values;
            && name in states[last].vecs
            && var labels, positions := states[last].vecs[name], PositionsOf(states[last], name);
            && |values| == |labels| && Numbered(positions)
            && forall tag :: tag in positions ==>
                 && positions[tag] < |labels| && labels[positions[tag]] == MakeSafe(tag)
                 && values[positions[tag]] == if tag in data[n].tags then data[n].tags[tag] else ""
  {
    hide MakeSafe, Numbered;
    RunValid(needed, states, data, out, n);
    RunValid(needed, states, data, out, last);
    assert StepAt(needed, states, data, out, n);
    NextKeepsValid(needed, states[n], data[n], states[n + 1], out[n]);
    Frozen(needed, states, data, out, data[n].name, n + 1, last);
    assert Numbered(PositionsOf(states[last], data[n].name)) by {
      assert Numbered(map[]) by { NothingNumbered(); }
    }
  }

  lemma NothingNumbered()
    ensures Numbered(map[])
  {
  }
}
