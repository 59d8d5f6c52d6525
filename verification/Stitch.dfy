/**
 * Flow stitching: a message either consumes the stored snapshot that waits
 * under its key, or leaves its own snapshot to wait.
 */
module StitchModel {
  import opened Options
  import opened RingModel
  import opened Totals

  // ---------------------------------------------------------------- keys

  /** Ports below this one are taken to be the server's side. */
  const EPHEMERAL_PORT := 32768

  datatype Ends = Ends(srcEndpoint: string, dstEndpoint: string, protocol: string, srcPort: nat, dstPort: nat)

  function JoinBars(a: string, b: string, c: string): string {
    a + "|" + b + "|" + c
  }

  function GetKey(f: Ends): string {
    if f.srcPort < EPHEMERAL_PORT then JoinBars(f.srcEndpoint, f.dstEndpoint, f.protocol)
    else JoinBars(f.dstEndpoint, f.srcEndpoint, f.protocol)
  }

  function Reverse(f: Ends): Ends {
    Ends(f.dstEndpoint, f.srcEndpoint, f.protocol, f.dstPort, f.srcPort)
  }

  /** The endpoints with the one GetKey takes for the server's first. */
  function Oriented(f: Ends): (string, string) {
    if f.srcPort < EPHEMERAL_PORT then (f.srcEndpoint, f.dstEndpoint) else (f.dstEndpoint, f.srcEndpoint)
  }

  /** The endpoints in the order of the key and the protocol. */
  predicate SameEnds(f: Ends, g: Ends) {
    Oriented(f) == Oriented(g) && f.protocol == g.protocol
  }

  predicate HoldsBar(f: Ends) {
    '|' in f.srcEndpoint || '|' in f.dstEndpoint || '|' in f.protocol
  }

  lemma FirstBar(a: string, r: string, b: string, q: string)
    requires '|' !in a && '|' !in b && a + "|" + r == b + "|" + q
    ensures a == b && r == q
  {
    var x := a + "|" + r;
    assert x[|a|] == '|' && forall i :: 0 <= i < |a| ==> x[i] != '|';
    assert x[|b|] == '|' && forall i :: 0 <= i < |b| ==> x[i] != '|';
    assert x[..|a|] == a && x[..|b|] == b;
    assert x[|a| + 1..] == r && x[|b| + 1..] == q;
  }

  lemma KeyParts(f: Ends)
    ensures var (a, b) := Oriented(f); GetKey(f) == JoinBars(a, b, f.protocol)
  {
  }

  lemma Regrouped(a: string, b: string, c: string)
    ensures JoinBars(a, b, c) == a + "|" + (b + "|" + c)
  {
  }

  lemma BarsOf(a: string, b: string, c: string)
    ensures multiset(JoinBars(a, b, c))['|'] == multiset(a)['|'] + multiset(b)['|'] + multiset(c)['|'] + 2
    ensures forall s: string :: '|' in s <==> multiset(s)['|'] > 0
  {
    var bar: string := "|";
    assert bar == ['|'] && multiset(bar) == multiset{'|'};
    assert multiset(a + bar) == multiset(a) + multiset(bar);
    assert multiset(a + bar + b) == multiset(a + bar) + multiset(b);
    assert multiset(a + bar + b + bar) == multiset(a + bar + b) + multiset(bar);
    assert multiset(JoinBars(a, b, c)) == multiset(a + bar + b + bar) + multiset(c);
    forall s: string ensures '|' in s <==> multiset(s)['|'] > 0 {
      assert '|' in s <==> '|' in multiset(s);
    }
  }

  /** A key without further bars comes from nothing else. */
  lemma UniqueParts(a: string, b: string, c: string, d: string, e: string, f: string)
    requires '|' !in a && '|' !in b && '|' !in c && JoinBars(a, b, c) == JoinBars(d, e, f)
    ensures a == d && b == e && c == f
  {
    hide JoinBars;
    assert '|' !in d && '|' !in e by {
      BarsOf(a, b, c);
      BarsOf(d, e, f);
    }
    Regrouped(a, b, c);
    Regrouped(d, e, f);
    FirstBar(a, b + "|" + c, d, e + "|" + f);
    FirstBar(b, c, e, f);
  }

  /** Of three parts with a bar in one of them, others are joined in the same way. */
  lemma OtherParts(a: string, b: string, c: string) returns (d: string, e: string, f: string)
    requires '|' in a || '|' in b || '|' in c
    ensures JoinBars(a, b, c) == JoinBars(d, e, f) && (a, b, c) != (d, e, f)
  {
    if i :| 0 <= i < |a| && a[i] == '|' {
      d, e, f := a[..i], a[i + 1..] + "|" + b, c;
      assert a == d + "|" + a[i + 1..];
    } else if i :| 0 <= i < |b| && b[i] == '|' {
      d, e, f := a + "|" + b[..i], b[i + 1..], c;
      assert b == b[..i] + "|" + e;
    } else {
      var i :| 0 <= i < |c| && c[i] == '|';
      d, e, f := a + "|" + b, c[..i], c[i + 1..];
      assert c == e + "|" + f;
    }
  }

  /**
   * Messages between the same endpoints, equally oriented, over one protocol have one key; and only they have the
   * key of a message, exactly when neither its endpoints nor its protocol hold a bar.
   */
  lemma SameKeyIff(f: Ends)
    ensures forall g :: SameEnds(f, g) ==> GetKey(f) == GetKey(g)
    ensures (forall g :: GetKey(f) == GetKey(g) ==> SameEnds(f, g)) <==> !HoldsBar(f)
  {
    hide GetKey, Oriented, JoinBars;
    forall g | true
      ensures SameEnds(f, g) ==> GetKey(f) == GetKey(g)
      ensures !HoldsBar(f) && GetKey(f) == GetKey(g) ==> SameEnds(f, g)
    {
      KeyParts(f);
      KeyParts(g);
      OrientedBars(f);
      if !HoldsBar(f) && GetKey(f) == GetKey(g) {
        UniqueParts(Oriented(f).0, Oriented(f).1, f.protocol, Oriented(g).0, Oriented(g).1, g.protocol);
      }
    }
    if HoldsBar(f) {
      OrientedBars(f);
      var d, e, p := OtherParts(Oriented(f).0, Oriented(f).1, f.protocol);
      var g := Ends(d, e, p, 0, 0);
      KeyParts(f);
      KeyParts(g);
      assert Oriented(g) == (d, e) by { ServerFirst(g); }
      assert !SameEnds(f, g);
    }
  }

  lemma OrientedBars(f: Ends)
    ensures HoldsBar(f) <==> '|' in Oriented(f).0 || '|' in Oriented(f).1 || '|' in f.protocol
  {
  }

  lemma ServerFirst(g: Ends)
    requires g.srcPort < EPHEMERAL_PORT
    ensures Oriented(g) == (g.srcEndpoint, g.dstEndpoint)
  {
  }

  /**
   * A flow and its reverse meet exactly when one of the two ports is ephemeral, or joining the ends in either order
   * gives the same; without bars, when they are the same.
   */
  lemma ReverseSharesKeyIff(f: Ends)
    ensures GetKey(f) == GetKey(Reverse(f))
            <==> || (f.srcPort < EPHEMERAL_PORT) != (f.dstPort < EPHEMERAL_PORT)
                 || f.srcEndpoint + "|" + f.dstEndpoint == f.dstEndpoint + "|" + f.srcEndpoint
    ensures '|' !in f.srcEndpoint && '|' !in f.dstEndpoint
            ==> (f.srcEndpoint + "|" + f.dstEndpoint == f.dstEndpoint + "|" + f.srcEndpoint <==> f.srcEndpoint == f.dstEndpoint)
  {
    var a, b := f.srcEndpoint, f.dstEndpoint;
    SamePrefix(a + "|" + b, b + "|" + a, "|" + f.protocol);
    assert JoinBars(a, b, f.protocol) == (a + "|" + b) + ("|" + f.protocol);
    assert JoinBars(b, a, f.protocol) == (b + "|" + a) + ("|" + f.protocol);
    if '|' !in a && '|' !in b && a + "|" + b == b + "|" + a {
      FirstBar(a, b, b, a);
    }
  }

  lemma SamePrefix(s: string, t: string, u: string)
    requires |s| == |t|
    ensures s + u == t + u <==> s == t
  {
    assert (s + u)[..|s|] == s && (t + u)[..|t|] == t;
  }

  // ---------------------------------------------------------------- runs

  /** A message as the stitcher sees it: its key and the snapshot it would store. */
  datatype Message<S> = Message(key: string, snapshot: S)

  /** A message takes what waits under its key, or is put there itself. */
  ghost function OpFor<S>(s: seq<Slot<S>>, m: Message<S>): Op<S> {
    if Lookup(s, m.key).Some? then Delete(m.key) else Put(m.key, m.snapshot)
  }

  /** What the cache holds after a list of messages. */
  ghost function After<S>(cap: nat, ms: seq<Message<S>>): seq<Slot<S>>
    requires 1 <= cap
  {
    if ms == [] then []
    else
      var s := After(cap, ms[..|ms| - 1]);
      Apply(s, cap, OpFor(s, ms[|ms| - 1]))
  }

  /** The snapshot message i is matched with. */
  ghost function MatchOf<S>(cap: nat, ms: seq<Message<S>>, i: nat): Option<S>
    requires 1 <= cap && i < |ms|
  {
    Lookup(After(cap, ms[..i]), ms[i].key)
  }

  ghost function StoredCount<S>(cap: nat, ms: seq<Message<S>>): nat
    requires 1 <= cap
  {
    if ms == [] then 0
    else StoredCount(cap, ms[..|ms| - 1]) + if MatchOf(cap, ms, |ms| - 1).None? then 1 else 0
  }

  ghost function MatchedCount<S>(cap: nat, ms: seq<Message<S>>): nat
    requires 1 <= cap
  {
    if ms == [] then 0
    else MatchedCount(cap, ms[..|ms| - 1]) + if MatchOf(cap, ms, |ms| - 1).Some? then 1 else 0
  }

  lemma {:induction false} AfterIsWellFormed<S>(cap: nat, ms: seq<Message<S>>)
    requires 1 <= cap
    ensures WellFormed(After(cap, ms)) && |After(cap, ms)| <= cap
  {
    hide WellFormed, Apply, OpFor;
    EmptyHoldsNothing<S>("");
    if ms != [] {
      var before := ms[..|ms| - 1];
      AfterIsWellFormed(cap, before);
      ApplyKeepsWellFormed(After(cap, before), cap, OpFor(After(cap, before), ms[|ms| - 1]));
    }
  }

  /** What one more message does to the cache and to the counts. */
  lemma StitchStep<S>(cap: nat, ms: seq<Message<S>>, m: Message<S>)
    requires 1 <= cap
    ensures var s, all := After(cap, ms), ms + [m];
            && After(cap, all) == (if Lookup(s, m.key).Some? then DeleteKey(s, m.key) else PutSlot(s, cap, m.key, m.snapshot))
            && (Lookup(s, m.key).None? ==> DeleteKey(s, m.key) == s)
            && MatchOf(cap, all, |ms|) == Lookup(s, m.key)
            && MatchedCount(cap, all) == MatchedCount(cap, ms) + if Lookup(s, m.key).Some? then 1 else 0
  {
    hide PutSlot, Find;
    assert (ms + [m])[..|ms|] == ms;
  }

  /** Message i is the last of the first n messages with a key. */
  ghost predicate LastOf<S>(ms: seq<Message<S>>, n: nat, key: string, i: nat) {
    i < n <= |ms| && ms[i].key == key && forall k :: i < k < n ==> ms[k].key != key
  }

  /** Message i was stored, and is the last of the first n with its key. */
  ghost predicate StoredLast<S>(cap: nat, ms: seq<Message<S>>, n: nat, key: string, i: nat)
    requires 1 <= cap
  {
    LastOf(ms, n, key, i) && MatchOf(cap, ms, i).None?
  }

  /** A waiting snapshot is that of the last message with its key, which found nothing to match. */
  lemma {:induction false} WaitingIsLast<S>(cap: nat, ms: seq<Message<S>>, n: nat, key: string) returns (i: nat)
    requires 1 <= cap && n <= |ms|
    requires Lookup(After(cap, ms[..n]), key).Some?
    ensures StoredLast(cap, ms, n, key, i)
    ensures Lookup(After(cap, ms[..n]), key) == Some(ms[i].snapshot)
  {
    hide WellFormed, Apply, Lookup;
    EmptyHoldsNothing<S>(key);
    assert n > 0;
    var s, m := After(cap, ms[..n - 1]), ms[n - 1];
    assert ms[..n][..n - 1] == ms[..n - 1];
    AfterIsWellFormed(cap, ms[..n - 1]);
    LookupAfterApply(s, cap, OpFor(s, m), key);
    if m.key == key {
      i := n - 1;
    } else {
      i := WaitingIsLast(cap, ms, n - 1, key);
    }
  }

  /**
   * A match is always with the message just before it among those with its key,
   * which was itself stored, and it carries that message's snapshot.
   */
  lemma MatchIsPrevious<S>(cap: nat, ms: seq<Message<S>>, j: nat)
    requires 1 <= cap && j < |ms| && MatchOf(cap, ms, j).Some?
    ensures exists i: nat :: StoredLast(cap, ms, j, ms[j].key, i) && MatchOf(cap, ms, j) == Some(ms[i].snapshot)
  {
    var i := WaitingIsLast(cap, ms, j, ms[j].key);
  }

  /** Message j is matched with the snapshot message i left, which was stored and is the one before j with its key. */
  ghost predicate Consumes<S>(cap: nat, ms: seq<Message<S>>, j: nat, i: nat)
    requires 1 <= cap
  {
    && j < |ms| && MatchOf(cap, ms, j).Some?
    && StoredLast(cap, ms, j, ms[j].key, i) && MatchOf(cap, ms, j) == Some(ms[i].snapshot)
  }

  /** So no stored snapshot is consumed twice: every match consumes one, and two matches never the same. */
  lemma ConsumedOnce<S>(cap: nat, ms: seq<Message<S>>, j: nat, n: nat) returns (i: nat, k: nat)
    requires 1 <= cap && j < n < |ms| && MatchOf(cap, ms, j).Some? && MatchOf(cap, ms, n).Some?
    ensures Consumes(cap, ms, j, i) && Consumes(cap, ms, n, k)
    ensures forall x: nat :: !(Consumes(cap, ms, j, x) && Consumes(cap, ms, n, x))
  {
    hide After, Lookup;
    i := WaitingIsLast(cap, ms, j, ms[j].key);
    k := WaitingIsLast(cap, ms, n, ms[n].key);
  }

  /**
   * Exactly when a stored message is matched by the next one with its key: when
   * the messages stored in between do not outnumber the key's lifetime.
   */
  lemma MatchedIff<S>(cap: nat, ms: seq<Message<S>>, i: nat, j: nat)
    requires 1 <= cap && j < |ms| && StoredLast(cap, ms, j, ms[j].key, i)
    ensures Holder(After(cap, ms[..i + 1]), ms[j].key).Some?
    ensures MatchOf(cap, ms, j).Some?
            <==> StoredCount(cap, ms[..j]) - StoredCount(cap, ms[..i + 1])
                 <= Lifetime(After(cap, ms[..i + 1]), cap, ms[j].key)
  {
    StoredWaits(cap, ms, i);
    WaitsItsLifetime(cap, ms, i, j);
  }

  lemma StoredWaits<S>(cap: nat, ms: seq<Message<S>>, i: nat)
    requires 1 <= cap && i < |ms| && MatchOf(cap, ms, i).None?
    ensures Find(After(cap, ms[..i + 1]), ms[i].key).Some?
    ensures Holder(After(cap, ms[..i + 1]), ms[i].key).Some?
  {
    hide WellFormed, Apply, Holder;
    var s, t := After(cap, ms[..i]), After(cap, ms[..i + 1]);
    var op := Put(ms[i].key, ms[i].snapshot);
    AfterIsWellFormed(cap, ms[..i]);
    assert ms[..i + 1][..i] == ms[..i];
    assert t == Apply(s, cap, op);
    FindAfterApply(s, cap, op, ms[i].key);
    FindLeads(t, ms[i].key);
    SomeOldest(t, ms[i].key, Find(t, ms[i].key).value);
  }

  /** How the cache ages between a stored message and the next with its key. */
  lemma {:induction false} WaitsItsLifetime<S>(cap: nat, ms: seq<Message<S>>, i: nat, n: nat)
    requires 1 <= cap && i < n <= |ms|
    requires forall k :: i < k < n ==> ms[k].key != ms[i].key
    requires var s := After(cap, ms[..i + 1]); Find(s, ms[i].key).Some? && Holder(s, ms[i].key).Some?
    ensures var stored := StoredCount(cap, ms[..n]) - StoredCount(cap, ms[..i + 1]);
            var s, t, key := After(cap, ms[..i + 1]), After(cap, ms[..n]), ms[i].key;
            && 0 <= stored
            && (Find(t, key).Some? <==> stored <= Lifetime(s, cap, key))
            && (Find(t, key).Some? ==> Holder(t, key).Some? && Lifetime(t, cap, key) == Lifetime(s, cap, key) - stored)
  {
    hide WellFormed, Apply, Holder, Find;
    var key := ms[i].key;
    if n == i + 1 {
      AfterIsWellFormed(cap, ms[..n]);
      assert Lifetime(After(cap, ms[..n]), cap, key) >= 0 by { HolderHolds(After(cap, ms[..n]), key); }
    } else {
      WaitsItsLifetime(cap, ms, i, n - 1);
      AfterIsWellFormed(cap, ms[..n - 1]);
      assert ms[..n][..n - 1] == ms[..n - 1];
      var t := After(cap, ms[..n - 1]);
      var op := OpFor(t, ms[n - 1]);
      if Find(t, key).Some? {
        StepLifetime(t, cap, op, key);
        assert Lifetime(t, cap, key) >= 0 by { HolderHolds(t, key); }
      } else {
        FindAfterApply(t, cap, op, key);
      }
    }
  }

  // ---------------------------------------------------------------- accounting

  ghost function OpenKeys<S>(s: seq<Slot<S>>): set<string> {
    set i | 0 <= i < |s| && Lookup(s, s[i].key).Some? :: s[i].key
  }

  lemma OpenKeysAre<S>(s: seq<Slot<S>>, key: string)
    ensures key in OpenKeys(s) <==> Lookup(s, key).Some?
  {
    FindLeads(s, key);
  }

  /** Every message is stored or matched, and what is matched or still waiting was stored before. */
  lemma {:induction false} Accounting<S>(cap: nat, ms: seq<Message<S>>)
    requires 1 <= cap
    ensures |ms| == StoredCount(cap, ms) + MatchedCount(cap, ms)
    ensures MatchedCount(cap, ms) + |OpenKeys(After(cap, ms))| <= StoredCount(cap, ms)
  {
    hide WellFormed, Apply, Lookup, OpenKeys;
    if ms == [] {
      assert |OpenKeys<S>([])| == 0 by { NoOpenKeys<S>(); }
    } else {
      var before, m := ms[..|ms| - 1], ms[|ms| - 1];
      Accounting(cap, before);
      AfterIsWellFormed(cap, before);
      OpenKeysStep(After(cap, before), cap, m);
    }
  }

  lemma NoOpenKeys<S>()
    ensures OpenKeys<S>([]) == {}
  {
  }

  lemma OpenKeysStep<S>(s: seq<Slot<S>>, cap: nat, m: Message<S>)
    requires 1 <= cap && WellFormed(s) && |s| <= cap
    ensures |OpenKeys(Apply(s, cap, OpFor(s, m)))|
            <= |OpenKeys(s)| + if Lookup(s, m.key).Some? then -1 else 1
  {
    hide WellFormed, Apply, Lookup, OpenKeys;
    var op := OpFor(s, m);
    var was, now := OpenKeys(s), OpenKeys(Apply(s, cap, op));
    OpenKeysAre(s, m.key);
    forall k | k in now ensures if k == m.key then op.Put? else k in was {
      OpenKeysAre(Apply(s, cap, op), k);
      OpenKeysAre(s, k);
      LookupAfterApply(s, cap, op, k);
    }
    SubsetSize(now, if op.Put? then was + {m.key} else was - {m.key});
  }
}

/** The stitcher and the messages it marks, in their own form. */
module Stitching {
  import opened Options
  import opened RingModel
  import opened StitchModel
  import opened RingBuffers
  import opened Totals
  import opened Wire

  datatype Snapshot = Snapshot(tcpFlags: nat, inBytes: nat, inPkts: nat, tcpRetransmit: nat, timestamp: int)

  class Jchf {
    var customStr: map<string, string>
    var customInt: map<string, int>
    var customBigInt: map<string, int>
    const protocol: string
    const srcPort: nat
    const dstPort: nat
    const snapshot: Snapshot

    constructor (customStr: map<string, string>, protocol: string, srcPort: nat, dstPort: nat, snapshot: Snapshot)
    {
      this.customStr, this.customInt, this.customBigInt := customStr, map[], map[];
      this.protocol, this.srcPort, this.dstPort, this.snapshot := protocol, srcPort, dstPort, snapshot;
    }

    function Ends(): Ends
      reads this
    {
      StitchModel.Ends(
        if "src_endpoint" in customStr then customStr["src_endpoint"] else "",
        if "dst_endpoint" in customStr then customStr["dst_endpoint"] else "",
        protocol, srcPort, dstPort)
    }

    function ToMessage(): Message<Snapshot>
      reads this
    {
      Message(GetKey(Ends()), snapshot)
    }
  }

  class Stitcher {
    const cache: RingBuffer<Snapshot>
    var flowsIn: nat
    var flowsMatched: nat

    /** The messages stitched so far. */
    ghost var seen: seq<Message<Snapshot>>

    ghost predicate Valid()
      reads this, cache, cache.data
    {
      && cache.Valid()
      && cache.slots == After(cache.capacity, seen)
      && flowsIn == |seen|
      && flowsMatched == MatchedCount(cache.capacity, seen)
    }

    constructor (bufLen: int)
      requires 1 <= bufLen
      ensures Valid() && fresh(cache) && fresh(cache.data)
      ensures seen == [] && cache.capacity == bufLen
    {
      cache := new RingBuffer(bufLen, Snapshot(0, 0, 0, 0, 0));
      flowsIn, flowsMatched, seen := 0, 0, [];
    }

    /** Writes what the partner of a message had into the message. */
    static method MarkPair(msg: Jchf, nm: Snapshot)
      modifies msg
      ensures Paired(old(msg.customInt), old(msg.customBigInt), nm, msg.customInt, msg.customBigInt)
      ensures IsMarked(msg.customInt, msg.customBigInt, nm)
      ensures msg.customStr == old(msg.customStr)
    {
      hide IsMarked, Int32, Int64;
      ghost var ints, bigInts := msg.customInt, msg.customBigInt;
      msg.customInt := msg.customInt["pair_tcp_flags" := Int32(nm.tcpFlags)];
      msg.customBigInt := msg.customBigInt["pair_in_bytes" := Int64(nm.inBytes)];
      msg.customBigInt := msg.customBigInt["pair_in_pkts" := Int64(nm.inPkts)];
      msg.customInt := msg.customInt["pair_tcp_rx" := Int32(nm.tcpRetransmit)];
      msg.customBigInt := msg.customBigInt["pair_timestamp" := nm.timestamp];
      PairedIs(ints, bigInts, nm, msg.customInt, msg.customBigInt);
    }

    method Stitch(msg: Jchf) returns (matched: bool)
      requires Valid()
      modifies this, cache, cache.data, msg
      ensures Valid()
      ensures seen == old(seen) + [old(msg.ToMessage())]
      ensures var m := MatchOf(cache.capacity, seen, |seen| - 1);
              && matched == m.Some?
              && (matched ==> Paired(old(msg.customInt), old(msg.customBigInt), m.value, msg.customInt, msg.customBigInt))
              && (!matched ==> msg.customInt == old(msg.customInt) && msg.customBigInt == old(msg.customBigInt))
      ensures msg.customStr == old(msg.customStr)
      ensures IsMessageOf(seen[|seen| - 1], old(msg.customStr), msg.protocol, msg.srcPort, msg.snapshot)
      ensures matched ==> IsMarked(msg.customInt, msg.customBigInt, MatchOf(cache.capacity, seen, |seen| - 1).value)
    {
      KeyOfMessage(msg);
      hide IsMessageOf, IsMarked;
      hide PutSlot, DeleteKey, Find, Lookup, Paired, GetKey, After, MatchOf, MatchedCount, Represents;
      ghost var now := seen + [msg.ToMessage()];
      StitchStep(cache.capacity, seen, msg.ToMessage());
      var key := GetKey(msg.Ends());
      flowsIn := flowsIn + 1;
      var nm, ok := cache.GetAndDelete(key);
      if ok {
        MarkPair(msg, nm);
        flowsMatched := flowsMatched + 1;
        seen := now;
        return true;
      }
      cache.Put(key, msg.snapshot);
      seen := now;
      return false;
    }
  }

  function TextAt(m: map<string, string>, k: string): string {
    if k in m then m[k] else ""
  }

  /** The endpoints, the one with a port below 32768 first if that is the source, and the protocol, with bars between them. */
  predicate IsMessageOf(m: Message<Snapshot>, strs: map<string, string>, protocol: string, srcPort: nat, snapshot: Snapshot) {
    var src, dst := TextAt(strs, "src_endpoint"), TextAt(strs, "dst_endpoint");
    && m.snapshot == snapshot
    && m.key == if srcPort < 32768 then src + "|" + dst + "|" + protocol else dst + "|" + src + "|" + protocol
  }

  lemma KeyOfMessage(msg: Jchf)
    ensures IsMessageOf(msg.ToMessage(), msg.customStr, msg.protocol, msg.srcPort, msg.snapshot)
  {
  }

  /** The signed number of 32 bits that agrees with x modulo 2^32. */
  predicate IsSigned32(n: int, x: int) {
    -0x8000_0000 <= n < 0x8000_0000 && (n - x) % 0x1_0000_0000 == 0
  }

  predicate IsSigned64(n: int, x: int) {
    -0x8000_0000_0000_0000 <= n < 0x8000_0000_0000_0000 && (n - x) % 0x1_0000_0000_0000_0000 == 0
  }

  lemma SignedAgrees(x: int, half: int)
    requires half > 0
    ensures -half <= Signed(x, 2 * half) < half && (Signed(x, 2 * half) - x) % (2 * half) == 0
  {
    var w: int := 2 * half;
    var q, r := x / w, x % w;
    assert x == w * q + r;
    assert w * (-q - 1) == -(w * q) - w;
    assert w * (-q) == -(w * q);
    ModUnique(Signed(x, w) - x, w, if r < half then -q else -q - 1, 0);
  }

  lemma SignedIs(x: int)
    ensures IsSigned32(Int32(x), x) && IsSigned64(Int64(x), x)
  {
    hide Signed;
    SignedAgrees(x, 0x8000_0000);
    SignedAgrees(x, 0x8000_0000_0000_0000);
  }

  /** Each number of the partner stands under its own name, converted to signed. */
  predicate IsMarked(ints: map<string, int>, bigInts: map<string, int>, nm: Snapshot) {
    && "pair_tcp_flags" in ints && IsSigned32(ints["pair_tcp_flags"], nm.tcpFlags)
    && "pair_tcp_rx" in ints && IsSigned32(ints["pair_tcp_rx"], nm.tcpRetransmit)
    && "pair_in_bytes" in bigInts && IsSigned64(bigInts["pair_in_bytes"], nm.inBytes)
    && "pair_in_pkts" in bigInts && IsSigned64(bigInts["pair_in_pkts"], nm.inPkts)
    && "pair_timestamp" in bigInts && bigInts["pair_timestamp"] == nm.timestamp
  }

  lemma PairedIs(ints: map<string, int>, bigInts: map<string, int>, nm: Snapshot,
                 intsAfter: map<string, int>, bigIntsAfter: map<string, int>)
    requires Paired(ints, bigInts, nm, intsAfter, bigIntsAfter)
    ensures IsMarked(intsAfter, bigIntsAfter, nm)
  {
    hide IsSigned32, IsSigned64, Int32, Int64;
    SignedIs(nm.tcpFlags);
    SignedIs(nm.tcpRetransmit);
    SignedIs(nm.inBytes);
    SignedIs(nm.inPkts);
  }

  /** The five fields of the partner, converted to signed; everything else stays. */
  predicate Paired(ints: map<string, int>, bigInts: map<string, int>, nm: Snapshot,
                   intsAfter: map<string, int>, bigIntsAfter: map<string, int>) {
    && intsAfter == ints["pair_tcp_flags" := Int32(nm.tcpFlags)]["pair_tcp_rx" := Int32(nm.tcpRetransmit)]
    && bigIntsAfter == bigInts["pair_in_bytes" := Int64(nm.inBytes)]["pair_in_pkts" := Int64(nm.inPkts)][
                               "pair_timestamp" := nm.timestamp]
  }
}
