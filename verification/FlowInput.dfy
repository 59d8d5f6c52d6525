/** The producer side of the flow workers: the flows of one request dealt to the channels in turn. */
module FlowInput {
  import opened Sequences
  import opened Batches
  import Wire

  datatype Inbound = Inbound(flow: int, company: int, sampleRate: nat, device: nat, big: bool, sampleAdj: bool)

  /** A flow of low resolution is not taken; the rate of one that is not adjusted yet is, in 32 bits. */
  function Adjusted(m: Inbound, did: nat, hasSender: bool): Inbound {
    var rated := if m.sampleAdj then m else m.(sampleRate := (m.sampleRate * 100) % 0x1_0000_0000);
    if m.device == 0 && hasSender then rated.(device := did % 0x1_0000_0000) else rated
  }

  function Taken(ms: seq<Inbound>, did: nat, hasSender: bool): seq<Inbound> {
    if ms == [] then []
    else
      var last := ms[|ms| - 1];
      Taken(ms[..|ms| - 1], did, hasSender) + if last.big then [] else [Adjusted(last, did, hasSender)]
  }

  /** A flow as it is sent on: as many times 100 as it stood for, unless it is adjusted already, and with a device. */
  predicate IsAdjusted(now: Inbound, m: Inbound, did: nat, hasSender: bool) {
    && now.flow == m.flow && now.company == m.company && now.big == m.big && now.sampleAdj == m.sampleAdj
    && (m.sampleAdj ==> now.sampleRate == m.sampleRate)
    && (!m.sampleAdj ==> now.sampleRate == (100 * m.sampleRate) % 0x1_0000_0000)
    && (m.device != 0 || !hasSender ==> now.device == m.device)
    && (m.device == 0 && hasSender ==> now.device == did % 0x1_0000_0000)
  }

  /** The flows of high resolution, in order, each adjusted. */
  ghost predicate AreTaken(ms: seq<Inbound>, did: nat, hasSender: bool, taken: seq<Inbound>) {
    exists kept :: IsFiltered(ms, (m: Inbound) => !m.big, kept) && AllAdjusted(kept, did, hasSender, taken)
  }

  ghost predicate AllAdjusted(kept: seq<Inbound>, did: nat, hasSender: bool, taken: seq<Inbound>) {
    |kept| == |taken| && forall i :: 0 <= i < |taken| ==> IsAdjusted(taken[i], kept[i], did, hasSender)
  }

  lemma {:induction false} TakenAre(ms: seq<Inbound>, did: nat, hasSender: bool)
    ensures AreTaken(ms, did, hasSender, Taken(ms, did, hasSender))
  {
    hide IsFiltered, Adjusted, IsAdjusted;
    var p, taken := (m: Inbound) => !m.big, Taken(ms, did, hasSender);
    if ms == [] {
      FilteredNone(p);
      assert AllAdjusted([], did, hasSender, taken);
    } else {
      var before, last := ms[..|ms| - 1], ms[|ms| - 1];
      TakenAre(before, did, hasSender);
      var kept :| IsFiltered(before, p, kept) && AllAdjusted(kept, did, hasSender, Taken(before, did, hasSender));
      FilteredStep(before, p, kept, last);
      assert before + [last] == ms;
      AdjustedIs(last, did, hasSender);
      assert AllAdjusted(if last.big then kept else kept + [last], did, hasSender, taken);
    }
  }

  lemma AdjustedIs(m: Inbound, did: nat, hasSender: bool)
    ensures IsAdjusted(Adjusted(m, did, hasSender), m, did, hasSender)
  {
  }

  /** The elements at positions i, i + n, i + 2n, ... */
  function Every<T>(s: seq<T>, n: nat, i: nat): seq<T>
    requires n > 0
  {
    if s == [] then []
    else Every(s[..|s| - 1], n, i) + if (|s| - 1) % n == i then [s[|s| - 1]] else []
  }

  /** The position of the k-th element of a share. */
  function Turn(n: nat, i: nat, k: nat): nat {
    i + n * k
  }

  /** A share goes on as long as there are turns. */
  lemma {:induction false} EveryLength<T>(s: seq<T>, n: nat, i: nat)
    requires i < n
    ensures var h := |Every(s, n, i)|; |s| <= Turn(n, i, h) && (h > 0 ==> Turn(n, i, h - 1) < |s|)
  {
    if s != [] {
      var m := |s| - 1;
      EveryLength(s[..m], n, i);
      TurnIs(m, n, i, |Every(s[..m], n, i)|);
      NextTurnIs(n, i, |Every(s[..m], n, i)|);
      hide Turn;
    }
  }

  lemma NextTurnIs(n: nat, i: nat, h: nat)
    ensures Turn(n, i, h + 1) == Turn(n, i, h) + n
  {
  }

  lemma TurnIs(m: nat, n: nat, i: nat, h: nat)
    requires i < n && m <= Turn(n, i, h) && (h > 0 ==> Turn(n, i, h - 1) < m)
    ensures m % n == i <==> m == Turn(n, i, h)
  {
    if m == Turn(n, i, h) {
      Wire.ModUnique(m, n, h, i);
    } else if m % n == i {
      var q := m / n;
      assert m == n * q + i;
      TurnsInOrder(n, i, q, h);
    }
  }

  lemma TurnsInOrder(n: nat, i: nat, q: nat, h: nat)
    ensures if q < h then Turn(n, i, q) <= Turn(n, i, h - 1) else Turn(n, i, h) <= Turn(n, i, q)
  {
    if q < h {
      Wire.TimesMonotone(n, q, h - 1);
    } else {
      Wire.TimesMonotone(n, h, q);
    }
  }

  /** Its elements are those at the turns. */
  lemma {:induction false} EveryAt<T>(s: seq<T>, n: nat, i: nat, k: nat)
    requires i < n && k < |Every(s, n, i)|
    ensures Turn(n, i, k) < |s| && Every(s, n, i)[k] == s[Turn(n, i, k)]
  {
    var m := |s| - 1;
    var h := |Every(s[..m], n, i)|;
    if k < h {
      EveryAt(s[..m], n, i, k);
    } else {
      EveryLength(s[..m], n, i);
      TurnIs(m, n, i, h);
    }
  }

  /** A share is what comes up in its turns. */
  lemma EveryIs<T>(s: seq<T>, n: nat, i: nat)
    requires i < n
    ensures forall k: nat :: k < |Every(s, n, i)| ==> Turn(n, i, k) < |s| && Every(s, n, i)[k] == s[i + n * k]
    ensures |s| <= i + n * |Every(s, n, i)|
  {
    forall k: nat | k < |Every(s, n, i)| ensures Turn(n, i, k) < |s| && Every(s, n, i)[k] == s[i + n * k] {
      EveryAt(s, n, i, k);
    }
    EveryLength(s, n, i);
  }

  /** A channel keeps what it had and, behind that, the first of what comes, until it holds 8000. */
  predicate IsFilled<T(==)>(after: seq<T>, was: seq<T>, more: seq<T>) {
    && |after| == (if |was| + |more| <= 8000 then |was| + |more| else 8000)
    && after <= was + more
  }

  lemma EveryStep<T>(s: seq<T>, x: T, n: nat, i: nat)
    requires n > 0
    ensures Every(s + [x], n, i) == if |s| % n == i then Every(s, n, i) + [x] else Every(s, n, i)
  {
    assert (s + [x])[..|s|] == s;
  }

  lemma {:induction false} FlattenUpdated<T>(parts: seq<seq<T>>, i: nat, part: seq<T>)
    requires i < |parts|
    ensures |Flatten(parts[i := part])| == |Flatten(parts)| - |parts[i]| + |part|
  {
    var n := |parts| - 1;
    if i < n {
      FlattenUpdated(parts[..n], i, part);
      assert parts[i := part][..n] == parts[..n][i := part];
    } else {
      assert parts[i := part][..n] == parts[..n];
    }
  }

  /** Each channel has its share of the flows taken, as far as it has room. */
  predicate Dealt(after: seq<seq<Inbound>>, channels: seq<seq<Inbound>>, taken: seq<Inbound>) {
    && |after| == |channels|
    && forall i :: 0 <= i < |after| ==> IsFilled(after[i], channels[i], Every(taken, |channels|, i))
  }

  lemma DealtNothing(channels: seq<seq<Inbound>>)
    requires forall i :: 0 <= i < |channels| ==> |channels[i]| <= CHAN_SLACK
    ensures Dealt(channels, channels, [])
  {
    forall i | 0 <= i < |channels| ensures IsFilled(channels[i], channels[i], Every([], |channels|, i)) {
      assert channels[i] + [] == channels[i];
    }
  }

  lemma DealtOneMore(after: seq<seq<Inbound>>, channels: seq<seq<Inbound>>, taken: seq<Inbound>, x: Inbound)
    requires channels != [] && Dealt(after, channels, taken)
    ensures var next := |taken| % |channels|;
            Dealt(if |after[next]| < CHAN_SLACK then after[next := after[next] + [x]] else after, channels, taken + [x])
  {
    hide Every;
    var n := |channels|;
    var next := |taken| % n;
    var now := if |after[next]| < CHAN_SLACK then after[next := after[next] + [x]] else after;
    forall i | 0 <= i < n ensures IsFilled(now[i], channels[i], Every(taken + [x], n, i)) {
      EveryStep(taken, x, n, i);
      assert IsFilled(after[i], channels[i], Every(taken, n, i));
      var share := channels[i] + Every(taken, n, i);
      assert channels[i] + (Every(taken, n, i) + [x]) == share + [x];
    }
  }

  /**
   * Deals the flows in turn to the channels of the workers. Each channel gets its share, in order, as far as it has
   * room; every flow is counted as sent or as dropped, and the channels grow by those sent.
   */
  method HandleFlow(ms: seq<Inbound>, did: nat, hasSender: bool, channels: seq<seq<Inbound>>)
      returns (after: seq<seq<Inbound>>, sent: nat, dropped: nat)
    requires channels != [] && forall i :: 0 <= i < |channels| ==> |channels[i]| <= CHAN_SLACK
    ensures var taken := Taken(ms, did, hasSender);
            && Dealt(after, channels, taken) && |after| == |channels| && sent + dropped == |taken|
            && |Flatten(after)| == |Flatten(channels)| + sent
            && AreTaken(ms, did, hasSender, taken)
  {
    TakenAre(ms, did, hasSender);
    hide AreTaken, Flatten, Dealt, Adjusted;
    after, sent, dropped := channels, 0, 0;
    var next := 0;
    ghost var taken: seq<Inbound> := [];
    DealtNothing(channels);
    for k := 0 to |ms|
      invariant taken == Taken(ms[..k], did, hasSender) && sent + dropped == |taken|
      invariant |after| == |channels| && next == |taken| % |channels|
      invariant Dealt(after, channels, taken)
      invariant |Flatten(after)| == |Flatten(channels)| + sent
    {
      assert ms[..k + 1][..k] == ms[..k];
      if !ms[k].big {
        var alpha := Adjusted(ms[k], did, hasSender);
        DealtOneMore(after, channels, taken, alpha);
        if |after[next]| < CHAN_SLACK {
          FlattenUpdated(after, next, after[next] + [alpha]);
          after := after[next := after[next] + [alpha]];
          sent := sent + 1;
        } else {
          dropped := dropped + 1;
        }
        NextTurn(|taken|, |channels|);
        taken := taken + [alpha];
        next := next + 1;
        if next >= |channels| {
          next := 0;
        }
      }
    }
    assert ms[..|ms|] == ms;
  }

  lemma NextTurn(k: nat, n: nat)
    requires n > 0
    ensures (k + 1) % n == if k % n + 1 >= n then 0 else k % n + 1
  {
    var q, r := k / n, k % n;
    assert k == n * q + r;
    if r + 1 == n {
      assert k + 1 == n * (q + 1);
      Wire.ModUnique(k + 1, n, q + 1, 0);
    } else {
      Wire.ModUnique(k + 1, n, q, r + 1);
    }
  }
}
