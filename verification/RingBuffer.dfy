/**
 * The ring buffer in its own form: a circular array of entries, an index from
 * key to array slot, and the head, tail and size that say which slots are live.
 * Each method is proved against the queue of slots in RingModel.
 */
module RingBuffers {
  import opened Options
  import opened RingModel

  datatype Entry<V> = Entry(key: string, value: V)

  /** The array slot of the entry `x` places after array slot 0. */
  function Wrap(x: nat, capacity: nat): nat
    requires x < 2 * capacity
  {
    if x < capacity then x else x - capacity
  }

  lemma WrapIsMod(x: nat, capacity: nat)
    requires x < 2 * capacity
    ensures x % capacity == Wrap(x, capacity)
  {
    if x >= capacity {
      assert x % capacity == (x - capacity) % capacity;
    }
  }

  function EntryOf<V>(slot: Slot<V>): Entry<V> {
    Entry(slot.key, slot.value)
  }

  /** The live window of the array, from `head` on, holds the slots in order. */
  ghost predicate Layout<V>(data: seq<Entry<V>>, head: nat, s: seq<Slot<V>>) {
    && head < |data| && |s| <= |data|
    && forall i :: 0 <= i < |s| ==> data[Wrap(head + i, |data|)] == EntryOf(s[i])
  }

  /** The index knows exactly the reachable keys, and points at their array slots. */
  ghost predicate Indexed<V>(index: map<string, int>, head: nat, capacity: nat, s: seq<Slot<V>>) {
    && head < capacity && |s| <= capacity
    && forall k :: IndexedAt(index, head, capacity, s, k)
  }

  ghost predicate IndexedAt<V>(index: map<string, int>, head: nat, capacity: nat, s: seq<Slot<V>>, key: string)
    requires head < capacity && |s| <= capacity
  {
    match Find(s, key)
    case None => key !in index
    case Some(i) => i < |s| && key in index && index[key] == Wrap(head + i, capacity)
  }

  /** The fields of a ring buffer that holds the slots `s`. */
  ghost predicate Represents<V>(data: seq<Entry<V>>, index: map<string, int>, head: int, tail: int, size: int, s: seq<Slot<V>>) {
    && 0 <= head < |data| && |s| == size <= |data|
    && tail == Wrap(head + size, |data|)
    && WellFormed(s)
    && Layout(data, head, s)
    && Indexed(index, head, |data|, s)
  }

  lemma LayoutAt<V>(data: seq<Entry<V>>, head: nat, s: seq<Slot<V>>, i: nat)
    requires Layout(data, head, s) && i < |s|
    ensures data[Wrap(head + i, |data|)] == EntryOf(s[i])
  {
  }

  lemma LayoutAfterChange<V>(data: seq<Entry<V>>, head: nat, s: seq<Slot<V>>, i: nat, e: Slot<V>)
    requires Layout(data, head, s) && i < |s|
    ensures Layout(data[Wrap(head + i, |data|) := EntryOf(e)], head, s[i := e])
  {
  }

  lemma LayoutAfterAppend<V>(data: seq<Entry<V>>, head: nat, s: seq<Slot<V>>, e: Slot<V>)
    requires Layout(data, head, s) && |s| < |data|
    ensures Layout(data[Wrap(head + |s|, |data|) := EntryOf(e)], head, s + [e])
  {
  }

  lemma LayoutAfterEviction<V>(data: seq<Entry<V>>, head: nat, s: seq<Slot<V>>)
    requires Layout(data, head, s) && s != []
    ensures Layout(data, Wrap(head + 1, |data|), Evict(s))
  {
    var n, t := |data|, Evict(s);
    forall i | 0 <= i < |t| ensures data[Wrap(Wrap(head + 1, n) + i, n)] == EntryOf(t[i]) {
      assert Wrap(Wrap(head + 1, n) + i, n) == Wrap(head + (i + 1), n);
    }
  }

  /** What the index says of one key is what the queue says. */
  lemma IndexFinds<V>(data: seq<Entry<V>>, index: map<string, int>, head: int, tail: int, size: int,
                      s: seq<Slot<V>>, key: string)
    requires Represents(data, index, head, tail, size, s)
    ensures key in index <==> Find(s, key).Some?
    ensures key in index ==>
              && Find(s, key).value < |s|
              && 0 <= index[key] < |data|
              && index[key] == Wrap(head + Find(s, key).value, |data|)
              && data[index[key]] == EntryOf(s[Find(s, key).value])
              && s[Find(s, key).value].key == key
  {
    assert IndexedAt(index, head, |data|, s, key);
    if key in index {
      LayoutAt(data, head, s, Find(s, key).value);
      FindLeads(s, key);
    }
  }

  lemma RepresentsAfterUpdate<V>(data: seq<Entry<V>>, index: map<string, int>, head: int, tail: int, size: int,
                                 s: seq<Slot<V>>, key: string, value: V)
    requires Represents(data, index, head, tail, size, s) && key in index
    ensures 0 <= index[key] < |data|
    ensures Represents(data[index[key] := Entry(data[index[key]].key, value)], index, head, tail, size,
                       PutSlot(s, |data|, key, value))
  {
    hide Layout, WellFormed, Wrap, Find;
    IndexFinds(data, index, head, tail, size, s, key);
    FindLeads(s, key);
    var i := Find(s, key).value;
    var e := s[i].(value := value);
    LayoutAfterChange(data, head, s, i, e);
    ChangeKeepsWellFormed(s, i, e);
    var n, t := |data|, s[i := e];
    forall k ensures IndexedAt(index, head, n, t, k) {
      assert IndexedAt(index, head, |data|, s, k);
      FindAfterChange(s, i, e, k);
    }
  }

  lemma RepresentsAfterDelete<V>(data: seq<Entry<V>>, index: map<string, int>, head: int, tail: int, size: int,
                                 s: seq<Slot<V>>, key: string)
    requires Represents(data, index, head, tail, size, s) && key in index
    ensures Represents(data, index - {key}, head, tail, size, DeleteKey(s, key))
  {
    hide Layout, WellFormed, Wrap, Find;
    IndexFinds(data, index, head, tail, size, s, key);
    FindLeads(s, key);
    var i := Find(s, key).value;
    var e := s[i].(reachable := false);
    LayoutAfterChange(data, head, s, i, e);
    assert data[index[key] := EntryOf(e)] == data;
    ChangeKeepsWellFormed(s, i, e);
    var n, t, now := |data|, s[i := e], index - {key};
    forall k ensures IndexedAt(now, head, n, t, k) {
      assert IndexedAt(index, head, |data|, s, k);
      FindAfterChange(s, i, e, k);
    }
  }

  lemma RepresentsAfterEviction<V>(data: seq<Entry<V>>, index: map<string, int>, head: int, tail: int, size: int,
                                   s: seq<Slot<V>>)
    requires Represents(data, index, head, tail, size, s) && size == |data|
    ensures data[head].key == s[0].key
    ensures Represents(data, index - {data[head].key}, Wrap(head + 1, |data|), tail, size - 1, Evict(s))
  {
    hide Layout, WellFormed, Find, Evict;
    LayoutAt(data, head, s, 0);
    LayoutAfterEviction(data, head, s);
    EvictKeepsWellFormed(s);
    var n, t, now, next := |data|, Evict(s), index - {s[0].key}, Wrap(head + 1, |data|);
    forall k ensures IndexedAt(now, next, n, t, k) {
      assert IndexedAt(index, head, |data|, s, k);
      FindAfterEvict(s, k);
      FindLeads(s, k);
    }
  }

  lemma RepresentsAfterAppend<V>(data: seq<Entry<V>>, index: map<string, int>, head: int, tail: int, size: int,
                                 s: seq<Slot<V>>, e: Slot<V>)
    requires Represents(data, index, head, tail, size, s)
    requires |s| < |data| && e.reachable && Find(s, e.key).None?
    ensures Represents(data[tail := EntryOf(e)], index[e.key := tail], head, Wrap(tail + 1, |data|), size + 1, s + [e])
  {
    hide Layout, WellFormed, Find;
    LayoutAfterAppend(data, head, s, e);
    AppendKeepsWellFormed(s, e);
    var n, t, now := |data|, s + [e], index[e.key := tail];
    forall k ensures IndexedAt(now, head, n, t, k) {
      assert IndexedAt(index, head, |data|, s, k);
      FindAfterAppend(s, e, k);
    }
  }

  lemma RepresentsAfterPut<V>(data: seq<Entry<V>>, index: map<string, int>, head: int, tail: int, size: int,
                              s: seq<Slot<V>>, key: string, value: V)
    requires Represents(data, index, head, tail, size, s) && key !in index
    ensures var full := size == |data|;
            Represents(data[tail := Entry(key, value)],
                       (if full then index - {data[head].key} else index)[key := tail],
                       if full then Wrap(head + 1, |data|) else head,
                       Wrap(tail + 1, |data|),
                       if full then size else size + 1,
                       PutSlot(s, |data|, key, value))
  {
    hide Layout, WellFormed, Find, Indexed, Evict;
    var e := Slot(key, value, true);
    IndexFinds(data, index, head, tail, size, s, key);
    if size == |data| {
      RepresentsAfterEviction(data, index, head, tail, size, s);
      FindAfterEvict(s, key);
      RepresentsAfterAppend(data, index - {data[head].key}, Wrap(head + 1, |data|), tail, size - 1, Evict(s), e);
    } else {
      RepresentsAfterAppend(data, index, head, tail, size, s, e);
    }
  }

  class RingBuffer<V> {
    const data: array<Entry<V>>
    var index: map<string, int>
    var head: int
    var tail: int
    var size: int
    const capacity: int
    /** The zero value of V, which a miss returns. */
    const zero: V

    ghost var slots: seq<Slot<V>>

    ghost predicate Valid()
      reads this, data
    {
      1 <= capacity == data.Length && Represents(data[..], index, head, tail, size, slots)
    }

    constructor (capacity: int, zero: V)
      requires 1 <= capacity
      ensures Valid() && fresh(data) && slots == []
      ensures this.capacity == capacity && this.zero == zero
    {
      this.data := new Entry<V>[capacity](_ => Entry("", zero));
      this.index := map[];
      this.head, this.tail, this.size := 0, 0, 0;
      this.capacity, this.zero := capacity, zero;
      this.slots := [];
    }

    method Put(key: string, value: V)
      requires Valid()
      modifies this, data
      ensures Valid()
      ensures slots == PutSlot(old(slots), capacity, key, value)
    {
      hide Represents, PutSlot;
      if key in index {
        RepresentsAfterUpdate(data[..], index, head, tail, size, slots, key, value);
        var slot := index[key];
        data[slot] := Entry(data[slot].key, value);
        slots := PutSlot(slots, capacity, key, value);
        return;
      }
      RepresentsBounds(data[..], index, head, tail, size, slots);
      RepresentsAfterPut(data[..], index, head, tail, size, slots, key, value);
      WrapIsMod(head + 1, capacity);
      WrapIsMod(tail + 1, capacity);
      if size == capacity {
        var evicted := data[head].key;
        index := index - {evicted};
        head := (head + 1) % capacity;
      } else {
        size := size + 1;
      }
      data[tail] := Entry(key, value);
      index := index[key := tail];
      tail := (tail + 1) % capacity;
      slots := PutSlot(slots, capacity, key, value);
    }

    method Get(key: string) returns (value: V, found: bool)
      requires Valid()
      ensures found == Lookup(slots, key).Some?
      ensures value == if found then Lookup(slots, key).value else zero
    {
      hide Represents, Find;
      IndexFinds(data[..], index, head, tail, size, slots, key);
      if key !in index {
        return zero, false;
      }
      var slot := index[key];
      return data[slot].value, true;
    }

    method GetAndDelete(key: string) returns (value: V, found: bool)
      requires Valid()
      modifies this
      ensures Valid()
      ensures found == Lookup(old(slots), key).Some?
      ensures value == if found then Lookup(old(slots), key).value else zero
      ensures slots == DeleteKey(old(slots), key)
    {
      hide Represents, Find;
      IndexFinds(data[..], index, head, tail, size, slots, key);
      if key !in index {
        return zero, false;
      }
      RepresentsAfterDelete(data[..], index, head, tail, size, slots, key);
      var slot := index[key];
      value, found := data[slot].value, true;
      index := index - {key};
      slots := DeleteKey(slots, key);
    }

    /** The oldest slot, tombstone or not, is the one the next fresh Put to a full buffer evicts. */
    method Oldest() returns (e: Entry<V>, found: bool)
      requires Valid()
      ensures found == (slots != [])
      ensures e == if found then EntryOf(slots[0]) else Entry("", zero)
    {
      if size == 0 {
        return Entry("", zero), false;
      }
      LayoutAt(data[..], head, slots, 0);
      return data[head], true;
    }

    method Newest() returns (e: Entry<V>, found: bool)
      requires Valid()
      ensures found == (slots != [])
      ensures e == if found then EntryOf(slots[|slots| - 1]) else Entry("", zero)
    {
      if size == 0 {
        return Entry("", zero), false;
      }
      WrapIsMod(tail - 1 + capacity, capacity);
      LayoutAt(data[..], head, slots, size - 1);
      return data[(tail - 1 + capacity) % capacity], true;
    }

    method Entries() returns (out: seq<Entry<V>>)
      requires Valid()
      ensures |out| == |slots| <= capacity
      ensures forall i :: 0 <= i < |out| ==> out[i] == EntryOf(slots[i])
    {
      hide WellFormed, Indexed;
      out := [];
      for i := 0 to size
        invariant |out| == i
        invariant forall j :: 0 <= j < i ==> out[j] == EntryOf(slots[j])
      {
        WrapIsMod(head + i, capacity);
        LayoutAt(data[..], head, slots, i);
        out := out + [data[(head + i) % capacity]];
      }
    }
  }

  lemma RepresentsBounds<V>(data: seq<Entry<V>>, index: map<string, int>, head: int, tail: int, size: int, s: seq<Slot<V>>)
    requires Represents(data, index, head, tail, size, s)
    ensures 0 <= head < |data| && 0 <= tail < |data| && 0 <= size <= |data|
  {
  }
}
