/** The byte-bounded LRU store: a timestamped map that refines a recency list. */
module BoundedLru {
  import opened Words
  import opened Options
  import opened RecencyList

  type Key(==, !new)
  type Value(!new)

  datatype Sized = Sized(value: Value, bytes: nat)

  type Item = Slot<Key, Sized>

  // ----- Inserting into the recency list under a byte budget

  function Bytes(items: seq<Item>): nat {
    if items == [] then 0 else items[0].value.bytes + Bytes(items[1..])
  }

  /** Drops items from the old end until at most `target` bytes remain. */
  function EvictTo(items: seq<Item>, target: nat): seq<Item> {
    if Bytes(items) <= target then items else EvictTo(items[1..], target)
  }

  function Insert(items: seq<Item>, item: Item, maxBytes: nat): seq<Item> {
    if item.value.bytes > maxBytes then EvictTo(Without(items, item.key), 0)
    else EvictTo(Without(items, item.key), maxBytes - item.value.bytes) + [item]
  }

  lemma {:induction false} BytesConcat(a: seq<Item>, b: seq<Item>)
    ensures Bytes(a + b) == Bytes(a) + Bytes(b)
    decreases |a|
  {
    if a == [] {
      assert a + b == b;
    } else {
      BytesConcat(a[1..], b);
      assert (a + b)[1..] == a[1..] + b;
    }
  }

  lemma BytesDropAt(items: seq<Item>, i: nat)
    requires i < |items|
    ensures Bytes(items[..i] + items[i + 1..]) + items[i].value.bytes == Bytes(items)
  {
    BytesAround(items[..i], items[i], items[i + 1..]);
    assert items == items[..i] + ([items[i]] + items[i + 1..]);
  }

  lemma BytesAround(front: seq<Item>, item: Item, back: seq<Item>)
    ensures Bytes(front + ([item] + back)) == Bytes(front + back) + item.value.bytes
  {
    BytesConcat(front, [item] + back);
    BytesConcat(front, back);
    assert ([item] + back)[1..] == back;
  }

  /** Dropping the first `m` of `items` leaves more than `target` bytes. */
  predicate Exceeds(items: seq<Item>, m: nat, target: nat)
    requires m <= |items|
  {
    Bytes(items[m..]) > target
  }

  /** Eviction removes the shortest prefix that makes room, and nothing more. */
  lemma {:induction false} EvictsTheShortestPrefix(items: seq<Item>, target: nat)
    ensures var n := |items| - |EvictTo(items, target)|;
            && 0 <= n
            && EvictTo(items, target) == items[n..]
            && !Exceeds(items, n, target)
            && forall m :: 0 <= m < n ==> Exceeds(items, m, target)
    decreases |items|
  {
    assert items[0..] == items;
    if Bytes(items) > target {
      var rest := items[1..];
      EvictsTheShortestPrefix(rest, target);
      var n := |items| - |EvictTo(items, target)|;
      assert rest[n - 1..] == items[n..];
      forall m | 0 < m < n ensures Exceeds(items, m, target) {
        assert Exceeds(rest, m - 1, target) && items[m..] == rest[m - 1..];
      }
    }
  }

  /** The budget holds after every insert. */
  lemma InsertStaysInBudget(items: seq<Item>, item: Item, maxBytes: nat)
    ensures Bytes(Insert(items, item, maxBytes)) <= maxBytes
  {
    var rest := Without(items, item.key);
    var target := if item.value.bytes > maxBytes then 0 else maxBytes - item.value.bytes;
    EvictsTheShortestPrefix(rest, target);
    BytesConcat(EvictTo(rest, target), [item]);
  }

  /** A value that fits the budget can be read back right after its insert. */
  lemma InsertFindsTheValue(items: seq<Item>, item: Item, maxBytes: nat)
    requires item.value.bytes <= maxBytes
    ensures Find(Insert(items, item, maxBytes), item.key) == Some(item.value)
  {
    var rest := Without(items, item.key);
    var kept := EvictTo(rest, maxBytes - item.value.bytes);
    FindWithout(items, item.key, item.key);
    EvictsTheShortestPrefix(rest, maxBytes - item.value.bytes);
    FindSuffix(rest, |rest| - |kept|, item.key);
    FindAppend(kept, item, item.key);
  }

  lemma {:induction false} FindSuffix(items: seq<Item>, n: nat, k: Key)
    requires n <= |items| && Find(items, k).None?
    ensures Find(items[n..], k).None?
    decreases |items|
  {
    if n > 0 {
      FindSuffix(items[1..], n - 1, k);
      assert items[1..][n - 1..] == items[n..];
    } else {
      assert items[0..] == items;
    }
  }

  /**
   The inserted value becomes the most recent entry, the others keep their order,
   and only the shortest least recently used prefix that makes room is evicted.
   */
  lemma InsertEvictsNoMoreThanNeeded(items: seq<Item>, item: Item, maxBytes: nat)
    requires item.value.bytes <= maxBytes
    ensures var rest, room := Without(items, item.key), maxBytes - item.value.bytes;
            var n := |rest| + 1 - |Insert(items, item, maxBytes)|;
            && 0 <= n <= |rest|
            && Insert(items, item, maxBytes) == rest[n..] + [item]
            && !Exceeds(rest, n, room)
            && forall m :: 0 <= m < n ==> Exceeds(rest, m, room)
  {
    EvictsTheShortestPrefix(Without(items, item.key), maxBytes - item.value.bytes);
  }

  lemma {:induction false} ZeroBytesLastIsZero(items: seq<Item>)
    requires items != [] && Bytes(items) == 0
    ensures items[|items| - 1].value.bytes == 0
  {
    if |items| > 1 {
      ZeroBytesLastIsZero(items[1..]);
    }
  }

  /**
   A value larger than the whole budget leaves no resident bytes. It leaves an
   empty store exactly when the most recent other entry occupies any bytes at all
   (or there is none): zero-sized recent entries survive.
   */
  lemma OversizedInsertEmptiesIff(items: seq<Item>, item: Item, maxBytes: nat)
    requires item.value.bytes > maxBytes
    ensures Bytes(Insert(items, item, maxBytes)) == 0
    ensures var rest := Without(items, item.key);
            Insert(items, item, maxBytes) == [] <==> rest == [] || rest[|rest| - 1].value.bytes > 0
  {
    var rest := Without(items, item.key);
    EvictsTheShortestPrefix(rest, 0);
    var kept := EvictTo(rest, 0);
    if kept != [] {
      ZeroBytesLastIsZero(kept);
    } else if rest != [] {
      assert Bytes(rest[|rest| - 1..]) > 0;
    }
  }

  /** A single zero-sized entry outlives a value larger than the whole budget. */
  lemma ZeroSizedEntrySurvives(k: Key, big: Key, value: Value, maxBytes: nat)
    requires k != big
    ensures var entry := Slot(k, Sized(value, 0));
            Insert([entry], Slot(big, Sized(value, maxBytes + 1)), maxBytes) == [entry]
  {
    var entry := Slot(k, Sized(value, 0));
    WithoutMissing([entry], big);
    assert [entry][1..] == [] && Bytes([entry]) == 0;
  }

  // ----- The store

  datatype Entry = Entry(value: Value, lastUsed: u64, bytes: nat)

  function Stamped(item: Item, tick: u64): Entry {
    Entry(item.value.value, tick, item.value.bytes)
  }

  /** The reading of the logical clock after `ticks` ticks. */
  function Stamp(ticks: nat): u64 {
    ticks % (U64_MAX + 1)
  }

  /** The logical clock after handing out a tick. */
  function NextClock(clock: u64): u64 {
    (clock + 1) % (U64_MAX + 1)
  }

  // Each clause below is stated through a predicate of its own, so that the
  // verifier uses an instance only where a proof names it.

  ghost predicate KeysDiffer(items: seq<Item>, i: nat, j: nat)
    requires i < |items| && j < |items|
  {
    items[i].key != items[j].key
  }

  ghost predicate Listed(entries: map<Key, Entry>, items: seq<Item>, k: Key) {
    k in entries ==> Find(items, k).Some?
  }

  ghost predicate Matches(entries: map<Key, Entry>, items: seq<Item>, i: nat, clock: nat)
    requires i < |items|
  {
    && items[i].key in entries
    && Sized(entries[items[i].key].value, entries[items[i].key].bytes) == items[i].value
    && entries[items[i].key].lastUsed < clock
  }

  ghost predicate Older(entries: map<Key, Entry>, items: seq<Item>, i: nat, j: nat)
    requires i < |items| && j < |items|
  {
    && items[i].key in entries && items[j].key in entries
    && entries[items[i].key].lastUsed < entries[items[j].key].lastUsed
  }

  /** `items` lists exactly the entries, in strictly increasing order of their distinct ticks. */
  ghost predicate Lists(entries: map<Key, Entry>, items: seq<Item>, clock: nat) {
    && (forall i, j :: 0 <= i < j < |items| ==> KeysDiffer(items, i, j))
    && (forall k :: Listed(entries, items, k))
    && (forall i :: 0 <= i < |items| ==> Matches(entries, items, i, clock))
    && (forall i, j :: 0 <= i < j < |items| ==> Older(entries, items, i, j))
  }

  lemma KeysDifferFrom(entries: map<Key, Entry>, items: seq<Item>, clock: nat, i: nat)
    requires Lists(entries, items, clock) && i < |items|
    ensures forall j :: 0 <= j < |items| && j != i ==> items[j].key != items[i].key
  {
    forall j | 0 <= j < |items| && j != i ensures items[j].key != items[i].key {
      assert j < i ==> KeysDiffer(items, j, i);
      assert i < j ==> KeysDiffer(items, i, j);
    }
  }

  lemma DropIsWithout(entries: map<Key, Entry>, items: seq<Item>, clock: nat, i: nat)
    requires Lists(entries, items, clock) && i < |items|
    ensures items[..i] + items[i + 1..] == Without(items, items[i].key)
  {
    KeysDifferFrom(entries, items, clock, i);
    WithoutAt(items, i);
  }

  lemma PresentIsListed(entries: map<Key, Entry>, items: seq<Item>, clock: nat, k: Key)
    requires Lists(entries, items, clock)
    ensures Find(items, k) == if k in entries then Some(Sized(entries[k].value, entries[k].bytes)) else None
    ensures k in entries ==> entries[k].lastUsed < clock
  {
    assert Listed(entries, items, k);
    if Find(items, k).Some? {
      var i := FoundAt(items, k);
      assert Matches(entries, items, i, clock);
    }
  }

  lemma BytesWithout(entries: map<Key, Entry>, items: seq<Item>, clock: nat, k: Key)
    requires Lists(entries, items, clock)
    ensures Bytes(Without(items, k)) + (if k in entries then entries[k].bytes else 0) == Bytes(items)
  {
    PresentIsListed(entries, items, clock, k);
    if k in entries {
      var i := FoundAt(items, k);
      DropIsWithout(entries, items, clock, i);
      BytesDropAt(items, i);
    } else {
      MissingIsWithout(entries, items, clock, k);
    }
  }

  lemma MissingIsWithout(entries: map<Key, Entry>, items: seq<Item>, clock: nat, k: Key)
    requires Lists(entries, items, clock) && k !in entries
    ensures Without(items, k) == items
  {
    forall j | 0 <= j < |items| ensures items[j].key != k {
      assert Matches(entries, items, j, clock);
    }
    WithoutMissing(items, k);
  }

  /** The position in `items` of what stands at `j` once position `i` is dropped. */
  function Shift(i: nat, j: nat): nat {
    if j < i then j else j + 1
  }

  lemma DropAtIndex(items: seq<Item>, i: nat, j: nat)
    requires i < |items| && j < |items| - 1
    ensures |items[..i] + items[i + 1..]| == |items| - 1
    ensures (items[..i] + items[i + 1..])[j] == items[Shift(i, j)]
  {
  }

  lemma RemoveAt(entries: map<Key, Entry>, items: seq<Item>, clock: nat, i: nat)
    requires Lists(entries, items, clock) && i < |items|
    ensures Lists(entries - {items[i].key}, items[..i] + items[i + 1..], clock)
  {
    var k, rest := items[i].key, items[..i] + items[i + 1..];
    var entries' := entries - {k};
    forall j | 0 <= j < |rest| ensures Matches(entries', rest, j, clock) {
      DropAtIndex(items, i, j);
      assert Matches(entries, items, Shift(i, j), clock);
      assert j < i ==> KeysDiffer(items, j, i);
      assert i <= j ==> KeysDiffer(items, i, j + 1);
    }
    forall j, l | 0 <= j < l < |rest| ensures KeysDiffer(rest, j, l) && Older(entries', rest, j, l) {
      DropAtIndex(items, i, j);
      DropAtIndex(items, i, l);
      assert KeysDiffer(items, Shift(i, j), Shift(i, l)) && Older(entries, items, Shift(i, j), Shift(i, l));
      assert Matches(entries', rest, j, clock) && Matches(entries', rest, l, clock);
    }
    DropIsWithout(entries, items, clock, i);
    forall k' ensures Listed(entries', rest, k') {
      assert Listed(entries, items, k');
      FindWithout(items, k, k');
    }
  }

  lemma RemoveLists(entries: map<Key, Entry>, items: seq<Item>, clock: nat, k: Key)
    requires Lists(entries, items, clock)
    ensures Lists(entries - {k}, Without(items, k), clock)
  {
    PresentIsListed(entries, items, clock, k);
    if k in entries {
      var i := FoundAt(items, k);
      DropIsWithout(entries, items, clock, i);
      RemoveAt(entries, items, clock, i);
    } else {
      MissingIsWithout(entries, items, clock, k);
      assert entries - {k} == entries;
    }
  }

  lemma AppendLists(entries: map<Key, Entry>, items: seq<Item>, clock: u64, item: Item)
    requires Lists(entries, items, clock) && item.key !in entries
    ensures Lists(entries[item.key := Stamped(item, clock)], items + [item], clock + 1)
  {
    var entries', items' := entries[item.key := Stamped(item, clock)], items + [item];
    var later := clock + 1;
    forall i | 0 <= i < |items'| ensures Matches(entries', items', i, later) {
      assert i < |items| ==> Matches(entries, items, i, clock);
    }
    forall i, j | 0 <= i < j < |items'| ensures KeysDiffer(items', i, j) && Older(entries', items', i, j) {
      assert Matches(entries, items, i, clock);
      assert j < |items| ==> KeysDiffer(items, i, j) && Older(entries, items, i, j);
    }
    forall k ensures Listed(entries', items', k) {
      assert Listed(entries, items, k);
      FindAppend(items, item, k);
    }
  }

  /**
   A new entry is the most recent one as long as the clock has not wrapped. The
   first tick after the wrap makes it the oldest instead, unless the store is empty.
   */
  lemma TickIsNewestIff(entries: map<Key, Entry>, items: seq<Item>, ticks: nat, item: Item)
    requires Lists(entries, items, ticks) && item.key !in entries && ticks <= U64_MAX + 1
    ensures var entries' := entries[item.key := Stamped(item, Stamp(ticks))];
            && (Lists(entries', items + [item], ticks + 1) <==> ticks <= U64_MAX || items == [])
            && (ticks > U64_MAX ==> forall k :: k in entries ==> entries'[item.key].lastUsed <= entries'[k].lastUsed)
  {
    var entries', items' := entries[item.key := Stamped(item, Stamp(ticks))], items + [item];
    if ticks <= U64_MAX {
      AppendLists(entries, items, ticks, item);
    } else if items == [] {
      ZeroAppendLists(entries, items, ticks, item);
    } else {
      assert items'[|items|] == item;
      assert !Older(entries', items', 0, |items|);
    }
  }

  lemma ZeroAppendLists(entries: map<Key, Entry>, items: seq<Item>, clock: nat, item: Item)
    requires Lists(entries, items, clock) && items == []
    ensures Lists(entries[item.key := Stamped(item, 0)], items + [item], clock + 1)
  {
    var entries', items' := entries[item.key := Stamped(item, 0)], items + [item];
    assert Matches(entries', items', 0, clock + 1);
    forall k ensures Listed(entries', items', k) {
      assert Listed(entries, items, k);
      FindAppend(items, item, k);
    }
  }

  lemma TouchLists(entries: map<Key, Entry>, items: seq<Item>, tick: u64, k: Key)
    requires Lists(entries, items, tick) && k in entries
    ensures Lists(entries[k := entries[k].(lastUsed := tick)], Touch(items, k), tick + 1)
  {
    PresentIsListed(entries, items, tick, k);
    var item := Slot(k, Find(items, k).value);
    RemoveLists(entries, items, tick, k);
    AppendLists(entries - {k}, Without(items, k), tick, item);
    assert (entries - {k})[k := Stamped(item, tick)] == entries[k := entries[k].(lastUsed := tick)];
  }

  lemma LaterLists(entries: map<Key, Entry>, items: seq<Item>, clock: nat, later: nat)
    requires Lists(entries, items, clock) && clock <= later
    ensures Lists(entries, items, later)
  {
    forall i | 0 <= i < |items| ensures Matches(entries, items, i, later) {
      assert Matches(entries, items, i, clock);
    }
  }

  /** The head of the list is the one entry with the smallest tick. */
  lemma HeadIsOldest(entries: map<Key, Entry>, items: seq<Item>, clock: nat, k: Key)
    requires Lists(entries, items, clock) && k in entries
    ensures items != [] && items[0].key in entries
    ensures entries[items[0].key].lastUsed <= entries[k].lastUsed
    ensures entries[k].lastUsed <= entries[items[0].key].lastUsed ==> k == items[0].key
  {
    PresentIsListed(entries, items, clock, k);
    var j := FoundAt(items, k);
    assert Matches(entries, items, 0, clock);
    assert 0 < j ==> Older(entries, items, 0, j);
  }

  class BoundedLruStore {
    var entries: map<Key, Entry>
    var currentBytes: nat
    const maxBytes: nat
    var clock: u64
    const byteSize: Value -> nat
    /** The recency list the store stands for, and the number of ticks handed out. */
    ghost var items: seq<Item>
    ghost var ticks: nat

    ghost predicate Valid()
      reads this
    {
      && Lists(entries, items, ticks) && clock == Stamp(ticks)
      && currentBytes == Bytes(items) <= maxBytes
    }

    constructor (maxBytes: nat, byteSize: Value -> nat)
      ensures Valid() && items == [] && ticks == 0
      ensures this.maxBytes == maxBytes && this.byteSize == byteSize
    {
      this.entries, this.currentBytes, this.clock, this.items, this.ticks := map[], 0, 0, [], 0;
      this.maxBytes, this.byteSize := maxBytes, byteSize;
    }

    /** Returns the value and makes it the most recent; a miss only spends a tick. */
    method Get(key: Key) returns (value: Option<Value>)
      requires Valid() && ticks <= U64_MAX
      modifies this
      ensures Valid() && ticks == old(ticks) + 1
      ensures items == Touch(old(items), key)
      ensures value == match Find(old(items), key) case Some(found) => Some(found.value) case None => None
    {
      var tick := clock;
      clock := NextClock(clock);
      ticks := ticks + 1;
      PresentIsListed(entries, items, tick, key);
      if key !in entries {
        LaterLists(entries, items, tick, ticks);
        return None;
      }
      var entry := entries[key];
      TouchLists(entries, items, tick, key);
      BytesWithout(entries, items, tick, key);
      BytesConcat(Without(items, key), [Slot(key, Find(items, key).value)]);
      entries := entries[key := entry.(lastUsed := tick)];
      items := Touch(items, key);
      return Some(entry.value);
    }

    /** Removes an entry and frees exactly its bytes: the subtraction never saturates. */
    method Remove(key: Key)
      requires Valid()
      modifies this
      ensures Valid() && ticks == old(ticks)
      ensures entries == old(entries) - {key} && items == Without(old(items), key)
      ensures currentBytes + (if key in old(entries) then old(entries)[key].bytes else 0) == old(currentBytes)
    {
      RemoveLists(entries, items, ticks, key);
      BytesWithout(entries, items, ticks, key);
      if key in entries {
        var freed := entries[key].bytes;
        entries := entries - {key};
        currentBytes := Monus(currentBytes, freed);
      } else {
        assert entries - {key} == entries;
      }
      items := Without(items, key);
    }

    /** Removes the entry with the smallest tick, which is the head of the list. */
    method EvictOldest()
      requires Valid() && items != []
      modifies this
      ensures Valid() && ticks == old(ticks)
      ensures items == old(items)[1..] && entries.Keys <= old(entries).Keys
    {
      ghost var head := items[0].key;
      assert Matches(entries, items, 0, ticks);
      forall k | k in entries ensures entries[head].lastUsed <= entries[k].lastUsed {
        HeadIsOldest(entries, items, ticks, k);
      }
      var victim :| victim in entries && forall k :: k in entries ==> entries[victim].lastUsed <= entries[k].lastUsed;
      HeadIsOldest(entries, items, ticks, victim);
      DropIsWithout(entries, items, ticks, 0);
      assert items[..0] + items[1..] == items[1..];
      Remove(victim);
    }

    /** Evicts the least recently used entries until at most `target` bytes are resident. */
    method EvictUntilFits(target: nat)
      requires Valid()
      modifies this
      ensures Valid() && ticks == old(ticks)
      ensures items == EvictTo(old(items), target) && entries.Keys <= old(entries).Keys
      ensures currentBytes <= target
    {
      while currentBytes > target
        invariant Valid() && ticks == old(ticks)
        invariant EvictTo(items, target) == EvictTo(old(items), target)
        invariant entries.Keys <= old(entries).Keys
        decreases |items|
      {
        EvictOldest();
      }
    }

    /** Replaces or adds an entry after evicting the shortest least-recently-used prefix that makes room. */
    method InsertValue(key: Key, value: Value)
      requires Valid() && ticks <= U64_MAX
      modifies this
      ensures Valid() && ticks == old(ticks) + 1
      ensures items == Insert(old(items), Slot(key, Sized(value, byteSize(value))), maxBytes)
    {
      var bytes := byteSize(value);
      Remove(key);
      if bytes > maxBytes {
        EvictUntilFits(0);
        LaterLists(entries, items, ticks, ticks + 1);
        clock := NextClock(clock);
        ticks := ticks + 1;
        return;
      }
      EvictUntilFits(maxBytes - bytes);
      Append(Slot(key, Sized(value, bytes)));
    }

    /** Adds a new entry that fits, with the next tick. */
    method Append(item: Item)
      requires Valid() && ticks <= U64_MAX && item.key !in entries && currentBytes + item.value.bytes <= maxBytes
      modifies this
      ensures Valid() && ticks == old(ticks) + 1
      ensures items == old(items) + [item]
    {
      AppendLists(entries, items, ticks, item);
      BytesConcat(items, [item]);
      entries := entries[item.key := Entry(item.value.value, clock, item.value.bytes)];
      currentBytes := currentBytes + item.value.bytes;
      clock := NextClock(clock);
      ticks := ticks + 1;
      items := items + [item];
    }
  }
}
