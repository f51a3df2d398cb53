/** Keyed entries in order of use, least recently used first: what an LRU cache stands for. */
module RecencyList {
  import opened Options

  datatype Slot<K, V> = Slot(key: K, value: V)

  function Find<K(==), V>(slots: seq<Slot<K, V>>, k: K): Option<V> {
    if slots == [] then None
    else if slots[0].key == k then Some(slots[0].value)
    else Find(slots[1..], k)
  }

  function Without<K(==), V>(slots: seq<Slot<K, V>>, k: K): seq<Slot<K, V>> {
    if slots == [] then []
    else if slots[0].key == k then Without(slots[1..], k)
    else [slots[0]] + Without(slots[1..], k)
  }

  /** A hit becomes the most recent. */
  function Touch<K(==), V>(slots: seq<Slot<K, V>>, k: K): seq<Slot<K, V>> {
    match Find(slots, k)
    case Some(v) => Without(slots, k) + [Slot(k, v)]
    case None => slots
  }

  lemma {:induction false} FindWithout<K, V>(slots: seq<Slot<K, V>>, gone: K, k: K)
    ensures Find(Without(slots, gone), k) == if k == gone then None else Find(slots, k)
    ensures |Without(slots, gone)| <= |slots|
    ensures Find(slots, gone).Some? ==> |Without(slots, gone)| < |slots|
    decreases |slots|
  {
    if slots != [] {
      FindWithout(slots[1..], gone, k);
      var rest := Without(slots[1..], gone);
      assert ([slots[0]] + rest)[1..] == rest;
    }
  }

  lemma {:induction false} FindAppend<K, V>(slots: seq<Slot<K, V>>, slot: Slot<K, V>, k: K)
    ensures Find(slots + [slot], k)
            == if Find(slots, k).Some? then Find(slots, k) else if k == slot.key then Some(slot.value) else None
    decreases |slots|
  {
    if slots == [] {
      assert slots + [slot] == [slot];
      assert [slot][1..] == [];
    } else {
      FindAppend(slots[1..], slot, k);
      assert (slots + [slot])[1..] == slots[1..] + [slot];
    }
  }

  lemma TouchFinds<K, V>(slots: seq<Slot<K, V>>, touched: K, k: K)
    ensures Find(Touch(slots, touched), k) == Find(slots, k)
    ensures |Touch(slots, touched)| <= |slots|
  {
    match Find(slots, touched) {
      case Some(v) =>
        FindWithout(slots, touched, k);
        FindAppend(Without(slots, touched), Slot(touched, v), k);
      case None =>
    }
  }

  /** A hit moves to the recent end and the rest keep their order; a miss changes nothing. */
  lemma TouchMakesMostRecent<K, V>(slots: seq<Slot<K, V>>, k: K)
    ensures var after := Touch(slots, k);
            && (Find(slots, k).None? ==> after == slots)
            && (Find(slots, k).Some? ==>
                  && after != []
                  && after[|after| - 1] == Slot(k, Find(slots, k).value)
                  && after[..|after| - 1] == Without(slots, k))
  {
  }

  lemma {:induction false} FoundAt<K, V>(slots: seq<Slot<K, V>>, k: K) returns (i: nat)
    requires Find(slots, k).Some?
    ensures i < |slots| && slots[i] == Slot(k, Find(slots, k).value)
    decreases |slots|
  {
    if slots[0].key == k {
      i := 0;
    } else {
      i := FoundAt(slots[1..], k);
      i := i + 1;
    }
  }

  lemma {:induction false} FindAt<K, V>(slots: seq<Slot<K, V>>, i: nat)
    requires i < |slots| && forall j :: 0 <= j < i ==> slots[j].key != slots[i].key
    ensures Find(slots, slots[i].key) == Some(slots[i].value)
    decreases |slots|
  {
    if i > 0 {
      assert slots[0].key != slots[i].key;
      FindAt(slots[1..], i - 1);
    }
  }

  lemma {:induction false} WithoutMissing<K, V>(slots: seq<Slot<K, V>>, k: K)
    requires forall j :: 0 <= j < |slots| ==> slots[j].key != k
    ensures Without(slots, k) == slots && Find(slots, k).None?
    decreases |slots|
  {
    if slots != [] {
      WithoutMissing(slots[1..], k);
    }
  }

  /** Among distinct keys, `Without` removes the one slot of its key. */
  lemma {:induction false} WithoutAt<K, V>(slots: seq<Slot<K, V>>, i: nat)
    requires i < |slots| && forall j :: 0 <= j < |slots| && j != i ==> slots[j].key != slots[i].key
    ensures Without(slots, slots[i].key) == slots[..i] + slots[i + 1..]
    decreases |slots|
  {
    var rest := slots[1..];
    if i == 0 {
      WithoutMissing(rest, slots[0].key);
    } else {
      assert rest[i - 1] == slots[i];
      WithoutAt(rest, i - 1);
      assert slots[..i] == [slots[0]] + rest[..i - 1] && slots[i + 1..] == rest[i..];
    }
  }
}
