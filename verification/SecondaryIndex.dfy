/** Secondary indexes kept beside a primary table by the indexed writes. */
module SecondaryIndex {
  import opened Options
  import opened Store

  /** `extract` gives the index key of a primary value; the index maps it to the primary key. */
  datatype Index = Index(primary: TableName, index: TableName, extract: Bytes -> Bytes)

  ghost predicate WellFormed(ix: Index) {
    ix.primary != ix.index
  }

  /** Some primary row under `pk` has index key `ik`. */
  predicate RowHasKey(s: State, ix: Index, pk: Bytes, ik: Bytes) {
    Lookup(s, ix.primary, pk).Some? && ix.extract(Lookup(s, ix.primary, pk).value) == ik
  }

  /** The index table is the inverse of `extract` over the primary table. */
  ghost predicate IndexExact(s: State, ix: Index) {
    forall ik, pk :: Lookup(s, ix.index, ik) == Some(pk) <==> RowHasKey(s, ix, pk, ik)
  }

  /** No other primary row has the index key that `v` would get. */
  ghost predicate KeyIsFree(s: State, ix: Index, pk: Bytes, v: Bytes) {
    forall other :: other != pk ==> !RowHasKey(s, ix, other, ix.extract(v))
  }

  datatype Write = PutIndexed(pk: Bytes, value: Bytes) | DeleteIndexed(pk: Bytes) | ClearIndexed

  /** The effect of an indexed write on the transaction's view. */
  function Effect(s: State, ix: Index, w: Write): State {
    match w
    case PutIndexed(pk, v) =>
      var prior := Lookup(s, ix.primary, pk);
      var s1 := if prior.Some? && ix.extract(prior.value) != ix.extract(v)
                then Apply(s, Delete(ix.index, ix.extract(prior.value))) else s;
      Apply(Apply(s1, Put(ix.primary, pk, v)), Put(ix.index, ix.extract(v), pk))
    case DeleteIndexed(pk) =>
      var prior := Lookup(s, ix.primary, pk);
      if prior.None? then s
      else Apply(Apply(s, Delete(ix.primary, pk)), Delete(ix.index, ix.extract(prior.value)))
    case ClearIndexed => Apply(Apply(s, Clear(ix.primary)), Clear(ix.index))
  }

  lemma PutIndexedPrimary(s: State, ix: Index, pk: Bytes, v: Bytes, k: Bytes)
    requires WellFormed(ix)
    ensures Lookup(Effect(s, ix, PutIndexed(pk, v)), ix.primary, k)
            == if k == pk then Some(v) else Lookup(s, ix.primary, k)
  {
  }

  lemma PutIndexedIndex(s: State, ix: Index, pk: Bytes, v: Bytes, ik: Bytes)
    requires WellFormed(ix)
    ensures Lookup(Effect(s, ix, PutIndexed(pk, v)), ix.index, ik)
            == if ik == ix.extract(v) then Some(pk)
               else if RowHasKey(s, ix, pk, ik) then None
               else Lookup(s, ix.index, ik)
  {
  }

  /** `put_indexed` keeps the index exact if and only if the new index key is not another row's. */
  lemma PutKeepsIndexExactIff(s: State, ix: Index, pk: Bytes, v: Bytes)
    requires WellFormed(ix) && IndexExact(s, ix)
    ensures IndexExact(Effect(s, ix, PutIndexed(pk, v)), ix) <==> KeyIsFree(s, ix, pk, v)
  {
    var s', idx := Effect(s, ix, PutIndexed(pk, v)), ix.extract(v);
    if KeyIsFree(s, ix, pk, v) {
      forall ik, k ensures Lookup(s', ix.index, ik) == Some(k) <==> RowHasKey(s', ix, k, ik) {
        PutIndexedPrimary(s, ix, pk, v, k);
        PutIndexedIndex(s, ix, pk, v, ik);
        assert Lookup(s, ix.index, ik) == Some(k) <==> RowHasKey(s, ix, k, ik);
        assert Lookup(s, ix.index, ik) == Some(pk) <==> RowHasKey(s, ix, pk, ik);
        assert k != pk ==> !RowHasKey(s, ix, k, idx);
      }
    } else {
      var other :| other != pk && RowHasKey(s, ix, other, idx);
      PutIndexedPrimary(s, ix, pk, v, other);
      PutIndexedIndex(s, ix, pk, v, idx);
      assert RowHasKey(s', ix, other, idx) && Lookup(s', ix.index, idx) == Some(pk);
    }
  }

  lemma DeleteKeepsIndexExact(s: State, ix: Index, pk: Bytes)
    requires WellFormed(ix) && IndexExact(s, ix)
    ensures IndexExact(Effect(s, ix, DeleteIndexed(pk)), ix)
  {
    var s', prior := Effect(s, ix, DeleteIndexed(pk)), Lookup(s, ix.primary, pk);
    if prior.Some? {
      var gone := ix.extract(prior.value);
      forall ik, k ensures Lookup(s', ix.index, ik) == Some(k) <==> RowHasKey(s', ix, k, ik) {
        assert Lookup(s', ix.primary, k) == if k == pk then None else Lookup(s, ix.primary, k);
        assert Lookup(s', ix.index, ik) == if ik == gone then None else Lookup(s, ix.index, ik);
        assert Lookup(s, ix.index, ik) == Some(k) <==> RowHasKey(s, ix, k, ik);
        assert Lookup(s, ix.index, gone) == Some(pk) <==> RowHasKey(s, ix, pk, gone);
      }
    }
  }

  /** Right after an indexed put the value is found under its primary key and through its index key. */
  lemma PutIsReadBack(s: State, ix: Index, pk: Bytes, v: Bytes)
    requires WellFormed(ix)
    ensures var s' := Effect(s, ix, PutIndexed(pk, v));
            Lookup(s', ix.primary, pk) == Some(v) && GetVia(s', ix, ix.extract(v)) == Some(v)
  {
    PutIndexedPrimary(s, ix, pk, v, pk);
    PutIndexedIndex(s, ix, pk, v, ix.extract(v));
  }

  /** An indexed delete removes the row and, with it, the index entry it had; every other row and entry stays. */
  lemma DeleteRemovesRowAndEntry(s: State, ix: Index, pk: Bytes, k: Bytes, ik: Bytes)
    requires WellFormed(ix)
    ensures var s' := Effect(s, ix, DeleteIndexed(pk));
            && Lookup(s', ix.primary, k) == (if k == pk then None else Lookup(s, ix.primary, k))
            && Lookup(s', ix.index, ik) == (if RowHasKey(s, ix, pk, ik) then None else Lookup(s, ix.index, ik))
  {
  }

  /** Clearing leaves no row in the primary table, no entry in the index, and nothing to find through it. */
  lemma ClearLeavesNothing(s: State, ix: Index, k: Bytes)
    ensures var s' := Effect(s, ix, ClearIndexed);
            && Lookup(s', ix.primary, k).None?
            && Lookup(s', ix.index, k).None?
            && GetVia(s', ix, k).None?
  {
  }

  /** No indexed write touches a third table. */
  lemma WritesStayInTheirTables(s: State, ix: Index, w: Write, t: TableName, k: Bytes)
    requires t != ix.primary && t != ix.index
    ensures Lookup(Effect(s, ix, w), t, k) == Lookup(s, t, k)
  {
  }

  ghost predicate Unique(s: State, ix: Index, w: Write) {
    w.PutIndexed? ==> KeyIsFree(s, ix, w.pk, w.value)
  }

  function EffectAll(s: State, ix: Index, ws: seq<Write>): State
    decreases |ws|
  {
    if ws == [] then s else EffectAll(Effect(s, ix, ws[0]), ix, ws[1..])
  }

  /** Every put of the run finds its index key unused by other rows at that point. */
  ghost predicate AllUnique(s: State, ix: Index, ws: seq<Write>)
    decreases |ws|
  {
    ws == [] || (Unique(s, ix, ws[0]) && AllUnique(Effect(s, ix, ws[0]), ix, ws[1..]))
  }

  /** Under index-key uniqueness, any sequence of indexed writes keeps the index exact. */
  lemma {:induction false} WritesKeepIndexExact(s: State, ix: Index, ws: seq<Write>)
    requires WellFormed(ix) && IndexExact(s, ix) && AllUnique(s, ix, ws)
    ensures IndexExact(EffectAll(s, ix, ws), ix)
    decreases |ws|
  {
    if ws != [] {
      match ws[0] {
        case PutIndexed(pk, v) => PutKeepsIndexExactIff(s, ix, pk, v);
        case DeleteIndexed(pk) => DeleteKeepsIndexExact(s, ix, pk);
        case ClearIndexed =>
      }
      WritesKeepIndexExact(Effect(s, ix, ws[0]), ix, ws[1..]);
    }
  }

  /** `batch` leaves on `s` the rows that some indexed writes which respect uniqueness leave. */
  ghost predicate FromWrites(s: State, ix: Index, batch: seq<Op>) {
    exists ws :: AllUnique(s, ix, ws) && SameRows(Replay(s, batch), EffectAll(s, ix, ws))
  }

  // ----- Empty tables make no difference

  lemma EffectSameRows(s: State, s': State, ix: Index, w: Write)
    requires SameRows(s, s')
    ensures SameRows(Effect(s, ix, w), Effect(s', ix, w))
  {
    match w {
      case PutIndexed(pk, v) =>
        var prior := Lookup(s, ix.primary, pk);
        assert Lookup(s', ix.primary, pk) == prior;
        var moved := prior.Some? && ix.extract(prior.value) != ix.extract(v);
        var s1 := if moved then Apply(s, Delete(ix.index, ix.extract(prior.value))) else s;
        var s1' := if moved then Apply(s', Delete(ix.index, ix.extract(prior.value))) else s';
        if moved {
          ApplySameRows(s, s', Delete(ix.index, ix.extract(prior.value)));
        }
        ApplyTwiceSameRows(s1, s1', Put(ix.primary, pk, v), Put(ix.index, ix.extract(v), pk));
      case DeleteIndexed(pk) =>
        var prior := Lookup(s, ix.primary, pk);
        assert Lookup(s', ix.primary, pk) == prior;
        if prior.Some? {
          ApplyTwiceSameRows(s, s', Delete(ix.primary, pk), Delete(ix.index, ix.extract(prior.value)));
        }
      case ClearIndexed => ApplyTwiceSameRows(s, s', Clear(ix.primary), Clear(ix.index));
    }
  }

  lemma ApplyTwiceSameRows(s: State, s': State, op: Op, op': Op)
    requires SameRows(s, s')
    ensures SameRows(Apply(Apply(s, op), op'), Apply(Apply(s', op), op'))
  {
    ApplySameRows(s, s', op);
    ApplySameRows(Apply(s, op), Apply(s', op), op');
  }

  lemma IndexExactSameRows(s: State, s': State, ix: Index)
    requires SameRows(s, s') && IndexExact(s, ix)
    ensures IndexExact(s', ix)
  {
    forall ik, pk ensures Lookup(s', ix.index, ik) == Some(pk) <==> RowHasKey(s', ix, pk, ik) {
      assert Lookup(s, ix.index, ik) == Lookup(s', ix.index, ik);
      assert Lookup(s, ix.primary, pk) == Lookup(s', ix.primary, pk);
      assert Lookup(s, ix.index, ik) == Some(pk) <==> RowHasKey(s, ix, pk, ik);
    }
  }

  lemma UniqueSameRows(s: State, s': State, ix: Index, w: Write)
    requires SameRows(s, s') && Unique(s, ix, w)
    ensures Unique(s', ix, w)
  {
    if w.PutIndexed? {
      forall other | other != w.pk ensures !RowHasKey(s', ix, other, ix.extract(w.value)) {
        assert Lookup(s, ix.primary, other) == Lookup(s', ix.primary, other);
        assert !RowHasKey(s, ix, other, ix.extract(w.value));
      }
    }
  }

  lemma {:induction false} WritesSameRows(s: State, s': State, ix: Index, ws: seq<Write>)
    requires SameRows(s, s') && AllUnique(s, ix, ws)
    ensures AllUnique(s', ix, ws) && SameRows(EffectAll(s, ix, ws), EffectAll(s', ix, ws))
    decreases |ws|
  {
    if ws != [] {
      UniqueSameRows(s, s', ix, ws[0]);
      EffectSameRows(s, s', ix, ws[0]);
      WritesSameRows(Effect(s, ix, ws[0]), Effect(s', ix, ws[0]), ix, ws[1..]);
    }
  }

  /** A batch made of indexed writes over one map is made of indexed writes over every map with the same rows. */
  lemma FromWritesSameRows(s: State, s': State, ix: Index, batch: seq<Op>)
    requires SameRows(s, s') && FromWrites(s, ix, batch)
    ensures FromWrites(s', ix, batch)
  {
    var ws :| AllUnique(s, ix, ws) && SameRows(Replay(s, batch), EffectAll(s, ix, ws));
    WritesSameRows(s, s', ix, ws);
    ReplaySameRows(s, s', batch);
    SameRowsTrans(Replay(s', batch), Replay(s, batch), EffectAll(s, ix, ws));
    SameRowsTrans(Replay(s', batch), EffectAll(s, ix, ws), EffectAll(s', ix, ws));
  }

  // ----- Reading through the index

  function GetVia(s: State, ix: Index, ik: Bytes): Option<Bytes> {
    var pk := Lookup(s, ix.index, ik);
    if pk.None? then None else Lookup(s, ix.primary, pk.value)
  }

  /** Reading through an exact index finds a value exactly when some primary row holds it under that index key. */
  lemma GetViaFindsExactly(s: State, ix: Index, ik: Bytes, v: Bytes)
    requires IndexExact(s, ix)
    ensures GetVia(s, ix, ik) == Some(v)
            <==> exists pk :: Lookup(s, ix.primary, pk) == Some(v) && ix.extract(v) == ik
  {
    var found := Lookup(s, ix.index, ik);
    if found.Some? {
      assert RowHasKey(s, ix, found.value, ik);
    }
    forall pk | Lookup(s, ix.primary, pk) == Some(v) && ix.extract(v) == ik ensures GetVia(s, ix, ik) == Some(v) {
      assert RowHasKey(s, ix, pk, ik);
    }
  }

  // ----- The writes themselves, over a staged transaction

  method RunPut(tx: TxMut, ix: Index, pk: Bytes, v: Bytes)
    requires WellFormed(ix)
    modifies tx
    ensures tx.View() == Effect(old(tx.View()), ix, PutIndexed(pk, v))
  {
    var newIdx := ix.extract(v);
    var oldValue := tx.Get(ix.primary, pk);
    if oldValue.Some? {
      var oldIdx := ix.extract(oldValue.value);
      if oldIdx != newIdx {
        var _ := tx.DeleteRow(ix.index, oldIdx);
      }
    }
    tx.PutRow(ix.primary, pk, v);
    tx.PutRow(ix.index, newIdx, pk);
  }

  method RunDelete(tx: TxMut, ix: Index, pk: Bytes) returns (existed: bool)
    requires WellFormed(ix)
    modifies tx
    ensures tx.View() == Effect(old(tx.View()), ix, DeleteIndexed(pk))
    ensures existed <==> Lookup(old(tx.View()), ix.primary, pk).Some?
  {
    var value := tx.Get(ix.primary, pk);
    if value.None? {
      return false;
    }
    var idx := ix.extract(value.value);
    var _ := tx.DeleteRow(ix.primary, pk);
    var _ := tx.DeleteRow(ix.index, idx);
    return true;
  }

  method RunClear(tx: TxMut, ix: Index)
    requires WellFormed(ix)
    modifies tx
    ensures tx.View() == Effect(old(tx.View()), ix, ClearIndexed)
  {
    tx.ClearTable(ix.primary);
    tx.ClearTable(ix.index);
  }

  method ReadVia(tx: TxMut, ix: Index, ik: Bytes) returns (value: Option<Bytes>)
    ensures value == GetVia(tx.View(), ix, ik)
  {
    var pk := tx.Get(ix.index, ik);
    if pk.None? {
      return None;
    }
    value := tx.Get(ix.primary, pk.value);
  }

  /** A whole transaction of indexed writes, committed: the committed map goes from exact to exact. */
  method RunTransaction(db: Database, ix: Index, ws: seq<Write>)
    requires WellFormed(ix) && IndexExact(db.state, ix) && AllUnique(db.state, ix, ws)
    modifies db
    ensures db.state == EffectAll(old(db.state), ix, ws)
    ensures IndexExact(db.state, ix)
    ensures db.queue == old(db.queue) ==> db.state == old(db.state)
    ensures db.queue == old(db.queue)
            || exists batch :: db.queue == old(db.queue) + [batch] && FromWrites(old(db.state), ix, batch)
  {
    var tx := new TxMut(db);
    ghost var before := db.state;
    WritesKeepIndexExact(before, ix, ws);
    for i := 0 to |ws|
      invariant tx.db == db && db.state == before && db.queue == old(db.queue)
      invariant EffectAll(tx.View(), ix, ws[i..]) == EffectAll(before, ix, ws)
    {
      assert ws[i..][1..] == ws[i + 1..];
      match ws[i] {
        case PutIndexed(pk, v) => RunPut(tx, ix, pk, v);
        case DeleteIndexed(pk) => var _ := RunDelete(tx, ix, pk);
        case ClearIndexed => RunClear(tx, ix);
      }
    }
    assert Replay(before, tx.ops) == EffectAll(before, ix, ws);
    assert FromWrites(before, ix, tx.ops);
    tx.Commit();
  }
}
