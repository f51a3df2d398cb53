/** Secondary indexes across reloads: exactness survives wherever the reload lands. */
module IndexedMirror {
  import opened Store
  import opened SecondaryIndex
  import Mirror
  import Options

  /** Each transaction of `history` amounts, where it was committed, to indexed writes that respect uniqueness. */
  ghost predicate IndexedHistory(base: State, ix: Index, history: seq<Mirror.Batch>) {
    forall n :: 0 <= n < |history| ==> IndexedAt(base, ix, history, n)
  }

  ghost predicate IndexedAt(base: State, ix: Index, history: seq<Mirror.Batch>, n: nat)
    requires n < |history|
  {
    FromWrites(Mirror.ReplayAll(base, history[..n]), ix, history[n])
  }

  /** Every commit of the run is a transaction of indexed writes over the map as it is then (see `RunTransaction`). */
  ghost predicate IndexedRun(n: Mirror.Node, steps: seq<Mirror.Step>, ix: Index)
    requires Mirror.IsRun(n, steps)
    decreases |steps|
  {
    steps == [] || (IndexedStep(n, steps[0], ix) && IndexedRun(Mirror.Next(n, steps[0]), steps[1..], ix))
  }

  ghost predicate IndexedStep(n: Mirror.Node, step: Mirror.Step, ix: Index) {
    step.Commit? && step.ops != [] ==> FromWrites(n.mem, ix, step.ops)
  }

  lemma HistoryGrows(base: State, ix: Index, history: seq<Mirror.Batch>, batch: Mirror.Batch)
    requires IndexedHistory(base, ix, history) && FromWrites(Mirror.ReplayAll(base, history), ix, batch)
    ensures IndexedHistory(base, ix, history + [batch])
  {
    var longer := history + [batch];
    forall n | 0 <= n < |longer| ensures IndexedAt(base, ix, longer, n) {
      if n < |history| {
        assert IndexedAt(base, ix, history, n);
        assert longer[..n] == history[..n];
      } else {
        assert longer[..n] == history;
      }
    }
  }

  lemma HistoryPrefix(base: State, ix: Index, history: seq<Mirror.Batch>, m: nat)
    requires IndexedHistory(base, ix, history) && m <= |history|
    ensures IndexedHistory(base, ix, history[..m])
  {
    forall n | 0 <= n < m ensures IndexedAt(base, ix, history[..m], n) {
      assert IndexedAt(base, ix, history, n);
      assert history[..m][..n] == history[..n];
    }
  }

  lemma StepKeepsIndexedHistory(n: Mirror.Node, step: Mirror.Step, base: State, ix: Index)
    requires Mirror.Faithful(n, base) && Mirror.Enabled(n, step) && IndexedStep(n, step, ix)
    requires IndexedHistory(base, ix, n.history)
    ensures IndexedHistory(base, ix, Mirror.Next(n, step).history)
  {
    if step.Commit? && step.ops != [] {
      FromWritesSameRows(n.mem, Mirror.ReplayAll(base, n.history), ix, step.ops);
      HistoryGrows(base, ix, n.history, step.ops);
    } else if step.Reload? {
      HistoryPrefix(base, ix, n.history, |n.landed|);
      assert n.history[..|n.landed|] == n.landed;
    }
  }

  lemma {:induction false} RunKeepsIndexedHistory(n: Mirror.Node, steps: seq<Mirror.Step>, base: State, ix: Index)
    requires Mirror.IsRun(n, steps) && Mirror.Faithful(n, base) && IndexedHistory(base, ix, n.history)
    requires forall i :: 0 <= i < |steps| ==> Mirror.Cooperative(steps[i], base)
    requires IndexedRun(n, steps, ix)
    ensures IndexedHistory(base, ix, Mirror.Run(n, steps).history)
    decreases |steps|
  {
    if steps != [] {
      Mirror.StepKeepsFaithful(n, steps[0], base);
      StepKeepsIndexedHistory(n, steps[0], base, ix);
      RunKeepsIndexedHistory(Mirror.Next(n, steps[0]), steps[1..], base, ix);
    }
  }

  lemma {:induction false} PrefixIsExact(base: State, ix: Index, history: seq<Mirror.Batch>, n: nat)
    requires WellFormed(ix) && IndexExact(base, ix) && IndexedHistory(base, ix, history) && n <= |history|
    ensures IndexExact(Mirror.ReplayAll(base, history[..n]), ix)
    decreases n
  {
    if n > 0 {
      var s := Mirror.ReplayAll(base, history[..n - 1]);
      PrefixIsExact(base, ix, history, n - 1);
      assert IndexedAt(base, ix, history, n - 1);
      var ws :| AllUnique(s, ix, ws) && SameRows(Replay(s, history[n - 1]), EffectAll(s, ix, ws));
      WritesKeepIndexExact(s, ix, ws);
      IndexExactSameRows(EffectAll(s, ix, ws), Replay(s, history[n - 1]), ix);
      assert history[..n] == history[..n - 1] + [history[n - 1]];
      Mirror.ReplayAllOne(base, history[..n - 1], history[n - 1]);
    }
  }

  /**
   When every committed transaction consists of unique indexed writes over the map
   as it then was, sends follow commit order and no batch fails, both the map in
   memory and the database reopened by a reload at any moment have an exact index.
   */
  lemma ReloadKeepsIndexExact(base: State, steps: seq<Mirror.Step>, ix: Index)
    requires WellFormed(ix) && IndexExact(base, ix)
    requires Mirror.IsRun(Mirror.Opened(base), steps) && IndexedRun(Mirror.Opened(base), steps, ix)
    requires forall i :: 0 <= i < |steps| ==> Mirror.Cooperative(steps[i], base)
    ensures var n := Mirror.Run(Mirror.Opened(base), steps);
            IndexExact(n.mem, ix) && IndexExact(Mirror.Next(n, Mirror.Reload).mem, ix)
  {
    var n := Mirror.Run(Mirror.Opened(base), steps);
    Mirror.ReloadIsAPrefix(base, steps);
    RunKeepsIndexedHistory(Mirror.Opened(base), steps, base, ix);
    PrefixIsExact(base, ix, n.history, |n.landed|);
    PrefixIsExact(base, ix, n.history, |n.history|);
    assert n.history[..|n.history|] == n.history;
    IndexExactSameRows(Mirror.ReplayAll(base, n.history), n.mem, ix);
  }

  /** A put under an index key in use breaks the index, and does not once the row that uses it is deleted. */
  lemma PutWithoutTheDelete(s: State, ix: Index, pk: Bytes, other: Bytes, v: Bytes)
    requires WellFormed(ix) && IndexExact(s, ix) && pk != other
    requires Lookup(s, ix.primary, pk) == Options.Some(v)
    ensures IndexExact(Effect(Effect(s, ix, DeleteIndexed(pk)), ix, PutIndexed(other, v)), ix)
    ensures !IndexExact(Effect(s, ix, PutIndexed(other, v)), ix)
  {
    var deleted := Effect(s, ix, DeleteIndexed(pk));
    DeleteKeepsIndexExact(s, ix, pk);
    forall row | row != other ensures !RowHasKey(deleted, ix, row, ix.extract(v)) {
      assert RowHasKey(s, ix, pk, ix.extract(v));
      assert RowHasKey(s, ix, row, ix.extract(v)) ==> row == pk by {
        assert Lookup(s, ix.index, ix.extract(v)) == Options.Some(pk);
      }
      assert Lookup(deleted, ix.primary, row) == if row == pk then Options.None else Lookup(s, ix.primary, row);
    }
    PutKeepsIndexExactIff(deleted, ix, other, v);
    assert RowHasKey(s, ix, pk, ix.extract(v));
    PutKeepsIndexExactIff(s, ix, other, v);
  }

  lemma ReplayTwo(s: State, a: Op, b: Op)
    ensures Replay(s, [a, b]) == Apply(Apply(s, a), b)
  {
    assert [] + [a] == [a] && [a] + [b] == [a, b];
    ReplayOne(s, [], a);
    ReplayOne(s, [a], b);
  }

  function DeleteBatch(ix: Index, pk: Bytes, v: Bytes): Mirror.Batch {
    [Delete(ix.primary, pk), Delete(ix.index, ix.extract(v))]
  }

  function PutBatch(ix: Index, pk: Bytes, v: Bytes): Mirror.Batch {
    [Put(ix.primary, pk, v), Put(ix.index, ix.extract(v), pk)]
  }

  /** The two batches are what the indexed delete and the indexed put of a new row stage. */
  lemma BatchEffects(s: State, ix: Index, pk: Bytes, other: Bytes, v: Bytes)
    requires WellFormed(ix)
    ensures Lookup(s, ix.primary, pk) == Options.Some(v) ==>
              Replay(s, DeleteBatch(ix, pk, v)) == Effect(s, ix, DeleteIndexed(pk))
    ensures Lookup(s, ix.primary, other).None? ==>
              Replay(s, PutBatch(ix, other, v)) == Effect(s, ix, PutIndexed(other, v))
  {
    ReplayTwo(s, Delete(ix.primary, pk), Delete(ix.index, ix.extract(v)));
    ReplayTwo(s, Put(ix.primary, other, v), Put(ix.index, ix.extract(v), other));
  }

  /** A row is deleted and a new one takes over its index key; the batch of the delete fails on its way to IndexedDB. */
  function LostDelete(ix: Index, pk: Bytes, other: Bytes, v: Bytes): seq<Mirror.Step> {
    [Mirror.Commit(DeleteBatch(ix, pk, v)), Mirror.Send(0), Mirror.Drain(false),
     Mirror.Commit(PutBatch(ix, other, v)), Mirror.Send(0), Mirror.Drain(true)]
  }

  /** With nothing under way, a commit, its send and the attempt to persist it. */
  lemma CommitAndDrain(n: Mirror.Node, ops: Mirror.Batch, io: bool)
    requires n.queue == [] && n.unsent == [] && ops != [] && (io ==> Mirror.Applicable(n.idb, ops))
    ensures var n1 := Mirror.Next(n, Mirror.Commit(ops));
            && Mirror.Enabled(n1, Mirror.Send(0))
            && var n2 := Mirror.Next(n1, Mirror.Send(0));
               && Mirror.Enabled(n2, Mirror.Drain(io))
               && var n' := n.(mem := Replay(n.mem, ops), history := n.history + [ops]);
                  Mirror.Next(n2, Mirror.Drain(io))
                  == if io then n'.(idb := Replay(n.idb, ops), landed := n.landed + [ops]) else n'
  {
    var n2 := Mirror.Next(Mirror.Next(n, Mirror.Commit(ops)), Mirror.Send(0));
    assert n2.queue == [ops] && n2.unsent == [] && n2.queue[1..] == [];
  }

  lemma LostDeleteRuns(s: State, ix: Index, pk: Bytes, other: Bytes, v: Bytes)
    requires ix.primary in s && ix.index in s
    ensures Mirror.IsRun(Mirror.Opened(s), LostDelete(ix, pk, other, v))
    ensures var n := Mirror.Run(Mirror.Opened(s), LostDelete(ix, pk, other, v));
            && n.mem == Replay(Replay(s, DeleteBatch(ix, pk, v)), PutBatch(ix, other, v))
            && n.idb == Replay(s, PutBatch(ix, other, v))
  {
    var del, put := DeleteBatch(ix, pk, v), PutBatch(ix, other, v);
    var n := Mirror.Opened(s);
    CommitAndDrain(n, del, false);
    CommitAndDrain(n.(mem := Replay(s, del), history := [] + [del]), put, true);
    Mirror.SixSteps(n, Mirror.Commit(del), Mirror.Send(0), Mirror.Drain(false),
                    Mirror.Commit(put), Mirror.Send(0), Mirror.Drain(true));
  }

  /**
   A failed batch can break the index: in this run both commits are unique indexed
   writes and memory stays exact, yet the reload finds two rows under one key.
   */
  lemma LostDeleteBreaksTheIndex(s: State, ix: Index, pk: Bytes, other: Bytes, v: Bytes)
    requires WellFormed(ix) && IndexExact(s, ix) && pk != other && ix.primary in s && ix.index in s
    requires Lookup(s, ix.primary, pk) == Options.Some(v) && Lookup(s, ix.primary, other).None?
    ensures var steps := LostDelete(ix, pk, other, v);
            && Mirror.IsRun(Mirror.Opened(s), steps)
            && var n := Mirror.Run(Mirror.Opened(s), steps);
               && IndexExact(n.mem, ix)
               && !IndexExact(Mirror.Next(n, Mirror.Reload).mem, ix)
    ensures Unique(s, ix, DeleteIndexed(pk))
            && Unique(Effect(s, ix, DeleteIndexed(pk)), ix, PutIndexed(other, v))
  {
    var deleted := Effect(s, ix, DeleteIndexed(pk));
    LostDeleteRuns(s, ix, pk, other, v);
    BatchEffects(s, ix, pk, other, v);
    assert Lookup(deleted, ix.primary, other).None?;
    BatchEffects(deleted, ix, pk, other, v);
    PutWithoutTheDelete(s, ix, pk, other, v);
    DeleteKeepsIndexExact(s, ix, pk);
    PutKeepsIndexExactIff(deleted, ix, other, v);
  }
}
