/**
 The write-through store: an in-memory map answers reads and writes, and write
 transactions stage their operations until commit. Keys and values are opaque
 encoded bytes; the codecs are taken to be injective.
 */
module Store {
  import opened Options
  import opened Seqs

  type Bytes(==, !new)
  type TableName(==, !new)

  type Rows = map<Bytes, Bytes>
  type State = map<TableName, Rows>

  datatype Op =
    | Put(table: TableName, key: Bytes, value: Bytes)
    | Delete(table: TableName, key: Bytes)
    | Clear(table: TableName)

  function Table(s: State, t: TableName): Rows {
    if t in s then s[t] else map[]
  }

  function Lookup(s: State, t: TableName, k: Bytes): Option<Bytes> {
    if k in Table(s, t) then Some(Table(s, t)[k]) else None
  }

  function Apply(s: State, op: Op): State {
    match op
    case Put(t, k, v) => s[t := Table(s, t)[k := v]]
    case Delete(t, k) => if t in s then s[t := s[t] - {k}] else s
    case Clear(t) => if t in s then s[t := map[]] else s
  }

  /** The state after a list of operations, in order. */
  function Replay(s: State, ops: seq<Op>): State {
    if ops == [] then s else Apply(Replay(s, ops[..|ops| - 1]), ops[|ops| - 1])
  }

  predicate Touches(op: Op, t: TableName, k: Bytes) {
    op.table == t && (op.Clear? || op.key == k)
  }

  /** What `op` leaves at a key it touches. */
  function Leaves(op: Op): Option<Bytes> {
    if op.Put? then Some(op.value) else None
  }

  lemma ApplyLookup(s: State, op: Op, t: TableName, k: Bytes)
    ensures Lookup(Apply(s, op), t, k) == if Touches(op, t, k) then Leaves(op) else Lookup(s, t, k)
  {
  }

  lemma ReplayOne(s: State, ops: seq<Op>, op: Op)
    ensures Replay(s, ops + [op]) == Apply(Replay(s, ops), op)
  {
    assert (ops + [op])[..|ops|] == ops;
  }

  // ----- Same rows, whatever empty tables exist

  ghost predicate SameRows(s: State, s': State) {
    forall t, k :: Lookup(s, t, k) == Lookup(s', t, k)
  }

  lemma SameRowsTrans(a: State, b: State, c: State)
    requires SameRows(a, b) && SameRows(b, c)
    ensures SameRows(a, c)
  {
    forall t, k ensures Lookup(a, t, k) == Lookup(c, t, k) {
      assert Lookup(a, t, k) == Lookup(b, t, k);
    }
  }

  lemma ApplySameRows(s: State, s': State, op: Op)
    requires SameRows(s, s')
    ensures SameRows(Apply(s, op), Apply(s', op))
  {
    forall t, k ensures Lookup(Apply(s, op), t, k) == Lookup(Apply(s', op), t, k) {
      ApplyLookup(s, op, t, k);
      ApplyLookup(s', op, t, k);
    }
  }

  lemma {:induction false} ReplaySameRows(s: State, s': State, ops: seq<Op>)
    requires SameRows(s, s')
    ensures SameRows(Replay(s, ops), Replay(s', ops))
  {
    if ops != [] {
      var front := ops[..|ops| - 1];
      ReplaySameRows(s, s', front);
      ApplySameRows(Replay(s, front), Replay(s', front), ops[|ops| - 1]);
    }
  }

  // ----- Reading through staged operations

  /** A staged result laid over a committed one: `Some` wins, `None` shows what is below. */
  function Overlay(staged: Option<Option<Bytes>>, committed: Option<Bytes>): Option<Bytes> {
    if staged.Some? then staged.value else committed
  }

  ghost predicate SummarisesOver(staged: Option<Option<Bytes>>, ops: seq<Op>, t: TableName, k: Bytes, s: State) {
    Lookup(Replay(s, ops), t, k) == Overlay(staged, Lookup(s, t, k))
  }

  predicate AnyTouches(ops: seq<Op>, t: TableName, k: Bytes) {
    ops != [] && (Touches(ops[|ops| - 1], t, k) || AnyTouches(ops[..|ops| - 1], t, k))
  }

  /** The staged result stands for the whole list of operations, over every committed map. */
  ghost predicate Summarises(staged: Option<Option<Bytes>>, ops: seq<Op>, t: TableName, k: Bytes) {
    && (forall s: State :: SummarisesOver(staged, ops, t, k, s))
    && (staged.Some? <==> AnyTouches(ops, t, k))
  }

  lemma SummariseNext(staged: Option<Option<Bytes>>, ops: seq<Op>, op: Op, t: TableName, k: Bytes)
    requires Summarises(staged, ops, t, k)
    ensures Summarises(if Touches(op, t, k) then Some(Leaves(op)) else staged, ops + [op], t, k)
  {
    var staged' := if Touches(op, t, k) then Some(Leaves(op)) else staged;
    var all := ops + [op];
    forall s: State ensures SummarisesOver(staged', all, t, k, s) {
      assert SummarisesOver(staged, ops, t, k, s);
      ReplayOne(s, ops, op);
      ApplyLookup(Replay(s, ops), op, t, k);
    }
    assert all[..|all| - 1] == ops;
  }

  /** The committed map and the queue of committed batches on their way to the mirror. */
  class Database {
    var state: State
    var queue: seq<seq<Op>>

    constructor (state: State)
      ensures this.state == state && queue == []
    {
      this.state := state;
      this.queue := [];
    }
  }

  /** A read-write transaction. `View()` is the committed map with the staged operations replayed on it. */
  class TxMut {
    const db: Database
    var ops: seq<Op>

    constructor (db: Database)
      ensures this.db == db && ops == []
    {
      this.db := db;
      this.ops := [];
    }

    ghost function View(): State
      reads this, db
    {
      Replay(db.state, ops)
    }

    /** The last word of the staged operations on a key. */
    method Staged(t: TableName, k: Bytes) returns (latest: Option<Option<Bytes>>)
      ensures Summarises(latest, ops, t, k)
    {
      latest := None;
      for i := 0 to |ops|
        invariant Summarises(latest, ops[..i], t, k)
      {
        SummariseNext(latest, ops[..i], ops[i], t, k);
        TakeNext(ops, i);
        match ops[i] {
          case Put(t', k', v) =>
            if t' == t && k' == k { latest := Some(Some(v)); }
          case Delete(t', k') =>
            if t' == t && k' == k { latest := Some(None); }
          case Clear(t') =>
            if t' == t { latest := Some(None); }
        }
      }
      assert ops[..|ops|] == ops;
    }

    /** Read-your-writes: a read sees exactly what commit would leave. */
    method Get(t: TableName, k: Bytes) returns (value: Option<Bytes>)
      ensures value == Lookup(View(), t, k)
    {
      var staged := Staged(t, k);
      match staged {
        case Some(Some(v)) => value := Some(v);
        case Some(None) => value := None;
        case None => value := if t in db.state && k in db.state[t] then Some(db.state[t][k]) else None;
      }
      assert SummarisesOver(staged, ops, t, k, db.state);
    }

    method PutRow(t: TableName, k: Bytes, v: Bytes)
      modifies this
      ensures ops == old(ops) + [Put(t, k, v)]
      ensures View() == Apply(old(View()), Put(t, k, v))
    {
      ReplayOne(db.state, ops, Put(t, k, v));
      ops := ops + [Put(t, k, v)];
    }

    /** Reports whether the key was present in the replayed view. */
    method DeleteRow(t: TableName, k: Bytes) returns (existed: bool)
      modifies this
      ensures ops == old(ops) + [Delete(t, k)]
      ensures View() == Apply(old(View()), Delete(t, k))
      ensures existed <==> Lookup(old(View()), t, k).Some?
    {
      var staged := Staged(t, k);
      existed := match staged
        case Some(s) => s.Some?
        case None => t in db.state && k in db.state[t];
      assert SummarisesOver(staged, ops, t, k, db.state);
      ReplayOne(db.state, ops, Delete(t, k));
      ops := ops + [Delete(t, k)];
    }

    method ClearTable(t: TableName)
      modifies this
      ensures ops == old(ops) + [Clear(t)]
      ensures View() == Apply(old(View()), Clear(t))
    {
      ReplayOne(db.state, ops, Clear(t));
      ops := ops + [Clear(t)];
    }

    /** Creates a missing table in the committed map at once; no row changes, staged or committed. */
    method EnsureTable(t: TableName)
      modifies db
      ensures db.queue == old(db.queue)
      ensures db.state == old(db.state)[t := Table(old(db.state), t)]
      ensures forall t', k :: Lookup(db.state, t', k) == Lookup(old(db.state), t', k)
    {
      if t !in db.state {
        db.state := db.state[t := map[]];
      } else {
        assert db.state == db.state[t := db.state[t]];
      }
    }

    /** Makes the view the committed state and queues the batch; an empty transaction queues nothing. */
    method Commit()
      modifies db
      ensures db.state == old(View())
      ensures db.queue == if ops == [] then old(db.queue) else old(db.queue) + [ops]
    {
      if ops == [] {
        return;
      }
      ghost var before := db.state;
      for i := 0 to |ops|
        invariant db.state == Replay(before, ops[..i])
        invariant db.queue == old(db.queue)
      {
        ReplayOne(before, ops[..i], ops[i]);
        TakeNext(ops, i);
        match ops[i] {
          case Put(t, k, v) =>
            db.state := db.state[t := Table(db.state, t)[k := v]];
          case Delete(t, k) =>
            if t in db.state { db.state := db.state[t := db.state[t] - {k}]; }
          case Clear(t) =>
            if t in db.state { db.state := db.state[t := map[]]; }
        }
      }
      assert ops[..|ops|] == ops;
      db.queue := db.queue + [ops];
    }
  }
}
