/**
 The asynchronous mirror. A commit applies its batch to the in-memory map and then
 sends it to a queue; one task takes batches off the queue and applies each to
 IndexedDB in a single atomic transaction. A reload abandons whatever has not
 landed and rebuilds the in-memory map from IndexedDB.
 */
module Mirror {
  import opened Options
  import opened Seqs
  import opened Store

  type Batch = seq<Op>

  /**
   `unsent` holds the batches applied in memory and not sent yet, one per commit
   under way. `idb` holds the object stores and their rows. `history` lists the
   committed transactions the in-memory map reflects, `landed` those applied to
   `idb`.
   */
  datatype Node = Node(mem: State, unsent: seq<Batch>, queue: seq<Batch>, idb: State,
                       history: seq<Batch>, landed: seq<Batch>)

  datatype Step =
    | Commit(ops: Batch)                   // the part of a commit under the lock
    | Send(i: nat)                         // the rest of it, by any commit under way
    | EnsureTable(table: TableName)
    | Drain(io: bool)                      // `io` false: IndexedDB refuses the transaction
    | Reload

  /** IndexedDB can only open a transaction over object stores it has. */
  predicate Applicable(idb: State, batch: Batch) {
    forall i :: 0 <= i < |batch| ==> batch[i].table in idb
  }

  predicate Enabled(n: Node, step: Step) {
    match step
    case Send(i) => i < |n.unsent|
    case Drain(_) => n.queue != []
    case _ => true
  }

  function Next(n: Node, step: Step): Node
    requires Enabled(n, step)
  {
    match step
    case Commit(ops) =>
      if ops == [] then n
      else n.(mem := Replay(n.mem, ops), unsent := n.unsent + [ops], history := n.history + [ops])
    case Send(i) => n.(unsent := n.unsent[..i] + n.unsent[i + 1..], queue := n.queue + [n.unsent[i]])
    case EnsureTable(t) => n.(mem := n.mem[t := Table(n.mem, t)])
    case Drain(io) =>
      var batch, rest := n.queue[0], n.queue[1..];
      if io && Applicable(n.idb, batch)
      then n.(queue := rest, idb := Replay(n.idb, batch), landed := n.landed + [batch])
      else n.(queue := rest)
    case Reload => Node(n.idb, [], [], n.idb, n.landed, n.landed)
  }

  /** `ensure_table` makes the table known to the in-memory map at once; no row changes, nothing is queued. */
  lemma EnsureTableAddsNoRow(n: Node, t: TableName)
    ensures var n' := Next(n, EnsureTable(t));
            t in n'.mem && SameRows(n'.mem, n.mem) && n'.(mem := n.mem) == n
  {
  }

  /** Sends happen in commit order. */
  predicate InOrder(step: Step) {
    step.Send? ==> step.i == 0
  }

  function ReplayAll(s: State, batches: seq<Batch>): State {
    if batches == [] then s
    else Replay(ReplayAll(s, batches[..|batches| - 1]), batches[|batches| - 1])
  }

  lemma ReplayAllOne(s: State, batches: seq<Batch>, batch: Batch)
    ensures ReplayAll(s, batches + [batch]) == Replay(ReplayAll(s, batches), batch)
  {
    assert (batches + [batch])[..|batches|] == batches;
  }

  lemma {:induction false} ReplayAllConcat(s: State, a: seq<Batch>, b: seq<Batch>)
    ensures ReplayAll(s, a + b) == ReplayAll(ReplayAll(s, a), b)
    decreases |b|
  {
    if b == [] {
      assert a + b == a;
    } else {
      var front, last := b[..|b| - 1], b[|b| - 1];
      ReplayAllConcat(s, a, front);
      assert a + b == (a + front) + [last];
      ReplayAllOne(s, a + front, last);
    }
  }

  lemma {:induction false} ReplayKeepsTables(s: State, ops: Batch)
    requires Applicable(s, ops)
    ensures Replay(s, ops).Keys == s.Keys
  {
    if ops != [] {
      ReplayKeepsTables(s, ops[..|ops| - 1]);
      assert ops[|ops| - 1].table in s;
    }
  }

  // ----- Every run: whole transactions only

  /** What has not landed yet, in the order in which it will, if sends happen in commit order. */
  function Underway(n: Node): seq<Batch> {
    n.queue + n.unsent
  }

  /** No transaction has landed, or is under way, more often than it was committed. */
  ghost predicate EachOnce(n: Node) {
    multiset(n.landed + Underway(n)) <= multiset(n.history)
  }

  lemma SendKeepsBatches(n: Node, i: nat)
    requires i < |n.unsent|
    ensures multiset(Underway(Next(n, Send(i)))) == multiset(Underway(n))
  {
    var front, batch, back := n.unsent[..i], n.unsent[i], n.unsent[i + 1..];
    assert n.unsent == front + ([batch] + back);
  }

  lemma StepKeepsEachOnce(n: Node, step: Step)
    requires EachOnce(n) && Enabled(n, step)
    ensures EachOnce(Next(n, step))
  {
    match step {
      case Send(i) => SendKeepsBatches(n, i);
      case Drain(io) => assert n.queue == [n.queue[0]] + n.queue[1..];
      case _ =>
    }
  }

  /** `base` is what IndexedDB held at first. */
  ghost predicate Whole(n: Node, base: State) {
    && n.idb == ReplayAll(base, n.landed)
    && n.idb.Keys == base.Keys
    && SameRows(n.mem, ReplayAll(base, n.history))
    && EachOnce(n)
  }

  lemma StepKeepsWhole(n: Node, step: Step, base: State)
    requires Whole(n, base) && Enabled(n, step)
    ensures Whole(Next(n, step), base)
  {
    StepKeepsEachOnce(n, step);
    match step {
      case Commit(ops) =>
        if ops != [] {
          ReplayAllOne(base, n.history, ops);
          ReplaySameRows(n.mem, ReplayAll(base, n.history), ops);
        }
      case Drain(io) =>
        if io && Applicable(n.idb, n.queue[0]) {
          ReplayAllOne(base, n.landed, n.queue[0]);
          ReplayKeepsTables(n.idb, n.queue[0]);
        }
      case _ =>
    }
  }

  // ----- Sends in commit order: IndexedDB follows the order of the commits

  ghost predicate Ordered(n: Node) {
    Subseq(n.landed + Underway(n), n.history)
  }

  lemma FirstSendKeepsTheLine(n: Node)
    requires n.unsent != []
    ensures Underway(Next(n, Send(0))) == Underway(n)
  {
    assert n.unsent[..0] + n.unsent[1..] == n.unsent[1..];
    assert n.unsent == [n.unsent[0]] + n.unsent[1..];
    Assoc(n.queue, [n.unsent[0]], n.unsent[1..]);
  }

  lemma CommitJoinsTheLine(n: Node, ops: Batch)
    requires ops != []
    ensures n.landed + Underway(Next(n, Commit(ops))) == (n.landed + Underway(n)) + [ops]
  {
    Assoc(n.queue, n.unsent, [ops]);
    Assoc(n.landed, Underway(n), [ops]);
  }

  lemma DrainTakesTheHead(n: Node, io: bool)
    requires n.queue != []
    ensures Underway(n) == [n.queue[0]] + Underway(Next(n, Drain(io)))
  {
    assert n.queue == [n.queue[0]] + n.queue[1..];
    Assoc([n.queue[0]], n.queue[1..], n.unsent);
  }

  lemma StepKeepsOrdered(n: Node, step: Step)
    requires Ordered(n) && Enabled(n, step) && InOrder(step)
    ensures Ordered(Next(n, step))
  {
    var n' := Next(n, step);
    match step {
      case Commit(ops) =>
        if ops != [] {
          CommitJoinsTheLine(n, ops);
          SubseqRefl([ops]);
          SubseqAppend(n.landed + Underway(n), n.history, [ops], [ops]);
        }
      case Send(i) => FirstSendKeepsTheLine(n);
      case EnsureTable(t) =>
      case Drain(io) =>
        var batch, rest := n.queue[0], Underway(n');
        DrainTakesTheHead(n, io);
        if io && Applicable(n.idb, batch) {
          Assoc(n.landed, [batch], rest);
        } else {
          SubseqRefl(n.landed);
          SubseqRefl(rest);
          SubseqSkip([batch], rest, rest);
          SubseqAppend(n.landed, n.landed, rest, Underway(n));
          SubseqTrans(n.landed + rest, n.landed + Underway(n), n.history);
        }
      case Reload =>
        SubseqRefl(n.landed);
        assert n.landed + Underway(n') == n.landed;
    }
  }

  // ----- No failed batch: what is under way is exactly what IndexedDB lacks

  /** Nothing has been dropped, and everything under way can be applied. */
  ghost predicate NothingDropped(n: Node, base: State) {
    && n.idb.Keys == base.Keys
    && n.history == n.landed + Underway(n)
    && forall i :: 0 <= i < |Underway(n)| ==> Applicable(base, Underway(n)[i])
  }

  ghost predicate Faithful(n: Node, base: State) {
    Whole(n, base) && NothingDropped(n, base)
  }

  /**
   A step under which no batch fails or overtakes: sends in order, an IndexedDB
   that takes every batch it has the stores for.
   */
  ghost predicate Cooperative(step: Step, base: State) {
    match step
    case Commit(ops) => Applicable(base, ops)
    case Send(i) => i == 0
    case Drain(io) => io
    case _ => true
  }

  lemma DrainDropsNothing(n: Node, base: State)
    requires NothingDropped(n, base) && n.queue != []
    ensures NothingDropped(Next(n, Drain(true)), base)
  {
    var batch, rest := n.queue[0], Underway(Next(n, Drain(true)));
    DrainTakesTheHead(n, true);
    assert Applicable(base, Underway(n)[0]);
    ReplayKeepsTables(n.idb, batch);
    Assoc(n.landed, [batch], rest);
    forall i | 0 <= i < |rest| ensures Applicable(base, rest[i]) {
      assert Applicable(base, Underway(n)[i + 1]);
    }
  }

  lemma CommitDropsNothing(n: Node, ops: Batch, base: State)
    requires NothingDropped(n, base) && Applicable(base, ops)
    ensures NothingDropped(Next(n, Commit(ops)), base)
  {
    if ops != [] {
      CommitJoinsTheLine(n, ops);
      Assoc(n.queue, n.unsent, [ops]);
    }
  }

  lemma StepKeepsFaithful(n: Node, step: Step, base: State)
    requires Faithful(n, base) && Enabled(n, step) && Cooperative(step, base)
    ensures Faithful(Next(n, step), base)
  {
    StepKeepsWhole(n, step, base);
    match step {
      case Commit(ops) => CommitDropsNothing(n, ops, base);
      case Send(i) => FirstSendKeepsTheLine(n);
      case EnsureTable(t) =>
      case Drain(io) => DrainDropsNothing(n, base);
      case Reload => assert n.landed + [] == n.landed;
    }
  }

  /** The mirror invariant: what is under way, applied in order to IndexedDB, gives the in-memory map. */
  lemma QueueIsWhatIsMissing(n: Node, base: State)
    requires Faithful(n, base)
    ensures SameRows(ReplayAll(n.idb, Underway(n)), n.mem)
  {
    ReplayAllConcat(base, n.landed, Underway(n));
  }

  // ----- Runs

  ghost predicate IsRun(n: Node, steps: seq<Step>)
    decreases |steps|
  {
    steps == [] || (Enabled(n, steps[0]) && IsRun(Next(n, steps[0]), steps[1..]))
  }

  ghost function Run(n: Node, steps: seq<Step>): Node
    requires IsRun(n, steps)
    decreases |steps|
  {
    if steps == [] then n else Run(Next(n, steps[0]), steps[1..])
  }

  function Opened(base: State): Node {
    Node(base, [], [], base, [], [])
  }

  lemma {:induction false} RunKeepsWhole(n: Node, steps: seq<Step>, base: State)
    requires IsRun(n, steps) && Whole(n, base)
    ensures Whole(Run(n, steps), base)
    decreases |steps|
  {
    if steps != [] {
      StepKeepsWhole(n, steps[0], base);
      RunKeepsWhole(Next(n, steps[0]), steps[1..], base);
    }
  }

  lemma {:induction false} RunKeepsOrdered(n: Node, steps: seq<Step>)
    requires IsRun(n, steps) && Ordered(n) && forall i :: 0 <= i < |steps| ==> InOrder(steps[i])
    ensures Ordered(Run(n, steps))
    decreases |steps|
  {
    if steps != [] {
      StepKeepsOrdered(n, steps[0]);
      RunKeepsOrdered(Next(n, steps[0]), steps[1..]);
    }
  }

  lemma {:induction false} RunKeepsFaithful(n: Node, steps: seq<Step>, base: State)
    requires IsRun(n, steps) && Faithful(n, base)
    requires forall i :: 0 <= i < |steps| ==> Cooperative(steps[i], base)
    ensures Faithful(Run(n, steps), base)
    decreases |steps|
  {
    if steps != [] {
      StepKeepsFaithful(n, steps[0], base);
      RunKeepsFaithful(Next(n, steps[0]), steps[1..], base);
    }
  }

  /**
   In every run, failures and overtaking sends included, a reload reopens at the
   state left by some of the committed transactions, each whole and each once:
   never a torn one. With sends in commit order they are also replayed in that
   order.
   */
  lemma ReloadIsNeverTorn(base: State, steps: seq<Step>)
    requires IsRun(Opened(base), steps)
    ensures var n := Run(Opened(base), steps);
            && Next(n, Reload).mem == ReplayAll(base, n.landed)
            && multiset(n.landed) <= multiset(n.history)
            && ((forall i :: 0 <= i < |steps| ==> InOrder(steps[i])) ==> Subseq(n.landed, n.history))
  {
    RunKeepsWhole(Opened(base), steps, base);
    var n := Run(Opened(base), steps);
    if forall i :: 0 <= i < |steps| ==> InOrder(steps[i]) {
      RunKeepsOrdered(Opened(base), steps);
      SubseqRefl(n.landed);
      SubseqAppend(n.landed, n.landed, [], Underway(n));
      assert n.landed + [] == n.landed;
      SubseqTrans(n.landed, n.landed + Underway(n), n.history);
    }
  }

  /**
   With sends in commit order and no failed batch, what is under way is always
   exactly what IndexedDB lacks, and a reload at any moment reopens at a prefix of
   the committed transactions.
   */
  lemma ReloadIsAPrefix(base: State, steps: seq<Step>)
    requires IsRun(Opened(base), steps)
    requires forall i :: 0 <= i < |steps| ==> Cooperative(steps[i], base)
    ensures var n := Run(Opened(base), steps);
            && SameRows(ReplayAll(n.idb, Underway(n)), n.mem)
            && |n.landed| <= |n.history|
            && Next(n, Reload).mem == ReplayAll(base, n.history[..|n.landed|])
            && SameRows(n.mem, ReplayAll(base, n.history))
  {
    RunKeepsFaithful(Opened(base), steps, base);
    var n := Run(Opened(base), steps);
    QueueIsWhatIsMissing(n, base);
    assert n.history[..|n.landed|] == n.landed;
  }

  /** A batch that also writes a table without an object store is lost as a whole when it reaches IndexedDB. */
  lemma ForeignTableLosesTheBatch(t: TableName, foreign: TableName, k: Bytes, v: Bytes)
    requires t != foreign
    ensures var base := map[t := map[]];
            var batch := [Put(t, k, v), Put(foreign, k, v)];
            var n := Next(Next(Next(Opened(base), Commit(batch)), Send(0)), Drain(true));
            && Lookup(n.mem, t, k) == Some(v)
            && n.queue == []
            && Lookup(Next(n, Reload).mem, t, k) == None
  {
    var base: State := map[t := map[]];
    var batch := [Put(t, k, v), Put(foreign, k, v)];
    assert batch[1].table !in base;
    assert batch[..1] == [batch[0]] && [batch[0]][..0] == [];
    assert Replay(base, batch) == Apply(Apply(base, batch[0]), batch[1]) by {
      assert Replay(base, [batch[0]]) == Apply(Replay(base, []), batch[0]);
    }
    ApplyLookup(Apply(base, batch[0]), batch[1], t, k);
    ApplyLookup(base, batch[0], t, k);
    var n := Next(Next(Opened(base), Commit(batch)), Send(0));
    assert n.queue == [batch] && n.queue[1..] == [];
  }

  /**
   An overtaking send makes the mirror diverge: two commits write one key, the
   second is sent first, and both batches land. IndexedDB is left with the older
   value for good, and a reload brings it back.
   */
  lemma OvertakingSendDiverges(base: State, t: TableName, k: Bytes, older: Bytes, newer: Bytes)
    requires t in base
    ensures var first, second := [Put(t, k, older)], [Put(t, k, newer)];
            var steps := [Commit(first), Commit(second), Send(1), Send(0), Drain(true), Drain(true)];
            && IsRun(Opened(base), steps)
            && var n := Run(Opened(base), steps);
               && Underway(n) == []
               && Lookup(n.mem, t, k) == Some(newer)
               && Lookup(Next(n, Reload).mem, t, k) == Some(older)
  {
    var first, second := [Put(t, k, older)], [Put(t, k, newer)];
    var n0 := Opened(base);
    var n1 := Next(n0, Commit(first));
    var n2 := Next(n1, Commit(second));
    var n3 := Next(n2, Send(1));
    var n4 := Next(n3, Send(0));
    assert n2.unsent == [first, second] && n3.unsent == [first] && n3.queue == [second];
    assert n4.unsent == [] && n4.queue == [second, first];
    OnePut(base, t, k, newer);
    var n5 := Next(n4, Drain(true));
    assert n5.queue == [first] && n5.idb == Replay(base, second);
    OnePut(n5.idb, t, k, older);
    var n6 := Next(n5, Drain(true));
    OnePut(n1.mem, t, k, newer);
    assert n6.queue == [] && n6.idb == Replay(n5.idb, first) && n6.mem == Replay(n1.mem, second);
    SixSteps(n0, Commit(first), Commit(second), Send(1), Send(0), Drain(true), Drain(true));
  }

  lemma OnePut(s: State, t: TableName, k: Bytes, v: Bytes)
    ensures Lookup(Replay(s, [Put(t, k, v)]), t, k) == Some(v)
    ensures t in s ==> t in Replay(s, [Put(t, k, v)])
  {
    assert [] + [Put(t, k, v)] == [Put(t, k, v)];
    ReplayOne(s, [], Put(t, k, v));
    ApplyLookup(s, Put(t, k, v), t, k);
  }

  lemma FirstStep(n: Node, step: Step, rest: seq<Step>)
    requires Enabled(n, step) && IsRun(Next(n, step), rest)
    ensures IsRun(n, [step] + rest) && Run(n, [step] + rest) == Run(Next(n, step), rest)
  {
    assert ([step] + rest)[1..] == rest;
  }

  lemma SixSteps(n: Node, a: Step, b: Step, c: Step, d: Step, e: Step, f: Step)
    requires Enabled(n, a)
    requires var n1 := Next(n, a); Enabled(n1, b)
    requires var n2 := Next(Next(n, a), b); Enabled(n2, c)
    requires var n3 := Next(Next(Next(n, a), b), c); Enabled(n3, d)
    requires var n4 := Next(Next(Next(Next(n, a), b), c), d); Enabled(n4, e)
    requires var n5 := Next(Next(Next(Next(Next(n, a), b), c), d), e); Enabled(n5, f)
    ensures IsRun(n, [a, b, c, d, e, f])
    ensures Run(n, [a, b, c, d, e, f]) == Next(Next(Next(Next(Next(Next(n, a), b), c), d), e), f)
  {
    var n1 := Next(n, a);
    var n2 := Next(n1, b);
    var n3 := Next(n2, c);
    var n4 := Next(n3, d);
    var n5 := Next(n4, e);
    FirstStep(n5, f, []);
    FirstStep(n4, e, [f] + []);
    FirstStep(n3, d, [e] + ([f] + []));
    FirstStep(n2, c, [d] + ([e] + ([f] + [])));
    FirstStep(n1, b, [c] + ([d] + ([e] + ([f] + []))));
    FirstStep(n, a, [b] + ([c] + ([d] + ([e] + ([f] + [])))));
    assert [a] + ([b] + ([c] + ([d] + ([e] + ([f] + []))))) == [a, b, c, d, e, f];
  }

  // ----- Opening, and draining one batch

  datatype Row = Row(table: TableName, key: Bytes, value: Bytes)

  /** `rows` lists the rows of `tables`, each at least once and in any order. */
  ghost predicate ListsRows(rows: seq<Row>, idb: State, tables: seq<TableName>) {
    && (forall t :: t in tables ==> t in idb)
    && (forall i :: 0 <= i < |rows| ==>
          rows[i].table in tables && Lookup(idb, rows[i].table, rows[i].key) == Some(rows[i].value))
    && (forall t, k :: t in tables && k in idb[t] ==> Row(t, k, idb[t][k]) in rows)
  }

  ghost predicate RowIn(state: State, row: Row) {
    Lookup(state, row.table, row.key).Some?
  }

  /** Rows found in `state` are those of `idb`, and none is outside `tables`. */
  ghost predicate AgreesAt(state: State, idb: State, t: TableName, k: Bytes) {
    Lookup(state, t, k).Some? ==> Lookup(state, t, k) == Lookup(idb, t, k)
  }

  method CreateTables(tables: seq<TableName>) returns (state: State)
    ensures state.Keys == set t | t in tables
    ensures forall t :: t in state ==> state[t] == map[]
  {
    state := map[];
    for i := 0 to |tables|
      invariant state.Keys == set t | t in tables[..i]
      invariant forall t :: t in state ==> state[t] == map[]
    {
      state := state[tables[i] := map[]];
    }
    assert tables[..|tables|] == tables;
  }

  method InsertRows(empty: State, rows: seq<Row>, ghost idb: State) returns (state: State)
    requires forall i :: 0 <= i < |rows| ==>
               rows[i].table in empty && Lookup(idb, rows[i].table, rows[i].key) == Some(rows[i].value)
    requires forall t :: t in empty ==> empty[t] == map[]
    ensures state.Keys == empty.Keys
    ensures forall t, k :: AgreesAt(state, idb, t, k)
    ensures forall i :: 0 <= i < |rows| ==> RowIn(state, rows[i])
  {
    state := empty;
    for i := 0 to |rows|
      invariant state.Keys == empty.Keys
      invariant forall t, k :: AgreesAt(state, idb, t, k)
      invariant forall j :: 0 <= j < i ==> RowIn(state, rows[j])
    {
      var Row(t, k, v) := rows[i];
      ghost var before := state;
      state := state[t := Table(state, t)[k := v]];
      forall t', k' ensures AgreesAt(state, idb, t', k')
                    ensures Lookup(before, t', k').Some? ==> Lookup(state, t', k').Some?
      {
        ApplyLookup(before, Put(t, k, v), t', k');
        assert AgreesAt(before, idb, t', k');
      }
      forall j | 0 <= j < i ensures RowIn(state, rows[j]) {
        assert RowIn(before, rows[j]);
      }
    }
  }

  /** Rebuilds the in-memory map from the persisted rows, whatever order they arrive in. */
  method Hydrate(tables: seq<TableName>, rows: seq<Row>, ghost idb: State) returns (state: State)
    requires ListsRows(rows, idb, tables)
    ensures state == map t | t in tables :: idb[t]
  {
    var empty := CreateTables(tables);
    state := InsertRows(empty, rows, idb);
    forall t | t in tables ensures state[t] == idb[t] {
      forall k ensures Lookup(state, t, k) == Lookup(idb, t, k) {
        assert AgreesAt(state, idb, t, k);
        if k in idb[t] {
          var row := Row(t, k, idb[t][k]);
          assert row in rows && RowIn(state, row);
        }
      }
      SameLookupsSameRows(state, idb, t);
    }
  }

  lemma SameLookupsSameRows(s: State, s': State, t: TableName)
    requires t in s && t in s' && forall k :: Lookup(s, t, k) == Lookup(s', t, k)
    ensures s[t] == s'[t]
  {
    forall k ensures (k in s[t] <==> k in s'[t]) && (k in s[t] ==> s[t][k] == s'[t][k]) {
      assert Lookup(s, t, k) == Lookup(s', t, k);
    }
  }

  /** Committing a transaction on the store is the machine's commit followed at once by its send. */
  method CommitStep(tx: TxMut, ghost n: Node)
    requires n.mem == tx.db.state && n.queue == tx.db.queue && n.unsent == []
    modifies tx.db
    ensures var n1 := Next(n, Commit(tx.ops));
            var n2 := if tx.ops == [] then n1 else Next(n1, Send(0));
            tx.db.state == n2.mem && tx.db.queue == n2.queue && n2.unsent == []
  {
    tx.Commit();
  }

  /** The task's side: takes the oldest batch and applies it whole, or drops it when IndexedDB refuses. */
  class MirrorTask {
    var idb: State

    constructor (idb: State)
      ensures this.idb == idb
    {
      this.idb := idb;
    }

    method DrainOne(db: Database, io: bool)
      requires db.queue != []
      modifies this, db
      ensures db.state == old(db.state)
      ensures forall unsent, history, landed ::
                var n := Next(Node(old(db.state), unsent, old(db.queue), old(idb), history, landed), Drain(io));
                db.queue == n.queue && idb == n.idb
    {
      var batch := db.queue[0];
      db.queue := db.queue[1..];
      if !io {
        return;
      }
      for i := 0 to |batch|
        invariant forall j :: 0 <= j < i ==> batch[j].table in idb
        invariant idb == old(idb) && db.state == old(db.state) && db.queue == old(db.queue)[1..]
      {
        if batch[i].table !in idb {
          return;
        }
      }
      assert Applicable(idb, batch);
      var rows := idb;
      for i := 0 to |batch|
        invariant rows == Replay(idb, batch[..i])
        invariant idb == old(idb) && db.state == old(db.state) && db.queue == old(db.queue)[1..]
      {
        ReplayOne(idb, batch[..i], batch[i]);
        assert batch[..i + 1] == batch[..i] + [batch[i]];
        rows := Apply(rows, batch[i]);
      }
      assert batch[..|batch|] == batch;
      idb := rows;
    }
  }
}
