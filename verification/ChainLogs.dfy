/** The finalized logs of a chain in their canonical `(block, log_index)` order. */
module ChainLogs {
  import opened Words

  type Data(==, !new)

  datatype Log = Log(block: u64, index: u64, data: Data)

  /** Strict order on the key `(block, index)`. */
  predicate Before(a: Log, b: Log) {
    a.block < b.block || (a.block == b.block && a.index < b.index)
  }

  ghost predicate Canonical(logs: seq<Log>) {
    forall i, j :: 0 <= i < j < |logs| ==> Before(logs[i], logs[j])
  }

  /** Sorted by key; equal keys are allowed. */
  ghost predicate Ordered(logs: seq<Log>) {
    forall i, j :: 0 <= i < j < |logs| ==> !Before(logs[j], logs[i])
  }

  /** The number of leading logs in blocks below `b`. */
  function CountBelow(chain: seq<Log>, b: nat): (n: nat)
    ensures n <= |chain|
  {
    CountFrom(chain, b, 0)
  }

  function CountFrom(chain: seq<Log>, b: nat, i: nat): (n: nat)
    requires i <= |chain|
    ensures i <= n <= |chain|
    decreases |chain| - i
  {
    if i == |chain| || chain[i].block >= b then i else CountFrom(chain, b, i + 1)
  }

  lemma {:induction false} CountFromSplits(chain: seq<Log>, b: nat, i: nat)
    requires Canonical(chain) && i <= |chain| && forall j :: 0 <= j < i ==> chain[j].block < b
    ensures forall j :: 0 <= j < CountFrom(chain, b, i) ==> chain[j].block < b
    ensures forall j :: CountFrom(chain, b, i) <= j < |chain| ==> b <= chain[j].block
    decreases |chain| - i
  {
    if i < |chain| {
      if chain[i].block < b {
        CountFromSplits(chain, b, i + 1);
      } else {
        forall j | i <= j < |chain| ensures b <= chain[j].block {
          assert i == j || Before(chain[i], chain[j]);
        }
      }
    }
  }

  lemma CountBelowSplits(chain: seq<Log>, b: nat)
    requires Canonical(chain)
    ensures forall i :: 0 <= i < CountBelow(chain, b) ==> chain[i].block < b
    ensures forall i :: CountBelow(chain, b) <= i < |chain| ==> b <= chain[i].block
  {
    CountFromSplits(chain, b, 0);
  }

  lemma CountBelowMonotone(chain: seq<Log>, b: nat, c: nat)
    requires Canonical(chain) && b <= c
    ensures CountBelow(chain, b) <= CountBelow(chain, c)
  {
    CountBelowSplits(chain, b);
    CountBelowSplits(chain, c);
    var n := CountBelow(chain, c);
    assert n == |chain| || c <= chain[n].block;
  }

  /** The logs in blocks `from` up to, and not including, `next`. */
  function Between(chain: seq<Log>, from: nat, next: nat): seq<Log> {
    var lo, hi := CountBelow(chain, from), CountBelow(chain, next);
    if lo <= hi then chain[lo..hi] else []
  }

  /** The logs in blocks `from..=to`. */
  function Range(chain: seq<Log>, from: nat, to: nat): seq<Log> {
    Between(chain, from, to + 1)
  }

  /** `Range` is what it says: exactly the logs in those blocks, still in canonical order. */
  lemma RangeIsExact(chain: seq<Log>, from: nat, to: nat)
    requires Canonical(chain)
    ensures Canonical(Range(chain, from, to))
    ensures forall x :: x in Range(chain, from, to) <==> x in chain && from <= x.block <= to
  {
    CountBelowSplits(chain, from);
    CountBelowSplits(chain, to + 1);
    var lo, hi, r := CountBelow(chain, from), CountBelow(chain, to + 1), Range(chain, from, to);
    forall x | x in chain && from <= x.block <= to ensures x in r {
      var i :| 0 <= i < |chain| && chain[i] == x;
      assert lo <= i < hi;
      assert r[i - lo] == x;
    }
  }

  /** Two abutting stretches make the stretch that spans them. */
  lemma StretchesAbut(chain: seq<Log>, from: nat, mid: nat, next: nat)
    requires Canonical(chain) && from <= mid <= next
    ensures Between(chain, from, mid) + Between(chain, mid, next) == Between(chain, from, next)
  {
    CountBelowMonotone(chain, from, mid);
    CountBelowMonotone(chain, mid, next);
  }

  // ----- Sorting a page

  function Insert(x: Log, sorted: seq<Log>): (r: seq<Log>)
    ensures multiset(r) == multiset(sorted) + multiset{x}
  {
    if sorted == [] || !Before(sorted[0], x) then [x] + sorted
    else
      assert sorted == [sorted[0]] + sorted[1..];
      [sorted[0]] + Insert(x, sorted[1..])
  }

  lemma ConsOrdered(x: Log, rest: seq<Log>)
    requires Ordered(rest) && forall y :: y in rest ==> !Before(y, x)
    ensures Ordered([x] + rest)
  {
    var all := [x] + rest;
    forall i, j | 0 <= i < j < |all| ensures !Before(all[j], all[i]) {
      assert all[j] == rest[j - 1];
      if i > 0 {
        assert all[i] == rest[i - 1];
      }
    }
  }

  lemma {:induction false} InsertKeepsOrder(x: Log, sorted: seq<Log>)
    requires Ordered(sorted)
    ensures Ordered(Insert(x, sorted))
  {
    if sorted == [] || !Before(sorted[0], x) {
      ConsOrdered(x, sorted);
    } else {
      var rest := sorted[1..];
      InsertKeepsOrder(x, rest);
      forall y | y in Insert(x, rest) ensures !Before(y, sorted[0]) {
        assert y in multiset(Insert(x, rest));
        assert y == x || y in rest;
      }
      ConsOrdered(sorted[0], Insert(x, rest));
    }
  }

  /** `sort_by_key(|log| (block_number, log_index))`. */
  function Sort(logs: seq<Log>): (r: seq<Log>)
    ensures multiset(r) == multiset(logs)
    ensures Ordered(r)
  {
    if logs == [] then []
    else
      assert logs == [logs[0]] + logs[1..];
      InsertKeepsOrder(logs[0], Sort(logs[1..]));
      Insert(logs[0], Sort(logs[1..]))
  }

  lemma SameFirst(a: seq<Log>, b: seq<Log>)
    requires Ordered(a) && Canonical(b) && multiset(a) == multiset(b) && a != [] && b != []
    ensures a[0] == b[0]
  {
    assert a[0] in multiset(b) && b[0] in multiset(a);
    var i :| 0 <= i < |a| && a[i] == b[0];
    var j :| 0 <= j < |b| && b[j] == a[0];
  }

  lemma SameRest(a: seq<Log>, b: seq<Log>)
    requires a != [] && b != [] && a[0] == b[0] && multiset(a) == multiset(b)
    ensures multiset(a[1..]) == multiset(b[1..])
  {
    assert a == [a[0]] + a[1..];
    assert b == [b[0]] + b[1..];
    assert multiset(a[1..]) == multiset(a) - multiset{a[0]};
    assert multiset(b[1..]) == multiset(b) - multiset{b[0]};
  }

  lemma {:induction false} OneSortedArrangement(a: seq<Log>, b: seq<Log>)
    requires Ordered(a) && Canonical(b) && multiset(a) == multiset(b)
    ensures a == b
    decreases |a|
  {
    assert |a| == |multiset(a)| == |b|;
    if a != [] {
      SameFirst(a, b);
      SameRest(a, b);
      OneSortedArrangement(a[1..], b[1..]);
      assert a == [a[0]] + a[1..];
      assert b == [b[0]] + b[1..];
    }
  }
}
