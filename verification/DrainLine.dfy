/**
 One bucket and the costs waiting for it, in nanoseconds: the instants at which they
 are due, and that no way of waiting and serving brings one forward.
 */
module DrainLine {
  import opened Words

  datatype Line = Line(tau: u64, tat: u64, costs: seq<u64>)

  /** The first instant at which the bucket admits the head. */
  function Earliest(l: Line): u64
    requires l.costs != []
  {
    SatSub(SatAdd(l.tat, l.costs[0]), l.tau)
  }

  predicate Admits(l: Line, at: u64) {
    l.costs != [] && Earliest(l) <= at
  }

  /** The line after its head was charged at `at`. */
  function After(l: Line, at: u64): Line
    requires l.costs != []
  {
    Line(l.tau, SatAdd(Max(at, l.tat), l.costs[0]), l.costs[1..])
  }

  /** When the `i`-th charge is admitted, from `now` on, if each goes as soon as the bucket admits it. */
  function Due(l: Line, now: u64, i: nat): u64
    requires i < |l.costs|
    decreases i
  {
    var at := Max(now, Earliest(l));
    if i == 0 then at else Due(After(l, at), at, i - 1)
  }

  // ----- Nothing comes forward

  predicate NoCheaper(costs: seq<u64>, costs': seq<u64>) {
    |costs| <= |costs'| && forall j :: 0 <= j < |costs| ==> costs[j] <= costs'[j]
  }

  /** `l'` has no more room, at least the backlog of `l` measured against it, and no cheaper charges, perhaps more. */
  predicate Lags(l: Line, l': Line) {
    l'.tau <= l.tau && l.tat - l.tau <= l'.tat - l'.tau && NoCheaper(l.costs, l'.costs)
  }

  lemma LagsAfter(l: Line, at: u64, l': Line, at': u64)
    requires Lags(l, l') && at <= at' && l.costs != []
    ensures Lags(After(l, at), After(l', at'))
  {
    forall j | 0 <= j < |l.costs[1..]| ensures l.costs[1..][j] <= l'.costs[1..][j] {
      assert l.costs[j + 1] <= l'.costs[j + 1];
    }
  }

  /** Nothing is due sooner in a line that lags behind and starts no earlier. */
  lemma {:induction false} LagsDue(l: Line, now: u64, l': Line, now': u64, i: nat)
    requires Lags(l, l') && now <= now' && i < |l.costs|
    ensures Due(l, now, i) <= Due(l', now', i)
    decreases i
  {
    var at, at' := Max(now, Earliest(l)), Max(now', Earliest(l'));
    if i > 0 {
      LagsAfter(l, at, l', at');
      LagsDue(After(l, at), at, After(l', at'), at', i - 1);
    }
  }

  /** Serving the head late makes nothing behind it due sooner. */
  lemma RestIsDueNoSooner(l: Line, now: u64, at: u64, i: nat)
    requires Admits(l, at) && now <= at && 0 < i < |l.costs|
    ensures Due(l, now, i) <= Due(After(l, at), at, i - 1)
  {
    var first := Max(now, Earliest(l));
    LagsAfter(l, first, l, at);
    LagsDue(After(l, first), first, After(l, at), at, i - 1);
  }

  // ----- Serving each charge when it is due

  /** The line can be served at the instants `ts`, from `now` on. */
  predicate Schedule(l: Line, now: u64, ts: seq<u64>)
    decreases |ts|
  {
    ts == [] || (now <= ts[0] && Admits(l, ts[0]) && Schedule(After(l, ts[0]), ts[0], ts[1..]))
  }

  function DueTimes(l: Line, now: u64, n: nat): (ts: seq<u64>)
    requires n <= |l.costs|
    ensures |ts| == n
    decreases n
  {
    if n == 0 then []
    else
      var at := Max(now, Earliest(l));
      [at] + DueTimes(After(l, at), at, n - 1)
  }

  /** The instants at which the charges are due make a schedule. */
  lemma {:induction false} DueTimesAreASchedule(l: Line, now: u64, n: nat)
    requires n <= |l.costs|
    ensures Schedule(l, now, DueTimes(l, now, n))
    ensures n > 0 ==> DueTimes(l, now, n)[n - 1] == Due(l, now, n - 1)
    decreases n
  {
    if n > 0 {
      var at := Max(now, Earliest(l));
      var ts := DueTimes(After(l, at), at, n - 1);
      DueTimesAreASchedule(After(l, at), at, n - 1);
      assert DueTimes(l, now, n)[1..] == ts;
    }
  }

  // ----- Any way of waiting and serving

  /** What happened to the line at an instant, and what it left. */
  datatype Beat = Beat(now: u64, served: bool, left: Line)

  predicate Leads(l: Line, b: Beat) {
    if b.served then Admits(l, b.now) && b.left == After(l, b.now) else Lags(l, b.left)
  }

  predicate IsHistory(l: Line, now: u64, beats: seq<Beat>)
    decreases |beats|
  {
    beats == [] || (now <= beats[0].now && Leads(l, beats[0]) && IsHistory(beats[0].left, beats[0].now, beats[1..]))
  }

  function Served(beats: seq<Beat>): nat {
    if beats == [] then 0 else (if beats[0].served then 1 else 0) + Served(beats[1..])
  }

  function EndOf(now: u64, beats: seq<Beat>): u64
    decreases |beats|
  {
    if beats == [] then now else EndOf(beats[0].now, beats[1..])
  }

  lemma {:induction false} HistoryGoesOn(l: Line, now: u64, beats: seq<Beat>)
    requires IsHistory(l, now, beats)
    ensures now <= EndOf(now, beats)
    decreases |beats|
  {
    if beats != [] {
      HistoryGoesOn(beats[0].left, beats[0].now, beats[1..]);
    }
  }

  /** A charge that has been served by the end was due by then. */
  lemma {:induction false} NothingIsServedEarly(l: Line, now: u64, beats: seq<Beat>, i: nat)
    requires IsHistory(l, now, beats) && i < |l.costs| && i < Served(beats)
    ensures Due(l, now, i) <= EndOf(now, beats)
    decreases |beats|
  {
    var b, rest := beats[0], beats[1..];
    if !b.served {
      NothingIsServedEarly(b.left, b.now, rest, i);
      LagsDue(l, now, b.left, b.now, i);
    } else if i == 0 {
      HistoryGoesOn(b.left, b.now, rest);
    } else {
      NothingIsServedEarly(b.left, b.now, rest, i - 1);
      RestIsDueNoSooner(l, now, b.now, i);
    }
  }

  /** Some history serves the first `i + 1` charges of the line by `bound`. */
  ghost predicate ServedBy(l: Line, now: u64, i: nat, bound: nat) {
    exists beats :: IsHistory(l, now, beats) && i < Served(beats) && EndOf(now, beats) <= bound
  }

  lemma ServedFirst(l: Line, now: u64, at: u64, bound: nat)
    requires Admits(l, at) && now <= at <= bound
    ensures ServedBy(l, now, 0, bound)
  {
    var none: seq<Beat> := [];
    assert IsHistory(After(l, at), at, none) && Served(none) == 0 && EndOf(at, none) == at;
    HistoryCons(l, now, Beat(at, true, After(l, at)), none);
  }

  lemma ServedLater(l: Line, now: u64, b: Beat, i: nat, bound: nat)
    requires now <= b.now && Leads(l, b) && ServedBy(b.left, b.now, i, bound)
    ensures ServedBy(l, now, if b.served then i + 1 else i, bound)
  {
    var rest :| IsHistory(b.left, b.now, rest) && i < Served(rest) && EndOf(b.now, rest) <= bound;
    HistoryCons(l, now, b, rest);
  }

  lemma HistoryCons(l: Line, now: u64, b: Beat, rest: seq<Beat>)
    requires now <= b.now && Leads(l, b) && IsHistory(b.left, b.now, rest)
    ensures IsHistory(l, now, [b] + rest) && EndOf(now, [b] + rest) == EndOf(b.now, rest)
    ensures Served([b] + rest) == (if b.served then 1 else 0) + Served(rest)
  {
    assert ([b] + rest)[1..] == rest;
  }

  lemma ServedIsDue(l: Line, now: u64, i: nat, bound: nat)
    requires ServedBy(l, now, i, bound) && i < |l.costs|
    ensures Due(l, now, i) <= bound
  {
    var beats :| IsHistory(l, now, beats) && i < Served(beats) && EndOf(now, beats) <= bound;
    NothingIsServedEarly(l, now, beats, i);
  }
}
