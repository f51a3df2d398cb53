/**
 The admission check of the rate limiter: the virtual-scheduling form of the
 Generic Cell Rate Algorithm (ITU-T Recommendation I.371, Annex A), related to
 the continuous-state leaky bucket of the same annex.
 Times are nanoseconds since the limiter was built.
 */
module Gcra {
  import opened Words

  /** `maxTokens` tokens every `replenishAllEvery` nanoseconds. */
  datatype Quota = Quota(maxTokens: NonZeroU32, replenishAllEvery: nat)

  /** `tau`: time an empty bucket needs to fill; `t`: time that replenishes one token. */
  datatype Cell = Cell(tau: u64, t: u64)

  datatype Refusal = TooLarge | TooSoon(wait: u64)

  datatype Verdict = Admitted(tat: u64) | Refused(why: Refusal)

  function FromQuota(q: Quota): (cell: Cell) {
    Cell(Saturate(q.replenishAllEvery), Saturate(q.replenishAllEvery / q.maxTokens))
  }

  function Cost(cell: Cell, n: u32): u64 {
    SatMul(cell.t, n)
  }

  function EarliestAdmit(cell: Cell, tat: u64, n: u32): u64 {
    SatSub(SatAdd(tat, Cost(cell, n)), cell.tau)
  }

  function Check(cell: Cell, tat: u64, now: u64, n: u32): (v: Verdict) {
    var cost := Cost(cell, n);
    if cost > cell.tau then
      Refused(TooLarge)
    else
      var earliest := EarliestAdmit(cell, tat, n);
      if now < earliest then
        Refused(TooSoon(SatSub(earliest, now)))
      else
        Admitted(SatAdd(Max(now, tat), cost))
  }

  /** The clock is far enough from the top of `u64` for the sums in `Check` to be exact. */
  predicate InRange(cell: Cell, now: u64) {
    now + cell.tau < U64_MAX
  }

  // ----- What a quota turns into

  lemma QuotaCellIsOrdered(q: Quota)
    ensures FromQuota(q).t <= FromQuota(q).tau == Min(q.replenishAllEvery, U64_MAX)
    ensures q.replenishAllEvery <= U64_MAX ==> q.maxTokens * FromQuota(q).t <= FromQuota(q).tau
    ensures q.replenishAllEvery <= U64_MAX ==> FromQuota(q).tau < q.maxTokens * (FromQuota(q).t + 1)
  {
    var r, m := q.replenishAllEvery, q.maxTokens;
    DivisionBounds(r, m);
    if r > U64_MAX && r / m > U64_MAX {
    } else {
      assert r / m <= m * (r / m);
    }
  }

  lemma DivisionBounds(r: nat, m: nat)
    requires m > 0
    ensures m * (r / m) <= r < m * (r / m + 1)
    ensures r / m <= m * (r / m)
  {
    assert r == m * (r / m) + r % m;
    assert m * (r / m + 1) == m * (r / m) + m;
    MulGrows(r / m, m);
  }

  lemma DivisionByOne(r: nat)
    ensures r / 1 == r
  {
  }

  lemma MulGrows(x: nat, m: nat)
    requires m > 0
    ensures x <= m * x
  {
  }

  // ----- The bucket reading of the theoretical arrival time

  /** Tokens' worth of time still available at `now`. */
  function Credit(cell: Cell, tat: u64, now: u64): int {
    cell.tau - Max(0, tat - now)
  }

  /** A charge is admitted exactly when credit covers it, and then credit drops by exactly its cost. */
  lemma CheckSpendsCredit(cell: Cell, tat: u64, now: u64, n: u32)
    requires InRange(cell, now)
    ensures var v := Check(cell, tat, now, n);
            && (v.Admitted? <==> Cost(cell, n) <= Credit(cell, tat, now))
            && (v.Admitted? ==> Credit(cell, v.tat, now) == Credit(cell, tat, now) - Cost(cell, n))
            && (v == Refused(TooLarge) <==> Cost(cell, n) > cell.tau)
  {
  }

  /** `TooSoon(d)` names the first instant at which the same charge succeeds. */
  lemma TooSoonIsTheFirstAdmission(cell: Cell, tat: u64, now: u64, n: u32)
    requires Check(cell, tat, now, n).Refused? && Check(cell, tat, now, n).why.TooSoon?
    ensures var d := Check(cell, tat, now, n).why.wait;
            && 0 < d
            && now + d <= U64_MAX
            && forall later: u64 :: Check(cell, tat, later, n).Admitted? <==> now + d <= later
  {
  }

  /** `TooLarge` is permanent: no instant and no bucket state admits the charge. */
  lemma TooLargeIsPermanent(cell: Cell, tat: u64, now: u64, n: u32, tat': u64, now': u64)
    requires Check(cell, tat, now, n) == Refused(TooLarge)
    ensures Check(cell, tat', now', n) == Refused(TooLarge)
  {
  }

  /** Only the part of the arrival time that lies in the future matters. */
  lemma CheckSeesOnlyTheFuture(cell: Cell, tat: u64, tat': u64, now: u64, n: u32)
    requires Max(now, tat) == Max(now, tat')
    ensures Check(cell, tat, now, n) == Check(cell, tat', now, n)
  {
  }

  /**
   A full bucket admits `n` tokens at once exactly when `n` intervals fit into
   `tau`; that can exceed `max_tokens`.
   */
  lemma BurstIsTheFloor(cell: Cell, tat: u64, now: u64, n: u32)
    requires InRange(cell, now) && tat <= now
    ensures Check(cell, tat, now, n).Admitted? <==> n * cell.t <= cell.tau
    ensures var q := Quota(3, 5); Check(FromQuota(q), 0, 0, 5).Admitted? && 5 > q.maxTokens
  {
    CheckSpendsCredit(cell, tat, now, n);
    assert n * cell.t == cell.t * n;
    assert FromQuota(Quota(3, 5)) == Cell(5, 1);
  }

  // ----- The continuous-state leaky bucket

  /** `level` units of liquid at instant `last`, draining one unit per nanosecond. */
  datatype Bucket = Bucket(level: nat, last: nat)

  function LevelAt(b: Bucket, now: nat): nat {
    Max(0, b.level - (now - b.last))
  }

  datatype Pour = Pour(accepted: bool, bucket: Bucket)

  /** Pours `cost` into a bucket of capacity `tau`, or leaves it as it was when it would spill. */
  function PourInto(b: Bucket, tau: nat, now: nat, cost: nat): Pour {
    if LevelAt(b, now) + cost <= tau then Pour(true, Bucket(LevelAt(b, now) + cost, now)) else Pour(false, b)
  }

  /** One charge of `n` tokens at instant `now`. */
  datatype Charge = Charge(now: u64, n: u32)

  ghost predicate ClockFrom(start: nat, run: seq<Charge>) {
    && (|run| > 0 ==> start <= run[0].now)
    && (forall i, j :: 0 <= i < j < |run| ==> run[i].now <= run[j].now)
  }

  ghost predicate RunInRange(cell: Cell, run: seq<Charge>) {
    forall i :: 0 <= i < |run| ==> InRange(cell, run[i].now)
  }

  function NextTat(cell: Cell, tat: u64, c: Charge): u64 {
    var v := Check(cell, tat, c.now, c.n);
    if v.Admitted? then v.tat else tat
  }

  /** Which charges of a run the limiter admits. */
  function Decisions(cell: Cell, tat: u64, run: seq<Charge>): (ds: seq<bool>)
    decreases |run|
  {
    if run == [] then []
    else [Check(cell, tat, run[0].now, run[0].n).Admitted?] + Decisions(cell, NextTat(cell, tat, run[0]), run[1..])
  }

  /** Which charges of a run the leaky bucket accepts. */
  function BucketDecisions(cell: Cell, b: Bucket, run: seq<Charge>): (ds: seq<bool>)
    decreases |run|
  {
    if run == [] then []
    else
      var p := PourInto(b, cell.tau, run[0].now, Cost(cell, run[0].n));
      [p.accepted] + BucketDecisions(cell, p.bucket, run[1..])
  }

  /** The two states hold the same backlog from `b.last` on. */
  predicate SameBacklog(tat: u64, b: Bucket) {
    Max(0, tat - b.last) == b.level
  }

  lemma {:induction false} VirtualSchedulingIsLeakyBucketFrom(cell: Cell, tat: u64, b: Bucket, run: seq<Charge>)
    requires SameBacklog(tat, b) && ClockFrom(b.last, run) && RunInRange(cell, run)
    ensures Decisions(cell, tat, run) == BucketDecisions(cell, b, run)
    decreases |run|
  {
    if run != [] {
      var c := run[0];
      var p := PourInto(b, cell.tau, c.now, Cost(cell, c.n));
      CheckSpendsCredit(cell, tat, c.now, c.n);
      assert forall i :: 0 <= i < |run[1..]| ==> run[1..][i] == run[i + 1];
      VirtualSchedulingIsLeakyBucketFrom(cell, NextTat(cell, tat, c), p.bucket, run[1..]);
    }
  }

  /** A fresh limiter and an empty leaky bucket take the same decision on every charge of every run. */
  lemma VirtualSchedulingIsLeakyBucket(cell: Cell, run: seq<Charge>)
    requires ClockFrom(0, run) && RunInRange(cell, run)
    ensures Decisions(cell, 0, run) == BucketDecisions(cell, Bucket(0, 0), run)
  {
    VirtualSchedulingIsLeakyBucketFrom(cell, 0, Bucket(0, 0), run);
  }

  // ----- How much a bucket lets through

  /** Total cost (in nanoseconds) of the charges of `run` admitted at instants in `[a, b]`. */
  function AdmittedCost(cell: Cell, tat: u64, run: seq<Charge>, a: nat, b: nat): nat
    decreases |run|
  {
    if run == [] then 0
    else
      var c := run[0];
      (if a <= c.now <= b && Check(cell, tat, c.now, c.n).Admitted? then Cost(cell, c.n) else 0)
      + AdmittedCost(cell, NextTat(cell, tat, c), run[1..], a, b)
  }

  /** Total tokens of the charges of `run` admitted at instants in `[a, b)`. */
  function AdmittedTokens(cell: Cell, tat: u64, run: seq<Charge>, a: nat, b: nat): nat
    decreases |run|
  {
    if run == [] then 0
    else
      var c := run[0];
      (if a <= c.now < b && Check(cell, tat, c.now, c.n).Admitted? then c.n else 0)
      + AdmittedTokens(cell, NextTat(cell, tat, c), run[1..], a, b)
  }

  lemma {:induction false} AdmittedCostFits(cell: Cell, tat: u64, run: seq<Charge>, a: nat, b: nat)
    requires RunInRange(cell, run)
    ensures AdmittedCost(cell, tat, run, a, b) <= Max(0, b + cell.tau - Max(a, tat))
    decreases |run|
  {
    if run != [] {
      assert forall i :: 0 <= i < |run[1..]| ==> run[1..][i] == run[i + 1];
      AdmittedCostFits(cell, NextTat(cell, tat, run[0]), run[1..], a, b);
    }
  }

  /**
   The window bound: whatever is charged and whenever, in any clock order, the
   cost admitted in a window never exceeds its length plus one full bucket.
   */
  lemma WindowBound(cell: Cell, tat: u64, run: seq<Charge>, a: nat, b: nat)
    requires RunInRange(cell, run) && a <= b
    ensures AdmittedCost(cell, tat, run, a, b) <= (b - a) + cell.tau
  {
    AdmittedCostFits(cell, tat, run, a, b);
  }

  // ----- Where the window bound stops: saturation of the clock

  /** `k` one-token charges at the same instant. */
  function Burst(now: u64, k: nat): seq<Charge> {
    seq(k, _ => Charge(now, 1))
  }

  /** No run of charges at the instant `now` gets more than a full bucket through. */
  ghost predicate LimitsAt(cell: Cell, now: u64) {
    forall run: seq<Charge> ::
      (forall i :: 0 <= i < |run| ==> run[i].now == now) ==> AdmittedCost(cell, 0, run, now, now) <= cell.tau
  }

  lemma SaturatedBucketAdmitsOne(cell: Cell, tat: u64, now: u64)
    requires cell.t <= cell.tau && now + cell.tau >= U64_MAX
    ensures Cost(cell, 1) == cell.t
    ensures Check(cell, tat, now, 1).Admitted?
  {
  }

  /** Every one of them is admitted. */
  lemma {:induction false} SaturatedBucketAdmitsAll(cell: Cell, tat: u64, now: u64, k: nat)
    requires 0 < cell.t <= cell.tau && now + cell.tau >= U64_MAX
    ensures AdmittedCost(cell, tat, Burst(now, k), now, now) == k * cell.t
    decreases k
  {
    if k > 0 {
      var run := Burst(now, k);
      assert run[0] == Charge(now, 1);
      assert run[1..] == Burst(now, k - 1);
      SaturatedBucketAdmitsOne(cell, tat, now);
      SaturatedBucketAdmitsAll(cell, NextTat(cell, tat, run[0]), now, k - 1);
      Distribute(1, k - 1, cell.t);
    }
  }

  /** The limiter limits at an instant exactly when `now + tau` stays below the top of `u64`. */
  lemma LimitsExactlyInRange(cell: Cell, now: u64)
    requires 0 < cell.t <= cell.tau
    ensures LimitsAt(cell, now) <==> InRange(cell, now)
  {
    if InRange(cell, now) {
      forall run: seq<Charge> | forall i :: 0 <= i < |run| ==> run[i].now == now
        ensures AdmittedCost(cell, 0, run, now, now) <= cell.tau
      {
        WindowBound(cell, 0, run, now, now);
      }
    } else {
      var k := cell.tau + 1;
      SaturatedBucketAdmitsAll(cell, 0, now, k);
      MulGrows(k, cell.t);
    }
  }

  // ----- "At most max_tokens in any window": exactly when it is true

  ghost predicate WindowHolds(q: Quota, run: seq<Charge>, a: nat) {
    AdmittedTokens(FromQuota(q), 0, run, a, a + q.replenishAllEvery) <= q.maxTokens
  }

  /** Every in-range run admits at most `maxTokens` tokens in any half-open window of the quota's length. */
  ghost predicate AtMostMaxTokensPerWindow(q: Quota) {
    forall run: seq<Charge>, a: nat :: RunInRange(FromQuota(q), run) ==> WindowHolds(q, run, a)
  }

  lemma AdmittedCostIsExact(cell: Cell, tat: u64, now: u64, n: u32)
    requires cell.tau < U64_MAX && Check(cell, tat, now, n).Admitted?
    ensures Cost(cell, n) == cell.t * n
  {
  }

  lemma Distribute(x: nat, y: nat, t: nat)
    ensures (x + y) * t == t * x + y * t
  {
  }

  lemma FewerThanTwo(tokens: nat, t: nat)
    requires tokens * t < 2 * t
    ensures tokens <= 1
  {
  }

  lemma {:induction false} TokensAreCost(cell: Cell, tat: u64, run: seq<Charge>, a: nat, b: nat)
    requires cell.tau < U64_MAX && a < b
    ensures AdmittedTokens(cell, tat, run, a, b) * cell.t == AdmittedCost(cell, tat, run, a, b - 1)
    decreases |run|
  {
    if run != [] {
      TokensAreCost(cell, NextTat(cell, tat, run[0]), run[1..], a, b);
      var c := run[0];
      if a <= c.now < b && Check(cell, tat, c.now, c.n).Admitted? {
        AdmittedCostIsExact(cell, tat, c.now, c.n);
        Distribute(c.n, AdmittedTokens(cell, NextTat(cell, tat, c), run[1..], a, b), cell.t);
      }
    }
  }

  lemma {:induction false} EmptyWindowAdmitsNothing(cell: Cell, tat: u64, run: seq<Charge>, a: nat)
    ensures AdmittedTokens(cell, tat, run, a, a) == 0
    decreases |run|
  {
    if run != [] {
      EmptyWindowAdmitsNothing(cell, NextTat(cell, tat, run[0]), run[1..], a);
    }
  }

  lemma SingleTokenQuotaHolds(q: Quota, run: seq<Charge>, a: nat)
    requires q.maxTokens == 1 && q.replenishAllEvery > 0 && q.replenishAllEvery < U64_MAX
    requires RunInRange(FromQuota(q), run)
    ensures WindowHolds(q, run, a)
  {
    var cell := FromQuota(q);
    var b := a + q.replenishAllEvery;
    assert cell.t == cell.tau == q.replenishAllEvery by {
      DivisionByOne(q.replenishAllEvery);
    }
    TokensAreCost(cell, 0, run, a, b);
    WindowBound(cell, 0, run, a, b - 1);
    FewerThanTwo(AdmittedTokens(cell, 0, run, a, b), cell.t);
  }

  lemma TwoOfMany(max: nat, t: nat)
    requires 2 <= max
    ensures 2 * t <= max * t == t * max
  {
    Distribute(2, max - 2, t);
  }

  /** When a full burst has been spent at instant zero, the instant from which one more token is admitted. */
  function OneMoreAt(cell: Cell, max: nat): nat {
    Max(0, (max + 1) * cell.t - cell.tau)
  }

  lemma BurstPlusOneIsAdmitted(cell: Cell, max: u32)
    requires 2 <= max && max * cell.t <= cell.tau < U64_MAX && (max + 1) * cell.t < U64_MAX
    ensures var at := OneMoreAt(cell, max);
            && at <= cell.t && 2 * cell.t <= cell.tau && at + cell.tau < U64_MAX
            && Check(cell, 0, 0, max) == Admitted(max * cell.t)
            && Check(cell, max * cell.t, at, 1).Admitted?
  {
    TwoOfMany(max, cell.t);
    Distribute(1, max, cell.t);
    assert (max + 1) * cell.t == max * cell.t + cell.t;
    assert Cost(cell, max) == max * cell.t;
    assert Cost(cell, 1) == cell.t;
  }

  /** A full burst, then one more token as soon as the bucket admits it: inside a single window. */
  lemma BurstPlusOneBreaksTheWindow(q: Quota)
    requires q.maxTokens >= 2 && 0 < q.replenishAllEvery < U64_MAX
    requires (q.maxTokens + 1) * FromQuota(q).t < U64_MAX
    ensures !AtMostMaxTokensPerWindow(q)
  {
    var cell, max := FromQuota(q), q.maxTokens;
    QuotaCellIsOrdered(q);
    BurstPlusOneIsAdmitted(cell, max);
    var at := OneMoreAt(cell, max);
    var run := [Charge(0, max), Charge(at, 1)];
    assert RunInRange(cell, run);
    BurstPlusOneCounts(cell, max, at, q.replenishAllEvery);
    assert !WindowHolds(q, run, 0);
  }

  lemma BurstPlusOneCounts(cell: Cell, max: u32, at: u64, b: nat)
    requires Check(cell, 0, 0, max).Admitted?
    requires Check(cell, Check(cell, 0, 0, max).tat, at, 1).Admitted?
    requires 0 < b && at < b
    ensures AdmittedTokens(cell, 0, [Charge(0, max), Charge(at, 1)], 0, b) == max + 1
  {
    var run := [Charge(0, max), Charge(at, 1)];
    assert run[1..] == [run[1]];
    assert run[1..][1..] == [];
    assert NextTat(cell, 0, run[0]) == Check(cell, 0, 0, max).tat;
    assert AdmittedTokens(cell, NextTat(cell, 0, run[0]), run[1..], 0, b) == 1;
  }

  /** In-range runs never get more than the whole clock's worth of cost through. */
  lemma {:induction false} InRangeCostFits(cell: Cell, tat: u64, run: seq<Charge>, a: nat, b: nat)
    requires RunInRange(cell, run)
    ensures AdmittedCost(cell, tat, run, a, b) <= Max(0, U64_MAX - 1 - tat)
    decreases |run|
  {
    if run != [] {
      assert forall i :: 0 <= i < |run[1..]| ==> run[1..][i] == run[i + 1];
      InRangeCostFits(cell, NextTat(cell, tat, run[0]), run[1..], a, b);
    }
  }

  lemma FewerOrDearer(tokens: nat, more: nat, t: nat)
    ensures tokens < more || more * t <= tokens * t
  {
    if more <= tokens {
      Distribute(more, tokens - more, t);
    }
  }

  /** Tokens so dear that one more than the quota costs more than the clock lasts. */
  lemma DearTokensHold(q: Quota, run: seq<Charge>, a: nat)
    requires 0 < q.replenishAllEvery < U64_MAX && (q.maxTokens + 1) * FromQuota(q).t >= U64_MAX
    requires RunInRange(FromQuota(q), run)
    ensures WindowHolds(q, run, a)
  {
    var cell, b := FromQuota(q), a + q.replenishAllEvery;
    TokensAreCost(cell, 0, run, a, b);
    InRangeCostFits(cell, 0, run, a, b - 1);
    FewerOrDearer(AdmittedTokens(cell, 0, run, a, b), q.maxTokens + 1, cell.t);
  }

  /** A quota as long as the clock: no instant is in range. */
  lemma EndlessQuotaHolds(q: Quota, run: seq<Charge>, a: nat)
    requires q.replenishAllEvery >= U64_MAX && RunInRange(FromQuota(q), run)
    ensures WindowHolds(q, run, a)
  {
    assert FromQuota(q).tau == U64_MAX;
    assert run == [] by {
      assert run != [] ==> InRange(FromQuota(q), run[0].now);
    }
  }

  /**
   The promise "at most `max_tokens` in any window" is kept by every in-range run
   exactly for single-token and zero-length quotas, and for quotas so long that one
   token more than `max_tokens` costs more than the clock lasts.
   */
  lemma WindowPromiseIff(q: Quota)
    ensures AtMostMaxTokensPerWindow(q)
            <==> || q.maxTokens == 1
                 || q.replenishAllEvery == 0
                 || q.replenishAllEvery >= U64_MAX
                 || (q.maxTokens + 1) * FromQuota(q).t >= U64_MAX
  {
    if q.maxTokens > 1 && 0 < q.replenishAllEvery < U64_MAX && (q.maxTokens + 1) * FromQuota(q).t < U64_MAX {
      BurstPlusOneBreaksTheWindow(q);
    } else {
      forall run: seq<Charge>, a: nat | RunInRange(FromQuota(q), run) ensures WindowHolds(q, run, a) {
        if q.replenishAllEvery == 0 {
          EmptyWindowAdmitsNothing(FromQuota(q), 0, run, a);
        } else if q.replenishAllEvery >= U64_MAX {
          EndlessQuotaHolds(q, run, a);
        } else if q.maxTokens == 1 {
          SingleTokenQuotaHolds(q, run, a);
        } else {
          DearTokensHold(q, run, a);
        }
      }
    }
  }

  // ----- One bucket

  /** A single bucket; every call reads the clock once. */
  class RateLimiter {
    const cell: Cell
    var tat: u64

    constructor (quota: Quota)
      ensures cell == FromQuota(quota) && tat == 0
    {
      cell := FromQuota(quota);
      tat := 0;
    }

    /** Charges all `n` tokens or leaves the bucket untouched. */
    method TryConsumeN(now: u64, n: u32) returns (verdict: Verdict)
      modifies this
      ensures verdict == Check(cell, old(tat), now, n)
      ensures tat == NextTat(cell, old(tat), Charge(now, n))
    {
      verdict := Check(cell, tat, now, n);
      match verdict {
        case Admitted(newTat) => tat := newTat;
        case Refused(_) =>
      }
    }
  }
}
