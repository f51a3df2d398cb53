/**
 When the parked items of the outbound self-throttle surface: the instants at which
 they are due, what a shrink does to them, and which calls can make a timer late.
 */
module DrainSchedule {
  import opened Words
  import opened Clocks
  import opened Gcra
  import opened Seqs
  import opened SelfLimiter
  import opened DrainLine
  import K = KeyedLimiter

  function BucketOf(s: Throttle, k: Key): K.KeyState {
    K.Entry(s.limiter, k)
  }

  function Costs(cell: Cell, items: seq<Item>): (costs: seq<u64>)
    ensures |costs| == |items|
    ensures forall j :: 0 <= j < |items| ==> costs[j] == Cost(cell, items[j].cost)
  {
    seq(|items|, j requires 0 <= j < |items| => Cost(cell, items[j].cost))
  }

  /** The bucket of `k` and what its parked items cost. */
  function LineOf(s: Throttle, k: Key): Line {
    var b := BucketOf(s, k);
    Line(b.cell.tau, b.tat, Costs(b.cell, Queue(s, k)))
  }

  // ----- No run surfaces an item before it is due

  lemma CostsNoCheaper(cell: Cell, items: seq<Item>, cell': Cell, items': seq<Item>)
    requires cell.t <= cell'.t && items <= items'
    ensures NoCheaper(Costs(cell, items), Costs(cell', items'))
  {
    forall j | 0 <= j < |items| ensures Costs(cell, items)[j] <= Costs(cell', items')[j] {
      K.CostGrows(cell, cell', items[j].cost);
    }
  }

  lemma CostsTail(cell: Cell, queue: seq<Item>)
    requires queue != []
    ensures Costs(cell, queue)[0] == Cost(cell, queue[0].cost) && Costs(cell, queue)[1..] == Costs(cell, queue[1..])
  {
  }

  /** A call that surfaces nothing leaves the line standing, perhaps longer, and the bucket no emptier. */
  lemma WaitingStep(s: Throttle, e: Event, k: Key)
    requires Enabled(s, e) && LeavesQuota(e, k) && Fits(s, k) && Queue(s, k) != [] && Surfaces(s, e, k) == []
    ensures Lags(LineOf(s, k), LineOf(Step(s, e), k))
  {
    StepKeepsFits(s, e, k);
    StepMovesTheLine(s, e, k);
    ShapeAfter(s, e, k);
    BacklogNeverFalls(s, e, k);
    assert Queue(Step(s, e), k) == Queue(s, k) + Accepts(s, e, k);
    CostsNoCheaper(BucketOf(s, k).cell, Queue(s, k), BucketOf(s, k).cell, Queue(Step(s, e), k));
  }

  lemma BacklogNeverFalls(s: Throttle, e: Event, k: Key)
    requires Enabled(s, e) && LeavesQuota(e, k)
    ensures BucketOf(s, k).tat <= BucketOf(Step(s, e), k).tat
  {
  }

  /** A poll that surfaces the head charges it to the bucket. */
  lemma ServingPoll(s: Throttle, now: u64, k: Key)
    requires Fired(s, k, now) && Queue(s, k) != [] && K.Probe(s.limiter, now, k, Queue(s, k)[0].cost).Admitted?
    ensures var b, s' := BucketOf(s, k), Step(s, At(now, PollReady(k)));
            && Queue(s', k) == Queue(s, k)[1..]
            && BucketOf(s', k) == b.(tat := SatAdd(Max(now, b.tat), Cost(b.cell, Queue(s, k)[0].cost)))
  {
    PollUnfolds(s, now, k);
  }

  /** A call that surfaces an item for a key with a line serves its head. */
  lemma SurfacingStep(s: Throttle, e: Event, k: Key)
    requires Enabled(s, e) && Queue(s, k) != [] && Surfaces(s, e, k) != []
    ensures e.call == PollReady(k) && Surfaces(s, e, k) == [Queue(s, k)[0]]
    ensures Admits(LineOf(s, k), e.now) && LineOf(Step(s, e), k) == After(LineOf(s, k), e.now)
  {
    ServingPoll(s, e.now, k);
    CostsTail(BucketOf(s, k).cell, Queue(s, k));
  }

  /** One call, given that the calls after it have a history. */
  lemma StepHasAHistory(s: Throttle, e: Event, k: Key, now: u64, i: nat, bound: nat)
    requires Enabled(s, e) && LeavesQuota(e, k) && Fits(s, k) && now <= e.now <= bound && i < |Queue(s, k)|
    requires |Surfaces(s, e, k)| <= i ==> ServedBy(LineOf(Step(s, e), k), e.now, i - |Surfaces(s, e, k)|, bound)
    ensures ServedBy(LineOf(s, k), now, i, bound)
  {
    var l, l' := LineOf(s, k), LineOf(Step(s, e), k);
    if Surfaces(s, e, k) == [] {
      WaitingStep(s, e, k);
      ServedLater(l, now, Beat(e.now, false, l'), i, bound);
    } else {
      SurfacingStep(s, e, k);
      if i == 0 {
        ServedFirst(l, now, e.now, bound);
      } else {
        ServedLater(l, now, Beat(e.now, true, l'), i - 1, bound);
      }
    }
  }

  /** How many items a call leaves in the line of `k`. */
  lemma LineLength(s: Throttle, e: Event, k: Key)
    requires Enabled(s, e) && LeavesQuota(e, k) && Fits(s, k)
    ensures Fits(Step(s, e), k)
    ensures |Queue(s, k)| <= |Surfaces(s, e, k)| + |Queue(Step(s, e), k)|
  {
    StepKeepsFits(s, e, k);
    StepMovesTheLine(s, e, k);
    assert |Queue(s, k) + Accepts(s, e, k)| == |Surfaces(s, e, k) + Queue(Step(s, e), k)|;
  }

  /** `es` is a run from `now` on that leaves the quota of `k` alone and surfaces more than `i` of its items. */
  ghost predicate Reaches(s: Throttle, es: seq<Event>, k: Key, now: nat, i: nat) {
    && IsRun(s, es) && Clocked(now, es) && (forall j :: 0 <= j < |es| ==> LeavesQuota(es[j], k))
    && i < |Surfaced(s, es, k)|
  }

  lemma {:induction false} RunHasAHistory(s: Throttle, es: seq<Event>, k: Key, now: u64, i: nat)
    requires Fits(s, k) && i < |Queue(s, k)|
    ensures Reaches(s, es, k, now, i) ==> ServedBy(LineOf(s, k), now, i, ClockAfter(now, es))
    decreases |es|
  {
    if Reaches(s, es, k, now, i) {
      var e, rest, bound := es[0], es[1..], ClockAfter(es[0].now, es[1..]);
      assert LeavesQuota(e, k);
      ClockSplits(now, es);
      ClockGoesOn(e.now, rest);
      LineLength(s, e, k);
      if |Surfaces(s, e, k)| <= i {
        forall j | 0 <= j < |rest| ensures LeavesQuota(rest[j], k) {
          assert rest[j] == es[j + 1];
        }
        RunHasAHistory(Step(s, e), rest, k, e.now, i - |Surfaces(s, e, k)|);
      }
      StepHasAHistory(s, e, k, now, i, bound);
    }
  }

  /** Whatever the calls, short of a clear or resize of the key: its `i`-th parked item surfaces when due, or later. */
  lemma NothingSurfacesEarly(s: Throttle, es: seq<Event>, k: Key, now: u64, i: nat)
    requires Fits(s, k) && i < |Queue(s, k)|
    ensures Reaches(s, es, k, now, i) ==> Due(LineOf(s, k), now, i) <= ClockAfter(now, es)
  {
    if Reaches(s, es, k, now, i) {
      RunHasAHistory(s, es, k, now, i);
      ServedIsDue(LineOf(s, k), now, i, ClockAfter(now, es));
    }
  }

  // ----- With an exact timer, prompt polls surface every item when it is due

  /** The timer of `k` is exact, if it has one. */
  ghost predicate Timely(s: Throttle, k: Key, now: nat) {
    k in s.parked ==> TimerExact(s, k, now)
  }

  /** With an exact timer, a poll surfaces the head wherever the bucket admits it, and leaves an exact timer. */
  lemma PollSurfaces(s: Throttle, k: Key, now: u64, at: u64)
    requires Timely(s, k, now) && now <= at && Admits(LineOf(s, k), at)
    ensures var poll := At(at, PollReady(k));
            && Enabled(s, poll) && Surfaces(s, poll, k) == [Queue(s, k)[0]]
            && Queue(Step(s, poll), k) == Queue(s, k)[1..]
            && LineOf(Step(s, poll), k) == After(LineOf(s, k), at)
            && Timely(Step(s, poll), k, at)
  {
    var b, poll := BucketOf(s, k), At(at, PollReady(k));
    CostsTail(b.cell, Queue(s, k));
    assert ItemFits(Queue(s, k)[0], b.cell);
    assert Check(b.cell, b.tat, at, Queue(s, k)[0].cost).Admitted?;
    SurfacingStep(s, poll, k);
    ServingPoll(s, at, k);
    TimerExactLater(s, k, now, at);
    PollUnfolds(s, at, k);
    ServedTimerIsExact(s, at, k);
  }

  function PollsAt(k: Key, ts: seq<u64>): (es: seq<Event>)
    ensures |es| == |ts|
  {
    if ts == [] then [] else [At(ts[0], PollReady(k))] + PollsAt(k, ts[1..])
  }

  lemma RunCons(s: Throttle, e: Event, es: seq<Event>, k: Key)
    requires Enabled(s, e) && IsRun(Step(s, e), es)
    ensures IsRun(s, [e] + es) && Run(s, [e] + es) == Run(Step(s, e), es)
    ensures Surfaced(s, [e] + es, k) == Surfaces(s, e, k) + Surfaced(Step(s, e), es, k)
  {
    assert ([e] + es)[1..] == es;
  }

  /** The polls at `ts` are a run from `now` on that surfaces the first items of `queue`, one each. */
  ghost predicate Drains(s: Throttle, k: Key, now: u64, ts: seq<u64>, queue: seq<Item>) {
    && IsRun(s, PollsAt(k, ts)) && Clocked(now, PollsAt(k, ts))
    && |ts| <= |queue| && Surfaced(s, PollsAt(k, ts), k) == queue[..|ts|]
  }

  /** The poll at `at` surfaces the head of `queue`, and the polls at `ts` drain the rest of it. */
  ghost predicate DrainsNext(s: Throttle, k: Key, at: u64, ts: seq<u64>, queue: seq<Item>) {
    var poll := At(at, PollReady(k));
    && queue != [] && Enabled(s, poll) && Surfaces(s, poll, k) == [queue[0]]
    && Drains(Step(s, poll), k, at, ts, queue[1..])
  }

  lemma DrainsCons(s: Throttle, k: Key, now: u64, at: u64, ts: seq<u64>, queue: seq<Item>)
    requires now <= at
    ensures DrainsNext(s, k, at, ts, queue) ==> Drains(s, k, now, [at] + ts, queue)
  {
    if DrainsNext(s, k, at, ts, queue) {
      var poll, rest := At(at, PollReady(k)), PollsAt(k, ts);
      assert ([at] + ts)[1..] == ts && PollsAt(k, [at] + ts) == [poll] + rest && ([poll] + rest)[1..] == rest;
      RunCons(s, poll, rest, k);
      assert Surfaced(s, [poll] + rest, k) == [queue[0]] + queue[1..][..|ts|];
      TakeHeadFirst(queue, |ts|);
    }
  }

  /** Polls on any schedule of the line surface one item each, in order. */
  lemma {:induction false} PollsOnSchedule(s: Throttle, k: Key, now: u64, ts: seq<u64>)
    requires Timely(s, k, now) && |ts| <= |Queue(s, k)| && Schedule(LineOf(s, k), now, ts)
    ensures Drains(s, k, now, ts, Queue(s, k))
    decreases |ts|
  {
    if ts == [] {
      assert Surfaced(s, [], k) == [];
    } else {
      PollSurfaces(s, k, now, ts[0]);
      PollsOnSchedule(Step(s, At(ts[0], PollReady(k))), k, ts[0], ts[1..]);
      DrainsCons(s, k, now, ts[0], ts[1..], Queue(s, k));
      assert [ts[0]] + ts[1..] == ts;
    }
  }

  /** With an exact timer, polls can surface every parked item of a key at the very instant at which it is due. */
  lemma ItemsDrainOnTime(s: Throttle, k: Key, now: u64, i: nat)
    requires i < |Queue(s, k)| && Timely(s, k, now)
    ensures var ts := DueTimes(LineOf(s, k), now, i + 1);
            && |ts| == i + 1 && ts[i] == Due(LineOf(s, k), now, i)
            && Drains(s, k, now, ts, Queue(s, k))
  {
    DueTimesAreASchedule(LineOf(s, k), now, i + 1);
    PollsOnSchedule(s, k, now, DueTimes(LineOf(s, k), now, i + 1));
  }

  // ----- A shrink only delays, exactly when nothing parked outgrows the bucket

  ghost predicate DebtBounded(s: Throttle, now: nat) {
    K.DebtBounded(s.limiter, now)
  }

  lemma {:induction false} RunKeepsDebtBounded(s: Throttle, es: seq<Event>, now: nat)
    requires IsRun(s, es) && Clocked(now, es) && DebtBounded(s, now)
    ensures DebtBounded(Run(s, es), ClockAfter(now, es))
    decreases |es|
  {
    if es != [] {
      StepFollowsCalls(s, es[0]);
      if Calls(s, es[0]) != [] {
        K.StepKeepsDebtBounded(s.limiter, Calls(s, es[0])[0], now);
      }
      RunKeepsDebtBounded(Step(s, es[0]), es[1..], es[0].now);
      ClockSplits(now, es);
    }
  }

  /** No later run of `resized` surfaces an item of `k` before it was due in `s`. */
  ghost predicate NeverEarly(s: Throttle, resized: Throttle, k: Key, now: u64) {
    forall es, i :: 0 <= i < |Queue(s, k)| ==> NotEarly(s, resized, es, k, now, i)
  }

  ghost predicate NotEarly(s: Throttle, resized: Throttle, es: seq<Event>, k: Key, now: u64, i: nat)
    requires i < |Queue(s, k)|
  {
    Reaches(resized, es, k, now, i) ==> Due(LineOf(s, k), now, i) <= ClockAfter(now, es)
  }

  lemma ResizedBucket(s: Throttle, now: u64, k: Key, q: Quota)
    ensures var resized := Step(s, At(now, SetQuota(k, q)));
            Queue(resized, k) == Queue(s, k) && BucketOf(resized, k) == K.Resize(BucketOf(s, k), now, FromQuota(q))
  {
  }

  lemma ShrunkBucketLags(b: K.KeyState, now: u64, cell: Cell)
    requires b.tat <= now + b.cell.tau && K.Shrinks(b.cell, cell)
    ensures var b' := K.Resize(b, now, cell); b.tat - b.cell.tau <= b'.tat - b'.cell.tau && b'.cell == cell
  {
  }

  lemma ShrunkIsNeverEarly(s: Throttle, now: u64, k: Key, q: Quota)
    requires DebtBounded(s, now) && K.Shrinks(BucketOf(s, k).cell, FromQuota(q)) && AllFit(Queue(s, k), FromQuota(q))
    ensures NeverEarly(s, Step(s, At(now, SetQuota(k, q))), k, now)
  {
    var shrunk := Step(s, At(now, SetQuota(k, q)));
    ResizedBucket(s, now, k, q);
    ShrunkBucketLags(BucketOf(s, k), now, FromQuota(q));
    CostsNoCheaper(BucketOf(s, k).cell, Queue(s, k), FromQuota(q), Queue(shrunk, k));
    forall es, i | 0 <= i < |Queue(s, k)| ensures NotEarly(s, shrunk, es, k, now, i) {
      NothingSurfacesEarly(shrunk, es, k, now, i);
      LagsDue(LineOf(s, k), now, LineOf(shrunk, k), now, i);
    }
  }

  /**
   After any run, a shrink merely makes the parked items of a key wait, in every
   later run without a further resize or a clear (none is lost, and none surfaces
   before it was due without the shrink), if and only if every parked cost fits the
   new capacity.
   */
  lemma ShrinkOnlyDelaysIff(quota: Quota, es: seq<Event>, now: u64, k: Key, q: Quota)
    requires IsRun(Fresh(quota), es) && Clocked(0, es) && ClockAfter(0, es) <= now
    ensures var s := Run(Fresh(quota), es);
            var shrunk := Step(s, At(now, SetQuota(k, q)));
            K.Shrinks(BucketOf(s, k).cell, FromQuota(q)) ==>
              (NeverLoses(shrunk, k, now) && NeverEarly(s, shrunk, k, now) <==> AllFit(Queue(s, k), FromQuota(q)))
  {
    var s := Run(Fresh(quota), es);
    RunKeepsDebtBounded(Fresh(quota), es, 0);
    ResizeLosesNothingIff(quota, es, now, k, q);
    if K.Shrinks(BucketOf(s, k).cell, FromQuota(q)) && AllFit(Queue(s, k), FromQuota(q)) {
      ShrunkIsNeverEarly(s, now, k, q);
    }
  }

  // ----- Which calls can make a timer late

  predicate AdmitsHead(s: Throttle, k: Key, x: u64) {
    Queue(s, k) != [] && K.Probe(s.limiter, x, k, Queue(s, k)[0].cost).Admitted?
  }

  /** The timer of `k` has fired wherever from `now` on its head would be admitted. */
  ghost predicate Punctual(s: Throttle, k: Key, now: nat) {
    forall x: u64 :: now <= x && AdmitsHead(s, k, x) ==> Fired(s, k, x)
  }

  ghost predicate AllPunctual(s: Throttle, now: nat) {
    forall k :: k in s.parked ==> Punctual(s, k, now)
  }

  /** Any call, except a resize of a parked key that does not shrink its bucket. */
  predicate NoGrowth(s: Throttle, e: Event) {
    e.call.SetQuota? && e.call.key in s.parked ==> K.Shrinks(BucketOf(s, e.call.key).cell, FromQuota(e.call.quota))
  }

  /** An armed timer is punctual, whether its head fits the bucket or never will. */
  lemma ArmedTimerIsPunctual(l: K.Limiter, now: u64, k: Key, cost: u32, x: u64)
    requires now <= x && Check(K.Entry(l, k).cell, K.Entry(l, k).tat, x, cost).Admitted?
    ensures now + Wait(l, now, k, cost) <= x
  {
    ArmedTimerIsExact(l, now, k, cost);
  }

  lemma RearmedIsPunctual(s: Throttle, now: u64, k: Key, queue: seq<Item>)
    ensures Punctual(Rearm(s, now, k, queue), k, now)
  {
    var s' := Rearm(s, now, k, queue);
    forall x: u64 | now <= x && AdmitsHead(s', k, x) ensures Fired(s', k, x) {
      ArmedTimerIsPunctual(s.limiter, now, k, queue[0].cost, x);
    }
  }

  lemma PolledIsPunctual(s: Throttle, now: u64, k: Key)
    requires Fired(s, k, now) && Queue(s, k) != []
    ensures Punctual(Step(s, At(now, PollReady(k))), k, now)
  {
    var queue, s' := Queue(s, k), Step(s, At(now, PollReady(k)));
    var v := K.Probe(s.limiter, now, k, queue[0].cost);
    if v.Refused? && v.why.TooSoon? {
      TooSoonIsTheFirstAdmission(BucketOf(s, k).cell, BucketOf(s, k).tat, now, queue[0].cost);
      EarlyPollRearmsExactly(s, now, k);
    } else {
      PollUnfolds(s, now, k);
      RearmedIsPunctual(s.(limiter := Consume(s, now, k, queue[0].cost)), now, k, queue[1..]);
    }
  }

  lemma FirstIsPunctual(s: Throttle, e: Event, k: Key)
    requires Enabled(s, e) && k !in s.parked && k in Step(s, e).parked
    ensures Punctual(Step(s, e), k, e.now)
  {
    var s', b := Step(s, e), BucketOf(s, k);
    assert s'.parked[k].queue == [Item(e.call.cost, e.call.value)] && BucketOf(s', k) == b;
    forall x: u64 | e.now <= x && AdmitsHead(s', k, x) ensures Fired(s', k, x) {
      ArmedTimerIsPunctual(s.limiter, e.now, k, e.call.cost, x);
    }
  }

  /** A send or a shrink never brings an admission forward. */
  lemma NoAdmissionComesForward(s: Throttle, e: Event, k: Key, x: u64, cost: u32)
    requires Enabled(s, e) && NoGrowth(s, e) && DebtBounded(s, e.now) && e.now <= x
    requires k in s.parked && e.call != PollReady(k) && e.call != Clear(k)
    ensures K.Probe(Step(s, e).limiter, x, k, cost).Admitted? ==> K.Probe(s.limiter, x, k, cost).Admitted?
  {
    if e.call.SetQuota? && e.call.key == k {
      ResizedBucket(s, e.now, k, e.call.quota);
      K.ShrinkAdmitsNothingEarly(BucketOf(s, k), e.now, FromQuota(e.call.quota), x, cost);
    } else {
      ShapeAfter(s, e, k);
      BacklogNeverFalls(s, e, k);
    }
  }

  lemma BystanderIsPunctual(s: Throttle, e: Event, now: nat, k: Key)
    requires Enabled(s, e) && NoGrowth(s, e) && DebtBounded(s, e.now) && now <= e.now
    requires k in s.parked && Queue(s, k) != [] && Punctual(s, k, now)
    requires e.call != PollReady(k) && e.call != Clear(k)
    ensures Punctual(Step(s, e), k, e.now)
  {
    var s', cost := Step(s, e), s.parked[k].queue[0].cost;
    assert k in s'.parked && s'.parked[k].deadline == s.parked[k].deadline;
    assert Queue(s', k) != [] && Queue(s', k)[0] == Queue(s, k)[0];
    forall x: u64 | e.now <= x && AdmitsHead(s', k, x) ensures Fired(s', k, x) {
      NoAdmissionComesForward(s, e, k, x, cost);
      assert AdmitsHead(s, k, x);
    }
  }

  lemma StepKeepsPunctual(s: Throttle, e: Event, now: nat)
    requires Enabled(s, e) && NoGrowth(s, e) && DebtBounded(s, now) && now <= e.now
    requires NoEmptyQueue(s) && AllPunctual(s, now)
    ensures AllPunctual(Step(s, e), e.now)
  {
    assert DebtBounded(s, e.now);
    forall k | k in Step(s, e).parked ensures Punctual(Step(s, e), k, e.now) {
      if k !in s.parked {
        FirstIsPunctual(s, e, k);
      } else if e.call == PollReady(k) {
        PolledIsPunctual(s, e.now, k);
      } else {
        BystanderIsPunctual(s, e, now, k);
      }
    }
  }

  ghost predicate NoGrowthRun(s: Throttle, es: seq<Event>)
    decreases |es|
  {
    Stops(s, es) || (NoGrowth(s, es[0]) && NoGrowthRun(Step(s, es[0]), es[1..]))
  }

  lemma {:induction false} RunKeepsPunctual(s: Throttle, es: seq<Event>, now: nat)
    requires IsRun(s, es) && Clocked(now, es) && NoGrowthRun(s, es)
    requires DebtBounded(s, now) && NoEmptyQueue(s) && AllPunctual(s, now)
    ensures AllPunctual(Run(s, es), ClockAfter(now, es))
    decreases |es|
  {
    if es != [] {
      var first := [es[0]];
      StepKeepsPunctual(s, es[0], now);
      StepLeavesNoEmptyQueue(s, es[0]);
      assert first[1..] == [];
      RunKeepsDebtBounded(s, first, now);
      assert Run(s, first) == Step(s, es[0]);
      RunKeepsPunctual(Step(s, es[0]), es[1..], es[0].now);
      ClockSplits(now, es);
    }
  }

  /**
   In every run of sends, enqueues, polls and clears, and of resizes that shrink
   the bucket of a parked key if they touch one, no timer is late: wherever a head
   would be admitted its timer has fired.
   */
  lemma TimersAreNeverLate(quota: Quota, es: seq<Event>, now: u64, k: Key)
    requires IsRun(Fresh(quota), es) && Clocked(0, es) && ClockAfter(0, es) <= now && NoGrowthRun(Fresh(quota), es)
    ensures var s := Run(Fresh(quota), es);
            AdmitsHead(s, k, now) ==> Fired(s, k, now)
  {
    var s := Run(Fresh(quota), es);
    RunKeepsPunctual(Fresh(quota), es, 0);
    if AdmitsHead(s, k, now) {
      assert Punctual(s, k, ClockAfter(0, es));
    }
  }

  /** A resize leaves an exact timer late exactly when the resized bucket would admit the head before it fires. */
  lemma ResizeMakesLateIff(s: Throttle, now: u64, k: Key, q: Quota)
    requires k in s.parked && TimerExact(s, k, now)
    ensures var resized := Step(s, At(now, SetQuota(k, q)));
            !Punctual(resized, k, now)
            <==> && ItemFits(Queue(s, k)[0], FromQuota(q))
                 && now + Wait(resized.limiter, now, k, Queue(s, k)[0].cost) < s.parked[k].deadline
  {
    var resized, cost := Step(s, At(now, SetQuota(k, q))), Queue(s, k)[0].cost;
    var due := now + Wait(resized.limiter, now, k, cost);
    ResizedBucket(s, now, k, q);
    WaitEndsInTime(resized.limiter, now, k, cost);
    if ItemFits(Queue(s, k)[0], FromQuota(q)) {
      ArmedTimerIsExact(resized.limiter, now, k, cost);
      assert AdmitsHead(resized, k, due);
    }
  }

  /**
   The timer is set for 60; grown at once, the bucket would admit the head at 0,
   and at 59 the timer has not fired.
   */
  lemma GrowthMakesATimerLate(k: Key, v: Value, w: Value)
    ensures var es := [At(0, Enqueue(k, 1, v)), At(0, Enqueue(k, 1, w)), At(0, SetQuota(k, Quota(100, 6000)))];
            && IsRun(Fresh(Quota(1, 60)), es)
            && var s := Run(Fresh(Quota(1, 60)), es);
               AdmitsHead(s, k, 0) && !Fired(s, k, 59)
  {
    var s0 := Fresh(Quota(1, 60));
    assert FromQuota(Quota(1, 60)) == Cell(60, 60) && FromQuota(Quota(100, 6000)) == Cell(6000, 60);
    var e1, e2, e3 := At(0, Enqueue(k, 1, v)), At(0, Enqueue(k, 1, w)), At(0, SetQuota(k, Quota(100, 6000)));
    var s1 := Step(s0, e1);
    assert K.Entry(s1.limiter, k) == K.KeyState(60, Cell(60, 60)) && k !in s1.parked;
    var s2 := Step(s1, e2);
    assert s2.parked[k] == Parked([Item(1, w)], 60) && K.Entry(s2.limiter, k) == K.KeyState(60, Cell(60, 60));
    var s3 := Step(s2, e3);
    assert K.Entry(s3.limiter, k) == K.KeyState(60, Cell(6000, 60));
    RunCons(s2, e3, [], k);
    RunCons(s1, e2, [e3] + [], k);
    RunCons(s0, e1, [e2] + ([e3] + []), k);
    assert [e1] + ([e2] + ([e3] + [])) == [e1, e2, e3];
  }
}
