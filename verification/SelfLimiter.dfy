/**
 The outbound self-throttle: a keyed limiter plus, for each key, a FIFO of parked
 requests and a timer for its head. A timer is its deadline on the limiter's clock.
 */
module SelfLimiter {
  import opened Words
  import opened Clocks
  import opened Gcra
  import opened Seqs
  import K = KeyedLimiter

  type Key = K.Key
  type Value(!new)

  datatype Item = Item(cost: u32, value: Value)

  datatype Parked = Parked(queue: seq<Item>, deadline: nat)

  datatype Throttle = Throttle(limiter: K.Limiter, parked: map<Key, Parked>)

  datatype Call =
    | TrySend(key: Key, cost: u32)
    | Enqueue(key: Key, cost: u32, value: Value)
    | PollReady(key: Key)                  // a poll that meets this key's fired timer first
    | PollIdle                             // a poll that finds no fired timer
    | SetQuota(key: Key, quota: Quota)
    | Clear(key: Key)

  type Event = Timed<Call>

  datatype Reply =
    | Sent
    | DelayUntil(wait: u64)
    | Issued(value: Value)                 // enqueue: admitted at once
    | Queued                               // enqueue: parked
    | Rejected(value: Value)               // enqueue: can never be admitted
    | Ready(key: Key, value: Value)
    | Pending
    | Nothing

  function Queue(s: Throttle, k: Key): seq<Item> {
    if k in s.parked then s.parked[k].queue else []
  }

  predicate Fired(s: Throttle, k: Key, now: nat) {
    k in s.parked && s.parked[k].deadline <= now
  }

  /** What the poll, which may meet fired timers in any order, is allowed to do. */
  ghost predicate Enabled(s: Throttle, e: Event) {
    match e.call
    case PollReady(k) => Fired(s, k, e.now)
    case PollIdle => forall k :: !Fired(s, k, e.now)
    case _ => true
  }

  function Consume(s: Throttle, now: u64, k: Key, cost: u32): K.Limiter {
    K.Step(s.limiter, At(now, K.Consume(k, cost)))
  }

  /** The time to wait before the bucket admits `cost`, zero when it need not or cannot wait. */
  function Wait(l: K.Limiter, now: u64, k: Key, cost: u32): u64 {
    match K.Probe(l, now, k, cost)
    case Refused(TooSoon(d)) => d
    case _ => 0
  }

  /** Parks `queue` for `k` and arms the timer for its head, or drops the key when nothing is left. */
  function Rearm(s: Throttle, now: u64, k: Key, queue: seq<Item>): Throttle {
    if queue == [] then s.(parked := s.parked - {k})
    else s.(parked := s.parked[k := Parked(queue, now + Wait(s.limiter, now, k, queue[0].cost))])
  }

  function Step(s: Throttle, e: Event): (s': Throttle)
    requires Enabled(s, e)
  {
    match e.call
    case TrySend(k, cost) => s.(limiter := Consume(s, e.now, k, cost))
    case Enqueue(k, cost, v) =>
      var verdict := K.Probe(s.limiter, e.now, k, cost);
      if verdict == Refused(TooLarge) then s
      else if k in s.parked then
        s.(parked := s.parked[k := s.parked[k].(queue := s.parked[k].queue + [Item(cost, v)])])
      else if verdict.Admitted? then s.(limiter := Consume(s, e.now, k, cost))
      else
        Throttle(Consume(s, e.now, k, cost), s.parked[k := Parked([Item(cost, v)], e.now + verdict.why.wait)])
    case PollReady(k) =>
      var queue := s.parked[k].queue;
      if queue == [] then s.(parked := s.parked - {k})
      else
        var s1 := s.(limiter := Consume(s, e.now, k, queue[0].cost));
        (match K.Probe(s.limiter, e.now, k, queue[0].cost)
         case Admitted(_) => Rearm(s1, e.now, k, queue[1..])
         case Refused(TooSoon(d)) => s1.(parked := s.parked[k := Parked(queue, e.now + d)])
         case Refused(TooLarge) => Rearm(s1, e.now, k, queue[1..]))
    case PollIdle => s
    case SetQuota(k, q) => s.(limiter := K.Step(s.limiter, At(e.now, K.SetQuota(k, q))))
    case Clear(k) => Throttle(K.Step(s.limiter, At(e.now, K.Clear(k))), s.parked - {k})
  }

  function Respond(s: Throttle, e: Event): Reply
    requires Enabled(s, e)
  {
    match e.call
    case TrySend(k, cost) =>
      (match K.Probe(s.limiter, e.now, k, cost)
       case Admitted(_) => Sent
       case Refused(TooSoon(d)) => DelayUntil(d)
       case Refused(TooLarge) => DelayUntil(K.Entry(s.limiter, k).cell.tau))
    case Enqueue(k, cost, v) =>
      var verdict := K.Probe(s.limiter, e.now, k, cost);
      if verdict == Refused(TooLarge) then Rejected(v)
      else if k !in s.parked && verdict.Admitted? then Issued(v)
      else Queued
    case PollReady(k) =>
      var queue := s.parked[k].queue;
      if queue != [] && K.Probe(s.limiter, e.now, k, queue[0].cost).Admitted? then Ready(k, queue[0].value)
      else Pending
    case PollIdle => Pending
    case _ => Nothing
  }

  function Fresh(quota: Quota): Throttle {
    Throttle(K.Limiter(FromQuota(quota), map[]), map[])
  }

  // ----- Runs

  ghost predicate IsRun(s: Throttle, es: seq<Event>)
    decreases |es|
  {
    es == [] || (Enabled(s, es[0]) && IsRun(Step(s, es[0]), es[1..]))
  }

  /** Where the functions below end: at the end of the calls, or at one that is not enabled. */
  ghost predicate Stops(s: Throttle, es: seq<Event>) {
    es == [] || !Enabled(s, es[0])
  }

  ghost function Run(s: Throttle, es: seq<Event>): (s': Throttle)
    decreases |es|
  {
    if Stops(s, es) then s else Run(Step(s, es[0]), es[1..])
  }

  /** The item `e` accepts for `k`, if any: handed over by the caller and not handed back. */
  function Accepts(s: Throttle, e: Event, k: Key): seq<Item>
    requires Enabled(s, e)
  {
    if e.call.Enqueue? && e.call.key == k && !Respond(s, e).Rejected? then [Item(e.call.cost, e.call.value)] else []
  }

  /** The item `e` hands out for `k`, if any: issued at once or yielded by a poll. */
  function Surfaces(s: Throttle, e: Event, k: Key): seq<Item>
    requires Enabled(s, e)
  {
    match Respond(s, e)
    case Issued(_) => if e.call.key == k then [Item(e.call.cost, e.call.value)] else []
    case Ready(key, _) => if key == k then [s.parked[k].queue[0]] else []
    case _ => []
  }

  ghost function Accepted(s: Throttle, es: seq<Event>, k: Key): seq<Item>
    decreases |es|
  {
    if Stops(s, es) then [] else Accepts(s, es[0], k) + Accepted(Step(s, es[0]), es[1..], k)
  }

  ghost function Surfaced(s: Throttle, es: seq<Event>, k: Key): seq<Item>
    decreases |es|
  {
    if Stops(s, es) then [] else Surfaces(s, es[0], k) + Surfaced(Step(s, es[0]), es[1..], k)
  }

  // ----- First in, first out, nothing twice

  /** What `e` takes out of the line of `k` without handing it to anyone. */
  function Loses(s: Throttle, e: Event, k: Key): seq<Item>
    requires Enabled(s, e)
  {
    match e.call
    case Clear(k') => if k' == k then Queue(s, k) else []
    case PollReady(k') =>
      var queue := Queue(s, k);
      if k' == k && queue != [] && K.Probe(s.limiter, e.now, k, queue[0].cost) == Refused(TooLarge)
      then [queue[0]] else []
    case _ => []
  }

  /** A poll that need not wait takes out the head and arms the timer for the next. */
  lemma PollUnfolds(s: Throttle, now: u64, k: Key)
    requires Fired(s, k, now) && Queue(s, k) != []
    requires var v := K.Probe(s.limiter, now, k, Queue(s, k)[0].cost); v.Refused? ==> v.why == TooLarge
    ensures var queue := Queue(s, k);
            Step(s, At(now, PollReady(k)))
            == Rearm(s.(limiter := Consume(s, now, k, queue[0].cost)), now, k, queue[1..])
  {
  }

  lemma PollMovesTheLine(s: Throttle, now: u64, k: Key)
    requires Fired(s, k, now)
    ensures var e := At(now, PollReady(k));
            Queue(s, k) == Loses(s, e, k) + (Surfaces(s, e, k) + Queue(Step(s, e), k))
  {
    var e, q := At(now, PollReady(k)), Queue(s, k);
    if q != [] && (var v := K.Probe(s.limiter, now, k, q[0].cost); v.Admitted? || v.why.TooLarge?) {
      PollUnfolds(s, now, k);
      assert q == [q[0]] + q[1..];
      assert Loses(s, e, k) + Surfaces(s, e, k) == [q[0]];
      Assoc(Loses(s, e, k), Surfaces(s, e, k), q[1..]);
    }
  }

  lemma EnqueueMovesTheLine(s: Throttle, e: Event)
    requires e.call.Enqueue?
    ensures var k := e.call.key; Queue(s, k) + Accepts(s, e, k) == Surfaces(s, e, k) + Queue(Step(s, e), k)
  {
    var k, item := e.call.key, Item(e.call.cost, e.call.value);
    if Respond(s, e).Rejected? {
      assert Accepts(s, e, k) == [] && Surfaces(s, e, k) == [];
    } else if k in s.parked {
      assert Queue(Step(s, e), k) == Queue(s, k) + [item];
    } else {
      assert Queue(s, k) == [];
    }
  }

  /**
   A request is handed back exactly when its cost is above the bucket's capacity.
   One that fits is issued exactly when nothing is parked ahead of it and the
   bucket admits it now, and is queued otherwise.
   */
  lemma EnqueueReplies(s: Throttle, now: u64, k: Key, cost: u32, v: Value)
    ensures var reply, bucket := Respond(s, At(now, Enqueue(k, cost, v))), K.Entry(s.limiter, k);
            var fits := Cost(bucket.cell, cost) <= bucket.cell.tau;
            var admitted := Check(bucket.cell, bucket.tat, now, cost).Admitted?;
            && (reply == Rejected(v) <==> !fits)
            && (reply == Issued(v) <==> fits && k !in s.parked && admitted)
            && (reply == Queued <==> fits && (k in s.parked || !admitted))
  {
  }

  /**
   A handed-back request leaves no trace, an issued one is charged and never
   enters the line, a queued one becomes the last of the line and is not charged.
   */
  lemma EnqueueTakesEffect(s: Throttle, now: u64, k: Key, cost: u32, v: Value)
    ensures var e, bucket := At(now, Enqueue(k, cost, v)), K.Entry(s.limiter, k);
            var reply, s' := Respond(s, e), Step(s, e);
            && (reply.Rejected? ==> s' == s)
            && (reply.Issued? ==>
                  && s'.parked == s.parked
                  && SpendsExactly(bucket, K.Entry(s'.limiter, k), now, Cost(bucket.cell, cost)))
            && (reply.Queued? ==>
                  && Queue(s', k) == Queue(s, k) + [Item(cost, v)]
                  && K.Entry(s'.limiter, k) == bucket
                  && (k in s.parked ==> s'.parked[k].deadline == s.parked[k].deadline))
  {
    var e := At(now, Enqueue(k, cost, v));
    if Respond(s, e).Queued? && k !in s.parked {
      assert Queue(Step(s, e), k) == [] + [Item(cost, v)];
    }
  }

  /** The bucket goes from `b` to `b'` by admitting `cost` at `now`, on a clock that does not overflow. */
  predicate SpendsExactly(b: K.KeyState, b': K.KeyState, now: u64, cost: u64) {
    && b'.cell == b.cell
    && (InRange(b.cell, now) ==> K.CreditOf(b', now) == K.CreditOf(b, now) - cost)
  }

  /** A send goes out exactly when the bucket admits it, is charged exactly then, and never touches a parked line. */
  lemma SendReplies(s: Throttle, now: u64, k: Key, cost: u32)
    ensures var e, bucket := At(now, TrySend(k, cost)), K.Entry(s.limiter, k);
            var s', admitted := Step(s, e), Check(bucket.cell, bucket.tat, now, cost).Admitted?;
            && (Respond(s, e) == Sent <==> admitted)
            && s'.parked == s.parked
            && SpendsExactly(bucket, K.Entry(s'.limiter, k), now, if admitted then Cost(bucket.cell, cost) else 0)
  {
    var bucket := K.Entry(s.limiter, k);
    if InRange(bucket.cell, now) {
      CheckSpendsCredit(bucket.cell, bucket.tat, now, cost);
    }
  }

  /**
   A poll that meets a fired timer yields the head exactly when its bucket admits
   it, charging it then. An admitted or an oversized head leaves the line, and a
   head that must still wait stays with its timer set to the end of the wait. The
   key is forgotten exactly when its line is empty.
   */
  lemma PollReplies(s: Throttle, now: u64, k: Key)
    requires Fired(s, k, now) && Queue(s, k) != []
    ensures var e, bucket, queue := At(now, PollReady(k)), K.Entry(s.limiter, k), Queue(s, k);
            var s', cost := Step(s, e), Cost(bucket.cell, queue[0].cost);
            var admitted := Check(bucket.cell, bucket.tat, now, queue[0].cost).Admitted?;
            && Respond(s, e) == (if admitted then Ready(k, queue[0].value) else Pending)
            && Queue(s', k) == (if admitted || cost > bucket.cell.tau then queue[1..] else queue)
            && (k in s'.parked <==> Queue(s', k) != [])
            && SpendsExactly(bucket, K.Entry(s'.limiter, k), now, if admitted then cost else 0)
  {
    var bucket, cost := K.Entry(s.limiter, k), Queue(s, k)[0].cost;
    if InRange(bucket.cell, now) {
      CheckSpendsCredit(bucket.cell, bucket.tat, now, cost);
    }
    if (var v := K.Probe(s.limiter, now, k, cost); v.Admitted? || v.why.TooLarge?) {
      PollUnfolds(s, now, k);
    }
  }

  /** A clear empties the line of its key and gives it a fresh bucket; a call for one key leaves all others alone. */
  lemma CallsStayWithTheirKey(s: Throttle, e: Event, k: Key)
    requires Enabled(s, e)
    ensures e.call == Clear(k) ==>
              k !in Step(s, e).parked && K.Entry(Step(s, e).limiter, k) == K.KeyState(0, s.limiter.cell)
    ensures e.call.PollIdle? || e.call.key != k ==>
              && K.Entry(Step(s, e).limiter, k) == K.Entry(s.limiter, k)
              && (k in Step(s, e).parked <==> k in s.parked)
              && (k in s.parked ==> Step(s, e).parked[k] == s.parked[k])
  {
  }

  /** One event moves the line of `k` forward: items join at the back and leave from the front. */
  lemma StepMovesTheLine(s: Throttle, e: Event, k: Key)
    requires Enabled(s, e)
    ensures Queue(s, k) + Accepts(s, e, k) == Loses(s, e, k) + (Surfaces(s, e, k) + Queue(Step(s, e), k))
  {
    if e.call == PollReady(k) {
      PollMovesTheLine(s, e.now, k);
    } else if e.call.Enqueue? && e.call.key == k {
      EnqueueMovesTheLine(s, e);
    } else {
      assert Surfaces(s, e, k) == [] && Accepts(s, e, k) == [];
    }
  }

  lemma {:induction false} SurfacesInOrder(s: Throttle, es: seq<Event>, k: Key)
    requires IsRun(s, es)
    ensures Subseq(Surfaced(s, es, k) + Queue(Run(s, es), k), Queue(s, k) + Accepted(s, es, k))
    decreases |es|
  {
    if es == [] {
      SubseqRefl(Queue(s, k));
      assert Surfaced(s, es, k) + Queue(Run(s, es), k) == Queue(s, k) == Queue(s, k) + Accepted(s, es, k);
    } else {
      var e, s' := es[0], Step(s, es[0]);
      SurfacesInOrder(s', es[1..], k);
      StepMovesTheLine(s, e, k);
      LineStep(Queue(s, k), Accepts(s, e, k), Accepted(s', es[1..], k), Surfaces(s, e, k), Queue(s', k),
               Surfaced(s', es[1..], k), Queue(Run(s', es[1..]), k), Loses(s, e, k));
    }
  }

  ghost predicate AllFit(items: seq<Item>, cell: Cell) {
    forall i :: 0 <= i < |items| ==> ItemFits(items[i], cell)
  }

  /** Every item parked for `k` still fits its bucket. */
  ghost predicate Fits(s: Throttle, k: Key) {
    AllFit(Queue(s, k), K.Entry(s.limiter, k).cell)
  }

  lemma SplitFits(front: seq<Item>, back: seq<Item>, cell: Cell)
    ensures AllFit(front + back, cell) <==> AllFit(front, cell) && AllFit(back, cell)
  {
    forall i | AllFit(front + back, cell) && 0 <= i < |front| ensures ItemFits(front[i], cell) {
      assert (front + back)[i] == front[i];
    }
    forall i | AllFit(front + back, cell) && 0 <= i < |back| ensures ItemFits(back[i], cell) {
      assert (front + back)[|front| + i] == back[i];
    }
  }

  predicate ItemFits(item: Item, cell: Cell) {
    Cost(cell, item.cost) <= cell.tau
  }

  /** The run neither clears `k` nor shrinks its quota below the cost of something parked. */
  ghost predicate Lossless(s: Throttle, es: seq<Event>, k: Key)
    decreases |es|
  {
    Stops(s, es) || (LosslessStep(s, es[0], k) && Lossless(Step(s, es[0]), es[1..], k))
  }

  ghost predicate LosslessStep(s: Throttle, e: Event, k: Key) {
    && e.call != Clear(k)
    && (e.call.SetQuota? && e.call.key == k ==> AllFit(Queue(s, k), FromQuota(e.call.quota)))
  }

  /** Only `set_quota` and `clear` change the shape of a bucket. */
  lemma ShapeAfter(s: Throttle, e: Event, k: Key)
    requires Enabled(s, e) && e.call != Clear(k)
    ensures K.Entry(Step(s, e).limiter, k).cell
            == if e.call.SetQuota? && e.call.key == k then FromQuota(e.call.quota) else K.Entry(s.limiter, k).cell
  {
  }

  lemma StepKeepsFits(s: Throttle, e: Event, k: Key)
    requires Enabled(s, e) && Fits(s, k) && LosslessStep(s, e, k)
    ensures Loses(s, e, k) == []
    ensures Fits(Step(s, e), k)
  {
    StepMovesTheLine(s, e, k);
    ShapeAfter(s, e, k);
    var q, q', cell' := Queue(s, k), Queue(Step(s, e), k), K.Entry(Step(s, e).limiter, k).cell;
    HeadIsNotLost(s, e, k);
    AcceptedFits(s, e, k);
    SplitFits(q, Accepts(s, e, k), cell');
    SplitFits(Surfaces(s, e, k), q', cell');
  }

  lemma HeadIsNotLost(s: Throttle, e: Event, k: Key)
    requires Enabled(s, e) && Fits(s, k) && e.call != Clear(k)
    ensures Loses(s, e, k) == []
  {
    if Queue(s, k) != [] {
      assert ItemFits(Queue(s, k)[0], K.Entry(s.limiter, k).cell);
    }
  }

  lemma AcceptedFits(s: Throttle, e: Event, k: Key)
    requires Enabled(s, e)
    ensures AllFit(Accepts(s, e, k), K.Entry(s.limiter, k).cell)
  {
  }

  /**
   Without a clear or a shrink below a parked cost, nothing is lost: surfaced, then
   parked, is all that was accepted.
   */
  lemma {:induction false} NothingIsLost(s: Throttle, es: seq<Event>, k: Key)
    requires IsRun(s, es) && Fits(s, k) && Lossless(s, es, k)
    ensures Surfaced(s, es, k) + Queue(Run(s, es), k) == Queue(s, k) + Accepted(s, es, k)
    decreases |es|
  {
    if es != [] {
      var e, s' := es[0], Step(s, es[0]);
      StepKeepsFits(s, e, k);
      StepMovesTheLine(s, e, k);
      NothingIsLost(s', es[1..], k);
      WholeLineStep(Queue(s, k), Accepts(s, e, k), Accepted(s', es[1..], k), Surfaces(s, e, k), Queue(s', k),
                    Surfaced(s', es[1..], k), Queue(Run(s', es[1..]), k));
    }
  }

  /** From a fresh throttle: surfaced then parked is a subsequence of accepted, and all of it in a lossless run. */
  lemma FifoConservation(quota: Quota, es: seq<Event>, k: Key)
    requires IsRun(Fresh(quota), es)
    ensures Subseq(Surfaced(Fresh(quota), es, k) + Queue(Run(Fresh(quota), es), k), Accepted(Fresh(quota), es, k))
    ensures Lossless(Fresh(quota), es, k) ==>
              Surfaced(Fresh(quota), es, k) + Queue(Run(Fresh(quota), es), k) == Accepted(Fresh(quota), es, k)
  {
    var s := Fresh(quota);
    assert Queue(s, k) + Accepted(s, es, k) == Accepted(s, es, k);
    SurfacesInOrder(s, es, k);
    if Lossless(s, es, k) {
      NothingIsLost(s, es, k);
    }
  }

  ghost function LostCount(s: Throttle, es: seq<Event>, k: Key): nat
    decreases |es|
  {
    if Stops(s, es) then 0 else |Loses(s, es[0], k)| + LostCount(Step(s, es[0]), es[1..], k)
  }

  /**
   Exact bookkeeping in every run: accepted items surface, stay parked, or are lost
   by a clear or an oversized head.
   */
  lemma {:induction false} EveryItemIsAccountedFor(s: Throttle, es: seq<Event>, k: Key)
    requires IsRun(s, es)
    ensures |Queue(s, k)| + |Accepted(s, es, k)|
            == |Surfaced(s, es, k)| + |Queue(Run(s, es), k)| + LostCount(s, es, k)
    decreases |es|
  {
    if es != [] {
      StepMovesTheLine(s, es[0], k);
      var line := Queue(s, k) + Accepts(s, es[0], k);
      assert |line| == |Loses(s, es[0], k) + (Surfaces(s, es[0], k) + Queue(Step(s, es[0]), k))|;
      EveryItemIsAccountedFor(Step(s, es[0]), es[1..], k);
    }
  }

  /** A shrink does not merely make a parked item wait: once its cost exceeds the new capacity the poll drops it. */
  lemma ShrinkDropsAParkedHead(s: Throttle, now: u64, k: Key, q: Quota)
    requires Fired(s, k, now) && Queue(s, k) != [] && !ItemFits(Queue(s, k)[0], FromQuota(q))
    ensures var shrunk := Step(s, At(now, SetQuota(k, q)));
            var poll := At(now, PollReady(k));
            && Respond(shrunk, poll) == Pending
            && Loses(shrunk, poll, k) == [Queue(s, k)[0]]
            && Queue(Step(shrunk, poll), k) == Queue(s, k)[1..]
  {
    var shrunk := Step(s, At(now, SetQuota(k, q)));
    assert K.Entry(shrunk.limiter, k).cell == FromQuota(q);
  }

  // ----- When a resize only delays

  /** Calls other than a clear or a resize of `k`. */
  predicate LeavesQuota(e: Event, k: Key) {
    e.call != Clear(k) && (e.call.SetQuota? ==> e.call.key != k)
  }

  /** No later run of such calls loses an item of `k`. */
  ghost predicate NeverLoses(s: Throttle, k: Key, now: nat) {
    forall es :: IsRun(s, es) && Clocked(now, es) && (forall i :: 0 <= i < |es| ==> LeavesQuota(es[i], k))
                 ==> LostCount(s, es, k) == 0
  }

  lemma {:induction false} FittingIsNeverLost(s: Throttle, es: seq<Event>, k: Key)
    requires IsRun(s, es) && Fits(s, k) && forall i :: 0 <= i < |es| ==> LeavesQuota(es[i], k)
    ensures LostCount(s, es, k) == 0
    decreases |es|
  {
    if es != [] {
      assert LeavesQuota(es[0], k);
      StepKeepsFits(s, es[0], k);
      forall i | 0 <= i < |es[1..]| ensures LeavesQuota(es[1..][i], k) {
        assert es[1..][i] == es[i + 1];
      }
      FittingIsNeverLost(Step(s, es[0]), es[1..], k);
    }
  }

  /** At the top of the clock nothing has to wait: a charge is admitted or can never be. */
  lemma NoWaitAtTheTop(cell: Cell, tat: u64, n: u32)
    ensures Check(cell, tat, U64_MAX, n).Admitted? <==> Cost(cell, n) <= cell.tau
    ensures Check(cell, tat, U64_MAX, n).Refused? ==> Check(cell, tat, U64_MAX, n).why == TooLarge
  {
  }

  /** No wait reaches past the top of the clock. */
  lemma WaitEndsInTime(l: K.Limiter, now: u64, k: Key, cost: u32)
    ensures now + Wait(l, now, k, cost) <= U64_MAX
  {
    var b := K.Entry(l, k);
    if Check(b.cell, b.tat, now, cost).Refused? && Check(b.cell, b.tat, now, cost).why.TooSoon? {
      TooSoonIsTheFirstAdmission(b.cell, b.tat, now, cost);
    }
  }

  lemma RearmEndsInTime(s: Throttle, now: u64, k: Key, queue: seq<Item>)
    ensures Queue(Rearm(s, now, k, queue), k) == queue
    ensures queue != [] ==> Fired(Rearm(s, now, k, queue), k, U64_MAX)
  {
    if queue != [] {
      WaitEndsInTime(s.limiter, now, k, queue[0].cost);
    }
  }

  /** So a poll there takes out the head: surfaced if it fits, lost if not. */
  lemma LastPollTakesTheHead(s: Throttle, k: Key)
    requires Fired(s, k, U64_MAX) && Queue(s, k) != []
    ensures var poll := At(U64_MAX, PollReady(k));
            var s' := Step(s, poll);
            && Queue(s', k) == Queue(s, k)[1..]
            && K.Entry(s'.limiter, k).cell == K.Entry(s.limiter, k).cell
            && (Queue(s', k) != [] ==> Fired(s', k, U64_MAX))
            && (!ItemFits(Queue(s, k)[0], K.Entry(s.limiter, k).cell) ==> Loses(s, poll, k) == [Queue(s, k)[0]])
  {
    var queue, b := Queue(s, k), K.Entry(s.limiter, k);
    NoWaitAtTheTop(b.cell, b.tat, queue[0].cost);
    PollUnfolds(s, U64_MAX, k);
    RearmEndsInTime(s.(limiter := Consume(s, U64_MAX, k, queue[0].cost)), U64_MAX, k, queue[1..]);
    ShapeAfter(s, At(U64_MAX, PollReady(k)), k);
  }

  lemma {:induction false} PollsLoseAMisfit(s: Throttle, k: Key) returns (es: seq<Event>)
    requires Fired(s, k, U64_MAX) && !Fits(s, k)
    ensures IsRun(s, es) && Clocked(U64_MAX, es) && (forall i :: 0 <= i < |es| ==> es[i] == At(U64_MAX, PollReady(k)))
    ensures LostCount(s, es, k) > 0
    decreases |Queue(s, k)|
  {
    var queue, cell, poll := Queue(s, k), K.Entry(s.limiter, k).cell, At(U64_MAX, PollReady(k));
    LastPollTakesTheHead(s, k);
    var rest: seq<Event> := [];
    if ItemFits(queue[0], cell) {
      assert queue == [queue[0]] + queue[1..];
      SplitFits([queue[0]], queue[1..], cell);
      rest := PollsLoseAMisfit(Step(s, poll), k);
    }
    es := [poll] + rest;
    assert es[1..] == rest;
  }

  /** Exactly the queues whose every item fits the bucket are safe from later losses. */
  lemma NeverLosesIff(s: Throttle, k: Key, now: u64)
    requires k in s.parked ==> s.parked[k].deadline <= U64_MAX
    ensures NeverLoses(s, k, now) <==> Fits(s, k)
  {
    if Fits(s, k) {
      forall es | IsRun(s, es) && Clocked(now, es) && (forall i :: 0 <= i < |es| ==> LeavesQuota(es[i], k))
        ensures LostCount(s, es, k) == 0
      {
        FittingIsNeverLost(s, es, k);
      }
    } else {
      var es := PollsLoseAMisfit(s, k);
      ClockedSooner(now, U64_MAX, es);
      assert forall i :: 0 <= i < |es| ==> LeavesQuota(es[i], k);
    }
  }

  /** Every timer is set to an instant the clock can reach. */
  ghost predicate DeadlinesFit(s: Throttle) {
    forall k :: k in s.parked ==> s.parked[k].deadline <= U64_MAX
  }

  lemma {:induction false} RunKeepsDeadlines(s: Throttle, es: seq<Event>)
    requires IsRun(s, es) && DeadlinesFit(s)
    ensures DeadlinesFit(Run(s, es))
    decreases |es|
  {
    if es != [] {
      StepKeepsDeadlines(s, es[0]);
      RunKeepsDeadlines(Step(s, es[0]), es[1..]);
    }
  }

  lemma StepKeepsDeadlines(s: Throttle, e: Event)
    requires Enabled(s, e) && DeadlinesFit(s)
    ensures DeadlinesFit(Step(s, e))
  {
    forall k | k in Step(s, e).parked ensures Step(s, e).parked[k].deadline <= U64_MAX {
      if e.call == PollReady(k) {
        PollSetsDeadline(s, e.now, k);
      } else if k !in s.parked {
        WaitEndsInTime(s.limiter, e.now, k, e.call.cost);
        assert Step(s, e).parked[k].deadline == e.now + Wait(s.limiter, e.now, k, e.call.cost);
      } else {
        assert Step(s, e).parked[k].deadline == s.parked[k].deadline;
      }
    }
  }

  lemma PollSetsDeadline(s: Throttle, now: u64, k: Key)
    requires Fired(s, k, now)
    ensures Queue(Step(s, At(now, PollReady(k))), k) != [] ==> Fired(Step(s, At(now, PollReady(k))), k, U64_MAX)
  {
    var queue := Queue(s, k);
    if queue != [] {
      var s1 := s.(limiter := Consume(s, now, k, queue[0].cost));
      RearmEndsInTime(s1, now, k, queue[1..]);
      WaitEndsInTime(s.limiter, now, k, queue[0].cost);
    }
  }

  /**
   After any run, a resize costs a key none of its parked items, in any later run
   without a further resize or a clear, if and only if every parked cost fits the
   new capacity.
   */
  lemma ResizeLosesNothingIff(quota: Quota, es: seq<Event>, now: u64, k: Key, q: Quota)
    requires IsRun(Fresh(quota), es)
    ensures var s := Run(Fresh(quota), es);
            NeverLoses(Step(s, At(now, SetQuota(k, q))), k, now) <==> AllFit(Queue(s, k), FromQuota(q))
  {
    var s := Run(Fresh(quota), es);
    var resized := Step(s, At(now, SetQuota(k, q)));
    RunKeepsDeadlines(Fresh(quota), es);
    ShapeAfter(s, At(now, SetQuota(k, q)), k);
    NeverLosesIff(resized, k, now);
  }

  ghost predicate NoEmptyQueue(s: Throttle) {
    forall k :: k in s.parked ==> s.parked[k].queue != []
  }

  /** No call ever leaves a key parked without items, so the poll's empty-queue branch is dead in every run. */
  lemma {:induction false} QueuesAreNeverEmpty(s: Throttle, es: seq<Event>)
    requires IsRun(s, es) && NoEmptyQueue(s)
    ensures NoEmptyQueue(Run(s, es))
    decreases |es|
  {
    if es != [] {
      StepLeavesNoEmptyQueue(s, es[0]);
      QueuesAreNeverEmpty(Step(s, es[0]), es[1..]);
    }
  }

  lemma StepLeavesNoEmptyQueue(s: Throttle, e: Event)
    requires Enabled(s, e) && NoEmptyQueue(s)
    ensures NoEmptyQueue(Step(s, e))
  {
  }

  // ----- What surfaces is what the bucket was charged for

  /** The state-changing calls `e` makes on the wrapped limiter. */
  function Calls(s: Throttle, e: Event): seq<K.Event>
    requires Enabled(s, e)
  {
    match e.call
    case TrySend(k, cost) => [At(e.now, K.Consume(k, cost))]
    case Enqueue(k, cost, v) =>
      if Respond(s, e).Rejected? || k in s.parked then [] else [At(e.now, K.Consume(k, cost))]
    case PollReady(k) =>
      if s.parked[k].queue == [] then [] else [At(e.now, K.Consume(k, s.parked[k].queue[0].cost))]
    case PollIdle => []
    case SetQuota(k, q) => [At(e.now, K.SetQuota(k, q))]
    case Clear(k) => [At(e.now, K.Clear(k))]
  }

  ghost function AllCalls(s: Throttle, es: seq<Event>): seq<K.Event>
    decreases |es|
  {
    if Stops(s, es) then [] else Calls(s, es[0]) + AllCalls(Step(s, es[0]), es[1..])
  }

  /** Cost of the value `e` hands out for `k`, or of its successful send, counted at instants in `[a, b]`. */
  function SentBy(s: Throttle, e: Event, k: Key, a: nat, b: nat): nat
    requires Enabled(s, e)
  {
    var cell := K.Entry(s.limiter, k).cell;
    if !(a <= e.now <= b) then 0
    else if Surfaces(s, e, k) != [] then Cost(cell, Surfaces(s, e, k)[0].cost)
    else if e.call.TrySend? && e.call.key == k && Respond(s, e).Sent? then Cost(cell, e.call.cost)
    else 0
  }

  ghost function SentCost(s: Throttle, es: seq<Event>, k: Key, a: nat, b: nat): nat
    decreases |es|
  {
    if Stops(s, es) then 0 else SentBy(s, es[0], k, a, b) + SentCost(Step(s, es[0]), es[1..], k, a, b)
  }

  lemma StepFollowsCalls(s: Throttle, e: Event)
    requires Enabled(s, e)
    ensures |Calls(s, e)| <= 1
    ensures Step(s, e).limiter == if Calls(s, e) == [] then s.limiter else K.Step(s.limiter, Calls(s, e)[0])
  {
  }

  lemma StepPaysForWhatItSends(s: Throttle, e: Event, k: Key, a: nat, b: nat)
    requires Enabled(s, e)
    ensures SentBy(s, e, k, a, b) == if Calls(s, e) == [] then 0 else K.AdmittedBy(s.limiter, Calls(s, e)[0], k, a, b)
  {
  }

  lemma CallsInFront(l: K.Limiter, calls: seq<K.Event>, rest: seq<K.Event>, k: Key, a: nat, b: nat)
    requires |calls| <= 1
    ensures var l' := if calls == [] then l else K.Step(l, calls[0]);
            && K.Run(l, calls + rest) == K.Run(l', rest)
            && K.AdmittedFor(l, calls + rest, k, a, b)
               == (if calls == [] then 0 else K.AdmittedBy(l, calls[0], k, a, b)) + K.AdmittedFor(l', rest, k, a, b)
  {
    if calls == [] {
      assert calls + rest == rest;
    } else {
      assert (calls + rest)[0] == calls[0] && (calls + rest)[1..] == rest;
    }
  }

  /**
   In every window, the cost the wrapped limiter charged to `k` is exactly the
   cost of what surfaced for it and of its successful sends: each surfaced value
   is paid for once, and nothing else is.
   */
  lemma {:induction false} SurfacedIsPaidForOnce(s: Throttle, es: seq<Event>, k: Key, a: nat, b: nat)
    ensures Run(s, es).limiter == K.Run(s.limiter, AllCalls(s, es))
    ensures SentCost(s, es, k, a, b) == K.AdmittedFor(s.limiter, AllCalls(s, es), k, a, b)
    decreases |es|
  {
    if !Stops(s, es) {
      var e, s' := es[0], Step(s, es[0]);
      SurfacedIsPaidForOnce(s', es[1..], k, a, b);
      StepFollowsCalls(s, e);
      StepPaysForWhatItSends(s, e, k, a, b);
      CallsInFront(s.limiter, Calls(s, e), AllCalls(s', es[1..]), k, a, b);
    }
  }

  /** `k` keeps its quota and backlog, and its charges happen with the clock clear of the top of `u64`. */
  predicate SteadyEvent(e: Event, k: Key, cell: Cell) {
    match e.call
    case SetQuota(k', q) => k' == k ==> FromQuota(q) == cell
    case Clear(k') => k' != k
    case PollIdle => true
    case _ => e.call.key == k ==> InRange(cell, e.now)
  }

  lemma {:induction false} SteadyCalls(s: Throttle, es: seq<Event>, k: Key, cell: Cell, clock: nat)
    requires IsRun(s, es) && Clocked(clock, es) && K.Entry(s.limiter, k).cell == cell
    requires forall i :: 0 <= i < |es| ==> SteadyEvent(es[i], k, cell)
    ensures K.FixedQuota(s.limiter, AllCalls(s, es), k, cell)
    ensures Clocked(clock, AllCalls(s, es))
    decreases |es|
  {
    if es != [] {
      var e, s' := es[0], Step(s, es[0]);
      assert SteadyEvent(e, k, cell);
      forall i | 0 <= i < |es[1..]| ensures SteadyEvent(es[1..][i], k, cell) {
        assert es[1..][i] == es[i + 1];
      }
      ShapeAfter(s, e, k);
      SteadyCalls(s', es[1..], k, cell, e.now);
      StepFollowsCalls(s, e);
      var calls, rest := Calls(s, e), AllCalls(s', es[1..]);
      if calls == [] {
        assert calls + rest == rest;
        ClockedSooner(clock, e.now, rest);
      } else {
        assert (calls + rest)[1..] == rest;
      }
    }
  }

  /** The throttle does its job: what goes out to a peer in a window stays within the window's allowance. */
  lemma OutboundWindowBound(s: Throttle, es: seq<Event>, k: Key, a: nat, b: nat)
    requires IsRun(s, es) && Clocked(0, es) && a <= b
    requires forall i :: 0 <= i < |es| ==> SteadyEvent(es[i], k, K.Entry(s.limiter, k).cell)
    ensures SentCost(s, es, k, a, b) <= (b - a) + K.Entry(s.limiter, k).cell.tau
  {
    var cell := K.Entry(s.limiter, k).cell;
    SurfacedIsPaidForOnce(s, es, k, a, b);
    SteadyCalls(s, es, k, cell, 0);
    K.KeyWindowBound(s.limiter, AllCalls(s, es), k, a, b);
  }

  /** The hint of a refused send is exact; for a cost above capacity it is the key's full interval, at every instant. */
  lemma SendHintIsExact(s: Throttle, now: u64, k: Key, cost: u32, later: u64)
    requires now <= later && Respond(s, At(now, TrySend(k, cost))).DelayUntil?
    ensures var d, cell := Respond(s, At(now, TrySend(k, cost))).wait, K.Entry(s.limiter, k).cell;
            if Cost(cell, cost) <= cell.tau
            then Respond(s, At(later, TrySend(k, cost))) == Sent <==> now + d <= later
            else d == cell.tau && Respond(s, At(later, TrySend(k, cost))) == DelayUntil(cell.tau)
  {
    var b := K.Entry(s.limiter, k);
    if Cost(b.cell, cost) <= b.cell.tau {
      TooSoonIsTheFirstAdmission(b.cell, b.tat, now, cost);
    }
  }

  // ----- Timers fire exactly when the head can go

  /** From `now` on, a bucket in state `bucket` admits `cost` exactly at the instants from `deadline` on. */
  ghost predicate DeadlineExact(bucket: K.KeyState, cost: u32, deadline: nat, now: nat) {
    forall x: u64 :: now <= x ==> (deadline <= x <==> Check(bucket.cell, bucket.tat, x, cost).Admitted?)
  }

  /** From `now` on, the timer of `k` has fired exactly at the instants at which its head is admitted. */
  ghost predicate TimerExact(s: Throttle, k: Key, now: nat)
    requires k in s.parked
  {
    && s.parked[k].queue != []
    && Fits(s, k)
    && DeadlineExact(K.Entry(s.limiter, k), s.parked[k].queue[0].cost, s.parked[k].deadline, now)
  }

  ghost predicate TimersExact(s: Throttle, now: nat) {
    forall k :: k in s.parked ==> TimerExact(s, k, now)
  }

  /** The call leaves the bucket behind every timer alone: no parked key is charged by a send or given another quota. */
  predicate Orderly(s: Throttle, e: Event) {
    match e.call
    case TrySend(k, cost) => k in s.parked ==> K.Probe(s.limiter, e.now, k, cost).Refused?
    case SetQuota(k, q) => k in s.parked ==> FromQuota(q) == K.Entry(s.limiter, k).cell
    case _ => true
  }

  ghost predicate OrderlyRun(s: Throttle, es: seq<Event>)
    decreases |es|
  {
    Stops(s, es) || (Orderly(s, es[0]) && OrderlyRun(Step(s, es[0]), es[1..]))
  }

  lemma ArmedTimerIsExact(l: K.Limiter, now: u64, k: Key, cost: u32)
    requires Cost(K.Entry(l, k).cell, cost) <= K.Entry(l, k).cell.tau
    ensures DeadlineExact(K.Entry(l, k), cost, now + Wait(l, now, k, cost), now)
  {
    var s := K.Entry(l, k);
    var v := Check(s.cell, s.tat, now, cost);
    if v.Refused? {
      TooSoonIsTheFirstAdmission(s.cell, s.tat, now, cost);
    }
  }

  lemma RearmedTimerIsExact(s: Throttle, now: u64, k: Key, queue: seq<Item>)
    requires AllFit(queue, K.Entry(s.limiter, k).cell)
    ensures k in Rearm(s, now, k, queue).parked ==> TimerExact(Rearm(s, now, k, queue), k, now)
  {
    if queue != [] {
      assert ItemFits(queue[0], K.Entry(s.limiter, k).cell);
      ArmedTimerIsExact(s.limiter, now, k, queue[0].cost);
    }
  }

  /** Under exact timers a fired timer always yields its head: the fail-safe branches of the poll are dead. */
  lemma FiredTimerYields(s: Throttle, now: u64, k: Key)
    requires TimersExact(s, now) && Fired(s, k, now)
    ensures Queue(s, k) != [] && Respond(s, At(now, PollReady(k))) == Ready(k, Queue(s, k)[0].value)
  {
    assert TimerExact(s, k, now);
  }

  lemma BystanderTimerStaysExact(s: Throttle, e: Event, now: nat, k: Key)
    requires Enabled(s, e) && Orderly(s, e) && now <= e.now && k in s.parked && TimerExact(s, k, now)
    requires e.call != PollReady(k) && k in Step(s, e).parked
    ensures TimerExact(Step(s, e), k, e.now)
  {
    var s' := Step(s, e);
    StepKeepsFits(s, e, k);
    assert K.Entry(s'.limiter, k) == K.Entry(s.limiter, k);
    assert s'.parked[k].deadline == s.parked[k].deadline;
    assert s'.parked[k].queue[0] == s.parked[k].queue[0];
  }

  lemma ServedTimerIsExact(s: Throttle, now: u64, k: Key)
    requires k in s.parked && TimerExact(s, k, now)
    ensures var queue := s.parked[k].queue;
            var s' := Rearm(s.(limiter := Consume(s, now, k, queue[0].cost)), now, k, queue[1..]);
            k in s'.parked ==> TimerExact(s', k, now)
  {
    var queue := s.parked[k].queue;
    var s1 := s.(limiter := Consume(s, now, k, queue[0].cost));
    var cell := K.Entry(s1.limiter, k).cell;
    assert cell == K.Entry(s.limiter, k).cell;
    assert queue == [queue[0]] + queue[1..];
    SplitFits([queue[0]], queue[1..], cell);
    RearmedTimerIsExact(s1, now, k, queue[1..]);
  }

  lemma FirstTimerIsExact(s: Throttle, e: Event, k: Key)
    requires Enabled(s, e) && Orderly(s, e) && k !in s.parked && k in Step(s, e).parked
    ensures TimerExact(Step(s, e), k, e.now)
  {
    var s' := Step(s, e);
    assert s'.parked[k].queue == [Item(e.call.cost, e.call.value)];
    assert K.Entry(s'.limiter, k) == K.Entry(s.limiter, k);
    ArmedTimerIsExact(s.limiter, e.now, k, e.call.cost);
  }

  lemma TimerExactLater(s: Throttle, k: Key, now: nat, later: nat)
    requires k in s.parked && TimerExact(s, k, now) && now <= later
    ensures TimerExact(s, k, later)
  {
  }

  lemma StepKeepsTimersExact(s: Throttle, e: Event, now: nat)
    requires Enabled(s, e) && Orderly(s, e) && now <= e.now && TimersExact(s, now)
    ensures TimersExact(Step(s, e), e.now)
  {
    forall k | k in Step(s, e).parked ensures TimerExact(Step(s, e), k, e.now) {
      if k !in s.parked {
        FirstTimerIsExact(s, e, k);
      } else if e.call == PollReady(k) {
        TimerExactLater(s, k, now, e.now);
        assert K.Probe(s.limiter, e.now, k, s.parked[k].queue[0].cost).Admitted?;
        PollUnfolds(s, e.now, k);
        ServedTimerIsExact(s, e.now, k);
      } else {
        BystanderTimerStaysExact(s, e, now, k);
      }
    }
  }

  /**
   After a send or a resize moved the bucket behind a timer, the poll that fires
   too early keeps the queue and re-arms that timer exactly.
   */
  lemma EarlyPollRearmsExactly(s: Throttle, now: u64, k: Key)
    requires Fired(s, k, now) && Queue(s, k) != []
    requires Wait(s.limiter, now, k, Queue(s, k)[0].cost) > 0
    ensures var s' := Step(s, At(now, PollReady(k)));
            && k in s'.parked
            && Queue(s', k) == Queue(s, k)
            && DeadlineExact(K.Entry(s'.limiter, k), Queue(s, k)[0].cost, s'.parked[k].deadline, now)
            && now < s'.parked[k].deadline
  {
    var s', cost := Step(s, At(now, PollReady(k))), Queue(s, k)[0].cost;
    assert K.Entry(s'.limiter, k) == K.Entry(s.limiter, k);
    ArmedTimerIsExact(s.limiter, now, k, cost);
  }

  lemma {:induction false} TimersStayExact(s: Throttle, es: seq<Event>, now: nat)
    requires IsRun(s, es) && Clocked(now, es) && TimersExact(s, now)
    requires OrderlyRun(s, es)
    ensures TimersExact(Run(s, es), ClockAfter(now, es))
    decreases |es|
  {
    if es != [] {
      StepKeepsTimersExact(s, es[0], now);
      TimersStayExact(Step(s, es[0]), es[1..], es[0].now);
    }
  }

  /**
   In runs in which sends and resizes leave the buckets of parked keys alone,
   whatever else they do: no parked queue is empty, and at every later instant a
   key's timer has fired exactly when its bucket admits the head, so a poll that
   meets a fired timer yields that head.
   */
  lemma PollNeverMisfires(quota: Quota, es: seq<Event>, now: u64, k: Key)
    requires IsRun(Fresh(quota), es) && Clocked(0, es) && ClockAfter(0, es) <= now
    requires OrderlyRun(Fresh(quota), es)
    ensures var s := Run(Fresh(quota), es);
            k in s.parked ==>
              && s.parked[k].queue != []
              && (Fired(s, k, now) <==> K.Probe(s.limiter, now, k, s.parked[k].queue[0].cost).Admitted?)
              && (Fired(s, k, now) ==>
                    Respond(s, At(now, PollReady(k))) == Ready(k, s.parked[k].queue[0].value))
  {
    var s := Run(Fresh(quota), es);
    TimersStayExact(Fresh(quota), es, 0);
    if k in s.parked {
      assert TimerExact(s, k, ClockAfter(0, es));
    }
  }

  // ----- The throttle itself

  class SelfRateLimiter {
    const limiter: K.KeyedRateLimiter
    var parked: map<Key, Parked>

    ghost function State(): Throttle
      reads this, limiter
    {
      Throttle(limiter.State(), parked)
    }

    constructor (quota: Quota)
      ensures State() == Fresh(quota) && fresh(limiter)
    {
      limiter := new K.KeyedRateLimiter(quota);
      parked := map[];
    }

    method TrySend(now: u64, key: Key, cost: u32) returns (r: Reply)
      modifies limiter
      ensures State() == Step(old(State()), At(now, Call.TrySend(key, cost)))
      ensures r == Respond(old(State()), At(now, Call.TrySend(key, cost)))
    {
      var answer := limiter.TryConsumeN(now, key, cost);
      match answer {
        case Granted => r := Sent;
        case Denied(TooSoon(d)) => r := DelayUntil(d);
        case Denied(TooLarge) =>
          var tau := limiter.ReplenishAllEveryFor(key);
          r := DelayUntil(tau);
      }
    }

    method Enqueue(now: u64, key: Key, cost: u32, value: Value) returns (r: Reply)
      modifies this, limiter
      ensures State() == Step(old(State()), At(now, Call.Enqueue(key, cost, value)))
      ensures r == Respond(old(State()), At(now, Call.Enqueue(key, cost, value)))
    {
      var peeked := limiter.TryPeek(now, key, cost);
      if peeked == K.Denied(TooLarge) {
        return Rejected(value);
      }
      if key in parked {
        parked := parked[key := parked[key].(queue := parked[key].queue + [Item(cost, value)])];
        return Queued;
      }
      var answer := limiter.TryConsumeN(now, key, cost);
      match answer {
        case Granted => r := Issued(value);
        case Denied(TooSoon(d)) =>
          parked := parked[key := Parked([Item(cost, value)], now + d)];
          r := Queued;
      }
    }

    method SetPeerQuota(now: u64, key: Key, quota: Quota)
      modifies limiter
      ensures State() == Step(old(State()), At(now, Call.SetQuota(key, quota)))
    {
      limiter.SetKeyQuota(now, key, quota);
    }

    method ClearPeer(now: u64, key: Key)
      modifies this, limiter
      ensures State() == Step(old(State()), At(now, Call.Clear(key)))
    {
      parked := parked - {key};
      limiter.ClearKey(key);
    }

    /**
     Drops the key when its queue drained, else arms the timer for the new head; a
     key that is not parked stays so.
     */
    method RearmOrRemove(now: u64, key: Key)
      modifies this
      ensures key in old(parked) ==> State() == Rearm(old(State()), now, key, old(parked)[key].queue)
      ensures key !in old(parked) ==> State() == old(State())
    {
      if key !in parked {
        return;
      }
      if parked[key].queue == [] {
        parked := parked - {key};
        return;
      }
      var answer := limiter.TryPeek(now, key, parked[key].queue[0].cost);
      var wait := match answer
        case Denied(TooSoon(d)) => d
        case _ => 0;
      parked := parked[key := parked[key].(deadline := now + wait)];
    }

    /** Pending when no timer has fired; otherwise serves one key whose timer has, whichever comes first. */
    method PollReady(now: u64) returns (r: Reply)
      modifies this, limiter
      ensures (forall k :: !Fired(old(State()), k, now)) ==> r == Pending && State() == old(State())
      ensures (exists k :: Fired(old(State()), k, now)) ==>
                exists k :: && Fired(old(State()), k, now)
                            && State() == Step(old(State()), At(now, Call.PollReady(k)))
                            && r == Respond(old(State()), At(now, Call.PollReady(k)))
    {
      ghost var s := State();
      var fired := set k | k in parked && parked[k].deadline <= now;
      if fired == {} {
        assert forall k :: Fired(s, k, now) ==> k in fired;
        return Pending;
      }
      var key :| key in fired;
      assert Fired(s, key, now);
      r := Serve(now, key);
    }

    /** Charges the head of a key whose timer has fired and hands it out if the bucket agrees. */
    method Serve(now: u64, key: Key) returns (r: Reply)
      requires Fired(State(), key, now)
      modifies this, limiter
      ensures State() == Step(old(State()), At(now, Call.PollReady(key)))
      ensures r == Respond(old(State()), At(now, Call.PollReady(key)))
    {
      var queue := parked[key].queue;
      if queue == [] {
        parked := parked - {key};
        return Pending;
      }
      var answer := limiter.TryConsumeN(now, key, queue[0].cost);
      match answer {
        case Granted =>
          DropHead(now, key);
          r := Ready(key, queue[0].value);
        case Denied(TooSoon(d)) =>
          parked := parked[key := parked[key].(deadline := now + d)];
          r := Pending;
        case Denied(TooLarge) =>
          DropHead(now, key);
          r := Pending;
      }
    }

    method DropHead(now: u64, key: Key)
      requires key in parked && parked[key].queue != []
      modifies this
      ensures State() == Rearm(old(State()), now, key, old(parked)[key].queue[1..])
    {
      parked := parked[key := parked[key].(queue := parked[key].queue[1..])];
      RearmOrRemove(now, key);
    }
  }
}
