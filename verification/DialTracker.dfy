/** The dial tracker over whole runs of its calls, and the tracker itself. */
module DialTracker {
  import opened Words
  import opened Options
  import opened Seqs
  import opened DialBook
  import G = DialGuard
  import Backoff
  import Clocks
  import RecencyList

  datatype Dial = Dial(book: Book, lastCleanup: nat)

  /** What the backoff and ban caches say about a request's id. */
  datatype Verdict = Allowed | Banned | InBackoff

  datatype Call =
    | Enqueue(request: Request, verdict: Verdict)
    | NextBatch(max: nat)
    | PrepareAndStart(id: Option<Id>, peer: PeerId, data: Data, verdict: Verdict, reachable: bool)
    | Resolve(peer: PeerId)
    | CleanupExpired

  datatype Event = At(now: nat, call: Call)

  datatype EnqueueError = AlreadyPending | AlreadyInFlight | QueueFull | BackoffActive | BanActive

  datatype PrepareError = NoReachableAddresses | AlreadyTracked | BackoffRunning | PeerBanned

  function EnqueueFails(b: Book, lim: Limits, r: Request, verdict: Verdict): Option<EnqueueError> {
    if verdict.Banned? then Some(BanActive)
    else if verdict.InBackoff? then Some(BackoffActive)
    else if IsTracked(b, r.peer, r.id) then Some(if r.peer in b.inFlight then AlreadyInFlight else AlreadyPending)
    else if |b.pending| >= lim.maxPending then Some(QueueFull)
    else None
  }

  function PrepareFails(b: Book, c: Call): Option<PrepareError>
    requires c.PrepareAndStart?
  {
    if c.verdict.Banned? then Some(PeerBanned)
    else if c.verdict.InBackoff? then Some(BackoffRunning)
    else if IsTracked(b, c.peer, c.id) then Some(AlreadyTracked)
    else if !c.reachable then Some(NoReachableAddresses)
    else None
  }

  /** The request registered by `prepare_and_start`: no addresses, created and started now. */
  function Prepared(c: Call, now: nat): Request
    requires c.PrepareAndStart?
  {
    Request(c.id, c.peer, [], c.data, now, Some(now))
  }

  function StaleOnes(pending: seq<Request>, lim: Limits, now: nat): seq<Request> {
    if pending == [] then []
    else (if Stale(pending[0], lim, now) then [pending[0]] else []) + StaleOnes(pending[1..], lim, now)
  }

  function StalePeers(b: Book, lim: Limits, now: nat): set<PeerId> {
    PeersOf(StaleOnes(b.pending, lim, now))
  }

  function TimedOutPeers(b: Book, lim: Limits, now: nat): set<PeerId> {
    set p | p in b.inFlight && TimedOut(b.inFlight[p], lim, now)
  }

  function Cleaned(d: Dial, lim: Limits, now: nat): Dial {
    Dial(Drop(d.book, StalePeers(d.book, lim, now) + TimedOutPeers(d.book, lim, now)), now)
  }

  predicate CleanupDue(d: Dial, lim: Limits, now: nat) {
    Monus(now, d.lastCleanup) > lim.cleanupInterval
  }

  /** The tracker after the cleanup that `next_batch` runs when one is due. */
  function Swept(d: Dial, lim: Limits, now: nat): Dial {
    if CleanupDue(d, lim, now) then Cleaned(d, lim, now) else d
  }

  function BatchSize(b: Book, lim: Limits, max: nat): nat {
    Min(max, Monus(lim.maxInFlight, |b.inFlight|))
  }

  function Batch(b: Book, lim: Limits, max: nat, now: nat): Scanned {
    Scan(b.pending, BatchSize(b, lim, max), lim, now)
  }

  function AfterBatch(b: Book, lim: Limits, max: nat, now: nat): Book {
    var s := Batch(b, lim, max, now);
    Start(Drop(b, PeersOf(s.expired)), PeersOf(s.dispatched), now)
  }

  function Step(lim: Limits, d: Dial, e: Event): Dial {
    match e.call
    case Enqueue(r, verdict) =>
      if EnqueueFails(d.book, lim, r, verdict).None? then d.(book := AddPending(d.book, r)) else d
    case NextBatch(max) =>
      var d1 := Swept(d, lim, e.now);
      d1.(book := AfterBatch(d1.book, lim, max, e.now))
    case PrepareAndStart(_, _, _, _, _) =>
      if PrepareFails(d.book, e.call).None? then d.(book := AddInFlight(d.book, Prepared(e.call, e.now))) else d
    case Resolve(p) => if p in d.book.inFlight then d.(book := Drop(d.book, {p})) else d
    case CleanupExpired => Cleaned(d, lim, e.now)
  }

  function Run(lim: Limits, d: Dial, es: seq<Event>): Dial
    decreases |es|
  {
    if es == [] then d else Run(lim, Step(lim, d, es[0]), es[1..])
  }

  function NewDial(now: nat): Dial {
    Dial(Book([], map[], map[]), now)
  }

  // ----- The maps always agree

  ghost predicate Sound(lim: Limits, d: Dial) {
    Consistent(d.book) && |d.book.pending| <= lim.maxPending
  }

  lemma CleanedIsSound(lim: Limits, d: Dial, now: nat)
    requires Sound(lim, d)
    ensures Sound(lim, Cleaned(d, lim, now))
  {
    var gone := StalePeers(d.book, lim, now) + TimedOutPeers(d.book, lim, now);
    DropKeepsConsistent(d.book, gone);
    KeepShrinks(d.book.pending, gone);
  }

  lemma BatchIsSound(lim: Limits, b: Book, max: nat, now: nat)
    requires Consistent(b)
    ensures Consistent(AfterBatch(b, lim, max, now))
    ensures AfterBatch(b, lim, max, now).pending == Batch(b, lim, max, now).rest
    ensures |AfterBatch(b, lim, max, now).pending| <= |b.pending|
  {
    var s := Batch(b, lim, max, now);
    var e, ds := PeersOf(s.expired), PeersOf(s.dispatched);
    DropKeepsConsistent(b, e);
    StartKeepsConsistent(Drop(b, e), ds, now);
    ScanPartitions(b.pending, BatchSize(b, lim, max), lim, now);
    KeepKeep(b.pending, e, ds);
    KeepShrinks(b.pending, e + ds);
  }

  lemma StepKeepsSound(lim: Limits, d: Dial, e: Event)
    requires Sound(lim, d)
    ensures Sound(lim, Step(lim, d, e))
  {
    match e.call {
      case Enqueue(r, verdict) =>
        if EnqueueFails(d.book, lim, r, verdict).None? {
          AddPendingKeepsConsistent(d.book, r);
        }
      case NextBatch(max) =>
        CleanedIsSound(lim, d, e.now);
        BatchIsSound(lim, Swept(d, lim, e.now).book, max, e.now);
      case PrepareAndStart(_, _, _, _, _) =>
        if PrepareFails(d.book, e.call).None? {
          AddInFlightKeepsConsistent(d.book, Prepared(e.call, e.now));
        }
      case Resolve(p) =>
        DropKeepsConsistent(d.book, {p});
        KeepShrinks(d.book.pending, {p});
      case CleanupExpired => CleanedIsSound(lim, d, e.now);
    }
  }

  lemma {:induction false} RunKeepsSound(lim: Limits, d: Dial, es: seq<Event>)
    requires Sound(lim, d)
    ensures Sound(lim, Run(lim, d, es))
    decreases |es|
  {
    if es != [] {
      StepKeepsSound(lim, d, es[0]);
      RunKeepsSound(lim, Step(lim, d, es[0]), es[1..]);
    }
  }

  /**
   After every run: pending and in flight are disjoint, the index is exactly the
   id-to-peer map of the tracked requests that carry an id, no id is tracked
   twice, and the queue is within its bound.
   */
  lemma MapsAlwaysAgree(lim: Limits, start: nat, es: seq<Event>, p: PeerId, q: PeerId, id: Id)
    ensures var b := Run(lim, NewDial(start), es).book;
            && Distinct(b.pending)
            && |b.pending| <= lim.maxPending
            && !(p in b.inFlight && Find(b.pending, p).Some?)
            && (p in b.inFlight ==> b.inFlight[p].startedAt.Some?)
            && (Carries(b, p, id) <==> id in b.idIndex && b.idIndex[id] == p)
            && (Carries(b, p, id) && Carries(b, q, id) ==> p == q)
  {
    assert Sound(lim, NewDial(start)) by {
      var b := NewDial(start).book;
      assert forall p :: Apart(b, p);
      assert forall p, id :: Indexed(b, p, id);
    }
    RunKeepsSound(lim, NewDial(start), es);
    var b := Run(lim, NewDial(start), es).book;
    assert Apart(b, p) && Indexed(b, p, id) && Indexed(b, q, id);
  }

  lemma {:induction false} StalePeersExact(pending: seq<Request>, lim: Limits, now: nat, p: PeerId)
    requires Distinct(pending)
    ensures p in PeersOf(StaleOnes(pending, lim, now))
            <==> Find(pending, p).Some? && Stale(Find(pending, p).value, lim, now)
    decreases |pending|
  {
    if pending != [] {
      var head, rest := pending[0], StaleOnes(pending[1..], lim, now);
      StalePeersExact(pending[1..], lim, now, p);
      if Stale(head, lim, now) {
        PeersCons(head, rest);
      } else {
        assert [] + rest == rest;
      }
    }
  }

  /** A request has outlived its time: queued too long, or in flight too long. */
  predicate Overdue(b: Book, lim: Limits, now: nat, p: PeerId) {
    if p in b.inFlight
    then b.inFlight[p].startedAt.Some? && b.inFlight[p].startedAt.value + lim.inFlightTimeout < now
    else Find(b.pending, p).Some? && Find(b.pending, p).value.queuedAt + lim.pendingTtl < now
  }

  /** A cleanup removes exactly the overdue requests and leaves every other one as it was. */
  lemma CleanupRemovesExactlyTheOverdue(lim: Limits, d: Dial, now: nat, p: PeerId)
    requires Sound(lim, d)
    ensures Live(Cleaned(d, lim, now).book, p) == if Overdue(d.book, lim, now, p) then None else Live(d.book, p)
  {
    StalePeersExact(d.book.pending, lim, now, p);
    LiveDrop(d.book, StalePeers(d.book, lim, now) + TimedOutPeers(d.book, lim, now), p);
    assert Apart(d.book, p);
  }

  /** A due cleanup leaves nothing overdue before the batch is picked; otherwise the tracker is picked from as it is. */
  lemma SweepLeavesNothingOverdue(lim: Limits, d: Dial, now: nat, p: PeerId)
    requires Sound(lim, d)
    ensures CleanupDue(d, lim, now) ==> !Overdue(Swept(d, lim, now).book, lim, now, p)
    ensures !CleanupDue(d, lim, now) ==> Swept(d, lim, now) == d
  {
    CleanupRemovesExactlyTheOverdue(lim, d, now, p);
    CleanedIsSound(lim, d, now);
    FindKeep(d.book.pending, StalePeers(d.book, lim, now) + TimedOutPeers(d.book, lim, now), p);
    assert Apart(d.book, p) && Apart(Cleaned(d, lim, now).book, p);
  }

  // ----- What is accepted, and with which error the rest is refused

  /** Neither the peer nor the id is pending or in flight. */
  ghost predicate Untracked(b: Book, peer: PeerId, id: Option<Id>) {
    Live(b, peer).None? && (id.Some? ==> forall p :: !Carries(b, p, id.value))
  }

  lemma TrackedIff(b: Book, peer: PeerId, id: Option<Id>)
    requires Consistent(b)
    ensures IsTracked(b, peer, id) <==> !Untracked(b, peer, id)
  {
    if id.Some? && id.value in b.idIndex {
      assert Indexed(b, b.idIndex[id.value], id.value);
    }
    forall p | id.Some? && Carries(b, p, id.value) ensures id.value in b.idIndex {
      assert Indexed(b, p, id.value);
    }
  }

  /**
   A request is accepted exactly when its id may be dialled, neither its peer nor
   its id is tracked, and the queue has room. A ban is reported before a backoff,
   both before a duplicate, and a duplicate before a full queue.
   */
  lemma EnqueueAcceptsIff(lim: Limits, b: Book, r: Request, verdict: Verdict)
    requires Consistent(b)
    ensures var error, open := EnqueueFails(b, lim, r, verdict), verdict.Allowed? && Untracked(b, r.peer, r.id);
            && (error.None? <==> open && |b.pending| < lim.maxPending)
            && (error == Some(QueueFull) <==> open && |b.pending| >= lim.maxPending)
            && (error == Some(BanActive) <==> verdict.Banned?)
            && (error == Some(BackoffActive) <==> verdict.InBackoff?)
            && (error == Some(AlreadyInFlight) <==> verdict.Allowed? && r.peer in b.inFlight)
            && (error == Some(AlreadyPending)
                <==> verdict.Allowed? && !Untracked(b, r.peer, r.id) && r.peer !in b.inFlight)
  {
    TrackedIff(b, r.peer, r.id);
  }

  /**
   A dial is started at once exactly when its id may be dialled, neither its peer
   nor its id is tracked, and an address is reachable. A ban is reported before a
   backoff, both before a duplicate, and a duplicate before missing addresses.
   */
  lemma PrepareStartsIff(b: Book, c: Call)
    requires Consistent(b) && c.PrepareAndStart?
    ensures var error, open := PrepareFails(b, c), c.verdict.Allowed? && Untracked(b, c.peer, c.id);
            && (error.None? <==> open && c.reachable)
            && (error == Some(NoReachableAddresses) <==> open && !c.reachable)
            && (error == Some(PeerBanned) <==> c.verdict.Banned?)
            && (error == Some(BackoffRunning) <==> c.verdict.InBackoff?)
            && (error == Some(AlreadyTracked) <==> c.verdict.Allowed? && !Untracked(b, c.peer, c.id))
  {
    TrackedIff(b, c.peer, c.id);
  }

  /** An accepted request is the last of the queue, a refused one changes nothing, and nobody else is affected. */
  lemma EnqueueQueuesLast(lim: Limits, d: Dial, now: nat, r: Request, verdict: Verdict, p: PeerId)
    requires Sound(lim, d)
    ensures var d' := Step(lim, d, At(now, Enqueue(r, verdict)));
            if EnqueueFails(d.book, lim, r, verdict).Some? then d' == d
            else
              && d'.book.pending == d.book.pending + [r]
              && d'.book.inFlight == d.book.inFlight
              && Live(d'.book, p) == if p == r.peer then Some(r) else Live(d.book, p)
  {
    if EnqueueFails(d.book, lim, r, verdict).None? {
      AddPendingKeepsConsistent(d.book, r);
    }
  }

  /**
   A dial started at once is in flight, with no addresses kept, and is overdue
   exactly once more than the in-flight timeout has gone by. Nobody else is affected.
   */
  lemma PreparedIsInFlight(lim: Limits, d: Dial, now: nat, c: Call, p: PeerId, later: nat)
    requires Sound(lim, d) && c.PrepareAndStart? && PrepareFails(d.book, c).None?
    ensures var d' := Step(lim, d, At(now, c));
            && c.peer in d'.book.inFlight
            && d'.book.inFlight[c.peer] == Request(c.id, c.peer, [], c.data, now, Some(now))
            && (p != c.peer ==> Live(d'.book, p) == Live(d.book, p))
            && (Overdue(d'.book, lim, later, c.peer) <==> now + lim.inFlightTimeout < later)
  {
    AddInFlightKeepsConsistent(d.book, Prepared(c, now));
  }

  /** Resolving ends the tracking of a dial in flight and of nothing else; a pending request cannot be resolved. */
  lemma ResolveEndsExactlyOneDial(lim: Limits, d: Dial, now: nat, p: PeerId, q: PeerId)
    requires Sound(lim, d)
    ensures var d' := Step(lim, d, At(now, Resolve(p)));
            && Live(d'.book, q) == (if q == p && p in d.book.inFlight then None else Live(d.book, q))
            && d'.book.pending == d.book.pending
            && d'.book.inFlight == d.book.inFlight - {p}
  {
    LiveDrop(d.book, {p}, q);
    if p in d.book.inFlight {
      assert Apart(d.book, p);
      KeepNone(d.book.pending, {p});
    }
  }

  /**
   A cleanup is due exactly once more than the interval has gone by since the last
   one, whether that was asked for or run by a batch.
   */
  lemma CleanupComesDueAgain(lim: Limits, d: Dial, now: nat, max: nat, later: nat)
    ensures CleanupDue(d, lim, now) <==> d.lastCleanup + lim.cleanupInterval < now
    ensures CleanupDue(Step(lim, d, At(now, CleanupExpired)), lim, later) <==> now + lim.cleanupInterval < later
    ensures var last := if d.lastCleanup + lim.cleanupInterval < now then now else d.lastCleanup;
            CleanupDue(Step(lim, d, At(now, NextBatch(max))), lim, later) <==> last + lim.cleanupInterval < later
  {
  }

  // ----- Conservation: every accepted request is in exactly one place

  datatype Fate = Resolved | Expired | Abandoned

  datatype Settlement = Settlement(request: Request, fate: Fate)

  /** A request without the stamp that dispatching puts on it. */
  function Core(r: Request): Request {
    r.(startedAt := None)
  }

  function LiveCore(b: Book, p: PeerId): seq<Request> {
    if Live(b, p).Some? then [Core(Live(b, p).value)] else []
  }

  /** What `e` accepts for tracking under peer `p`. */
  function Accepts(lim: Limits, d: Dial, e: Event, p: PeerId): seq<Request> {
    match e.call
    case Enqueue(r, verdict) =>
      if r.peer == p && EnqueueFails(d.book, lim, r, verdict).None? then [Core(r)] else []
    case PrepareAndStart(_, _, _, _, _) =>
      if e.call.peer == p && PrepareFails(d.book, e.call).None? then [Core(Prepared(e.call, e.now))] else []
    case _ => []
  }

  function CleanupSettles(d: Dial, lim: Limits, now: nat, p: PeerId): seq<Settlement> {
    if Live(d.book, p).None? then []
    else if p in StalePeers(d.book, lim, now) then [Settlement(Core(Live(d.book, p).value), Expired)]
    else if p in TimedOutPeers(d.book, lim, now) then [Settlement(Core(Live(d.book, p).value), Abandoned)]
    else []
  }

  function ScanSettles(b: Book, lim: Limits, max: nat, now: nat, p: PeerId): seq<Settlement> {
    if Live(b, p).Some? && p in PeersOf(Batch(b, lim, max, now).expired)
    then [Settlement(Core(Live(b, p).value), Expired)] else []
  }

  /** What `e` stops tracking for peer `p`, and why. */
  function Settles(lim: Limits, d: Dial, e: Event, p: PeerId): seq<Settlement> {
    match e.call
    case Resolve(q) =>
      if q == p && p in d.book.inFlight then [Settlement(Core(d.book.inFlight[p]), Resolved)] else []
    case CleanupExpired => CleanupSettles(d, lim, e.now, p)
    case NextBatch(max) =>
      (if CleanupDue(d, lim, e.now) then CleanupSettles(d, lim, e.now, p) else [])
      + ScanSettles(Swept(d, lim, e.now).book, lim, max, e.now, p)
    case _ => []
  }

  function Requests(ss: seq<Settlement>): seq<Request> {
    if ss == [] then [] else [ss[0].request] + Requests(ss[1..])
  }

  lemma {:induction false} RequestsConcat(a: seq<Settlement>, b: seq<Settlement>)
    ensures Requests(a + b) == Requests(a) + Requests(b)
    decreases |a|
  {
    if a == [] {
      assert a + b == b;
    } else {
      RequestsConcat(a[1..], b);
      assert (a + b)[0] == a[0] && (a + b)[1..] == a[1..] + b;
      Assoc([a[0].request], Requests(a[1..]), Requests(b));
    }
  }

  lemma CleanupConserves(d: Dial, lim: Limits, now: nat, p: PeerId)
    ensures LiveCore(d.book, p) == Requests(CleanupSettles(d, lim, now, p)) + LiveCore(Cleaned(d, lim, now).book, p)
  {
    LiveDrop(d.book, StalePeers(d.book, lim, now) + TimedOutPeers(d.book, lim, now), p);
  }

  /** A batch leaves every request tracked, except the stale ones it passes over. */
  lemma LiveAfterBatch(b: Book, lim: Limits, max: nat, now: nat, p: PeerId)
    requires Consistent(b)
    ensures LiveCore(AfterBatch(b, lim, max, now), p)
            == if p in PeersOf(Batch(b, lim, max, now).expired) then [] else LiveCore(b, p)
  {
    var s := Batch(b, lim, max, now);
    var b1 := Drop(b, PeersOf(s.expired));
    DropKeepsConsistent(b, PeersOf(s.expired));
    LiveDrop(b, PeersOf(s.expired), p);
    LiveStart(b1, PeersOf(s.dispatched), now, p);
    assert Apart(b1, p);
  }

  lemma ScanConserves(b: Book, lim: Limits, max: nat, now: nat, p: PeerId)
    requires Consistent(b)
    ensures LiveCore(b, p) == Requests(ScanSettles(b, lim, max, now, p)) + LiveCore(AfterBatch(b, lim, max, now), p)
  {
    LiveAfterBatch(b, lim, max, now, p);
  }

  lemma BatchConserves(lim: Limits, d: Dial, max: nat, now: nat, p: PeerId)
    requires Sound(lim, d)
    ensures var e := At(now, NextBatch(max));
            LiveCore(d.book, p) == Requests(Settles(lim, d, e, p)) + LiveCore(Step(lim, d, e).book, p)
  {
    var d1 := Swept(d, lim, now);
    CleanedIsSound(lim, d, now);
    var first := if CleanupDue(d, lim, now) then CleanupSettles(d, lim, now, p) else [];
    var second := ScanSettles(d1.book, lim, max, now, p);
    CleanupConserves(d, lim, now, p);
    ScanConserves(d1.book, lim, max, now, p);
    RequestsConcat(first, second);
    Assoc(Requests(first), Requests(second), LiveCore(AfterBatch(d1.book, lim, max, now), p));
  }

  lemma StepConserves(lim: Limits, d: Dial, e: Event, p: PeerId)
    requires Sound(lim, d)
    ensures LiveCore(d.book, p) + Accepts(lim, d, e, p)
            == Requests(Settles(lim, d, e, p)) + LiveCore(Step(lim, d, e).book, p)
  {
    match e.call {
      case Enqueue(r, verdict) =>
        if EnqueueFails(d.book, lim, r, verdict).None? {
          AddPendingKeepsConsistent(d.book, r);
        }
      case NextBatch(max) =>
        BatchConserves(lim, d, max, e.now, p);
      case PrepareAndStart(_, _, _, _, _) =>
        if PrepareFails(d.book, e.call).None? {
          AddInFlightKeepsConsistent(d.book, Prepared(e.call, e.now));
        }
      case Resolve(q) =>
        LiveDrop(d.book, {q}, p);
      case CleanupExpired => CleanupConserves(d, lim, e.now, p);
    }
  }

  function Accepted(lim: Limits, d: Dial, es: seq<Event>, p: PeerId): seq<Request>
    decreases |es|
  {
    if es == [] then [] else Accepts(lim, d, es[0], p) + Accepted(lim, Step(lim, d, es[0]), es[1..], p)
  }

  function Settled(lim: Limits, d: Dial, es: seq<Event>, p: PeerId): seq<Settlement>
    decreases |es|
  {
    if es == [] then [] else Settles(lim, d, es[0], p) + Settled(lim, Step(lim, d, es[0]), es[1..], p)
  }

  /**
   For every peer and every run: the requests accepted for it are, in order, those
   already resolved, expired or abandoned, then the one still tracked, if any.
   With `MapsAlwaysAgree` that one is pending or in flight, not both.
   */
  lemma {:induction false} EveryRequestIsInOnePlace(lim: Limits, d: Dial, es: seq<Event>, p: PeerId)
    requires Sound(lim, d)
    ensures LiveCore(d.book, p) + Accepted(lim, d, es, p)
            == Requests(Settled(lim, d, es, p)) + LiveCore(Run(lim, d, es).book, p)
    decreases |es|
  {
    if es != [] {
      var d' := Step(lim, d, es[0]);
      StepKeepsSound(lim, d, es[0]);
      StepConserves(lim, d, es[0], p);
      EveryRequestIsInOnePlace(lim, d', es[1..], p);
      RequestsConcat(Settles(lim, d, es[0], p), Settled(lim, d', es[1..], p));
      WholeLineStep(LiveCore(d.book, p), Accepts(lim, d, es[0], p), Accepted(lim, d', es[1..], p),
                    Requests(Settles(lim, d, es[0], p)), LiveCore(d'.book, p),
                    Requests(Settled(lim, d', es[1..], p)), LiveCore(Run(lim, d', es[1..]).book, p));
    }
  }

  // ----- Order and capacity of dispatch

  /** The requests `e` dispatches, in the order it returns them. */
  function Dispatches(lim: Limits, d: Dial, e: Event): seq<Request> {
    if e.call.NextBatch? then Batch(Swept(d, lim, e.now).book, lim, e.call.max, e.now).dispatched else []
  }

  /** The request `e` adds to the queue, if any. */
  function Joins(lim: Limits, d: Dial, e: Event): seq<Request> {
    if e.call.Enqueue? && EnqueueFails(d.book, lim, e.call.request, e.call.verdict).None? then [e.call.request] else []
  }

  /** A batch is the oldest unexpired requests, never past the in-flight limit, none when that is already reached. */
  lemma BatchIsOldestAndBounded(lim: Limits, d: Dial, max: nat, now: nat)
    requires Sound(lim, d)
    ensures var b := Swept(d, lim, now).book;
            var batch := Dispatches(lim, d, At(now, NextBatch(max)));
            && batch == Take(FreshOnes(b.pending, lim, now), BatchSize(b, lim, max))
            && (forall r :: r in batch ==> now <= r.queuedAt + lim.pendingTtl)
            && |batch| <= max
            && |b.inFlight| + |batch| <= Max(|b.inFlight|, lim.maxInFlight)
            && (|b.inFlight| >= lim.maxInFlight ==> batch == [])
  {
    var b := Swept(d, lim, now).book;
    ScanPicksOldestFresh(b.pending, BatchSize(b, lim, max), lim, now);
    ScanKeepsOrder(b.pending, BatchSize(b, lim, max), lim, now);
  }

  /** A batch is as large as the caller, the free slots and the unexpired requests allow. */
  lemma BatchFillsTheSlots(lim: Limits, d: Dial, max: nat, now: nat)
    requires Sound(lim, d)
    ensures var b := Swept(d, lim, now).book;
            |Dispatches(lim, d, At(now, NextBatch(max)))|
            == Min(|FreshOnes(b.pending, lim, now)|, Min(max, Monus(lim.maxInFlight, |b.inFlight|)))
  {
    BatchIsOldestAndBounded(lim, d, max, now);
  }

  /**
   A dispatched request is in flight from then on, stamped with the time of the
   batch and otherwise unchanged, and is overdue exactly once more than the
   in-flight timeout has gone by since.
   */
  lemma DispatchedIsInFlight(lim: Limits, d: Dial, max: nat, now: nat, r: Request, later: nat)
    requires Sound(lim, d) && r in Dispatches(lim, d, At(now, NextBatch(max)))
    ensures var b := Step(lim, d, At(now, NextBatch(max))).book;
            && r.peer in b.inFlight
            && b.inFlight[r.peer] == r.(startedAt := Some(now))
            && Find(b.pending, r.peer).None?
            && (Overdue(b, lim, later, r.peer) <==> now + lim.inFlightTimeout < later)
  {
    CleanedIsSound(lim, d, now);
    DispatchStarts(Swept(d, lim, now).book, lim, max, now, r);
  }

  lemma DispatchStarts(b: Book, lim: Limits, max: nat, now: nat, r: Request)
    requires Consistent(b) && r in Batch(b, lim, max, now).dispatched
    ensures var b' := AfterBatch(b, lim, max, now);
            && r.peer in b'.inFlight && b'.inFlight[r.peer] == r.(startedAt := Some(now))
            && Find(b'.pending, r.peer).None?
  {
    var s, n := Batch(b, lim, max, now), BatchSize(b, lim, max);
    var b1 := Drop(b, PeersOf(s.expired));
    ScanPicksMembers(b.pending, n, lim, now, r);
    MemberIsFound(b.pending, r);
    MemberHasPeer(s.dispatched, r);
    ScanPartitions(b.pending, n, lim, now);
    FindKeep(b.pending, PeersOf(s.expired), r.peer);
    FindKeep(b1.pending, PeersOf(s.dispatched), r.peer);
  }

  /** The batch that runs a due cleanup leaves nothing overdue behind, neither pending nor in flight. */
  lemma DueBatchLeavesNothingOverdue(lim: Limits, d: Dial, max: nat, now: nat, p: PeerId)
    requires Sound(lim, d) && CleanupDue(d, lim, now)
    ensures !Overdue(Step(lim, d, At(now, NextBatch(max))).book, lim, now, p)
  {
    var b := Swept(d, lim, now).book;
    SweepLeavesNothingOverdue(lim, d, now, p);
    CleanedIsSound(lim, d, now);
    BatchMakesNothingOverdue(b, lim, max, now, p);
  }

  lemma BatchMakesNothingOverdue(b: Book, lim: Limits, max: nat, now: nat, p: PeerId)
    requires Consistent(b) && !Overdue(b, lim, now, p)
    ensures !Overdue(AfterBatch(b, lim, max, now), lim, now, p)
  {
    var s := Batch(b, lim, max, now);
    FindKeep(b.pending, PeersOf(s.expired), p);
    FindKeep(Keep(b.pending, PeersOf(s.expired)), PeersOf(s.dispatched), p);
    assert Apart(b, p);
  }

  lemma BatchKeepsOrder(lim: Limits, d: Dial, max: nat, now: nat)
    requires Sound(lim, d)
    ensures var e := At(now, NextBatch(max));
            Subseq(Dispatches(lim, d, e) + Step(lim, d, e).book.pending, d.book.pending)
  {
    var e, d1 := At(now, NextBatch(max)), Swept(d, lim, now);
    CleanedIsSound(lim, d, now);
    SubseqRefl(d.book.pending);
    KeepShrinks(d.book.pending, StalePeers(d.book, lim, now) + TimedOutPeers(d.book, lim, now));
    BatchIsSound(lim, d1.book, max, now);
    ScanKeepsOrder(d1.book.pending, BatchSize(d1.book, lim, max), lim, now);
    SubseqTrans(Dispatches(lim, d, e) + Step(lim, d, e).book.pending, d1.book.pending, d.book.pending);
  }

  lemma StepKeepsOrder(lim: Limits, d: Dial, e: Event)
    requires Sound(lim, d)
    ensures Subseq(Dispatches(lim, d, e) + Step(lim, d, e).book.pending, d.book.pending + Joins(lim, d, e))
  {
    if e.call.NextBatch? {
      BatchKeepsOrder(lim, d, e.call.max, e.now);
      assert d.book.pending + [] == d.book.pending;
    } else {
      PendingStaysInOrder(lim, d, e);
      assert [] + Step(lim, d, e).book.pending == Step(lim, d, e).book.pending;
    }
  }

  lemma PendingStaysInOrder(lim: Limits, d: Dial, e: Event)
    requires !e.call.NextBatch?
    ensures Subseq(Step(lim, d, e).book.pending, d.book.pending + Joins(lim, d, e))
  {
    var pending := d.book.pending;
    assert pending + [] == pending;
    SubseqRefl(pending + Joins(lim, d, e));
    if e.call.Resolve? {
      KeepShrinks(pending, {e.call.peer});
    } else if e.call.CleanupExpired? {
      KeepShrinks(pending, StalePeers(d.book, lim, e.now) + TimedOutPeers(d.book, lim, e.now));
    }
  }

  function Dispatched(lim: Limits, d: Dial, es: seq<Event>): seq<Request>
    decreases |es|
  {
    if es == [] then [] else Dispatches(lim, d, es[0]) + Dispatched(lim, Step(lim, d, es[0]), es[1..])
  }

  function Joined(lim: Limits, d: Dial, es: seq<Event>): seq<Request>
    decreases |es|
  {
    if es == [] then [] else Joins(lim, d, es[0]) + Joined(lim, Step(lim, d, es[0]), es[1..])
  }

  /** Over every run, requests are dispatched in the order in which they were enqueued; none overtakes another. */
  lemma {:induction false} DispatchIsFifo(lim: Limits, d: Dial, es: seq<Event>)
    requires Sound(lim, d)
    ensures Subseq(Dispatched(lim, d, es) + Run(lim, d, es).book.pending, d.book.pending + Joined(lim, d, es))
    decreases |es|
  {
    if es == [] {
      SubseqRefl(d.book.pending);
      assert [] + d.book.pending == d.book.pending == d.book.pending + [];
    } else {
      var d' := Step(lim, d, es[0]);
      StepKeepsSound(lim, d, es[0]);
      StepKeepsOrder(lim, d, es[0]);
      DispatchIsFifo(lim, d', es[1..]);
      OrderedLineStep(d.book.pending, Joins(lim, d, es[0]), Joined(lim, d', es[1..]), Dispatches(lim, d, es[0]),
                      d'.book.pending, Dispatched(lim, d', es[1..]), Run(lim, d', es[1..]).book.pending);
    }
  }

  // ----- The tracker itself

  function VerdictOf(cfg: G.Config, g: G.Guard, secs: u64, id: Option<Id>): Verdict {
    if id.None? then Allowed
    else if G.IsBanned(cfg, g, secs, id.value) then Banned
    else if G.IsInBackoff(cfg, g, secs, id.value) then InBackoff
    else Allowed
  }

  /** The caches after the checks on an id: each query touches what it finds. */
  function AfterChecks(cfg: G.Config, g: G.Guard, secs: u64, id: Option<Id>): G.Guard {
    if id.None? then g
    else
      var g1 := G.AfterAskBanned(cfg, g, secs, id.value);
      if G.IsBanned(cfg, g, secs, id.value) then g1 else G.AfterAskBackoff(g1, id.value)
  }

  /** Asking about one id costs no record: counts stay, and only an expired ban of that id is dropped. */
  lemma ChecksForgetNothing(cfg: G.Config, g: G.Guard, secs: u64, asked: Option<Id>, id: Id)
    requires g.backoff.Some? && g.banned.Some?
    ensures var g' := AfterChecks(cfg, g, secs, asked);
            && G.Failures(g', id) == G.Failures(g, id)
            && G.BanTime(g', id)
               == if asked == Some(id) && !G.IsBanned(cfg, g, secs, id) then None else G.BanTime(g, id)
  {
    if asked.Some? {
      var askBan, askBackoff := Clocks.At(secs, G.AskBanned(asked.value)), Clocks.At(secs, G.AskBackoff(asked.value));
      var g1 := G.Step(cfg, g, askBan);
      G.StepStanding(cfg, g, askBan, id);
      G.StepStanding(cfg, g1, askBackoff, id);
      assert G.StandingOf(g, id) == G.Standing(G.Failures(g, id), G.BanTime(g, id));
    }
  }

  /** Both ways of dialling an id are refused with the ban error exactly while it is banned. */
  lemma RefusedWhileBanned(lim: Limits, b: Book, r: Request, reachable: bool, cfg: G.Config, g: G.Guard, now: u64)
    requires r.id.Some?
    ensures var verdict := VerdictOf(cfg, g, now, r.id);
            var dial := PrepareAndStart(r.id, r.peer, r.data, verdict, reachable);
            && (EnqueueFails(b, lim, r, verdict) == Some(BanActive) <==> G.IsBanned(cfg, g, now, r.id.value))
            && (PrepareFails(b, dial) == Some(PeerBanned) <==> G.IsBanned(cfg, g, now, r.id.value))
  {
  }

  /**
   After `banAfter` failures in a row, as in `DialGuard.ThresholdBans`, both ways
   of dialling the id are refused with the ban error, in whatever state the
   queues are, exactly for the term of the ban.
   */
  lemma BannedIdCannotBeDialled(lim: Limits, b: Book, r: Request, reachable: bool, cfg: G.Config, g: G.Guard,
                                before: seq<G.Event>, last: u64, after: seq<G.Event>, now: u64)
    requires cfg.banAfter > 0 && r.id.Some? && G.Failures(g, r.id.value) == 0
    requires G.NeverEvicted(cfg, g, before + [Clocks.At(last, G.RecordBackoff(r.id.value))] + after, r.id.value)
    requires G.NeverCleared(before, r.id.value) && G.NeverCleared(after, r.id.value)
    requires G.RecordsFor(before, r.id.value) == cfg.banAfter - 1 && G.RecordsFor(after, r.id.value) == 0
    requires last <= now && forall i :: 0 <= i < |after| ==> last <= after[i].now <= now
    ensures var end := G.Run(cfg, g, before + [Clocks.At(last, G.RecordBackoff(r.id.value))] + after);
            var verdict := VerdictOf(cfg, end, now, r.id);
            var dial := PrepareAndStart(r.id, r.peer, r.data, verdict, reachable);
            && (EnqueueFails(b, lim, r, verdict) == Some(BanActive) <==> G.InTerm(cfg, last, now))
            && (PrepareFails(b, dial) == Some(PeerBanned) <==> G.InTerm(cfg, last, now))
  {
    var end := G.Run(cfg, g, before + [Clocks.At(last, G.RecordBackoff(r.id.value))] + after);
    G.ThresholdBans(cfg, g, before, last, after, r.id.value, now);
    RefusedWhileBanned(lim, b, r, reachable, cfg, end, now);
  }

  /**
   After a failure that does not ban, an id that is not banned otherwise is
   refused with the backoff error exactly for its backoff time.
   */
  lemma FailedIdMustWait(lim: Limits, b: Book, r: Request, reachable: bool, cfg: G.Config, g: G.Guard,
                         failed: u64, now: u64)
    requires g.backoff.Some? && g.backoff.value.capacity > 0 && failed <= now && r.id.Some?
    requires !G.Promotes(cfg, G.Failures(g, r.id.value)) && !G.IsBanned(cfg, g, now, r.id.value)
    ensures var id := r.id.value;
            var entry := Backoff.BackoffEntry(failed, G.MoreFailures(G.Failures(g, id)));
            var verdict := VerdictOf(cfg, G.Record(cfg, g, failed, id), now, r.id);
            var dial := PrepareAndStart(r.id, r.peer, r.data, verdict, reachable);
            var waits := && entry.consecutiveFailures >= 1
                         && now < failed + Backoff.BackoffSecs(entry, cfg.backoffBase, cfg.backoffMax, cfg.seedFor(id));
            && (EnqueueFails(b, lim, r, verdict) == Some(BackoffActive) <==> waits)
            && (PrepareFails(b, dial) == Some(BackoffRunning) <==> waits)
            && (verdict.Allowed? <==> !waits)
  {
    G.FailureBacksOffExactly(cfg, g, failed, r.id.value, now);
  }

  /** A request without an id is never held back by bans or backoff. */
  lemma AnonymousIsAllowed(cfg: G.Config, g: G.Guard, secs: u64)
    ensures VerdictOf(cfg, g, secs, None).Allowed? && AfterChecks(cfg, g, secs, None) == g
  {
  }

  class Tracker {
    const lim: Limits
    const cfg: G.Config
    var pending: seq<Request>
    var inFlight: map<PeerId, Request>
    var idIndex: map<Id, PeerId>
    var lastCleanup: nat
    var guard: G.Guard

    ghost function TheBook(): Book
      reads this
    {
      Book(pending, inFlight, idIndex)
    }

    ghost function State(): Dial
      reads this
    {
      Dial(TheBook(), lastCleanup)
    }

    ghost predicate Valid()
      reads this
    {
      Sound(lim, State())
    }

    constructor (lim: Limits, cfg: G.Config, now: nat)
      ensures Valid() && State() == NewDial(now) && guard == G.NewGuard(cfg)
      ensures this.lim == lim && this.cfg == cfg
    {
      this.lim, this.cfg := lim, cfg;
      this.pending, this.inFlight, this.idIndex, this.lastCleanup := [], map[], map[], now;
      this.guard := G.NewGuard(cfg);
      new;
      assert forall p :: Apart(TheBook(), p);
      assert forall p, id :: Indexed(TheBook(), p, id);
    }

    /** Ban and backoff checks on an id, in that order. */
    method CheckGuard(secs: u64, id: Option<Id>) returns (verdict: Verdict)
      modifies `guard
      ensures verdict == VerdictOf(cfg, old(guard), secs, id)
      ensures guard == AfterChecks(cfg, old(guard), secs, id)
    {
      verdict := Allowed;
      if id.Some? {
        var banned := G.IsBanned(cfg, guard, secs, id.value);
        guard := G.AfterAskBanned(cfg, guard, secs, id.value);
        if banned {
          return Banned;
        }
        var waiting := G.IsInBackoff(cfg, guard, secs, id.value);
        guard := G.AfterAskBackoff(guard, id.value);
        if waiting {
          return InBackoff;
        }
      }
    }

    /** Queues a request unless its id is banned or in backoff, it is already tracked, or the queue is full. */
    method Enqueue(now: nat, secs: u64, request: Request) returns (error: Option<EnqueueError>)
      requires Valid()
      modifies this
      ensures var verdict := VerdictOf(cfg, old(guard), secs, request.id);
              && error == EnqueueFails(old(TheBook()), lim, request, verdict)
              && State() == Step(lim, old(State()), At(now, Call.Enqueue(request, verdict)))
      ensures guard == AfterChecks(cfg, old(guard), secs, request.id)
      ensures Valid() && (error.Some? ==> TheBook() == old(TheBook()))
    {
      ghost var d, e := State(), At(now, Call.Enqueue(request, VerdictOf(cfg, guard, secs, request.id)));
      StepKeepsSound(lim, d, e);
      var verdict := CheckGuard(secs, request.id);
      if verdict.Banned? {
        return Some(BanActive);
      }
      if verdict.InBackoff? {
        return Some(BackoffActive);
      }
      if Find(pending, request.peer).Some? || request.peer in inFlight
         || (request.id.Some? && request.id.value in idIndex) {
        return Some(if request.peer in inFlight then AlreadyInFlight else AlreadyPending);
      }
      if |pending| >= lim.maxPending {
        return Some(QueueFull);
      }
      idIndex := Track(idIndex, request);
      pending := pending + [request];
      return None;
    }

    /** Registers a dial as in flight in one step; it may take the in-flight count past its limit. */
    method PrepareAndStart(now: nat, secs: u64, id: Option<Id>, peer: PeerId, data: Data, reachable: bool)
      returns (error: Option<PrepareError>)
      requires Valid()
      modifies this
      ensures var call := Call.PrepareAndStart(id, peer, data, VerdictOf(cfg, old(guard), secs, id), reachable);
              && error == PrepareFails(old(TheBook()), call)
              && State() == Step(lim, old(State()), At(now, call))
      ensures guard == AfterChecks(cfg, old(guard), secs, id)
      ensures Valid() && (error.Some? ==> TheBook() == old(TheBook()))
    {
      ghost var call := Call.PrepareAndStart(id, peer, data, VerdictOf(cfg, guard, secs, id), reachable);
      StepKeepsSound(lim, State(), At(now, call));
      var verdict := CheckGuard(secs, id);
      if verdict.Banned? {
        return Some(PeerBanned);
      }
      if verdict.InBackoff? {
        return Some(BackoffRunning);
      }
      if Find(pending, peer).Some? || peer in inFlight || (id.Some? && id.value in idIndex) {
        return Some(AlreadyTracked);
      }
      if !reachable {
        return Some(NoReachableAddresses);
      }
      var request := Request(id, peer, [], data, now, Some(now));
      idIndex := Track(idIndex, request);
      inFlight := inFlight[peer := request];
      return None;
    }

    /** Takes a dial out of flight and hands the whole request back. */
    method Resolve(now: nat, peer: PeerId) returns (request: Option<Request>)
      requires Valid()
      modifies this
      ensures Valid() && State() == Step(lim, old(State()), At(now, Call.Resolve(peer)))
      ensures request == if peer in old(inFlight) then Some(old(inFlight)[peer]) else None
    {
      StepKeepsSound(lim, State(), At(now, Call.Resolve(peer)));
      if peer !in inFlight {
        return None;
      }
      DropInFlight(TheBook(), peer);
      request := Some(inFlight[peer]);
      idIndex := Untrack(idIndex, inFlight[peer]);
      inFlight := inFlight - {peer};
    }

    /** Removes the listed pending requests one by one. */
    method ForgetPending(gone: seq<Request>)
      requires Consistent(TheBook()) && forall p :: p in PeersOf(gone) ==> Find(pending, p).Some?
      requires Distinct(gone)
      modifies `pending, `idIndex
      ensures TheBook() == Drop(old(TheBook()), PeersOf(gone))
      ensures Consistent(TheBook())
    {
      ghost var b := TheBook();
      DropNothing(b);
      for i := 0 to |gone|
        invariant TheBook() == Drop(b, PeersOf(gone[..i]))
        invariant Consistent(TheBook())
      {
        var p := gone[i].peer;
        ForgetNext(b, gone, i);
        var found := Find(pending, p);
        idIndex := Untrack(idIndex, found.value);
        pending := Keep(pending, {p});
      }
      assert gone[..|gone|] == gone;
    }

    /** Removes the timed-out dials, in whatever order the map yields them. */
    method ForgetTimedOut(now: nat) returns (timedOut: seq<Request>)
      requires Consistent(TheBook())
      modifies `inFlight, `idIndex
      ensures Consistent(TheBook())
      ensures TheBook() == Drop(old(TheBook()), TimedOutPeers(old(TheBook()), lim, now))
      ensures forall r :: r in timedOut
                          <==> r.peer in TimedOutPeers(old(TheBook()), lim, now) && r == old(inFlight)[r.peer]
    {
      ghost var b := TheBook();
      ghost var done: set<PeerId> := {};
      var todo := set p | p in inFlight && TimedOut(inFlight[p], lim, now);
      ghost var all := todo;
      timedOut := [];
      DropNothing(b);
      while todo != {}
        invariant done + todo == all && done !! todo
        invariant TheBook() == Drop(b, done) && Consistent(TheBook())
        invariant forall r :: r in timedOut <==> r.peer in done && r == b.inFlight[r.peer]
        decreases todo
      {
        var p :| p in todo;
        assert p in inFlight && inFlight[p] == b.inFlight[p];
        assert Apart(b, p);
        DropInFlight(TheBook(), p);
        DropDrop(b, done, {p});
        DropKeepsConsistent(TheBook(), {p});
        timedOut := timedOut + [inFlight[p]];
        idIndex := Untrack(idIndex, inFlight[p]);
        inFlight := inFlight - {p};
        todo := todo - {p};
        done := done + {p};
      }
    }

    /** Expires stale pending requests and times out dials in flight for too long. */
    method CleanupExpired(now: nat) returns (expired: seq<Request>, timedOut: seq<Request>)
      requires Valid()
      modifies `pending, `inFlight, `idIndex, `lastCleanup
      ensures Valid() && State() == Cleaned(old(State()), lim, now)
      ensures expired == StaleOnes(old(pending), lim, now)
      ensures forall r :: r in timedOut
                          <==> r.peer in TimedOutPeers(old(TheBook()), lim, now) && r == old(inFlight)[r.peer]
    {
      ghost var b := TheBook();
      CleanedIsSound(lim, State(), now);
      expired := StaleOnes(pending, lim, now);
      StaleOnesArePending(pending, lim, now);
      ForgetPending(expired);
      PendingDropSparesInFlight(b, PeersOf(expired));
      timedOut := ForgetTimedOut(now);
      DropDrop(b, PeersOf(expired), TimedOutPeers(b, lim, now));
      lastCleanup := now;
    }

    /** Picks up to `n` unexpired requests from the front, noting the stale ones passed over. */
    method ScanPending(n: nat, now: nat) returns (picked: seq<Request>, stale: seq<Request>)
      ensures var s := Scan(pending, n, lim, now); picked == s.dispatched && stale == s.expired
    {
      picked, stale := [], [];
      var i := 0;
      assert pending[0..] == pending;
      while i < |pending| && |picked| < n
        invariant i <= |pending| && |picked| <= n
        invariant var s, rest := Scan(pending, n, lim, now), Scan(pending[i..], n - |picked|, lim, now);
                  s.dispatched == picked + rest.dispatched && s.expired == stale + rest.expired
      {
        var r := pending[i];
        assert pending[i..][1..] == pending[i + 1..];
        if Stale(r, lim, now) {
          Assoc(stale, [r], Scan(pending[i + 1..], n - |picked|, lim, now).expired);
          stale := stale + [r];
        } else {
          Assoc(picked, [r], Scan(pending[i + 1..], n - |picked| - 1, lim, now).dispatched);
          picked := picked + [r];
        }
        i := i + 1;
      }
    }

    /** Moves the picked requests from pending to in flight, all with one start time. */
    method StartAll(picked: seq<Request>, now: nat)
      requires Consistent(TheBook()) && forall p :: p in PeersOf(picked) ==> Find(pending, p).Some?
      requires Distinct(picked)
      modifies `pending, `inFlight
      ensures TheBook() == Start(old(TheBook()), PeersOf(picked), now)
    {
      ghost var b := TheBook();
      StartNothing(b, now);
      for i := 0 to |picked|
        invariant TheBook() == Start(b, PeersOf(picked[..i]), now)
      {
        var p := picked[i].peer;
        StartNext(b, picked, i, now);
        var found := Find(pending, p);
        pending := Keep(pending, {p});
        inFlight := inFlight[p := Started(found.value, now)];
      }
      assert picked[..|picked|] == picked;
    }

    /** Dispatches the oldest unexpired requests that the in-flight limit leaves room for. */
    method NextBatch(now: nat, max: nat) returns (batch: seq<Request>)
      requires Valid()
      modifies this
      ensures Valid() && State() == Step(lim, old(State()), At(now, Call.NextBatch(max)))
      ensures batch == Dispatches(lim, old(State()), At(now, Call.NextBatch(max)))
      ensures guard == old(guard)
    {
      SweepIfDue(now);
      BatchIsSound(lim, TheBook(), max, now);
      batch := DispatchBatch(now, max);
    }

    method SweepIfDue(now: nat)
      requires Valid()
      modifies `pending, `inFlight, `idIndex, `lastCleanup
      ensures Valid() && State() == Swept(old(State()), lim, now)
    {
      if Monus(now, lastCleanup) > lim.cleanupInterval {
        var _, _ := CleanupExpired(now);
      }
    }

    /** The part of `NextBatch` after the cleanup. */
    method DispatchBatch(now: nat, max: nat) returns (batch: seq<Request>)
      requires Consistent(TheBook())
      modifies `pending, `inFlight, `idIndex
      ensures TheBook() == AfterBatch(old(TheBook()), lim, max, now)
      ensures batch == Batch(old(TheBook()), lim, max, now).dispatched
    {
      ghost var b := TheBook();
      var size := Min(max, Monus(lim.maxInFlight, |inFlight|));
      if size == 0 {
        DropNothing(b);
        StartNothing(b, now);
        return [];
      }
      var stale;
      batch, stale := ScanPending(size, now);
      ScanIsDistinct(b, size, lim, now);
      ForgetPending(stale);
      ScanStaysPending(b, size, lim, now);
      StartAll(batch, now);
    }

    method RecordBackoff(secs: u64, id: Id)
      modifies `guard
      ensures guard == G.Step(cfg, old(guard), Clocks.At(secs, G.RecordBackoff(id)))
    {
      if guard.backoff.None? {
        return;
      }
      var cache := guard.backoff.value;
      var entry := RecencyList.Find(cache.slots, id);
      var touched := G.Touched(cache, id);
      var failures := G.MoreFailures(if entry.Some? then entry.value.consecutiveFailures else 0);
      if cfg.banAfter > 0 && failures >= cfg.banAfter {
        guard := guard.(backoff := Some(G.Erase(touched, id)));
        if guard.banned.Some? {
          guard := guard.(banned := Some(G.Store(guard.banned.value, id, secs)));
        }
        return;
      }
      guard := guard.(backoff := Some(G.Store(touched, id, G.Backoff.BackoffEntry(secs, failures))));
    }

    method ClearBackoff(id: Id)
      modifies `guard
      ensures guard == G.Clear(old(guard), id)
    {
      if guard.backoff.Some? {
        guard := guard.(backoff := Some(G.Erase(guard.backoff.value, id)));
      }
      if guard.banned.Some? {
        guard := guard.(banned := Some(G.Erase(guard.banned.value, id)));
      }
    }
  }

  // ----- Removing and starting one request at a time

  lemma DropNothing(b: Book)
    ensures Drop(b, {}) == b
  {
    KeepNone(b.pending, {});
  }

  lemma StartNothing(b: Book, now: nat)
    ensures Start(b, {}, now) == b
  {
    KeepNone(b.pending, {});
  }

  lemma DropDrop(b: Book, a: set<PeerId>, c: set<PeerId>)
    ensures Drop(Drop(b, a), c) == Drop(b, a + c)
  {
    KeepKeep(b.pending, a, c);
  }

  /** Untracking the id of the dropped request is enough to keep the index right. */
  lemma UntrackIsExact(b: Book, p: PeerId)
    requires Consistent(b) && Live(b, p).Some?
    ensures (map id | id in b.idIndex && b.idIndex[id] !in {p} :: b.idIndex[id]) == Untrack(b.idIndex, Live(b, p).value)
  {
    var r := Live(b, p).value;
    forall id ensures id in b.idIndex && b.idIndex[id] == p <==> r.id == Some(id) {
      assert Indexed(b, p, id);
    }
  }

  lemma DropPending(b: Book, p: PeerId)
    requires Consistent(b) && Find(b.pending, p).Some?
    ensures Drop(b, {p}) == Book(Keep(b.pending, {p}), b.inFlight, Untrack(b.idIndex, Find(b.pending, p).value))
  {
    assert Apart(b, p);
    assert b.inFlight - {p} == b.inFlight;
    UntrackIsExact(b, p);
  }

  lemma DropInFlight(b: Book, p: PeerId)
    requires Consistent(b) && p in b.inFlight
    ensures Drop(b, {p}) == Book(b.pending, b.inFlight - {p}, Untrack(b.idIndex, b.inFlight[p]))
  {
    assert Apart(b, p);
    KeepNone(b.pending, {p});
    UntrackIsExact(b, p);
  }

  lemma PendingDropSparesInFlight(b: Book, gone: set<PeerId>)
    requires Consistent(b) && forall p :: p in gone ==> Find(b.pending, p).Some?
    ensures Drop(b, gone).inFlight == b.inFlight
  {
    forall p | p in gone ensures p !in b.inFlight {
      assert Apart(b, p);
    }
  }

  lemma StartStart(b: Book, peers: set<PeerId>, p: PeerId, now: nat)
    requires p !in peers && Find(b.pending, p).Some?
    ensures var b1 := Start(b, peers, now);
            Start(b, peers + {p}, now)
            == Book(Keep(b1.pending, {p}), b1.inFlight[p := Started(Find(b.pending, p).value, now)], b1.idIndex)
  {
    KeepKeep(b.pending, peers, {p});
  }

  /** Distinct peers: the `i`-th is not among those before it. */
  lemma {:induction false} EarlierPeersDiffer(rs: seq<Request>, i: nat)
    requires Distinct(rs) && i < |rs|
    ensures rs[i].peer !in PeersOf(rs[..i])
    decreases |rs|
  {
    if i > 0 {
      EarlierPeersDiffer(rs[1..], i - 1);
      assert rs[..i] == [rs[0]] + rs[1..][..i - 1];
      PeersCons(rs[0], rs[1..][..i - 1]);
      FindHasPeer(rs[1..], rs[0].peer);
      PeerAt(rs[1..], i - 1);
    }
  }

  lemma {:induction false} PeerAt(rs: seq<Request>, i: nat)
    requires i < |rs|
    ensures rs[i].peer in PeersOf(rs)
    decreases |rs|
  {
    if i > 0 {
      PeerAt(rs[1..], i - 1);
    }
  }

  lemma NotYetGone(b: Book, gone: seq<Request>, i: nat)
    requires Distinct(gone) && i < |gone| && forall p :: p in PeersOf(gone) ==> Find(b.pending, p).Some?
    ensures gone[i].peer !in PeersOf(gone[..i])
    ensures Find(b.pending, gone[i].peer).Some?
    ensures Find(Drop(b, PeersOf(gone[..i])).pending, gone[i].peer) == Find(b.pending, gone[i].peer)
  {
    EarlierPeersDiffer(gone, i);
    PeerAt(gone, i);
    FindKeep(b.pending, PeersOf(gone[..i]), gone[i].peer);
  }

  lemma StartNext(b: Book, picked: seq<Request>, i: nat, now: nat)
    requires Distinct(picked) && i < |picked| && forall p :: p in PeersOf(picked) ==> Find(b.pending, p).Some?
    ensures var b1, p := Start(b, PeersOf(picked[..i]), now), picked[i].peer;
            && Find(b1.pending, p).Some?
            && Start(b, PeersOf(picked[..i + 1]), now)
               == Book(Keep(b1.pending, {p}), b1.inFlight[p := Started(Find(b1.pending, p).value, now)], b1.idIndex)
  {
    TakeNext(picked, i);
    PeersSnoc(picked[..i], picked[i]);
    NotYetGone(b, picked, i);
    StartStart(b, PeersOf(picked[..i]), picked[i].peer, now);
  }

  lemma ForgetNext(b: Book, gone: seq<Request>, i: nat)
    requires Consistent(b)
    requires Distinct(gone) && i < |gone| && forall p :: p in PeersOf(gone) ==> Find(b.pending, p).Some?
    ensures var b1, p := Drop(b, PeersOf(gone[..i])), gone[i].peer;
            && Find(b1.pending, p).Some?
            && Drop(b, PeersOf(gone[..i + 1]))
               == Book(Keep(b1.pending, {p}), b1.inFlight, Untrack(b1.idIndex, Find(b1.pending, p).value))
    ensures Consistent(Drop(b, PeersOf(gone[..i + 1])))
  {
    TakeNext(gone, i);
    PeersSnoc(gone[..i], gone[i]);
    NotYetGone(b, gone, i);
    DropKeepsConsistent(b, PeersOf(gone[..i]));
    DropPending(Drop(b, PeersOf(gone[..i])), gone[i].peer);
    DropDrop(b, PeersOf(gone[..i]), {gone[i].peer});
    DropKeepsConsistent(b, PeersOf(gone[..i + 1]));
  }

  lemma {:induction false} DistinctSubseq(a: seq<Request>, pending: seq<Request>)
    requires Distinct(pending) && Subseq(a, pending)
    ensures Distinct(a) && PeersOf(a) <= PeersOf(pending)
    decreases |pending|
  {
    if a != [] {
      if a[0] == pending[0] && Subseq(a[1..], pending[1..]) {
        DistinctSubseq(a[1..], pending[1..]);
        FindHasPeer(a[1..], a[0].peer);
        FindHasPeer(pending[1..], a[0].peer);
      } else {
        DistinctSubseq(a, pending[1..]);
      }
    }
  }

  lemma {:induction false} StaleOnesAreSubseq(pending: seq<Request>, lim: Limits, now: nat)
    ensures Subseq(StaleOnes(pending, lim, now), pending)
    decreases |pending|
  {
    if pending != [] {
      var rest := StaleOnes(pending[1..], lim, now);
      StaleOnesAreSubseq(pending[1..], lim, now);
      assert pending == [pending[0]] + pending[1..];
      if Stale(pending[0], lim, now) {
        SubseqBoth(pending[0], rest, pending[1..]);
      } else {
        assert [] + rest == rest;
        SubseqSkip([pending[0]], rest, pending[1..]);
      }
    }
  }

  lemma SubseqIsPending(a: seq<Request>, pending: seq<Request>)
    requires Distinct(pending) && Subseq(a, pending)
    ensures Distinct(a) && forall p :: p in PeersOf(a) ==> Find(pending, p).Some?
  {
    DistinctSubseq(a, pending);
    forall p | p in PeersOf(a) ensures Find(pending, p).Some? {
      FindHasPeer(pending, p);
    }
  }

  lemma StaleOnesArePending(pending: seq<Request>, lim: Limits, now: nat)
    requires Distinct(pending)
    ensures Distinct(StaleOnes(pending, lim, now))
    ensures forall p :: p in PeersOf(StaleOnes(pending, lim, now)) ==> Find(pending, p).Some?
  {
    StaleOnesAreSubseq(pending, lim, now);
    SubseqIsPending(StaleOnes(pending, lim, now), pending);
  }

  lemma {:induction false} ScanPartsAreSubseq(pending: seq<Request>, n: nat, lim: Limits, now: nat)
    ensures Subseq(Scan(pending, n, lim, now).dispatched, pending)
    ensures Subseq(Scan(pending, n, lim, now).expired, pending)
    decreases |pending|
  {
    if pending != [] && n > 0 {
      var m := if Stale(pending[0], lim, now) then n else n - 1;
      var s := Scan(pending[1..], m, lim, now);
      ScanPartsAreSubseq(pending[1..], m, lim, now);
      assert pending == [pending[0]] + pending[1..];
      SubseqSkip([pending[0]], s.dispatched, pending[1..]);
      SubseqSkip([pending[0]], s.expired, pending[1..]);
      SubseqBoth(pending[0], s.dispatched, pending[1..]);
      SubseqBoth(pending[0], s.expired, pending[1..]);
    }
  }

  lemma ScanIsDistinct(b: Book, n: nat, lim: Limits, now: nat)
    requires Consistent(b)
    ensures var s := Scan(b.pending, n, lim, now);
            && Distinct(s.expired) && Distinct(s.dispatched)
            && (forall p :: p in PeersOf(s.expired) ==> Find(b.pending, p).Some?)
            && (forall p :: p in PeersOf(s.dispatched) ==> Find(b.pending, p).Some?)
  {
    ScanPartsAreSubseq(b.pending, n, lim, now);
    SubseqIsPending(Scan(b.pending, n, lim, now).expired, b.pending);
    SubseqIsPending(Scan(b.pending, n, lim, now).dispatched, b.pending);
  }

  lemma ScanStaysPending(b: Book, n: nat, lim: Limits, now: nat)
    requires Consistent(b)
    ensures var s := Scan(b.pending, n, lim, now);
            forall p :: p in PeersOf(s.dispatched) ==> Find(Drop(b, PeersOf(s.expired)).pending, p).Some?
  {
    var s := Scan(b.pending, n, lim, now);
    ScanIsDistinct(b, n, lim, now);
    ScanPartitions(b.pending, n, lim, now);
    forall p | p in PeersOf(s.dispatched) ensures Find(Drop(b, PeersOf(s.expired)).pending, p).Some? {
      FindKeep(b.pending, PeersOf(s.expired), p);
    }
  }
}
