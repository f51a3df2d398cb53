/**
 The three maps of the dial tracker: a FIFO of pending requests, the requests in
 flight, and the reverse index from application ids to peers.
 Every call reads the clock once.
 */
module DialBook {
  import opened Words
  import opened Options
  import opened Seqs
  import G = DialGuard

  type PeerId(==, !new)
  type Addr(!new)
  type Data(!new)
  type Id = G.Id

  datatype Request = Request(
    id: Option<Id>, peer: PeerId, addrs: seq<Addr>, data: Data, queuedAt: nat, startedAt: Option<nat>)

  datatype Limits = Limits(
    maxPending: nat, maxInFlight: nat, pendingTtl: nat, inFlightTimeout: nat, cleanupInterval: nat)

  /** `pending` is insertion-ordered, oldest first. */
  datatype Book = Book(pending: seq<Request>, inFlight: map<PeerId, Request>, idIndex: map<Id, PeerId>)

  // ----- The pending queue

  function Find(pending: seq<Request>, p: PeerId): Option<Request> {
    if pending == [] then None
    else if pending[0].peer == p then Some(pending[0])
    else Find(pending[1..], p)
  }

  /** Drops the requests of the peers in `gone`, keeping the order of the rest. */
  function Keep(pending: seq<Request>, gone: set<PeerId>): seq<Request> {
    if pending == [] then []
    else (if pending[0].peer in gone then [] else [pending[0]]) + Keep(pending[1..], gone)
  }

  predicate Distinct(pending: seq<Request>) {
    pending == [] || (Find(pending[1..], pending[0].peer).None? && Distinct(pending[1..]))
  }

  function PeersOf(rs: seq<Request>): set<PeerId> {
    if rs == [] then {} else {rs[0].peer} + PeersOf(rs[1..])
  }

  lemma {:induction false} FindHasPeer(pending: seq<Request>, p: PeerId)
    ensures Find(pending, p).Some? ==> Find(pending, p).value.peer == p && Find(pending, p).value in pending
    ensures Find(pending, p).Some? <==> p in PeersOf(pending)
    decreases |pending|
  {
    if pending != [] {
      FindHasPeer(pending[1..], p);
    }
  }

  lemma {:induction false} FindKeep(pending: seq<Request>, gone: set<PeerId>, p: PeerId)
    ensures Find(Keep(pending, gone), p) == if p in gone then None else Find(pending, p)
    decreases |pending|
  {
    if pending != [] {
      FindKeep(pending[1..], gone, p);
      if pending[0].peer !in gone {
        var rest := Keep(pending[1..], gone);
        assert ([pending[0]] + rest)[1..] == rest;
      } else {
        assert [] + Keep(pending[1..], gone) == Keep(pending[1..], gone);
      }
    }
  }

  lemma {:induction false} KeepShrinks(pending: seq<Request>, gone: set<PeerId>)
    ensures |Keep(pending, gone)| <= |pending|
    ensures Subseq(Keep(pending, gone), pending)
    ensures Distinct(pending) ==> Distinct(Keep(pending, gone))
    decreases |pending|
  {
    if pending != [] {
      var head, rest := pending[0], Keep(pending[1..], gone);
      KeepShrinks(pending[1..], gone);
      FindKeep(pending[1..], gone, head.peer);
      assert pending == [head] + pending[1..];
      if head.peer in gone {
        assert [] + rest == rest;
        SubseqSkip([head], rest, pending[1..]);
      } else {
        SubseqBoth(head, rest, pending[1..]);
        assert ([head] + rest)[1..] == rest;
      }
    }
  }

  lemma {:induction false} KeepNone(pending: seq<Request>, gone: set<PeerId>)
    requires forall p :: p in gone ==> Find(pending, p).None?
    ensures Keep(pending, gone) == pending
    decreases |pending|
  {
    if pending != [] {
      forall p | p in gone ensures Find(pending[1..], p).None? && p != pending[0].peer {
        assert Find(pending, p).None?;
      }
      KeepNone(pending[1..], gone);
    }
  }

  lemma {:induction false} KeepKeep(pending: seq<Request>, a: set<PeerId>, b: set<PeerId>)
    ensures Keep(Keep(pending, a), b) == Keep(pending, a + b)
    decreases |pending|
  {
    if pending != [] {
      KeepKeep(pending[1..], a, b);
      var rest := Keep(pending[1..], a);
      if pending[0].peer in a {
        assert [] + rest == rest;
      } else {
        assert ([pending[0]] + rest)[1..] == rest;
      }
    }
  }

  lemma {:induction false} FindAppend(pending: seq<Request>, r: Request, p: PeerId)
    ensures Find(pending + [r], p)
            == if Find(pending, p).Some? then Find(pending, p) else if p == r.peer then Some(r) else None
    decreases |pending|
  {
    if pending == [] {
      assert pending + [r] == [r] && [r][1..] == [];
    } else {
      FindAppend(pending[1..], r, p);
      assert (pending + [r])[1..] == pending[1..] + [r];
    }
  }

  lemma {:induction false} DistinctAppend(pending: seq<Request>, r: Request)
    requires Distinct(pending) && Find(pending, r.peer).None?
    ensures Distinct(pending + [r])
    decreases |pending|
  {
    if pending == [] {
      assert pending + [r] == [r] && [r][1..] == [];
    } else {
      DistinctAppend(pending[1..], r);
      FindAppend(pending[1..], r, pending[0].peer);
      assert (pending + [r])[1..] == pending[1..] + [r];
    }
  }

  // ----- The invariant

  /** The tracked request of a peer, wherever it is. */
  function Live(b: Book, p: PeerId): Option<Request> {
    if p in b.inFlight then Some(b.inFlight[p]) else Find(b.pending, p)
  }

  ghost predicate Apart(b: Book, p: PeerId) {
    p in b.inFlight ==> b.inFlight[p].peer == p && b.inFlight[p].startedAt.Some? && Find(b.pending, p).None?
  }

  ghost predicate Carries(b: Book, p: PeerId, id: Id) {
    Live(b, p).Some? && Live(b, p).value.id == Some(id)
  }

  ghost predicate Indexed(b: Book, p: PeerId, id: Id) {
    Carries(b, p, id) <==> id in b.idIndex && b.idIndex[id] == p
  }

  /**
   Each peer is tracked at most once, never both pending and in flight, what is in
   flight has a start time, and the index is exactly the id-to-peer map of the
   tracked requests that carry an id.
   */
  ghost predicate Consistent(b: Book) {
    && Distinct(b.pending)
    && (forall p :: Apart(b, p))
    && (forall p, id :: Indexed(b, p, id))
  }

  /** No application id is tracked twice. */
  lemma IdsAreUnique(b: Book, p: PeerId, q: PeerId, id: Id)
    requires Consistent(b) && Carries(b, p, id) && Carries(b, q, id)
    ensures p == q
  {
    assert Indexed(b, p, id) && Indexed(b, q, id);
  }

  // ----- Removing, adding and starting requests

  /** Stops tracking the peers in `gone`. */
  function Drop(b: Book, gone: set<PeerId>): Book {
    Book(Keep(b.pending, gone), b.inFlight - gone, map id | id in b.idIndex && b.idIndex[id] !in gone :: b.idIndex[id])
  }

  lemma LiveDrop(b: Book, gone: set<PeerId>, p: PeerId)
    ensures Live(Drop(b, gone), p) == if p in gone then None else Live(b, p)
  {
    FindKeep(b.pending, gone, p);
  }

  lemma DropKeepsConsistent(b: Book, gone: set<PeerId>)
    requires Consistent(b)
    ensures Consistent(Drop(b, gone))
  {
    var b' := Drop(b, gone);
    KeepShrinks(b.pending, gone);
    forall p ensures Apart(b', p) {
      assert Apart(b, p);
      FindKeep(b.pending, gone, p);
    }
    forall p, id ensures Indexed(b', p, id) {
      assert Indexed(b, p, id);
      LiveDrop(b, gone, p);
    }
  }

  function Track(idIndex: map<Id, PeerId>, r: Request): map<Id, PeerId> {
    if r.id.Some? then idIndex[r.id.value := r.peer] else idIndex
  }

  function Untrack(idIndex: map<Id, PeerId>, r: Request): map<Id, PeerId> {
    if r.id.Some? then idIndex - {r.id.value} else idIndex
  }

  predicate IsTracked(b: Book, peer: PeerId, id: Option<Id>) {
    Find(b.pending, peer).Some? || peer in b.inFlight || (id.Some? && id.value in b.idIndex)
  }

  function AddPending(b: Book, r: Request): Book {
    Book(b.pending + [r], b.inFlight, Track(b.idIndex, r))
  }

  function AddInFlight(b: Book, r: Request): Book {
    Book(b.pending, b.inFlight[r.peer := r], Track(b.idIndex, r))
  }

  lemma AddKeepsIndexed(b: Book, b': Book, r: Request)
    requires Consistent(b) && !IsTracked(b, r.peer, r.id)
    requires b'.idIndex == Track(b.idIndex, r)
    requires forall p :: Live(b', p) == if p == r.peer then Some(r) else Live(b, p)
    ensures forall p, id :: Indexed(b', p, id)
  {
    forall p, id ensures Indexed(b', p, id) {
      assert Live(b', p) == if p == r.peer then Some(r) else Live(b, p);
      assert Indexed(b, p, id);
      assert Indexed(b, r.peer, id);
    }
  }

  lemma AddPendingKeepsConsistent(b: Book, r: Request)
    requires Consistent(b) && !IsTracked(b, r.peer, r.id)
    ensures Consistent(AddPending(b, r))
    ensures forall p :: Live(AddPending(b, r), p) == if p == r.peer then Some(r) else Live(b, p)
  {
    var b' := AddPending(b, r);
    DistinctAppend(b.pending, r);
    forall p ensures Apart(b', p) && Live(b', p) == if p == r.peer then Some(r) else Live(b, p) {
      assert Apart(b, p);
      FindAppend(b.pending, r, p);
    }
    AddKeepsIndexed(b, b', r);
  }

  lemma AddInFlightKeepsConsistent(b: Book, r: Request)
    requires Consistent(b) && !IsTracked(b, r.peer, r.id) && r.startedAt.Some?
    ensures Consistent(AddInFlight(b, r))
    ensures forall p :: Live(AddInFlight(b, r), p) == if p == r.peer then Some(r) else Live(b, p)
  {
    var b' := AddInFlight(b, r);
    forall p ensures Apart(b', p) {
      assert Apart(b, p);
    }
    AddKeepsIndexed(b, b', r);
  }

  function Started(r: Request, now: nat): Request {
    r.(startedAt := Some(now))
  }

  /** Moves the pending requests of `peers` to in flight. */
  function Start(b: Book, peers: set<PeerId>, now: nat): Book {
    Book(Keep(b.pending, peers),
         b.inFlight + map p | p in peers && Find(b.pending, p).Some? :: Started(Find(b.pending, p).value, now),
         b.idIndex)
  }

  lemma LiveStart(b: Book, peers: set<PeerId>, now: nat, p: PeerId)
    requires Consistent(b)
    ensures Live(Start(b, peers, now), p)
            == if p in peers && Find(b.pending, p).Some? then Some(Started(Find(b.pending, p).value, now))
               else Live(b, p)
  {
    FindKeep(b.pending, peers, p);
    assert Apart(b, p);
  }

  lemma StartKeepsConsistent(b: Book, peers: set<PeerId>, now: nat)
    requires Consistent(b)
    ensures Consistent(Start(b, peers, now))
  {
    var b' := Start(b, peers, now);
    KeepShrinks(b.pending, peers);
    forall p ensures Apart(b', p) {
      assert Apart(b, p);
      FindKeep(b.pending, peers, p);
      FindHasPeer(b.pending, p);
    }
    forall p, id ensures Indexed(b', p, id) {
      assert Indexed(b, p, id) && Apart(b, p);
      LiveStart(b, peers, now, p);
    }
  }

  // ----- Scanning for a batch

  predicate Stale(r: Request, lim: Limits, now: nat) {
    Monus(now, r.queuedAt) > lim.pendingTtl
  }

  predicate TimedOut(r: Request, lim: Limits, now: nat) {
    r.startedAt.Some? && Monus(now, r.startedAt.value) > lim.inFlightTimeout
  }

  datatype Scanned = Scanned(dispatched: seq<Request>, expired: seq<Request>, rest: seq<Request>)

  /** Walks the queue until `n` requests are picked, setting stale ones aside. */
  function Scan(pending: seq<Request>, n: nat, lim: Limits, now: nat): Scanned
    decreases |pending|
  {
    if pending == [] || n == 0 then Scanned([], [], pending)
    else if Stale(pending[0], lim, now) then
      var s := Scan(pending[1..], n, lim, now);
      s.(expired := [pending[0]] + s.expired)
    else
      var s := Scan(pending[1..], n - 1, lim, now);
      s.(dispatched := [pending[0]] + s.dispatched)
  }

  /** The requests of a queue that are not stale, in order. */
  function FreshOnes(pending: seq<Request>, lim: Limits, now: nat): seq<Request> {
    if pending == [] then []
    else (if Stale(pending[0], lim, now) then [] else [pending[0]]) + FreshOnes(pending[1..], lim, now)
  }

  function Take<T>(s: seq<T>, n: nat): seq<T> {
    if |s| <= n then s else s[..n]
  }

  /** The batch is exactly the `n` oldest unexpired requests, in queue order. */
  lemma {:induction false} ScanPicksOldestFresh(pending: seq<Request>, n: nat, lim: Limits, now: nat)
    ensures Scan(pending, n, lim, now).dispatched == Take(FreshOnes(pending, lim, now), n)
    decreases |pending|
  {
    if pending != [] && n > 0 {
      var rest := FreshOnes(pending[1..], lim, now);
      if Stale(pending[0], lim, now) {
        ScanPicksOldestFresh(pending[1..], n, lim, now);
        assert [] + rest == rest;
      } else {
        ScanPicksOldestFresh(pending[1..], n - 1, lim, now);
        assert Take([pending[0]] + rest, n) == [pending[0]] + Take(rest, n - 1);
      }
    }
  }

  lemma {:induction false} ScanKeepsOrder(pending: seq<Request>, n: nat, lim: Limits, now: nat)
    ensures var s := Scan(pending, n, lim, now);
            && Subseq(s.dispatched + s.rest, pending)
            && |s.dispatched| <= n
            && (forall r :: r in s.expired ==> Stale(r, lim, now))
            && (forall r :: r in s.dispatched ==> !Stale(r, lim, now))
    decreases |pending|
  {
    if pending == [] || n == 0 {
      SubseqRefl(pending);
      assert [] + pending == pending;
    } else {
      var head := pending[0];
      assert pending == [head] + pending[1..];
      if Stale(head, lim, now) {
        var s := Scan(pending[1..], n, lim, now);
        ScanKeepsOrder(pending[1..], n, lim, now);
        SubseqSkip([head], s.dispatched + s.rest, pending[1..]);
      } else {
        var s := Scan(pending[1..], n - 1, lim, now);
        ScanKeepsOrder(pending[1..], n - 1, lim, now);
        SubseqBoth(head, s.dispatched + s.rest, pending[1..]);
        Assoc([head], s.dispatched, s.rest);
      }
    }
  }

  lemma {:induction false} ScanPeersArePending(pending: seq<Request>, n: nat, lim: Limits, now: nat, p: PeerId)
    ensures var s := Scan(pending, n, lim, now);
            p in PeersOf(s.dispatched) || p in PeersOf(s.expired) ==> Find(pending, p).Some?
    decreases |pending|
  {
    if pending != [] && n > 0 {
      var m := if Stale(pending[0], lim, now) then n else n - 1;
      var s := Scan(pending[1..], m, lim, now);
      ScanPeersArePending(pending[1..], m, lim, now, p);
      PeersCons(pending[0], s.expired);
      PeersCons(pending[0], s.dispatched);
    }
  }

  lemma PeersCons(r: Request, rs: seq<Request>)
    ensures PeersOf([r] + rs) == {r.peer} + PeersOf(rs)
  {
    assert ([r] + rs)[1..] == rs;
  }

  lemma {:induction false} PeersSnoc(rs: seq<Request>, r: Request)
    ensures PeersOf(rs + [r]) == PeersOf(rs) + {r.peer}
    decreases |rs|
  {
    if rs == [] {
      assert rs + [r] == [r] && [r][1..] == [];
    } else {
      PeersSnoc(rs[1..], r);
      assert (rs + [r])[1..] == rs[1..] + [r];
    }
  }

  lemma {:induction false} MemberIsFound(pending: seq<Request>, r: Request)
    requires Distinct(pending) && r in pending
    ensures Find(pending, r.peer) == Some(r)
    decreases |pending|
  {
    if r != pending[0] {
      assert r in pending[1..];
      MemberIsFound(pending[1..], r);
    }
  }

  lemma {:induction false} MemberHasPeer(rs: seq<Request>, r: Request)
    requires r in rs
    ensures r.peer in PeersOf(rs)
    decreases |rs|
  {
    if r != rs[0] {
      assert r in rs[1..];
      MemberHasPeer(rs[1..], r);
    }
  }

  lemma {:induction false} ScanPicksMembers(pending: seq<Request>, n: nat, lim: Limits, now: nat, r: Request)
    requires r in Scan(pending, n, lim, now).dispatched
    ensures r in pending
    decreases |pending|
  {
    var m := if Stale(pending[0], lim, now) then n else n - 1;
    if r in Scan(pending[1..], m, lim, now).dispatched {
      ScanPicksMembers(pending[1..], m, lim, now, r);
    }
  }

  /** In a queue of distinct peers, no peer is both picked and set aside, and what remains is the unscanned rest. */
  lemma {:induction false} ScanPartitions(pending: seq<Request>, n: nat, lim: Limits, now: nat)
    requires Distinct(pending)
    ensures var s := Scan(pending, n, lim, now);
            && PeersOf(s.dispatched) !! PeersOf(s.expired)
            && Keep(pending, PeersOf(s.expired) + PeersOf(s.dispatched)) == s.rest
    decreases |pending|
  {
    if pending == [] || n == 0 {
      KeepNone(pending, {});
      assert PeersOf([]) + PeersOf([]) == {};
    } else {
      var head, tail := pending[0], pending[1..];
      var m := if Stale(head, lim, now) then n else n - 1;
      var s := Scan(tail, m, lim, now);
      var gone := PeersOf(s.expired) + PeersOf(s.dispatched);
      ScanPartitions(tail, m, lim, now);
      ScanPeersArePending(tail, m, lim, now, head.peer);
      PeersCons(head, s.expired);
      PeersCons(head, s.dispatched);
      KeepKeep(tail, gone, {head.peer});
      KeepNone(Keep(tail, gone), {head.peer}) by { FindKeep(tail, gone, head.peer); }
      assert [] + Keep(tail, gone + {head.peer}) == s.rest;
      assert gone + {head.peer}
          == PeersOf(Scan(pending, n, lim, now).expired) + PeersOf(Scan(pending, n, lim, now).dispatched);
    }
  }
}
