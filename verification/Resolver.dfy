/**
 The dnsaddr recursion driver: a depth-bounded depth-first walk, with one shared
 set of visited names, over whatever graph the TXT records form.
 */
module Resolver {
  type Name(==, !new)
  type Addr(==, !new)

  /** One published value: a nested `/dnsaddr/`, an address with its dialability, or text that does not parse. */
  datatype Record = Nested(name: Name) | Leaf(addr: Addr, dialable: bool) | Malformed

  /** The records a name publishes, or `Unavailable` when the fetch or the parse of the response fails. */
  datatype Lookup = Records(records: seq<Record>) | Unavailable

  type Network = Name -> Lookup

  const U8_MAX: nat := 255

  /** `fetched` and `cut` record the fetches made and the names refused for being too deep. */
  datatype Walk = Walk(seen: set<Name>, leaves: seq<Addr>, seenLeaves: set<Addr>, fetched: seq<Name>, cut: set<Name>)

  function RecordsOf(net: Network, name: Name): seq<Record> {
    if net(name).Records? then net(name).records else []
  }

  // ----- The walk as a function

  function Visit(net: Network, name: Name, depth: nat, maxDepth: nat, w: Walk): (w': Walk)
    ensures w.seen <= w'.seen && w.cut <= w'.cut
    ensures w.leaves <= w'.leaves && w.fetched <= w'.fetched
    decreases maxDepth + 1 - depth, 1, 0
  {
    if depth > maxDepth then w.(cut := w.cut + {name})
    else if name in w.seen then w
    else
      VisitRecords(net, RecordsOf(net, name), depth, maxDepth,
                   w.(seen := w.seen + {name}, fetched := w.fetched + [name]))
  }

  /** Takes the records of a name at `depth` in order. */
  function VisitRecords(net: Network, records: seq<Record>, depth: nat, maxDepth: nat, w: Walk): (w': Walk)
    requires depth <= maxDepth
    ensures w.seen <= w'.seen && w.cut <= w'.cut
    ensures w.leaves <= w'.leaves && w.fetched <= w'.fetched
    decreases maxDepth + 1 - depth, 0, |records|
  {
    if records == [] then w
    else
      var n := |records| - 1;
      VisitRecord(net, records[n], depth, maxDepth, VisitRecords(net, records[..n], depth, maxDepth, w))
  }

  function VisitRecord(net: Network, r: Record, depth: nat, maxDepth: nat, w: Walk): (w': Walk)
    requires depth <= maxDepth
    ensures w.seen <= w'.seen && w.cut <= w'.cut
    ensures w.leaves <= w'.leaves && w.fetched <= w'.fetched
    decreases maxDepth - depth, 2, 0
  {
    match r
    case Nested(name) => Visit(net, name, depth + 1, maxDepth, w)
    case Leaf(addr, dialable) =>
      if dialable && addr !in w.seenLeaves
      then w.(leaves := w.leaves + [addr], seenLeaves := w.seenLeaves + {addr})
      else w
    case Malformed => w
  }

  function Start(): Walk {
    Walk({}, [], {}, [], {})
  }

  function Resolve(net: Network, root: Name, maxDepth: nat): Walk {
    Visit(net, root, 0, maxDepth, Start())
  }

  // ----- What there is to find

  predicate Publishes(net: Network, name: Name, r: Record) {
    r in RecordsOf(net, name)
  }

  /** `name` is exactly `hops` nested references away from `root` along some path. */
  ghost predicate HopsAway(net: Network, root: Name, name: Name, hops: nat) {
    if hops == 0 then name == root
    else exists via :: HopsAway(net, root, via, hops - 1) && Publishes(net, via, Nested(name))
  }

  ghost predicate WithinHops(net: Network, root: Name, name: Name, bound: nat) {
    exists hops: nat :: hops <= bound && HopsAway(net, root, name, hops)
  }

  ghost predicate Reachable(net: Network, root: Name, name: Name) {
    exists hops: nat :: HopsAway(net, root, name, hops)
  }

  // ----- What every part of the walk keeps

  ghost predicate Distinct<T>(s: seq<T>) {
    forall i, j :: 0 <= i < j < |s| ==> s[i] != s[j]
  }

  /** The bookkeeping agrees with itself: nothing fetched twice, no leaf twice. */
  ghost predicate Tidy(w: Walk) {
    && Distinct(w.fetched) && (forall n :: n in w.seen <==> n in w.fetched)
    && Distinct(w.leaves) && (forall a :: a in w.seenLeaves <==> a in w.leaves)
  }

  /** Everything taken in is within `maxDepth` hops of the root and really published there. */
  ghost predicate Sound(net: Network, root: Name, maxDepth: nat, w: Walk) {
    && (forall n :: n in w.seen ==> WithinHops(net, root, n, maxDepth))
    && (forall a :: a in w.leaves ==> exists n :: n in w.seen && Publishes(net, n, Leaf(a, true)))
    && (forall n :: n in w.cut ==> Reachable(net, root, n))
  }

  /** `w'` extends `w`, and every name added on the way had all of its records followed (or cut). */
  ghost predicate Extends(net: Network, w: Walk, w': Walk) {
    && w.seen <= w'.seen && w.seenLeaves <= w'.seenLeaves && w.cut <= w'.cut
    && forall n, r :: n in w'.seen && n !in w.seen && Publishes(net, n, r) ==> Followed(r, w')
  }

  predicate Followed(r: Record, w: Walk) {
    match r
    case Nested(name) => name in w.seen || name in w.cut
    case Leaf(addr, dialable) => dialable ==> addr in w.seenLeaves
    case Malformed => true
  }

  lemma ExtendsTrans(net: Network, a: Walk, b: Walk, c: Walk)
    requires Extends(net, a, b) && Extends(net, b, c)
    ensures Extends(net, a, c)
  {
  }

  lemma FollowedStays(net: Network, records: seq<Record>, w: Walk, w': Walk)
    requires Extends(net, w, w') && forall r :: r in records ==> Followed(r, w)
    ensures forall r :: r in records ==> Followed(r, w')
  {
  }

  ghost predicate Good(net: Network, root: Name, maxDepth: nat, w: Walk) {
    Tidy(w) && Sound(net, root, maxDepth, w)
  }

  lemma LeafKeepsGood(net: Network, root: Name, maxDepth: nat, owner: Name, addr: Addr, w: Walk)
    requires Good(net, root, maxDepth, w) && owner in w.seen && Publishes(net, owner, Leaf(addr, true))
    requires addr !in w.seenLeaves
    ensures Good(net, root, maxDepth, w.(leaves := w.leaves + [addr], seenLeaves := w.seenLeaves + {addr}))
  {
    var w' := w.(leaves := w.leaves + [addr], seenLeaves := w.seenLeaves + {addr});
    forall a | a in w'.leaves ensures exists n :: n in w'.seen && Publishes(net, n, Leaf(a, true)) {
      if a == addr {
        assert owner in w'.seen;
      } else {
        assert a in w.leaves;
      }
    }
  }

  lemma EnterKeepsGood(net: Network, root: Name, maxDepth: nat, name: Name, hops: nat, w: Walk)
    requires Good(net, root, maxDepth, w) && name !in w.seen && hops <= maxDepth && HopsAway(net, root, name, hops)
    ensures Good(net, root, maxDepth, w.(seen := w.seen + {name}, fetched := w.fetched + [name]))
  {
    var w' := w.(seen := w.seen + {name}, fetched := w.fetched + [name]);
    assert Tidy(w');
    forall a | a in w'.leaves ensures exists n :: n in w'.seen && Publishes(net, n, Leaf(a, true)) {
      var n :| n in w.seen && Publishes(net, n, Leaf(a, true));
      assert n in w'.seen;
    }
  }

  lemma {:induction false} VisitKeeps(net: Network, root: Name, name: Name, depth: nat, maxDepth: nat, w: Walk)
    requires Good(net, root, maxDepth, w) && HopsAway(net, root, name, depth)
    ensures var w' := Visit(net, name, depth, maxDepth, w);
            Good(net, root, maxDepth, w') && Extends(net, w, w') && Followed(Nested(name), w')
    decreases maxDepth + 1 - depth, 1, 0
  {
    if depth <= maxDepth && name !in w.seen {
      var entered := w.(seen := w.seen + {name}, fetched := w.fetched + [name]);
      EnterKeepsGood(net, root, maxDepth, name, depth, w);
      VisitRecordsKeeps(net, root, name, RecordsOf(net, name), depth, maxDepth, entered);
    }
  }

  lemma {:induction false} VisitRecordsKeeps(net: Network, root: Name, owner: Name, records: seq<Record>,
                                             depth: nat, maxDepth: nat, w: Walk)
    requires Good(net, root, maxDepth, w) && HopsAway(net, root, owner, depth) && depth <= maxDepth && owner in w.seen
    requires forall r :: r in records ==> Publishes(net, owner, r)
    ensures var w' := VisitRecords(net, records, depth, maxDepth, w);
            && Good(net, root, maxDepth, w') && Extends(net, w, w')
            && forall r :: r in records ==> Followed(r, w')
    decreases maxDepth + 1 - depth, 0, |records|
  {
    if records != [] {
      var n := |records| - 1;
      var front, last := records[..n], records[n];
      assert records == front + [last];
      var w1 := VisitRecords(net, front, depth, maxDepth, w);
      var w2 := VisitRecord(net, last, depth, maxDepth, w1);
      VisitRecordsKeeps(net, root, owner, front, depth, maxDepth, w);
      VisitRecordKeeps(net, root, owner, last, depth, maxDepth, w1);
      ExtendsTrans(net, w, w1, w2);
      FollowedStays(net, front, w1, w2);
    }
  }

  lemma {:induction false} VisitRecordKeeps(net: Network, root: Name, owner: Name, r: Record,
                                            depth: nat, maxDepth: nat, w: Walk)
    requires Good(net, root, maxDepth, w) && HopsAway(net, root, owner, depth) && depth <= maxDepth && owner in w.seen
    requires Publishes(net, owner, r)
    ensures var w' := VisitRecord(net, r, depth, maxDepth, w);
            Good(net, root, maxDepth, w') && Extends(net, w, w') && Followed(r, w')
    decreases maxDepth - depth, 2, 0
  {
    match r {
      case Nested(name) =>
        assert HopsAway(net, root, name, depth + 1);
        VisitKeeps(net, root, name, depth + 1, maxDepth, w);
      case Leaf(addr, dialable) =>
        if dialable && addr !in w.seenLeaves {
          LeafKeepsGood(net, root, maxDepth, owner, addr, w);
        }
      case Malformed =>
    }
  }

  lemma ResolveKeeps(net: Network, root: Name, maxDepth: nat)
    ensures var w := Resolve(net, root, maxDepth);
            Good(net, root, maxDepth, w) && Extends(net, Start(), w) && Followed(Nested(root), w)
  {
    assert Good(net, root, maxDepth, Start());
    VisitKeeps(net, root, root, 0, maxDepth, Start());
  }

  // ----- The results

  /**
   Over any graph, cyclic or not: no name is fetched twice, no leaf is returned
   twice, every fetched name is at most `maxDepth` hops from the root, and every
   leaf is a dialable address published by a fetched name.
   */
  lemma ResolutionIsSound(net: Network, root: Name, maxDepth: nat)
    ensures var w := Resolve(net, root, maxDepth);
            && Distinct(w.fetched)
            && Distinct(w.leaves)
            && (forall n :: n in w.fetched ==> WithinHops(net, root, n, maxDepth))
            && (forall a :: a in w.leaves ==> exists n :: n in w.fetched && Publishes(net, n, Leaf(a, true)))
  {
    ResolveKeeps(net, root, maxDepth);
    var w := Resolve(net, root, maxDepth);
    forall a | a in w.leaves ensures exists n :: n in w.fetched && Publishes(net, n, Leaf(a, true)) {
      var n :| n in w.seen && Publishes(net, n, Leaf(a, true));
      assert n in w.fetched;
    }
  }

  lemma {:induction false} ClosedUnderHops(net: Network, root: Name, w: Walk, name: Name, hops: nat)
    requires root in w.seen && w.cut <= w.seen && Extends(net, Start(), w)
    requires HopsAway(net, root, name, hops)
    ensures name in w.seen
    decreases hops
  {
    if hops > 0 {
      var via :| HopsAway(net, root, via, hops - 1) && Publishes(net, via, Nested(name));
      ClosedUnderHops(net, root, w, via, hops - 1);
      assert Followed(Nested(name), w);
    }
  }

  /**
   The walk fetches every reachable name exactly when each name it cut for depth
   was also visited along a shorter branch.
   */
  lemma FetchesAllReachableIff(net: Network, root: Name, maxDepth: nat)
    ensures var w := Resolve(net, root, maxDepth);
            (forall n :: Reachable(net, root, n) <==> n in w.fetched) <==> (forall n :: n in w.cut ==> n in w.fetched)
  {
    ResolveKeeps(net, root, maxDepth);
    var w := Resolve(net, root, maxDepth);
    forall n | n in w.fetched ensures Reachable(net, root, n) {
      var hops: nat :| hops <= maxDepth && HopsAway(net, root, n, hops);
    }
    if forall n :: n in w.cut ==> n in w.fetched {
      assert w.cut <= w.seen;
      forall n | Reachable(net, root, n) ensures n in w.fetched {
        var hops: nat :| HopsAway(net, root, n, hops);
        ClosedUnderHops(net, root, w, n, hops);
      }
    }
  }

  /** With no name lost to the depth bound, the result is exactly the set of dialable leaves reachable from the root. */
  lemma UncutResolutionIsComplete(net: Network, root: Name, maxDepth: nat)
    requires var w := Resolve(net, root, maxDepth); forall n :: n in w.cut ==> n in w.fetched
    ensures forall a :: a in Resolve(net, root, maxDepth).leaves
                        <==> exists n :: Reachable(net, root, n) && Publishes(net, n, Leaf(a, true))
  {
    ResolveKeeps(net, root, maxDepth);
    FetchesAllReachableIff(net, root, maxDepth);
    var w := Resolve(net, root, maxDepth);
    forall a | exists n :: Reachable(net, root, n) && Publishes(net, n, Leaf(a, true)) ensures a in w.leaves {
      var n :| Reachable(net, root, n) && Publishes(net, n, Leaf(a, true));
      assert n in w.seen && Followed(Leaf(a, true), w);
    }
  }

  // ----- When the depth bound hides nothing

  ghost predicate Linked(net: Network, path: seq<Name>, i: nat)
    requires 0 < i < |path|
  {
    Publishes(net, path[i - 1], Nested(path[i]))
  }

  /** A path of nested references from the root that meets no name twice. */
  ghost predicate Chain(net: Network, root: Name, path: seq<Name>) {
    path != [] && path[0] == root && Distinct(path) && forall i :: 0 < i < |path| ==> Linked(net, path, i)
  }

  /** `name` ends a chain of exactly `hops` hops. */
  ghost predicate EndsChain(net: Network, root: Name, name: Name, hops: nat) {
    exists path :: Chain(net, root, path) && |path| == hops + 1 && path[hops] == name
  }

  /** The names on the call stack above a visit of `name`: a chain of visited names whose last one refers to it. */
  ghost predicate Stack(net: Network, root: Name, path: seq<Name>, name: Name, seen: set<Name>) {
    && (forall n :: n in path ==> n in seen)
    && if path == [] then name == root else Chain(net, root, path) && Publishes(net, path[|path| - 1], Nested(name))
  }

  /** A name cut for depth was visited anyway, or ends a chain just longer than the bound. */
  ghost predicate CutsAreDeep(net: Network, root: Name, maxDepth: nat, w: Walk) {
    forall n :: n in w.cut ==> n in w.seen || EndsChain(net, root, n, maxDepth + 1)
  }

  lemma StackGrows(net: Network, root: Name, path: seq<Name>, name: Name, seen: set<Name>)
    requires Stack(net, root, path, name, seen) && name !in path
    ensures Chain(net, root, path + [name])
  {
    var longer := path + [name];
    forall i | 0 < i < |longer| ensures Linked(net, longer, i) {
      assert i < |path| ==> Linked(net, path, i);
    }
  }

  lemma {:induction false} VisitCutsDeep(net: Network, root: Name, path: seq<Name>, name: Name, maxDepth: nat, w: Walk)
    requires CutsAreDeep(net, root, maxDepth, w) && Stack(net, root, path, name, w.seen) && |path| <= maxDepth + 1
    ensures CutsAreDeep(net, root, maxDepth, Visit(net, name, |path|, maxDepth, w))
    decreases maxDepth + 1 - |path|, 1, 0
  {
    if name !in path {
      StackGrows(net, root, path, name, w.seen);
      var longer := path + [name];
      assert longer[|path|] == name;
      if |path| <= maxDepth && name !in w.seen {
        var entered := w.(seen := w.seen + {name}, fetched := w.fetched + [name]);
        RecordsCutDeep(net, root, longer, name, RecordsOf(net, name), maxDepth, entered);
      }
    }
  }

  lemma {:induction false} RecordsCutDeep(net: Network, root: Name, path: seq<Name>, owner: Name,
                                          records: seq<Record>, maxDepth: nat, w: Walk)
    requires CutsAreDeep(net, root, maxDepth, w) && Chain(net, root, path) && |path| <= maxDepth + 1
    requires (forall n :: n in path ==> n in w.seen) && path[|path| - 1] == owner
    requires forall r :: r in records ==> Publishes(net, owner, r)
    ensures CutsAreDeep(net, root, maxDepth, VisitRecords(net, records, |path| - 1, maxDepth, w))
    decreases maxDepth + 2 - |path|, 0, |records|
  {
    if records != [] {
      var n := |records| - 1;
      assert records == records[..n] + [records[n]];
      var w1 := VisitRecords(net, records[..n], |path| - 1, maxDepth, w);
      RecordsCutDeep(net, root, path, owner, records[..n], maxDepth, w);
      var w2 := VisitRecord(net, records[n], |path| - 1, maxDepth, w1);
      if records[n].Nested? {
        VisitCutsDeep(net, root, path, records[n].name, maxDepth, w1);
        assert w2 == Visit(net, records[n].name, |path|, maxDepth, w1);
      } else {
        assert w2.cut == w1.cut && w2.seen == w1.seen;
      }
    }
  }

  lemma ResolveCutsDeep(net: Network, root: Name, maxDepth: nat)
    ensures CutsAreDeep(net, root, maxDepth, Resolve(net, root, maxDepth))
  {
    VisitCutsDeep(net, root, [], root, maxDepth, Start());
  }

  /** When none of the names within the bound is lost to a cut, all of them are visited. */
  lemma {:induction false} RadiusIsClosed(net: Network, root: Name, maxDepth: nat, w: Walk, name: Name, hops: nat)
    requires root in w.seen && Extends(net, Start(), w)
    requires forall n :: n in w.cut && WithinHops(net, root, n, maxDepth) ==> n in w.seen
    requires hops <= maxDepth && HopsAway(net, root, name, hops)
    ensures name in w.seen
    decreases hops
  {
    assert WithinHops(net, root, name, maxDepth);
    if hops > 0 {
      var via :| HopsAway(net, root, via, hops - 1) && Publishes(net, via, Nested(name));
      RadiusIsClosed(net, root, maxDepth, w, via, hops - 1);
      assert Followed(Nested(name), w);
    }
  }

  /**
   Where no name within `maxDepth` hops also ends a chain of one hop more, the
   bound is a radius after all: the walk fetches exactly the names within
   `maxDepth` hops and returns exactly their dialable leaves.
   */
  lemma UnambiguousDepthsResolveToTheRadius(net: Network, root: Name, maxDepth: nat)
    requires forall n :: WithinHops(net, root, n, maxDepth) ==> !EndsChain(net, root, n, maxDepth + 1)
    ensures var w := Resolve(net, root, maxDepth);
            && (forall n :: n in w.fetched <==> WithinHops(net, root, n, maxDepth))
            && (forall a :: a in w.leaves
                            <==> exists n :: WithinHops(net, root, n, maxDepth) && Publishes(net, n, Leaf(a, true)))
  {
    var w := Resolve(net, root, maxDepth);
    ResolveKeeps(net, root, maxDepth);
    ResolveCutsDeep(net, root, maxDepth);
    assert HopsAway(net, root, root, 0) && WithinHops(net, root, root, maxDepth);
    forall n | WithinHops(net, root, n, maxDepth) ensures n in w.seen {
      var hops: nat :| hops <= maxDepth && HopsAway(net, root, n, hops);
      RadiusIsClosed(net, root, maxDepth, w, n, hops);
    }
    forall a | exists n :: WithinHops(net, root, n, maxDepth) && Publishes(net, n, Leaf(a, true))
      ensures a in w.leaves
    {
      var n :| WithinHops(net, root, n, maxDepth) && Publishes(net, n, Leaf(a, true));
      assert n in w.seen && Followed(Leaf(a, true), w);
    }
  }

  /** No chain from the root has more than `maxDepth` hops. */
  ghost predicate ChainsWithin(net: Network, root: Name, maxDepth: nat) {
    forall path :: Chain(net, root, path) ==> |path| - 1 <= maxDepth
  }

  /**
   When no chain of distinct names from the root is longer than the bound, the
   bound cuts nothing that matters, cycles or not: every reachable name is fetched
   and the result is exactly the dialable leaves reachable from the root.
   */
  lemma ShortChainsResolveCompletely(net: Network, root: Name, maxDepth: nat)
    requires ChainsWithin(net, root, maxDepth)
    ensures var w := Resolve(net, root, maxDepth);
            && (forall n :: Reachable(net, root, n) <==> n in w.fetched)
            && (forall a :: a in w.leaves <==> exists n :: Reachable(net, root, n) && Publishes(net, n, Leaf(a, true)))
  {
    var w := Resolve(net, root, maxDepth);
    ResolveKeeps(net, root, maxDepth);
    ResolveCutsDeep(net, root, maxDepth);
    assert forall n :: n in w.cut ==> n in w.fetched;
    FetchesAllReachableIff(net, root, maxDepth);
    UncutResolutionIsComplete(net, root, maxDepth);
  }

  /** The graph `r -> a, b`, `a -> b`, `b -> c`. */
  function TwoWays(r: Name, a: Name, b: Name, c: Name): Network {
    n => if n == r then Records([Nested(a), Nested(b)])
         else if n == a then Records([Nested(b)])
         else if n == b then Records([Nested(c)])
         else Unavailable
  }

  /**
   The bound is not a radius: a name within `maxDepth` hops can go unfetched when
   the walk first meets its parent along a longer branch.
   */
  lemma DepthBoundCanHideANearName(r: Name, a: Name, b: Name, c: Name)
    requires r != a && r != b && r != c && a != b && a != c && b != c
    ensures HopsAway(TwoWays(r, a, b, c), r, c, 2)
    ensures c !in Resolve(TwoWays(r, a, b, c), r, 2).fetched
  {
    var net := TwoWays(r, a, b, c);
    assert HopsAway(net, r, r, 0) && Publishes(net, r, Nested(b));
    assert HopsAway(net, r, b, 1) && Publishes(net, b, Nested(c));
    var w0 := Walk({r}, [], {}, [r], {});
    var w1 := Walk({r, a}, [], {}, [r, a], {});
    var w2 := Walk({r, a, b}, [], {}, [r, a, b], {});
    var w3 := w2.(cut := {c});
    assert w1.(seen := w1.seen + {b}, fetched := w1.fetched + [b]) == w2;
    OneRecord(net, b, 2, 2, Nested(c), w2);
    assert Visit(net, b, 2, 2, w1) == w3;
    assert w0.(seen := w0.seen + {a}, fetched := w0.fetched + [a]) == w1;
    OneRecord(net, a, 1, 2, Nested(b), w1);
    assert Visit(net, a, 1, 2, w0) == w3;
    var records := [Nested(a), Nested(b)];
    assert records[..1] == [Nested(a)] && [Nested(a)][..0] == [];
    assert VisitRecords(net, [Nested(a)], 0, 2, w0) == w3;
    assert VisitRecords(net, records, 0, 2, w0) == w3;
    assert Start().(seen := {} + {r}, fetched := [] + [r]) == w0;
    assert Resolve(net, r, 2) == w3;
  }

  /** The graph `r -> a, b`, `a -> b`. */
  function Shortcut(r: Name, a: Name, b: Name): Network {
    n => if n == r then Records([Nested(a), Nested(b)])
         else if n == a then Records([Nested(b)])
         else Unavailable
  }

  lemma ShortcutWalk(r: Name, a: Name, b: Name)
    requires r != a && r != b && a != b
    ensures Resolve(Shortcut(r, a, b), r, 1).fetched == [r, a, b]
  {
    var net := Shortcut(r, a, b);
    var w0 := Walk({r}, [], {}, [r], {});
    var w1 := Walk({r, a}, [], {}, [r, a], {});
    var w2 := w1.(cut := {b});
    assert w0.(seen := w0.seen + {a}, fetched := w0.fetched + [a]) == w1;
    OneRecord(net, a, 1, 1, Nested(b), w1);
    assert Visit(net, a, 1, 1, w0) == w2;
    var records := [Nested(a), Nested(b)];
    assert records[..1] == [Nested(a)] && [Nested(a)][..0] == [];
    assert VisitRecords(net, [Nested(a)], 0, 1, w0) == w2;
    assert VisitRecords(net, records, 0, 1, w0) == Visit(net, b, 1, 1, w2);
    assert Start().(seen := {} + {r}, fetched := [] + [r]) == w0;
    assert w2.fetched + [b] == [r, a, b];
  }

  /** A chain longer than the bound need not hide anything: its end, cut at first, can be visited on a shorter path. */
  lemma LongChainCanBeHarmless(r: Name, a: Name, b: Name)
    requires r != a && r != b && a != b
    ensures var net := Shortcut(r, a, b);
            && Resolve(net, r, 1).fetched == [r, a, b]
            && WithinHops(net, r, b, 1) && EndsChain(net, r, b, 2)
  {
    var net := Shortcut(r, a, b);
    ShortcutWalk(r, a, b);
    assert HopsAway(net, r, r, 0) && Publishes(net, r, Nested(a)) && Publishes(net, r, Nested(b));
    assert HopsAway(net, r, b, 1);
    var path := [r, a, b];
    assert Linked(net, path, 1) && Publishes(net, a, Nested(b)) && Linked(net, path, 2);
    assert Chain(net, r, path) && path[2] == b;
  }

  lemma OneRecord(net: Network, name: Name, depth: nat, maxDepth: nat, r: Record, w: Walk)
    requires depth <= maxDepth && RecordsOf(net, name) == [r]
    ensures VisitRecords(net, RecordsOf(net, name), depth, maxDepth, w) == VisitRecord(net, r, depth, maxDepth, w)
  {
    assert [r][..0] == [];
    assert VisitRecords(net, [], depth, maxDepth, w) == w;
  }

  // ----- The bound at the top of its type

  /** A finite set of names that nested references do not lead out of. */
  ghost predicate Closed(net: Network, names: set<Name>) {
    forall n :: n in names ==> LeadsInto(net, n, names)
  }

  ghost predicate LeadsInto(net: Network, n: Name, names: set<Name>) {
    forall m :: Publishes(net, n, Nested(m)) ==> m in names
  }

  /**
   How deep the walk goes. The depth is a `u8` that wraps, and no `u8` exceeds 255,
   so a bound of 255 is no bound: only visited names stop the walk.
   */
  ghost function Limit(maxDepth: nat, names: set<Name>): nat {
    if maxDepth < U8_MAX then maxDepth else |names|
  }

  lemma SubsetSize<T>(a: set<T>, b: set<T>)
    requires a <= b
    ensures |a| <= |b|
  {
    assert b == a + (b - a);
  }

  lemma {:induction false} DistinctSize<T>(s: seq<T>, names: set<T>)
    requires Distinct(s) && forall x :: x in s ==> x in names
    ensures |s| <= |names|
    decreases |s|
  {
    if s != [] {
      var last, front := s[|s| - 1], s[..|s| - 1];
      assert last in s && forall x :: x in front ==> x in s;
      DistinctSize(front, names - {last});
    }
  }

  lemma {:induction false} ChainStaysInside(net: Network, root: Name, path: seq<Name>, names: set<Name>, i: nat)
    requires Chain(net, root, path) && Closed(net, names) && root in names && i < |path|
    ensures path[i] in names
  {
    if i > 0 {
      ChainStaysInside(net, root, path, names, i - 1);
      assert Linked(net, path, i) && LeadsInto(net, path[i - 1], names);
    }
  }

  /** With as many hops as there are names, every chain fits and the walk is complete. */
  lemma FiniteGraphResolvesCompletely(net: Network, root: Name, names: set<Name>)
    requires Closed(net, names) && root in names
    ensures var w := Resolve(net, root, |names|);
            && (forall n :: Reachable(net, root, n) <==> n in w.fetched)
            && (forall a :: a in w.leaves <==> exists n :: Reachable(net, root, n) && Publishes(net, n, Leaf(a, true)))
  {
    forall path | Chain(net, root, path) ensures |path| - 1 <= |names| {
      forall x | x in path ensures x in names {
        var i :| 0 <= i < |path| && path[i] == x;
        ChainStaysInside(net, root, path, names, i);
      }
      DistinctSize(path, names);
    }
    ShortChainsResolveCompletely(net, root, |names|);
  }

  // ----- The driver

  class Driver {
    var seenNames: set<Name>
    var leaves: seq<Addr>
    var seenLeaves: set<Addr>
    ghost var fetched: seq<Name>
    ghost var cut: set<Name>

    constructor ()
      ensures State() == Start()
    {
      seenNames, leaves, seenLeaves, fetched, cut := {}, [], {}, [], {};
    }

    ghost function State(): Walk
      reads this
    {
      Walk(seenNames, leaves, seenLeaves, fetched, cut)
    }

    /** `hops` is the true depth, and `depth` what a `u8` shows of it; they part only at a bound of 255. */
    ghost predicate Placed(net: Network, name: Name, depth: nat, maxDepth: nat, hops: nat, names: set<Name>)
      reads this
    {
      && depth <= U8_MAX && maxDepth <= U8_MAX
      && (maxDepth < U8_MAX ==> hops == depth <= maxDepth + 1)
      && (maxDepth == U8_MAX ==> Closed(net, names) && name in names && hops <= |seenNames * names|)
    }

    /** How much there is left to visit from `depth` on. */
    ghost function Rank(depth: nat, maxDepth: nat, names: set<Name>): int
      reads this
    {
      if maxDepth < U8_MAX then maxDepth + 1 - depth else |names - seenNames|
    }

    method ResolveInto(net: Network, name: Name, depth: nat, maxDepth: nat, ghost hops: nat, ghost names: set<Name>)
      requires Placed(net, name, depth, maxDepth, hops, names)
      modifies this
      ensures State() == Visit(net, name, hops, Limit(maxDepth, names), old(State()))
      decreases Rank(depth, maxDepth, names), 0
    {
      SubsetSize(seenNames * names, names);
      if depth > maxDepth {
        cut := cut + {name};
        return;
      }
      if name in seenNames {
        return;
      }
      Deeper(seenNames, name, names, hops, maxDepth);
      seenNames := seenNames + {name};
      fetched := fetched + [name];
      var response := net(name);
      if response.Records? {
        FollowRecords(net, name, response.records, depth, maxDepth, hops, names);
      }
    }

    /** `name` has been entered at `depth`, and its records are being followed. */
    ghost predicate Inside(net: Network, name: Name, depth: nat, maxDepth: nat, hops: nat, names: set<Name>)
      reads this
    {
      && Placed(net, name, depth, maxDepth, hops, names) && depth <= maxDepth
      && hops <= Limit(maxDepth, names) && (maxDepth == U8_MAX ==> hops < |seenNames * names|)
    }

    method FollowRecords(net: Network, name: Name, records: seq<Record>, depth: nat, maxDepth: nat,
                         ghost hops: nat, ghost names: set<Name>)
      requires records == RecordsOf(net, name) && Inside(net, name, depth, maxDepth, hops, names)
      modifies this
      ensures State() == VisitRecords(net, records, hops, Limit(maxDepth, names), old(State()))
      decreases Rank(depth + 1, maxDepth, names), 2
    {
      for i := 0 to |records|
        invariant State() == VisitRecords(net, records[..i], hops, Limit(maxDepth, names), old(State()))
      {
        NextRecord(net, records, i, hops, Limit(maxDepth, names), old(State()));
        StillInside(old(seenNames), seenNames, names);
        FollowRecord(net, name, records[i], depth, maxDepth, hops, names);
      }
      assert records[..|records|] == records;
    }

    method FollowRecord(net: Network, name: Name, r: Record, depth: nat, maxDepth: nat,
                        ghost hops: nat, ghost names: set<Name>)
      requires Publishes(net, name, r) && Inside(net, name, depth, maxDepth, hops, names)
      modifies this
      ensures State() == VisitRecord(net, r, hops, Limit(maxDepth, names), old(State()))
      decreases Rank(depth + 1, maxDepth, names), 1
    {
      match r {
        case Malformed =>
        case Nested(nested) =>
          assert maxDepth == U8_MAX ==> LeadsInto(net, name, names);
          ResolveInto(net, nested, (depth + 1) % (U8_MAX + 1), maxDepth, hops + 1, names);
        case Leaf(addr, dialable) =>
          if dialable && addr !in seenLeaves {
            seenLeaves := seenLeaves + {addr};
            leaves := leaves + [addr];
          }
      }
    }
  }

  lemma NextRecord(net: Network, records: seq<Record>, i: nat, depth: nat, maxDepth: nat, w: Walk)
    requires i < |records| && depth <= maxDepth
    ensures VisitRecords(net, records[..i + 1], depth, maxDepth, w)
            == VisitRecord(net, records[i], depth, maxDepth, VisitRecords(net, records[..i], depth, maxDepth, w))
  {
    assert records[..i + 1][..i] == records[..i];
  }

  lemma StillInside(before: set<Name>, seen: set<Name>, names: set<Name>)
    requires before <= seen
    ensures |before * names| <= |seen * names| && |names - seen| <= |names - before|
  {
    SubsetSize(before * names, seen * names);
    SubsetSize(names - seen, names - before);
  }

  /** Entering `name` leaves one name less to visit. */
  lemma Deeper(seen: set<Name>, name: Name, names: set<Name>, hops: nat, maxDepth: nat)
    requires name !in seen && (maxDepth == U8_MAX ==> name in names && hops <= |seen * names|)
    ensures maxDepth == U8_MAX ==> hops < |(seen + {name}) * names| && |names - (seen + {name})| < |names - seen|
  {
    if maxDepth == U8_MAX {
      assert (seen + {name}) * names == seen * names + {name};
      assert names - seen == (names - (seen + {name})) + {name};
    }
  }

  /**
   Resolves a root name to its dialable leaves. At a bound of 255 and over a finite
   graph the result is every dialable leaf reachable from the root.
   */
  method ResolveDnsaddr(net: Network, root: Name, maxDepth: nat, ghost names: set<Name>) returns (leaves: seq<Addr>)
    requires maxDepth <= U8_MAX && (maxDepth == U8_MAX ==> Closed(net, names) && root in names)
    ensures leaves == Resolve(net, root, Limit(maxDepth, names)).leaves
    ensures maxDepth == U8_MAX ==>
              forall a :: a in leaves <==> exists n :: Reachable(net, root, n) && Publishes(net, n, Leaf(a, true))
  {
    var driver := new Driver();
    driver.ResolveInto(net, root, 0, maxDepth, 0, names);
    leaves := driver.leaves;
    if maxDepth == U8_MAX {
      FiniteGraphResolvesCompletely(net, root, names);
    }
  }
}
