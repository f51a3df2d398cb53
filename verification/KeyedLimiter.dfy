/** One bucket per key, with per-key quotas, cleanup and a periodic sweep. */
module KeyedLimiter {
  import opened Words
  import opened Clocks
  import opened Gcra

  type Key(==, !new)

  datatype KeyState = KeyState(tat: u64, cell: Cell)

  /** `cell` shapes the bucket of every key that has no entry in `keys`. */
  datatype Limiter = Limiter(cell: Cell, keys: map<Key, KeyState>)

  datatype Op =
    | Consume(key: Key, n: u32)
    | Peek(key: Key, n: u32)
    | SetQuota(key: Key, quota: Quota)
    | Clear(key: Key)
    | RetainRecent

  type Event = Timed<Op>

  /** What the caller gets back. */
  datatype Answer = Granted | Denied(why: Refusal) | Nothing

  function Entry(l: Limiter, k: Key): KeyState {
    if k in l.keys then l.keys[k] else KeyState(0, l.cell)
  }

  function Probe(l: Limiter, now: u64, k: Key, n: u32): Verdict {
    Check(Entry(l, k).cell, Entry(l, k).tat, now, n)
  }

  function AnswerOf(v: Verdict): Answer {
    match v
    case Admitted(_) => Granted
    case Refused(why) => Denied(why)
  }

  function Respond(l: Limiter, e: Event): Answer {
    match e.call
    case Consume(k, n) => AnswerOf(Probe(l, e.now, k, n))
    case Peek(k, n) => AnswerOf(Probe(l, e.now, k, n))
    case _ => Nothing
  }

  function Resize(s: KeyState, now: u64, cell: Cell): KeyState {
    if s.cell == cell then s else KeyState(Min(s.tat, SatAdd(now, cell.tau)), cell)
  }

  function Step(l: Limiter, e: Event): (l': Limiter) {
    match e.call
    case Consume(k, n) =>
      var s := Entry(l, k);
      l.(keys := l.keys[k := s.(tat := NextTat(s.cell, s.tat, Charge(e.now, n)))])
    case Peek(_, _) => l
    case SetQuota(k, q) =>
      var s := if k in l.keys then Resize(l.keys[k], e.now, FromQuota(q)) else KeyState(0, FromQuota(q));
      l.(keys := l.keys[k := s])
    case Clear(k) => l.(keys := l.keys - {k})
    case RetainRecent => l.(keys := map k | k in l.keys && l.keys[k].tat > e.now :: l.keys[k])
  }

  function Run(l: Limiter, es: seq<Event>): (l': Limiter)
    decreases |es|
  {
    if es == [] then l else Run(Step(l, es[0]), es[1..])
  }

  function Answers(l: Limiter, es: seq<Event>): (answers: seq<Answer>)
    decreases |es|
  {
    if es == [] then [] else [Respond(l, es[0])] + Answers(Step(l, es[0]), es[1..])
  }

  // ----- No bucket ever owes more than its capacity

  ghost predicate DebtBounded(l: Limiter, now: nat) {
    forall k :: k in l.keys ==> l.keys[k].tat <= now + l.keys[k].cell.tau
  }

  lemma StepKeepsDebtBounded(l: Limiter, e: Event, now: nat)
    requires DebtBounded(l, now) && now <= e.now
    ensures DebtBounded(Step(l, e), e.now)
  {
  }

  lemma {:induction false} RunKeepsDebtBounded(l: Limiter, es: seq<Event>, now: nat)
    requires DebtBounded(l, now) && Clocked(now, es)
    ensures DebtBounded(Run(l, es), ClockAfter(now, es))
    decreases |es|
  {
    if es != [] {
      StepKeepsDebtBounded(l, es[0], now);
      RunKeepsDebtBounded(Step(l, es[0]), es[1..], es[0].now);
    }
  }

  /**
   After any run of keyed operations, quota changes included, a wait hint for
   `n` tokens never exceeds `n` replenish intervals.
   */
  lemma WaitHintNeverExceedsCost(quota: Quota, es: seq<Event>, now: u64, k: Key, n: u32)
    requires Clocked(0, es) && ClockAfter(0, es) <= now
    ensures var l := Run(Limiter(FromQuota(quota), map[]), es);
            var v := Probe(l, now, k, n);
            v.Refused? && v.why.TooSoon? ==> v.why.wait <= n * Entry(l, k).cell.t
  {
    var l := Run(Limiter(FromQuota(quota), map[]), es);
    RunKeepsDebtBounded(Limiter(FromQuota(quota), map[]), es, 0);
    HintWithinCost(Entry(l, k).cell, Entry(l, k).tat, now, n);
  }

  lemma HintWithinCost(cell: Cell, tat: u64, now: u64, n: u32)
    requires tat <= now + cell.tau
    ensures var v := Check(cell, tat, now, n);
            v.Refused? && v.why.TooSoon? ==> v.why.wait <= n * cell.t
  {
    assert Cost(cell, n) <= cell.t * n == n * cell.t;
  }

  /** Giving a key the same quota again, at any later time, changes nothing at all. */
  lemma ReapplyingQuotaIsIdentity(l: Limiter, k: Key, q: Quota, now: u64, now': u64)
    ensures var l1 := Step(l, At(now, SetQuota(k, q)));
            Step(l1, At(now', SetQuota(k, q))) == l1
    ensures k in l.keys && l.keys[k].cell == FromQuota(q) ==> Step(l, At(now, SetQuota(k, q))) == l
  {
  }

  // ----- What a resize does to the credit of a bucket

  function Backlog(s: KeyState, now: u64): nat {
    Max(0, s.tat - now)
  }

  function CreditOf(s: KeyState, now: u64): int {
    Credit(s.cell, s.tat, now)
  }

  /** A resize carries the backlog over, cut down to the new capacity, so that no bucket owes more than it holds. */
  lemma ResizeClampsBacklog(l: Limiter, k: Key, q: Quota, now: u64)
    requires DebtBounded(l, now) && now + FromQuota(q).tau <= U64_MAX
    ensures var s, s' := Entry(l, k), Entry(Step(l, At(now, SetQuota(k, q))), k);
            && s'.cell == FromQuota(q)
            && Backlog(s', now) == Min(Backlog(s, now), s'.cell.tau)
            && 0 <= CreditOf(s', now) <= s'.cell.tau
  {
  }

  /** A resize hands out no credit exactly when the new capacity is no larger than the old one. */
  lemma ResizeAddsNoCreditIff(l: Limiter, k: Key, q: Quota, now: u64)
    requires DebtBounded(l, now) && now + FromQuota(q).tau <= U64_MAX
    ensures var s, s' := Entry(l, k), Entry(Step(l, At(now, SetQuota(k, q))), k);
            CreditOf(s', now) <= CreditOf(s, now) <==> s'.cell.tau <= s.cell.tau
  {
    ResizeClampsBacklog(l, k, q, now);
  }

  /** Resizing to `small` and back at once forgives the part of the backlog that `small` cannot hold. */
  lemma ThereAndBackForgives(s: KeyState, now: u64, small: Cell)
    requires s.tat <= now + s.cell.tau <= U64_MAX && now + small.tau <= U64_MAX
    ensures var back := Resize(Resize(s, now, small), now, s.cell);
            && back.cell == s.cell
            && Backlog(back, now) == if small == s.cell then Backlog(s, now) else Min(Backlog(s, now), small.tau)
  {
  }

  /** Ten tokens spent and none left; shrunk to one token and grown back at the same instant, nine more are granted. */
  lemma ShrinkAndGrowRefills(k: Key)
    ensures var ten, one := Quota(10, 100), Quota(1, 10);
            var es := [At(0, Consume(k, 10)), At(0, Peek(k, 1)), At(0, SetQuota(k, one)), At(0, SetQuota(k, ten)),
                       At(0, Consume(k, 9))];
            Answers(Limiter(FromQuota(ten), map[]), es) == [Granted, Denied(TooSoon(10)), Nothing, Nothing, Granted]
  {
    var ten, one := Quota(10, 100), Quota(1, 10);
    assert FromQuota(ten) == Cell(100, 10) && FromQuota(one) == Cell(10, 10);
    var l0 := Limiter(FromQuota(ten), map[]);
    var l1 := Step(l0, At(0, Consume(k, 10)));
    assert Entry(l1, k) == KeyState(100, FromQuota(ten));
    var l2 := Step(Step(l1, At(0, SetQuota(k, one))), At(0, SetQuota(k, ten)));
    assert Entry(l2, k) == KeyState(10, FromQuota(ten));
    var e4: seq<Event> := [At(0, Consume(k, 9))];
    var e3: seq<Event> := [At(0, SetQuota(k, ten))] + e4;
    var e2: seq<Event> := [At(0, SetQuota(k, one))] + e3;
    var e1: seq<Event> := [At(0, Peek(k, 1))] + e2;
    AnswersCons(l2, e4[0], []);
    AnswersCons(Step(l1, e2[0]), e3[0], e4);
    AnswersCons(l1, e2[0], e3);
    AnswersCons(l1, e1[0], e2);
    AnswersCons(l0, At(0, Consume(k, 10)), e1);
    assert [At(0, Consume(k, 10))] + e1
        == [At(0, Consume(k, 10)), At(0, Peek(k, 1)), At(0, SetQuota(k, one)), At(0, SetQuota(k, ten)),
            At(0, Consume(k, 9))];
  }

  lemma AnswersCons(l: Limiter, e: Event, es: seq<Event>)
    ensures Answers(l, [e] + es) == [Respond(l, e)] + Answers(Step(l, e), es)
  {
    assert ([e] + es)[1..] == es;
  }

  /** Tokens cost at least as much and the bucket holds no more. */
  predicate Shrinks(cell: Cell, cell': Cell) {
    cell.t <= cell'.t && cell'.tau <= cell.tau
  }

  /** A shrink admits no charge at any later instant that the bucket would not have admitted without it. */
  lemma ShrinkAdmitsNothingEarly(s: KeyState, now: u64, cell: Cell, later: u64, n: u32)
    requires s.tat <= now + s.cell.tau && Shrinks(s.cell, cell) && now <= later
    ensures Check(cell, Resize(s, now, cell).tat, later, n).Admitted? ==> Check(s.cell, s.tat, later, n).Admitted?
  {
    CostGrows(s.cell, cell, n);
  }

  lemma CostGrows(cell: Cell, cell': Cell, n: u32)
    requires cell.t <= cell'.t
    ensures Cost(cell, n) <= Cost(cell', n)
  {
    Distribute(cell.t, cell'.t - cell.t, n);
  }

  /** An operation on one key leaves every other key's bucket alone; a cleared key starts afresh. */
  lemma KeysAreIndependent(l: Limiter, e: Event, k: Key)
    requires !e.call.RetainRecent?
    ensures e.call.key != k ==> Entry(Step(l, e), k) == Entry(l, k) && (k in Step(l, e).keys <==> k in l.keys)
    ensures e.call == Clear(k) ==> k !in Step(l, e).keys && Entry(Step(l, e), k) == KeyState(0, l.cell)
  {
  }

  /**
   A charge is granted exactly when the key's credit covers it, and takes exactly
   its cost from that credit; a refused one takes nothing. A peek gets the answer
   the charge would get and changes nothing.
   */
  lemma ChargeSpendsCredit(l: Limiter, now: u64, k: Key, n: u32)
    requires InRange(Entry(l, k).cell, now)
    ensures var charge, s := At(now, Consume(k, n)), Entry(l, k);
            var s', granted := Entry(Step(l, charge), k), Respond(l, charge) == Granted;
            && (granted <==> Cost(s.cell, n) <= CreditOf(s, now))
            && s'.cell == s.cell
            && CreditOf(s', now) == CreditOf(s, now) - (if granted then Cost(s.cell, n) else 0)
            && (Respond(l, charge) == Denied(TooLarge) <==> Cost(s.cell, n) > s.cell.tau)
    ensures Respond(l, At(now, Peek(k, n))) == Respond(l, At(now, Consume(k, n))) && Step(l, At(now, Peek(k, n))) == l
  {
    CheckSpendsCredit(Entry(l, k).cell, Entry(l, k).tat, now, n);
  }

  /** At every instant, in range or not, a peek foretells the charge; a denied charge leaves the bucket as it was. */
  lemma PeekForetellsTheCharge(l: Limiter, now: u64, k: Key, n: u32)
    ensures Respond(l, At(now, Peek(k, n))) == Respond(l, At(now, Consume(k, n)))
    ensures Step(l, At(now, Peek(k, n))) == l
    ensures Respond(l, At(now, Consume(k, n))).Denied? ==> Entry(Step(l, At(now, Consume(k, n))), k) == Entry(l, k)
  {
  }

  /** A sweep keeps exactly the buckets with a backlog, as they are. */
  lemma SweepKeepsTheOwing(l: Limiter, now: u64, k: Key)
    ensures var l' := Step(l, At(now, RetainRecent));
            && l'.cell == l.cell
            && (k in l'.keys <==> k in l.keys && Backlog(l.keys[k], now) > 0)
            && (k in l'.keys ==> l'.keys[k] == l.keys[k])
  {
  }

  // ----- The window bound for one key among many

  /** Cost `e` gets admitted for `k`, counted when its instant lies in `[a, b]`. */
  function AdmittedBy(l: Limiter, e: Event, k: Key, a: nat, b: nat): nat {
    if e.call.Consume? && e.call.key == k && a <= e.now <= b && Respond(l, e).Granted?
    then Cost(Entry(l, k).cell, e.call.n) else 0
  }

  /** Cost a run gets admitted for `k` at instants in `[a, b]`. */
  function AdmittedFor(l: Limiter, es: seq<Event>, k: Key, a: nat, b: nat): nat
    decreases |es|
  {
    if es == [] then 0 else AdmittedBy(l, es[0], k, a, b) + AdmittedFor(Step(l, es[0]), es[1..], k, a, b)
  }

  /** The operation leaves the shape of `k`'s bucket at `cell` and does not forget its backlog. */
  predicate KeepsShape(l: Limiter, e: Event, k: Key, cell: Cell) {
    match e.call
    case Consume(k', _) => k' == k ==> InRange(cell, e.now)
    case Peek(_, _) => true
    case SetQuota(k', q) => k' == k ==> FromQuota(q) == cell
    case Clear(k') => k' == k ==> cell == l.cell && Entry(l, k).tat <= e.now
    case RetainRecent => Entry(l, k).tat <= e.now ==> cell == l.cell
  }

  ghost predicate FixedQuota(l: Limiter, es: seq<Event>, k: Key, cell: Cell)
    decreases |es|
  {
    && Entry(l, k).cell == cell
    && (es != [] ==> KeepsShape(l, es[0], k, cell) && FixedQuota(Step(l, es[0]), es[1..], k, cell))
  }

  /** What can still be admitted for `k` by instant `b`, seen at `clock`. */
  function Headroom(l: Limiter, k: Key, clock: nat, a: nat, b: nat): nat {
    Max(0, b + Entry(l, k).cell.tau - Max(Max(a, clock), Entry(l, k).tat))
  }

  /** Every step pays for what it gets admitted out of the headroom. */
  lemma StepSpendsHeadroom(l: Limiter, e: Event, k: Key, clock: nat, a: nat, b: nat)
    requires KeepsShape(l, e, k, Entry(l, k).cell) && clock <= e.now
    ensures Entry(Step(l, e), k).cell == Entry(l, k).cell
    ensures AdmittedBy(l, e, k, a, b) + Headroom(Step(l, e), k, e.now, a, b) <= Headroom(l, k, clock, a, b)
  {
  }

  lemma {:induction false} AdmittedForFits(l: Limiter, es: seq<Event>, k: Key, cell: Cell, clock: nat, a: nat, b: nat)
    requires FixedQuota(l, es, k, cell) && Clocked(clock, es)
    ensures AdmittedFor(l, es, k, a, b) <= Headroom(l, k, clock, a, b)
    decreases |es|
  {
    if es != [] {
      StepSpendsHeadroom(l, es[0], k, clock, a, b);
      AdmittedForFits(Step(l, es[0]), es[1..], k, cell, es[0].now, a, b);
    }
  }

  /**
   For a key whose quota stays fixed, the cost admitted in any window is at most
   the window's length plus one full bucket, whatever refused charges, peeks,
   sweeps and operations on other keys are interleaved.
   */
  lemma KeyWindowBound(l: Limiter, es: seq<Event>, k: Key, a: nat, b: nat)
    requires FixedQuota(l, es, k, Entry(l, k).cell) && Clocked(0, es) && a <= b
    ensures AdmittedFor(l, es, k, a, b) <= (b - a) + Entry(l, k).cell.tau
  {
    AdmittedForFits(l, es, k, Entry(l, k).cell, 0, a, b);
  }

  // ----- When the sweep cannot be observed

  /** The two buckets behave alike from `now` on: the same backlog at the same rate, or both full and free of charge. */
  predicate Alike(s: KeyState, s': KeyState, now: nat) {
    || (s.cell == s'.cell && Max(now, s.tat) == Max(now, s'.tat))
    || (s.cell.t == 0 && s'.cell.t == 0 && s.tat <= now && s'.tat <= now)
  }

  predicate AlikeAt(l: Limiter, l': Limiter, k: Key, now: nat) {
    Alike(Entry(l, k), Entry(l', k), now)
  }

  /** From `now` on, no sequence of operations tells the two limiters apart (see `SameAnswersForever`). */
  ghost predicate Indistinguishable(l: Limiter, l': Limiter, now: nat) {
    l.cell == l'.cell && forall k :: AlikeAt(l, l', k, now)
  }

  lemma AlikeAnswers(s: KeyState, s': KeyState, start: nat, now: u64, n: u32)
    requires Alike(s, s', start) && start <= now
    ensures AnswerOf(Check(s.cell, s.tat, now, n)) == AnswerOf(Check(s'.cell, s'.tat, now, n))
    ensures Alike(s.(tat := NextTat(s.cell, s.tat, Charge(now, n))),
                  s'.(tat := NextTat(s'.cell, s'.tat, Charge(now, n))), now)
  {
    if s.cell == s'.cell && Max(start, s.tat) == Max(start, s'.tat) {
      CheckSeesOnlyTheFuture(s.cell, s.tat, s'.tat, now, n);
    } else {
      assert Cost(s.cell, n) == 0 && Cost(s'.cell, n) == 0;
    }
  }

  lemma AlikeResize(s: KeyState, s': KeyState, start: nat, now: u64, cell: Cell)
    requires Alike(s, s', start) && start <= now
    ensures Alike(Resize(s, now, cell), Resize(s', now, cell), now)
  {
  }

  /** What an operation does to the bucket of `k`. */
  lemma EntryAfter(l: Limiter, e: Event, k: Key)
    ensures var s, s' := Entry(l, k), Entry(Step(l, e), k);
            match e.call
            case Consume(k', n) => s' == if k' == k then s.(tat := NextTat(s.cell, s.tat, Charge(e.now, n))) else s
            case Peek(_, _) => s' == s
            case SetQuota(k', q) => s' == if k' == k then Resize(s, e.now, FromQuota(q)) else s
            case Clear(k') => s' == if k' == k then KeyState(0, l.cell) else s
            case RetainRecent => s' == if s.tat <= e.now then KeyState(0, l.cell) else s
  {
  }

  lemma StepKeepsAlike(l: Limiter, l': Limiter, now: nat, e: Event, k: Key)
    requires l.cell == l'.cell && AlikeAt(l, l', k, now) && now <= e.now
    ensures AlikeAt(Step(l, e), Step(l', e), k, e.now)
  {
    EntryAfter(l, e, k);
    EntryAfter(l', e, k);
    match e.call {
      case Consume(k', n) => AlikeAnswers(Entry(l, k), Entry(l', k), now, e.now, n);
      case SetQuota(k', q) => AlikeResize(Entry(l, k), Entry(l', k), now, e.now, FromQuota(q));
      case _ =>
    }
  }

  lemma StepKeepsIndistinguishable(l: Limiter, l': Limiter, now: nat, e: Event)
    requires Indistinguishable(l, l', now) && now <= e.now
    ensures Respond(l, e) == Respond(l', e)
    ensures Indistinguishable(Step(l, e), Step(l', e), e.now)
  {
    if e.call.Consume? || e.call.Peek? {
      assert AlikeAt(l, l', e.call.key, now);
      AlikeAnswers(Entry(l, e.call.key), Entry(l', e.call.key), now, e.now, e.call.n);
    }
    forall k ensures AlikeAt(Step(l, e), Step(l', e), k, e.now) {
      assert AlikeAt(l, l', k, now);
      StepKeepsAlike(l, l', now, e, k);
    }
  }

  lemma {:induction false} SameAnswersForever(l: Limiter, l': Limiter, now: nat, es: seq<Event>)
    requires Indistinguishable(l, l', now) && Clocked(now, es)
    ensures Answers(l, es) == Answers(l', es)
    ensures Indistinguishable(Run(l, es), Run(l', es), ClockAfter(now, es))
    decreases |es|
  {
    if es != [] {
      StepKeepsIndistinguishable(l, l', now, es[0]);
      SameAnswersForever(Step(l, es[0]), Step(l', es[0]), es[0].now, es[1..]);
    }
  }

  /** The two shapes are the same, or neither ever limits anything. */
  predicate SameShape(cell: Cell, cell': Cell) {
    cell == cell' || (cell.t == 0 && cell'.t == 0)
  }

  predicate Dropped(l: Limiter, k: Key, now: u64) {
    k in l.keys && l.keys[k].tat <= now
  }

  /** A sweep that drops only buckets of the default shape never changes an answer. */
  lemma SweepNeverChangesAnAnswer(l: Limiter, now: u64, es: seq<Event>)
    requires forall k :: Dropped(l, k, now) ==> SameShape(l.keys[k].cell, l.cell)
    requires Clocked(now, es)
    ensures Answers(Step(l, At(now, RetainRecent)), es) == Answers(l, es)
  {
    var swept := Step(l, At(now, RetainRecent));
    forall k ensures AlikeAt(l, swept, k, now) {
      assert Dropped(l, k, now) ==> SameShape(l.keys[k].cell, l.cell);
    }
    SameAnswersForever(l, swept, now, es);
  }

  // ----- Telling two full buckets of different shapes apart

  /** All buckets got their shape from some quota. */
  ghost predicate FromQuotas(l: Limiter) {
    (exists q :: l.cell == FromQuota(q)) && forall k :: k in l.keys ==> exists q :: l.keys[k].cell == FromQuota(q)
  }

  lemma {:induction false} RunKeepsFromQuotas(l: Limiter, es: seq<Event>)
    requires FromQuotas(l)
    ensures FromQuotas(Run(l, es))
    decreases |es|
  {
    if es != [] {
      RunKeepsFromQuotas(Step(l, es[0]), es[1..]);
    }
  }

  /** A full bucket as an in-range quota shapes it: it holds one token, or at least two. */
  ghost predicate Plain(s: KeyState, now: u64) {
    s.tat <= now && InRange(s.cell, now) && (s.cell.t == s.cell.tau || 2 * s.cell.t <= s.cell.tau)
  }

  lemma QuotaIsPlain(q: Quota, tat: u64, now: u64)
    requires tat <= now && InRange(FromQuota(q), now)
    ensures Plain(KeyState(tat, FromQuota(q)), now)
  {
    QuotaCellIsOrdered(q);
    if q.maxTokens == 1 {
      DivisionByOne(q.replenishAllEvery);
    } else {
      TwoOfMany(q.maxTokens, FromQuota(q).t);
    }
  }

  /** Some run that starts at `now` or later gets different answers from the two limiters. */
  ghost predicate ToldApart(l: Limiter, l': Limiter, now: nat) {
    exists es :: Clocked(now, es) && Answers(l, es) != Answers(l', es)
  }

  lemma ToldApartNow(l: Limiter, l': Limiter, e: Event)
    requires Respond(l, e) != Respond(l', e)
    ensures ToldApart(l, l', e.now)
  {
    assert Answers(l, [e])[0] == Respond(l, e) && Answers(l', [e])[0] == Respond(l', e);
    assert Clocked(e.now, [e]);
  }

  lemma ToldApartLater(l: Limiter, l': Limiter, e: Event)
    requires ToldApart(Step(l, e), Step(l', e), e.now)
    ensures ToldApart(l, l', e.now)
  {
    var es :| Clocked(e.now, es) && Answers(Step(l, e), es) != Answers(Step(l', e), es);
    var all := [e] + es;
    assert all[1..] == es;
    assert Answers(l, all)[1..] == Answers(Step(l, e), es);
    assert Answers(l', all)[1..] == Answers(Step(l', e), es);
    assert Clocked(e.now, all);
  }

  /** The quota that tells a backlog of `t` from a larger one. */
  function ProbeQuota(t: nat): Quota {
    Quota(Min(U32_MAX, t + 1), t + 1)
  }

  lemma ProbeInterval(t: nat)
    requires t < U64_MAX
    ensures FromQuota(ProbeQuota(t)).tau == t + 1
    ensures 1 <= FromQuota(ProbeQuota(t)).t <= Max(1, t)
  {
    var m := Min(U32_MAX, t + 1);
    DivisionBounds(t + 1, m);
    if t + 1 <= U32_MAX {
      DivisionBySelf(t + 1);
    } else {
      TwoOfMany(m, (t + 1) / m);
    }
  }

  lemma DivisionBySelf(x: nat)
    requires x > 0
    ensures x / x == 1
  {
  }

  /** One token charged to a full bucket. */
  lemma FirstCharge(s: KeyState, now: u64)
    requires Plain(s, now)
    ensures NextTat(s.cell, s.tat, Charge(now, 1)) == now + s.cell.t
  {
  }

  /** A backlog of `t`, seen through the probe, against a larger one cut down to `t + 1`. */
  lemma ProbeAnswers(now: u64, t: nat, p: Cell)
    requires p.tau == t + 1 && 1 <= p.t <= t + 1 && now + t + p.t < U64_MAX
    ensures AnswerOf(Check(p, now + t, now, 1)) != AnswerOf(Check(p, now + t + 1, now, 1))
  {
    assert Cost(p, 1) == p.t;
  }

  /** The entry after a token was charged to a full bucket and the probe took over. */
  lemma ProbedEntry(l: Limiter, k: Key, now: u64, t: nat)
    requires Plain(Entry(l, k), now) && t <= Entry(l, k).cell.t
    ensures var charged := Step(l, At(now, Consume(k, 1)));
            Entry(Step(charged, At(now, SetQuota(k, ProbeQuota(t)))), k)
            == KeyState(now + Min(t + 1, Entry(l, k).cell.t), FromQuota(ProbeQuota(t)))
  {
    var charged := Step(l, At(now, Consume(k, 1)));
    ProbeInterval(t);
    FirstCharge(Entry(l, k), now);
    EntryAfter(l, At(now, Consume(k, 1)), k);
    EntryAfter(charged, At(now, SetQuota(k, ProbeQuota(t))), k);
  }

  /** A peek at two backlogs through the same cell. */
  lemma BacklogsTell(l: Limiter, l': Limiter, k: Key, now: u64, t: nat, p: Cell)
    requires p.tau == t + 1 && 1 <= p.t <= t + 1 && now + t + p.t < U64_MAX
    requires Entry(l, k) == KeyState(now + t, p) && Entry(l', k) == KeyState(now + t + 1, p)
    ensures ToldApart(l, l', now)
  {
    ProbeAnswers(now, t, p);
    ToldApartNow(l, l', At(now, Peek(k, 1)));
  }

  /** Charge one token, resize, peek. */
  lemma ProbeTells(l: Limiter, l': Limiter, k: Key, now: u64)
    requires Plain(Entry(l, k), now) && Plain(Entry(l', k), now)
    requires var t := Entry(l, k).cell.t; t < Entry(l', k).cell.t && now + t + FromQuota(ProbeQuota(t)).t < U64_MAX
    ensures ToldApart(l, l', now)
  {
    var t := Entry(l, k).cell.t;
    var charge, resize := At(now, Consume(k, 1)), At(now, SetQuota(k, ProbeQuota(t)));
    var l1, l1' := Step(l, charge), Step(l', charge);
    ProbedEntry(l, k, now, t);
    ProbedEntry(l', k, now, t);
    ProbeInterval(t);
    BacklogsTell(Step(l1, resize), Step(l1', resize), k, now, t, FromQuota(ProbeQuota(t)));
    ToldApartLater(l1, l1', resize);
    ToldApartLater(l, l', charge);
  }

  /** Two single-token buckets, each with its token just spent, too close to the top of the clock for the probe. */
  lemma SpentTokensTell(l: Limiter, l': Limiter, k: Key, now: u64, c: Cell, d: Cell)
    requires 0 < c.t == c.tau < d.t == d.tau && now + d.tau < U64_MAX <= now + 2 * c.t
    requires Entry(l, k) == KeyState(now + c.t, c) && Entry(l', k) == KeyState(now + d.t, d)
    ensures ToldApart(l, l', now)
  {
    assert Cost(c, 1) == c.t && Cost(d, 1) == d.t;
    ToldApartNow(l, l', At(now, Peek(k, 1)));
  }

  /** Where a probe of interval `p` would saturate, both buckets hold a single token. */
  lemma ProbeSaturates(c: Cell, d: Cell, now: u64, p: nat)
    requires Plain(KeyState(0, c), now) && Plain(KeyState(0, d), now) && c.t < d.t
    requires 1 <= p <= Max(1, c.t) && now + c.t + p >= U64_MAX
    ensures 0 < c.t == c.tau && d.t == d.tau && now + 2 * c.t >= U64_MAX
  {
  }

  /** There, charge the token, and the waits for the next one differ. */
  lemma WaitTells(l: Limiter, l': Limiter, k: Key, now: u64)
    requires Plain(Entry(l, k), now) && Plain(Entry(l', k), now)
    requires var c, d := Entry(l, k).cell, Entry(l', k).cell;
             0 < c.t == c.tau < d.t == d.tau && now + 2 * c.t >= U64_MAX
    ensures ToldApart(l, l', now)
  {
    var c, d, charge := Entry(l, k).cell, Entry(l', k).cell, At(now, Consume(k, 1));
    FirstCharge(Entry(l, k), now);
    FirstCharge(Entry(l', k), now);
    EntryAfter(l, charge, k);
    EntryAfter(l', charge, k);
    SpentTokensTell(Step(l, charge), Step(l', charge), k, now, c, d);
    ToldApartLater(l, l', charge);
  }

  /** One token charged to two buckets with the same backlog, price `t` and different depths. */
  lemma DepthAnswers(s: KeyState, s': KeyState, now: u64)
    requires InRange(s.cell, now) && InRange(s'.cell, now) && Max(now, s.tat) == Max(now, s'.tat)
    requires 0 < s.cell.t == s'.cell.t <= s.cell.tau < s'.cell.tau
    ensures var v, v' := Check(s.cell, s.tat, now, 1), Check(s'.cell, s'.tat, now, 1);
            if v.Admitted? then v' == v && v.tat == Max(now, s.tat) + s.cell.t <= now + s.cell.tau
            else AnswerOf(v) != AnswerOf(v')
  {
    assert Cost(s.cell, 1) == Cost(s'.cell, 1) == s.cell.t;
  }

  /** The same price in buckets of different depth: charge tokens until the shallow one refuses. */
  lemma {:induction false} ChargesTell(l: Limiter, l': Limiter, k: Key, now: u64)
    requires var s, s' := Entry(l, k), Entry(l', k);
             && InRange(s.cell, now) && InRange(s'.cell, now) && Max(now, s.tat) == Max(now, s'.tat)
             && 0 < s.cell.t == s'.cell.t <= s.cell.tau < s'.cell.tau
    ensures ToldApart(l, l', now)
    decreases now + Entry(l, k).cell.tau + 1 - Min(now + Entry(l, k).cell.tau, Max(now, Entry(l, k).tat))
  {
    var s, s', charge := Entry(l, k), Entry(l', k), At(now, Consume(k, 1));
    DepthAnswers(s, s', now);
    if Check(s.cell, s.tat, now, 1).Admitted? {
      EntryAfter(l, charge, k);
      EntryAfter(l', charge, k);
      ChargesTell(Step(l, charge), Step(l', charge), k, now);
      ToldApartLater(l, l', charge);
    } else {
      ToldApartNow(l, l', charge);
    }
  }

  /** Full buckets of different shapes, one of which limits something, are told apart by a run that starts at once. */
  lemma ShapesTell(l: Limiter, l': Limiter, k: Key, now: u64)
    requires Plain(Entry(l, k), now) && Plain(Entry(l', k), now)
    requires var c, d := Entry(l, k).cell, Entry(l', k).cell; c.t < d.t || (0 < c.t == d.t && c.tau < d.tau)
    ensures ToldApart(l, l', now)
  {
    var t := Entry(l, k).cell.t;
    if t == Entry(l', k).cell.t {
      ChargesTell(l, l', k, now);
    } else if now + t + FromQuota(ProbeQuota(t)).t < U64_MAX {
      ProbeTells(l, l', k, now);
    } else {
      ProbeInterval(t);
      ProbeSaturates(Entry(l, k).cell, Entry(l', k).cell, now, FromQuota(ProbeQuota(t)).t);
      WaitTells(l, l', k, now);
    }
  }

  lemma ToldApartBothWays(l: Limiter, l': Limiter, now: nat)
    requires ToldApart(l, l', now)
    ensures ToldApart(l', l, now)
  {
    var es :| Clocked(now, es) && Answers(l, es) != Answers(l', es);
    assert Answers(l', es) != Answers(l, es);
  }

  lemma DifferentShapesTell(l: Limiter, l': Limiter, k: Key, now: u64)
    requires Plain(Entry(l, k), now) && Plain(Entry(l', k), now)
    requires !SameShape(Entry(l, k).cell, Entry(l', k).cell)
    ensures ToldApart(l, l', now)
  {
    var c, d := Entry(l, k).cell, Entry(l', k).cell;
    if c.t > d.t || (c.t == d.t && c.tau > d.tau) {
      ShapesTell(l', l, k, now);
      ToldApartBothWays(l', l, now);
    } else {
      ShapesTell(l, l', k, now);
    }
  }

  /** No later run can tell whether the sweep at `now` happened. */
  ghost predicate SweepIsInvisible(l: Limiter, now: u64) {
    forall es :: Clocked(now, es) ==> Answers(Step(l, At(now, RetainRecent)), es) == Answers(l, es)
  }

  /** The clock is in range of the default bucket and of those dropped. */
  ghost predicate SweptInRange(l: Limiter, now: u64) {
    InRange(l.cell, now) && forall k :: Dropped(l, k, now) ==> InRange(l.keys[k].cell, now)
  }

  lemma SweepTellsIff(l: Limiter, now: u64)
    requires FromQuotas(l) && SweptInRange(l, now)
    ensures SweepIsInvisible(l, now) <==> forall k :: Dropped(l, k, now) ==> SameShape(l.keys[k].cell, l.cell)
  {
    var swept := Step(l, At(now, RetainRecent));
    if forall k :: Dropped(l, k, now) ==> SameShape(l.keys[k].cell, l.cell) {
      forall es | Clocked(now, es) ensures Answers(swept, es) == Answers(l, es) {
        SweepNeverChangesAnAnswer(l, now, es);
      }
    } else {
      var k :| Dropped(l, k, now) && !SameShape(l.keys[k].cell, l.cell);
      var own :| l.keys[k].cell == FromQuota(own);
      var default :| l.cell == FromQuota(default);
      QuotaIsPlain(own, l.keys[k].tat, now);
      QuotaIsPlain(default, 0, now);
      DifferentShapesTell(l, swept, k, now);
      var es :| Clocked(now, es) && Answers(l, es) != Answers(swept, es);
    }
  }

  /**
   After any run, with the clock in range: every later run gets the same answers
   with the sweep as without it, if and only if each bucket the sweep drops has the
   default shape (or neither it nor the default limits anything).
   */
  lemma SweepIsInvisibleIff(quota: Quota, before: seq<Event>, now: u64)
    ensures var l := Run(Limiter(FromQuota(quota), map[]), before);
            SweptInRange(l, now) ==>
              (SweepIsInvisible(l, now) <==> forall k :: Dropped(l, k, now) ==> SameShape(l.keys[k].cell, l.cell))
  {
    var l := Run(Limiter(FromQuota(quota), map[]), before);
    RunKeepsFromQuotas(Limiter(FromQuota(quota), map[]), before);
    if SweptInRange(l, now) {
      SweepTellsIff(l, now);
    }
  }

  /** A key with its own quota does notice: it falls back to the default quota. */
  lemma SweepForgetsAPerKeyQuota(k: Key)
    ensures var l := Limiter(FromQuota(Quota(1, 60)), map[k := KeyState(0, FromQuota(Quota(3, 60)))]);
            var charge := [At(1, Consume(k, 3))];
            && Answers(l, charge) == [Granted]
            && Answers(Step(l, At(1, RetainRecent)), charge) == [Denied(TooLarge)]
  {
    var own, default := FromQuota(Quota(3, 60)), FromQuota(Quota(1, 60));
    var l := Limiter(default, map[k := KeyState(0, own)]);
    var swept := Step(l, At(1, RetainRecent));
    var charge := [At(1, Consume(k, 3))];
    assert own == Cell(60, 20) && default == Cell(60, 60);
    assert Entry(l, k).cell == own && Entry(swept, k).cell == default;
    assert Answers(Step(l, charge[0]), charge[1..]) == [];
    assert Answers(Step(swept, charge[0]), charge[1..]) == [];
  }

  // ----- The limiter itself

  class KeyedRateLimiter {
    const cell: Cell
    var keys: map<Key, KeyState>

    function State(): Limiter
      reads this
    {
      Limiter(cell, keys)
    }

    constructor (quota: Quota)
      ensures State() == Limiter(FromQuota(quota), map[])
    {
      cell := FromQuota(quota);
      keys := map[];
    }

    /** Charges all `n` tokens or none; either way the key now has an entry. */
    method TryConsumeN(now: u64, key: Key, n: u32) returns (answer: Answer)
      modifies this
      ensures State() == Step(old(State()), At(now, Consume(key, n)))
      ensures answer == Respond(old(State()), At(now, Consume(key, n)))
    {
      if key !in keys {
        keys := keys[key := KeyState(0, cell)];
      }
      var s := keys[key];
      match Check(s.cell, s.tat, now, n) {
        case Admitted(tat) =>
          keys := keys[key := s.(tat := tat)];
          answer := Granted;
        case Refused(why) =>
          answer := Denied(why);
      }
      assert keys == Step(old(State()), At(now, Consume(key, n))).keys;
    }

    method TryPeek(now: u64, key: Key, n: u32) returns (answer: Answer)
      ensures answer == Respond(State(), At(now, Peek(key, n)))
    {
      var s := if key in keys then keys[key] else KeyState(0, cell);
      answer := AnswerOf(Check(s.cell, s.tat, now, n));
    }

    method SetKeyQuota(now: u64, key: Key, quota: Quota)
      modifies this
      ensures State() == Step(old(State()), At(now, SetQuota(key, quota)))
    {
      var newCell := FromQuota(quota);
      if key in keys {
        var s := keys[key];
        if s.cell.tau == newCell.tau && s.cell.t == newCell.t {
          assert keys == keys[key := s];
          return;
        }
        var ceiling := SatAdd(now, newCell.tau);
        keys := keys[key := KeyState(Min(s.tat, ceiling), newCell)];
      } else {
        keys := keys[key := KeyState(0, newCell)];
      }
    }

    method ReplenishAllEveryFor(key: Key) returns (tau: u64)
      ensures tau == Entry(State(), key).cell.tau
    {
      tau := if key in keys then keys[key].cell.tau else cell.tau;
    }

    method ClearKey(key: Key)
      modifies this
      ensures forall now: u64 :: State() == Step(old(State()), At(now, Clear(key)))
    {
      keys := keys - {key};
    }

    method Sweep(now: u64)
      modifies this
      ensures State() == Step(old(State()), At(now, RetainRecent))
    {
      keys := map k | k in keys && keys[k].tat > now :: keys[k];
    }
  }
}
