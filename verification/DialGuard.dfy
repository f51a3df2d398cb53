/**
 Backoff and ban state of the dial tracker: two bounded LRU caches, one counting
 consecutive failures per id, one holding ban times.
 */
module DialGuard {
  import opened Words
  import opened Options
  import opened Clocks
  import opened Backoff
  import opened RecencyList

  type Id(==, !new)

  // ----- A bounded LRU cache over its recency list

  datatype Lru<V> = Lru(capacity: nat, slots: seq<Slot<Id, V>>)

  /** `get`: a hit becomes the most recent. */
  function Touched<V>(c: Lru<V>, id: Id): Lru<V> {
    c.(slots := Touch(c.slots, id))
  }

  /** `insert`: drops the least recent entry when the cache would exceed its capacity. */
  function Store<V>(c: Lru<V>, id: Id, v: V): Lru<V> {
    var slots := Without(c.slots, id) + [Slot(id, v)];
    c.(slots := if |slots| > c.capacity then slots[1..] else slots)
  }

  function Erase<V>(c: Lru<V>, id: Id): Lru<V> {
    c.(slots := Without(c.slots, id))
  }

  /** Storing `who` leaves the entry of `id` in the cache, whatever else it pushes out. */
  predicate Spares<V>(c: Lru<V>, who: Id, id: Id) {
    var others := Without(c.slots, who);
    c.capacity > 0 && (|others| >= c.capacity ==> others[0].key != id)
  }

  lemma StoreSpares<V>(c: Lru<V>, who: Id, v: V, id: Id)
    requires Spares(c, who, id)
    ensures Find(Store(c, who, v).slots, id) == if id == who then Some(v) else Find(c.slots, id)
  {
    FindWithout(c.slots, who, id);
    FindAppend(Without(c.slots, who), Slot(who, v), id);
  }

  /** A cache with any capacity keeps what it has just stored, full or not. */
  lemma StoreSparesItself<V>(c: Lru<V>, id: Id)
    requires c.capacity > 0
    ensures Spares(c, id, id)
  {
    FindWithout(c.slots, id, id);
  }

  /** An entry that was just read is not the next one to be pushed out, unless it has the cache to itself. */
  lemma TouchSpares<V>(c: Lru<V>, who: Id, id: Id)
    requires c.capacity > 1 && |c.slots| <= c.capacity && who != id && Find(c.slots, id).Some?
    requires Find(c.slots, who).None?
    ensures Spares(Touched(c, id), who, id)
  {
    var after, others := Touched(c, id).slots, Without(c.slots, id);
    FindWithout(c.slots, id, id);
    FindWithout(c.slots, id, who);
    NotFoundMeansWithout(after, who) by { TouchFinds(c.slots, id, who); }
    if |after| >= c.capacity {
      assert after[0] == others[0];
      assert Find(others, id).None?;
    }
  }

  lemma {:induction false} NotFoundMeansWithout<V>(slots: seq<Slot<Id, V>>, id: Id)
    requires Find(slots, id).None?
    ensures Without(slots, id) == slots
    decreases |slots|
  {
    if slots != [] {
      NotFoundMeansWithout(slots[1..], id);
    }
  }

  ghost predicate AllSlots<V>(slots: seq<Slot<Id, V>>, p: V -> bool) {
    forall i :: 0 <= i < |slots| ==> p(slots[i].value)
  }

  lemma {:induction false} WithoutKeepsAll<V>(slots: seq<Slot<Id, V>>, id: Id, p: V -> bool)
    requires AllSlots(slots, p)
    ensures AllSlots(Without(slots, id), p)
    decreases |slots|
  {
    if slots != [] {
      assert forall i :: 0 <= i < |slots[1..]| ==> slots[1..][i] == slots[i + 1];
      WithoutKeepsAll(slots[1..], id, p);
    }
  }

  lemma {:induction false} FindGivesAll<V>(slots: seq<Slot<Id, V>>, id: Id, p: V -> bool)
    requires AllSlots(slots, p)
    ensures Find(slots, id).Some? ==> p(Find(slots, id).value)
    decreases |slots|
  {
    if slots != [] {
      assert forall i :: 0 <= i < |slots[1..]| ==> slots[1..][i] == slots[i + 1];
      FindGivesAll(slots[1..], id, p);
    }
  }

  /** Touching, storing a good value and erasing keep a property of every stored value, evictions included. */
  lemma CacheKeepsAll<V>(c: Lru<V>, id: Id, v: V, p: V -> bool)
    requires AllSlots(c.slots, p)
    ensures AllSlots(Touched(c, id).slots, p)
    ensures AllSlots(Erase(c, id).slots, p)
    ensures p(v) ==> AllSlots(Store(c, id, v).slots, p)
  {
    WithoutKeepsAll(c.slots, id, p);
    FindGivesAll(c.slots, id, p);
  }

  // ----- The guard

  datatype Config = Config(
    backoffCapacity: nat, backoffBase: u64, backoffMax: u64,
    banCapacity: nat, banAfter: u32, banTtl: u64,
    seedFor: Id -> u64)

  /** A cache of capacity zero is absent. */
  datatype Guard = Guard(backoff: Option<Lru<BackoffEntry>>, banned: Option<Lru<u64>>)

  function NewGuard(cfg: Config): Guard {
    Guard(if cfg.backoffCapacity > 0 then Some(Lru(cfg.backoffCapacity, [])) else None,
          if cfg.banCapacity > 0 then Some(Lru(cfg.banCapacity, [])) else None)
  }

  datatype Act =
    | RecordBackoff(id: Id)
    | ClearBackoff(id: Id)
    | AskBanned(id: Id)
    | AskBackoff(id: Id)

  type Event = Timed<Act>

  function Failures(g: Guard, id: Id): u32 {
    if g.backoff.None? then 0
    else match Find(g.backoff.value.slots, id)
      case Some(e) => e.consecutiveFailures
      case None => 0
  }

  function BanTime(g: Guard, id: Id): Option<u64> {
    if g.banned.None? then None else Find(g.banned.value.slots, id)
  }

  function MoreFailures(n: u32): u32 {
    (n + 1) % (U32_MAX + 1)
  }

  predicate Promotes(cfg: Config, failures: u32) {
    cfg.banAfter > 0 && MoreFailures(failures) >= cfg.banAfter
  }

  function Record(cfg: Config, g: Guard, now: u64, id: Id): Guard {
    match g.backoff
    case None => g
    case Some(cache) =>
      var touched := Touched(cache, id);
      var failures := Failures(g, id);
      if Promotes(cfg, failures) then
        Guard(Some(Erase(touched, id)), if g.banned.Some? then Some(Store(g.banned.value, id, now)) else None)
      else
        g.(backoff := Some(Store(touched, id, BackoffEntry(now, MoreFailures(failures)))))
  }

  function Clear(g: Guard, id: Id): Guard {
    Guard(if g.backoff.Some? then Some(Erase(g.backoff.value, id)) else None,
          if g.banned.Some? then Some(Erase(g.banned.value, id)) else None)
  }

  predicate Expired(cfg: Config, banTime: u64, now: u64) {
    cfg.banTtl > 0 && SatSub(now, banTime) >= cfg.banTtl
  }

  predicate IsBanned(cfg: Config, g: Guard, now: u64, id: Id) {
    BanTime(g, id).Some? && !Expired(cfg, BanTime(g, id).value, now)
  }

  /** The query touches the ban and drops it once expired. */
  function AfterAskBanned(cfg: Config, g: Guard, now: u64, id: Id): Guard {
    if g.banned.None? then g
    else if BanTime(g, id).Some? && Expired(cfg, BanTime(g, id).value, now)
    then g.(banned := Some(Erase(Touched(g.banned.value, id), id)))
    else g.(banned := Some(Touched(g.banned.value, id)))
  }

  predicate IsInBackoff(cfg: Config, g: Guard, now: u64, id: Id) {
    && g.backoff.Some?
    && Find(g.backoff.value.slots, id).Some?
    && var entry := Find(g.backoff.value.slots, id).value;
       BackoffRemaining(entry, now, cfg.backoffBase, cfg.backoffMax, cfg.seedFor(id)).Some?
  }

  function AfterAskBackoff(g: Guard, id: Id): Guard {
    if g.backoff.None? then g else g.(backoff := Some(Touched(g.backoff.value, id)))
  }

  function Step(cfg: Config, g: Guard, e: Event): Guard {
    match e.call
    case RecordBackoff(id) => Record(cfg, g, e.now, id)
    case ClearBackoff(id) => Clear(g, id)
    case AskBanned(id) => AfterAskBanned(cfg, g, e.now, id)
    case AskBackoff(id) => AfterAskBackoff(g, id)
  }

  function Run(cfg: Config, g: Guard, es: seq<Event>): Guard
    decreases |es|
  {
    if es == [] then g else Run(cfg, Step(cfg, g, es[0]), es[1..])
  }

  // ----- Stored counts stay below the threshold

  ghost predicate CountsInRange(cfg: Config, g: Guard) {
    g.backoff.Some? ==> AllSlots(g.backoff.value.slots, (e: BackoffEntry) => 1 <= e.consecutiveFailures < cfg.banAfter)
  }

  lemma StepKeepsCounts(cfg: Config, g: Guard, e: Event)
    requires cfg.banAfter > 0 && CountsInRange(cfg, g)
    ensures CountsInRange(cfg, Step(cfg, g, e))
  {
    if g.backoff.Some? {
      var p := (x: BackoffEntry) => 1 <= x.consecutiveFailures < cfg.banAfter;
      var cache, id := g.backoff.value, e.call.id;
      FindGivesAll(cache.slots, id, p);
      var entry := BackoffEntry(e.now, MoreFailures(Failures(g, id)));
      CacheKeepsAll(cache, id, entry, p);
      CacheKeepsAll(Touched(cache, id), id, entry, p);
    }
  }

  /**
   With a threshold set, after any run every stored entry counts at least one
   failure and fewer than the threshold.
   */
  lemma {:induction false} CountsStayBelowThreshold(cfg: Config, g: Guard, es: seq<Event>)
    requires cfg.banAfter > 0 && CountsInRange(cfg, g)
    ensures CountsInRange(cfg, Run(cfg, g, es))
    decreases |es|
  {
    if es != [] {
      StepKeepsCounts(cfg, g, es[0]);
      CountsStayBelowThreshold(cfg, Step(cfg, g, es[0]), es[1..]);
    }
  }

  // ----- The caches stay within their capacities

  predicate FitsCapacity<V>(c: Option<Lru<V>>) {
    c.Some? ==> 0 < c.value.capacity && |c.value.slots| <= c.value.capacity
  }

  predicate WithinCapacity(g: Guard) {
    FitsCapacity(g.backoff) && FitsCapacity(g.banned)
  }

  lemma CacheKeepsCapacity<V>(c: Lru<V>, id: Id, v: V)
    requires FitsCapacity(Some(c))
    ensures FitsCapacity(Some(Touched(c, id))) && FitsCapacity(Some(Erase(c, id)))
    ensures FitsCapacity(Some(Store(c, id, v)))
  {
    TouchFinds(c.slots, id, id);
    FindWithout(c.slots, id, id);
  }

  lemma StepKeepsCapacity(cfg: Config, g: Guard, e: Event)
    requires WithinCapacity(g)
    ensures WithinCapacity(Step(cfg, g, e))
  {
    var id := e.call.id;
    if g.backoff.Some? {
      var entry := BackoffEntry(e.now, MoreFailures(Failures(g, id)));
      CacheKeepsCapacity(g.backoff.value, id, entry);
      CacheKeepsCapacity(Touched(g.backoff.value, id), id, entry);
    }
    if g.banned.Some? {
      CacheKeepsCapacity(g.banned.value, id, e.now);
      CacheKeepsCapacity(Touched(g.banned.value, id), id, e.now);
    }
  }

  /** No run takes either cache past its capacity, which is never zero. */
  lemma {:induction false} CachesStayWithinCapacity(cfg: Config, g: Guard, es: seq<Event>)
    requires WithinCapacity(g)
    ensures WithinCapacity(Run(cfg, g, es))
    decreases |es|
  {
    if es != [] {
      StepKeepsCapacity(cfg, g, es[0]);
      CachesStayWithinCapacity(cfg, Step(cfg, g, es[0]), es[1..]);
    }
  }

  // ----- Until it is evicted, each id has a record of its own

  /** What the guard knows about one id. */
  datatype Standing = Standing(failures: u32, ban: Option<u64>)

  function StandingOf(g: Guard, id: Id): Standing {
    Standing(Failures(g, id), BanTime(g, id))
  }

  /** The record of `id` after an event, computed from its own record alone. */
  function StandingStep(cfg: Config, s: Standing, e: Event, id: Id): Standing {
    if e.call.id != id then s
    else match e.call
      case RecordBackoff(_) =>
        if Promotes(cfg, s.failures) then Standing(0, Some(e.now)) else s.(failures := MoreFailures(s.failures))
      case ClearBackoff(_) => Standing(0, None)
      case AskBanned(_) => if s.ban.Some? && Expired(cfg, s.ban.value, e.now) then s.(ban := None) else s
      case AskBackoff(_) => s
  }

  function StandingRun(cfg: Config, s: Standing, es: seq<Event>, id: Id): Standing
    decreases |es|
  {
    if es == [] then s else StandingRun(cfg, StandingStep(cfg, s, es[0], id), es[1..], id)
  }

  /**
   Both caches exist and the event does not push `id` out of either. A failure
   stores its id in the ban cache when it promotes, and in the backoff cache if not.
   */
  predicate NotEvicted(cfg: Config, g: Guard, e: Event, id: Id) {
    && g.backoff.Some? && g.banned.Some?
    && (e.call.RecordBackoff? ==>
          if Promotes(cfg, Failures(g, e.call.id)) then Spares(g.banned.value, e.call.id, id)
          else Spares(Touched(g.backoff.value, e.call.id), e.call.id, id))
  }

  /** The run never evicts `id`; others may come and go. */
  ghost predicate NeverEvicted(cfg: Config, g: Guard, es: seq<Event>, id: Id)
    decreases |es|
  {
    es == [] || (NotEvicted(cfg, g, es[0], id) && NeverEvicted(cfg, Step(cfg, g, es[0]), es[1..], id))
  }

  lemma RecordStanding(cfg: Config, g: Guard, now: u64, who: Id, id: Id)
    requires NotEvicted(cfg, g, At(now, RecordBackoff(who)), id)
    ensures StandingOf(Record(cfg, g, now, who), id)
            == StandingStep(cfg, StandingOf(g, id), At(now, RecordBackoff(who)), id)
  {
    var cache := g.backoff.value;
    var touched := Touched(cache, who);
    TouchFinds(cache.slots, who, id);
    if Promotes(cfg, Failures(g, who)) {
      FindWithout(touched.slots, who, id);
      StoreSpares(g.banned.value, who, now, id);
    } else {
      StoreSpares(touched, who, BackoffEntry(now, MoreFailures(Failures(g, who))), id);
    }
  }

  lemma StepStanding(cfg: Config, g: Guard, e: Event, id: Id)
    requires NotEvicted(cfg, g, e, id)
    ensures StandingOf(Step(cfg, g, e), id) == StandingStep(cfg, StandingOf(g, id), e, id)
  {
    var who := e.call.id;
    match e.call {
      case RecordBackoff(_) => RecordStanding(cfg, g, e.now, who, id);
      case ClearBackoff(_) =>
        FindWithout(g.backoff.value.slots, who, id);
        FindWithout(g.banned.value.slots, who, id);
      case AskBanned(_) =>
        TouchFinds(g.banned.value.slots, who, id);
        FindWithout(Touched(g.banned.value, who).slots, who, id);
      case AskBackoff(_) =>
        TouchFinds(g.backoff.value.slots, who, id);
    }
  }

  /**
   As long as an id is not evicted, its state in the caches is that of a record of
   its own: other ids do not influence it.
   */
  lemma {:induction false} GuardRefinesStandings(cfg: Config, g: Guard, es: seq<Event>, id: Id)
    requires NeverEvicted(cfg, g, es, id)
    ensures StandingOf(Run(cfg, g, es), id) == StandingRun(cfg, StandingOf(g, id), es, id)
    decreases |es|
  {
    if es != [] {
      StepStanding(cfg, g, es[0], id);
      GuardRefinesStandings(cfg, Step(cfg, g, es[0]), es[1..], id);
    }
  }

  /**
   A recorded failure below the threshold, in a cache full or not, keeps the id in
   backoff for exactly its backoff time; only a count that wrapped to zero leaves it free at once.
   */
  lemma FailureBacksOffExactly(cfg: Config, g: Guard, now: u64, id: Id, later: u64)
    requires g.backoff.Some? && g.backoff.value.capacity > 0 && now <= later
    requires !Promotes(cfg, Failures(g, id))
    ensures var entry := BackoffEntry(now, MoreFailures(Failures(g, id)));
            IsInBackoff(cfg, Record(cfg, g, now, id), later, id)
            <==> && entry.consecutiveFailures >= 1
                 && later < now + BackoffSecs(entry, cfg.backoffBase, cfg.backoffMax, cfg.seedFor(id))
  {
    var touched, entry := Touched(g.backoff.value, id), BackoffEntry(now, MoreFailures(Failures(g, id)));
    TouchFinds(g.backoff.value.slots, id, id);
    StoreSparesItself(touched, id);
    StoreSpares(touched, id, entry, id);
    if entry.consecutiveFailures >= 1 {
      RemainingCountsDown(entry, later, cfg.backoffBase, cfg.backoffMax, cfg.seedFor(id));
    }
  }

  /**
   The failure that reaches the threshold ends the backoff of the id and bans it
   from then on, if bans are kept at all. Without a backoff cache no failure is recorded.
   */
  lemma PromotionEndsTheBackoff(cfg: Config, g: Guard, now: u64, id: Id, later: u64)
    ensures g.backoff.None? ==> Record(cfg, g, now, id) == g
    ensures g.backoff.Some? && Promotes(cfg, Failures(g, id)) ==>
              && Failures(Record(cfg, g, now, id), id) == 0
              && !IsInBackoff(cfg, Record(cfg, g, now, id), later, id)
              && (g.banned.Some? && g.banned.value.capacity > 0 ==> BanTime(Record(cfg, g, now, id), id) == Some(now))
              && (g.banned.None? ==> !IsBanned(cfg, Record(cfg, g, now, id), later, id))
  {
    if g.backoff.Some? {
      FindWithout(Touched(g.backoff.value, id).slots, id, id);
    }
    if g.banned.Some? && g.banned.value.capacity > 0 {
      StoreSparesItself(g.banned.value, id);
      StoreSpares(g.banned.value, id, now, id);
    }
  }

  // ----- The threshold bans

  /** A ban imposed at `from` is still in force: bans without a TTL never end. */
  predicate InTerm(cfg: Config, from: u64, now: u64) {
    cfg.banTtl == 0 || now < from + cfg.banTtl
  }

  function RecordsFor(es: seq<Event>, id: Id): nat {
    if es == [] then 0
    else (if es[0].call == RecordBackoff(id) then 1 else 0) + RecordsFor(es[1..], id)
  }

  ghost predicate NeverCleared(es: seq<Event>, id: Id) {
    forall i :: 0 <= i < |es| ==> es[i].call != ClearBackoff(id)
  }

  lemma {:induction false} FailuresAddUp(cfg: Config, s: Standing, es: seq<Event>, id: Id)
    requires NeverCleared(es, id) && cfg.banAfter > 0 && s.failures + RecordsFor(es, id) < cfg.banAfter
    ensures StandingRun(cfg, s, es, id).failures == s.failures + RecordsFor(es, id)
    decreases |es|
  {
    if es != [] {
      assert es[0].call != ClearBackoff(id);
      assert forall i :: 0 <= i < |es[1..]| ==> es[1..][i] == es[i + 1];
      FailuresAddUp(cfg, StandingStep(cfg, s, es[0], id), es[1..], id);
    }
  }

  /** A ban imposed at `from` stands, or a query has dropped it after its term, by `now` at the latest. */
  predicate BanHolds(cfg: Config, ban: Option<u64>, from: u64, now: u64) {
    ban == Some(from) || (ban.None? && !InTerm(cfg, from, now))
  }

  /** Without further failures or a clear, a ban is kept or dropped after its term, never renewed. */
  lemma {:induction false} BanRunsItsTerm(cfg: Config, s: Standing, es: seq<Event>, id: Id, from: u64, now: u64)
    requires BanHolds(cfg, s.ban, from, now) && NeverCleared(es, id) && RecordsFor(es, id) == 0
    requires forall i :: 0 <= i < |es| ==> from <= es[i].now <= now
    ensures BanHolds(cfg, StandingRun(cfg, s, es, id).ban, from, now)
    decreases |es|
  {
    if es != [] {
      assert es[0].call != ClearBackoff(id) && from <= es[0].now <= now;
      assert forall i :: 0 <= i < |es[1..]| ==> es[1..][i] == es[i + 1];
      BanRunsItsTerm(cfg, StandingStep(cfg, s, es[0], id), es[1..], id, from, now);
    }
  }

  /** A clear lifts both the ban and the backoff, evictions or not. */
  lemma ClearForgets(cfg: Config, g: Guard, id: Id, now: u64)
    ensures !IsBanned(cfg, Clear(g, id), now, id) && !IsInBackoff(cfg, Clear(g, id), now, id)
  {
    if g.backoff.Some? {
      FindWithout(g.backoff.value.slots, id, id);
    }
    if g.banned.Some? {
      FindWithout(g.banned.value.slots, id, id);
    }
  }

  /**
   With both caches, and the id not evicted from them: once it fails `banAfter` times in a row
   without a clear, counting from a clean record, it is banned, and it is banned
   at a later `now` exactly while the TTL has not run out, whatever queries about
   it, before or after the end of its term, and events about other ids come in
   between.
   */
  lemma ThresholdBans(cfg: Config, g: Guard, before: seq<Event>, last: u64, after: seq<Event>, id: Id, now: u64)
    requires cfg.banAfter > 0 && Failures(g, id) == 0
    requires NeverEvicted(cfg, g, before + [At(last, RecordBackoff(id))] + after, id)
    requires NeverCleared(before, id) && NeverCleared(after, id)
    requires RecordsFor(before, id) == cfg.banAfter - 1 && RecordsFor(after, id) == 0
    requires last <= now && forall i :: 0 <= i < |after| ==> last <= after[i].now <= now
    ensures var end := Run(cfg, g, before + [At(last, RecordBackoff(id))] + after);
            IsBanned(cfg, end, now, id) <==> InTerm(cfg, last, now)
  {
    var es := before + [At(last, RecordBackoff(id))] + after;
    GuardRefinesStandings(cfg, g, es, id);
    ThresholdStanding(cfg, StandingOf(g, id), before, last, after, id, now);
    assert BanTime(Run(cfg, g, es), id) == StandingOf(Run(cfg, g, es), id).ban;
  }

  lemma ThresholdStanding(cfg: Config, s: Standing, before: seq<Event>, last: u64, after: seq<Event>, id: Id, now: u64)
    requires cfg.banAfter > 0 && s.failures == 0
    requires NeverCleared(before, id) && NeverCleared(after, id)
    requires RecordsFor(before, id) == cfg.banAfter - 1 && RecordsFor(after, id) == 0
    requires forall i :: 0 <= i < |after| ==> last <= after[i].now <= now
    ensures BanHolds(cfg, StandingRun(cfg, s, before + [At(last, RecordBackoff(id))] + after, id).ban, last, now)
  {
    var blow := [At(last, RecordBackoff(id))];
    StandingRunConcat(cfg, s, before + blow, after, id);
    StandingRunConcat(cfg, s, before, blow, id);
    FailuresAddUp(cfg, s, before, id);
    LastBlow(cfg, StandingRun(cfg, s, before, id), last, id);
    BanRunsItsTerm(cfg, Standing(0, Some(last)), after, id, last, now);
  }

  lemma LastBlow(cfg: Config, s: Standing, last: u64, id: Id)
    requires cfg.banAfter > 0 && s.failures == cfg.banAfter - 1
    ensures StandingRun(cfg, s, [At(last, RecordBackoff(id))], id) == Standing(0, Some(last))
  {
    var blow := [At(last, RecordBackoff(id))];
    assert blow[1..] == [];
    assert StandingRun(cfg, StandingStep(cfg, s, blow[0], id), blow[1..], id) == StandingStep(cfg, s, blow[0], id);
  }

  lemma {:induction false} StandingRunConcat(cfg: Config, s: Standing, a: seq<Event>, b: seq<Event>, id: Id)
    ensures StandingRun(cfg, s, a + b, id) == StandingRun(cfg, StandingRun(cfg, s, a, id), b, id)
    decreases |a|
  {
    if a == [] {
      assert a + b == b;
    } else {
      StandingRunConcat(cfg, StandingStep(cfg, s, a[0], id), a[1..], b, id);
      assert (a + b)[1..] == a[1..] + b;
    }
  }
}
