/**
 The chain event engine as a machine over its elementary steps: head reports,
 page requests with any amount of shrinking, single applies, apply and read
 errors, cursor commits, and crashes at any point followed by a restart.
 Finalized logs never change, so they are a constant of the machine.
 */
module ChainIndex {
  import opened Words
  import opened ChainLogs
  import opened Options

  type Hash = nat
  const ZERO_HASH: Hash := 0

  datatype FinalizedHead = FinalizedHead(number: u64, hash: Hash)

  datatype Cursor = Cursor(lastBlock: u64, blockHash: Hash) {
    function NextBlock(): u64 {
      SatAdd(lastBlock, 1)
    }
  }

  /** The canonical finalized logs matching the indexer's filter, and its deployment block. */
  datatype Env = Env(chain: seq<Log>, startBlock: u64)

  datatype Phase =
    | Idle
    | Paging(from: u64, head: FinalizedHead)
    | Requesting(from: u64, to: u64, head: FinalizedHead)
    | Applying(from: u64, to: u64, head: FinalizedHead, page: seq<Log>, done: nat)

  /**
   `cursor` and `applied` (every successful `apply` call, replays included) are
   durable; `topHead` is the highest head reported so far, -1 before the first.
   */
  datatype Node = Node(cursor: Option<Cursor>, applied: seq<Log>, pageSize: u64, topHead: int, phase: Phase)

  datatype Step =
    | SyncStart(head: FinalizedHead)
    | NextPage
    | SyncDone
    | RangeError
    | ReadError
    | Reply(page: seq<Log>)                // the answer, sorted by the engine
    | ApplyOne
    | ApplyError
    | CommitCursor
    | Crash(pageSize: u64)

  function Resume(env: Env, cursor: Option<Cursor>): u64 {
    Max(if cursor.Some? then cursor.value.NextBlock() else env.startBlock, env.startBlock)
  }

  function PageEnd(from: u64, head: u64, pageSize: u64): u64 {
    Min(SatAdd(from, SatSub(pageSize, 1)), head)
  }

  /** The narrower end block tried after a range error on `from..=to`. */
  function ShrinkTo(from: u64, to: u64): u64
    requires from <= to
  {
    var span := (to - from + 1) / 2;
    Max(SatAdd(from, SatSub(span, 1)), from)
  }

  function ShrinkPage(pageSize: u64): u64 {
    Max((pageSize + 1) / 2, 1)
  }

  function CheckpointHash(to: u64, head: FinalizedHead): Hash {
    if to == head.number then head.hash else ZERO_HASH
  }

  ghost predicate Enabled(env: Env, n: Node, step: Step) {
    match step
    case SyncStart(_) => n.phase.Idle?
    case NextPage => n.phase.Paging? && n.phase.from <= n.phase.head.number
    case SyncDone => n.phase.Paging? && n.phase.head.number < n.phase.from
    case RangeError => n.phase.Requesting? && n.phase.from < n.phase.to
    case ReadError => n.phase.Requesting?
    case Reply(page) =>
      n.phase.Requesting? && Ordered(page) && multiset(page) == multiset(Range(env.chain, n.phase.from, n.phase.to))
    case ApplyOne => n.phase.Applying? && n.phase.done < |n.phase.page|
    case ApplyError => n.phase.Applying?
    case CommitCursor => n.phase.Applying? && n.phase.done == |n.phase.page|
    case Crash(pageSize) => 1 <= pageSize
  }

  function Effect(env: Env, n: Node, step: Step): Node
    requires Enabled(env, n, step)
  {
    match step
    case SyncStart(head) =>
      n.(topHead := Max(n.topHead, head.number), phase := Paging(Resume(env, n.cursor), head))
    case NextPage =>
      var p := n.phase;
      n.(phase := Requesting(p.from, PageEnd(p.from, p.head.number, n.pageSize), p.head))
    case SyncDone => n.(phase := Idle)
    case RangeError =>
      var p := n.phase;
      n.(pageSize := ShrinkPage(n.pageSize), phase := Requesting(p.from, ShrinkTo(p.from, p.to), p.head))
    case ReadError => n.(phase := Idle)
    case Reply(page) =>
      var p := n.phase;
      n.(phase := Applying(p.from, p.to, p.head, page, 0))
    case ApplyOne =>
      var p := n.phase;
      n.(applied := n.applied + [p.page[p.done]], phase := p.(done := p.done + 1))
    case ApplyError => n.(phase := Idle)
    case CommitCursor =>
      var p := n.phase;
      n.(cursor := Some(Cursor(p.to, CheckpointHash(p.to, p.head))), phase := Paging(SatAdd(p.to, 1), p.head))
    case Crash(pageSize) => n.(pageSize := pageSize, phase := Idle)
  }

  /**
   A sync resumes at the first block of its own that the cursor does not cover,
   or at the top of `u64` when there is none.
   */
  lemma ResumesAtTheFirstUncovered(env: Env, cursor: Option<Cursor>, block: u64)
    ensures env.startBlock <= Resume(env, cursor)
    ensures cursor.Some? && cursor.value.lastBlock < U64_MAX ==> cursor.value.lastBlock < Resume(env, cursor)
    ensures env.startBlock <= block && (cursor.Some? ==> cursor.value.lastBlock < block) ==>
              Resume(env, cursor) <= block
  {
  }

  /**
   A committed cursor stands at the end of its page. It carries the head's hash
   when that page reaches the head, and the zero hash when it ends below it.
   */
  lemma CheckpointHashOnlyAtTheHead(env: Env, n: Node)
    requires Inv(env, n) && Enabled(env, n, CommitCursor)
    ensures var p, cursor := n.phase, Effect(env, n, CommitCursor).cursor;
            && cursor.Some? && cursor.value.lastBlock == p.to
            && (p.to < p.head.number ==> cursor.value.blockHash == ZERO_HASH)
            && (p.to == p.head.number ==> cursor.value.blockHash == p.head.hash)
  {
  }

  // ----- What the indexer has seen

  /** The distinct logs of a history in order of first appearance. */
  function Seen(history: seq<Log>): seq<Log> {
    if history == [] then []
    else
      var before, x := Seen(history[..|history| - 1]), history[|history| - 1];
      if x in before then before else before + [x]
  }

  /** The position in the canonical order at which this indexer's logs start. */
  function Base(env: Env): nat {
    CountBelow(env.chain, env.startBlock)
  }

  /** How far into the canonical order the indexer has got. */
  function Frontier(env: Env, history: seq<Log>): nat {
    Base(env) + |Seen(history)|
  }

  /** The logs seen are a prefix of the canonical order from the start block. */
  ghost predicate SeenIsPrefix(env: Env, history: seq<Log>) {
    && Frontier(env, history) <= |env.chain|
    && Seen(history) == env.chain[Base(env)..Frontier(env, history)]
  }

  /** The cursor never claims an unseen log and never passes a reported head. */
  ghost predicate CursorIsCovered(env: Env, n: Node) {
    n.cursor.Some? ==>
      && CountBelow(env.chain, n.cursor.value.lastBlock + 1) <= Frontier(env, n.applied)
      && n.cursor.value.lastBlock <= n.topHead
  }

  ghost predicate PhaseIsSound(env: Env, n: Node) {
    !n.phase.Idle? ==>
      && env.startBlock <= n.phase.from
      && n.phase.head.number <= n.topHead
      && CountBelow(env.chain, n.phase.from) <= Frontier(env, n.applied)
      && (n.cursor.Some? ==> n.cursor.value.lastBlock <= n.phase.from)
      && (n.phase.Requesting? || n.phase.Applying? ==> n.phase.from <= n.phase.to <= n.phase.head.number)
      && (n.phase.Applying? ==>
            && n.phase.page == Range(env.chain, n.phase.from, n.phase.to)
            && n.phase.done <= |n.phase.page|
            && CountBelow(env.chain, n.phase.from) + n.phase.done <= Frontier(env, n.applied))
  }

  ghost predicate Inv(env: Env, n: Node) {
    && 1 <= n.pageSize
    && SeenIsPrefix(env, n.applied)
    && CursorIsCovered(env, n)
    && PhaseIsSound(env, n)
  }

  lemma CanonicalIsDistinct(chain: seq<Log>, i: nat, lo: nat, hi: nat)
    requires Canonical(chain) && lo <= hi <= |chain| && i < |chain| && !(lo <= i < hi)
    ensures chain[i] !in chain[lo..hi]
  {
  }

  /** Applying a log at or before the frontier: a replay is ignored, a new log extends the prefix by one. */
  lemma ApplyKeepsPrefix(env: Env, history: seq<Log>, i: nat)
    requires Canonical(env.chain) && SeenIsPrefix(env, history)
    requires Base(env) <= i <= Frontier(env, history) && i < |env.chain|
    ensures SeenIsPrefix(env, history + [env.chain[i]])
    ensures Frontier(env, history + [env.chain[i]]) == Max(Frontier(env, history), i + 1)
  {
    var chain, base, f, x := env.chain, Base(env), Frontier(env, history), env.chain[i];
    SeenAppend(history, x);
    if i < f {
      InStretch(chain, base, f, i);
    } else {
      CanonicalIsDistinct(chain, i, base, f);
      StretchGrows(chain, base, f);
    }
  }

  lemma InStretch(chain: seq<Log>, lo: nat, hi: nat, i: nat)
    requires lo <= i < hi <= |chain|
    ensures chain[i] in chain[lo..hi]
  {
    assert chain[lo..hi][i - lo] == chain[i];
  }

  lemma StretchGrows(chain: seq<Log>, lo: nat, hi: nat)
    requires lo <= hi < |chain|
    ensures chain[lo..hi] + [chain[hi]] == chain[lo..hi + 1]
  {
  }

  lemma SeenAppend(history: seq<Log>, x: Log)
    ensures Seen(history + [x]) == if x in Seen(history) then Seen(history) else Seen(history) + [x]
  {
    assert (history + [x])[..|history|] == history;
  }

  lemma NextLogIsAtMostTheFrontier(env: Env, n: Node)
    requires Canonical(env.chain) && Inv(env, n) && Enabled(env, n, ApplyOne)
    ensures var p := n.phase;
            var i := CountBelow(env.chain, p.from) + p.done;
            && Base(env) <= i <= Frontier(env, n.applied)
            && i < |env.chain|
            && p.page[p.done] == env.chain[i]
  {
    var p := n.phase;
    CountBelowMonotone(env.chain, env.startBlock, p.from);
    CountBelowMonotone(env.chain, p.from, p.to + 1);
  }

  lemma ApplyOneKeepsInv(env: Env, n: Node)
    requires Canonical(env.chain) && Inv(env, n) && Enabled(env, n, ApplyOne)
    ensures Inv(env, Effect(env, n, ApplyOne))
  {
    var i, n' := CountBelow(env.chain, n.phase.from) + n.phase.done, Effect(env, n, ApplyOne);
    NextLogIsAtMostTheFrontier(env, n);
    assert n'.applied == n.applied + [env.chain[i]];
    ApplyKeepsPrefix(env, n.applied, i);
    assert SeenIsPrefix(env, n'.applied) && Frontier(env, n'.applied) == Max(Frontier(env, n.applied), i + 1);
    assert CursorIsCovered(env, n') && PhaseIsSound(env, n');
  }

  lemma CommitKeepsInv(env: Env, n: Node)
    requires Canonical(env.chain) && Inv(env, n) && Enabled(env, n, CommitCursor)
    ensures Inv(env, Effect(env, n, CommitCursor))
  {
    var p := n.phase;
    CountBelowMonotone(env.chain, p.from, p.to + 1);
    CountBelowMonotone(env.chain, SatAdd(p.to, 1), p.to + 1);
  }

  lemma ReplyKeepsInv(env: Env, n: Node, page: seq<Log>)
    requires Canonical(env.chain) && Inv(env, n) && Enabled(env, n, Reply(page))
    ensures Inv(env, Effect(env, n, Reply(page)))
  {
    SortedPage(env.chain, n.phase.from, n.phase.to, page);
  }

  /** Whatever order the provider chose, the sorted page is the canonical one. */
  lemma SortedPage(chain: seq<Log>, from: nat, to: nat, page: seq<Log>)
    requires Canonical(chain) && Ordered(page) && multiset(page) == multiset(Range(chain, from, to))
    ensures page == Range(chain, from, to)
  {
    RangeIsExact(chain, from, to);
    OneSortedArrangement(page, Range(chain, from, to));
  }

  lemma SyncStartKeepsInv(env: Env, n: Node, head: FinalizedHead)
    requires Canonical(env.chain) && Inv(env, n) && Enabled(env, n, SyncStart(head))
    ensures Inv(env, Effect(env, n, SyncStart(head)))
  {
    if n.cursor.Some? {
      CountBelowMonotone(env.chain, n.cursor.value.NextBlock(), n.cursor.value.lastBlock + 1);
    }
    if Resume(env, n.cursor) == env.startBlock {
      assert CountBelow(env.chain, Resume(env, n.cursor)) == Base(env);
    }
  }

  lemma StepKeepsInv(env: Env, n: Node, step: Step)
    requires Canonical(env.chain) && Inv(env, n) && Enabled(env, n, step)
    ensures Inv(env, Effect(env, n, step))
  {
    match step {
      case SyncStart(head) => SyncStartKeepsInv(env, n, head);
      case Reply(page) => ReplyKeepsInv(env, n, page);
      case ApplyOne => ApplyOneKeepsInv(env, n);
      case CommitCursor => CommitKeepsInv(env, n);
      case _ =>
    }
  }

  /** No step moves the cursor back. */
  lemma StepKeepsCursor(env: Env, n: Node, step: Step)
    requires Inv(env, n) && Enabled(env, n, step) && n.cursor.Some?
    ensures var n' := Effect(env, n, step);
            n'.cursor.Some? && n.cursor.value.lastBlock <= n'.cursor.value.lastBlock
  {
  }

  // ----- Whole runs

  /** `path` starts at a first launch and follows the machine. */
  ghost predicate IsRun(env: Env, path: seq<Node>) {
    && |path| > 0
    && Launch(path[0])
    && forall i :: 0 < i < |path| ==> Linked(env, path, i)
  }

  ghost predicate Linked(env: Env, path: seq<Node>, i: nat)
    requires 0 < i < |path|
  {
    Follows(env, path[i - 1], path[i])
  }

  ghost predicate Launch(n: Node) {
    n.cursor.None? && n.applied == [] && 1 <= n.pageSize && n.topHead == -1 && n.phase.Idle?
  }

  ghost predicate Follows(env: Env, n: Node, n': Node) {
    exists step :: Enabled(env, n, step) && n' == Effect(env, n, step)
  }

  lemma {:induction false} RunKeepsInv(env: Env, path: seq<Node>, i: nat)
    requires Canonical(env.chain) && IsRun(env, path) && i < |path|
    ensures Inv(env, path[i])
  {
    if i == 0 {
      assert Frontier(env, path[0].applied) == Base(env);
    } else {
      RunKeepsInv(env, path, i - 1);
      assert Linked(env, path, i);
      FollowingKeepsInv(env, path[i - 1], path[i]);
    }
  }

  /**
   In every run, with crashes and errors anywhere and any page boundaries after a
   restart: the logs seen are a prefix of the canonical order from the start
   block, they include every log up to the cursor, and the cursor stays within
   the reported heads.
   */
  lemma SeenIsAlwaysACanonicalPrefix(env: Env, path: seq<Node>, i: nat)
    requires Canonical(env.chain) && IsRun(env, path) && i < |path|
    ensures var n := path[i];
            && SeenIsPrefix(env, n.applied)
            && CursorIsCovered(env, n)
            && (n.cursor.Some? ==>
                  forall x :: x in env.chain && env.startBlock <= x.block <= n.cursor.value.lastBlock
                              ==> x in n.applied)
  {
    RunKeepsInv(env, path, i);
    var n, chain := path[i], env.chain;
    if n.cursor.Some? {
      var last: nat := n.cursor.value.lastBlock;
      CountBelowSplits(chain, env.startBlock);
      CountBelowSplits(chain, last + 1);
      forall x | x in chain && env.startBlock <= x.block <= last ensures x in n.applied {
        var j :| 0 <= j < |chain| && chain[j] == x;
        assert Base(env) <= j < Frontier(env, n.applied);
        assert Seen(n.applied)[j - Base(env)] == x;
        SeenSameLogs(n.applied);
      }
    }
  }

  lemma {:induction false} SeenSameLogs(history: seq<Log>)
    ensures forall x :: x in Seen(history) <==> x in history
  {
    if history != [] {
      var front, last := history[..|history| - 1], history[|history| - 1];
      SeenSameLogs(front);
      assert history == front + [last];
    }
  }

  /** Over any stretch of a run the cursor only moves forward. */
  lemma {:induction false} CursorNeverMovesBack(env: Env, path: seq<Node>, i: nat, j: nat)
    requires Canonical(env.chain) && IsRun(env, path) && i <= j < |path| && path[i].cursor.Some?
    ensures path[j].cursor.Some? && path[i].cursor.value.lastBlock <= path[j].cursor.value.lastBlock
    decreases j - i
  {
    if i < j {
      CursorNeverMovesBack(env, path, i, j - 1);
      CursorNeverMovesBackOnce(env, path, j);
    }
  }

  lemma CursorNeverMovesBackOnce(env: Env, path: seq<Node>, j: nat)
    requires Canonical(env.chain) && IsRun(env, path) && 0 < j < |path| && path[j - 1].cursor.Some?
    ensures path[j].cursor.Some? && path[j - 1].cursor.value.lastBlock <= path[j].cursor.value.lastBlock
  {
    RunKeepsInv(env, path, j - 1);
    assert Linked(env, path, j);
    FollowingKeepsCursor(env, path[j - 1], path[j]);
  }

  lemma FollowingKeepsCursor(env: Env, n: Node, n': Node)
    requires Inv(env, n) && Follows(env, n, n') && n.cursor.Some?
    ensures n'.cursor.Some? && n.cursor.value.lastBlock <= n'.cursor.value.lastBlock
  {
    var step :| Enabled(env, n, step) && n' == Effect(env, n, step);
    StepKeepsCursor(env, n, step);
  }

  lemma FollowingKeepsInv(env: Env, n: Node, n': Node)
    requires Canonical(env.chain) && Inv(env, n) && Follows(env, n, n')
    ensures Inv(env, n')
  {
    var step :| Enabled(env, n, step) && n' == Effect(env, n, step);
    StepKeepsInv(env, n, step);
  }

  // ----- Replays are harmless to an indexer that ignores what it has seen

  function Fold<S>(f: (S, Log) -> S, init: S, logs: seq<Log>): S {
    if logs == [] then init else f(Fold(f, init, logs[..|logs| - 1]), logs[|logs| - 1])
  }

  /** The state of an indexer that folds each delivered log unless it was delivered before. */
  function Indexed<S>(f: (S, Log) -> S, init: S, deliveries: seq<Log>): S {
    if deliveries == [] then init
    else
      var before, x := deliveries[..|deliveries| - 1], deliveries[|deliveries| - 1];
      if x in before then Indexed(f, init, before) else f(Indexed(f, init, before), x)
  }

  lemma {:induction false} IndexedIsFoldOfSeen<S>(f: (S, Log) -> S, init: S, deliveries: seq<Log>)
    ensures Indexed(f, init, deliveries) == Fold(f, init, Seen(deliveries))
  {
    if deliveries != [] {
      var before, x := deliveries[..|deliveries| - 1], deliveries[|deliveries| - 1];
      IndexedIsFoldOfSeen(f, init, before);
      SeenSameLogs(before);
      if x !in before {
        var all := Seen(before) + [x];
        assert all[..|all| - 1] == Seen(before);
      }
    }
  }

  /** At every point of every run the indexer holds the fold of a canonical prefix that reaches at least the cursor. */
  lemma IndexerHoldsAPrefixFold<S>(env: Env, path: seq<Node>, i: nat, f: (S, Log) -> S, init: S)
    requires Canonical(env.chain) && IsRun(env, path) && i < |path|
    ensures var n := path[i];
            && Frontier(env, n.applied) <= |env.chain|
            && Indexed(f, init, n.applied) == Fold(f, init, env.chain[Base(env)..Frontier(env, n.applied)])
            && (n.cursor.Some? ==> CountBelow(env.chain, n.cursor.value.lastBlock + 1) <= Frontier(env, n.applied))
  {
    RunKeepsInv(env, path, i);
    IndexedIsFoldOfSeen(f, init, path[i].applied);
  }

  // ----- Applying and moving the cursor are two commits

  /** The first block that the cursor does not cover. */
  function Uncovered(env: Env, cursor: Option<Cursor>): nat {
    Max(if cursor.Some? then cursor.value.lastBlock + 1 else env.startBlock, env.startBlock)
  }

  /** The indexer has seen exactly the logs the cursor covers, as if both were committed at once. */
  ghost predicate InStep(env: Env, n: Node) {
    Frontier(env, n.applied) == CountBelow(env.chain, Uncovered(env, n.cursor))
  }

  /** In step, up to the logs of a page being applied. */
  ghost predicate Tight(env: Env, n: Node) {
    && (!n.phase.Idle? ==> n.phase.from == Resume(env, n.cursor))
    && if n.phase.Applying?
       then Frontier(env, n.applied)
            == Max(CountBelow(env.chain, Uncovered(env, n.cursor)), CountBelow(env.chain, n.phase.from) + n.phase.done)
       else InStep(env, n)
  }

  /** A page was abandoned after some of its logs had been applied. */
  predicate Interrupted(n: Node, n': Node) {
    n.phase.Applying? && n.phase.done > 0 && n'.phase.Idle?
  }

  lemma ApplyOneKeepsTight(env: Env, n: Node)
    requires Canonical(env.chain) && Inv(env, n) && Enabled(env, n, ApplyOne) && Tight(env, n)
    ensures Tight(env, Effect(env, n, ApplyOne))
  {
    NextLogIsAtMostTheFrontier(env, n);
    ApplyKeepsPrefix(env, n.applied, CountBelow(env.chain, n.phase.from) + n.phase.done);
  }

  lemma CommitKeepsTight(env: Env, n: Node)
    requires Canonical(env.chain) && Inv(env, n) && Enabled(env, n, CommitCursor) && Tight(env, n)
    ensures Tight(env, Effect(env, n, CommitCursor))
  {
    var p, covered := n.phase, Uncovered(env, n.cursor);
    CountBelowMonotone(env.chain, p.from, p.to + 1);
    CountBelowMonotone(env.chain, covered, p.to + 1);
  }

  lemma StepKeepsTight(env: Env, n: Node, step: Step)
    requires Canonical(env.chain) && Inv(env, n) && Enabled(env, n, step) && Tight(env, n)
    requires !Interrupted(n, Effect(env, n, step))
    ensures Tight(env, Effect(env, n, step))
  {
    CountBelowMonotone(env.chain, Resume(env, n.cursor), Uncovered(env, n.cursor));
    match step {
      case ApplyOne => ApplyOneKeepsTight(env, n);
      case CommitCursor => CommitKeepsTight(env, n);
      case _ =>
    }
  }

  lemma FollowingKeepsTight(env: Env, n: Node, n': Node)
    requires Canonical(env.chain) && Inv(env, n) && Follows(env, n, n') && Tight(env, n) && !Interrupted(n, n')
    ensures Tight(env, n')
  {
    var step :| Enabled(env, n, step) && n' == Effect(env, n, step);
    StepKeepsTight(env, n, step);
  }

  /**
   As long as no page is abandoned half applied, indexer and cursor stay in step
   outside the application of a page.
   */
  lemma {:induction false} UninterruptedRunsStayInStep(env: Env, path: seq<Node>, i: nat)
    requires Canonical(env.chain) && IsRun(env, path) && i < |path|
    requires forall j :: 0 < j <= i ==> !Interrupted(path[j - 1], path[j])
    ensures Tight(env, path[i])
    ensures !path[i].phase.Applying? ==> InStep(env, path[i])
  {
    if i > 0 {
      UninterruptedRunsStayInStep(env, path, i - 1);
      RunKeepsInv(env, path, i - 1);
      assert Linked(env, path, i);
      FollowingKeepsTight(env, path[i - 1], path[i]);
    }
  }

  /**
   Abandoning a page, by an error or a crash, leaves indexer and cursor in step
   exactly when none of its logs had been applied yet, or all were replays below a
   cursor that has reached the last block there is.
   */
  lemma AbandonedPageStaysInStepIff(env: Env, n: Node, step: Step)
    requires Canonical(env.chain) && Inv(env, n) && Enabled(env, n, step) && Tight(env, n)
    requires n.phase.Applying? && (step.ApplyError? || step.Crash?)
    ensures InStep(env, Effect(env, n, step))
            <==> n.phase.done == 0 || (n.cursor.Some? && n.cursor.value.lastBlock == U64_MAX)
  {
    var covered := Uncovered(env, n.cursor);
    CountBelowMonotone(env.chain, n.phase.from, covered);
    if n.cursor.Some? && n.cursor.value.lastBlock == U64_MAX {
      CountBelowMonotone(env.chain, n.phase.to + 1, covered);
      CountBelowMonotone(env.chain, n.phase.from, n.phase.to + 1);
    }
  }

  // ----- Replay heals: once caught up, indexer and cursor are in step again

  /** No log beyond the highest reported head has been seen. */
  ghost predicate WithinHeads(env: Env, n: Node) {
    Frontier(env, n.applied) <= CountBelow(env.chain, Max(n.topHead + 1, env.startBlock))
  }

  lemma ApplyStaysWithinHeads(env: Env, n: Node)
    requires Canonical(env.chain) && Inv(env, n) && Enabled(env, n, ApplyOne) && WithinHeads(env, n)
    ensures WithinHeads(env, Effect(env, n, ApplyOne))
  {
    var p := n.phase;
    NextLogIsAtMostTheFrontier(env, n);
    ApplyKeepsPrefix(env, n.applied, CountBelow(env.chain, p.from) + p.done);
    CountBelowMonotone(env.chain, p.from, p.to + 1);
    CountBelowMonotone(env.chain, p.to + 1, Max(n.topHead + 1, env.startBlock));
  }

  lemma FollowingStaysWithinHeads(env: Env, n: Node, n': Node)
    requires Canonical(env.chain) && Inv(env, n) && Follows(env, n, n') && WithinHeads(env, n) && -1 <= n.topHead
    ensures WithinHeads(env, n') && n.topHead <= n'.topHead
  {
    var step :| Enabled(env, n, step) && n' == Effect(env, n, step);
    if step.ApplyOne? {
      ApplyStaysWithinHeads(env, n);
    } else {
      CountBelowMonotone(env.chain, Max(n.topHead + 1, env.startBlock), Max(n'.topHead + 1, env.startBlock));
    }
  }

  lemma {:induction false} RunStaysWithinHeads(env: Env, path: seq<Node>, i: nat)
    requires Canonical(env.chain) && IsRun(env, path) && i < |path|
    ensures WithinHeads(env, path[i]) && -1 <= path[i].topHead
  {
    if i == 0 {
      assert Frontier(env, path[0].applied) == Base(env);
    } else {
      RunStaysWithinHeads(env, path, i - 1);
      RunKeepsInv(env, path, i - 1);
      assert Linked(env, path, i);
      FollowingStaysWithinHeads(env, path[i - 1], path[i]);
    }
  }

  /**
   In every run, whatever was abandoned before: a cursor that has reached the
   highest reported head covers exactly the logs the indexer has seen.
   */
  lemma CaughtUpIsInStep(env: Env, path: seq<Node>, i: nat)
    requires Canonical(env.chain) && IsRun(env, path) && i < |path|
    requires path[i].cursor.Some? && path[i].cursor.value.lastBlock == path[i].topHead
    ensures InStep(env, path[i])
  {
    RunKeepsInv(env, path, i);
    RunStaysWithinHeads(env, path, i);
    if path[i].topHead + 1 < env.startBlock {
      CountBelowMonotone(env.chain, path[i].topHead + 1, env.startBlock);
    }
  }

  // ----- Where they part

  /** A first sync over a single log, with a crash between its `apply` and the cursor commit. */
  function CrashedFirstSync(x: Log, head: FinalizedHead): seq<Node> {
    [ Node(None, [], 1, -1, Idle),
      Node(None, [], 1, head.number, Paging(x.block, head)),
      Node(None, [], 1, head.number, Requesting(x.block, x.block, head)),
      Node(None, [], 1, head.number, Applying(x.block, x.block, head, [x], 0)),
      Node(None, [x], 1, head.number, Applying(x.block, x.block, head, [x], 1)),
      Node(None, [x], 1, head.number, Idle) ]
  }

  lemma Link(env: Env, path: seq<Node>, i: nat, step: Step)
    requires 0 < i < |path| && Enabled(env, path[i - 1], step) && path[i] == Effect(env, path[i - 1], step)
    ensures Linked(env, path, i)
  {
  }

  lemma SingleLog(x: Log)
    ensures CountBelow([x], x.block) == 0 && Range([x], x.block, x.block) == [x]
  {
    assert CountFrom([x], x.block + 1, 1) == 1;
  }

  lemma FirstPageArrives(x: Log, head: FinalizedHead)
    requires x.block <= head.number
    ensures var env, path := Env([x], x.block), CrashedFirstSync(x, head);
            Linked(env, path, 1) && Linked(env, path, 2) && Linked(env, path, 3)
  {
    var env, path := Env([x], x.block), CrashedFirstSync(x, head);
    SingleLog(x);
    Link(env, path, 1, SyncStart(head));
    Link(env, path, 2, NextPage);
    Link(env, path, 3, Reply([x]));
  }

  lemma CrashedFirstSyncIsARun(x: Log, head: FinalizedHead)
    requires x.block <= head.number
    ensures IsRun(Env([x], x.block), CrashedFirstSync(x, head))
  {
    var env, path := Env([x], x.block), CrashedFirstSync(x, head);
    FirstPageArrives(x, head);
    Link(env, path, 4, ApplyOne);
    Link(env, path, 5, Crash(1));
  }

  /** The log is applied, the cursor does not know it, and the two are out of step. */
  lemma CrashLeavesALogAboveTheCursor(x: Log, head: FinalizedHead)
    requires x.block <= head.number
    ensures var env, path := Env([x], x.block), CrashedFirstSync(x, head);
            && IsRun(env, path)
            && path[5].applied == [x] && path[5].cursor.None?
            && !InStep(env, path[5])
  {
    CrashedFirstSyncIsARun(x, head);
    SingleLog(x);
    SeenAppend([], x);
    assert [] + [x] == [x];
  }

  // ----- A head at the top of `u64`

  /**
   Committing the page that reaches the head lets the sync end exactly when the
   head is below the top of `u64`; at the top the same last block is up next again.
   */
  lemma SyncEndsAtTheHeadIff(env: Env, n: Node)
    requires Inv(env, n) && Enabled(env, n, CommitCursor) && n.phase.to == n.phase.head.number
    ensures var head, n' := n.phase.head, Effect(env, n, CommitCursor);
            && (Enabled(env, n', SyncDone) <==> head.number < U64_MAX)
            && (head.number == U64_MAX ==>
                  && Enabled(env, n', NextPage)
                  && Effect(env, n', NextPage).phase == Requesting(U64_MAX, U64_MAX, head))
  {
  }

  predicate Fails(step: Step) {
    step.ReadError? || step.ApplyError? || step.Crash?
  }

  /** `n'` follows `n` by a step that is neither an error nor a crash. */
  ghost predicate FollowsSmoothly(env: Env, n: Node, n': Node) {
    exists step :: !Fails(step) && Enabled(env, n, step) && n' == Effect(env, n, step)
  }

  ghost predicate Smooth(env: Env, path: seq<Node>, i: nat)
    requires 0 < i < |path|
  {
    FollowsSmoothly(env, path[i - 1], path[i])
  }

  /** With the head at the top of `u64`, a sync that meets no error never ends, however long it goes on. */
  lemma {:induction false} TopHeadNeverEnds(env: Env, path: seq<Node>, i: nat)
    requires i < |path| && !path[0].phase.Idle? && path[0].phase.head.number == U64_MAX
    requires forall j :: 0 < j < |path| ==> Smooth(env, path, j)
    ensures !path[i].phase.Idle? && path[i].phase.head == path[0].phase.head && !Enabled(env, path[i], SyncDone)
  {
    if i > 0 {
      TopHeadNeverEnds(env, path, i - 1);
      assert Smooth(env, path, i);
      var step :| !Fails(step) && Enabled(env, path[i - 1], step) && path[i] == Effect(env, path[i - 1], step);
    }
  }
}
