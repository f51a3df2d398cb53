/** The engine's own loops, each of whose steps is a step of the machine in `ChainIndex`. */
module EventEngine {
  import opened Words
  import opened ChainLogs
  import opened ChainIndex
  import opened Options
  import opened Seqs

  /** What a log query comes back with: logs in some order, a range/limit rejection, or any other failure. */
  datatype Answer = Logs(order: seq<Log>) | TooWide | Broken

  /** The provider's answer to its `n`-th query, for blocks `from..=to`. */
  type Reader = (nat, u64, u64) -> Answer

  /** Whether the indexer's `n`-th `apply` succeeds. */
  type Folder = (nat, Log) -> bool

  /** Answered queries return the canonical logs of the range, in any order. */
  ghost predicate Honest(chain: seq<Log>, reader: Reader) {
    forall n: nat, from: u64, to: u64 :: reader(n, from, to).Logs? ==>
      multiset(reader(n, from, to).order) == multiset(Range(chain, from, to))
  }

  /** The provider may reject any multi-block range as too wide, but answers every single block. */
  ghost predicate Tolerant(reader: Reader) {
    forall n: nat, from: u64, to: u64 ::
      !reader(n, from, to).Broken? && (reader(n, from, to).TooWide? ==> from < to)
  }

  ghost predicate NeverFails(folder: Folder) {
    forall n: nat, log: Log :: folder(n, log)
  }

  /** The provider's `n`-th query fails for good: an error, or a single block rejected as too wide. */
  ghost predicate ReadFails(reader: Reader, n: nat) {
    exists from: u64, to: u64 ::
      from <= to && (reader(n, from, to).Broken? || (reader(n, from, to).TooWide? && from == to))
  }

  ghost predicate ApplyFails(folder: Folder, n: nat) {
    exists log :: !folder(n, log)
  }

  datatype Page = Page(from: u64, to: u64)

  /** Non-empty pages that abut and cover the blocks `from..next` exactly. */
  ghost predicate Tiles(pages: seq<Page>, from: nat, next: nat) {
    if pages == [] then from == next
    else
      var last := pages[|pages| - 1];
      last.from <= last.to && last.to + 1 == next && Tiles(pages[..|pages| - 1], from, last.from)
  }

  lemma TilesAppend(pages: seq<Page>, from: nat, page: Page)
    requires Tiles(pages, from, page.from) && page.from <= page.to
    ensures Tiles(pages + [page], from, page.to + 1)
  {
    assert (pages + [page])[..|pages|] == pages;
  }

  lemma {:induction false} TilesOrdered(pages: seq<Page>, from: nat, next: nat)
    requires Tiles(pages, from, next)
    ensures from <= next
    ensures forall i :: 0 <= i < |pages| ==> from <= pages[i].from <= pages[i].to < next
  {
    if pages != [] {
      var last := pages[|pages| - 1];
      TilesOrdered(pages[..|pages| - 1], from, last.from);
      forall i | 0 <= i < |pages| ensures from <= pages[i].from <= pages[i].to < next {
        assert i < |pages| - 1 ==> pages[i] == pages[..|pages| - 1][i];
      }
    }
  }

  /**
   Tiling means coverage without overlap: every block of the stretch is in exactly
   one page, and no other block is.
   */
  lemma {:induction false} TilesCoverOnce(pages: seq<Page>, from: nat, next: nat, block: nat)
    requires Tiles(pages, from, next)
    ensures from <= block < next <==> exists i :: 0 <= i < |pages| && pages[i].from <= block <= pages[i].to
    ensures forall i, j :: 0 <= i < j < |pages| ==> pages[i].to < pages[j].from
  {
    TilesOrdered(pages, from, next);
    if pages != [] {
      var front, last := pages[..|pages| - 1], pages[|pages| - 1];
      TilesCoverOnce(front, from, last.from, block);
      TilesOrdered(front, from, last.from);
      forall i, j | 0 <= i < j < |pages| ensures pages[i].to < pages[j].from {
        assert pages[i] == front[i];
        if j < |front| {
          assert pages[j] == front[j];
        }
      }
      if from <= block < last.from {
        var i :| 0 <= i < |front| && front[i].from <= block <= front[i].to;
        assert pages[i] == front[i];
      } else if from <= block < next {
        assert pages[|pages| - 1] == last;
      }
    }
  }

  lemma PrefixWidens<T>(before: seq<T>, a: seq<T>, b: seq<T>, now: seq<T>)
    ensures now <= before + a ==> now <= before + (a + b)
  {
    Assoc(before, a, b);
  }

  lemma PageWidens(chain: seq<Log>, from: nat, to: nat, head: nat, before: seq<Log>, now: seq<Log>)
    requires Canonical(chain) && from <= to <= head
    ensures now <= before + Range(chain, from, to) ==> now <= before + Range(chain, from, head)
  {
    StretchesAbut(chain, from, to + 1, head + 1);
    PrefixWidens(before, Range(chain, from, to), Between(chain, to + 1, head + 1), now);
  }

  lemma WholeStretch(chain: seq<Log>, resume: nat, from: nat, head: nat, before: seq<Log>, now: seq<Log>)
    requires Canonical(chain) && resume <= from <= head
    requires before + Between(chain, resume, from) <= now
    requires now <= (before + Between(chain, resume, from)) + Range(chain, from, head)
    ensures before <= now <= before + Range(chain, resume, head)
  {
    StretchesAbut(chain, resume, from, head + 1);
    Assoc(before, Between(chain, resume, from), Range(chain, from, head));
  }

  lemma NothingBeyond(chain: seq<Log>, resume: nat, head: nat)
    requires Canonical(chain) && head < resume
    ensures Range(chain, resume, head) == [] && Between(chain, resume, resume) == []
  {
    CountBelowMonotone(chain, head + 1, resume);
  }

  // ----- How often a page can shrink

  function Log2(w: nat): nat {
    if w <= 1 then 0 else 1 + Log2(w / 2)
  }

  function Pow2(n: nat): nat {
    if n == 0 then 1 else 2 * Pow2(n - 1)
  }

  lemma {:induction false} Log2IsFloor(w: nat)
    requires w >= 1
    ensures Pow2(Log2(w)) <= w < Pow2(Log2(w) + 1)
  {
    if w > 1 {
      Log2IsFloor(w / 2);
    }
  }

  /** A page asks for `pageSize` blocks, or for what is left up to the head. */
  lemma PageEndSpan(from: u64, head: u64, pageSize: u64)
    requires from <= head && 1 <= pageSize
    ensures PageEnd(from, head, pageSize) - from + 1 == Min(pageSize, head - from + 1)
  {
  }

  /** A rejected multi-block page is retried at half its width, rounded down, from the same block. */
  lemma ShrinkHalves(from: u64, to: u64)
    requires from < to
    ensures from <= ShrinkTo(from, to) < to
    ensures ShrinkTo(from, to) - from + 1 == (to - from + 1) / 2
    ensures Log2(to - from + 1) == 1 + Log2(ShrinkTo(from, to) - from + 1)
  {
  }

  /** The page size after `r` range errors. */
  function PageSizeAfter(pageSize: u64, r: nat): u64 {
    if r == 0 then pageSize else ShrinkPage(PageSizeAfter(pageSize, r - 1))
  }

  /** The width of a page after `r` range errors. */
  function WidthAfter(w: nat, r: nat): nat {
    if r == 0 then w else WidthAfter(w, r - 1) / 2
  }

  /** Each range error halves the page size, rounding up, and never below one. */
  lemma PageSizeHalves(pageSize: u64)
    requires 1 <= pageSize
    ensures 1 <= ShrinkPage(pageSize) <= pageSize <= 2 * ShrinkPage(pageSize) <= pageSize + 1
  {
  }

  class Engine {
    ghost const chain: seq<Log>
    const startBlock: u64
    var cursor: Option<Cursor>
    var applied: seq<Log>
    var pageSize: u64
    var queries: nat
    var applies: nat
    /** The run of the machine that the engine has gone through. */
    ghost var path: seq<Node>

    ghost function TheEnv(): Env {
      Env(chain, startBlock)
    }

    ghost predicate Tracking()
      reads this
    {
      Canonical(chain) && IsRun(TheEnv(), path)
    }

    ghost function Now(): Node
      requires |path| > 0
      reads this
    {
      path[|path| - 1]
    }

    ghost predicate Valid()
      reads this
    {
      && Tracking()
      && Now().cursor == cursor
      && Now().applied == applied
      && Now().pageSize == pageSize
      && 1 <= pageSize
    }

    constructor (ghost chain: seq<Log>, startBlock: u64, pageSize: u64)
      requires Canonical(chain)
      ensures Valid() && Now().phase == Idle
      ensures this.chain == chain && this.startBlock == startBlock
      ensures cursor == None && applied == [] && this.pageSize == Max(pageSize, 1)
    {
      this.chain := chain;
      this.startBlock := startBlock;
      this.cursor := None;
      this.applied := [];
      this.pageSize := Max(pageSize, 1);
      this.queries := 0;
      this.applies := 0;
      this.path := [Node(None, [], Max(pageSize, 1), -1, Idle)];
    }

    /** Everything the machine promises holds of the engine: see `SeenIsAlwaysACanonicalPrefix`. */
    lemma EngineKeepsInv()
      requires Tracking()
      ensures Inv(TheEnv(), Now())
    {
      RunKeepsInv(TheEnv(), path, |path| - 1);
    }

    ghost method Take(step: Step)
      requires Tracking() && Enabled(TheEnv(), Now(), step)
      modifies this`path
      ensures Tracking() && Now() == Effect(TheEnv(), old(Now()), step)
    {
      var next := Effect(TheEnv(), Now(), step);
      var env, longer := TheEnv(), path + [next];
      forall i | 0 < i < |longer| ensures Linked(env, longer, i) {
        if i < |path| {
          assert Linked(env, path, i);
        }
      }
      path := longer;
    }

    /** A new process over the same stores, after a crash or an error at any point. */
    method Restart(newPageSize: u64)
      requires Tracking() && Now().cursor == cursor && Now().applied == applied
      modifies `pageSize, `path
      ensures Valid() && Now().phase == Idle && pageSize == Max(newPageSize, 1)
    {
      Take(Crash(Max(newPageSize, 1)));
      pageSize := Max(newPageSize, 1);
    }

    /** Queries a page, halving it for as long as the provider finds it too wide. */
    method FetchPage(reader: Reader, from: u64, requestedTo: u64) returns (to: u64, logs: Option<seq<Log>>)
      requires Valid() && Honest(chain, reader)
      requires Now().phase.Requesting? && Now().phase.from == from && Now().phase.to == requestedTo
      requires from <= requestedTo
      modifies `pageSize, `queries, `path
      ensures Valid() && pageSize <= old(pageSize)
      ensures from <= to <= requestedTo
      ensures queries - old(queries) <= Log2(requestedTo - from + 1) + 1
      ensures var retries := queries - old(queries) - 1;
              && 0 <= retries
              && pageSize == PageSizeAfter(old(pageSize), retries)
              && to - from + 1 == WidthAfter(requestedTo - from + 1, retries)
      ensures logs.Some? ==> Now().phase == Requesting(from, to, old(Now().phase.head))
      ensures logs.Some? ==> multiset(logs.value) == multiset(Range(chain, from, to))
      ensures logs.None? ==> Now().phase == Idle && queries > 0 && ReadFails(reader, queries - 1)
      ensures Tolerant(reader) ==> logs.Some?
    {
      to := requestedTo;
      while true
        invariant Valid() && pageSize <= old(pageSize)
        invariant from <= to <= requestedTo
        invariant Now().phase == Requesting(from, to, old(Now().phase.head))
        invariant queries - old(queries) + Log2(to - from + 1) <= Log2(requestedTo - from + 1)
        invariant queries >= old(queries)
        invariant pageSize == PageSizeAfter(old(pageSize), queries - old(queries))
        invariant to - from + 1 == WidthAfter(requestedTo - from + 1, queries - old(queries))
        decreases (to - from)
      {
        var answer := reader(queries, from, to);
        queries := queries + 1;
        match answer {
          case Logs(order) =>
            return to, Some(order);
          case TooWide =>
            if to > from {
              to := ShrinkRequest(from, to);
            } else {
              Take(ReadError);
              return to, None;
            }
          case Broken =>
            Take(ReadError);
            return to, None;
        }
      }
    }

    /** Halves a rejected request and the page size. */
    method ShrinkRequest(from: u64, to: u64) returns (narrower: u64)
      requires Valid() && from < to
      requires Now().phase.Requesting? && Now().phase.from == from && Now().phase.to == to
      modifies `pageSize, `path
      ensures Valid() && pageSize == ShrinkPage(old(pageSize)) <= old(pageSize)
      ensures narrower == ShrinkTo(from, to) && from <= narrower < to
      ensures narrower - from + 1 == (to - from + 1) / 2
      ensures Log2(to - from + 1) == 1 + Log2(narrower - from + 1)
      ensures Now().phase == Requesting(from, narrower, old(Now().phase.head))
    {
      ShrinkHalves(from, to);
      Take(RangeError);
      narrower := ShrinkTo(from, to);
      pageSize := ShrinkPage(pageSize);
    }

    /** Applies a page in canonical order and only then moves the cursor. */
    method CommitPage(folder: Folder, order: seq<Log>, to: u64, head: FinalizedHead) returns (ok: bool)
      requires Valid() && Now().phase.Requesting? && Now().phase.to == to && Now().phase.head == head
      requires multiset(order) == multiset(Range(chain, Now().phase.from, to))
      modifies `cursor, `applied, `applies, `path
      ensures Valid()
      ensures var page := Range(chain, old(Now().phase.from), to);
              && (ok ==> applied == old(applied) + page)
              && (!ok ==> old(applied) <= applied <= old(applied) + page)
      ensures ok ==> cursor == Some(Cursor(to, CheckpointHash(to, head))) && Now().phase == Paging(SatAdd(to, 1), head)
      ensures !ok ==> cursor == old(cursor) && Now().phase == Idle && applies > 0 && ApplyFails(folder, applies - 1)
      ensures NeverFails(folder) ==> ok
    {
      ghost var from := Now().phase.from;
      var page := Sort(order);
      SortedPage(chain, from, to, page);
      Take(Reply(page));
      ok := ApplyPage(folder, page);
      if ok {
        Take(CommitCursor);
        cursor := Some(Cursor(to, if to == head.number then head.hash else ZERO_HASH));
      }
    }

    /** Hands the logs of a page to the indexer one by one, stopping at the first error. */
    method ApplyPage(folder: Folder, ordered: seq<Log>) returns (ok: bool)
      requires Valid() && Now().phase.Applying? && Now().phase.page == ordered && Now().phase.done == 0
      modifies `applied, `applies, `path
      ensures Valid()
      ensures ok ==> applied == old(applied) + ordered && Now().phase == old(Now().phase).(done := |ordered|)
      ensures !ok ==> old(applied) <= applied <= old(applied) + ordered && Now().phase == Idle
      ensures !ok ==> applies > 0 && ApplyFails(folder, applies - 1)
      ensures NeverFails(folder) ==> ok
    {
      ghost var before, start := applied, Now().phase;
      for i := 0 to |ordered|
        invariant Valid()
        invariant applied == before + ordered[..i]
        invariant Now().phase == start.(done := i)
      {
        applies := applies + 1;
        if !folder(applies - 1, ordered[i]) {
          Take(ApplyError);
          return false;
        }
        Take(ApplyOne);
        applied := applied + [ordered[i]];
        assert before + ordered[..i + 1] == before + ordered[..i] + [ordered[i]];
      }
      assert ordered[..|ordered|] == ordered;
      return true;
    }

    /** Picks the end of the next page and fetches it. */
    method RequestPage(reader: Reader, head: FinalizedHead, from: u64) returns (to: u64, logs: Option<seq<Log>>)
      requires Valid() && Honest(chain, reader)
      requires Now().phase == Paging(from, head) && from <= head.number
      modifies `pageSize, `queries, `path
      ensures Valid() && pageSize <= old(pageSize)
      ensures from <= to <= PageEnd(from, head.number, old(pageSize))
      ensures logs.Some? ==> Now().phase == Requesting(from, to, head)
      ensures logs.Some? ==> multiset(logs.value) == multiset(Range(chain, from, to))
      ensures logs.None? ==> Now().phase == Idle && queries > 0 && ReadFails(reader, queries - 1)
      ensures Tolerant(reader) ==> logs.Some?
    {
      var requestedTo: u64 := Min(SatAdd(from, SatSub(pageSize, 1)), head.number);
      Take(NextPage);
      to, logs := FetchPage(reader, from, requestedTo);
    }

    /** One turn of the paging loop: request, fetch, apply, commit. */
    method SyncPage(reader: Reader, folder: Folder, head: FinalizedHead, from: u64) returns (ok: bool, next: u64)
      requires Valid() && Honest(chain, reader)
      requires Now().phase == Paging(from, head) && from <= head.number < U64_MAX
      modifies this
      ensures Valid() && pageSize <= old(pageSize)
      ensures ok ==> from < next <= head.number + 1 && Now().phase == Paging(next, head)
      ensures ok ==> applied == old(applied) + Between(chain, from, next)
      ensures ok ==> cursor == Some(Cursor(next - 1, CheckpointHash(next - 1, head)))
      ensures !ok ==> cursor == old(cursor) && Now().phase == Idle
      ensures !ok ==> old(applied) <= applied <= old(applied) + Range(chain, from, head.number)
      ensures !ok ==> Faulted(reader, folder)
      ensures Tolerant(reader) && NeverFails(folder) ==> ok
    {
      ok, next := false, from;
      var to, logs := RequestPage(reader, head, from);
      if logs.Some? {
        ok := CommitPage(folder, logs.value, to, head);
        next := SatAdd(to, 1);
        PageWidens(chain, from, to, head.number, old(applied), applied);
      }
    }

    /** The paging loop, from block `resume` on. */
    method SyncPages(reader: Reader, folder: Folder, head: FinalizedHead, resume: u64)
      returns (ok: bool, ghost pages: seq<Page>)
      requires Valid() && Honest(chain, reader)
      requires Now().phase == Paging(resume, head) && head.number < U64_MAX
      modifies this
      ensures Valid() && Now().phase == Idle && pageSize <= old(pageSize)
      ensures Synced(ok, pages, resume, head, old(cursor), old(applied))
      ensures !ok ==> Faulted(reader, folder)
      ensures Tolerant(reader) && NeverFails(folder) ==> ok
    {
      var from: u64 := resume;
      ghost var before := applied;
      pages := [];
      assert Between(chain, resume, resume) == [];
      while from <= head.number
        invariant Valid() && pageSize <= old(pageSize)
        invariant Now().phase == Paging(from, head)
        invariant resume <= from && (from <= head.number + 1 || from == resume)
        invariant Tiles(pages, resume, from)
        invariant applied == before + Between(chain, resume, from)
        invariant Committed(pages, resume, old(cursor), before)
        invariant pages != [] ==> && from <= head.number + 1
                                  && cursor == Some(Cursor(from - 1, CheckpointHash(from - 1, head)))
        decreases head.number + 1 - from
      {
        var synced, next := SyncPage(reader, folder, head, from);
        if !synced {
          WholeStretch(chain, resume, from, head.number, before, applied);
          return false, pages;
        }
        StretchesAbut(chain, resume, from, next);
        Assoc(before, Between(chain, resume, from), Between(chain, from, next));
        TilesAppend(pages, resume, Page(from, next - 1));
        pages := pages + [Page(from, next - 1)];
        from := next;
      }
      Take(SyncDone);
      ok := true;
      if head.number < resume {
        NothingBeyond(chain, resume, head.number);
      }
    }

    /**
     Indexes every page from the cursor (or the start block) up to `head`. On
     success the committed pages tile the whole stretch and its logs were applied
     once each, in order. A failure leaves a prefix applied and the cursor at the
     last committed page. At the top of `u64` the loop would never end: see
     `TopHeadNeverEnds`.
     */
    method SyncTo(reader: Reader, folder: Folder, head: FinalizedHead) returns (ok: bool, ghost pages: seq<Page>)
      requires Valid() && Now().phase == Idle && Honest(chain, reader)
      requires head.number < U64_MAX
      modifies this
      ensures Valid() && Now().phase == Idle && pageSize <= old(pageSize)
      ensures Synced(ok, pages, Resume(TheEnv(), old(cursor)), head, old(cursor), old(applied))
      ensures !ok ==> Faulted(reader, folder)
      ensures Tolerant(reader) && NeverFails(folder) ==> ok
    {
      var start := if cursor.Some? then cursor.value.NextBlock() else startBlock;
      var resume: u64 := Max(start, startBlock);
      Take(SyncStart(head));
      ok, pages := SyncPages(reader, folder, head, resume);
    }

    /**
     The outcome of a sync from `resume` to `head`: on success every log of the
     stretch has been applied and the pages tile it up to the head; on failure
     some prefix of those logs has been applied. Either way the cursor is at the
     end of the last committed page.
     */
    ghost predicate Synced(ok: bool, pages: seq<Page>, resume: nat, head: FinalizedHead,
                           cursorBefore: Option<Cursor>, appliedBefore: seq<Log>)
      reads this
    {
      var all := Range(chain, resume, head.number);
      && (ok ==> applied == appliedBefore + all)
      && (!ok ==> appliedBefore <= applied <= appliedBefore + all)
      && (ok && resume <= head.number ==>
            Tiles(pages, resume, head.number + 1) && cursor == Some(Cursor(head.number, head.hash)))
      && Committed(pages, resume, cursorBefore, appliedBefore)
    }

    /** The cursor stands at the end of the last of `pages`, which tile from `resume` on and are fully applied. */
    ghost predicate Committed(pages: seq<Page>, resume: nat, cursorBefore: Option<Cursor>, appliedBefore: seq<Log>)
      reads this
    {
      if pages == [] then cursor == cursorBefore
      else
        var last := pages[|pages| - 1];
        && Tiles(pages, resume, last.to + 1)
        && cursor.Some? && cursor.value.lastBlock == last.to
        && appliedBefore + Range(chain, resume, last.to) <= applied
    }

    /** The last query or the last `apply` made so far failed. */
    ghost predicate Faulted(reader: Reader, folder: Folder)
      reads this
    {
      (queries > 0 && ReadFails(reader, queries - 1)) || (applies > 0 && ApplyFails(folder, applies - 1))
    }

    /** Syncs to the finalized head when there is one; without one nothing is touched. */
    method SyncOnce(reader: Reader, folder: Folder, head: Option<FinalizedHead>) returns (ok: bool)
      requires Valid() && Now().phase == Idle && Honest(chain, reader)
      requires head.Some? ==> head.value.number < U64_MAX
      modifies this
      ensures Valid() && Now().phase == Idle
      ensures head.None? ==> ok && applied == old(applied) && cursor == old(cursor)
      ensures head.Some? ==>
                exists pages :: Synced(ok, pages, Resume(TheEnv(), old(cursor)), head.value, old(cursor), old(applied))
      ensures !ok ==> Faulted(reader, folder)
      ensures Tolerant(reader) && NeverFails(folder) ==> ok
    {
      match head {
        case Some(h) =>
          ghost var pages;
          ok, pages := SyncTo(reader, folder, h);
        case None => ok := true;
      }
    }
  }
}
