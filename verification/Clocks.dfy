/** Calls together with the clock readings they made. */
module Clocks {
  import opened Words

  datatype Timed<C> = At(now: u64, call: C)

  /** The clock readings start at `start` or later and never go back. */
  ghost predicate Clocked<C>(start: nat, es: seq<Timed<C>>)
    decreases |es|
  {
    es == [] || (start <= es[0].now && Clocked(es[0].now, es[1..]))
  }

  /** The clock after a run that started at `start`. */
  function ClockAfter<C>(start: nat, es: seq<Timed<C>>): nat {
    if es == [] then start else es[|es| - 1].now
  }

  lemma ClockedSooner<C>(start: nat, later: nat, es: seq<Timed<C>>)
    requires start <= later && Clocked(later, es)
    ensures Clocked(start, es)
  {
  }

  lemma {:induction false} ClockGoesOn<C>(start: nat, es: seq<Timed<C>>)
    requires Clocked(start, es)
    ensures start <= ClockAfter(start, es)
    decreases |es|
  {
    if es != [] {
      ClockGoesOn(es[0].now, es[1..]);
    }
  }

  lemma ClockSplits<C>(start: nat, es: seq<Timed<C>>)
    requires es != []
    ensures ClockAfter(start, es) == ClockAfter(es[0].now, es[1..])
  {
  }
}
