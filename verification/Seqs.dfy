/** Order-preserving subsequences. */
module Seqs {
  /** `a` can be obtained from `b` by leaving elements out. */
  ghost predicate Subseq<T>(a: seq<T>, b: seq<T>)
    decreases |b|
  {
    || a == []
    || (b != [] && a[0] == b[0] && Subseq(a[1..], b[1..]))
    || (b != [] && Subseq(a, b[1..]))
  }

  lemma SubseqBoth<T>(x: T, a: seq<T>, b: seq<T>)
    requires Subseq(a, b)
    ensures Subseq([x] + a, [x] + b)
  {
    assert ([x] + a)[1..] == a && ([x] + b)[1..] == b;
  }

  lemma {:induction false} SubseqSkip<T>(skipped: seq<T>, a: seq<T>, b: seq<T>)
    requires Subseq(a, b)
    ensures Subseq(a, skipped + b)
    decreases |skipped|
  {
    if skipped == [] {
      assert skipped + b == b;
    } else {
      SubseqSkip(skipped[1..], a, b);
      assert (skipped + b)[1..] == skipped[1..] + b;
    }
  }

  lemma {:induction false} SubseqRefl<T>(a: seq<T>)
    ensures Subseq(a, a)
    decreases |a|
  {
    if a != [] {
      SubseqRefl(a[1..]);
    }
  }

  lemma {:induction false} SubseqTrans<T>(a: seq<T>, b: seq<T>, c: seq<T>)
    requires Subseq(a, b) && Subseq(b, c)
    ensures Subseq(a, c)
    decreases |b| + |c|
  {
    if a != [] {
      if c != [] && b[0] == c[0] && Subseq(b[1..], c[1..]) {
        if a[0] == b[0] && Subseq(a[1..], b[1..]) {
          SubseqTrans(a[1..], b[1..], c[1..]);
        } else {
          SubseqTrans(a, b[1..], c[1..]);
        }
      } else {
        SubseqTrans(a, b, c[1..]);
      }
    }
  }

  lemma {:induction false} SubseqAppend<T>(a: seq<T>, b: seq<T>, c: seq<T>, d: seq<T>)
    requires Subseq(a, b) && Subseq(c, d)
    ensures Subseq(a + c, b + d)
    decreases |b|
  {
    if a == [] {
      assert a + c == c;
      SubseqSkip(b, c, d);
    } else if a[0] == b[0] && Subseq(a[1..], b[1..]) {
      SubseqAppend(a[1..], b[1..], c, d);
      assert (a + c)[1..] == a[1..] + c && (b + d)[1..] == b[1..] + d;
    } else {
      SubseqAppend(a, b[1..], c, d);
      assert (b + d)[1..] == b[1..] + d;
    }
  }

  lemma TakeNext<T>(s: seq<T>, i: nat)
    requires i < |s|
    ensures s[..i + 1] == s[..i] + [s[i]]
  {
  }

  lemma TakeHeadFirst<T>(s: seq<T>, i: nat)
    requires i < |s|
    ensures s[..i + 1] == [s[0]] + s[1..][..i]
  {
  }

  lemma Assoc<T>(a: seq<T>, b: seq<T>, c: seq<T>)
    ensures (a + b) + c == a + (b + c)
  {
  }

  /**
   A line of waiting elements after one event: `joins` entered at the back, and
   either `out` left at the front or a prefix was lost. If what `later` left,
   then `left`, keeps the order of the line after the event, then what left in
   all keeps the order of the line before it.
   */
  lemma LineStep<T>(queue: seq<T>, joins: seq<T>, more: seq<T>, out: seq<T>, queue': seq<T>,
                    later: seq<T>, left: seq<T>, lost: seq<T>)
    requires Subseq(later + left, queue' + more)
    requires queue + joins == lost + (out + queue')
    ensures Subseq((out + later) + left, queue + (joins + more))
  {
    SubseqRefl(out);
    SubseqAppend(out, out, later + left, queue' + more);
    Assoc(out, later, left);
    Assoc(out, queue', more);
    SubseqSkip(lost, (out + later) + left, (out + queue') + more);
    Assoc(lost, out + queue', more);
    Assoc(queue, joins, more);
  }

  lemma WholeLineStep<T>(queue: seq<T>, joins: seq<T>, more: seq<T>, out: seq<T>, queue': seq<T>,
                         later: seq<T>, left: seq<T>)
    requires later + left == queue' + more && queue + joins == out + queue'
    ensures (out + later) + left == queue + (joins + more)
  {
    Assoc(out, later, left);
    Assoc(out, queue', more);
    Assoc(queue, joins, more);
  }

  /** As `LineStep`, for an event that may lose elements anywhere in the line. */
  lemma OrderedLineStep<T>(queue: seq<T>, joins: seq<T>, more: seq<T>, out: seq<T>, queue': seq<T>,
                           later: seq<T>, left: seq<T>)
    requires Subseq(later + left, queue' + more) && Subseq(out + queue', queue + joins)
    ensures Subseq((out + later) + left, queue + (joins + more))
  {
    SubseqRefl(out);
    SubseqAppend(out, out, later + left, queue' + more);
    Assoc(out, later, left);
    Assoc(out, queue', more);
    SubseqRefl(more);
    SubseqAppend(out + queue', queue + joins, more, more);
    Assoc(queue, joins, more);
    SubseqTrans((out + later) + left, (out + queue') + more, (queue + joins) + more);
  }
}
