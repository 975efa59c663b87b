/** Counting how often the prefetcher considers a blob. */
module Prefetch {
  import opened Common

  /** Whether a prefetch started at chunk `start` reaches blob j, given the window size. */
  predicate Reaches(start: int, j: int, window: nat) { start <= j < start + window }

  predicate NoRepeats(starts: seq<int>)
  {
    forall a, b :: 0 <= a < b < |starts| ==> starts[a] != starts[b]
  }

  /** How many of the prefetches started so far reach blob j. */
  function Reaching(starts: seq<int>, j: int, window: nat): nat
  {
    if starts == [] then 0
    else
      Reaching(starts[..|starts| - 1], j, window) + if Reaches(starts[|starts| - 1], j, window) then 1 else 0
  }

  ghost function Interval(lo: int, n: nat): (r: set<int>)
    ensures |r| == n
    ensures forall c :: c in r <==> lo <= c < lo + n
  {
    if n == 0 then {} else Interval(lo, n - 1) + {lo + n - 1}
  }

  lemma {:induction false} ReachingCounts(starts: seq<int>, j: int, window: nat)
    requires NoRepeats(starts)
    ensures Reaching(starts, j, window) == |set c | c in starts && Reaches(c, j, window)|
  {
    var s := set c | c in starts && Reaches(c, j, window);
    if starts == [] {
      assert s == {};
    } else {
      var rest, last := starts[..|starts| - 1], starts[|starts| - 1];
      ReachingCounts(rest, j, window);
      assert forall c :: c in starts <==> c in rest || c == last;
      assert last !in rest;
      var t := set c | c in rest && Reaches(c, j, window);
      if Reaches(last, j, window) {
        assert s == t + {last};
      } else {
        assert s == t;
      }
    }
  }

  /** Prefetches that start at distinct chunks reach each blob at most `window` times. */
  lemma ReachingIsBounded(starts: seq<int>, j: int, window: nat)
    requires NoRepeats(starts)
    ensures Reaching(starts, j, window) <= window
  {
    ReachingCounts(starts, j, window);
    var s := set c | c in starts && Reaches(c, j, window);
    SubsetIsSmaller(s, Interval(j - window + 1, window));
  }

  /** What a stream's prefetch records keep over any run: the chunks marked are the starts, no start is
      repeated, only content blobs after the first are considered, and each no more often than starts reach it. */
  ghost predicate Disciplined(marked: map<int, bool>, starts: seq<int>, considered: multiset<int>, blobs: nat,
                               window: nat)
  {
    && (forall c :: c in marked <==> c in starts)
    && NoRepeats(starts)
    && (forall j :: j in considered ==> 1 <= j < blobs)
    && (forall j :: considered[j] <= Reaching(starts, j, window))
  }

  /** No blob is considered more than `window` times. */
  lemma ConsideredAtMostWindowTimes(marked: map<int, bool>, starts: seq<int>, considered: multiset<int>, blobs: nat,
                                    window: nat, j: int)
    requires Disciplined(marked, starts, considered, blobs, window)
    ensures considered[j] <= window
    ensures considered[j] > 0 ==> 1 <= j < blobs
  {
    ReachingIsBounded(starts, j, window);
  }

  /** A new start, and the blobs it considers, keep the discipline. */
  lemma StartKeepsDiscipline(marked: map<int, bool>, starts: seq<int>, before: multiset<int>, after: multiset<int>,
                             blobs: nat, window: nat, start: int, end: int)
    requires Disciplined(marked, starts, before, blobs, window)
    requires start >= 1 && start !in marked
    requires Span(before, after, start, end) && (end == start || (end <= start + window && end <= blobs))
    ensures Disciplined(marked[start := true], starts + [start], after, blobs, window)
  {
    var starts' := starts + [start];
    assert starts'[..|starts'| - 1] == starts;
    forall j
      ensures after[j] <= Reaching(starts', j, window)
      ensures after[j] > 0 ==> 1 <= j < blobs
    {
      assert after[j] > 0 && before[j] == 0 ==> start <= j < blobs;
      assert before[j] > 0 ==> j in before;
    }
  }

  /** Blobs lo up to hi were considered once more, and no others. */
  ghost predicate Span(before: multiset<int>, after: multiset<int>, lo: int, hi: int)
  {
    forall j :: after[j] == before[j] + if lo <= j < hi then 1 else 0
  }

  lemma SpanGrows(before: multiset<int>, now: multiset<int>, after: multiset<int>, lo: int, k: int, k': int)
    requires Span(before, now, lo, k) && lo <= k && k' == k + 1 && after == now + multiset{k}
    ensures Span(before, after, lo, k')
  {
  }
}
