/** The purged and embargoed walk-forward folds of the licensing run, and its verdict. */
module Licensing {
  import opened Common
  import NumberTheory

  datatype Fold = Fold(
    windowId: nat, testIdx: seq<nat>, startTime: int, endTime: int,
    nRaw: nat, nPurged: nat, nEmbargoed: nat, embargo: int)

  // ---------- the corpus in event-time order ----------

  function InsertIndex(times: seq<int>, i: nat, order: seq<nat>): (r: seq<nat>)
    requires i < |times| && forall k :: 0 <= k < |order| ==> order[k] < |times|
    ensures |r| == |order| + 1 && forall k :: 0 <= k < |r| ==> r[k] < |times|
  {
    if order == [] || times[order[|order| - 1]] <= times[i] then order + [i]
    else InsertIndex(times, i, order[..|order| - 1]) + [order[|order| - 1]]
  }

  /** `sorted(range(n), key=(event_time, i))`, over the first n indices. */
  function OrderUpTo(times: seq<int>, n: nat): (r: seq<nat>)
    requires n <= |times|
    ensures |r| == n && forall k :: 0 <= k < n ==> r[k] < |times|
  {
    if n == 0 then [] else InsertIndex(times, n - 1, OrderUpTo(times, n - 1))
  }

  function Order(times: seq<int>): (r: seq<nat>)
    ensures |r| == |times| && forall k :: 0 <= k < |r| ==> r[k] < |times|
  {
    OrderUpTo(times, |times|)
  }

  predicate Before(times: seq<int>, i: nat, j: nat)
    requires i < |times| && j < |times|
  {
    times[i] < times[j] || (times[i] == times[j] && i < j)
  }

  /** Strictly increasing in (event time, index); in particular without repetition. */
  predicate Ordered(times: seq<int>, order: seq<nat>)
  {
    (forall k :: 0 <= k < |order| ==> order[k] < |times|) &&
    forall a, b :: 0 <= a < b < |order| ==> Before(times, order[a], order[b])
  }

  lemma {:induction false} InsertOrdered(times: seq<int>, i: nat, order: seq<nat>)
    requires i < |times| && Ordered(times, order) && forall k :: 0 <= k < |order| ==> order[k] < i
    ensures Ordered(times, InsertIndex(times, i, order))
    ensures forall x :: x in InsertIndex(times, i, order) <==> x in order || x == i
  {
    if order != [] && times[order[|order| - 1]] > times[i] {
      var front, last := order[..|order| - 1], order[|order| - 1];
      InsertOrdered(times, i, front);
      var ins := InsertIndex(times, i, front);
      assert order == front + [last];
      forall a | 0 <= a < |ins|
        ensures Before(times, ins[a], last)
      {
        assert ins[a] in ins;
        assert ins[a] in front || ins[a] == i;
      }
    } else if order != [] {
      var last := order[|order| - 1];
      assert forall a :: 0 <= a < |order| - 1 ==> Before(times, order[a], last);
    }
  }

  lemma {:induction false} OrderUpToOrdered(times: seq<int>, n: nat)
    requires n <= |times|
    ensures Ordered(times, OrderUpTo(times, n))
    ensures forall x :: x in OrderUpTo(times, n) <==> 0 <= x < n
  {
    if n > 0 {
      OrderUpToOrdered(times, n - 1);
      var front := OrderUpTo(times, n - 1);
      forall k | 0 <= k < |front|
        ensures front[k] < n - 1
      {
        assert front[k] in front;
      }
      InsertOrdered(times, n - 1, front);
    }
  }

  // ---------- contiguous chunks ----------

  /** Where chunk f starts when n members are cut into k chunks, the first n % k of them one longer. */
  function Start(n: nat, k: nat, f: nat): nat
    requires k >= 1
  {
    f * (n / k) + Min(f, n % k)
  }

  /** Chunk sizes: base or base + 1, the longer ones first, and together exactly n. */
  lemma Sizes(n: nat, k: nat, f: nat)
    requires 1 <= k && f < k
    ensures Start(n, k, f + 1) == Start(n, k, f) + n / k + (if f < n % k then 1 else 0)
    ensures Start(n, k, 0) == 0 && Start(n, k, k) == n && Start(n, k, f + 1) <= n
    ensures Start(n, k, f + 1) > Start(n, k, f) <==> f < Min(k, n)
  {
    var b, r := n / k, n % k;
    NumberTheory.DivFacts(n, k);
    Split(f + 1, k, b);
    assert (f + 1) * b == f * b + b;
    if b == 0 {
      assert f * b == 0 && (f + 1) * b == 0;
    }
  }

  lemma Split(f: nat, k: nat, b: nat)
    requires f <= k
    ensures f * b <= k * b
  {
    assert k * b == f * b + (k - f) * b;
    assert (k - f) * b >= 0;
  }

  lemma StartMonotone(n: nat, k: nat, f: nat, g: nat)
    requires 1 <= k && f <= g
    ensures Start(n, k, f) <= Start(n, k, g)
  {
    assert g * (n / k) == f * (n / k) + (g - f) * (n / k);
    assert (g - f) * (n / k) >= 0;
  }

  lemma StartBound(n: nat, k: nat, f: nat)
    requires 1 <= k && f <= k
    ensures Start(n, k, f) <= n
  {
    if f < k {
      Sizes(n, k, f);
    } else {
      assert k * (n / k) + n % k == n;
    }
    StartMonotone(n, k, f, k);
    assert k * (n / k) + n % k == n;
  }

  function Chunk(order: seq<nat>, k: nat, f: nat): seq<nat>
    requires 1 <= k && f < k
  {
    StartBound(|order|, k, f);
    StartBound(|order|, k, f + 1);
    StartMonotone(|order|, k, f, f + 1);
    order[Start(|order|, k, f)..Start(|order|, k, f + 1)]
  }

  // ---------- one fold ----------

  predicate Embargoed(times: seq<int>, i: nat, previousEnd: Option<int>, embargo: int)
    requires i < |times|
  {
    previousEnd.Some? && times[i] <= previousEnd.value + embargo
  }

  predicate Purged(labels: seq<int>, i: nat, end: int)
    requires i < |labels|
  {
    labels[i] > end
  }

  /** The members kept, and how many each guard dropped; the embargo is tried first. */
  function Sift(times: seq<int>, labels: seq<int>, chunk: seq<nat>, previousEnd: Option<int>, embargo: int,
                end: int): (seq<nat>, nat, nat)
    requires |times| == |labels| && forall k :: 0 <= k < |chunk| ==> chunk[k] < |times|
  {
    if chunk == [] then ([], 0, 0)
    else
      var (kept, purged, embargoed) := Sift(times, labels, chunk[..|chunk| - 1], previousEnd, embargo, end);
      var i := chunk[|chunk| - 1];
      if Embargoed(times, i, previousEnd, embargo) then (kept, purged, embargoed + 1)
      else if Purged(labels, i, end) then (kept, purged + 1, embargoed)
      else (kept + [i], purged, embargoed)
  }

  /** A member is kept exactly when neither guard drops it; nothing is lost or counted twice. */
  lemma {:induction false} SiftExact(times: seq<int>, labels: seq<int>, chunk: seq<nat>, previousEnd: Option<int>,
                                     embargo: int, end: int)
    requires |times| == |labels| && forall k :: 0 <= k < |chunk| ==> chunk[k] < |times|
    ensures var s := Sift(times, labels, chunk, previousEnd, embargo, end);
            |s.0| + s.1 + s.2 == |chunk| &&
            (Distinct(chunk) ==> Distinct(s.0)) &&
            (forall x :: x in s.0 <==>
               x in chunk && !Embargoed(times, x, previousEnd, embargo) && !Purged(labels, x, end))
  {
    if chunk != [] {
      var front, i := chunk[..|chunk| - 1], chunk[|chunk| - 1];
      assert chunk == front + [i];
      SiftExact(times, labels, front, previousEnd, embargo, end);
      assert Distinct(chunk) ==> Distinct(front) && i !in front;
    }
  }

  // ---------- all folds ----------

  datatype Corpus = Corpus(times: seq<int>, labels: seq<int>)

  predicate Aligned(c: Corpus)
  {
    |c.times| == |c.labels|
  }

  /** How many chunks are non-empty: the rest are skipped. */
  function Count(c: Corpus, k: nat): nat
  {
    Min(k, |c.times|)
  }

  lemma ChunkFacts(c: Corpus, k: nat, f: nat)
    requires 1 <= k && f < Count(c, k)
    ensures var chunk := Chunk(Order(c.times), k, f);
            chunk != [] && forall a :: 0 <= a < |chunk| ==> chunk[a] < |c.times|
  {
    Sizes(|c.times|, k, f);
    StartBound(|c.times|, k, f + 1);
  }

  /** The time of the last member of chunk f. */
  function EndOf(c: Corpus, k: nat, f: nat): int
    requires 1 <= k && f < Count(c, k)
  {
    ChunkFacts(c, k, f);
    var chunk := Chunk(Order(c.times), k, f);
    c.times[chunk[|chunk| - 1]]
  }

  function PreviousEnd(c: Corpus, k: nat, f: nat): Option<int>
    requires 1 <= k && f < Count(c, k)
  {
    if f == 0 then None else Some(EndOf(c, k, f - 1))
  }

  function FoldAt(c: Corpus, k: nat, embargo: int, f: nat): Fold
    requires Aligned(c) && 1 <= k && f < Count(c, k)
  {
    ChunkFacts(c, k, f);
    var chunk := Chunk(Order(c.times), k, f);
    var s := Sift(c.times, c.labels, chunk, PreviousEnd(c, k, f), embargo, EndOf(c, k, f));
    Fold(f, s.0, c.times[chunk[0]], EndOf(c, k, f), |chunk|, s.1, s.2, embargo)
  }

  function FoldsUpTo(c: Corpus, k: nat, embargo: int, f: nat): seq<Fold>
    requires Aligned(c) && 1 <= k && f <= Count(c, k)
  {
    if f == 0 then [] else FoldsUpTo(c, k, embargo, f - 1) + [FoldAt(c, k, embargo, f - 1)]
  }

  /** `max(0, int(embargo))`, where a missing embargo is a fraction of the corpus's time span. */
  function EmbargoOf(c: Corpus, embargo: Option<int>, fraction: real): int
  {
    var order := Order(c.times);
    var e := if embargo.Some? then embargo.value
             else if c.times == [] then 0
             else ((c.times[order[|order| - 1]] - c.times[order[0]]) as real * fraction).Floor;
    if e < 0 then 0 else e
  }

  /** The embargo that applies: the one given, never negative; without one, the rounded-down fraction of the
      time from the earliest to the latest event. */
  lemma EmbargoExactly(c: Corpus, embargo: Option<int>, fraction: real, lo: nat, hi: nat)
    requires lo < |c.times| && hi < |c.times|
    requires forall i :: 0 <= i < |c.times| ==> c.times[lo] <= c.times[i] <= c.times[hi]
    ensures embargo.Some? ==> EmbargoOf(c, embargo, fraction) == Max(0, embargo.value)
    ensures embargo.None? ==>
              EmbargoOf(c, embargo, fraction) == Max(0, ((c.times[hi] - c.times[lo]) as real * fraction).Floor)
  {
    hide OrderUpTo;
    var order := Order(c.times);
    OrderUpToOrdered(c.times, |c.times|);
    OrderIs(c);
    assert lo in order && hi in order;
    var a :| 0 <= a < |order| && order[a] == lo;
    var b :| 0 <= b < |order| && order[b] == hi;
    if a > 0 {
      assert Before(c.times, order[0], order[a]);
    }
    if b < |order| - 1 {
      assert Before(c.times, order[b], order[|order| - 1]);
    }
  }

  /** Chunk ends grow with the chunk, and every member of a chunk lies at or before its end. */
  lemma EndsGrow(c: Corpus, k: nat, f: nat, g: nat)
    requires 1 <= k && f <= g < Count(c, k)
    ensures EndOf(c, k, f) <= EndOf(c, k, g)
  {
    hide Order, OrderUpTo, EndOf, Start;
    OrderUpToOrdered(c.times, |c.times|);
    OrderIs(c);
    var n := |c.times|;
    EndIs(c, k, f);
    EndIs(c, k, g);
    StartMonotone(n, k, f + 1, g + 1);
    var order := Order(c.times);
    var a, b := Start(n, k, f + 1) - 1, Start(n, k, g + 1) - 1;
    if a < b {
      assert Before(c.times, order[a], order[b]);
    }
  }

  lemma OrderIs(c: Corpus)
    ensures Order(c.times) == OrderUpTo(c.times, |c.times|)
  {
  }

  lemma EndIs(c: Corpus, k: nat, f: nat)
    requires 1 <= k && f < Count(c, k)
    ensures 1 <= Start(|c.times|, k, f + 1) <= |c.times|
    ensures EndOf(c, k, f) == c.times[Order(c.times)[Start(|c.times|, k, f + 1) - 1]]
  {
    hide Order, Start;
    Sizes(|c.times|, k, f);
  }

  /** Exactly which decisions a fold scores. */
  lemma FoldExact(c: Corpus, k: nat, embargo: int, f: nat)
    requires Aligned(c) && 1 <= k && f < Count(c, k)
    ensures var fold := FoldAt(c, k, embargo, f);
            |fold.testIdx| + fold.nPurged + fold.nEmbargoed == fold.nRaw &&
            Distinct(fold.testIdx) &&
            forall x :: x in fold.testIdx <==>
              x in Chunk(Order(c.times), k, f) && x < |c.times| &&
              (f > 0 ==> c.times[x] > EndOf(c, k, f - 1) + embargo) && c.labels[x] <= EndOf(c, k, f)
  {
    hide Order, Chunk, Sift, EndOf;
    ChunkFacts(c, k, f);
    var chunk := Chunk(Order(c.times), k, f);
    SiftExact(c.times, c.labels, chunk, PreviousEnd(c, k, f), embargo, EndOf(c, k, f));
    OrderDistinct(c);
    ChunkDistinct(Order(c.times), k, f);
  }

  /** A chunk repeats nothing and shares nothing with what precedes it. */
  lemma ChunkDistinct(order: seq<nat>, k: nat, f: nat)
    requires 1 <= k && f < k && Distinct(order)
    ensures Distinct(Chunk(order, k, f))
    ensures Start(|order|, k, f) <= |order|
    ensures forall x :: x in Chunk(order, k, f) ==> x in order && x !in order[..Start(|order|, k, f)]
  {
    StartBound(|order|, k, f);
    StartBound(|order|, k, f + 1);
    StartMonotone(|order|, k, f, f + 1);
    SliceDistinct(order, Start(|order|, k, f), Start(|order|, k, f + 1));
  }

  lemma SliceDistinct(order: seq<nat>, s: nat, e: nat)
    requires s <= e <= |order| && Distinct(order)
    ensures Distinct(order[s..e])
    ensures forall x :: x in order[s..e] ==> x in order && x !in order[..s]
  {
    forall x | x in order[s..e]
      ensures x in order && x !in order[..s]
    {
      var b :| s <= b < e && order[b] == x;
      assert forall a :: 0 <= a < s ==> order[a] != order[b];
    }
  }

  /** A fold's start and end are the earliest and the latest event times of its chunk; its number and its raw
      size are the chunk's, and what it keeps stays in order. */
  lemma FoldFrame(c: Corpus, k: nat, embargo: int, f: nat)
    requires Aligned(c) && 1 <= k && f < Count(c, k)
    ensures var fold, chunk := FoldAt(c, k, embargo, f), Chunk(Order(c.times), k, f);
            fold.windowId == f && fold.nRaw == |chunk| && fold.embargo == embargo && chunk != [] &&
            (forall a :: 0 <= a < |chunk| ==>
               chunk[a] < |c.times| && fold.startTime <= c.times[chunk[a]] <= fold.endTime) &&
            fold.startTime == c.times[chunk[0]] && fold.endTime == c.times[chunk[|chunk| - 1]] &&
            Ordered(c.times, fold.testIdx)
  {
    hide Order, Chunk, Sift, OrderUpTo;
    ChunkFacts(c, k, f);
    var chunk := Chunk(Order(c.times), k, f);
    OrderedChunk(c, k, f);
    forall a | 0 <= a < |chunk|
      ensures c.times[chunk[0]] <= c.times[chunk[a]] <= c.times[chunk[|chunk| - 1]]
    {
      if a > 0 {
        assert Before(c.times, chunk[0], chunk[a]);
      }
      if a < |chunk| - 1 {
        assert Before(c.times, chunk[a], chunk[|chunk| - 1]);
      }
    }
    SiftOrdered(c.times, c.labels, chunk, PreviousEnd(c, k, f), embargo, EndOf(c, k, f));
  }

  lemma OrderedChunk(c: Corpus, k: nat, f: nat)
    requires 1 <= k && f < k
    ensures Ordered(c.times, Chunk(Order(c.times), k, f))
  {
    hide OrderUpTo, Start;
    OrderUpToOrdered(c.times, |c.times|);
    OrderIs(c);
    var order := Order(c.times);
    StartBound(|order|, k, f);
    StartBound(|order|, k, f + 1);
    StartMonotone(|order|, k, f, f + 1);
    OrderedSlice(c.times, order, Start(|order|, k, f), Start(|order|, k, f + 1));
  }

  lemma OrderedSlice(times: seq<int>, order: seq<nat>, s: nat, e: nat)
    requires s <= e <= |order| && Ordered(times, order)
    ensures Ordered(times, order[s..e])
  {
  }

  lemma {:induction false} SiftOrdered(times: seq<int>, labels: seq<int>, chunk: seq<nat>, previousEnd: Option<int>,
                                       embargo: int, end: int)
    requires |times| == |labels| && Ordered(times, chunk)
    ensures Ordered(times, Sift(times, labels, chunk, previousEnd, embargo, end).0)
  {
    if chunk != [] {
      var front, i := chunk[..|chunk| - 1], chunk[|chunk| - 1];
      SiftOrdered(times, labels, front, previousEnd, embargo, end);
      SiftExact(times, labels, front, previousEnd, embargo, end);
      var kept := Sift(times, labels, front, previousEnd, embargo, end).0;
      forall a | 0 <= a < |kept|
        ensures Before(times, kept[a], i)
      {
        assert kept[a] in kept;
        var j :| 0 <= j < |front| && front[j] == kept[a];
        assert chunk[j] == front[j];
      }
    }
  }

  function Gap(times: seq<int>, chunk: seq<nat>, previousEnd: Option<int>, embargo: int): set<nat>
  {
    set x | x in chunk && x < |times| && Embargoed(times, x, previousEnd, embargo)
  }

  function Late(times: seq<int>, labels: seq<int>, chunk: seq<nat>, previousEnd: Option<int>, embargo: int,
                end: int): set<nat>
  {
    set x | x in chunk && x < |times| && x < |labels| &&
      !Embargoed(times, x, previousEnd, embargo) && Purged(labels, x, end)
  }

  lemma OneMore(times: seq<int>, labels: seq<int>, front: seq<nat>, i: nat, previousEnd: Option<int>,
               embargo: int, end: int)
    requires i < |times| == |labels| && i !in front
    ensures Gap(times, front + [i], previousEnd, embargo) ==
            Gap(times, front, previousEnd, embargo) + (if Embargoed(times, i, previousEnd, embargo) then {i} else {})
    ensures Late(times, labels, front + [i], previousEnd, embargo, end) ==
            Late(times, labels, front, previousEnd, embargo, end) +
            (if !Embargoed(times, i, previousEnd, embargo) && Purged(labels, i, end) then {i} else {})
    ensures i !in Gap(times, front, previousEnd, embargo) && i !in Late(times, labels, front, previousEnd, embargo, end)
  {
  }

  /** Each guard's counter counts what that guard drops: the embargo those in the gap, the purge those that
      are past the gap but whose label ends after the fold. */
  lemma {:induction false} SiftCounts(times: seq<int>, labels: seq<int>, chunk: seq<nat>, previousEnd: Option<int>,
                                      embargo: int, end: int)
    requires |times| == |labels| && Distinct(chunk) && forall k :: 0 <= k < |chunk| ==> chunk[k] < |times|
    ensures var s := Sift(times, labels, chunk, previousEnd, embargo, end);
            s.2 == |Gap(times, chunk, previousEnd, embargo)| &&
            s.1 == |Late(times, labels, chunk, previousEnd, embargo, end)|
  {
    if chunk == [] {
      assert Gap(times, chunk, previousEnd, embargo) == {};
      assert Late(times, labels, chunk, previousEnd, embargo, end) == {};
    } else {
      hide Gap, Late;
      var front, i := chunk[..|chunk| - 1], chunk[|chunk| - 1];
      assert chunk == front + [i] && i !in front;
      SiftCounts(times, labels, front, previousEnd, embargo, end);
      OneMore(times, labels, front, i, previousEnd, embargo, end);
    }
  }

  /** In the terms of the corpus. */
  lemma FoldCounts(c: Corpus, k: nat, embargo: int, f: nat)
    requires Aligned(c) && 1 <= k && f < Count(c, k)
    ensures var fold, chunk := FoldAt(c, k, embargo, f), Chunk(Order(c.times), k, f);
            fold.nEmbargoed == |set x | x in chunk && InGap(c, k, embargo, f, x)| &&
            fold.nPurged == |set x | x in chunk && !InGap(c, k, embargo, f, x) && LabelLate(c, x, EndOf(c, k, f))|
  {
    hide Order, Chunk, Sift, EndOf;
    ChunkFacts(c, k, f);
    var chunk := Chunk(Order(c.times), k, f);
    OrderDistinct(c);
    ChunkDistinct(Order(c.times), k, f);
    var prev, end := PreviousEnd(c, k, f), EndOf(c, k, f);
    SiftCounts(c.times, c.labels, chunk, prev, embargo, end);
    assert (set x | x in chunk && InGap(c, k, embargo, f, x)) == Gap(c.times, chunk, prev, embargo);
    assert (set x | x in chunk && !InGap(c, k, embargo, f, x) && LabelLate(c, x, end)) ==
           Late(c.times, c.labels, chunk, prev, embargo, end);
  }

  /** At most the embargo after the end of the previous chunk. */
  predicate InGap(c: Corpus, k: nat, embargo: int, f: nat, x: nat)
    requires 1 <= k && f < Count(c, k)
  {
    f > 0 && x < |c.times| && c.times[x] - EndOf(c, k, f - 1) <= embargo
  }

  predicate LabelLate(c: Corpus, x: nat, end: int)
  {
    x < |c.labels| && c.labels[x] > end
  }

  lemma OrderDistinct(c: Corpus)
    ensures Distinct(Order(c.times)) && forall x :: x in Order(c.times) <==> 0 <= x < |c.times|
  {
    OrderUpToOrdered(c.times, |c.times|);
    var order := Order(c.times);
    forall a, b | 0 <= a < b < |order|
      ensures order[a] != order[b]
    {
      assert Before(c.times, order[a], order[b]);
    }
  }

  /** Folds are decoupled: a label kept in an earlier fold ends more than the embargo before any
      decision kept in a later one. */
  lemma Decoupled(c: Corpus, k: nat, embargo: int, a: nat, b: nat, i: nat, j: nat)
    requires Aligned(c) && 1 <= k && a < b < Count(c, k)
    requires i in FoldAt(c, k, embargo, a).testIdx && j in FoldAt(c, k, embargo, b).testIdx
    ensures i < |c.times| && j < |c.times| && c.labels[i] + embargo < c.times[j]
  {
    hide Order, Chunk, EndOf, FoldAt;
    FoldExact(c, k, embargo, a);
    FoldExact(c, k, embargo, b);
    EndsGrow(c, k, a, b - 1);
  }

  // ---------- the chunks partition the corpus ----------

  function Chunks(order: seq<nat>, k: nat, f: nat): seq<nat>
    requires 1 <= k && f <= k
  {
    if f == 0 then [] else Chunks(order, k, f - 1) + Chunk(order, k, f - 1)
  }

  lemma {:induction false} ChunksArePrefix(order: seq<nat>, k: nat, f: nat)
    requires 1 <= k && f <= k
    ensures Start(|order|, k, f) <= |order| && Chunks(order, k, f) == order[..Start(|order|, k, f)]
  {
    StartBound(|order|, k, f);
    if f > 0 {
      ChunksArePrefix(order, k, f - 1);
      StartMonotone(|order|, k, f - 1, f);
    }
  }

  /** The chunks in order are the sorted corpus, and any two differ in size by at most one. */
  lemma Partition(c: Corpus, k: nat)
    requires 1 <= k
    ensures Chunks(Order(c.times), k, k) == Order(c.times)
    ensures forall f, g :: 0 <= f < k && 0 <= g < k ==>
              |Chunk(Order(c.times), k, f)| <= |Chunk(Order(c.times), k, g)| + 1
    ensures forall f :: 0 <= f < k ==> (Chunk(Order(c.times), k, f) != [] <==> f < Count(c, k))
  {
    var order := Order(c.times);
    ChunksArePrefix(order, k, k);
    Sizes(|order|, k, 0);
    forall f | 0 <= f < k
      ensures |Chunk(order, k, f)| == |order| / k + (if f < |order| % k then 1 else 0)
      ensures Chunk(order, k, f) != [] <==> f < Count(c, k)
    {
      Sizes(|order|, k, f);
    }
  }

  // ---------- the pooled index list ----------

  function Pooled(folds: seq<Fold>): seq<nat>
  {
    if folds == [] then [] else Pooled(folds[..|folds| - 1]) + folds[|folds| - 1].testIdx
  }

  lemma FoldsUpToAt(c: Corpus, k: nat, embargo: int, f: nat, g: nat)
    requires Aligned(c) && 1 <= k && g < f <= Count(c, k)
    ensures |FoldsUpTo(c, k, embargo, f)| == f && FoldsUpTo(c, k, embargo, f)[g] == FoldAt(c, k, embargo, g)
  {
    if g < f - 1 {
      FoldsUpToAt(c, k, embargo, f - 1, g);
    } else if f > 1 {
      FoldsUpToAt(c, k, embargo, f - 1, 0);
    }
  }

  /** No decision is scored twice in the pool, and the pool holds only decisions of the corpus. */
  lemma {:induction false} PooledDistinct(c: Corpus, k: nat, embargo: int, f: nat)
    requires Aligned(c) && 1 <= k && f <= Count(c, k)
    ensures var pool := Pooled(FoldsUpTo(c, k, embargo, f));
            Distinct(pool) && forall x :: x in pool ==> x in Chunks(Order(c.times), k, f)
  {
    hide Order, Chunk, Start, FoldAt, EndOf, Distinct;
    EmptyDistinct();
    if f > 0 {
      var order := Order(c.times);
      var front := FoldsUpTo(c, k, embargo, f - 1);
      var fold := FoldAt(c, k, embargo, f - 1);
      PooledDistinct(c, k, embargo, f - 1);
      FoldInChunk(c, k, embargo, f - 1);
      ChunksArePrefix(order, k, f - 1);
      assert (front + [fold])[..|front|] == front;
      AppendDistinct(Pooled(front), fold.testIdx);
    }
  }

  /** A fold keeps members of its own chunk only, each once, and none of an earlier chunk. */
  lemma FoldInChunk(c: Corpus, k: nat, embargo: int, f: nat)
    requires Aligned(c) && 1 <= k && f < Count(c, k)
    ensures var order, kept := Order(c.times), FoldAt(c, k, embargo, f).testIdx;
            Distinct(kept) && Start(|order|, k, f) <= |order| &&
            forall x :: x in kept ==> x in Chunk(order, k, f) && x !in order[..Start(|order|, k, f)]
  {
    hide Order, Chunk, Start, FoldAt, EndOf, Distinct;
    FoldExact(c, k, embargo, f);
    OrderDistinct(c);
    ChunkDistinct(Order(c.times), k, f);
  }

  lemma EmptyDistinct()
    ensures Distinct<nat>([])
  {
  }

  lemma AppendDistinct(a: seq<nat>, b: seq<nat>)
    requires Distinct(a) && Distinct(b) && forall x :: x in b ==> x !in a
    ensures Distinct(a + b)
  {
    forall i, j | 0 <= i < j < |a + b|
      ensures (a + b)[i] != (a + b)[j]
    {
      if i < |a| <= j {
        assert (a + b)[j] in b && (a + b)[i] in a;
      }
    }
  }

  // ---------- more caution keeps less ----------

  /** A larger embargo and later label ends keep a subset of every fold. */
  lemma CautionShrinks(c: Corpus, d: Corpus, k: nat, small: int, large: int, f: nat)
    requires Aligned(c) && Aligned(d) && c.times == d.times && small <= large
    requires forall i :: 0 <= i < |c.labels| ==> c.labels[i] <= d.labels[i]
    requires 1 <= k && f < Count(c, k)
    ensures forall x :: x in FoldAt(d, k, large, f).testIdx ==> x in FoldAt(c, k, small, f).testIdx
  {
    FoldExact(c, k, small, f);
    FoldExact(d, k, large, f);
    assert EndOf(c, k, f) == EndOf(d, k, f);
    if f > 0 {
      assert EndOf(c, k, f - 1) == EndOf(d, k, f - 1);
    }
  }

  // ---------- building the folds ----------

  /** The inner loop: one chunk sifted member by member. */
  method SiftChunk(c: Corpus, chunk: seq<nat>, previousEnd: Option<int>, embargo: int, end: int)
    returns (kept: seq<nat>, purged: nat, embargoed: nat)
    requires Aligned(c) && forall k :: 0 <= k < |chunk| ==> chunk[k] < |c.times|
    ensures (kept, purged, embargoed) == Sift(c.times, c.labels, chunk, previousEnd, embargo, end)
  {
    kept, purged, embargoed := [], 0, 0;
    for t := 0 to |chunk|
      invariant (kept, purged, embargoed) == Sift(c.times, c.labels, chunk[..t], previousEnd, embargo, end)
    {
      assert chunk[..t + 1][..t] == chunk[..t];
      var i := chunk[t];
      if previousEnd.Some? && c.times[i] <= previousEnd.value + embargo {
        embargoed := embargoed + 1;
      } else if c.labels[i] > end {
        purged := purged + 1;
      } else {
        kept := kept + [i];
      }
    }
    assert chunk[..|chunk|] == chunk;
  }

  /** The fold of one non-empty chunk. */
  method BuildFold(c: Corpus, k: nat, f: nat, order: seq<nat>, start: nat, size: nat, previousEnd: Option<int>,
                   embargo: int)
    returns (fold: Fold)
    requires Aligned(c) && 1 <= k && f < Count(c, k) && order == Order(c.times)
    requires start == Start(|c.times|, k, f) && start + size == Start(|c.times|, k, f + 1)
    requires previousEnd == PreviousEnd(c, k, f)
    ensures fold == FoldAt(c, k, embargo, f) && fold.endTime == EndOf(c, k, f)
  {
    hide Order, Sift, Start;
    ChunkFacts(c, k, f);
    EndIs(c, k, f);
    var chunk := order[start..start + size];
    assert chunk == Chunk(order, k, f);
    var lo, hi := c.times[chunk[0]], c.times[chunk[|chunk| - 1]];
    var kept, purged, embargoed := SiftChunk(c, chunk, previousEnd, embargo, hi);
    fold := Fold(f, kept, lo, hi, size, purged, embargoed, embargo);
  }

  /** `build_purged_embargoed_folds`. */
  method BuildFolds(c: Corpus, nFolds: int, embargo: Option<int>, fraction: real) returns (r: Result<seq<Fold>, string>)
    ensures r.Err? <==> !Aligned(c) || nFolds < 1
    ensures r.Ok? ==> r.value == FoldsUpTo(c, nFolds, EmbargoOf(c, embargo, fraction), Count(c, nFolds))
  {
    hide Order, Sift, EndOf, Start, EmbargoOf, FoldAt;
    if !Aligned(c) {
      return Err("event_times and label_horizon_ends must align");
    }
    if nFolds < 1 {
      return Err("n_folds must be >= 1");
    }
    var n := |c.times|;
    if n == 0 {
      return Ok([]);
    }
    var order := Order(c.times);
    var gap := EmbargoOf(c, embargo, fraction);
    var base, rem := n / nFolds, n % nFolds;
    var folds: seq<Fold> := [];
    var start, wid := 0, 0;
    var previousEnd: Option<int> := None;
    Sizes(n, nFolds, 0);
    for f := 0 to nFolds
      invariant start == Start(n, nFolds, f) && wid == Min(f, n)
      invariant folds == FoldsUpTo(c, nFolds, gap, Min(f, n))
      invariant previousEnd == if f == 0 then None else Some(EndOf(c, nFolds, Min(f, n) - 1))
    {
      Sizes(n, nFolds, f);
      var size := base + (if f < rem then 1 else 0);
      if size != 0 {
        var fold := BuildFold(c, nFolds, f, order, start, size, previousEnd, gap);
        var hi := fold.endTime;
        start := start + size;
        folds := folds + [fold];
        previousEnd := Some(hi);
        wid := wid + 1;
      }
    }
    return Ok(folds);
  }

  predicate Leaks(fold: Fold, labels: seq<int>)
  {
    exists i :: i in fold.testIdx && i < |labels| && labels[i] > fold.endTime
  }

  /** `assert_purge_is_load_bearing` never raises on built folds. */
  lemma PurgeHolds(c: Corpus, k: nat, embargo: int, f: nat)
    requires Aligned(c) && 1 <= k && f < Count(c, k)
    ensures !Leaks(FoldAt(c, k, embargo, f), c.labels)
  {
    FoldExact(c, k, embargo, f);
  }

  // ---------- the verdict ----------

  /** What the fold scorer says of a set of decisions: GATE-A, GATE-B and the model-baseline delta. */
  datatype Score = Score(gateA: bool, gateB: bool, delta: real)

  /** `_licensing_reason`: which message is shown, with its reasons. */
  datatype Reason = FailClosed | SaysGo | SaysNoGo(causes: seq<Cause>)

  datatype Cause = TooFewFolds | GateAFailed | GateBFailed

  datatype License = License(
    nFoldsBuilt: nat, sufficient: bool, pooled: seq<nat>, pooledScore: Option<Score>,
    nPositive: nat, majority: bool, go: bool, reason: Reason)

  function NonEmpty(folds: seq<Fold>): nat
  {
    if folds == [] then 0 else NonEmpty(folds[..|folds| - 1]) + (if folds[|folds| - 1].testIdx != [] then 1 else 0)
  }

  function Positive(folds: seq<Fold>, scorer: seq<nat> -> Score): nat
  {
    if folds == [] then 0
    else
      var last := folds[|folds| - 1].testIdx;
      Positive(folds[..|folds| - 1], scorer) + (if last != [] && scorer(last).delta > 0.0 then 1 else 0)
  }

  function KeptFolds(folds: seq<Fold>): set<nat>
  {
    set k: nat | k < |folds| && folds[k].testIdx != []
  }

  function GoodFolds(folds: seq<Fold>, scorer: seq<nat> -> Score): set<nat>
  {
    set k: nat | k < |folds| && folds[k].testIdx != [] && scorer(folds[k].testIdx).delta > 0.0
  }

  lemma LastFold(folds: seq<Fold>, scorer: seq<nat> -> Score)
    requires folds != []
    ensures var n := |folds| - 1;
            var last := folds[n].testIdx;
            n !in KeptFolds(folds[..n]) && n !in GoodFolds(folds[..n], scorer) &&
            KeptFolds(folds) == KeptFolds(folds[..n]) + (if last != [] then {n} else {}) &&
            GoodFolds(folds, scorer) ==
            GoodFolds(folds[..n], scorer) + (if last != [] && scorer(last).delta > 0.0 then {n} else {})
  {
  }

  /** The counters count the folds that keep something, and those of them the model beats the baseline on. */
  lemma {:induction false} CountsExactly(folds: seq<Fold>, scorer: seq<nat> -> Score)
    ensures NonEmpty(folds) == |KeptFolds(folds)| && Positive(folds, scorer) == |GoodFolds(folds, scorer)|
  {
    if folds == [] {
      assert KeptFolds(folds) == {} && GoodFolds(folds, scorer) == {};
    } else {
      hide KeptFolds, GoodFolds;
      CountsExactly(folds[..|folds| - 1], scorer);
      LastFold(folds, scorer);
    }
  }

  /** The pool is what the folds keep. */
  lemma {:induction false} PooledExactly(folds: seq<Fold>, x: nat)
    ensures x in Pooled(folds) <==> exists k :: 0 <= k < |folds| && x in folds[k].testIdx
  {
    if folds != [] {
      var n := |folds| - 1;
      PooledExactly(folds[..n], x);
      assert forall k :: 0 <= k < n ==> folds[..n][k] == folds[k];
    }
  }

  method LicensingReason(nOutcomes: nat, sufficient: bool, pooledScore: Option<Score>) returns (reason: Reason)
    ensures nOutcomes == 0 <==> reason == FailClosed
    ensures reason == SaysGo <==>
            nOutcomes > 0 && sufficient && (pooledScore.Some? ==> pooledScore.value.gateA && pooledScore.value.gateB)
    ensures reason.SaysNoGo? ==> (TooFewFolds in reason.causes <==> !sufficient)
    ensures reason.SaysNoGo? ==> (GateAFailed in reason.causes <==> pooledScore.Some? && !pooledScore.value.gateA)
    ensures reason.SaysNoGo? ==> (GateBFailed in reason.causes <==> pooledScore.Some? && !pooledScore.value.gateB)
  {
    if nOutcomes == 0 {
      return FailClosed;
    }
    var causes: seq<Cause> := [];
    if !sufficient {
      causes := causes + [TooFewFolds];
    }
    if pooledScore.Some? && !pooledScore.value.gateA {
      causes := causes + [GateAFailed];
    }
    if pooledScore.Some? && !pooledScore.value.gateB {
      causes := causes + [GateBFailed];
    }
    return if causes == [] then SaysGo else SaysNoGo(causes);
  }

  /** `walk_forward_licensing` after the folds are built. The reason says GO exactly when the license
      is given, unless no fold survives and no fold is required: then it says GO and withholds it. */
  method Verdict(nOutcomes: nat, folds: seq<Fold>, scorer: seq<nat> -> Score, minFolds: int) returns (r: License)
    requires nOutcomes == 0 ==> folds == []
    ensures r.nFoldsBuilt == NonEmpty(folds) && r.pooled == Pooled(folds) && r.nPositive == Positive(folds, scorer)
    ensures r.go <==>
            NonEmpty(folds) >= minFolds && Pooled(folds) != [] &&
            scorer(Pooled(folds)).gateA && scorer(Pooled(folds)).gateB
    ensures r.majority <==> 2 * Positive(folds, scorer) > NonEmpty(folds)
    ensures r.sufficient <==> NonEmpty(folds) >= minFolds
    ensures r.pooledScore == if Pooled(folds) == [] then None else Some(scorer(Pooled(folds)))
    ensures (r.reason == SaysGo <==> r.go) <==> !(nOutcomes > 0 && Pooled(folds) == [] && minFolds <= 0)
  {
    var pooled: seq<nat> := [];
    var built, positive := 0, 0;
    for f := 0 to |folds|
      invariant pooled == Pooled(folds[..f]) && built == NonEmpty(folds[..f]) &&
                positive == Positive(folds[..f], scorer)
      invariant pooled == [] <==> built == 0
      invariant positive <= built
    {
      assert folds[..f + 1][..f] == folds[..f];
      if folds[f].testIdx != [] {
        pooled := pooled + folds[f].testIdx;
        built := built + 1;
        if scorer(folds[f].testIdx).delta > 0.0 {
          positive := positive + 1;
        }
      }
    }
    assert folds[..|folds|] == folds;
    var sufficient := built >= minFolds;
    var pooledScore := if pooled != [] then Some(scorer(pooled)) else None;
    var majority := built > 0 && positive * 2 > built;
    var pooledGo := pooledScore.Some? && pooledScore.value.gateA && pooledScore.value.gateB;
    var go := sufficient && pooledGo;
    var reason := LicensingReason(nOutcomes, sufficient, pooledScore);
    r := License(built, sufficient, pooled, pooledScore, positive, majority, go, reason);
  }

  /** `walk_forward_licensing`: errors, the folds it pools, and the verdict on them. */
  method WalkForwardLicensing(c: Corpus, nOutcomes: nat, scorer: seq<nat> -> Score, nFolds: int, embargo: Option<int>,
                              fraction: real, minFolds: int)
    returns (r: Result<License, string>)
    ensures r.Err? <==> !(nOutcomes == |c.times| == |c.labels|) || nFolds < 1
    ensures r.Ok? ==>
              var folds := FoldsUpTo(c, nFolds, EmbargoOf(c, embargo, fraction), Count(c, nFolds));
              r.value.pooled == Pooled(folds) && r.value.nFoldsBuilt == NonEmpty(folds) && Distinct(Pooled(folds)) &&
              (r.value.go <==>
               NonEmpty(folds) >= minFolds && Pooled(folds) != [] &&
               scorer(Pooled(folds)).gateA && scorer(Pooled(folds)).gateB) &&
              (minFolds >= 1 ==> (r.value.reason == SaysGo <==> r.value.go))
  {
    if !(nOutcomes == |c.times| == |c.labels|) {
      return Err("outcomes, event_times and label_horizon_ends must all align");
    }
    var folds :- BuildFolds(c, nFolds, embargo, fraction);
    ghost var e := EmbargoOf(c, embargo, fraction);
    PooledDistinct(c, nFolds, e, Count(c, nFolds));
    var license := Verdict(nOutcomes, folds, scorer, minFolds);
    return Ok(license);
  }

  /** Such corpora exist for every fold count: when every label ends after the last event, nothing
      survives the purge and the pool is empty. */
  lemma {:induction false} AllPurged(c: Corpus, k: nat, embargo: int, f: nat)
    requires Aligned(c) && 1 <= k && f <= Count(c, k)
    requires forall i, j :: 0 <= i < |c.times| && 0 <= j < |c.times| ==> c.labels[i] > c.times[j]
    ensures Pooled(FoldsUpTo(c, k, embargo, f)) == []
  {
    hide FoldAt;
    if f > 0 {
      AllPurged(c, k, embargo, f - 1);
      var front, fold := FoldsUpTo(c, k, embargo, f - 1), FoldAt(c, k, embargo, f - 1);
      PurgedFold(c, k, embargo, f - 1);
      assert (front + [fold])[..|front|] == front;
    }
  }

  lemma PurgedFold(c: Corpus, k: nat, embargo: int, f: nat)
    requires Aligned(c) && 1 <= k && f < Count(c, k)
    requires forall i, j :: 0 <= i < |c.times| && 0 <= j < |c.times| ==> c.labels[i] > c.times[j]
    ensures FoldAt(c, k, embargo, f).testIdx == []
  {
    hide Order, FoldAt, EndOf, Start, Distinct, Chunk;
    FoldExact(c, k, embargo, f);
    EndIs(c, k, f);
    HasMember(FoldAt(c, k, embargo, f).testIdx);
  }

  lemma HasMember(s: seq<nat>)
    ensures s == [] || exists x :: x in s
  {
    if s != [] {
      assert s[0] in s;
    }
  }
}
