/** A binary min-heap kept in a list, as Python's heapq keeps it: the smallest (time, tick) is at
    index 0 and the children of i are at 2i + 1 and 2i + 2. */
module MinHeap {

  datatype Entry<T> = Entry(time: int, tick: nat, item: T)

  predicate Le<T>(a: Entry<T>, b: Entry<T>)
  {
    a.time < b.time || (a.time == b.time && a.tick <= b.tick)
  }

  function Parent(i: nat): nat
    requires i > 0
  {
    (i - 1) / 2
  }

  ghost predicate IsHeap<T>(h: seq<Entry<T>>)
  {
    forall i :: 0 < i < |h| ==> Le(h[Parent(i)], h[i])
  }

  lemma {:induction false} RootIsLeast<T>(h: seq<Entry<T>>, i: nat)
    requires IsHeap(h) && i < |h|
    ensures Le(h[0], h[i])
  {
    if i > 0 {
      RootIsLeast(h, Parent(i));
    }
  }

  function Swap<T>(h: seq<T>, i: nat, j: nat): (r: seq<T>)
    requires i < |h| && j < |h|
    ensures |r| == |h| && multiset(r) == multiset(h)
    ensures r[i] == h[j] && r[j] == h[i] && forall k :: 0 <= k < |h| && k != i && k != j ==> r[k] == h[k]
  {
    h[i := h[j]][j := h[i]]
  }

  /** Ordered except between i and its parent; the children of i are already below that parent. */
  ghost predicate HeapAbove<T>(h: seq<Entry<T>>, i: nat)
  {
    && i < |h|
    && (forall j :: 0 < j < |h| && j != i ==> Le(h[Parent(j)], h[j]))
    && (forall j :: 0 < j < |h| && Parent(j) == i && i > 0 ==> Le(h[Parent(i)], h[j]))
  }

  lemma RiseStep<T>(h: seq<Entry<T>>, i: nat)
    requires HeapAbove(h, i) && i > 0 && Le(h[i], h[Parent(i)])
    ensures HeapAbove(Swap(h, Parent(i), i), Parent(i))
  {
    var p := Parent(i);
    var r := Swap(h, p, i);
    forall j | 0 < j < |h| && j != p
      ensures Le(r[Parent(j)], r[j])
    {
      assert j != i ==> Le(h[Parent(j)], h[j]);
    }
    forall j | 0 < j < |h| && Parent(j) == p && p > 0
      ensures Le(r[Parent(p)], r[j])
    {
      assert Le(h[Parent(p)], h[p]) && (j != i ==> Le(h[p], h[j]));
    }
  }

  lemma RiseStop<T>(h: seq<Entry<T>>, i: nat)
    requires HeapAbove(h, i) && (i == 0 || Le(h[Parent(i)], h[i]))
    ensures IsHeap(h)
  {
  }

  /** `heappush`. */
  method Push<T>(h: seq<Entry<T>>, e: Entry<T>) returns (r: seq<Entry<T>>)
    requires IsHeap(h)
    ensures IsHeap(r) && multiset(r) == multiset(h) + multiset{e}
  {
    r := h + [e];
    var i: nat := |h|;
    assert HeapAbove(r, i);
    hide HeapAbove, IsHeap;
    while i > 0
      invariant i < |r| == |h| + 1 && HeapAbove(r, i) && multiset(r) == multiset(h) + multiset{e}
    {
      var p := Parent(i);
      if Le(r[p], r[i]) {
        break;
      }
      RiseStep(r, i);
      r := Swap(r, p, i);
      i := p;
    }
    RiseStop(r, i);
  }

  /** Ordered except between i and its children; those are already below the parent of i. */
  ghost predicate HeapBelow<T>(h: seq<Entry<T>>, i: nat)
  {
    && (forall j :: 0 < j < |h| && Parent(j) != i ==> Le(h[Parent(j)], h[j]))
    && (forall j :: 0 < j < |h| && Parent(j) == i && 0 < i < |h| ==> Le(h[Parent(i)], h[j]))
  }

  /** c is the smaller child of i. */
  ghost predicate LeastChild<T>(h: seq<Entry<T>>, i: nat, c: nat)
  {
    c < |h| && (c == 2 * i + 1 || c == 2 * i + 2) && forall j :: 0 < j < |h| && Parent(j) == i ==> Le(h[c], h[j])
  }

  lemma SinkStep<T>(h: seq<Entry<T>>, i: nat, c: nat)
    requires i < |h| && HeapBelow(h, i) && LeastChild(h, i, c) && Le(h[c], h[i])
    ensures HeapBelow(Swap(h, i, c), c)
  {
    var r := Swap(h, i, c);
    assert Parent(c) == i && c > i;
    forall j | 0 < j < |h| && Parent(j) != c
      ensures Le(r[Parent(j)], r[j])
    {
      if j == i {
        assert Le(h[Parent(i)], h[c]);
      }
    }
    forall j | 0 < j < |h| && Parent(j) == c
      ensures Le(r[Parent(c)], r[j])
    {
      assert j > c && Le(h[Parent(j)], h[j]);
    }
  }

  lemma SinkStop<T>(h: seq<Entry<T>>, i: nat)
    requires HeapBelow(h, i) && forall j :: 0 < j < |h| && Parent(j) == i ==> Le(h[i], h[j])
    ensures IsHeap(h)
  {
  }

  /** Restore the order below index 0 by moving the root down past its smaller child. */
  method SiftDown<T>(h: seq<Entry<T>>) returns (r: seq<Entry<T>>)
    requires h != [] && HeapBelow(h, 0)
    ensures IsHeap(r) && multiset(r) == multiset(h)
  {
    hide HeapBelow, IsHeap;
    r := h;
    var i: nat := 0;
    while 2 * i + 1 < |r|
      invariant i < |r| == |h| && HeapBelow(r, i) && multiset(r) == multiset(h)
      decreases |r| - i
    {
      var c := 2 * i + 1;
      if c + 1 < |r| && !Le(r[c], r[c + 1]) {
        c := c + 1;
      }
      assert forall j :: 0 < j < |r| && Parent(j) == i ==> j == 2 * i + 1 || j == 2 * i + 2;
      assert LeastChild(r, i, c);
      if Le(r[i], r[c]) {
        SinkStop(r, i);
        return;
      }
      SinkStep(r, i, c);
      r := Swap(r, i, c);
      i := c;
    }
    SinkStop(r, i);
  }

  /** `heappop`. */
  method Pop<T>(h: seq<Entry<T>>) returns (e: Entry<T>, r: seq<Entry<T>>)
    requires IsHeap(h) && h != []
    ensures e == h[0] && IsHeap(r) && multiset(h) == multiset(r) + multiset{e}
  {
    e := h[0];
    var last, front := h[|h| - 1], h[..|h| - 1];
    assert h == front + [last];
    if front == [] {
      return e, [];
    }
    assert front[0] == e;
    r := front[0 := last];
    assert multiset(h) == multiset(r) + multiset{e};
    assert forall j :: 0 < j < |r| ==> r[j] == h[j];
    r := SiftDown(r);
  }
}
