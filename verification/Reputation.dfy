/** The walk-forward source reputation of the reaction harness. A near-linear accumulator (a cursor,
    a min-heap of not-yet-observed outcomes and a running sum per source) computes, for every signal,
    the mean over exactly the same-source outcomes that were strictly prior and already observed. */
module Reputation {
  import opened Common
  import opened MinHeap

  datatype Signal = Signal(sourceId: string, blockTimeMs: int, slot: int, mint: string)

  /** `_ResolvedReaction`: a signal and its realized outcome. */
  datatype Resolved = Resolved(signal: Signal, resolvedMs: int, netPnlLamports: int, netPnlPerSol: real)

  datatype ReputationInput = ReputationInput(sourceId: string, signalMs: int, resolvedMs: int, netPnlPerSol: real)

  datatype LeakError = NotStrictlyPrior | NotYetObserved

  /** Mean net PnL per SOL (None is the neutral prior) and the number of outcomes behind it. */
  datatype Score = Score(mean: Option<real>, nPrior: nat)

  // ---------- the per-decision reference ----------

  /** `assert_reputation_inputs_prior`: the first leak, if any. */
  function AssertPrior(inputs: seq<ReputationInput>, decision: int): Result<(), LeakError>
  {
    if inputs == [] then Ok(())
    else if inputs[0].signalMs >= decision then Err(NotStrictlyPrior)
    else if inputs[0].resolvedMs > decision then Err(NotYetObserved)
    else AssertPrior(inputs[1..], decision)
  }

  function Total(inputs: seq<ReputationInput>): real
  {
    if inputs == [] then 0.0 else Total(inputs[..|inputs| - 1]) + inputs[|inputs| - 1].netPnlPerSol
  }

  /** `source_reputation`. */
  function SourceReputation(inputs: seq<ReputationInput>, decision: int): Result<Score, LeakError>
  {
    var _ :- AssertPrior(inputs, decision);
    Ok(MeanScore(Total(inputs), |inputs|))
  }

  function MeanScore(sum: real, n: nat): Score
  {
    if n == 0 then Score(None, 0) else Score(Some(sum / n as real), n)
  }

  function InputOf(r: Resolved): ReputationInput
  {
    ReputationInput(r.signal.sourceId, r.signal.blockTimeMs, r.resolvedMs, r.netPnlPerSol)
  }

  predicate Eligible(r: Resolved, source: string, decision: int)
  {
    r.signal.sourceId == source && r.signal.blockTimeMs < decision && r.resolvedMs <= decision
  }

  /** The same-source outcomes that were strictly prior to the decision and observed by it. */
  function PriorInputs(rs: seq<Resolved>, source: string, decision: int): seq<ReputationInput>
  {
    if rs == [] then []
    else
      var last := rs[|rs| - 1];
      PriorInputs(rs[..|rs| - 1], source, decision) + (if Eligible(last, source, decision) then [InputOf(last)] else [])
  }

  /** The reference: filter and average afresh for one decision. */
  function Reference(rs: seq<Resolved>, s: Signal): Score
  {
    var inputs := PriorInputs(rs, s.sourceId, s.blockTimeMs);
    MeanScore(Total(inputs), |inputs|)
  }

  /** The reference never trips the leak audit, so it is what `source_reputation` returns. */
  lemma ReferenceIsSourceReputation(rs: seq<Resolved>, s: Signal)
    ensures SourceReputation(PriorInputs(rs, s.sourceId, s.blockTimeMs), s.blockTimeMs) == Ok(Reference(rs, s))
  {
    PriorInputsArePrior(rs, s.sourceId, s.blockTimeMs);
    NoLeak(PriorInputs(rs, s.sourceId, s.blockTimeMs), s.blockTimeMs);
  }

  lemma {:induction false} PriorInputsArePrior(rs: seq<Resolved>, source: string, d: int)
    ensures forall i :: 0 <= i < |PriorInputs(rs, source, d)| ==>
              var x := PriorInputs(rs, source, d)[i]; x.sourceId == source && x.signalMs < d && x.resolvedMs <= d
  {
    if rs != [] {
      PriorInputsArePrior(rs[..|rs| - 1], source, d);
    }
  }

  lemma {:induction false} NoLeak(inputs: seq<ReputationInput>, d: int)
    requires forall i :: 0 <= i < |inputs| ==> inputs[i].signalMs < d && inputs[i].resolvedMs <= d
    ensures AssertPrior(inputs, d) == Ok(())
  {
    if inputs != [] {
      NoLeak(inputs[1..], d);
    }
  }

  /** The audit passes exactly when every input is strictly prior and already observed, and otherwise names
      what is wrong with the first that is not. */
  lemma {:induction false} AuditExactly(inputs: seq<ReputationInput>, d: int)
    ensures AssertPrior(inputs, d).Ok? <==> forall k :: 0 <= k < |inputs| ==> Prior(inputs[k], d)
    ensures AssertPrior(inputs, d).Err? ==>
              exists k :: 0 <= k < |inputs| && !Prior(inputs[k], d) &&
                          (forall j :: 0 <= j < k ==> Prior(inputs[j], d)) &&
                          (AssertPrior(inputs, d).error == NotStrictlyPrior <==> inputs[k].signalMs >= d)
  {
    if inputs != [] && Prior(inputs[0], d) {
      var tail := inputs[1..];
      AuditExactly(tail, d);
      assert forall k :: 1 <= k < |inputs| ==> inputs[k] == tail[k - 1];
      if AssertPrior(tail, d).Err? {
        var k :| 0 <= k < |tail| && !Prior(tail[k], d) && (forall j :: 0 <= j < k ==> Prior(tail[j], d)) &&
                 (AssertPrior(tail, d).error == NotStrictlyPrior <==> tail[k].signalMs >= d);
        assert inputs[k + 1] == tail[k];
      }
    }
  }

  predicate Prior(x: ReputationInput, d: int)
  {
    x.signalMs < d && x.resolvedMs <= d
  }

  // ---------- the reference is the mean of what was prior ----------

  /** The indices whose outcome is of the source, anchored before the decision and resolved by it. */
  function PriorIndices(rs: seq<Resolved>, source: string, d: int): set<nat>
  {
    set k: nat | k < |rs| && rs[k].signal.sourceId == source && rs[k].signal.blockTimeMs < d && rs[k].resolvedMs <= d
  }

  function PriorSum(rs: seq<Resolved>, source: string, d: int): real
  {
    if rs == [] then 0.0
    else
      var r := rs[|rs| - 1];
      PriorSum(rs[..|rs| - 1], source, d) +
      (if r.signal.sourceId == source && r.signal.blockTimeMs < d && r.resolvedMs <= d then r.netPnlPerSol else 0.0)
  }

  lemma {:induction false} PriorInputsCount(rs: seq<Resolved>, source: string, d: int)
    ensures |PriorInputs(rs, source, d)| == |PriorIndices(rs, source, d)|
  {
    if rs == [] {
      assert PriorIndices(rs, source, d) == {};
    } else {
      var n := |rs| - 1;
      PriorInputsCount(rs[..n], source, d);
      LastIndex(rs, source, d);
    }
  }

  lemma LastIndex(rs: seq<Resolved>, source: string, d: int)
    requires rs != []
    ensures var n := |rs| - 1;
            var small := PriorIndices(rs[..n], source, d);
            n !in small && PriorIndices(rs, source, d) == if Eligible(rs[n], source, d) then small + {n} else small
  {
  }

  lemma {:induction false} PriorInputsTotal(rs: seq<Resolved>, source: string, d: int)
    ensures Total(PriorInputs(rs, source, d)) == PriorSum(rs, source, d)
  {
    if rs != [] {
      var n := |rs| - 1;
      var xs := PriorInputs(rs[..n], source, d);
      PriorInputsTotal(rs[..n], source, d);
      assert (xs + [InputOf(rs[n])])[..|xs|] == xs && xs + [] == xs;
    }
  }

  /** The reference counts the prior outcomes and its mean times the count is their sum; there is no mean
      exactly when there is none. */
  lemma ReferenceIsMean(rs: seq<Resolved>, s: Signal)
    ensures var r, n := Reference(rs, s), |PriorIndices(rs, s.sourceId, s.blockTimeMs)|;
            r.nPrior == n && (r.mean.None? <==> n == 0) &&
            (n > 0 ==> r.mean.value * n as real == PriorSum(rs, s.sourceId, s.blockTimeMs))
  {
    hide PriorInputs, Total, PriorIndices, PriorSum;
    PriorInputsCount(rs, s.sourceId, s.blockTimeMs);
    PriorInputsTotal(rs, s.sourceId, s.blockTimeMs);
  }

  // ---------- weights: one sum for the PnL, one for the count ----------

  function Weight(x: ReputationInput, d: int, counting: bool): real
  {
    if x.resolvedMs > d then 0.0 else if counting then 1.0 else x.netPnlPerSol
  }

  type Heap = seq<Entry<ReputationInput>>

  ghost function Held(m: multiset<Entry<ReputationInput>>, d: int, counting: bool): real
  {
    if m == multiset{} then 0.0
    else
      var e :| e in m;
      Weight(e.item, d, counting) + Held(m - multiset{e}, d, counting)
  }

  lemma {:induction false} HeldAdd(m: multiset<Entry<ReputationInput>>, x: Entry<ReputationInput>, d: int,
                                   counting: bool)
    ensures Held(m + multiset{x}, d, counting) == Held(m, d, counting) + Weight(x.item, d, counting)
    decreases |m|
  {
    hide Held, Weight;
    var e := HeldPick(m + multiset{x}, d, counting);
    TakeFrom(m, x, e);
    if e != x {
      HeldAdd(m - multiset{e}, x, d, counting);
      HeldAdd(m - multiset{e}, e, d, counting);
    }
  }

  lemma TakeFrom<T>(m: multiset<T>, x: T, e: T)
    requires e in m + multiset{x}
    ensures e == x ==> m + multiset{x} - multiset{e} == m
    ensures e != x ==> m + multiset{x} - multiset{e} == m - multiset{e} + multiset{x}
    ensures e != x ==> m - multiset{e} + multiset{e} == m && |m - multiset{e}| < |m|
  {
    if e != x {
      assert m == m - multiset{e} + multiset{e};
    }
  }

  lemma HeldPick(m: multiset<Entry<ReputationInput>>, d: int, counting: bool) returns (e: Entry<ReputationInput>)
    requires m != multiset{}
    ensures e in m && |m - multiset{e}| < |m|
    ensures Held(m, d, counting) == Weight(e.item, d, counting) + Held(m - multiset{e}, d, counting)
  {
    e :| e in m && Held(m, d, counting) == Weight(e.item, d, counting) + Held(m - multiset{e}, d, counting);
    assert m == m - multiset{e} + multiset{e};
  }

  lemma {:induction false} HeldNone(m: multiset<Entry<ReputationInput>>, d: int, counting: bool)
    requires forall e :: e in m ==> e.item.resolvedMs > d
    ensures Held(m, d, counting) == 0.0
    decreases |m|
  {
    if m != multiset{} {
      var e := HeldPick(m, d, counting);
      HeldNone(m - multiset{e}, d, counting);
      assert Weight(e.item, d, counting) == 0.0;
    }
  }

  /** Over the first p outcomes of one source. */
  function PrefixSum(lst: seq<Resolved>, p: nat, d: int, counting: bool): real
    requires p <= |lst|
  {
    if p == 0 then 0.0 else PrefixSum(lst, p - 1, d, counting) + Weight(InputOf(lst[p - 1]), d, counting)
  }

  // ---------- one source ----------

  function BySource(rs: seq<Resolved>, source: string): seq<Resolved>
  {
    if rs == [] then []
    else
      var last := rs[|rs| - 1];
      BySource(rs[..|rs| - 1], source) + (if last.signal.sourceId == source then [last] else [])
  }

  predicate Sorted(rs: seq<Resolved>)
  {
    forall i, j :: 0 <= i < j < |rs| ==> rs[i].signal.blockTimeMs <= rs[j].signal.blockTimeMs
  }

  ghost predicate EntriesOk(h: Heap, last: int)
  {
    forall e :: e in multiset(h) ==> e.time == e.item.resolvedMs && e.item.signalMs < last
  }

  /** What is accumulated and what is pending together account for the admitted prefix, at every
      decision from `last` on. */
  ghost predicate Balanced(lst: seq<Resolved>, p: nat, h: Heap, sum: real, count: nat, last: int)
  {
    p <= |lst| &&
    forall d :: d >= last ==>
      sum + Held(multiset(h), d, false) == PrefixSum(lst, p, d, false) &&
      count as real + Held(multiset(h), d, true) == PrefixSum(lst, p, d, true)
  }

  /** The per-source state after the decision at `last`. */
  ghost predicate Tracks(lst: seq<Resolved>, p: nat, h: Heap, sum: real, count: nat, last: int)
  {
    && IsHeap(h) && EntriesOk(h, last) && Balanced(lst, p, h, sum, count, last)
    && (forall j :: p <= j < |lst| ==> lst[j].signal.blockTimeMs >= last)
  }

  lemma BalancedPush(lst: seq<Resolved>, p: nat, h: Heap, h': Heap, tick: nat, sum: real, count: nat, last: int)
    requires p < |lst| && Balanced(lst, p, h, sum, count, last)
    requires multiset(h') == multiset(h) + multiset{Entry(lst[p].resolvedMs, tick, InputOf(lst[p]))}
    ensures Balanced(lst, p + 1, h', sum, count, last)
  {
    var x := Entry(lst[p].resolvedMs, tick, InputOf(lst[p]));
    forall d | d >= last
      ensures sum + Held(multiset(h'), d, false) == PrefixSum(lst, p + 1, d, false)
      ensures count as real + Held(multiset(h'), d, true) == PrefixSum(lst, p + 1, d, true)
    {
      HeldAdd(multiset(h), x, d, false);
      HeldAdd(multiset(h), x, d, true);
    }
  }

  lemma BalancedPop(lst: seq<Resolved>, p: nat, h: Heap, h': Heap, e: Entry<ReputationInput>, sum: real, count: nat,
                    last: int)
    requires Balanced(lst, p, h, sum, count, last)
    requires multiset(h) == multiset(h') + multiset{e} && e.item.resolvedMs <= last
    ensures Balanced(lst, p, h', sum + e.item.netPnlPerSol, count + 1, last)
  {
    forall d | d >= last
      ensures sum + e.item.netPnlPerSol + Held(multiset(h'), d, false) == PrefixSum(lst, p, d, false)
      ensures (count + 1) as real + Held(multiset(h'), d, true) == PrefixSum(lst, p, d, true)
    {
      HeldAdd(multiset(h'), e, d, false);
      HeldAdd(multiset(h'), e, d, true);
    }
  }

  // ---------- what was pushed and popped ----------

  /** A push of the index-th outcome of a source. Its position in the log is the heap's tie-break tick. */
  datatype Pushed = Pushed(source: string, index: nat)

  /** No outcome is pushed twice, none is popped twice, and none is popped that was not pushed. */
  ghost predicate AtMostOnce(log: seq<Pushed>, popped: seq<Pushed>)
  {
    Distinct(log) && Distinct(popped) && forall x :: x in popped ==> x in log
  }

  predicate IsEntryOf(e: Entry<ReputationInput>, x: Pushed, source: string, lst: seq<Resolved>)
  {
    x.source == source && x.index < |lst| && e.item == InputOf(lst[x.index])
  }

  /** Every pending entry is a logged push of the source, pending once and not popped; a push that was not
      popped is pending. */
  ghost predicate PendingLogged(log: seq<Pushed>, popped: seq<Pushed>, source: string, lst: seq<Resolved>,
                                m: multiset<Entry<ReputationInput>>)
  {
    (forall e :: e in m ==> e.tick < |log| && log[e.tick] !in popped && IsEntryOf(e, log[e.tick], source, lst)) &&
    (forall e :: e in m ==> m[e] == 1) &&
    (forall e, f :: e in m && f in m && e.tick == f.tick ==> e == f) &&
    (forall x :: x in log && x.source == source ==> x in popped || Waits(log, x, m))
  }

  ghost predicate Waits(log: seq<Pushed>, x: Pushed, m: multiset<Entry<ReputationInput>>)
  {
    exists e :: e in m && e.tick < |log| && log[e.tick] == x
  }

  /** What was popped for the source was observed by d, and what is pending was not. */
  ghost predicate ObservedBy(popped: seq<Pushed>, source: string, lst: seq<Resolved>,
                             m: multiset<Entry<ReputationInput>>, d: int)
  {
    PoppedBy(popped, source, lst, d) && forall e :: e in m ==> e.item.resolvedMs > d
  }

  ghost predicate PoppedBy(popped: seq<Pushed>, source: string, lst: seq<Resolved>, d: int)
  {
    forall x :: x in popped && x.source == source ==> x.index < |lst| && lst[x.index].resolvedMs <= d
  }

  lemma LogPush(log: seq<Pushed>, popped: seq<Pushed>, x: Pushed, lst: seq<Resolved>,
                m: multiset<Entry<ReputationInput>>, e: Entry<ReputationInput>)
    requires AtMostOnce(log, popped) && PendingLogged(log, popped, x.source, lst, m) && x !in log
    requires e.tick == |log| && IsEntryOf(e, x, x.source, lst)
    ensures AtMostOnce(log + [x], popped) && PendingLogged(log + [x], popped, x.source, lst, m + multiset{e})
  {
    var log', m' := log + [x], m + multiset{e};
    assert e !in m && forall f :: f in m' <==> f in m || f == e;
    assert forall f :: f in m ==> log'[f.tick] == log[f.tick] && m'[f] == m[f];
    forall y | y in log' && y.source == x.source
      ensures y in popped || Waits(log', y, m')
    {
      if y == x {
        assert e in m' && log'[e.tick] == y;
      } else if y !in popped {
        WaitsOn(log, y, m, x, e);
      }
    }
  }

  lemma WaitsOn(log: seq<Pushed>, y: Pushed, m: multiset<Entry<ReputationInput>>, x: Pushed, e: Entry<ReputationInput>)
    requires Waits(log, y, m)
    ensures Waits(log + [x], y, m + multiset{e})
  {
    var f :| f in m && f.tick < |log| && log[f.tick] == y;
    assert f in m + multiset{e} && (log + [x])[f.tick] == y;
  }

  lemma LogPop(log: seq<Pushed>, popped: seq<Pushed>, source: string, lst: seq<Resolved>,
               m: multiset<Entry<ReputationInput>>, e: Entry<ReputationInput>)
    requires AtMostOnce(log, popped) && PendingLogged(log, popped, source, lst, m + multiset{e})
    ensures e.tick < |log| && log[e.tick].source == source
    ensures IsEntryOf(e, log[e.tick], source, lst)
    ensures AtMostOnce(log, popped + [log[e.tick]]) && PendingLogged(log, popped + [log[e.tick]], source, lst, m)
  {
    forall y | y in log && y.source == source
      ensures y in popped + [log[e.tick]] || Waits(log, y, m)
    {
      if y !in popped {
        assert Waits(log, y, m + multiset{e});
        var f :| f in m + multiset{e} && f.tick < |log| && log[f.tick] == y;
        assert f == e || f in m;
      }
    }
    var all := m + multiset{e};
    assert e in all && all[e] == m[e] + 1;
    assert forall f :: f in m ==> f in all && f != e && all[f] == m[f];
    forall f | f in m
      ensures log[f.tick] != log[e.tick]
    {
      assert f.tick != e.tick;
      if f.tick < e.tick {
        assert log[f.tick] != log[e.tick];
      } else {
        assert log[e.tick] != log[f.tick];
      }
    }
  }

  /** Another source's pushes and pops do not concern the pending entries of this one. */
  lemma LogOther(log: seq<Pushed>, popped: seq<Pushed>, log': seq<Pushed>, popped': seq<Pushed>, source: string,
                 lst: seq<Resolved>, m: multiset<Entry<ReputationInput>>, d: int)
    requires PendingLogged(log, popped, source, lst, m) && ObservedBy(popped, source, lst, m, d)
    requires log <= log' && popped <= popped'
    requires forall k :: |popped| <= k < |popped'| ==> popped'[k].source != source
    requires forall x: Pushed :: x.source == source ==> (x in log' <==> x in log)
    ensures PendingLogged(log', popped', source, lst, m)
    ensures ObservedBy(popped', source, lst, m, d)
  {
    forall x | x in log' && x.source == source
      ensures x in popped' || Waits(log', x, m)
    {
      if x in popped {
        var k :| 0 <= k < |popped| && popped[k] == x;
        assert popped'[k] == x;
      } else {
        assert Waits(log, x, m);
        var f :| f in m && f.tick < |log| && log[f.tick] == x;
        assert log'[f.tick] == x;
      }
    }
    forall x | x in popped' && x.source == source
      ensures x in popped
    {
      var k :| 0 <= k < |popped'| && popped'[k] == x;
      assert popped[k] == x;
    }
    forall e | e in m
      ensures e.tick < |log'| && log'[e.tick] == log[e.tick] && log'[e.tick] !in popped'
    {
      var x := log[e.tick];
      assert log'[e.tick] == x;
      assert forall k :: 0 <= k < |popped| ==> popped'[k] == popped[k] != x;
    }
  }

  /** Step 1: admit every strictly prior outcome into the heap, logging each push. */
  method Admit(lst: seq<Resolved>, start: nat, heap: Heap, tick0: nat, decision: int, ghost sum: real, ghost count: nat,
               ghost last: int, ghost source: string, ghost log0: seq<Pushed>, ghost popped: seq<Pushed>)
    returns (i: nat, h: Heap, tick: nat, ghost log: seq<Pushed>)
    requires Tracks(lst, start, heap, sum, count, last) && last <= decision && Sorted(lst)
    requires AtMostOnce(log0, popped) && PendingLogged(log0, popped, source, lst, multiset(heap)) && tick0 == |log0|
    requires forall k: nat :: Pushed(source, k) in log0 <==> k < start
    ensures start <= i <= |lst| && tick == |log|
    ensures IsHeap(h) && EntriesOk(h, decision) && Balanced(lst, i, h, sum, count, decision)
    ensures (forall j :: start <= j < i ==> lst[j].signal.blockTimeMs < decision)
    ensures forall j :: i <= j < |lst| ==> lst[j].signal.blockTimeMs >= decision
    ensures AtMostOnce(log, popped) && PendingLogged(log, popped, source, lst, multiset(h)) && log0 <= log
    ensures forall k: nat :: Pushed(source, k) in log <==> k < i
    ensures forall x: Pushed :: x.source != source ==> (x in log <==> x in log0)
  {
    hide Balanced, IsHeap, AtMostOnce, PendingLogged;
    BalancedLater(lst, start, heap, sum, count, last, decision);
    i, h, tick, log := start, heap, tick0, log0;
    while i < |lst| && lst[i].signal.blockTimeMs < decision
      invariant start <= i <= |lst| && tick == |log|
      invariant IsHeap(h) && EntriesOk(h, decision) && Balanced(lst, i, h, sum, count, decision)
      invariant forall j :: start <= j < i ==> lst[j].signal.blockTimeMs < decision
      invariant AtMostOnce(log, popped) && PendingLogged(log, popped, source, lst, multiset(h)) && log0 <= log
      invariant forall k: nat :: Pushed(source, k) in log <==> k < i
      invariant forall x: Pushed :: x.source != source ==> (x in log <==> x in log0)
    {
      var o := lst[i];
      ghost var before := h;
      ghost var x := Pushed(source, i);
      LogPush(log, popped, x, lst, multiset(h), Entry(o.resolvedMs, tick, InputOf(o)));
      h := Push(h, Entry(o.resolvedMs, tick, InputOf(o)));
      BalancedPush(lst, i, before, h, tick, sum, count, decision);
      log := log + [x];
      tick, i := tick + 1, i + 1;
    }
  }

  lemma BalancedLater(lst: seq<Resolved>, p: nat, h: Heap, sum: real, count: nat, last: int, decision: int)
    requires Balanced(lst, p, h, sum, count, last) && last <= decision
    ensures Balanced(lst, p, h, sum, count, decision)
  {
  }

  /** Step 2: release every observed outcome into the accumulator, re-asserting the leak guard. */
  method Release(lst: seq<Resolved>, p: nat, heap: Heap, sum0: real, count0: nat, decision: int,
                 ghost source: string, ghost log: seq<Pushed>, ghost popped0: seq<Pushed>)
    returns (h: Heap, sum: real, count: nat, audit: Result<(), LeakError>, ghost popped: seq<Pushed>)
    requires IsHeap(heap) && EntriesOk(heap, decision) && Balanced(lst, p, heap, sum0, count0, decision)
    requires AtMostOnce(log, popped0) && PendingLogged(log, popped0, source, lst, multiset(heap))
    requires PoppedBy(popped0, source, lst, decision)
    ensures audit.Ok?
    ensures IsHeap(h) && EntriesOk(h, decision) && Balanced(lst, p, h, sum, count, decision)
    ensures forall e :: e in multiset(h) ==> e.item.resolvedMs > decision
    ensures AtMostOnce(log, popped) && PendingLogged(log, popped, source, lst, multiset(h))
    ensures popped0 <= popped && forall k :: |popped0| <= k < |popped| ==> popped[k].source == source
    ensures count - count0 == |popped| - |popped0| && PoppedBy(popped, source, lst, decision)
  {
    hide Balanced, AtMostOnce, PendingLogged;
    h, sum, count, audit, popped := heap, sum0, count0, Ok(()), popped0;
    while h != [] && h[0].time <= decision
      invariant audit.Ok?
      invariant IsHeap(h) && EntriesOk(h, decision) && Balanced(lst, p, h, sum, count, decision)
      invariant AtMostOnce(log, popped) && PendingLogged(log, popped, source, lst, multiset(h))
      invariant popped0 <= popped && forall k :: |popped0| <= k < |popped| ==> popped[k].source == source
      invariant count - count0 == |popped| - |popped0| && PoppedBy(popped, source, lst, decision)
      decreases |h|
    {
      var e, h' := Pop(h);
      assert e in multiset(h);
      assert |multiset(h)| == |multiset(h')| + 1;
      audit := AssertPrior([e.item], decision);
      NoLeak([e.item], decision);
      BalancedPop(lst, p, h, h', e, sum, count, decision);
      LogPop(log, popped, source, lst, multiset(h'), e);
      popped := popped + [log[e.tick]];
      h, sum, count := h', sum + e.item.netPnlPerSol, count + 1;
    }
    forall e | e in multiset(h)
      ensures e.item.resolvedMs > decision
    {
      var i :| 0 <= i < |h| && h[i] == e;
      RootIsLeast(h, i);
    }
  }

  // ---------- the accumulator's answer is the reference's ----------

  /** Over all outcomes of a source, keeping only those strictly prior. */
  function FilteredSum(lst: seq<Resolved>, d: int, counting: bool): real
  {
    if lst == [] then 0.0
    else
      var last := lst[|lst| - 1];
      FilteredSum(lst[..|lst| - 1], d, counting) +
      (if last.signal.blockTimeMs < d then Weight(InputOf(last), d, counting) else 0.0)
  }

  lemma {:induction false} FilteredIsPrefix(lst: seq<Resolved>, p: nat, d: int, counting: bool)
    requires p <= |lst|
    requires forall j :: 0 <= j < p ==> lst[j].signal.blockTimeMs < d
    requires forall j :: p <= j < |lst| ==> lst[j].signal.blockTimeMs >= d
    ensures FilteredSum(lst, d, counting) == PrefixSum(lst, p, d, counting)
    decreases |lst|
  {
    if lst != [] {
      var front := lst[..|lst| - 1];
      var q := if p == |lst| then p - 1 else p;
      FilteredIsPrefix(front, q, d, counting);
      PrefixSumOfFront(lst, |lst| - 1, q, d, counting);
    }
  }

  lemma {:induction false} PrefixSumOfFront(lst: seq<Resolved>, n: nat, p: nat, d: int, counting: bool)
    requires p <= n <= |lst|
    ensures PrefixSum(lst[..n], p, d, counting) == PrefixSum(lst, p, d, counting)
  {
    if p > 0 {
      PrefixSumOfFront(lst, n, p - 1, d, counting);
    }
  }

  lemma {:induction false} PriorTotals(rs: seq<Resolved>, source: string, d: int)
    ensures Total(PriorInputs(rs, source, d)) == FilteredSum(BySource(rs, source), d, false)
    ensures |PriorInputs(rs, source, d)| as real == FilteredSum(BySource(rs, source), d, true)
  {
    if rs != [] {
      var front, last := rs[..|rs| - 1], rs[|rs| - 1];
      PriorTotals(front, source, d);
      var xs, ls := PriorInputs(front, source, d), BySource(front, source);
      if last.signal.sourceId == source {
        assert (ls + [last])[..|ls|] == ls;
        if Eligible(last, source, d) {
          assert (xs + [InputOf(last)])[..|xs|] == xs;
        } else {
          assert xs + [] == xs;
        }
      } else {
        assert ls + [] == ls && xs + [] == xs;
      }
    }
  }

  /** Balanced, with nothing observed left pending: the running mean is the reference mean. */
  lemma AnswerIsReference(rs: seq<Resolved>, s: Signal, p: nat, h: Heap, sum: real, count: nat)
    requires var lst := BySource(rs, s.sourceId);
             Balanced(lst, p, h, sum, count, s.blockTimeMs) &&
             (forall j :: 0 <= j < p ==> lst[j].signal.blockTimeMs < s.blockTimeMs) &&
             (forall j :: p <= j < |lst| ==> lst[j].signal.blockTimeMs >= s.blockTimeMs)
    requires forall e :: e in multiset(h) ==> e.item.resolvedMs > s.blockTimeMs
    ensures MeanScore(sum, count) == Reference(rs, s)
  {
    var lst, d := BySource(rs, s.sourceId), s.blockTimeMs;
    HeldNone(multiset(h), d, false);
    HeldNone(multiset(h), d, true);
    FilteredIsPrefix(lst, p, d, false);
    FilteredIsPrefix(lst, p, d, true);
    PriorTotals(rs, s.sourceId, d);
    assert count as real == |PriorInputs(rs, s.sourceId, d)| as real;
  }

  // ---------- all sources, interleaved ----------

  lemma {:induction false} BySourceSorted(rs: seq<Resolved>, source: string)
    requires Sorted(rs)
    ensures Sorted(BySource(rs, source))
    ensures forall r :: r in BySource(rs, source) ==> r in rs && r.signal.sourceId == source
  {
    if rs != [] {
      hide Sorted;
      var front, last := rs[..|rs| - 1], rs[|rs| - 1];
      SortedFront(rs);
      BySourceSorted(front, source);
      SortedAppend(BySource(front, source), last);
    }
  }

  lemma SortedFront(rs: seq<Resolved>)
    requires rs != [] && Sorted(rs)
    ensures Sorted(rs[..|rs| - 1])
    ensures forall r :: r in rs[..|rs| - 1] ==> r in rs && r.signal.blockTimeMs <= rs[|rs| - 1].signal.blockTimeMs
  {
  }

  lemma SortedAppend(rs: seq<Resolved>, last: Resolved)
    requires Sorted(rs) && forall r :: r in rs ==> r.signal.blockTimeMs <= last.signal.blockTimeMs
    ensures Sorted(rs + [last])
  {
    assert forall i :: 0 <= i < |rs| ==> rs[i] in rs;
  }

  lemma {:induction false} BySourceHas(rs: seq<Resolved>, k: nat)
    requires k < |rs|
    ensures rs[k] in BySource(rs, rs[k].signal.sourceId)
  {
    if k < |rs| - 1 {
      BySourceHas(rs[..|rs| - 1], k);
    }
  }

  ghost predicate Groups(rs: seq<Resolved>, bySource: map<string, seq<Resolved>>)
  {
    (forall k :: 0 <= k < |rs| ==> rs[k].signal.sourceId in bySource) &&
    (forall s :: s in bySource ==> bySource[s] == BySource(rs, s) && bySource[s] != [])
  }

  /** The `by_source` index of `build_reaction_outcomes`. */
  method IndexBySource(rs: seq<Resolved>) returns (bySource: map<string, seq<Resolved>>)
    ensures Groups(rs, bySource)
  {
    bySource := map[];
    assert Groups(rs[..0], bySource);
    hide Groups;
    for k := 0 to |rs|
      invariant Groups(rs[..k], bySource)
    {
      var r := rs[k];
      var s := r.signal.sourceId;
      var known := if s in bySource then bySource[s] else [];
      GroupsStep(rs[..k], bySource, r);
      assert rs[..k + 1] == rs[..k] + [r];
      bySource := bySource[s := known + [r]];
    }
    assert rs[..|rs|] == rs;
  }

  lemma GroupsStep(rs: seq<Resolved>, bySource: map<string, seq<Resolved>>, r: Resolved)
    requires Groups(rs, bySource)
    ensures var s := r.signal.sourceId;
            var known := if s in bySource then bySource[s] else [];
            Groups(rs + [r], bySource[s := known + [r]])
  {
    var s := r.signal.sourceId;
    var known := if s in bySource then bySource[s] else [];
    var next := bySource[s := known + [r]];
    NotIndexed(rs, bySource, s);
    forall x | x in next
      ensures next[x] == BySource(rs + [r], x) && next[x] != []
    {
      BySourceAppend(rs, r, x);
    }
    forall k | 0 <= k < |rs + [r]|
      ensures (rs + [r])[k].signal.sourceId in next
    {
      assert k < |rs| ==> (rs + [r])[k] == rs[k];
    }
  }

  lemma BySourceAppend(rs: seq<Resolved>, r: Resolved, s: string)
    ensures BySource(rs + [r], s) == if r.signal.sourceId == s then BySource(rs, s) + [r] else BySource(rs, s)
  {
    assert (rs + [r])[..|rs|] == rs;
  }

  lemma {:induction false} NotIndexed(rs: seq<Resolved>, bySource: map<string, seq<Resolved>>, s: string)
    requires Groups(rs, bySource)
    ensures BySource(rs, s) == if s in bySource then bySource[s] else []
  {
    if s !in bySource {
      AbsentSource(rs, s);
    }
  }

  lemma {:induction false} AbsentSource(rs: seq<Resolved>, s: string)
    requires forall k :: 0 <= k < |rs| ==> rs[k].signal.sourceId != s
    ensures BySource(rs, s) == []
  {
    if rs != [] {
      AbsentSource(rs[..|rs| - 1], s);
    }
  }

  /** The dictionaries keyed by source. */
  datatype State = State(
    ptr: map<string, nat>, pending: map<string, Heap>, accSum: map<string, real>, accCount: map<string, nat>)

  ghost predicate StateOk(bySource: map<string, seq<Resolved>>, st: State, last: map<string, int>)
  {
    && st.ptr.Keys == st.pending.Keys == st.accSum.Keys == st.accCount.Keys == last.Keys == bySource.Keys
    && forall s :: s in bySource ==>
         && Tracks(bySource[s], st.ptr[s], st.pending[s], st.accSum[s], st.accCount[s], last[s])
         && (forall j :: 0 <= j < st.ptr[s] ==> bySource[s][j].signal.blockTimeMs < last[s])
         && st.accCount[s] <= st.ptr[s]
  }

  lemma InitialTracks(lst: seq<Resolved>)
    requires Sorted(lst) && lst != []
    ensures Tracks(lst, 0, [], 0.0, 0, lst[0].signal.blockTimeMs)
  {
  }

  /** The logs and the state: exactly the outcomes before each source's cursor were pushed. */
  ghost predicate LogsOk(bySource: map<string, seq<Resolved>>, st: State, last: map<string, int>, log: seq<Pushed>,
                         popped: seq<Pushed>)
    requires st.ptr.Keys == st.pending.Keys == last.Keys == bySource.Keys
  {
    AtMostOnce(log, popped) && PushedBelow(log, st.ptr) && HeapsLogged(bySource, st.pending, last, log, popped)
  }

  ghost predicate PushedBelow(log: seq<Pushed>, ptr: map<string, nat>)
  {
    forall x: Pushed :: x in log <==> x.source in ptr && x.index < ptr[x.source]
  }

  ghost predicate HeapsLogged(bySource: map<string, seq<Resolved>>, pending: map<string, Heap>, last: map<string, int>,
                              log: seq<Pushed>, popped: seq<Pushed>)
    requires pending.Keys == last.Keys == bySource.Keys
  {
    forall s :: s in bySource ==> HeapLogged(log, popped, s, bySource[s], pending[s], last[s])
  }

  ghost predicate HeapLogged(log: seq<Pushed>, popped: seq<Pushed>, source: string, lst: seq<Resolved>, h: Heap, d: int)
  {
    PendingLogged(log, popped, source, lst, multiset(h)) && ObservedBy(popped, source, lst, multiset(h), d)
  }

  /** A decision for one source leaves the others untouched. */
  method Decide(bySource: map<string, seq<Resolved>>, st: State, ghost last: map<string, int>, s: Signal, tick0: nat,
                ghost rs: seq<Resolved>, ghost log0: seq<Pushed>, ghost popped0: seq<Pushed>)
    returns (st': State, tick: nat, score: Score, audit: Result<(), LeakError>, ghost log: seq<Pushed>,
             ghost popped: seq<Pushed>)
    requires Sorted(rs) && Groups(rs, bySource) && StateOk(bySource, st, last)
    requires s.sourceId in bySource && last[s.sourceId] <= s.blockTimeMs
    requires LogsOk(bySource, st, last, log0, popped0) && tick0 == |log0|
    ensures audit.Ok?
    ensures StateOk(bySource, st', last[s.sourceId := s.blockTimeMs])
    ensures score == Reference(rs, s)
    ensures LogsOk(bySource, st', last[s.sourceId := s.blockTimeMs], log, popped) && tick == |log|
  {
    hide Tracks, Balanced, Reference, IsHeap, Sorted, EntriesOk, AtMostOnce, PendingLogged, ObservedBy, PoppedBy;
    var src, d := s.sourceId, s.blockTimeMs;
    var lst := bySource[src];
    BySourceSorted(rs, src);
    assert HeapLogged(log0, popped0, src, lst, st.pending[src], last[src]);
    var i, h, t, log1 := Admit(lst, st.ptr[src], st.pending[src], tick0, d, st.accSum[src], st.accCount[src], last[src],
                               src, log0, popped0);
    tick, log := t, log1;
    PoppedLater(popped0, src, lst, multiset(st.pending[src]), last[src], d);
    var h', sum, count, a, popped1 := Release(lst, i, h, st.accSum[src], st.accCount[src], d, src, log, popped0);
    audit, popped := a, popped1;
    AnswerIsReference(rs, s, i, h', sum, count);
    CountWithinPrefix(lst, i, h', sum, count, d);
    TracksFrom(lst, i, h', sum, count, d);
    score := MeanScore(sum, count);
    StateStep(bySource, st, last, src, i, h', sum, count, d);
    hide StateOk;
    st' := State(st.ptr[src := i], st.pending[src := h'], st.accSum[src := sum], st.accCount[src := count]);
    ObservedNow(popped, src, lst, multiset(h'), d);
    LogsStep(bySource, st, st', last, src, d, log0, popped0, log, popped);
  }

  lemma PoppedLater(popped: seq<Pushed>, source: string, lst: seq<Resolved>, m: multiset<Entry<ReputationInput>>,
                    last: int, d: int)
    requires ObservedBy(popped, source, lst, m, last) && last <= d
    ensures PoppedBy(popped, source, lst, d)
  {
  }

  lemma ObservedNow(popped: seq<Pushed>, source: string, lst: seq<Resolved>, m: multiset<Entry<ReputationInput>>,
                    d: int)
    requires PoppedBy(popped, source, lst, d) && forall e :: e in m ==> e.item.resolvedMs > d
    ensures ObservedBy(popped, source, lst, m, d)
  {
  }

  lemma LogsStep(bySource: map<string, seq<Resolved>>, st: State, st': State, last: map<string, int>, src: string,
                 d: int, log0: seq<Pushed>, popped0: seq<Pushed>, log: seq<Pushed>, popped: seq<Pushed>)
    requires st.ptr.Keys == st.pending.Keys == last.Keys == bySource.Keys && src in bySource
    requires LogsOk(bySource, st, last, log0, popped0) && log0 <= log && popped0 <= popped && AtMostOnce(log, popped)
    requires src in st'.ptr && src in st'.pending
    requires st'.ptr == st.ptr[src := st'.ptr[src]] && st'.pending == st.pending[src := st'.pending[src]]
    requires HeapLogged(log, popped, src, bySource[src], st'.pending[src], d)
    requires forall k: nat :: Pushed(src, k) in log <==> k < st'.ptr[src]
    requires forall x: Pushed :: x.source != src ==> (x in log <==> x in log0)
    requires forall k :: |popped0| <= k < |popped| ==> popped[k].source == src
    ensures st'.ptr.Keys == st'.pending.Keys == last[src := d].Keys == bySource.Keys
    ensures LogsOk(bySource, st', last[src := d], log, popped)
  {
    hide AtMostOnce, HeapsLogged, PushedBelow;
    assert last[src := d].Keys == bySource.Keys;
    assert st'.ptr.Keys == bySource.Keys && st'.pending.Keys == bySource.Keys;
    PushedStep(st.ptr, src, st'.ptr[src], log0, log);
    HeapsStep(bySource, st.pending, last, src, st'.pending[src], d, log0, popped0, log, popped);
  }

  lemma PushedStep(ptr: map<string, nat>, src: string, p: nat, log0: seq<Pushed>, log: seq<Pushed>)
    requires PushedBelow(log0, ptr)
    requires forall k: nat :: Pushed(src, k) in log <==> k < p
    requires forall x: Pushed :: x.source != src ==> (x in log <==> x in log0)
    ensures PushedBelow(log, ptr[src := p])
  {
    forall x: Pushed
      ensures x in log <==> x.source in ptr[src := p] && x.index < ptr[src := p][x.source]
    {
      if x.source == src {
        assert x == Pushed(src, x.index);
      }
    }
  }

  lemma HeapsStep(bySource: map<string, seq<Resolved>>, pending: map<string, Heap>, last: map<string, int>, src: string,
                  h: Heap, d: int, log0: seq<Pushed>, popped0: seq<Pushed>, log: seq<Pushed>, popped: seq<Pushed>)
    requires pending.Keys == last.Keys == bySource.Keys && src in bySource
    requires HeapsLogged(bySource, pending, last, log0, popped0) && HeapLogged(log, popped, src, bySource[src], h, d)
    requires log0 <= log && popped0 <= popped
    requires forall x: Pushed :: x.source != src ==> (x in log <==> x in log0)
    requires forall k :: |popped0| <= k < |popped| ==> popped[k].source == src
    ensures pending[src := h].Keys == last[src := d].Keys == bySource.Keys
    ensures HeapsLogged(bySource, pending[src := h], last[src := d], log, popped)
  {
    hide PendingLogged, ObservedBy;
    var pending', last' := pending[src := h], last[src := d];
    assert pending'.Keys == bySource.Keys && last'.Keys == bySource.Keys;
    forall s | s in bySource
      ensures HeapLogged(log, popped, s, bySource[s], pending'[s], last'[s])
    {
      if s != src {
        assert HeapLogged(log0, popped0, s, bySource[s], pending[s], last[s]);
        LogOther(log0, popped0, log, popped, s, bySource[s], multiset(pending[s]), last[s]);
      }
    }
  }

  lemma StateStep(bySource: map<string, seq<Resolved>>, st: State, last: map<string, int>, src: string,
                  p: nat, h: Heap, sum: real, count: nat, d: int)
    requires StateOk(bySource, st, last) && src in bySource
    requires Tracks(bySource[src], p, h, sum, count, d) && count <= p <= |bySource[src]|
    requires forall j :: 0 <= j < p ==> bySource[src][j].signal.blockTimeMs < d
    ensures StateOk(bySource,
                    State(st.ptr[src := p], st.pending[src := h], st.accSum[src := sum], st.accCount[src := count]),
                    last[src := d])
  {
    hide Tracks;
  }

  lemma TracksFrom(lst: seq<Resolved>, p: nat, h: Heap, sum: real, count: nat, last: int)
    requires IsHeap(h) && EntriesOk(h, last) && Balanced(lst, p, h, sum, count, last)
    requires forall j :: p <= j < |lst| ==> lst[j].signal.blockTimeMs >= last
    ensures Tracks(lst, p, h, sum, count, last)
  {
  }

  lemma CountWithinPrefix(lst: seq<Resolved>, p: nat, h: Heap, sum: real, count: nat, d: int)
    requires Balanced(lst, p, h, sum, count, d)
    requires forall e :: e in multiset(h) ==> e.item.resolvedMs > d
    ensures p <= |lst| && count <= p
  {
    HeldNone(multiset(h), d, true);
    PrefixCountBound(lst, p, d);
    assert count as real <= p as real;
  }

  lemma {:induction false} PrefixCountBound(lst: seq<Resolved>, p: nat, d: int)
    requires p <= |lst|
    ensures PrefixSum(lst, p, d, true) <= p as real
  {
    if p > 0 {
      PrefixCountBound(lst, p - 1, d);
    }
  }

  /** The block time of the last decision of a source among rs, or `first` before any. */
  function LastAnchor(rs: seq<Resolved>, source: string, first: int): int
  {
    var lst := BySource(rs, source);
    if lst == [] then first else lst[|lst| - 1].signal.blockTimeMs
  }

  /** Strictly prior to the last decision of its source. */
  predicate EverPrior(lst: seq<Resolved>, k: nat)
  {
    k < |lst| && lst[k].signal.blockTimeMs < lst[|lst| - 1].signal.blockTimeMs
  }

  /** Pushed exactly when strictly prior to the last decision, popped exactly when also observed by then. */
  ghost predicate ExactLogs(bySource: map<string, seq<Resolved>>, pushed: seq<Pushed>, popped: seq<Pushed>)
  {
    (forall x: Pushed :: x in pushed <==> x.source in bySource && EverPrior(bySource[x.source], x.index)) &&
    forall x: Pushed ::
      x in popped <==> x in pushed && x.source in bySource && Observed(bySource[x.source], x.index)
  }

  /** Resolved by the last decision of its source. */
  predicate Observed(lst: seq<Resolved>, k: nat)
  {
    k < |lst| && lst[k].resolvedMs <= lst[|lst| - 1].signal.blockTimeMs
  }

  /** `_walk_forward_reputations`: every answer is the reference and the leak guard never fires. Over the
      whole run an outcome is pushed once if it is strictly prior to its source's last decision, popped
      once if it is also observed by then, and otherwise neither. */
  method WalkForward(rs: seq<Resolved>, bySource: map<string, seq<Resolved>>)
    returns (r: Result<seq<Score>, LeakError>, ticks: nat, ghost pushed: seq<Pushed>, ghost popped: seq<Pushed>)
    requires Sorted(rs) && Groups(rs, bySource)
    ensures r.Ok? && |r.value| == |rs|
    ensures forall k :: 0 <= k < |rs| ==> r.value[k] == Reference(rs, rs[k].signal)
    ensures Distinct(pushed) && Distinct(popped) && ticks == |pushed|
    ensures ExactLogs(bySource, pushed, popped)
  {
    hide StateOk, Reference, Sorted, Groups, LogsOk, LastAnchors, AnchorsAhead, ExactLogs;
    var st, last := InitialState(bySource, rs);
    SameKeys(bySource, st, last);
    NothingLogged(bySource, st, last);
    NoAnchors(bySource, last);
    assert rs[..0] == [];
    ticks, pushed, popped := 0, [], [];
    var out: seq<Score> := [];
    var leak: Result<(), LeakError> := Ok(());
    for k := 0 to |rs|
      invariant leak.Ok?
      invariant StateOk(bySource, st, last) && AnchorsAhead(rs, k, last)
      invariant st.ptr.Keys == st.pending.Keys == last.Keys == bySource.Keys
      invariant LastAnchors(rs[..k], bySource, last)
      invariant LogsOk(bySource, st, last, pushed, popped) && ticks == |pushed|
      invariant |out| == k && forall j :: 0 <= j < k ==> out[j] == Reference(rs, rs[j].signal)
    {
      var s := rs[k].signal;
      StateKeys(rs, bySource, st, last, k);
      var st', tick, score, audit, pushed', popped' := Decide(bySource, st, last, s, ticks, rs, pushed, popped);
      leak := audit;
      AnchorsStep(rs, k, last);
      LastAnchorsStep(rs, k, bySource, last);
      last := last[s.sourceId := s.blockTimeMs];
      st, ticks, out, pushed, popped := st', tick, out + [score], pushed', popped';
      SameKeys(bySource, st, last);
    }
    assert rs[..|rs|] == rs;
    LogsExact(rs, bySource, st, last, pushed, popped);
    r := match leak case Ok(_) => Ok(out) case Err(e) => Err(e);
  }

  /** `last` holds the last decision of every source, or its first outcome's time before any. */
  ghost predicate LastAnchors(rs: seq<Resolved>, bySource: map<string, seq<Resolved>>, last: map<string, int>)
  {
    last.Keys == bySource.Keys &&
    forall s :: s in bySource && BySource(rs, s) != [] ==> last[s] == LastAnchor(rs, s, 0)
  }

  lemma NoAnchors(bySource: map<string, seq<Resolved>>, last: map<string, int>)
    requires last.Keys == bySource.Keys
    ensures LastAnchors([], bySource, last)
  {
  }

  lemma LastAnchorsStep(rs: seq<Resolved>, k: nat, bySource: map<string, seq<Resolved>>, last: map<string, int>)
    requires k < |rs| && rs[k].signal.sourceId in bySource && LastAnchors(rs[..k], bySource, last)
    ensures LastAnchors(rs[..k + 1], bySource, last[rs[k].signal.sourceId := rs[k].signal.blockTimeMs])
  {
    hide BySource;
    var r := rs[k];
    assert rs[..k + 1] == rs[..k] + [r];
    forall s | s in bySource && BySource(rs[..k + 1], s) != []
      ensures last[r.signal.sourceId := r.signal.blockTimeMs][s] == LastAnchor(rs[..k + 1], s, 0)
    {
      BySourceAppend(rs[..k], r, s);
    }
  }

  lemma LogsExact(rs: seq<Resolved>, bySource: map<string, seq<Resolved>>, st: State, last: map<string, int>,
                  pushed: seq<Pushed>, popped: seq<Pushed>)
    requires Groups(rs, bySource) && StateOk(bySource, st, last)
    requires LogsOk(bySource, st, last, pushed, popped) && LastAnchors(rs, bySource, last)
    ensures Distinct(pushed) && Distinct(popped)
    ensures ExactLogs(bySource, pushed, popped)
  {
    hide PendingLogged, ObservedBy, Balanced, IsHeap, EntriesOk, BySource;
    forall x: Pushed
      ensures x in pushed <==> x.source in bySource && EverPrior(bySource[x.source], x.index)
      ensures x in popped <==> x in pushed && x.source in bySource && Observed(bySource[x.source], x.index)
    {
      OnlyPushed(pushed, popped, x);
      if x.source in bySource {
        var lst, d := bySource[x.source], last[x.source];
        assert HeapLogged(pushed, popped, x.source, lst, st.pending[x.source], d);
        assert d == lst[|lst| - 1].signal.blockTimeMs;
        PointerWithin(lst, st.ptr[x.source], st.pending[x.source], st.accSum[x.source], st.accCount[x.source], d);
        PoppedExactly(pushed, popped, x, lst, multiset(st.pending[x.source]), d);
      }
    }
  }

  lemma OnlyPushed(pushed: seq<Pushed>, popped: seq<Pushed>, x: Pushed)
    requires AtMostOnce(pushed, popped)
    ensures x in popped ==> x in pushed
  {
  }

  /** A logged push was popped exactly when its outcome was observed by d. */
  lemma PoppedExactly(pushed: seq<Pushed>, popped: seq<Pushed>, x: Pushed, lst: seq<Resolved>,
                      m: multiset<Entry<ReputationInput>>, d: int)
    requires PendingLogged(pushed, popped, x.source, lst, m) && ObservedBy(popped, x.source, lst, m, d)
    ensures x in pushed && x.index < |lst| ==> (x in popped <==> lst[x.index].resolvedMs <= d)
  {
    if x in pushed && x !in popped {
      assert Waits(pushed, x, m);
      var e :| e in m && e.tick < |pushed| && pushed[e.tick] == x;
      assert IsEntryOf(e, x, x.source, lst);
    }
  }

  lemma NothingLogged(bySource: map<string, seq<Resolved>>, st: State, last: map<string, int>)
    requires st.ptr.Keys == st.pending.Keys == last.Keys == bySource.Keys
    requires forall s :: s in bySource ==> st.ptr[s] == 0 && st.pending[s] == []
    ensures LogsOk(bySource, st, last, [], [])
  {
  }

  lemma SameKeys(bySource: map<string, seq<Resolved>>, st: State, last: map<string, int>)
    requires StateOk(bySource, st, last)
    ensures st.ptr.Keys == st.pending.Keys == last.Keys == bySource.Keys
  {
    hide Tracks;
  }

  /** Every decision still to come is no earlier than its source's last one. */
  ghost predicate AnchorsAhead(rs: seq<Resolved>, k: nat, last: map<string, int>)
  {
    forall j :: k <= j < |rs| ==>
                  rs[j].signal.sourceId in last && last[rs[j].signal.sourceId] <= rs[j].signal.blockTimeMs
  }

  lemma AnchorsStep(rs: seq<Resolved>, k: nat, last: map<string, int>)
    requires Sorted(rs) && k < |rs| && AnchorsAhead(rs, k, last)
    ensures AnchorsAhead(rs, k + 1, last[rs[k].signal.sourceId := rs[k].signal.blockTimeMs])
  {
  }

  lemma StateKeys(rs: seq<Resolved>, bySource: map<string, seq<Resolved>>, st: State, last: map<string, int>, k: nat)
    requires Groups(rs, bySource) && StateOk(bySource, st, last) && k < |rs| && AnchorsAhead(rs, k, last)
    ensures rs[k].signal.sourceId in bySource && last.Keys == bySource.Keys
    ensures last[rs[k].signal.sourceId] <= rs[k].signal.blockTimeMs
  {
    hide Tracks;
  }

  method InitialState(bySource: map<string, seq<Resolved>>, ghost rs: seq<Resolved>)
    returns (st: State, ghost last: map<string, int>)
    requires Sorted(rs) && Groups(rs, bySource)
    ensures StateOk(bySource, st, last) && AnchorsAhead(rs, 0, last)
    ensures forall s :: s in bySource ==> s in st.ptr && s in st.pending && st.ptr[s] == 0 && st.pending[s] == []
  {
    hide Tracks;
    st := State(map s | s in bySource :: 0, map s | s in bySource :: [],
                map s | s in bySource :: 0.0, map s | s in bySource :: 0);
    last := map s | s in bySource :: bySource[s][0].signal.blockTimeMs;
    forall s | s in bySource
      ensures Tracks(bySource[s], 0, [], 0.0, 0, last[s])
    {
      BySourceSorted(rs, s);
      InitialTracks(bySource[s]);
    }
    LastBelow(rs, bySource);
  }

  lemma PointerWithin(lst: seq<Resolved>, p: nat, h: Heap, sum: real, count: nat, last: int)
    requires Tracks(lst, p, h, sum, count, last)
    ensures p <= |lst|
  {
  }

  lemma LastBelow(rs: seq<Resolved>, bySource: map<string, seq<Resolved>>)
    requires Sorted(rs) && Groups(rs, bySource)
    ensures forall j :: 0 <= j < |rs| ==>
              bySource[rs[j].signal.sourceId][0].signal.blockTimeMs <= rs[j].signal.blockTimeMs
  {
    forall j | 0 <= j < |rs|
      ensures bySource[rs[j].signal.sourceId][0].signal.blockTimeMs <= rs[j].signal.blockTimeMs
    {
      var s := rs[j].signal.sourceId;
      BySourceHas(rs, j);
      BySourceSorted(rs, s);
      var i :| 0 <= i < |bySource[s]| && bySource[s][i] == rs[j];
    }
  }
}
