/** Pass 2 of `build_reaction_outcomes`: order the resolved signals on chain, score each by its
    walk-forward reputation, decide, and count. The main result is causality: a decision cannot
    depend on an outcome that was not observable when it was made. */
module ReactionHarness {
  import opened Common
  import opened Reputation
  import RealMath

  datatype Params = Params(minPriorSignals: int, neutralPriorSelects: bool, reputationThreshold: real)

  datatype Decision = Decision(modelSelected: bool, baselineSelected: bool, onNeutralPrior: bool, gateApplied: bool)

  datatype TradeOutcome = TradeOutcome(
    mint: string, decisionSlot: int, modelSelected: bool, baselineSelected: bool, netPnlLamports: int)

  datatype Stats = Stats(
    nRecords: nat, nResolved: nat, nCensored: nat, nModel: nat, nBaseline: nat, nNeutral: nat, nGated: nat,
      nDeclined: nat)

  // ---------- the decision ----------

  /** `decide_reaction_entry`: a short track record rides the neutral prior; a proven one is gated. */
  function DecideEntry(score: Score, p: Params): Decision
  {
    var neutral := score.nPrior < p.minPriorSignals;
    if neutral || score.mean.None? then Decision(p.neutralPriorSelects, true, neutral, false)
    else Decision(score.mean.value >= p.reputationThreshold, true, neutral, true)
  }

  // ---------- the on-chain order ----------

  predicate StringLess(a: string, b: string)
  {
    if b == [] then false
    else if a == [] then true
    else a[0] < b[0] || (a[0] == b[0] && StringLess(a[1..], b[1..]))
  }

  /** The sort key (block time, slot, mint). */
  predicate KeyLess(a: Signal, b: Signal)
  {
    a.blockTimeMs < b.blockTimeMs ||
    (a.blockTimeMs == b.blockTimeMs && (a.slot < b.slot || (a.slot == b.slot && StringLess(a.mint, b.mint))))
  }

  function Insert(r: Resolved, rs: seq<Resolved>): seq<Resolved>
  {
    if rs == [] then [r]
    else
      var front, last := rs[..|rs| - 1], rs[|rs| - 1];
      if KeyLess(r.signal, last.signal) then Insert(r, front) + [last] else rs + [r]
  }

  /** `resolved.sort(key=...)`: a stable sort by the signal's key alone. */
  function OnChainOrder(rs: seq<Resolved>): seq<Resolved>
  {
    if rs == [] then [] else Insert(rs[|rs| - 1], OnChainOrder(rs[..|rs| - 1]))
  }

  /** No signal precedes one with a smaller key. */
  ghost predicate InOrder(rs: seq<Resolved>)
  {
    forall i, j :: 0 <= i < j < |rs| ==> !KeyLess(rs[j].signal, rs[i].signal)
  }

  /** Lexicographic order: a proper prefix, or a smaller character at the first difference. */
  lemma {:induction false} StringLessExactly(a: string, b: string)
    ensures StringLess(a, b) <==>
            exists k: nat :: k <= |a| && k < |b| && a[..k] == b[..k] && (k == |a| || a[k] < b[k])
  {
    if b != [] && a == [] {
      assert a[..0] == b[..0];
    } else if b != [] {
      var x, y := a[1..], b[1..];
      StringLessExactly(x, y);
      if a[0] < b[0] {
        assert a[..0] == b[..0];
      }
      if a[0] == b[0] && StringLess(x, y) {
        var k: nat :| k <= |x| && k < |y| && x[..k] == y[..k] && (k == |x| || x[k] < y[k]);
        assert a[..k + 1] == [a[0]] + x[..k] && b[..k + 1] == [b[0]] + y[..k];
      }
      if k: nat :| k <= |a| && k < |b| && a[..k] == b[..k] && (k == |a| || a[k] < b[k]) {
        if k > 0 {
          assert a[0] == a[..k][0] == b[..k][0] == b[0];
          assert x[..k - 1] == a[..k][1..] && y[..k - 1] == b[..k][1..];
        }
      }
    }
  }

  lemma {:induction false} StringLessSplits(a: string, b: string, c: string)
    ensures StringLess(a, c) ==> StringLess(a, b) || StringLess(b, c)
    ensures !(StringLess(a, b) && StringLess(b, a))
  {
    if a != [] && b != [] {
      StringLessSplits(a[1..], b[1..], if c == [] then [] else c[1..]);
    }
  }

  lemma KeyLessSplits(a: Signal, b: Signal, c: Signal)
    ensures KeyLess(a, c) ==> KeyLess(a, b) || KeyLess(b, c)
    ensures !(KeyLess(a, b) && KeyLess(b, a))
  {
    hide StringLess;
    StringLessSplits(a.mint, b.mint, c.mint);
  }

  lemma {:induction false} InsertInOrder(r: Resolved, rs: seq<Resolved>)
    requires InOrder(rs)
    ensures InOrder(Insert(r, rs)) && multiset(Insert(r, rs)) == multiset(rs) + multiset{r}
  {
    hide KeyLess;
    if rs != [] {
      var front, last := rs[..|rs| - 1], rs[|rs| - 1];
      assert rs == front + [last];
      if KeyLess(r.signal, last.signal) {
        InsertInOrder(r, front);
        var ins := Insert(r, front);
        KeyLessSplits(r.signal, last.signal, r.signal);
        forall i | 0 <= i < |ins|
          ensures !KeyLess(last.signal, ins[i].signal)
        {
          assert ins[i] in multiset(ins);
          assert ins[i] in front || ins[i] == r;
        }
      } else {
        forall i | 0 <= i < |rs|
          ensures !KeyLess(r.signal, rs[i].signal)
        {
          KeyLessSplits(r.signal, last.signal, rs[i].signal);
        }
      }
    }
  }

  lemma {:induction false} OnChainOrderSorts(rs: seq<Resolved>)
    ensures InOrder(OnChainOrder(rs)) && Sorted(OnChainOrder(rs)) && multiset(OnChainOrder(rs)) == multiset(rs)
    ensures |OnChainOrder(rs)| == |rs|
  {
    if rs != [] {
      var front, last := rs[..|rs| - 1], rs[|rs| - 1];
      OnChainOrderSorts(front);
      InsertInOrder(last, OnChainOrder(front));
      assert rs == front + [last];
      assert |multiset(OnChainOrder(rs))| == |multiset(rs)|;
    }
  }

  /** Spelled out: by block time, within a block time by slot, within a slot by mint. */
  lemma OrderSpelledOut(rs: seq<Resolved>, i: nat, j: nat)
    requires i < j < |OnChainOrder(rs)|
    ensures var a, b := OnChainOrder(rs)[i].signal, OnChainOrder(rs)[j].signal;
            a.blockTimeMs <= b.blockTimeMs && (a.blockTimeMs == b.blockTimeMs ==> a.slot <= b.slot) &&
            (a.blockTimeMs == b.blockTimeMs && a.slot == b.slot ==> !StringLess(b.mint, a.mint))
  {
    hide OnChainOrder, StringLess;
    OnChainOrderSorts(rs);
  }

  // ---------- causality ----------

  /** Two runs over the same signals that agree on every outcome observed by time t in either. */
  ghost predicate SameUpTo(xs: seq<Resolved>, ys: seq<Resolved>, t: int)
  {
    |xs| == |ys| && forall i :: 0 <= i < |xs| ==> Agree(xs[i], ys[i], t)
  }

  predicate Agree(x: Resolved, y: Resolved, t: int)
  {
    x.signal == y.signal && (x == y || (x.resolvedMs > t && y.resolvedMs > t))
  }

  lemma {:induction false} InsertAligned(x: Resolved, xs: seq<Resolved>, y: Resolved, ys: seq<Resolved>, t: int)
    requires Agree(x, y, t) && SameUpTo(xs, ys, t)
    ensures SameUpTo(Insert(x, xs), Insert(y, ys), t)
  {
    if xs != [] {
      assert Agree(xs[|xs| - 1], ys[|ys| - 1], t);
      InsertAligned(x, xs[..|xs| - 1], y, ys[..|ys| - 1], t);
    }
  }

  lemma {:induction false} OrderAligned(xs: seq<Resolved>, ys: seq<Resolved>, t: int)
    requires SameUpTo(xs, ys, t)
    ensures SameUpTo(OnChainOrder(xs), OnChainOrder(ys), t)
  {
    if xs != [] {
      OrderAligned(xs[..|xs| - 1], ys[..|ys| - 1], t);
      InsertAligned(xs[|xs| - 1], OnChainOrder(xs[..|xs| - 1]), ys[|ys| - 1], OnChainOrder(ys[..|ys| - 1]), t);
    }
  }

  lemma {:induction false} PriorInputsAgree(xs: seq<Resolved>, ys: seq<Resolved>, t: int, source: string, d: int)
    requires SameUpTo(xs, ys, t) && d <= t
    ensures PriorInputs(xs, source, d) == PriorInputs(ys, source, d)
  {
    if xs != [] {
      assert Agree(xs[|xs| - 1], ys[|ys| - 1], t);
      PriorInputsAgree(xs[..|xs| - 1], ys[..|ys| - 1], t, source, d);
    }
  }

  /** The decision on the k-th signal in on-chain order, by the filter-and-mean reference. */
  function DecisionAt(rs: seq<Resolved>, p: Params, k: nat): Decision
    requires k < |OnChainOrder(rs)|
  {
    var sorted := OnChainOrder(rs);
    DecideEntry(Reference(sorted, sorted[k].signal), p)
  }

  /** A decision in terms of the outcomes themselves: with too few prior ones it is the neutral answer, and
      otherwise it selects exactly when their sum reaches the threshold times their number. */
  lemma DecisionExactly(rs: seq<Resolved>, p: Params, k: nat)
    requires k < |OnChainOrder(rs)|
    ensures var sorted, dec := OnChainOrder(rs), DecisionAt(rs, p, k);
            var s := sorted[k].signal;
            var n := |PriorIndices(sorted, s.sourceId, s.blockTimeMs)|;
            dec.baselineSelected && (dec.onNeutralPrior <==> n < p.minPriorSignals) &&
            (dec.gateApplied <==> n > 0 && n >= p.minPriorSignals) &&
            (dec.modelSelected <==>
             if n == 0 || n < p.minPriorSignals then p.neutralPriorSelects
             else PriorSum(sorted, s.sourceId, s.blockTimeMs) >= p.reputationThreshold * n as real)
  {
    hide OnChainOrder, PriorIndices, PriorSum, Reference;
    var sorted := OnChainOrder(rs);
    var s := sorted[k].signal;
    var r := Reference(sorted, s);
    ReferenceIsMean(sorted, s);
    if r.mean.Some? {
      SameSide(r.mean.value, p.reputationThreshold, r.nPrior as real);
    }
  }

  lemma SameSide(a: real, b: real, n: real)
    requires n > 0.0
    ensures a >= b <==> a * n >= b * n
  {
    RealMath.Signs(a - b, n);
    assert (a - b) * n == a * n - b * n;
  }

  /** Changing outcomes that are not observed by time t changes no decision anchored at or before t. */
  lemma Causality(xs: seq<Resolved>, ys: seq<Resolved>, p: Params, t: int, k: nat)
    requires SameUpTo(xs, ys, t) && k < |xs|
    ensures |OnChainOrder(xs)| == |OnChainOrder(ys)| == |xs|
    ensures OnChainOrder(xs)[k].signal == OnChainOrder(ys)[k].signal
    ensures OnChainOrder(xs)[k].signal.blockTimeMs <= t ==> DecisionAt(xs, p, k) == DecisionAt(ys, p, k)
  {
    OnChainOrderSorts(xs);
    OnChainOrderSorts(ys);
    OrderAligned(xs, ys, t);
    var s := OnChainOrder(xs)[k].signal;
    assert Agree(OnChainOrder(xs)[k], OnChainOrder(ys)[k], t);
    if s.blockTimeMs <= t {
      PriorInputsAgree(OnChainOrder(xs), OnChainOrder(ys), t, s.sourceId, s.blockTimeMs);
    }
  }

  // ---------- the harness ----------

  function OutcomeAt(rs: seq<Resolved>, p: Params, k: nat): TradeOutcome
    requires k < |OnChainOrder(rs)|
  {
    var r, dec := OnChainOrder(rs)[k], DecisionAt(rs, p, k);
    TradeOutcome(r.signal.mint, r.signal.slot, dec.modelSelected, dec.baselineSelected, r.netPnlLamports)
  }

  predicate IsOutcomeOf(o: TradeOutcome, r: Resolved)
  {
    o.mint == r.signal.mint && o.decisionSlot == r.signal.slot && o.netPnlLamports == r.netPnlLamports
  }

  function ResolvedOnly(records: seq<Result<Resolved, string>>): seq<Resolved>
  {
    if records == [] then []
    else
      var last := records[|records| - 1];
      ResolvedOnly(records[..|records| - 1]) + (if last.Ok? then [last.value] else [])
  }

  /** Nothing is kept of an unresolved record, and a resolved one is kept as it is. */
  lemma ResolvedOne(r: Resolved, e: string)
    ensures ResolvedOnly([Ok(r)]) == [r] && ResolvedOnly([Err(e)]) == []
  {
    var nothing: seq<Result<Resolved, string>> := [];
    assert ResolvedOnly(nothing) == [];
    assert [Ok(r)][..0] == nothing && [Err(e)][..0] == nothing;
  }

  /** What is kept of a run of records is what is kept of its parts, one after the other. */
  lemma {:induction false} ResolvedInOrder(a: seq<Result<Resolved, string>>, b: seq<Result<Resolved, string>>)
    ensures ResolvedOnly(a + b) == ResolvedOnly(a) + ResolvedOnly(b)
  {
    if b == [] {
      assert a + b == a;
    } else {
      var front, last := b[..|b| - 1], b[|b| - 1];
      ResolvedInOrder(a, front);
      assert (a + b)[..|a + b| - 1] == a + front && (a + b)[|a + b| - 1] == last;
    }
  }

  // ---------- the counters ----------

  predicate Chosen(d: Decision)
  {
    d.modelSelected
  }

  predicate Neutral(d: Decision)
  {
    d.onNeutralPrior
  }

  predicate Gated(d: Decision)
  {
    d.gateApplied
  }

  /** How many of the first n decisions are of a kind. */
  function Tally(rs: seq<Resolved>, p: Params, n: nat, kind: Decision -> bool): (c: nat)
    requires n <= |OnChainOrder(rs)|
    ensures c <= n
  {
    if n == 0 then 0 else Tally(rs, p, n - 1, kind) + (if kind(DecisionAt(rs, p, n - 1)) then 1 else 0)
  }

  function OfKind(rs: seq<Resolved>, p: Params, n: nat, kind: Decision -> bool): set<nat>
    requires n <= |OnChainOrder(rs)|
  {
    set k: nat | k < n && kind(DecisionAt(rs, p, k))
  }

  lemma {:induction false} TallyCounts(rs: seq<Resolved>, p: Params, n: nat, kind: Decision -> bool)
    requires n <= |OnChainOrder(rs)|
    ensures Tally(rs, p, n, kind) == |OfKind(rs, p, n, kind)|
  {
    hide OnChainOrder, DecisionAt;
    if n == 0 {
      assert OfKind(rs, p, n, kind) == {};
    } else {
      TallyCounts(rs, p, n - 1, kind);
      var fewer := OfKind(rs, p, n - 1, kind);
      assert n - 1 !in fewer;
      assert OfKind(rs, p, n, kind) == fewer + (if kind(DecisionAt(rs, p, n - 1)) then {n - 1} else {});
    }
  }

  /** Pass 1 keeps the records that resolve and censors the rest. */
  method ResolveAll(records: seq<Result<Resolved, string>>) returns (resolved: seq<Resolved>, nCensored: nat)
    ensures resolved == ResolvedOnly(records) && |resolved| + nCensored == |records|
  {
    resolved, nCensored := [], 0;
    for i := 0 to |records|
      invariant resolved == ResolvedOnly(records[..i]) && |resolved| + nCensored == i
    {
      assert records[..i + 1][..i] == records[..i];
      match records[i]
      case Ok(r) => resolved := resolved + [r];
      case Err(_) => nCensored := nCensored + 1;
    }
    assert records[..|records|] == records;
  }

  /** `build_reaction_outcomes`, over records whose pass-1 resolution is given. */
  method BuildReactionOutcomes(records: seq<Result<Resolved, string>>, p: Params)
    returns (outcomes: seq<TradeOutcome>, stats: Stats)
    ensures var rs := ResolvedOnly(records);
            |outcomes| == |OnChainOrder(rs)| == |rs| &&
            (forall k :: 0 <= k < |outcomes| ==> outcomes[k] == OutcomeAt(rs, p, k)) &&
            forall k :: 0 <= k < |outcomes| ==> IsOutcomeOf(outcomes[k], OnChainOrder(rs)[k])
    ensures stats.nResolved == |outcomes| && stats.nResolved + stats.nCensored == stats.nRecords == |records|
    ensures stats.nBaseline == stats.nResolved == stats.nModel + stats.nDeclined
    ensures var rs := ResolvedOnly(records);
            stats.nModel == Tally(rs, p, |OnChainOrder(rs)|, Chosen) &&
            stats.nNeutral == Tally(rs, p, |OnChainOrder(rs)|, Neutral) &&
            stats.nGated == Tally(rs, p, |OnChainOrder(rs)|, Gated)
    ensures p.minPriorSignals >= 1 ==> stats.nNeutral + stats.nGated == stats.nResolved
    ensures stats.nGated == 0 ==> forall k :: 0 <= k < |outcomes| ==> outcomes[k].modelSelected == p.neutralPriorSelects
  {
    hide OnChainOrder, Reference, Sorted, Groups;
    var rs, nCensored := ResolveAll(records);
    OnChainOrderSorts(rs);
    var sorted := OnChainOrder(rs);
    var bySource := IndexBySource(sorted);
    var scores, ticks, pushed, popped := WalkForward(sorted, bySource);
    outcomes := [];
    var nModel, nBaseline, nNeutral, nGated, nDeclined := 0, 0, 0, 0, 0;
    for k := 0 to |sorted|
      invariant |outcomes| == k && forall j :: 0 <= j < k ==> outcomes[j] == OutcomeAt(rs, p, j)
      invariant nBaseline == k == nModel + nDeclined && nModel >= 0 && nDeclined >= 0 && nNeutral >= 0 && nGated >= 0
      invariant nModel == Tally(rs, p, k, Chosen) && nNeutral == Tally(rs, p, k, Neutral) &&
                nGated == Tally(rs, p, k, Gated)
      invariant p.minPriorSignals >= 1 ==> nNeutral + nGated == k
      invariant nGated == 0 ==> forall j :: 0 <= j < k ==> outcomes[j].modelSelected == p.neutralPriorSelects
    {
      var r := sorted[k];
      var dec := DecideEntry(scores.value[k], p);
      EmptyMeansNone(sorted, r.signal);
      outcomes := outcomes + [TradeOutcome(r.signal.mint, r.signal.slot, dec.modelSelected, dec.baselineSelected,
                                           r.netPnlLamports)];
      nModel := nModel + if dec.modelSelected then 1 else 0;
      nBaseline := nBaseline + if dec.baselineSelected then 1 else 0;
      nNeutral := nNeutral + if dec.onNeutralPrior then 1 else 0;
      nGated := nGated + if dec.gateApplied then 1 else 0;
      nDeclined := nDeclined + if dec.baselineSelected && !dec.modelSelected then 1 else 0;
    }
    stats := Stats(|records|, |outcomes|, nCensored, nModel, nBaseline, nNeutral, nGated, nDeclined);
  }

  lemma EmptyMeansNone(rs: seq<Resolved>, s: Signal)
    ensures Reference(rs, s).mean.None? <==> Reference(rs, s).nPrior == 0
  {
  }
}
