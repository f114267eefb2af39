/** What every step of the controller keeps, and what follows over whole runs. */
module ControllerRuns {
  import opened Common
  import opened ControllerState
  import opened PositionFsm
  import opened Controller

  ghost predicate Inv(s: State)
  {
    Canonical(s) && forall m :: CellInv(Get(s, m))
  }

  /** No terminal record is in the store. */
  ghost predicate LiveStore(s: State)
  {
    forall m :: Live(Get(s, m))
  }

  /** From s to t no mint enters the store and no stored exposure changes. */
  ghost predicate Derisked(s: State, t: State)
  {
    forall m :: Derisks(Get(s, m), Get(t, m))
  }

  ghost predicate KeepsAll(s: State, t: State)
  {
    Inv(t) && Derisked(s, t)
  }

  /** Coherence in the store's and registry's own terms. */
  lemma InvMeans(s: State, m: Mint)
    requires Inv(s)
    ensures m in s.positions && m in s.registry ==> s.positions[m] == s.registry[m]
    ensures m in s.registry && m !in s.positions ==> Terminal(s.registry[m].state)
    ensures m in s.registry && s.registry[m].state == Open ==> m in s.exits
    ensures LegalHistory(Past(s.history, m))
    ensures m in s.positions ==> s.positions[m].solIn > 0
  {
    assert CellInv(Get(s, m));
  }

  lemma DeriskedAggregate(s: State, t: State)
    requires Inv(s) && Derisked(s, t)
    ensures t.positions.Keys <= s.positions.Keys && Aggregate(t.positions) <= Aggregate(s.positions)
  {
    forall m | m in t.positions
      ensures m in s.positions && t.positions[m].solIn <= s.positions[m].solIn
    {
      assert Derisks(Get(s, m), Get(t, m));
    }
    forall m | m in s.positions
      ensures s.positions[m].solIn >= 0
    {
      InvMeans(s, m);
    }
    AggregateMonotone(s.positions, t.positions);
  }

  lemma DeriskedTrans(s: State, t: State, u: State)
    requires Derisked(s, t) && Derisked(t, u)
    ensures Derisked(s, u)
  {
    forall m
      ensures Derisks(Get(s, m), Get(u, m))
    {
      assert Derisks(Get(s, m), Get(t, m)) && Derisks(Get(t, m), Get(u, m));
    }
  }

  // ---------- whole-book operations ----------

  lemma FlattenAllKeeps(s: State, lands: set<Mint>)
    requires Inv(s)
    ensures KeepsAll(s, FlattenAll(s, lands)) && (LiveStore(s) ==> LiveStore(FlattenAll(s, lands)))
  {
    hide CellInv, FlattenCell, FlattenAll, Live, Derisks, Canonical, Get;
    FlattenAllGet(s, lands, "");
    forall m
      ensures Keeps(Get(s, m), Get(FlattenAll(s, lands), m))
      ensures Live(Get(s, m)) ==> Live(Get(FlattenAll(s, lands), m))
    {
      FlattenAllGet(s, lands, m);
      FlattenKeeps(Get(s, m), m in lands);
    }
  }

  lemma SyncAllKeeps(s: State)
    requires Inv(s)
    ensures KeepsAll(s, SyncAll(s)) && (LiveStore(s) ==> LiveStore(SyncAll(s)))
  {
    hide CellInv, SyncCell, SyncAll, Live, Derisks, Canonical, Get;
    SyncAllGet(s, "");
    forall m
      ensures Keeps(Get(s, m), Get(SyncAll(s), m))
      ensures Live(Get(s, m)) ==> Live(Get(SyncAll(s), m))
    {
      SyncAllGet(s, m);
      SyncKeeps(Get(s, m));
    }
  }

  /** No stored ENTERING record is older than the time limit. */
  ghost predicate NoneTimedOut(s: State, slot: int, ttl: int)
  {
    forall m :: Get(s, m).stored.Some? ==> InTime(Get(s, m).stored.value, slot, ttl)
  }

  /** ENTERING for at most the limit, at 400 ms a slot. */
  predicate InTime(p: Position, slot: int, ttl: int)
  {
    p.state == Entering ==> slot - p.entrySlot <= ttl * 1000 / 400
  }

  lemma ContinuousAllKeeps(s: State, slot: int, ttl: int, until: Mint -> int)
    requires Inv(s)
    ensures var t := ContinuousAll(s, slot, ttl, until);
            KeepsAll(s, t) && (LiveStore(s) ==> LiveStore(t)) && NoneTimedOut(t, slot, ttl)
  {
    hide CellInv, ContinuousCell, ContinuousAll, Live, Derisks, Canonical, Get;
    var t := ContinuousAll(s, slot, ttl, until);
    ContinuousAllGet(s, slot, ttl, until, "");
    forall m
      ensures Keeps(Get(s, m), Get(t, m))
      ensures Live(Get(s, m)) ==> Live(Get(t, m))
      ensures Get(t, m).stored.Some? ==> InTime(Get(t, m).stored.value, slot, ttl)
    {
      ContinuousAllGet(s, slot, ttl, until, m);
      ContinuousKeeps(Get(s, m), slot, ttl, until(m));
    }
  }

  /** A cell replaced by one that keeps it. */
  lemma PutKeeps(s: State, m: Mint, c: Cell)
    requires Inv(s) && Keeps(Get(s, m), c)
    ensures KeepsAll(s, Put(s, m, c))
    ensures LiveStore(s) ==> (LiveStore(Put(s, m, c)) <==> Live(c))
  {
    hide CellInv, Derisks, Get, Put, Live, Canonical;
    var t := Put(s, m, c);
    GetPut(s, m, c, m);
    forall k
      ensures Get(t, k) == if k == m then c else Get(s, k)
      ensures CellInv(Get(t, k)) && Derisks(Get(s, k), Get(t, k))
      ensures LiveStore(s) && k != m ==> Live(Get(t, k))
    {
      GetPut(s, m, c, k);
      DerisksSelf(Get(s, k));
    }
    assert Live(Get(t, m)) <==> Live(c);
  }

  lemma DerisksSelf(c: Cell)
    ensures Derisks(c, c)
  {
  }

  // ---------- ticks ----------

  /** The breaker trips while m is evaluated. */
  predicate Trips(c: Cell, v: Evaluation)
  {
    v.priced && c.tracked.Some? && c.tracked.value.tokensOut > 0 && v.trip.Some?
  }

  lemma SetTripped(s: State, b: bool, m: Mint)
    ensures Get(s.(tripped := b), m) == Get(s, m) && (Canonical(s) ==> Canonical(s.(tripped := b)))
  {
  }

  /** Only a priced OPEN position with tokens reports to the breaker: there the breaker's new answer stands,
      tripped or released, and nothing else of the process changes. */
  lemma BreakerExactly(s: State, m: Mint, v: Evaluation)
    requires Inv(s)
    ensures var t, p := Evaluate(s, m, v), Get(s, m).tracked;
            (t.seen, t.killed, t.started) == (s.seen, s.killed, s.started) &&
            t.tripped ==
            if p.Some? && p.value.state == Open && p.value.tokensOut > 0 && v.marked && v.priced then v.tripped
            else s.tripped
  {
    hide Get, Put, Marked, Decided, ExitCell;
    assert CellInv(Get(s, m));
    GetPut(s, m, ExitCell(Get(s, m), v.until), m);
    MarkedGlobals(s, m, v);
    DecidedGlobals(Marked(s, m, v), m, v);
  }

  lemma MarkedGlobals(s: State, m: Mint, v: Evaluation)
    ensures var t, p := Marked(s, m, v), Get(s, m).tracked;
            (t.seen, t.killed, t.started) == (s.seen, s.killed, s.started) &&
            t.tripped == if p.Some? && p.value.tokensOut > 0 && v.priced then v.tripped else s.tripped
  {
    hide Get, Put, FlattenAll, MarkCell, Canonical;
    var s1 := Put(s, m, MarkCell(Get(s, m), v.unrealized));
    GetPut(s, m, MarkCell(Get(s, m), v.unrealized), m);
    TripGlobals(s1, v.trip);
  }

  lemma TripGlobals(s: State, trip: Option<set<Mint>>)
    ensures Globals(if trip.Some? then FlattenAll(s, trip.value) else s) == Globals(s)
  {
    hide Get, FlattenAll, Canonical;
    if trip.Some? {
      FlattenAllGet(s, trip.value, "");
    }
  }

  lemma DecidedGlobals(s: State, m: Mint, v: Evaluation)
    ensures Globals(Decided(s, m, v)) == Globals(s)
  {
    hide Get, Put, ExitCell, TpHitCell, Canonical;
    GetPut(s, m, ExitCell(Get(s, m), v.until), m);
    GetPut(s, m, TpHitCell(Get(s, m)), m);
  }

  /** Marking may flatten the whole book; the mint under evaluation stays registered. */
  lemma MarkedKeeps(s: State, m: Mint, v: Evaluation)
    requires Inv(s) && Get(s, m).tracked.Some? && Get(s, m).tracked.value.state == Open
    ensures var t := Marked(s, m, v);
            KeepsAll(s, t) && (LiveStore(s) ==> LiveStore(t)) && Get(s, m).stored == Get(s, m).tracked &&
            var d := Get(t, m);
            d.tracked.Some? && SameEntry(Get(s, m).stored.value, d.tracked.value) &&
            d.tracked.value.state ==
            if !Trips(Get(s, m), v) then Open else if m in v.trip.value then Closed else Closing
  {
    hide Get, Put, FlattenAll, FlattenCell, Derisks, Canonical;
    var c := Get(s, m);
    assert CellInv(c);
    forall k
      ensures Derisks(Get(s, k), Get(s, k))
    {
      DerisksSelf(Get(s, k));
    }
    if v.priced && c.tracked.value.tokensOut > 0 {
      var marked := MarkCell(c, v.unrealized);
      MarkKeeps(c, v.unrealized);
      PutKeeps(s, m, marked);
      GetPut(s, m, marked, m);
      var s1 := Put(s, m, marked);
      var s2 := if v.trip.Some? then FlattenAll(s1, v.trip.value) else s1;
      if v.trip.Some? {
        FlattenAllKeeps(s1, v.trip.value);
        FlattenAllGet(s1, v.trip.value, m);
        FlattenKeeps(marked, m in v.trip.value);
        DeriskedTrans(s, s1, s2);
      }
      TrippedKeeps(s, s2, v.tripped);
      SetTripped(s2, v.tripped, m);
    }
  }

  lemma TrippedKeeps(s: State, t: State, b: bool)
    requires KeepsAll(s, t)
    ensures KeepsAll(s, t.(tripped := b)) && (LiveStore(t) ==> LiveStore(t.(tripped := b)))
  {
    hide Get, CellInv, Derisks, Live, Canonical;
    SetTripped(t, b, "");
    forall m
      ensures Get(t.(tripped := b), m) == Get(t, m)
    {
      SetTripped(t, b, m);
    }
  }

  /** The one way a tick leaves a terminal record behind: the breaker trips on the profit event of a
      mint, the emergency exit of that same mint lands, and the engine then scales it out. */
  predicate Resurrects(c: Cell, m: Mint, v: Evaluation)
  {
    c.tracked.Some? && c.tracked.value.state == Open && v.marked && Trips(c, v) && m in v.trip.value &&
    v.decision == ScaleOut
  }

  /** Evaluating one mint keeps the invariant and never adds exposure, even when the breaker flattens
      the book in the middle of it. The store stays free of terminal records exactly when the
      evaluation does not resurrect one. */
  lemma EvaluateKeeps(s: State, m: Mint, v: Evaluation)
    requires Inv(s)
    ensures KeepsAll(s, Evaluate(s, m, v))
    ensures LiveStore(s) ==> (LiveStore(Evaluate(s, m, v)) <==> !Resurrects(Get(s, m), m, v))
  {
    hide Get, Put, Marked, Derisks, Canonical, LegalHistory, Live;
    var c := Get(s, m);
    assert CellInv(c);
    forall k
      ensures Derisks(Get(s, k), Get(s, k))
    {
      DerisksSelf(Get(s, k));
    }
    if c.tracked.Some? && c.tracked.value.state == Open {
      ExitKeeps(c, v.until);
      if !v.marked {
        PutKeepsLive(s, m, ExitCell(c, v.until));
      } else {
        MarkedKeeps(s, m, v);
        DecidedKeeps(s, Marked(s, m, v), m, v);
      }
    }
  }

  /** What the evaluation of an open mint does when the breaker does not trip: without a price, or on a full
      exit, the position is closed, forgotten and cooled down; otherwise it stays open, marked, with one
      more rung on a scale-out. No other mint is touched. */
  lemma EvaluateDoes(s: State, m: Mint, v: Evaluation)
    requires Inv(s) && Get(s, m).tracked.Some? && Get(s, m).tracked.value.state == Open && !Trips(Get(s, m), v)
    ensures forall k :: k != m ==> Get(Evaluate(s, m, v), k) == Get(s, k)
    ensures var d, p := Get(Evaluate(s, m, v), m), Get(s, m).tracked.value;
            if !v.marked || v.decision == FullExit then
              d.stored == None && d.tracked == None && !d.exit && d.cooldown == Some(v.until) &&
              |d.history| >= 2 && d.history[|d.history| - 2..] == [Closing, Closed]
            else
              d.stored == d.tracked == Some(
                p.(unrealized := if v.priced && p.tokensOut > 0 then v.unrealized else p.unrealized,
                   tpHit := if v.decision == ScaleOut then p.tpHit + 1 else p.tpHit))
  {
    hide Get, Put, Canonical, LegalHistory;
    var c := Get(s, m);
    assert CellInv(c);
    var t := Marked(s, m, v);
    forall k
      ensures Get(t, k) ==
              if k == m && v.priced && c.tracked.value.tokensOut > 0 then MarkCell(c, v.unrealized) else Get(s, k)
    {
      GetPut(s, m, MarkCell(c, v.unrealized), k);
      SetTripped(Put(s, m, MarkCell(c, v.unrealized)), v.tripped, k);
    }
    var d := Get(t, m);
    ClosedHistory(c, v.until);
    ClosedHistory(d, v.until);
    forall k
      ensures Get(Evaluate(s, m, v), k) ==
              if k != m then Get(s, k)
              else if !v.marked then ExitCell(c, v.until)
              else if v.decision == FullExit then ExitCell(d, v.until)
              else if v.decision == ScaleOut then TpHitCell(d)
              else d
    {
      GetPut(s, m, ExitCell(c, v.until), k);
      GetPut(t, m, ExitCell(d, v.until), k);
      GetPut(t, m, TpHitCell(d), k);
    }
  }

  lemma ClosedHistory(c: Cell, until: int)
    requires c.tracked.Some? && c.tracked.value.state == Open
    ensures var d := ExitCell(c, until);
            d.stored == None && d.tracked == None && !d.exit && d.cooldown == Some(until) &&
            d.history == c.history + [Closing, Closed]
  {
  }

  lemma PutKeepsLive(s: State, m: Mint, c: Cell)
    requires Inv(s) && Keeps(Get(s, m), c) && (Live(Get(s, m)) ==> Live(c))
    ensures KeepsAll(s, Put(s, m, c))
    ensures LiveStore(s) ==> LiveStore(Put(s, m, c))
  {
    PutKeeps(s, m, c);
  }

  lemma DecidedKeeps(s: State, t: State, m: Mint, v: Evaluation)
    requires Inv(s) && KeepsAll(s, t) && Get(s, m).stored.Some?
    requires Get(t, m).tracked.Some? && SameEntry(Get(s, m).stored.value, Get(t, m).tracked.value)
    requires Get(t, m).tracked.value.state != Idle
    ensures KeepsAll(s, Decided(t, m, v))
    ensures LiveStore(t) ==>
              (LiveStore(Decided(t, m, v)) <==> !(v.decision == ScaleOut && Terminal(Get(t, m).tracked.value.state)))
  {
    hide Get, Put, Canonical, LegalHistory, TpHitCell, ExitCell;
    var d := Get(t, m);
    assert CellInv(d) && CellInv(Get(s, m));
    if v.decision == ScaleOut {
      TpHitKeeps(Get(s, m), d);
      PutOver(s, t, m, TpHitCell(d));
    } else if v.decision == FullExit {
      ExitKeeps(d, v.until);
      PutKeepsLive(t, m, ExitCell(d, v.until));
      DeriskedTrans(s, t, Put(t, m, ExitCell(d, v.until)));
    }
  }

  /** As PutKeeps, with the replaced cell compared with an earlier state. */
  lemma PutOver(s: State, t: State, m: Mint, c: Cell)
    requires KeepsAll(s, t) && Keeps(Get(s, m), c)
    ensures KeepsAll(s, Put(t, m, c))
    ensures LiveStore(t) ==> (LiveStore(Put(t, m, c)) <==> Live(c))
  {
    hide CellInv, Derisks, Get, Put, Live, Canonical;
    var u := Put(t, m, c);
    GetPut(t, m, c, m);
    forall k
      ensures Get(u, k) == if k == m then c else Get(t, k)
      ensures CellInv(Get(u, k)) && Derisks(Get(s, k), Get(u, k))
      ensures LiveStore(t) && k != m ==> Live(Get(u, k))
    {
      GetPut(t, m, c, k);
    }
    assert Live(Get(u, m)) <==> Live(c);
  }

  lemma {:induction false} EvaluateAllKeeps(s: State, order: seq<Mint>, env: Mint -> Evaluation)
    requires Inv(s)
    ensures KeepsAll(s, EvaluateAll(s, order, env))
  {
    hide CellInv, Get, Evaluate, Derisks, Live, Canonical;
    if order == [] {
      forall k
        ensures Derisks(Get(s, k), Get(s, k))
      {
        DerisksSelf(Get(s, k));
      }
    } else {
      var front := order[..|order| - 1];
      var m := order[|order| - 1];
      EvaluateAllKeeps(s, front, env);
      EvaluateKeeps(EvaluateAll(s, front, env), m, env(m));
      DeriskedTrans(s, EvaluateAll(s, front, env), EvaluateAll(s, order, env));
    }
  }

  // ---------- terminal records ----------

  /** A terminal record, with whatever FSM is registered for it terminal too. */
  predicate Stuck(c: Cell)
  {
    c.stored.Some? && Terminal(c.stored.value.state) && (c.tracked.Some? ==> Terminal(c.tracked.value.state))
  }

  lemma StuckCell(c: Cell, landed: bool, slot: int, ttl: int, until: int)
    requires Stuck(c)
    ensures FlattenCell(c, landed) == c && ContinuousCell(c, slot, ttl, until) == c
    ensures SyncCell(c).stored == c.stored && Stuck(SyncCell(c))
  {
  }

  lemma EvaluateStuck(s: State, k: Mint, v: Evaluation, m: Mint)
    requires Stuck(Get(s, m))
    ensures Get(Evaluate(s, k, v), m) == Get(s, m)
  {
    hide FlattenAll, Put, Get, ExitCell, TpHitCell, MarkCell;
    var c := Get(s, k);
    GetPut(s, k, ExitCell(c, v.until), m);
    var marked := Put(s, k, MarkCell(c, v.unrealized));
    GetPut(s, k, MarkCell(c, v.unrealized), m);
    if v.trip.Some? && k != m {
      FlattenAllGet(marked, v.trip.value, m);
      StuckCell(Get(s, m), m in v.trip.value, 0, 0, 0);
      SetTripped(FlattenAll(marked, v.trip.value), v.tripped, m);
    }
    SetTripped(marked, v.tripped, m);
    var t := Marked(s, k, v);
    GetPut(t, k, TpHitCell(Get(t, k)), m);
    GetPut(t, k, ExitCell(Get(t, k), v.until), m);
  }

  lemma {:induction false} EvaluateAllStuck(s: State, order: seq<Mint>, env: Mint -> Evaluation, m: Mint)
    requires Stuck(Get(s, m))
    ensures Get(EvaluateAll(s, order, env), m) == Get(s, m)
  {
    hide Evaluate, Get, Stuck;
    if order != [] {
      var k := order[|order| - 1];
      EvaluateAllStuck(s, order[..|order| - 1], env, m);
      EvaluateStuck(EvaluateAll(s, order[..|order| - 1], env), k, env(k), m);
    }
  }

  /** A record that is not live is stuck. */
  lemma DeadIsStuck(s: State, m: Mint)
    requires Inv(s) && !Live(Get(s, m))
    ensures Stuck(Get(s, m))
  {
    hide LegalHistory;
    assert CellInv(Get(s, m));
    NeverIdle(Past(s.history, m));
  }

  lemma StuckIsDead(s: State, m: Mint)
    requires Stuck(Get(s, m))
    ensures !LiveStore(s)
  {
    assert !Live(Get(s, m));
  }

  /** The i-th evaluation of the pass meets a state in which it resurrects a record. */
  predicate ResurrectsAt(s: State, order: seq<Mint>, env: Mint -> Evaluation, i: nat)
    requires i < |order|
  {
    Resurrects(Get(EvaluateAll(s, order[..i], env), order[i]), order[i], env(order[i]))
  }

  ghost predicate ResurrectsIn(s: State, order: seq<Mint>, env: Mint -> Evaluation)
  {
    exists i :: 0 <= i < |order| && ResurrectsAt(s, order, env, i)
  }

  /** A pass over the registry leaves the store free of terminal records exactly when none of its
      evaluations resurrects one in the state it meets. */
  lemma {:induction false} EvaluateAllLive(s: State, order: seq<Mint>, env: Mint -> Evaluation)
    requires Inv(s) && LiveStore(s)
    ensures LiveStore(EvaluateAll(s, order, env)) <==> !ResurrectsIn(s, order, env)
  {
    hide CellInv, Get, Evaluate, Live, Canonical, Resurrects;
    if order != [] {
      var n := |order| - 1;
      var front, m := order[..n], order[n];
      var t := EvaluateAll(s, front, env);
      EvaluateAllLive(s, front, env);
      EvaluateAllKeeps(s, front, env);
      forall i | 0 <= i < n
        ensures ResurrectsAt(s, order, env, i) <==> ResurrectsAt(s, front, env, i)
      {
        assert order[..i] == front[..i];
      }
      assert ResurrectsIn(s, front, env) ==> ResurrectsIn(s, order, env);
      EvaluateKeeps(t, m, env(m));
      if LiveStore(t) {
        assert ResurrectsAt(s, order, env, n) <==> Resurrects(Get(t, m), m, env(m));
      } else {
        var k :| !Live(Get(t, k));
        DeadIsStuck(t, k);
        EvaluateStuck(t, m, env(m), k);
        StuckIsDead(EvaluateAll(s, order, env), k);
      }
    }
  }

  /** A tick keeps the invariant, adds no exposure and leaves no entry older than the limit. From a store
      free of terminal records it leaves one free of them exactly when none of its evaluations
      resurrects one. */
  lemma TickKeeps(l: Limits, s: State, slot: int, order: seq<Mint>, env: Mint -> Evaluation, until: Mint -> int)
    requires Inv(s)
    ensures var t := Tick(l, s, slot, order, env, until);
            KeepsAll(s, t) && NoneTimedOut(t, slot, l.enteringTtl) &&
            (LiveStore(s) ==> (LiveStore(t) <==> !ResurrectsIn(SyncAll(s), order, env)))
  {
    hide Inv, Derisked, LiveStore, SyncAll, EvaluateAll, ContinuousAll, NoneTimedOut, ResurrectsIn;
    SyncAllKeeps(s);
    EvaluateAllKeeps(SyncAll(s), order, env);
    var t := EvaluateAll(SyncAll(s), order, env);
    ContinuousAllKeeps(t, slot, l.enteringTtl, until);
    ContinuousAllStuck(t, slot, l.enteringTtl, until);
    if LiveStore(s) {
      EvaluateAllLive(SyncAll(s), order, env);
    }
    DeriskedTrans(s, SyncAll(s), t);
    DeriskedTrans(s, t, ContinuousAll(t, slot, l.enteringTtl, until));
  }

  lemma ContinuousAllStuck(s: State, slot: int, ttl: int, until: Mint -> int)
    requires Inv(s)
    ensures !LiveStore(s) ==> !LiveStore(ContinuousAll(s, slot, ttl, until))
  {
    hide CellInv, Get, Canonical, ContinuousAll;
    if !LiveStore(s) {
      var m :| !Live(Get(s, m));
      DeadIsStuck(s, m);
      ContinuousAllGet(s, slot, ttl, until, m);
      StuckCell(Get(s, m), false, slot, ttl, until(m));
      StuckIsDead(ContinuousAll(s, slot, ttl, until), m);
    }
  }

  // ---------- launch events ----------

  /** SNIPE is offered a mint that neither the store nor the registry holds. */
  predicate Fresh(s: State, m: Mint)
  {
    m !in s.positions && m !in s.registry
  }

  lemma EnteredCell(c: Cell, lock: Option<Lock>, p: Position)
    requires CellInv(c) && c.stored.None? && c.tracked.None? && p.state == Entering && p.solIn > 0
    ensures var d := Saved(c.(lock := lock), p);
            CellInv(d) && Live(d) && CellInv(d.(lock := None, stored := None))
  {
    hide LegalHistory;
    SavedHistory(c.(lock := lock), p);
  }

  /** What an event leaves in its mint's cell: a cell without a record, or the new ENTERING record. */
  lemma EnterCell(s: State, c: Cell, solIn: int, e: Launch)
    requires CellInv(c) && c.stored.None? && c.tracked.None? && solIn > 0
    ensures var t := Enter(s, c, solIn, e).0;
            exists d: Cell, seen: map<IntentId, int> ::
              t == Put(s.(seen := seen), e.mint, d) && CellInv(d) && Live(d) && d.tracked.None? &&
              (d.stored.None? || d.stored == Some(NewPosition(e, solIn)))
    ensures Enter(s, c, solIn, e).1.Attempted? ==> e.mint in Enter(s, c, solIn, e).0.positions
  {
    hide LegalHistory;
    var lock := Claim(c.lock, EntryId(e), e.claimNow, e.claimCheck, CLAIM_TTL);
    EnteredCell(c, lock, NewPosition(e, solIn));
    assert CellInv(c.(lock := None));
    assert s == s.(seen := s.seen);
  }

  lemma SetSeen(s: State, seen: map<IntentId, int>, m: Mint)
    ensures Get(s.(seen := seen), m) == Get(s, m) && (Canonical(s) ==> Canonical(s.(seen := seen)))
  {
  }

  lemma PutFresh(s: State, seen: map<IntentId, int>, m: Mint, d: Cell)
    requires Inv(s) && CellInv(d) && Live(d) && Fresh(s, m)
    ensures var t := Put(s.(seen := seen), m, d);
            Inv(t) && (LiveStore(s) ==> LiveStore(t)) &&
            t.positions == (if d.stored.None? then s.positions else s.positions[m := d.stored.value])
  {
    var s1 := s.(seen := seen);
    var t := Put(s1, m, d);
    assert t.positions == if d.stored.None? then s.positions else s.positions[m := d.stored.value];
    PutFreshCells(s, seen, m, d);
  }

  lemma PutFreshCells(s: State, seen: map<IntentId, int>, m: Mint, d: Cell)
    requires Inv(s) && CellInv(d) && Live(d)
    ensures var t := Put(s.(seen := seen), m, d);
            Inv(t) && (LiveStore(s) ==> LiveStore(t))
  {
    hide CellInv, Get, Put, Live, Canonical;
    var s1 := s.(seen := seen);
    var t := Put(s1, m, d);
    GetPut(s1, m, d, m);
    SetSeen(s, seen, m);
    forall k
      ensures CellInv(Get(t, k)) && (LiveStore(s) ==> Live(Get(t, k)))
    {
      GetPut(s1, m, d, k);
      SetSeen(s, seen, k);
    }
  }

  /** Offered a fresh mint and sized by the fallback, SNIPE keeps the invariant and the aggregate
      limit, and adds at most the one ENTERING record. */
  lemma SnipeKeeps(l: Limits, s: State, e: Launch)
    requires Inv(s) && Fresh(s, e.mint) && e.sized.None?
    ensures var t := Snipe(l, s, e).0;
            Inv(t) && (LiveStore(s) ==> LiveStore(t)) &&
            (Aggregate(s.positions) <= l.maxAggregate ==> Aggregate(t.positions) <= l.maxAggregate) &&
            t.positions.Keys <= s.positions.Keys + {e.mint}
  {
    hide LegalHistory, Aggregate, Put, Inv, LiveStore;
    var c := Cooled(s, e);
    var aggregate := Aggregate(s.positions);
    var solIn := Size(l, aggregate, e);
    CooledInv(s, e);
    NonNegativeBook(s);
    assert s == s.(seen := s.seen);
    if Snipe(l, s, e) == (Put(s, e.mint, c), Snipe(l, s, e).1) {
      PutFresh(s, s.seen, e.mint, c);
    } else {
      EnterCell(s, c, solIn, e);
      var d: Cell, seen: map<IntentId, int> :|
        Snipe(l, s, e).0 == Put(s.(seen := seen), e.mint, d) && CellInv(d) && Live(d) &&
        (d.stored.None? || d.stored == Some(NewPosition(e, solIn)));
      PutFresh(s, seen, e.mint, d);
      AggregateSave(s.positions, e.mint, NewPosition(e, solIn));
    }
  }

  lemma CooledInv(s: State, e: Launch)
    requires Inv(s) && Fresh(s, e.mint)
    ensures var c := Cooled(s, e); CellInv(c) && Live(c) && c.stored.None? && c.tracked.None?
  {
    hide LegalHistory;
    assert CellInv(Get(s, e.mint));
  }

  lemma NonNegativeBook(s: State)
    requires Inv(s)
    ensures NonNegative(s.positions)
  {
    forall m | m in s.positions
      ensures s.positions[m].solIn >= 0
    {
      InvMeans(s, m);
    }
  }

  /** Every condition of an entry: nothing halts or cools the mint, the signal and the gates pass, there
      is room, and neither the intent id nor the lock is taken. */
  ghost predicate EntryAllowed(l: Limits, s: State, e: Launch)
  {
    var id := IntentId(e.mint, e.slot, "ENTRY");
    PassesChecks(l, s, e) && (id in s.seen ==> e.seenCheck >= s.seen[id]) &&
    (e.mint in s.locks ==> e.claimCheck >= s.locks[e.mint].expiry) &&
    e.costOk && e.intentOk && !e.overBudget
  }

  ghost predicate PassesChecks(l: Limits, s: State, e: Launch)
  {
    !s.tripped && (e.mint in s.cooldowns ==> e.cooldownNow >= s.cooldowns[e.mint]) &&
    e.aboveThreshold == Some(true) && e.stalenessMs <= 5000 && !e.vetoed && e.gateOk &&
    if e.sized.Some? then e.sized.value > 0
    else l.minSol > 0 && l.perTradeCap > 0 && Aggregate(s.positions) < l.maxAggregate
  }

  /** The record an entry writes: a fresh ENTERING position of the sizing engine's amount, or else of the
      smallest of the minimum size, the per-trade cap and what is left of the aggregate limit. */
  predicate EntryRecord(l: Limits, aggregate: int, e: Launch, p: Position)
  {
    p.state == Entering && p.entrySlot == e.slot && p.tokensOut == 0 && p.slippageBps == 0 && p.tpHit == 0 &&
    p.unrealized == 0 && p.realized.None? &&
    if e.sized.Some? then p.solIn == e.sized.value
    else
      var room := l.maxAggregate - aggregate;
      p.solIn <= l.minSol && p.solIn <= l.perTradeCap && p.solIn <= room &&
      (p.solIn == l.minSol || p.solIn == l.perTradeCap || p.solIn == room)
  }

  lemma SizeExactly(l: Limits, aggregate: int, e: Launch)
    ensures Size(l, aggregate, e) > 0 <==>
            if e.sized.Some? then e.sized.value > 0 else l.minSol > 0 && l.perTradeCap > 0 && aggregate < l.maxAggregate
    ensures Size(l, aggregate, e) > 0 ==> EntryRecord(l, aggregate, e, NewPosition(e, Size(l, aggregate, e)))
  {
  }

  /** The same conditions in the terms the steps use. */
  lemma AllowedMeans(l: Limits, s: State, e: Launch)
    ensures EntryAllowed(l, s, e) <==>
            Refusal(s.tripped, Held(Get(s, e.mint).cooldown, e.cooldownNow), e).None? &&
            Size(l, Aggregate(s.positions), e) > 0 &&
            !Held(Lookup(s.seen, EntryId(e)), e.seenCheck) &&
            !(Get(s, e.mint).lock.Some? && e.claimCheck < Get(s, e.mint).lock.value.expiry) &&
            e.costOk && e.intentOk && !e.overBudget
  {
    hide Aggregate, Size;
    SizeExactly(l, Aggregate(s.positions), e);
  }

  /** SNIPE submits exactly when all of that holds. It then leaves the written ENTERING record, within the
      per-trade cap, under a lock of its own intent. An event it skips leaves no claim of its own and
      writes no record. */
  lemma SnipeExact(l: Limits, s: State, e: Launch)
    ensures Snipe(l, s, e).1.Attempted? <==> EntryAllowed(l, s, e)
    ensures var (t, o) := Snipe(l, s, e);
            var c, d := Get(s, e.mint), Get(t, e.mint);
            if o.Attempted? then
              var id := IntentId(e.mint, e.slot, "ENTRY");
              d.stored.Some? && EntryRecord(l, Aggregate(s.positions), e, d.stored.value) && d.stored.value.solIn > 0 &&
              d.lock == Some(Lock(id, e.claimNow + 30000)) && Lookup(t.seen, id) == Some(e.seenNow + 120000)
            else
              (d.lock == c.lock || d.lock == None) && (d.stored == c.stored || d.stored == None)
    ensures var t := Snipe(l, s, e).0;
            Get(t, e.mint).tracked == Get(s, e.mint).tracked &&
            (t.tripped, t.killed, t.started) == (s.tripped, s.killed, s.started)
    ensures forall k :: k != e.mint ==> Get(Snipe(l, s, e).0, k) == Get(s, k)
  {
    hide Put, Get, Aggregate, Enter, Size;
    CellLookups(s, e.mint);
    var c := Cooled(s, e);
    var solIn := Size(l, Aggregate(s.positions), e);
    GetPut(s, e.mint, c, e.mint);
    EnterExact(s, c, solIn, e);
    forall k | k != e.mint
      ensures Get(Snipe(l, s, e).0, k) == Get(s, k)
    {
      GetPut(s, e.mint, c, k);
      EnterOthers(s, c, solIn, e, k);
    }
    SizeExactly(l, Aggregate(s.positions), e);
    AllowedMeans(l, s, e);
  }

  /** The answer of SNIPE to an event: the first check that fails, in the order they are made. */
  lemma SnipeAnswers(l: Limits, s: State, e: Launch)
    ensures var id := IntentId(e.mint, e.slot, "ENTRY");
            Snipe(l, s, e).1 ==
            if s.tripped then Skipped("breaker_tripped")
            else if e.mint in s.cooldowns && e.cooldownNow < s.cooldowns[e.mint] then Skipped("in_cooldown")
            else if e.aboveThreshold == None then Skipped("no_signal")
            else if e.aboveThreshold == Some(false) then Skipped("below_snipe_threshold")
            else if e.stalenessMs > 5000 then Skipped("stale_signal")
            else if e.vetoed then Skipped("veto_active")
            else if !e.gateOk then Skipped("safety_gate_fail")
            else if e.sized.Some? && e.sized.value <= 0 then Skipped("size_zero")
            else if e.sized.None? && (l.minSol <= 0 || l.perTradeCap <= 0 || l.maxAggregate <= Aggregate(s.positions))
            then Skipped("size_zero")
            else if id in s.seen && e.seenCheck < s.seen[id] then Skipped("duplicate_intent")
            else if e.mint in s.locks && e.claimCheck < s.locks[e.mint].expiry then Skipped("fsm_state_conflict")
            else if !e.costOk then Skipped("cost_gate_fail")
            else if !e.intentOk then Skipped("intent_validation_fail")
            else if e.overBudget then Skipped("latency_budget_blown")
            else Attempted(e.landed)
  {
    hide Aggregate, Size, Put;
    SizeExactly(l, Aggregate(s.positions), e);
    CellLookups(s, e.mint);
  }

  /** What an event leaves besides the record. Its intent id is marked exactly when it passes the checks before
      the dedup and the dedup itself; a write-ahead is in the history exactly when it was made; an expired
      cooldown is forgotten; the exit state is untouched. */
  lemma SnipeTraces(l: Limits, s: State, e: Launch)
    ensures var t := Snipe(l, s, e).0;
            var c, d, id := Get(s, e.mint), Get(t, e.mint), IntentId(e.mint, e.slot, "ENTRY");
            var marks := PassesChecks(l, s, e) && (id in s.seen ==> e.seenCheck >= s.seen[id]);
            var claims := marks && (e.mint in s.locks ==> e.claimCheck >= s.locks[e.mint].expiry);
            t.seen == (if marks then s.seen[id := e.seenNow + 120000] else s.seen) &&
            d.history == c.history + (if claims && e.costOk && e.intentOk then [Entering] else []) &&
            d.exit == c.exit &&
            d.cooldown ==
            if s.tripped || (c.cooldown.Some? && e.cooldownNow < c.cooldown.value) then c.cooldown else None
  {
    hide Put, Get, Aggregate, Size, Enter;
    var c := Cooled(s, e);
    CellLookups(s, e.mint);
    SizeExactly(l, Aggregate(s.positions), e);
    GetPut(s, e.mint, c, e.mint);
    EnterTraces(s, c, Size(l, Aggregate(s.positions), e), e);
  }

  lemma EnterTraces(s: State, c: Cell, solIn: int, e: Launch)
    ensures var t := Enter(s, c, solIn, e).0;
            var d, id := Get(t, e.mint), EntryId(e);
            var marks := !Held(Lookup(s.seen, id), e.seenCheck);
            var claims := marks && !(c.lock.Some? && e.claimCheck < c.lock.value.expiry);
            t.seen == (if marks then s.seen[id := e.seenNow + 120000] else s.seen) &&
            d.history == c.history + (if claims && e.costOk && e.intentOk then [Entering] else []) &&
            d.exit == c.exit && d.cooldown == c.cooldown
  {
    hide Put, Get;
    GetPut(s, e.mint, c, e.mint);
    var seen := MarkSeen(s.seen, EntryId(e), e.seenCheck, e.seenNow, SEEN_TTL);
    if seen.Some? {
      var s1 := s.(seen := seen.value);
      var lock := Claim(c.lock, EntryId(e), e.claimNow, e.claimCheck, CLAIM_TTL);
      var written := Saved(c.(lock := lock), NewPosition(e, solIn));
      GetPut(s1, e.mint, c, e.mint);
      GetPut(s1, e.mint, c.(lock := None), e.mint);
      GetPut(s1, e.mint, written, e.mint);
      GetPut(s1, e.mint, written.(lock := None, stored := None), e.mint);
    }
  }

  lemma CellLookups(s: State, m: Mint)
    ensures Get(s, m).cooldown == Lookup(s.cooldowns, m) && Get(s, m).lock == Lookup(s.locks, m)
  {
  }

  lemma EnterExact(s: State, c: Cell, solIn: int, e: Launch)
    ensures var (t, o) := Enter(s, c, solIn, e);
            var d := Get(t, e.mint);
            (o.Attempted? <==>
             !Held(Lookup(s.seen, EntryId(e)), e.seenCheck) && !(c.lock.Some? && e.claimCheck < c.lock.value.expiry) &&
             e.costOk && e.intentOk && !e.overBudget) &&
            (if o.Attempted? then
               d.stored == Some(NewPosition(e, solIn)) && d.lock == Some(Lock(EntryId(e), e.claimNow + 30000)) &&
               Lookup(t.seen, EntryId(e)) == Some(e.seenNow + 120000)
             else
               (d.lock == c.lock || d.lock == None) && (d.stored == c.stored || d.stored == None))
    ensures var t := Enter(s, c, solIn, e).0;
            Get(t, e.mint).tracked == c.tracked && (t.tripped, t.killed, t.started) == (s.tripped, s.killed, s.started)
  {
    hide Put, Get;
    var seen := MarkSeen(s.seen, EntryId(e), e.seenCheck, e.seenNow, SEEN_TTL);
    var lock := Claim(c.lock, EntryId(e), e.claimNow, e.claimCheck, CLAIM_TTL);
    GetPut(s, e.mint, c, e.mint);
    if seen.Some? {
      var s1 := s.(seen := seen.value);
      var written := Saved(c.(lock := lock), NewPosition(e, solIn));
      GetPut(s1, e.mint, c, e.mint);
      GetPut(s1, e.mint, c.(lock := None), e.mint);
      GetPut(s1, e.mint, written, e.mint);
      GetPut(s1, e.mint, written.(lock := None, stored := None), e.mint);
    }
  }

  /** An entry changes no other mint. */
  lemma EnterOthers(s: State, c: Cell, solIn: int, e: Launch, k: Mint)
    requires k != e.mint
    ensures Get(Enter(s, c, solIn, e).0, k) == Get(s, k)
  {
    hide Put, Get;
    var seen := MarkSeen(s.seen, EntryId(e), e.seenCheck, e.seenNow, SEEN_TTL);
    var lock := Claim(c.lock, EntryId(e), e.claimNow, e.claimCheck, CLAIM_TTL);
    GetPut(s, e.mint, c, k);
    if seen.Some? {
      var s1 := s.(seen := seen.value);
      var written := Saved(c.(lock := lock), NewPosition(e, solIn));
      SetSeen(s, seen.value, k);
      GetPut(s1, e.mint, c, k);
      GetPut(s1, e.mint, c.(lock := None), k);
      GetPut(s1, e.mint, written, k);
      GetPut(s1, e.mint, written.(lock := None, stored := None), k);
    }
  }

  /** What an allowed entry leaves. */
  function EnteredAs(s: State, e: Launch, solIn: int): Cell
  {
    Saved(Cooled(s, e).(lock := Some(Lock(EntryId(e), e.claimNow + CLAIM_TTL * 1000))), NewPosition(e, solIn))
  }

  lemma EntryLeaves(l: Limits, s: State, e: Launch)
    requires EntryAllowed(l, s, e)
    ensures var seen := s.seen[EntryId(e) := e.seenNow + SEEN_TTL * 1000];
            Snipe(l, s, e) == (Put(s.(seen := seen), e.mint, EnteredAs(s, e, Size(l, Aggregate(s.positions), e))),
                               Attempted(e.landed))
  {
    hide Aggregate, Put, Size;
    AllowedMeans(l, s, e);
  }

  /** An allowed entry keeps the invariant exactly when no other position is registered for the mint and
      no OPEN or CLOSING record is overwritten. */
  lemma EntryKeepsExactly(l: Limits, s: State, e: Launch)
    requires Inv(s) && EntryAllowed(l, s, e)
    ensures var p := NewPosition(e, Size(l, Aggregate(s.positions), e));
            var c := Get(s, e.mint);
            Inv(Snipe(l, s, e).0) <==>
            (c.tracked.None? || c.tracked == Some(p)) &&
            (c.stored.None? || c.stored.value.state == Entering || Terminal(c.stored.value.state))
  {
    hide LegalHistory, Aggregate, Put, Size;
    var solIn := Size(l, Aggregate(s.positions), e);
    var c, d := Get(s, e.mint), EnteredAs(s, e, solIn);
    assert CellInv(c);
    EntryLeaves(l, s, e);
    SavedHistory(Cooled(s, e).(lock := d.lock), NewPosition(e, solIn));
    LastState(c.history);
    NeverIdle(c.history);
    CellDecides(s, s.seen[EntryId(e) := e.seenNow + SEEN_TTL * 1000], e.mint, d);
  }

  lemma LastState(h: seq<FsmState>)
    ensures h != [] ==> h[|h| - 1] in h
  {
  }

  /** Replacing one cell keeps the invariant exactly when the new cell satisfies it. */
  lemma CellDecides(s: State, seen: map<IntentId, int>, m: Mint, d: Cell)
    requires Inv(s)
    ensures Inv(Put(s.(seen := seen), m, d)) <==> CellInv(d)
  {
    hide CellInv, Get, Put, Canonical;
    var s1 := s.(seen := seen);
    var t := Put(s1, m, d);
    GetPut(s1, m, d, m);
    SetSeen(s, seen, m);
    forall k
      ensures Get(t, k) == if k == m then d else Get(s, k)
    {
      GetPut(s1, m, d, k);
      SetSeen(s, seen, k);
    }
    assert Inv(t) ==> CellInv(Get(t, m));
  }

  /** Opening a mint released its lock, so `claim_entering` grants a claim on an OPEN or CLOSING mint at
      any time. */
  lemma OpenMintIsClaimable(s: State, m: Mint, id: IntentId, now: int, check: int, ttl: int)
    requires Inv(s) && m in s.positions && s.positions[m].state != Entering
    ensures m !in s.locks && Claim(Lookup(s.locks, m), id, now, check, ttl).Some?
  {
    hide LegalHistory;
    assert CellInv(Get(s, m));
  }

  /** Why the mint must be fresh: with a terminal FSM still registered (a flatten leaves one until the
      next tick), a relaunched entry is written but its landed fill is refused, and a failed one
      leaves the record behind. */
  lemma RelaunchLosesFill(c: Cell, lock: Option<Lock>, p: Position, fill: Fill, until: int)
    requires c.stored.None? && c.tracked.Some? && Terminal(c.tracked.value.state) && p.state == Entering
    ensures var d := Saved(c.(lock := lock), p);
            (fill.landed ==> FillCell(d, fill, until) == (d, false)) && FillCell(d, fill, until).0.stored == Some(p)
  {
  }
}
