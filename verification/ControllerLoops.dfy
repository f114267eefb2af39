/** The controller's objects as they run. The store, the FAST loop with its registry, the SNIPE loop,
    the reconciler and the orchestrator share one store and one registry, so one class holds them all;
    its methods update those fields in place, and iterate dictionaries in an arbitrary order. */
module ControllerLoops {
  import opened Common
  import opened ControllerState
  import opened PositionFsm
  import opened Controller
  import opened ControllerRuns
  import opened ControllerSafety

  /** From s to t only the cell of m changes. */
  ghost predicate OnlyAt(s: State, t: State, m: Mint)
  {
    Canonical(t) && Globals(t) == Globals(s) && forall k :: k != m ==> Get(t, k) == Get(s, k)
  }

  lemma IsPut(s: State, t: State, m: Mint, c: Cell)
    requires Canonical(s) && OnlyAt(s, t, m) && Get(t, m) == c
    ensures t == Put(s, m, c)
  {
    hide Get, Put, Canonical;
    GetPut(s, m, c, m);
    forall k
      ensures Get(t, k) == Get(Put(s, m, c), k)
    {
      GetPut(s, m, c, k);
    }
    SameCells(t, Put(s, m, c));
  }

  lemma OnlyAtSelf(s: State, m: Mint)
    requires Canonical(s)
    ensures OnlyAt(s, s, m)
  {
  }

  lemma OnlyAtTrans(s: State, t: State, u: State, m: Mint)
    requires OnlyAt(s, t, m) && OnlyAt(t, u, m)
    ensures OnlyAt(s, u, m)
  {
  }

  class Engine {
    // InMemoryStateStore
    var positions: map<Mint, Position>
    var locks: map<Mint, Lock>
    var cooldowns: map<Mint, int>
    var seen: map<IntentId, int>
    var tripped: bool
    // FastLoop
    var registry: map<Mint, Position>
    var exits: set<Mint>
    // ControllerOrchestrator and KillSwitch
    var killed: bool
    var started: bool
    /** Every state saved for a mint. */
    ghost var history: map<Mint, seq<FsmState>>

    ghost function Abs(): State
      reads this
    {
      State(positions, registry, exits, locks, cooldowns, history, seen, tripped, killed, started)
    }

    ghost predicate Valid()
      reads this
    {
      Canonical(Abs())
    }

    constructor ()
      ensures Valid() && Abs() == INITIAL
    {
      positions, locks, cooldowns, seen, tripped := map[], map[], map[], map[], false;
      registry, exits, killed, started := map[], {}, false, false;
      history := map[];
    }

    // ---------- InMemoryStateStore ----------

    function Load(m: Mint): (p: Option<Position>)
      reads this
      ensures p == Get(Abs(), m).stored
    {
      Lookup(positions, m)
    }

    function Registered(m: Mint): (p: Option<Position>)
      reads this
      ensures p == Get(Abs(), m).tracked
    {
      Lookup(registry, m)
    }

    method SavePosition(m: Mint, p: Position)
      requires Valid()
      modifies this
      ensures Valid() && OnlyAt(old(Abs()), Abs(), m) && Get(Abs(), m) == Saved(Get(old(Abs()), m), p)
    {
      positions := positions[m := p];
      history := history[m := Past(history, m) + [p.state]];
    }

    method DeletePosition(m: Mint)
      requires Valid()
      modifies this
      ensures Valid() && OnlyAt(old(Abs()), Abs(), m) && Get(Abs(), m) == Get(old(Abs()), m).(stored := None)
    {
      positions := positions - {m};
    }

    method ReleaseEntering(m: Mint)
      requires Valid()
      modifies this
      ensures Valid() && OnlyAt(old(Abs()), Abs(), m) && Get(Abs(), m) == Get(old(Abs()), m).(lock := None)
    {
      locks := locks - {m};
    }

    method SetCooldown(m: Mint, until: int)
      requires Valid()
      modifies this
      ensures Valid() && OnlyAt(old(Abs()), Abs(), m) && Get(Abs(), m) == Get(old(Abs()), m).(cooldown := Some(until))
    {
      cooldowns := cooldowns[m := until];
    }

    /** Two clock readings: `now` when the call starts, `check` when an existing lock is examined. */
    method ClaimEntering(m: Mint, id: IntentId, ttl: int, now: int, check: int) returns (claimed: bool)
      requires Valid()
      modifies this
      ensures Valid() && OnlyAt(old(Abs()), Abs(), m)
      ensures var c := Get(old(Abs()), m);
              var lock := Claim(c.lock, id, now, check, ttl);
              claimed == lock.Some? && Get(Abs(), m) == if claimed then c.(lock := lock) else c
    {
      if m in locks && check >= locks[m].expiry {
        locks := locks - {m};
      }
      if m in locks {
        return false;
      }
      locks := locks[m := Lock(id, now + ttl * 1000)];
      return true;
    }

    /** Two clock readings: `check` for an existing entry, `now` for the new expiry. */
    method MarkIntentSeen(id: IntentId, ttl: int, check: int, now: int) returns (first: bool)
      requires Valid()
      modifies this
      ensures Valid()
      ensures var table := MarkSeen(old(seen), id, check, now, ttl);
              first == table.Some? && Abs() == old(Abs()).(seen := if first then table.value else old(seen))
    {
      if id in seen && !(check >= seen[id]) {
        return false;
      }
      seen := seen[id := now + ttl * 1000];
      return true;
    }

    method InCooldown(m: Mint, now: int) returns (cooling: bool)
      requires Valid()
      modifies this
      ensures Valid() && OnlyAt(old(Abs()), Abs(), m)
      ensures cooling == Held(Get(old(Abs()), m).cooldown, now)
      ensures Get(Abs(), m) == if cooling then Get(old(Abs()), m) else Get(old(Abs()), m).(cooldown := None)
    {
      if m !in cooldowns {
        return false;
      }
      if now >= cooldowns[m] {
        cooldowns := cooldowns - {m};
        return false;
      }
      return true;
    }

    method AggregateOpen() returns (total: int)
      ensures total == Aggregate(positions)
    {
      total := 0;
      var todo := positions.Keys;
      while todo != {}
        invariant todo <= positions.Keys && total + Sum(todo, positions) == Aggregate(positions)
        decreases |todo|
      {
        var m :| m in todo;
        SumRemove(todo, positions, m);
        total := total + positions[m].solIn;
        todo := todo - {m};
      }
    }

    // ---------- PositionFSM ----------

    method ToOpen(m: Mint, p: Position, fill: Fill) returns (q: Option<Position>)
      requires Valid()
      modifies this
      ensures Valid() && q == if p.state == Entering then Some(AsOpen(p, fill)) else None
      ensures q.None? ==> Abs() == old(Abs())
      ensures q.Some? ==> OnlyAt(old(Abs()), Abs(), m) && Get(Abs(), m) == Opened(Get(old(Abs()), m), p, fill)
    {
      if !Legal(p.state, Open) {
        return None;
      }
      SavePosition(m, AsOpen(p, fill));
      ReleaseEntering(m);
      return Some(AsOpen(p, fill));
    }

    method ToVetoed(m: Mint, p: Position) returns (q: Option<Position>)
      requires Valid()
      modifies this
      ensures Valid() && q == if p.state == Entering then Some(p.(state := Vetoed, realized := Some(0))) else None
      ensures q.None? ==> Abs() == old(Abs())
      ensures q.Some? ==> OnlyAt(old(Abs()), Abs(), m) && Get(Abs(), m) == Vetoing(Get(old(Abs()), m), p)
    {
      if !Legal(p.state, Vetoed) {
        return None;
      }
      SavePosition(m, AsVetoed(p));
      ReleaseEntering(m);
      DeletePosition(m);
      return Some(AsVetoed(p));
    }

    method ToClosing(m: Mint, p: Position) returns (q: Option<Position>)
      requires Valid()
      modifies this
      ensures Valid() && q == if p.state == Open then Some(AsClosing(p)) else None
      ensures q.None? ==> Abs() == old(Abs())
      ensures q.Some? ==> OnlyAt(old(Abs()), Abs(), m) && Get(Abs(), m) == Saved(Get(old(Abs()), m), AsClosing(p))
    {
      if !Legal(p.state, Closing) {
        return None;
      }
      SavePosition(m, AsClosing(p));
      return Some(AsClosing(p));
    }

    method ToClosed(m: Mint, p: Position) returns (q: Option<Position>)
      requires Valid()
      modifies this
      ensures Valid() && q == if p.state == Closing then Some(AsClosed(p)) else None
      ensures q.None? ==> Abs() == old(Abs())
      ensures q.Some? ==> OnlyAt(old(Abs()), Abs(), m) && Get(Abs(), m) == ClosedOut(Get(old(Abs()), m), p)
    {
      if !Legal(p.state, Closed) {
        return None;
      }
      SavePosition(m, AsClosed(p));
      DeletePosition(m);
      return Some(AsClosed(p));
    }

    // ---------- the registry ----------

    method Register(m: Mint, p: Position)
      requires Valid()
      modifies this
      ensures Valid() && OnlyAt(old(Abs()), Abs(), m) && Get(Abs(), m) == Get(old(Abs()), m).(tracked := Some(p))
    {
      registry := registry[m := p];
    }

    method Unregister(m: Mint)
      requires Valid()
      modifies this
      ensures Valid() && OnlyAt(old(Abs()), Abs(), m) && Get(Abs(), m) == Get(old(Abs()), m).(tracked := None)
    {
      registry := registry - {m};
    }

    /** Drop the FSM and the exit state of m. */
    method Forget(m: Mint)
      requires Valid()
      modifies this
      ensures Valid() && OnlyAt(old(Abs()), Abs(), m)
      ensures Get(Abs(), m) == Get(old(Abs()), m).(tracked := None, exit := false)
    {
      registry := registry - {m};
      exits := exits - {m};
    }

    method SetExit(m: Mint, on: bool)
      requires Valid()
      modifies this
      ensures Valid() && OnlyAt(old(Abs()), Abs(), m) && Get(Abs(), m) == Get(old(Abs()), m).(exit := on)
    {
      exits := if on then exits + {m} else exits - {m};
    }

    // ---------- FastLoop ----------

    method ReconcileFill(m: Mint, fill: Fill, until: int) returns (done: bool)
      requires Valid()
      modifies this
      ensures Valid() && OnlyAt(old(Abs()), Abs(), m)
      ensures Get(Abs(), m) == FillCell(Get(old(Abs()), m), fill, until).0
      ensures done == FillCell(Get(old(Abs()), m), fill, until).1
    {
      hide Get, Canonical;
      var pos := Load(m);
      if pos.None? || pos.value.state != Entering {
        return false;
      }
      var p := if Registered(m).Some? then Registered(m).value else pos.value;
      if !fill.landed {
        var vetoed := ToVetoed(m, p);
        Forget(m);
        SetCooldown(m, until);
        return true;
      }
      var nowOpen := ToOpen(m, p, fill);
      if nowOpen.None? {
        return false;
      }
      Register(m, nowOpen.value);
      SetExit(m, true);
      return true;
    }

    /** `_force_exit` and `_do_full_exit` on the registered FSM of m. */
    method FullExit(m: Mint, until: int)
      requires Valid() && Registered(m).Some?
      modifies this
      ensures Valid() && OnlyAt(old(Abs()), Abs(), m) && Get(Abs(), m) == ExitCell(Get(old(Abs()), m), until)
    {
      hide Get, Canonical;
      var closing := ToClosing(m, Registered(m).value);
      if closing.Some? {
        var closed := ToClosed(m, closing.value);
      }
      Forget(m);
      SetCooldown(m, until);
    }

    /** The transitions of a registered OPEN or CLOSING position in `_flatten_position`. */
    method FlattenRegistered(m: Mint, pos: Position, landed: bool)
      requires Valid() && Load(m) == Some(pos) && Registered(m).Some? && (pos.state == Open || pos.state == Closing)
      modifies this
      ensures Valid() && OnlyAt(old(Abs()), Abs(), m) && Get(Abs(), m) == FlattenCell(Get(old(Abs()), m), landed)
    {
      hide Get, Canonical, OnlyAt;
      var p := Registered(m).value;
      ghost var s := Abs();
      OnlyAtSelf(s, m);
      if pos.state == Open {
        var closing := ToClosing(m, p);
        if closing.Some? {
          p := closing.value;
          ghost var t := Abs();
          Register(m, p);
          OnlyAtTrans(s, t, Abs(), m);
        }
      }
      ghost var u := Abs();
      if landed {
        var closed := ToClosed(m, p);
        if closed.Some? {
          ghost var t := Abs();
          Register(m, closed.value);
          OnlyAtTrans(s, u, t, m);
          OnlyAtTrans(s, t, Abs(), m);
        }
      }
    }

    method FlattenPosition(m: Mint, pos: Position, landed: bool) returns (submitted: bool)
      requires Valid() && Load(m) == Some(pos)
      modifies this
      ensures Valid() && OnlyAt(old(Abs()), Abs(), m) && Get(Abs(), m) == FlattenCell(Get(old(Abs()), m), landed)
      ensures submitted == FlattenSubmits(Get(old(Abs()), m))
    {
      hide Get, Canonical;
      if pos.state == Entering {
        var p := if Registered(m).Some? then Registered(m).value else pos;
        var vetoed := ToVetoed(m, p);
        Unregister(m);
        return false;
      }
      if pos.state != Open && pos.state != Closing {
        return false;
      }
      if Registered(m).Some? {
        FlattenRegistered(m, pos, landed);
      }
      return true;
    }

    /** `emergency_flatten_all`: the loop works on a snapshot of the book; no entry of it is stale
        when its turn comes, so the whole book is flattened mint by mint in any order. */
    method EmergencyFlattenAll(lands: set<Mint>) returns (submitted: set<Mint>)
      requires Valid()
      modifies this
      ensures Valid() && Abs() == FlattenAll(old(Abs()), lands)
      ensures submitted == FlattenSubmissions(old(Abs()))
    {
      hide Get, Canonical, FlattenCell, FlattenSubmits, FlattenAll;
      var snapshot := positions;
      var todo := snapshot.Keys;
      submitted := {};
      ghost var s := Abs();
      while todo != {}
        invariant Valid() && Globals(Abs()) == Globals(s) && todo <= snapshot.Keys
        invariant forall k ::
                    Get(Abs(), k) == if k in snapshot && k !in todo then FlattenCell(Get(s, k), k in lands)
                                     else Get(s, k)
        invariant submitted == set k | k in snapshot && k !in todo && FlattenSubmits(Get(s, k))
        decreases |todo|
      {
        var m :| m in todo;
        SnapshotEntry(s, m);
        var sent := FlattenPosition(m, snapshot[m], m in lands);
        if sent {
          submitted := submitted + {m};
        }
        todo := todo - {m};
      }
      forall k
        ensures Get(Abs(), k) == Get(FlattenAll(s, lands), k)
      {
        FlattenAllGet(s, lands, k);
        SnapshotEntry(s, k);
        if k !in s.positions {
          NoRecordNoFlatten(Get(s, k), k in lands);
        }
      }
      FlattenAllGet(s, lands, "");
      SameCells(Abs(), FlattenAll(s, lands));
    }

    /** `flatten_one`: one mint, and no other. */
    method FlattenOne(m: Mint, landed: bool) returns (found: bool)
      requires Valid()
      modifies this
      ensures Valid() && OnlyAt(old(Abs()), Abs(), m) && Get(Abs(), m) == FlattenCell(Get(old(Abs()), m), landed)
      ensures found == (m in old(positions))
    {
      hide Get, Canonical, FlattenCell;
      SnapshotEntry(Abs(), m);
      if m !in positions {
        NoRecordNoFlatten(Get(Abs(), m), landed);
        return false;
      }
      var submitted := FlattenPosition(m, positions[m], landed);
      return true;
    }

    /** `_sync_registry`: register what the store holds, then drop what it does not. */
    method SyncRegistry()
      requires Valid()
      modifies this
      ensures Valid() && Abs() == SyncAll(old(Abs()))
    {
      hide Get, Canonical, SyncAll;
      var snapshot := positions;
      var todo := snapshot.Keys;
      ghost var s := Abs();
      while todo != {}
        invariant Valid() && Globals(Abs()) == Globals(s) && todo <= snapshot.Keys
        invariant forall k :: Get(Abs(), k) == if k in snapshot && k !in todo then SyncCell(Get(s, k)) else Get(s, k)
        decreases |todo|
      {
        var m :| m in todo;
        SnapshotEntry(s, m);
        SnapshotEntry(Abs(), m);
        if m !in registry {
          Register(m, snapshot[m]);
          ExitEntry(Abs(), m);
          if snapshot[m].state == Open && m !in exits {
            SetExit(m, true);
          }
        }
        todo := todo - {m};
      }
      var stale := registry.Keys - snapshot.Keys;
      SyncedWithout(s, Abs(), stale);
      DropStale(stale);
    }

    /** Remove the entries of mints the store does not hold. */
    method DropStale(stale: set<Mint>)
      requires Valid()
      modifies this
      ensures Abs() == old(Abs()).(registry := old(registry) - stale, exits := old(exits) - stale)
    {
      var done: set<Mint> := {};
      NothingRemoved(registry, exits);
      while done != stale
        invariant done <= stale
        invariant Abs() == old(Abs()).(registry := old(registry) - done, exits := old(exits) - done)
        decreases |stale - done|
      {
        var m :| m in stale - done;
        RemoveOne(old(registry), old(exits), done, m);
        registry := registry - {m};
        exits := exits - {m};
        Shrinks(stale, done, m);
        done := done + {m};
      }
    }

    /** One mint of `tick`. `record_pnl` may trip the breaker, whose flatten runs before it returns. */
    method EvaluateMint(m: Mint, v: Evaluation)
      requires Valid()
      modifies this
      ensures Valid() && Abs() == Evaluate(old(Abs()), m, v)
    {
      hide Get, Canonical, Put, FlattenAll, FlattenCell, ExitCell;
      ghost var s := Abs();
      var fsm := Registered(m);
      if fsm.None? || fsm.value.state != Open {
        return;
      }
      if !v.marked {
        FullExit(m, v.until);
        IsPut(s, Abs(), m, ExitCell(Get(s, m), v.until));
        return;
      }
      ExitEntry(s, m);
      if m !in exits {
        return;
      }
      MarkToMarket(m, v);
      ghost var t := Abs();
      SnapshotEntry(t, m);
      match v.decision
      case Hold =>
      case ScaleOut =>
        var p := registry[m].(tpHit := registry[m].tpHit + 1);
        SavePosition(m, p);
        Register(m, p);
        IsPut(t, Abs(), m, TpHitCell(Get(t, m)));
      case FullExit =>
        FullExit(m, v.until);
        IsPut(t, Abs(), m, ExitCell(Get(t, m), v.until));
    }

    method MarkToMarket(m: Mint, v: Evaluation)
      requires Valid() && Registered(m).Some? && Registered(m).value.state == Open
      modifies this
      ensures Valid() && Abs() == Marked(old(Abs()), m, v) && Registered(m).Some?
    {
      hide Get, Canonical, Put, FlattenAll;
      ghost var s := Abs();
      if v.priced && registry[m].tokensOut > 0 {
        var p := registry[m].(unrealized := v.unrealized);
        SnapshotEntry(s, m);
        SavePosition(m, p);
        Register(m, p);
        IsPut(s, Abs(), m, MarkCell(Get(s, m), v.unrealized));
        ghost var s1 := Abs();
        if v.trip.Some? {
          var submitted := EmergencyFlattenAll(v.trip.value);
          FlattenAllGet(s1, v.trip.value, m);
        }
        SetTripped(Abs(), v.tripped, m);
        tripped := v.tripped;
        SnapshotEntry(Abs(), m);
      }
    }

    /** `continuous_reconcile_tick`, on a snapshot of the book. */
    method ContinuousReconcileTick(slot: int, ttl: int, until: Mint -> int)
      requires Valid()
      modifies this
      ensures Valid() && Abs() == ContinuousAll(old(Abs()), slot, ttl, until)
    {
      hide Get, Canonical, FillCell, ContinuousAll;
      var snapshot := positions;
      var todo := snapshot.Keys;
      ghost var s := Abs();
      while todo != {}
        invariant Valid() && Globals(Abs()) == Globals(s) && todo <= snapshot.Keys
        invariant forall k ::
                    Get(Abs(), k) == if k in snapshot && k !in todo then ContinuousCell(Get(s, k), slot, ttl, until(k))
                                     else Get(s, k)
        decreases |todo|
      {
        var m :| m in todo;
        SnapshotEntry(s, m);
        if snapshot[m].state == Entering && slot - snapshot[m].entrySlot > ttl * 1000 / 400 {
          var done := ReconcileFill(m, Fill(false, 0, 0), until(m));
        }
        todo := todo - {m};
      }
      forall k
        ensures Get(Abs(), k) == Get(ContinuousAll(s, slot, ttl, until), k)
      {
        ContinuousAllGet(s, slot, ttl, until, k);
        SnapshotEntry(s, k);
      }
      ContinuousAllGet(s, slot, ttl, until, "");
      SameCells(Abs(), ContinuousAll(s, slot, ttl, until));
    }

    /** One position of `startup_reconcile`. */
    method StartupPosition(m: Mint, pos: Position, v: VenueAnswer, until: int)
      requires Valid() && Load(m) == Some(pos)
      modifies this
      ensures Valid() && OnlyAt(old(Abs()), Abs(), m) && Get(Abs(), m) == StartupCell(Get(old(Abs()), m), v, until)
    {
      hide Get, Canonical, FillCell;
      match pos.state
      case Idle =>
      case Entering =>
        if v.entryFill.Some? && v.entryFill.value.landed {
          var done := ReconcileFill(m, v.entryFill.value, until);
        } else {
          var done := ReconcileFill(m, Fill(false, 0, 0), until);
        }
      case Open =>
        if v.gone {
          var closing := ToClosing(m, pos);
          var closed := ToClosed(m, closing.value);
        }
      case Closing =>
        if v.exitLanded {
          var closed := ToClosed(m, pos);
        }
      case Closed => DeletePosition(m);
      case Vetoed => DeletePosition(m);
    }

    /** `ControllerOrchestrator.startup`. */
    method Startup(venue: Mint -> VenueAnswer, until: Mint -> int)
      requires Valid()
      modifies this
      ensures Valid() && Abs() == StartupAll(old(Abs()), venue, until)
    {
      hide Get, Canonical, StartupCell, StartupAll;
      var snapshot := positions;
      var todo := snapshot.Keys;
      ghost var s := Abs();
      while todo != {}
        invariant Valid() && Globals(Abs()) == Globals(s) && todo <= snapshot.Keys
        invariant forall k ::
                    Get(Abs(), k) == if k in snapshot && k !in todo then StartupCell(Get(s, k), venue(k), until(k))
                                     else Get(s, k)
        decreases |todo|
      {
        var m :| m in todo;
        SnapshotEntry(s, m);
        StartupPosition(m, snapshot[m], venue(m), until(m));
        todo := todo - {m};
      }
      forall k
        ensures Get(Abs(), k) == Get(StartupAll(s, venue, until), k)
      {
        StartupAllGet(s, venue, until, k);
        SnapshotEntry(s, k);
        if k !in s.positions {
          NoRecordNoStartup(Get(s, k), venue(k), until(k));
        }
      }
      StartupGlobals(s, venue, until);
      StartedCells(Abs(), s, venue, until);
      started := true;
    }

    /** `ControllerOrchestrator.tick`; `order` is the order in which the registry was visited. */
    method Tick(l: Limits, slot: int, env: Mint -> Evaluation, until: Mint -> int)
      returns (raised: bool, order: seq<Mint>)
      requires Valid()
      modifies this
      ensures Valid() && raised == !old(started)
      ensures raised ==> Abs() == old(Abs())
      ensures !raised ==> Abs() == Controller.Tick(l, old(Abs()), slot, order, env, until)
      ensures !raised ==> forall m :: m in order <==> m in SyncAll(old(Abs())).registry
      ensures !raised ==> forall i, j :: 0 <= i < j < |order| ==> order[i] != order[j]
    {
      hide SyncAll, Evaluate, ContinuousAll, Canonical;
      order := [];
      if !started {
        return true, order;
      }
      SyncRegistry();
      ghost var synced := Abs();
      var todo := registry.Keys;
      while todo != {}
        invariant Valid() && todo <= synced.registry.Keys && Abs() == EvaluateAll(synced, order, env)
        invariant forall m :: m in order <==> m in synced.registry && m !in todo
        invariant forall i, j :: 0 <= i < j < |order| ==> order[i] != order[j]
        decreases |todo|
      {
        var m :| m in todo;
        EvaluateMint(m, env(m));
        ghost var longer := order + [m];
        assert longer[..|longer| - 1] == order;
        order := order + [m];
        todo := todo - {m};
      }
      ContinuousReconcileTick(slot, l.enteringTtl, until);
      raised := false;
    }

    // ---------- SnipeLoop ----------

    /** Steps 6 to 11 of `process_event`. */
    method EnterMint(e: Launch, solIn: int) returns (o: Outcome)
      requires Valid()
      modifies this
      ensures Valid() && (Abs(), o) == Enter(old(Abs()), Get(old(Abs()), e.mint), solIn, e)
    {
      hide Get, Canonical, Put, MarkSeen, Claim;
      ghost var s := Abs();
      var m := e.mint;
      ghost var c := Get(s, m);
      OnlyAtSelf(s, m);
      var first := MarkIntentSeen(EntryId(e), SEEN_TTL, e.seenCheck, e.seenNow);
      ghost var s1 := Abs();
      SeenCell(s, seen, m);
      OnlyAtSelf(s1, m);
      if !first {
        IsPut(s1, s1, m, c);
        return Skipped("duplicate_intent");
      }
      var claimed := ClaimEntering(m, EntryId(e), CLAIM_TTL, e.claimNow, e.claimCheck);
      if !claimed {
        IsPut(s1, Abs(), m, c);
        return Skipped("fsm_state_conflict");
      }
      if !e.costOk {
        ReleaseEntering(m);
        IsPut(s1, Abs(), m, c.(lock := None));
        return Skipped("cost_gate_fail");
      }
      if !e.intentOk {
        ReleaseEntering(m);
        IsPut(s1, Abs(), m, c.(lock := None));
        return Skipped("intent_validation_fail");
      }
      SavePosition(m, NewPosition(e, solIn));
      ghost var written := Get(Abs(), m);
      if e.overBudget {
        ReleaseEntering(m);
        DeletePosition(m);
        IsPut(s1, Abs(), m, written.(lock := None, stored := None));
        return Skipped("latency_budget_blown");
      }
      IsPut(s1, Abs(), m, written);
      return Attempted(e.landed);
    }

    /** `SnipeLoop.process_event`. */
    method ProcessEvent(l: Limits, e: Launch) returns (o: Outcome)
      requires Valid()
      modifies this
      ensures Valid() && (Abs(), o) == Snipe(l, old(Abs()), e)
    {
      hide Get, Canonical, Put, Enter, Aggregate;
      ghost var s := Abs();
      OnlyAtSelf(s, e.mint);
      if tripped {
        IsPut(s, s, e.mint, Get(s, e.mint));
        return Skipped("breaker_tripped");
      }
      var cooling := InCooldown(e.mint, e.cooldownNow);
      ghost var c := Cooled(s, e);
      ghost var t := Abs();
      IsPut(s, t, e.mint, c);
      CooledPositions(s, t, e.mint, c);
      if cooling {
        return Skipped("in_cooldown");
      }
      if e.aboveThreshold.None? {
        return Skipped("no_signal");
      }
      if !e.aboveThreshold.value {
        return Skipped("below_snipe_threshold");
      }
      if e.stalenessMs > STALENESS_BUDGET_MS {
        return Skipped("stale_signal");
      }
      if e.vetoed {
        return Skipped("veto_active");
      }
      if !e.gateOk {
        return Skipped("safety_gate_fail");
      }
      var aggregate := AggregateOpen();
      var solIn: int;
      if e.sized.Some? {
        solIn := e.sized.value;
      } else {
        var headroom := Max(0, l.maxAggregate - aggregate);
        solIn := Min(Min(l.minSol, l.perTradeCap), headroom);
      }
      if solIn <= 0 {
        return Skipped("size_zero");
      }
      EnterOver(s, c, solIn, e);
      o := EnterMint(e, solIn);
    }

    /** `ControllerOrchestrator.on_launch_event`: refused before startup, gated by the kill switch. */
    method OnLaunchEvent(l: Limits, e: Launch) returns (r: Result<Option<Outcome>, string>)
      requires Valid()
      modifies this
      ensures Valid() && Abs() == Apply(l, old(Abs()), Launched(e))
      ensures r.Err? <==> !old(started)
      ensures r.Ok? ==> r.value == if old(killed) then None else Some(Snipe(l, old(Abs()), e).1)
    {
      if !started {
        return Err("startup must be called first");
      }
      if killed {
        return Ok(None);
      }
      var o := ProcessEvent(l, e);
      return Ok(Some(o));
    }

    /** `post_kill`: no entries from here on, then flatten the book. */
    method Kill(lands: set<Mint>) returns (submitted: set<Mint>)
      requires Valid()
      modifies this
      ensures Valid() && Abs() == FlattenAll(old(Abs()).(killed := true), lands)
      ensures submitted == FlattenSubmissions(old(Abs()))
    {
      hide Get, Canonical, FlattenAll, FlattenSubmissions;
      KillOnly(Abs());
      killed := true;
      submitted := EmergencyFlattenAll(lands);
    }
  }

  lemma SnapshotEntry(s: State, m: Mint)
    ensures Get(s, m).stored == Lookup(s.positions, m) && Get(s, m).tracked == Lookup(s.registry, m)
  {
  }

  lemma ExitEntry(s: State, m: Mint)
    ensures Get(s, m).exit == (m in s.exits)
  {
  }

  lemma NothingRemoved(registry: map<Mint, Position>, exits: set<Mint>)
    ensures registry - {} == registry && exits - {} == exits
  {
  }

  lemma RemoveOne(registry: map<Mint, Position>, exits: set<Mint>, done: set<Mint>, m: Mint)
    ensures registry - done - {m} == registry - (done + {m})
    ensures exits - done - {m} == exits - (done + {m})
  {
  }

  lemma Shrinks(all: set<Mint>, done: set<Mint>, m: Mint)
    requires m in all - done
    ensures |all - (done + {m})| < |all - done|
  {
    assert all - (done + {m}) == (all - done) - {m};
  }

  /** Stored mints synced and stale entries dropped is a sync of the whole state. */
  lemma SyncedWithout(s: State, t: State, stale: set<Mint>)
    requires Canonical(t) && Globals(t) == Globals(s) && stale == t.registry.Keys - s.positions.Keys
    requires forall k :: Get(t, k) == if k in s.positions then SyncCell(Get(s, k)) else Get(s, k)
    ensures t.(registry := t.registry - stale, exits := t.exits - stale) == SyncAll(s)
    ensures Canonical(t.(registry := t.registry - stale, exits := t.exits - stale))
  {
    hide SyncAll;
    var u := t.(registry := t.registry - stale, exits := t.exits - stale);
    forall k
      ensures Get(u, k) == Get(SyncAll(s), k)
    {
      SyncAllGet(s, k);
      SyncedCell(s, t, stale, k);
    }
    SyncAllGet(s, "");
    SameCells(u, SyncAll(s));
  }

  lemma SyncedCell(s: State, t: State, stale: set<Mint>, k: Mint)
    requires stale == t.registry.Keys - s.positions.Keys
    requires Get(t, k) == if k in s.positions then SyncCell(Get(s, k)) else Get(s, k)
    ensures Get(t.(registry := t.registry - stale, exits := t.exits - stale), k) == SyncCell(Get(s, k))
  {
  }

  lemma NoRecordNoStartup(c: Cell, v: VenueAnswer, until: int)
    requires c.stored.None?
    ensures StartupCell(c, v, until) == c
  {
  }

  lemma StartupGlobals(s: State, venue: Mint -> VenueAnswer, until: Mint -> int)
    ensures Globals(StartupAll(s, venue, until)) == (s.seen, s.tripped, s.killed, true)
  {
  }

  lemma StartedCells(t: State, s: State, venue: Mint -> VenueAnswer, until: Mint -> int)
    requires Canonical(t) && Globals(t) == Globals(s) && forall k :: Get(t, k) == Get(StartupAll(s, venue, until), k)
    ensures t.(started := true) == StartupAll(s, venue, until) && Canonical(t.(started := true))
  {
    hide StartupAll;
    var u := t.(started := true);
    StartupGlobals(s, venue, until);
    StartupAllGet(s, venue, until, "");
    forall k
      ensures Get(u, k) == Get(StartupAll(s, venue, until), k)
    {
      assert Get(u, k) == Get(t, k);
    }
    SameCells(u, StartupAll(s, venue, until));
  }

  lemma SeenCell(s: State, seen: map<IntentId, int>, m: Mint)
    ensures Get(s.(seen := seen), m) == Get(s, m)
  {
  }

  lemma KillOnly(s: State)
    ensures Canonical(s) ==> Canonical(s.(killed := true))
    ensures FlattenSubmissions(s.(killed := true)) == FlattenSubmissions(s)
  {
    hide FlattenSubmits;
    forall m
      ensures Get(s.(killed := true), m) == Get(s, m)
    {
    }
  }

  lemma CooledPositions(s: State, t: State, m: Mint, c: Cell)
    requires t == Put(s, m, c) && c.stored == Get(s, m).stored
    ensures t.positions == s.positions
  {
  }

  lemma PutPut(s: State, seen: map<IntentId, int>, m: Mint, c: Cell, d: Cell)
    ensures Put(Put(s, m, c).(seen := seen), m, d) == Put(s.(seen := seen), m, d)
    ensures Put(Put(s, m, c), m, d) == Put(s, m, d)
  {
    hide Assign;
    AssignTwice(s.positions, m, c.stored, d.stored);
    AssignTwice(s.registry, m, c.tracked, d.tracked);
    AssignTwice(s.locks, m, c.lock, d.lock);
    AssignTwice(s.cooldowns, m, c.cooldown, d.cooldown);
    AssignTwice(s.history, m, if c.history == [] then None else Some(c.history),
                if d.history == [] then None else Some(d.history));
    assert (s.exits + {m}) + {m} == s.exits + {m} && (s.exits - {m}) + {m} == s.exits + {m};
    assert (s.exits + {m}) - {m} == s.exits - {m} && (s.exits - {m}) - {m} == s.exits - {m};
  }

  lemma AssignTwice<K, V>(mp: map<K, V>, k: K, a: Option<V>, b: Option<V>)
    ensures Assign(Assign(mp, k, a), k, b) == Assign(mp, k, b)
  {
  }

  /** Entering from a state whose cell was already rewritten is entering from the one before. */
  lemma EnterOver(s: State, c: Cell, solIn: int, e: Launch)
    ensures Enter(Put(s, e.mint, c), c, solIn, e) == Enter(s, c, solIn, e)
  {
    hide Put, Get;
    forall d: Cell, seen: map<IntentId, int>
      ensures Put(Put(s, e.mint, c).(seen := seen), e.mint, d) == Put(s.(seen := seen), e.mint, d)
      ensures Put(Put(s, e.mint, c), e.mint, d) == Put(s, e.mint, d)
    {
      PutPut(s, seen, e.mint, c, d);
    }
    GetPut(s, e.mint, c, e.mint);
  }
}
