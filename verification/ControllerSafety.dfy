/** Runs of the controller: any sequence of its steps, and the safety that holds in every state reached. */
module ControllerSafety {
  import opened Common
  import opened ControllerState
  import opened PositionFsm
  import opened Controller
  import opened ControllerRuns

  datatype Step =
    | Launched(event: Launch)
    | Filled(mint: Mint, fill: Fill, until: int)
    | Ticked(slot: int, order: seq<Mint>, env: Mint -> Evaluation, untils: Mint -> int)
    | Flattened(lands: set<Mint>)
    | FlattenedOne(mint: Mint, landed: bool)
    | Killed(lands: set<Mint>)
    | Cleared
    | BreakerSet(on: bool)
    | Crashed
    | Started(venue: Mint -> VenueAnswer, untils: Mint -> int)

  /** One step of `ControllerOrchestrator` or of the operator. Before `startup` events and ticks raise. */
  ghost function Apply(l: Limits, s: State, step: Step): State
  {
    match step
    case Launched(e) => if !s.started || s.killed then s else Snipe(l, s, e).0
    case Filled(m, fill, until) => Put(s, m, FillCell(Get(s, m), fill, until).0)
    case Ticked(slot, order, env, untils) => if !s.started then s else Tick(l, s, slot, order, env, untils)
    case Flattened(lands) => FlattenAll(s, lands)
    case FlattenedOne(m, landed) => Put(s, m, FlattenCell(Get(s, m), landed))
    case Killed(lands) => FlattenAll(s.(killed := true), lands)
    case Cleared => s.(killed := false)
    case BreakerSet(on) => s.(tripped := on)
    case Crashed => CrashAll(s)
    case Started(venue, untils) => StartupAll(s, venue, untils)
  }

  /** The environment: SNIPE acts only on fresh mints with the fallback sizing, and `startup` runs on
      an empty registry. */
  predicate Admissible(s: State, step: Step)
  {
    match step
    case Launched(e) => s.started && !s.killed ==> Fresh(s, e.mint) && e.sized.None?
    case Started(_, _) => s.registry == map[] && s.exits == {}
    case _ => true
  }

  ghost function Run(l: Limits, s: State, steps: seq<Step>): State
  {
    if steps == [] then s else Apply(l, Run(l, s, steps[..|steps| - 1]), steps[|steps| - 1])
  }

  ghost predicate AdmissibleRun(l: Limits, s: State, steps: seq<Step>)
  {
    steps == [] ||
    (AdmissibleRun(l, s, steps[..|steps| - 1]) && Admissible(Run(l, s, steps[..|steps| - 1]), steps[|steps| - 1]))
  }

  /** The step is a tick one of whose evaluations writes a terminal record back. */
  ghost predicate Revives(s: State, step: Step)
  {
    step.Ticked? && s.started && ResurrectsIn(SyncAll(s), step.order, step.env)
  }

  /** Some tick of the run revived a record, and no startup came after it. */
  ghost predicate Revived(l: Limits, s: State, steps: seq<Step>)
  {
    steps != [] &&
    var front, step := steps[..|steps| - 1], steps[|steps| - 1];
    !step.Started? && (Revived(l, s, front) || Revives(Run(l, s, front), step))
  }

  const INITIAL: State := State(map[], map[], {}, map[], map[], map[], map[], false, false, false)

  // ---------- one step ----------

  lemma SetKilled(s: State, b: bool)
    requires Inv(s)
    ensures KeepsAll(s, s.(killed := b)) && (LiveStore(s) ==> LiveStore(s.(killed := b)))
  {
    hide CellInv, Live, LegalHistory;
    forall m
      ensures Get(s.(killed := b), m) == Get(s, m)
    {
    }
  }

  lemma CrashKeeps(s: State)
    requires Inv(s)
    ensures KeepsAll(s, CrashAll(s)) && (LiveStore(s) ==> LiveStore(CrashAll(s)))
  {
    hide Get, CrashAll, LegalHistory, Canonical;
    CrashAllGet(s, "");
    forall m
      ensures Keeps(Get(s, m), Get(CrashAll(s), m)) && (Live(Get(s, m)) ==> Live(Get(CrashAll(s), m)))
    {
      assert CellInv(Get(s, m));
      CrashAllGet(s, m);
    }
  }

  lemma StartKeeps(s: State, venue: Mint -> VenueAnswer, untils: Mint -> int)
    requires Inv(s) && s.registry == map[] && s.exits == {}
    ensures KeepsAll(s, StartupAll(s, venue, untils)) && LiveStore(StartupAll(s, venue, untils))
  {
    hide CellInv, StartupCell, StartupAll, Derisks, Canonical;
    var t := StartupAll(s, venue, untils);
    StartupAllGet(s, venue, untils, "");
    forall m
      ensures Keeps(Get(s, m), Get(t, m)) && Live(Get(t, m))
    {
      assert Get(s, m) == CrashCell(Get(s, m));
      StartupAllGet(s, venue, untils, m);
      StartupKeeps(Get(s, m), venue(m), untils(m));
      StartupSettles(Get(s, m), venue(m), untils(m));
    }
  }

  /** Every step but a launch keeps the invariant and adds no exposure. */
  lemma StepDerisks(l: Limits, s: State, step: Step)
    requires Inv(s) && Admissible(s, step) && (step.Launched? ==> !s.started || s.killed)
    ensures KeepsAll(s, Apply(l, s, step))
    ensures LiveStore(s) && !Revives(s, step) ==> LiveStore(Apply(l, s, step))
  {
    hide Inv, Derisked, LiveStore, FlattenAll, StartupAll, CrashAll, Tick, Put, FillCell, FlattenCell, CellInv, Snipe,
      ResurrectsIn;
    SelfKeeps(s);
    match step
    case Launched(e) =>
    case Filled(m, fill, until) =>
      CellOf(s, m);
      FillKeeps(Get(s, m), fill, until);
      PutKeepsLive(s, m, FillCell(Get(s, m), fill, until).0);
    case Ticked(slot, order, env, untils) =>
      TickKeeps(l, s, slot, order, env, untils);
    case Flattened(lands) =>
      FlattenAllKeeps(s, lands);
    case FlattenedOne(m, landed) =>
      CellOf(s, m);
      FlattenKeeps(Get(s, m), landed);
      PutKeepsLive(s, m, FlattenCell(Get(s, m), landed));
    case Killed(lands) =>
      SetKilled(s, true);
      FlattenAllKeeps(s.(killed := true), lands);
      DeriskedTrans(s, s.(killed := true), FlattenAll(s.(killed := true), lands));
    case Cleared =>
      SetKilled(s, false);
    case BreakerSet(on) =>
      TrippedKeeps(s, s, on);
    case Crashed =>
      CrashKeeps(s);
    case Started(venue, untils) =>
      StartKeeps(s, venue, untils);
  }

  lemma CellOf(s: State, m: Mint)
    requires Inv(s)
    ensures CellInv(Get(s, m))
  {
  }

  lemma SelfKeeps(s: State)
    requires Inv(s)
    ensures KeepsAll(s, s)
  {
    forall m
      ensures Derisks(Get(s, m), Get(s, m))
    {
      DerisksSelf(Get(s, m));
    }
  }

  // ---------- terminal records ----------

  /** Only a startup removes a terminal record. */
  lemma StepStuck(l: Limits, s: State, step: Step, m: Mint)
    requires Inv(s) && Admissible(s, step) && !step.Started? && Stuck(Get(s, m))
    ensures Stuck(Get(Apply(l, s, step), m))
  {
    hide Inv, FlattenAll, CrashAll, Tick, Put, Get, FlattenCell, CellInv, Snipe, ContinuousCell;
    var c := Get(s, m);
    match step
    case Launched(e) =>
      SnipeExact(l, s, e);
      FreshMint(s, e.mint);
    case Filled(k, fill, until) =>
      GetPut(s, k, FillCell(Get(s, k), fill, until).0, m);
    case Ticked(slot, order, env, untils) =>
      TickStuck(l, s, slot, order, env, untils, m);
    case Flattened(lands) =>
      FlattenAllGet(s, lands, m);
      StuckCell(c, m in lands, 0, 0, 0);
    case FlattenedOne(k, landed) =>
      GetPut(s, k, FlattenCell(Get(s, k), landed), m);
      StuckCell(c, landed, 0, 0, 0);
    case Killed(lands) =>
      FlattenAllGet(s.(killed := true), lands, m);
      KilledCell(s, true, m);
      StuckCell(c, m in lands, 0, 0, 0);
    case Cleared =>
      KilledCell(s, false, m);
    case BreakerSet(on) =>
      SetTripped(s, on, m);
    case Crashed =>
      CrashAllGet(s, m);
  }

  lemma KilledCell(s: State, b: bool, m: Mint)
    ensures Get(s.(killed := b), m) == Get(s, m)
  {
  }

  lemma FreshMint(s: State, m: Mint)
    ensures Fresh(s, m) <==> Get(s, m).stored.None? && Get(s, m).tracked.None?
  {
  }

  lemma TickStuck(l: Limits, s: State, slot: int, order: seq<Mint>, env: Mint -> Evaluation, untils: Mint -> int,
                  m: Mint)
    requires Stuck(Get(s, m))
    ensures var d := Get(Tick(l, s, slot, order, env, untils), m); Stuck(d) && d.stored == Get(s, m).stored
  {
    hide EvaluateAll, SyncAll, ContinuousAll, FlattenCell, ContinuousCell, SyncCell, Get;
    var c := Get(s, m);
    StuckCell(c, false, slot, l.enteringTtl, untils(m));
    SyncAllGet(s, m);
    EvaluateAllStuck(SyncAll(s), order, env, m);
    ContinuousAllGet(EvaluateAll(SyncAll(s), order, env), slot, l.enteringTtl, untils, m);
    StuckCell(SyncCell(c), false, slot, l.enteringTtl, untils(m));
  }

  /** One step: a startup clears every terminal record, any other keeps them, and only a reviving tick
      adds one. */
  lemma StepLive(l: Limits, s: State, step: Step)
    requires Inv(s) && Admissible(s, step)
    ensures LiveStore(Apply(l, s, step)) <==> step.Started? || (LiveStore(s) && !Revives(s, step))
  {
    hide Inv, Derisked, Live, FlattenAll, StartupAll, CrashAll, Tick, Put, Get, FillCell, FlattenCell, Snipe,
      ResurrectsIn, Stuck;
    if step.Started? {
      StartKeeps(s, step.venue, step.untils);
    } else if LiveStore(s) {
      if Revives(s, step) {
        TickKeeps(l, s, step.slot, step.order, step.env, step.untils);
      } else if step.Launched? && s.started && !s.killed {
        SnipeKeeps(l, s, step.event);
      } else {
        StepDerisks(l, s, step);
      }
    } else {
      var m :| !Live(Get(s, m));
      DeadIsStuck(s, m);
      StepStuck(l, s, step, m);
      StuckIsDead(Apply(l, s, step), m);
    }
  }

  // ---------- every reachable state ----------

  /** In every state of every admissible run registry and store agree, every save followed a legal
      edge, and the summed exposure is within the limit. The store is free of terminal records exactly
      when no tick since the last startup wrote one back. */
  lemma {:induction false} Safety(l: Limits, steps: seq<Step>)
    requires AdmissibleRun(l, INITIAL, steps) && l.maxAggregate >= 0
    ensures Inv(Run(l, INITIAL, steps))
    ensures Aggregate(Run(l, INITIAL, steps).positions) <= l.maxAggregate
    ensures LiveStore(Run(l, INITIAL, steps)) <==> !Revived(l, INITIAL, steps)
  {
    hide Inv, LiveStore, Apply, Admissible, Revives;
    if steps == [] {
      InitialInv();
    } else {
      var front := steps[..|steps| - 1];
      var step := steps[|steps| - 1];
      Safety(l, front);
      StepSafety(l, Run(l, INITIAL, front), step);
      StepLive(l, Run(l, INITIAL, front), step);
    }
  }

  lemma InitialInv()
    ensures Inv(INITIAL) && LiveStore(INITIAL) && Aggregate(INITIAL.positions) == 0
  {
  }

  lemma StepSafety(l: Limits, s: State, step: Step)
    requires Inv(s) && Admissible(s, step) && Aggregate(s.positions) <= l.maxAggregate
    ensures Inv(Apply(l, s, step)) && Aggregate(Apply(l, s, step).positions) <= l.maxAggregate
  {
    hide Inv, Derisked, LiveStore, Aggregate, FlattenAll, StartupAll, CrashAll, Tick, Put, FillCell, FlattenCell, Snipe;
    if step.Launched? && s.started && !s.killed {
      SnipeKeeps(l, s, step.event);
    } else {
      StepDerisks(l, s, step);
      DeriskedAggregate(s, Apply(l, s, step));
    }
  }

  // ---------- after a kill ----------

  /** Neither cleared nor crashed: the kill flag lives in the process, and a new one starts without it. */
  predicate StaysKilled(steps: seq<Step>)
  {
    forall k :: 0 <= k < |steps| ==> !steps[k].Cleared? && !steps[k].Crashed?
  }

  /** A kill sets the flag, a clear or a crash drops it, and nothing else touches it. */
  lemma KilledExactly(l: Limits, s: State, step: Step)
    ensures Apply(l, s, step).killed <==> step.Killed? || (s.killed && !step.Cleared? && !step.Crashed?)
  {
    hide Snipe, Tick, FlattenAll, FillCell, FlattenCell, Get;
    match step
    case Launched(e) => SnipeExact(l, s, e);
    case Ticked(slot, order, env, untils) =>
      TickFlags(l, s, slot, order, env, untils);
    case Flattened(lands) => FlattenAllGet(s, lands, "");
    case Killed(lands) => FlattenAllGet(s.(killed := true), lands, "");
    case Started(venue, untils) => StartupAllGet(s, venue, untils, "");
    case _ =>
  }

  /** A startup starts the controller, a crash stops it, and nothing else does either. */
  lemma StartedExactly(l: Limits, s: State, step: Step)
    ensures Apply(l, s, step).started <==> step.Started? || (s.started && !step.Crashed?)
  {
    hide Snipe, Tick, FlattenAll, FillCell, FlattenCell, Get;
    match step
    case Launched(e) => SnipeExact(l, s, e);
    case Ticked(slot, order, env, untils) =>
      TickFlags(l, s, slot, order, env, untils);
    case Flattened(lands) => FlattenAllGet(s, lands, "");
    case Killed(lands) => FlattenAllGet(s.(killed := true), lands, "");
    case _ =>
  }

  lemma TickFlags(l: Limits, s: State, slot: int, order: seq<Mint>, env: Mint -> Evaluation, untils: Mint -> int)
    ensures var t := Tick(l, s, slot, order, env, untils);
            t.killed == s.killed && t.started == s.started
  {
    hide SyncAll, EvaluateAll, ContinuousAll, Get, Canonical;
    SyncAllGet(s, "");
    EvaluateAllKilled(SyncAll(s), order, env);
    ContinuousAllGet(EvaluateAll(SyncAll(s), order, env), slot, l.enteringTtl, untils, "");
  }

  lemma EvaluateKilled(s: State, m: Mint, v: Evaluation)
    ensures Evaluate(s, m, v).killed == s.killed && Evaluate(s, m, v).started == s.started
  {
    hide Get, Put, Marked, Decided, ExitCell;
    GetPut(s, m, ExitCell(Get(s, m), v.until), m);
    MarkedGlobals(s, m, v);
    DecidedGlobals(Marked(s, m, v), m, v);
  }

  lemma {:induction false} EvaluateAllKilled(s: State, order: seq<Mint>, env: Mint -> Evaluation)
    ensures EvaluateAll(s, order, env).killed == s.killed && EvaluateAll(s, order, env).started == s.started
  {
    hide Evaluate;
    if order != [] {
      var m := order[|order| - 1];
      EvaluateAllKilled(s, order[..|order| - 1], env);
      EvaluateKilled(EvaluateAll(s, order[..|order| - 1], env), m, env(m));
    }
  }

  /** Once killed, no run without a clear or a crash adds a mint to the store or raises the aggregate
      exposure, whatever events, fills, ticks, reconciles and flattens it holds. */
  lemma {:induction false} KillSafety(l: Limits, s: State, steps: seq<Step>)
    requires Inv(s) && s.killed && AdmissibleRun(l, s, steps) && StaysKilled(steps)
    ensures var t := Run(l, s, steps);
            t.killed && KeepsAll(s, t) && t.positions.Keys <= s.positions.Keys &&
            Aggregate(t.positions) <= Aggregate(s.positions)
  {
    hide Inv, Derisked, Apply, Admissible, Aggregate;
    SelfKeeps(s);
    if steps != [] {
      var front := steps[..|steps| - 1];
      var step := steps[|steps| - 1];
      var t := Run(l, s, front);
      KillSafety(l, s, front);
      StepDerisks(l, t, step);
      KilledExactly(l, t, step);
      DeriskedTrans(s, t, Apply(l, t, step));
    }
    DeriskedAggregate(s, Run(l, s, steps));
  }

  // ---------- emergency flatten ----------

  /** An ENTERING record, or an OPEN or CLOSING one whose FSM is registered. */
  predicate Flattens(s: State, m: Mint)
    requires m in s.positions
  {
    !Terminal(s.positions[m].state) && (s.positions[m].state == Entering || m in s.registry)
  }

  /** With every exit landing, one flatten empties the store exactly when no stored record is terminal
      and every OPEN or CLOSING one is registered; a second call then submits nothing. */
  lemma FlattenEmpties(s: State, lands: set<Mint>)
    requires Inv(s) && s.positions.Keys <= lands
    ensures FlattenAll(s, lands).positions == map[] <==>
            forall m :: m in s.positions ==> Flattens(s, m)
    ensures FlattenAll(s, lands).positions == map[] ==> FlattenSubmissions(FlattenAll(s, lands)) == {}
  {
    hide Inv, FlattenAll, FlattenCell, LegalHistory;
    var t := FlattenAll(s, lands);
    forall m
      ensures m in t.positions <==>
              m in s.positions && !Flattens(s, m)
    {
      CellOf(s, m);
      FlattenAllGet(s, lands, m);
      assert m in t.positions <==> Get(t, m).stored.Some?;
      NotIdle(s, m);
      if m in s.positions {
        FlattenDeletes(Get(s, m));
      } else {
        NoRecordNoFlatten(Get(s, m), m in lands);
      }
    }
  }

  /** As steps of a run, a kill and a flatten empty the store under exactly that condition. */
  lemma KillEmpties(l: Limits, s: State, lands: set<Mint>, step: Step)
    requires Inv(s) && s.positions.Keys <= lands && (step == Killed(lands) || step == Flattened(lands))
    ensures Apply(l, s, step).positions == map[] <==> forall m :: m in s.positions ==> Flattens(s, m)
  {
    hide FlattenAll;
    var k := s.(killed := true);
    forall m
      ensures Get(k, m) == Get(s, m)
    {
    }
    FlattenEmpties(s, lands);
    FlattenEmpties(k, lands);
    assert forall m :: m in s.positions ==> (Flattens(k, m) <==> Flattens(s, m));
  }

  /** A flatten submits an exit for exactly the OPEN and CLOSING records. */
  lemma SubmissionsExactly(s: State, m: Mint)
    ensures m in FlattenSubmissions(s) <==>
            m in s.positions && (s.positions[m].state == Open || s.positions[m].state == Closing)
  {
  }

  lemma NoRecordNoFlatten(c: Cell, landed: bool)
    requires c.stored.None?
    ensures FlattenCell(c, landed) == c
  {
  }

  lemma NotIdle(s: State, m: Mint)
    requires Inv(s)
    ensures m in s.positions ==> s.positions[m].state != Idle
  {
    hide LegalHistory;
    assert CellInv(Get(s, m));
    NeverIdle(Past(s.history, m));
  }

  /** A terminal record, once in the store, outlives every flatten and every tick unchanged, and so
      keeps its exposure in the aggregate. */
  lemma ResurrectedStays(l: Limits, s: State, m: Mint, lands: set<Mint>, slot: int, order: seq<Mint>,
                         env: Mint -> Evaluation, untils: Mint -> int)
    requires Inv(s) && m in s.positions && Terminal(s.positions[m].state)
    ensures Lookup(FlattenAll(s, lands).positions, m) == Some(s.positions[m])
    ensures Lookup(Tick(l, s, slot, order, env, untils).positions, m) == Some(s.positions[m])
  {
    hide FlattenAll, Tick, LegalHistory, FlattenCell;
    var c := Get(s, m);
    assert CellInv(c) && Stuck(c);
    FlattenAllGet(s, lands, m);
    StuckCell(c, m in lands, 0, 0, 0);
    TickStuck(l, s, slot, order, env, untils, m);
    StoredIs(FlattenAll(s, lands), m);
    StoredIs(Tick(l, s, slot, order, env, untils), m);
  }

  lemma StoredIs(s: State, m: Mint)
    ensures Get(s, m).stored == Lookup(s.positions, m)
  {
  }

  // ---------- restart ----------

  /** After a crash and `startup`, the store holds only OPEN and CLOSING records; an OPEN one is known to
      the venue unless the venue listed no mint, or omitted one whose entry fill it reported landed;
      and absent that omission a second startup changes no cell. */
  lemma RestartSettles(s: State, venue: Mint -> VenueAnswer, untils: Mint -> int, later: Mint -> int, m: Mint)
    requires Inv(s)
    ensures var t := StartupAll(CrashAll(s), venue, untils);
            (m in t.positions ==> t.positions[m].state == Open || t.positions[m].state == Closing) &&
            (m in t.positions && t.positions[m].state == Open && venue(m).gone <==>
             FillNotListed(Get(s, m), venue(m))) &&
            (Get(StartupAll(t, venue, later), m) == Get(t, m) <==> !FillNotListed(Get(s, m), venue(m)))
  {
    hide Inv, StartupAll, CrashAll, StartupCell, CrashCell, CellInv;
    var t := StartupAll(CrashAll(s), venue, untils);
    CellOf(s, m);
    CrashAllGet(s, m);
    StartupAllGet(CrashAll(s), venue, untils, m);
    StartupAllGet(t, venue, later, m);
    StartupSettles(Get(s, m), venue(m), untils(m));
    StartupOpenIsKnown(Get(s, m), venue(m), untils(m));
    StartupIdempotent(Get(s, m), venue(m), untils(m), later(m));
    assert Get(t, m).stored == Lookup(t.positions, m);
  }
}
