/** The controller as a step machine: launch events, fills, ticks, flattening, kill, crash and
    startup reconciliation, each atomic, on the whole state. */
module Controller {
  import opened Common
  import opened ControllerState
  import opened PositionFsm

  /** The configured limits the SNIPE loop's fallback sizing and the reconciler read. */
  datatype Limits = Limits(minSol: int, perTradeCap: int, maxAggregate: int, enteringTtl: int)

  // ---------- launch events ----------

  const CLAIM_TTL: int := 30
  const SEEN_TTL: int := 120
  const STALENESS_BUDGET_MS: int := 5000

  /** A launch event with what the pre-staged signal, the gates, the clock and the venue answer.
      `aboveThreshold` is absent when there is no signal; `sized` is a sizing engine's answer. */
  datatype Launch = Launch(
    mint: Mint, slot: int, aboveThreshold: Option<bool>, stalenessMs: int, vetoed: bool, gateOk: bool,
    sized: Option<int>, costOk: bool, intentOk: bool, overBudget: bool, landed: bool,
    cooldownNow: int, seenCheck: int, seenNow: int, claimNow: int, claimCheck: int)

  datatype Outcome = Skipped(reason: string) | Attempted(landed: bool)

  predicate Held(expiry: Option<int>, check: int)
  {
    expiry.Some? && check < expiry.value
  }

  /** `claim_entering`: the lock it leaves, if the claim succeeds. */
  function Claim(lock: Option<Lock>, id: IntentId, now: int, check: int, ttl: int): Option<Lock>
  {
    if lock.Some? && Held(Some(lock.value.expiry), check) then None else Some(Lock(id, now + ttl * 1000))
  }

  /** `mark_intent_seen`: the table it leaves, if the id is new. */
  function MarkSeen(seen: map<IntentId, int>, id: IntentId, check: int, now: int, ttl: int): Option<map<IntentId, int>>
  {
    if Held(Lookup(seen, id), check) then None else Some(seen[id := now + ttl * 1000])
  }

  /** The checks before sizing that skip an event, in order. */
  function Refusal(tripped: bool, cooling: bool, e: Launch): Option<string>
  {
    if tripped then Some("breaker_tripped")
    else if cooling then Some("in_cooldown")
    else if e.aboveThreshold.None? then Some("no_signal")
    else if !e.aboveThreshold.value then Some("below_snipe_threshold")
    else if e.stalenessMs > STALENESS_BUDGET_MS then Some("stale_signal")
    else if e.vetoed then Some("veto_active")
    else if !e.gateOk then Some("safety_gate_fail")
    else None
  }

  function Size(l: Limits, aggregate: int, e: Launch): int
  {
    if e.sized.Some? then e.sized.value
    else Min(Min(l.minSol, l.perTradeCap), Max(0, l.maxAggregate - aggregate))
  }

  function EntryId(e: Launch): IntentId
  {
    IntentId(e.mint, e.slot, "ENTRY")
  }

  function NewPosition(e: Launch, solIn: int): Position
  {
    Position(Entering, e.slot, solIn, 0, 0, 0, 0, None)
  }

  /** `in_cooldown` forgets an expired cooldown; the breaker check comes before it. */
  function Cooled(s: State, e: Launch): Cell
  {
    var c := Get(s, e.mint);
    if s.tripped || Held(c.cooldown, e.cooldownNow) then c else c.(cooldown := None)
  }

  /** Steps 6 to 11 of `process_event`: dedup, claim, gates, write-ahead, submit. */
  function Enter(s: State, c: Cell, solIn: int, e: Launch): (State, Outcome)
  {
    var seen := MarkSeen(s.seen, EntryId(e), e.seenCheck, e.seenNow, SEEN_TTL);
    if seen.None? then (Put(s, e.mint, c), Skipped("duplicate_intent"))
    else
      var s1 := s.(seen := seen.value);
      var lock := Claim(c.lock, EntryId(e), e.claimNow, e.claimCheck, CLAIM_TTL);
      if lock.None? then (Put(s1, e.mint, c), Skipped("fsm_state_conflict"))
      else if !e.costOk then (Put(s1, e.mint, c.(lock := None)), Skipped("cost_gate_fail"))
      else if !e.intentOk then (Put(s1, e.mint, c.(lock := None)), Skipped("intent_validation_fail"))
      else
        var written := Saved(c.(lock := lock), NewPosition(e, solIn));
        if e.overBudget then (Put(s1, e.mint, written.(lock := None, stored := None)), Skipped("latency_budget_blown"))
        else (Put(s1, e.mint, written), Attempted(e.landed))
  }

  /** `SnipeLoop.process_event`. */
  ghost function Snipe(l: Limits, s: State, e: Launch): (State, Outcome)
  {
    var c := Cooled(s, e);
    var refusal := Refusal(s.tripped, Held(Get(s, e.mint).cooldown, e.cooldownNow), e);
    var solIn := Size(l, Aggregate(s.positions), e);
    if refusal.Some? then (Put(s, e.mint, c), Skipped(refusal.value))
    else if solIn <= 0 then (Put(s, e.mint, c), Skipped("size_zero"))
    else Enter(s, c, solIn, e)
  }

  // ---------- whole-book operations ----------

  /** `emergency_flatten_all`; `lands` are the mints whose exit lands. */
  function FlattenAll(s: State, lands: set<Mint>): State
  {
    MapCells(s, (m, c) => FlattenCell(c, m in lands))
  }

  /** The mints `emergency_flatten_all` submits an exit for. */
  function FlattenSubmissions(s: State): set<Mint>
  {
    set m | m in s.positions && FlattenSubmits(Get(s, m))
  }

  function SyncAll(s: State): State
  {
    MapCells(s, (m: Mint, c) => SyncCell(c))
  }

  function ContinuousAll(s: State, slot: int, ttl: int, until: Mint -> int): State
  {
    MapCells(s, (m, c) => ContinuousCell(c, slot, ttl, until(m)))
  }

  function StartupAll(s: State, venue: Mint -> VenueAnswer, until: Mint -> int): State
  {
    MapCells(s, (m, c) => StartupCell(c, venue(m), until(m))).(started := true)
  }

  function CrashAll(s: State): State
  {
    MapCells(s, (m: Mint, c) => CrashCell(c)).(killed := false, started := false)
  }

  lemma FlattenAllGet(s: State, lands: set<Mint>, m: Mint)
    ensures Get(FlattenAll(s, lands), m) == FlattenCell(Get(s, m), m in lands)
    ensures Globals(FlattenAll(s, lands)) == Globals(s) && Canonical(FlattenAll(s, lands))
  {
    GetMapCells(s, (m, c) => FlattenCell(c, m in lands), m);
    MapCellsGlobals(s, (m, c) => FlattenCell(c, m in lands));
  }

  lemma SyncAllGet(s: State, m: Mint)
    ensures Get(SyncAll(s), m) == SyncCell(Get(s, m))
    ensures Globals(SyncAll(s)) == Globals(s) && Canonical(SyncAll(s))
  {
    GetMapCells(s, (m: Mint, c) => SyncCell(c), m);
  }

  lemma ContinuousAllGet(s: State, slot: int, ttl: int, until: Mint -> int, m: Mint)
    ensures Get(ContinuousAll(s, slot, ttl, until), m) == ContinuousCell(Get(s, m), slot, ttl, until(m))
    ensures Globals(ContinuousAll(s, slot, ttl, until)) == Globals(s) && Canonical(ContinuousAll(s, slot, ttl, until))
  {
    var f := (m, c) => ContinuousCell(c, slot, ttl, until(m));
    assert f(m, EMPTY) == ContinuousCell(EMPTY, slot, ttl, until(m)) == EMPTY;
    GetMapCells(s, f, m);
    MapCellsGlobals(s, f);
  }

  lemma StartupAllGet(s: State, venue: Mint -> VenueAnswer, until: Mint -> int, m: Mint)
    ensures Get(StartupAll(s, venue, until), m) == StartupCell(Get(s, m), venue(m), until(m))
    ensures StartupAll(s, venue, until).killed == s.killed && Canonical(StartupAll(s, venue, until))
  {
    var f := (m, c) => StartupCell(c, venue(m), until(m));
    assert f(m, EMPTY) == StartupCell(EMPTY, venue(m), until(m)) == EMPTY;
    GetMapCells(s, f, m);
    MapCellsGlobals(s, f);
  }

  lemma CrashAllGet(s: State, m: Mint)
    ensures Get(CrashAll(s), m) == CrashCell(Get(s, m))
    ensures Canonical(CrashAll(s))
  {
    GetMapCells(s, (m: Mint, c) => CrashCell(c), m);
  }

  // ---------- ticks ----------

  datatype Decision = Hold | ScaleOut | FullExit

  /** What a tick meets at one mint: a mark price, a positive entry price, the marked profit, whether
      the profit event trips the breaker (with the exits that land in its flatten), the exit engine's
      decision, and the end of a cooldown set now. */
  datatype Evaluation = Evaluation(
    marked: bool, priced: bool, unrealized: int, trip: Option<set<Mint>>, tripped: bool, decision: Decision, until: int)

  /** `update_unrealized_pnl` and `record_pnl`, which may flatten the whole book before it returns. */
  function Marked(s: State, m: Mint, v: Evaluation): State
  {
    var c := Get(s, m);
    if !v.priced || c.tracked.None? || c.tracked.value.tokensOut <= 0 then s
    else
      var s1 := Put(s, m, MarkCell(c, v.unrealized));
      (if v.trip.Some? then FlattenAll(s1, v.trip.value) else s1).(tripped := v.tripped)
  }

  function Decided(s: State, m: Mint, v: Evaluation): State
  {
    match v.decision
    case Hold => s
    case ScaleOut => Put(s, m, TpHitCell(Get(s, m)))
    case FullExit => Put(s, m, ExitCell(Get(s, m), v.until))
  }

  /** One mint of `FastLoop.tick`. */
  function Evaluate(s: State, m: Mint, v: Evaluation): State
  {
    var c := Get(s, m);
    if c.tracked.None? || c.tracked.value.state != Open then s
    else if !v.marked then Put(s, m, ExitCell(c, v.until))
    else if !c.exit then s
    else Decided(Marked(s, m, v), m, v)
  }

  function EvaluateAll(s: State, order: seq<Mint>, env: Mint -> Evaluation): State
  {
    if order == [] then s
    else
      var m := order[|order| - 1];
      Evaluate(EvaluateAll(s, order[..|order| - 1], env), m, env(m))
  }

  /** `ControllerOrchestrator.tick`: sync, evaluate the registered mints, time out stale entries. */
  function Tick(l: Limits, s: State, slot: int, order: seq<Mint>, env: Mint -> Evaluation, until: Mint -> int): State
  {
    ContinuousAll(EvaluateAll(SyncAll(s), order, env), slot, l.enteringTtl, until)
  }
}
