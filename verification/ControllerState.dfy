/** The controller's state: the position store, the FAST loop's registry and exit states, locks,
    cooldowns and the dedup table. `Cell` is what the state knows about one mint. */
module ControllerState {
  import opened Common

  type Mint = string

  datatype FsmState = Idle | Entering | Open | Closing | Closed | Vetoed

  datatype Position = Position(
    state: FsmState, entrySlot: int, solIn: int, tokensOut: int, slippageBps: int,
    tpHit: int, unrealized: int, realized: Option<int>)

  /** `make_client_intent_id` hashes these three; the model keeps them apart. */
  datatype IntentId = IntentId(mint: Mint, slot: int, kind: string)

  datatype Lock = Lock(holder: IntentId, expiry: int)

  /** One mint: its stored record, the position its FSM in the registry holds, whether an exit state
      exists, its lock and cooldown, and every state ever saved for it. */
  datatype Cell = Cell(
    stored: Option<Position>, tracked: Option<Position>, exit: bool,
    lock: Option<Lock>, cooldown: Option<int>, history: seq<FsmState>)

  datatype State = State(
    positions: map<Mint, Position>, registry: map<Mint, Position>, exits: set<Mint>,
    locks: map<Mint, Lock>, cooldowns: map<Mint, int>, history: map<Mint, seq<FsmState>>,
    seen: map<IntentId, int>, tripped: bool, killed: bool, started: bool)

  // ---------- one mint at a time ----------

  function Lookup<K, V>(m: map<K, V>, k: K): Option<V>
  {
    if k in m then Some(m[k]) else None
  }

  function Assign<K, V>(m: map<K, V>, k: K, v: Option<V>): map<K, V>
  {
    if v.Some? then m[k := v.value] else m - {k}
  }

  function Past(history: map<Mint, seq<FsmState>>, m: Mint): seq<FsmState>
  {
    if m in history then history[m] else []
  }

  function Get(s: State, m: Mint): Cell
  {
    Cell(Lookup(s.positions, m), Lookup(s.registry, m), m in s.exits, Lookup(s.locks, m), Lookup(s.cooldowns, m),
         Past(s.history, m))
  }

  function Put(s: State, m: Mint, c: Cell): State
  {
    s.(positions := Assign(s.positions, m, c.stored),
       registry := Assign(s.registry, m, c.tracked),
       exits := if c.exit then s.exits + {m} else s.exits - {m},
       locks := Assign(s.locks, m, c.lock),
       cooldowns := Assign(s.cooldowns, m, c.cooldown),
       history := Assign(s.history, m, if c.history == [] then None else Some(c.history)))
  }

  /** No history is recorded as empty. */
  predicate Canonical(s: State)
  {
    forall m :: m in s.history ==> s.history[m] != []
  }

  /** What is not kept per mint. */
  function Globals(s: State): (map<IntentId, int>, bool, bool, bool)
  {
    (s.seen, s.tripped, s.killed, s.started)
  }

  lemma GetPut(s: State, m: Mint, c: Cell, k: Mint)
    ensures Get(Put(s, m, c), k) == if k == m then c else Get(s, k)
    ensures Globals(Put(s, m, c)) == Globals(s)
    ensures Canonical(s) ==> Canonical(Put(s, m, c))
  {
  }

  /** The cells and the globals determine the state. */
  lemma SameCells(s: State, t: State)
    requires Canonical(s) && Canonical(t) && Globals(s) == Globals(t)
    requires forall m :: Get(s, m) == Get(t, m)
    ensures s == t
  {
    forall m ensures m in s.positions <==> m in t.positions
      ensures m in s.positions ==> s.positions[m] == t.positions[m]
      ensures m in s.registry <==> m in t.registry
      ensures m in s.registry ==> s.registry[m] == t.registry[m]
      ensures m in s.exits <==> m in t.exits
      ensures m in s.locks <==> m in t.locks
      ensures m in s.locks ==> s.locks[m] == t.locks[m]
      ensures m in s.cooldowns <==> m in t.cooldowns
      ensures m in s.cooldowns ==> s.cooldowns[m] == t.cooldowns[m]
      ensures m in s.history <==> m in t.history
      ensures m in s.history ==> s.history[m] == t.history[m]
    {
      assert Get(s, m) == Get(t, m);
    }
    assert s.positions == t.positions && s.registry == t.registry && s.exits == t.exits;
    assert s.locks == t.locks && s.cooldowns == t.cooldowns && s.history == t.history;
  }

  // ---------- all mints at once ----------

  function Mints(s: State): set<Mint>
  {
    s.positions.Keys + s.registry.Keys + s.exits + s.locks.Keys + s.cooldowns.Keys + s.history.Keys
  }

  const EMPTY: Cell := Cell(None, None, false, None, None, [])

  /** The state whose every cell is the image of the old one. */
  function MapCells(s: State, f: (Mint, Cell) -> Cell): State
  {
    var all := Mints(s);
    s.(positions := map m | m in all && f(m, Get(s, m)).stored.Some? :: f(m, Get(s, m)).stored.value,
       registry := map m | m in all && f(m, Get(s, m)).tracked.Some? :: f(m, Get(s, m)).tracked.value,
       exits := (set m | m in all && f(m, Get(s, m)).exit),
       locks := map m | m in all && f(m, Get(s, m)).lock.Some? :: f(m, Get(s, m)).lock.value,
       cooldowns := map m | m in all && f(m, Get(s, m)).cooldown.Some? :: f(m, Get(s, m)).cooldown.value,
       history := map m | m in all && f(m, Get(s, m)).history != [] :: f(m, Get(s, m)).history)
  }

  lemma GetMapCells(s: State, f: (Mint, Cell) -> Cell, m: Mint)
    requires f(m, EMPTY) == EMPTY
    ensures Get(MapCells(s, f), m) == f(m, Get(s, m))
  {
    if m !in Mints(s) {
      assert Get(s, m) == EMPTY;
    }
  }

  lemma MapCellsGlobals(s: State, f: (Mint, Cell) -> Cell)
    ensures Globals(MapCells(s, f)) == Globals(s) && Canonical(MapCells(s, f))
  {
  }

  // ---------- aggregate exposure ----------

  function Exposure(positions: map<Mint, Position>, m: Mint): int
  {
    if m in positions then positions[m].solIn else 0
  }

  ghost function Pick(mints: set<Mint>): (m: Mint)
    requires mints != {}
    ensures m in mints
  {
    var m :| m in mints; m
  }

  ghost function Sum(mints: set<Mint>, positions: map<Mint, Position>): int
  {
    if mints == {} then 0
    else var m := Pick(mints); Exposure(positions, m) + Sum(mints - {m}, positions)
  }

  /** `get_aggregate_open_lamports`. */
  ghost function Aggregate(positions: map<Mint, Position>): int
  {
    Sum(positions.Keys, positions)
  }

  lemma {:induction false} SumRemove(mints: set<Mint>, positions: map<Mint, Position>, m: Mint)
    requires m in mints
    ensures Sum(mints, positions) == Exposure(positions, m) + Sum(mints - {m}, positions)
    decreases |mints|
  {
    var k := Pick(mints);
    if k != m {
      SumRemove(mints - {k}, positions, m);
      SumRemove(mints - {m}, positions, k);
      assert mints - {k} - {m} == mints - {m} - {k};
    }
  }

  /** More exposure per mint, over more mints, sums to more. */
  lemma {:induction false} SumMonotone(few: set<Mint>, after: map<Mint, Position>, many: set<Mint>,
                                       before: map<Mint, Position>)
    requires few <= many
    requires forall m :: m in few ==> Exposure(after, m) <= Exposure(before, m)
    requires forall m :: m in many ==> Exposure(before, m) >= 0
    ensures Sum(few, after) <= Sum(many, before)
    decreases |many|
  {
    if many != {} {
      var m := Pick(many);
      SumMonotone(few - {m}, after, many - {m}, before);
      if m in few {
        SumRemove(few, after, m);
      } else {
        assert few - {m} == few;
      }
    }
  }

  /** No mint is added and none has more exposure. */
  predicate NoMoreExposure(before: map<Mint, Position>, after: map<Mint, Position>)
  {
    forall m :: m in after ==> m in before && after[m].solIn <= before[m].solIn
  }

  predicate NonNegative(positions: map<Mint, Position>)
  {
    forall m :: m in positions ==> positions[m].solIn >= 0
  }

  lemma AggregateMonotone(before: map<Mint, Position>, after: map<Mint, Position>)
    requires NonNegative(before) && NoMoreExposure(before, after)
    ensures Aggregate(after) <= Aggregate(before)
  {
    SumMonotone(after.Keys, after, before.Keys, before);
  }

  /** Saving a record adds at most its own exposure. */
  lemma AggregateSave(positions: map<Mint, Position>, m: Mint, p: Position)
    requires NonNegative(positions)
    ensures Aggregate(positions[m := p]) <= Aggregate(positions) + p.solIn
    ensures m !in positions ==> Aggregate(positions[m := p]) == Aggregate(positions) + p.solIn
  {
    var after := positions[m := p];
    var rest := positions.Keys - {m};
    SumRemove(after.Keys, after, m);
    assert after.Keys - {m} == rest;
    SumMonotone(rest, after, positions.Keys, positions);
    if m !in positions {
      assert rest == positions.Keys;
      SumMonotone(rest, positions, rest, after);
    }
  }
}
