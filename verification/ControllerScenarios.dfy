/** Runs from the initial state that reach what the safety theorems exclude or condition on: a mint
    relaunched before a tick, and a record written back by a breaker trip. */
module ControllerScenarios {
  import opened Common
  import opened ControllerState
  import opened PositionFsm
  import opened Controller
  import opened ControllerRuns
  import opened ControllerSafety

  /** A launch event that passes every check on a mint nothing is known about. */
  predicate Favourable(e: Launch)
  {
    e.aboveThreshold == Some(true) && e.stalenessMs <= STALENESS_BUDGET_MS && !e.vetoed && e.gateOk &&
    e.sized.None? && e.costOk && e.intentOk && !e.overBudget
  }

  predicate Roomy(l: Limits)
  {
    l.minSol > 0 && l.perTradeCap > 0 && l.maxAggregate > 0
  }

  lemma RunNext(l: Limits, s: State, steps: seq<Step>, step: Step)
    ensures Run(l, s, steps + [step]) == Apply(l, Run(l, s, steps), step)
    ensures AdmissibleRun(l, s, steps + [step]) <==> AdmissibleRun(l, s, steps) && Admissible(Run(l, s, steps), step)
    ensures Revived(l, s, steps + [step]) <==>
            !step.Started? && (Revived(l, s, steps) || Revives(Run(l, s, steps), step))
  {
    assert (steps + [step])[..|steps|] == steps;
  }

  lemma RunNothing(l: Limits, s: State)
    ensures Run(l, s, []) == s && AdmissibleRun(l, s, []) && !Revived(l, s, [])
  {
  }

  /** Start up, launch, and a landed fill. */
  function Opening(e: Launch, fill: Fill, venue: Mint -> VenueAnswer, untils: Mint -> int, until: int): seq<Step>
  {
    [Started(venue, untils)] + [Launched(e)] + [Filled(e.mint, fill, until)]
  }

  /** Nothing but m is in the book, and the controller runs. */
  ghost predicate Alone(s: State, m: Mint)
  {
    s.started && !s.killed && !s.tripped && Canonical(s) && forall k :: k != m ==> Get(s, k) == EMPTY
  }

  lemma EmptyBook(s: State, m: Mint)
    requires Alone(s, m) && Get(s, m).stored.None?
    ensures s.positions == map[] && Aggregate(s.positions) == 0
  {
    forall k
      ensures k !in s.positions
    {
      assert Get(s, k).stored.None?;
    }
  }

  lemma StartedEmpty(venue: Mint -> VenueAnswer, untils: Mint -> int, m: Mint)
    ensures var s := StartupAll(INITIAL, venue, untils);
            Alone(s, m) && Get(s, m) == EMPTY && s.seen == map[]
  {
    hide StartupAll;
    var s := StartupAll(INITIAL, venue, untils);
    forall k
      ensures Get(s, k) == EMPTY
    {
      StartupAllGet(INITIAL, venue, untils, k);
      assert Get(INITIAL, k) == EMPTY;
    }
    StartupAllGet(INITIAL, venue, untils, m);
    StartedGlobals(venue, untils);
  }

  lemma StartedGlobals(venue: Mint -> VenueAnswer, untils: Mint -> int)
    ensures Globals(StartupAll(INITIAL, venue, untils)) == (map[], false, false, true)
  {
  }

  /** On a mint with no record, no lock, no cooldown and a new intent id, a favourable event is entered. */
  lemma FavourableEnters(l: Limits, s: State, e: Launch)
    requires Roomy(l) && Favourable(e) && Alone(s, e.mint) && Get(s, e.mint).stored.None?
    requires Get(s, e.mint).lock.None? && Get(s, e.mint).cooldown.None? && EntryId(e) !in s.seen
    ensures EntryAllowed(l, s, e)
    ensures var (t, o) := Snipe(l, s, e);
            var solIn := Size(l, 0, e);
            o.Attempted? && solIn > 0 && Alone(t, e.mint) && Get(t, e.mint) == EnteredAs(s, e, solIn) &&
            t.seen.Keys == s.seen.Keys + {EntryId(e)}
  {
    hide Aggregate, Put;
    EmptyBook(s, e.mint);
    EntryLeaves(l, s, e);
    var s1 := s.(seen := s.seen[EntryId(e) := e.seenNow + SEEN_TTL * 1000]);
    var d := EnteredAs(s, e, Size(l, 0, e));
    forall k
      ensures Get(Put(s1, e.mint, d), k) == if k == e.mint then d else Get(s, k)
    {
      GetPut(s1, e.mint, d, k);
      SetSeen(s, s1.seen, k);
    }
    GetPut(s1, e.mint, d, e.mint);
  }

  /** The opening is admissible and leaves the mint OPEN, registered and without a lock. */
  lemma OpeningOpens(l: Limits, e: Launch, fill: Fill, venue: Mint -> VenueAnswer, untils: Mint -> int, until: int)
    requires Roomy(l) && Favourable(e) && fill.landed
    ensures var steps := Opening(e, fill, venue, untils, until);
            var s := Run(l, INITIAL, steps);
            var c := Get(s, e.mint);
            AdmissibleRun(l, INITIAL, steps) && !Revived(l, INITIAL, steps) && Inv(s) && LiveStore(s) &&
            Alone(s, e.mint) &&
            c.stored == c.tracked == Some(AsOpen(NewPosition(e, Size(l, 0, e)), fill)) && c.exit &&
            c.lock.None? && c.cooldown.None? && s.seen.Keys == {EntryId(e)}
  {
    hide Run, AdmissibleRun, Revived, Snipe, StartupAll, Aggregate, Put, Inv, LiveStore, Size;
    var one := Started(venue, untils);
    RunNothing(l, INITIAL);
    RunNext(l, INITIAL, [], one);
    assert [] + [one] == [one];
    var s1 := Run(l, INITIAL, [one]);
    StartedEmpty(venue, untils, e.mint);
    RunNext(l, INITIAL, [one], Launched(e));
    FavourableEnters(l, s1, e);
    FreshMint(s1, e.mint);
    var s2 := Run(l, INITIAL, [one] + [Launched(e)]);
    RunNext(l, INITIAL, [one] + [Launched(e)], Filled(e.mint, fill, until));
    var c := FillCell(Get(s2, e.mint), fill, until).0;
    forall k
      ensures Get(Put(s2, e.mint, c), k) == if k == e.mint then c else Get(s2, k)
    {
      GetPut(s2, e.mint, c, k);
    }
    GetPut(s2, e.mint, c, e.mint);
    Safety(l, Opening(e, fill, venue, untils, until));
  }

  /** In a state reached from the start an OPEN mint can be claimed again, although the claim's contract
      says it is refused. */
  lemma OpenIsClaimed(l: Limits, e: Launch, fill: Fill, venue: Mint -> VenueAnswer, untils: Mint -> int, until: int,
                      id: IntentId, now: int, check: int, ttl: int)
    requires Roomy(l) && Favourable(e) && fill.landed
    ensures var s := Run(l, INITIAL, Opening(e, fill, venue, untils, until));
            e.mint in s.positions && s.positions[e.mint].state == Open &&
            Claim(Lookup(s.locks, e.mint), id, now, check, ttl).Some?
  {
    hide Run, Inv, LiveStore;
    OpeningOpens(l, e, fill, venue, untils, until);
    OpenMintIsClaimable(Run(l, INITIAL, Opening(e, fill, venue, untils, until)), e.mint, id, now, check, ttl);
  }

  /** A mint is opened, flattened, and launched again before a tick: the second entry is written, and its
      landed fill is refused. Every step but the relaunch is admissible. */
  lemma RelaunchRun(l: Limits, e: Launch, again: Launch, fill: Fill, late: Fill, venue: Mint -> VenueAnswer,
                    untils: Mint -> int, until: int)
    requires Roomy(l) && Favourable(e) && Favourable(again) && fill.landed && late.landed
    requires again.mint == e.mint && again.slot != e.slot
    ensures var flat := Opening(e, fill, venue, untils, until) + [Flattened({e.mint})];
            var before := Run(l, INITIAL, flat + [Launched(again)]);
            var after := Run(l, INITIAL, flat + [Launched(again)] + [Filled(e.mint, late, until)]);
            AdmissibleRun(l, INITIAL, flat) && Run(l, INITIAL, flat).positions == map[] &&
            Get(before, e.mint).stored == Some(NewPosition(again, Size(l, 0, again))) &&
            !FillCell(Get(before, e.mint), late, until).1 && Get(after, e.mint) == Get(before, e.mint)
  {
    hide Run, AdmissibleRun, Revived, Snipe, Aggregate, Put, Inv, LiveStore, Size, FlattenAll, Opening;
    var open := Opening(e, fill, venue, untils, until);
    var m := e.mint;
    OpeningOpens(l, e, fill, venue, untils, until);
    var s := Run(l, INITIAL, open);
    RunNext(l, INITIAL, open, Flattened({m}));
    var flat := open + [Flattened({m})];
    var t := Run(l, INITIAL, flat);
    FlattenedAlone(s, m);
    EmptyBook(t, m);
    RunNext(l, INITIAL, flat, Launched(again));
    FavourableEnters(l, t, again);
    var u := Run(l, INITIAL, flat + [Launched(again)]);
    RunNext(l, INITIAL, flat + [Launched(again)], Filled(m, late, until));
    var c := Get(u, m);
    RelaunchLosesFill(Cooled(t, again), c.lock, NewPosition(again, Size(l, 0, again)), late, until);
    GetPut(u, m, c, m);
  }

  lemma FlattenedAlone(s: State, m: Mint)
    requires Alone(s, m) && Get(s, m).tracked.Some? && Get(s, m).tracked.value.state == Open
    requires Get(s, m).stored == Get(s, m).tracked
    ensures var t := FlattenAll(s, {m});
            var c, d := Get(s, m), Get(t, m);
            Alone(t, m) && t.seen == s.seen && d.stored.None? && d.tracked.Some? && d.tracked.value.state == Closed &&
            d.lock == c.lock && d.cooldown == c.cooldown
  {
    hide FlattenAll;
    FlattenAllGet(s, {m}, m);
    forall k | k != m
      ensures Get(FlattenAll(s, {m}), k) == EMPTY
    {
      FlattenAllGet(s, {m}, k);
    }
  }

  /** A tick on an opened mint whose profit event trips the breaker, whose emergency exit lands, and which
      the engine then scales out: the closed record is in the store again. */
  lemma RevivedRun(l: Limits, e: Launch, fill: Fill, venue: Mint -> VenueAnswer, untils: Mint -> int, until: int,
                   slot: int, env: Mint -> Evaluation)
    requires Roomy(l) && Favourable(e) && fill.landed && fill.tokensOut > 0
    requires var v := env(e.mint);
             v.marked && v.priced && v.trip == Some({e.mint}) && v.decision == ScaleOut
    ensures var steps := Opening(e, fill, venue, untils, until) + [Ticked(slot, [e.mint], env, untils)];
            AdmissibleRun(l, INITIAL, steps) && Revived(l, INITIAL, steps) && !LiveStore(Run(l, INITIAL, steps))
  {
    hide Run, AdmissibleRun, Revived, Aggregate, Put, Inv, LiveStore, Size, SyncAll, Opening, Tick;
    var open := Opening(e, fill, venue, untils, until);
    var m := e.mint;
    OpeningOpens(l, e, fill, venue, untils, until);
    var s := Run(l, INITIAL, open);
    var tick := Ticked(slot, [m], env, untils);
    RunNext(l, INITIAL, open, tick);
    SyncAllGet(s, m);
    assert [m][..0] == [];
    assert EvaluateAll(SyncAll(s), [], env) == SyncAll(s);
    assert ResurrectsAt(SyncAll(s), [m], env, 0);
    Safety(l, open + [tick]);
  }

  // ---------- crashes ----------

  lemma NothingKnown(s: State)
    requires forall k :: Get(s, k).tracked.None? && !Get(s, k).exit
    ensures s.registry == map[] && s.exits == {}
  {
    forall k
      ensures k !in s.registry && k !in s.exits
    {
      assert Get(s, k).tracked.None? && !Get(s, k).exit;
    }
  }

  lemma CrashedCells(s: State, venue: Mint -> VenueAnswer, untils: Mint -> int, k: Mint)
    ensures Admissible(CrashAll(s), Started(venue, untils))
    ensures Get(StartupAll(CrashAll(s), venue, untils), k) == StartupCell(CrashCell(Get(s, k)), venue(k), untils(k))
    ensures Globals(StartupAll(CrashAll(s), venue, untils)) == (s.seen, s.tripped, false, true)
  {
    hide CrashAll, StartupAll, StartupCell, Get;
    forall m
      ensures Get(CrashAll(s), m).tracked.None? && !Get(CrashAll(s), m).exit
    {
      CrashAllGet(s, m);
    }
    NothingKnown(CrashAll(s));
    CrashAllGet(s, k);
    StartupAllGet(CrashAll(s), venue, untils, k);
    CrashGlobals(s, venue, untils);
  }

  lemma CrashGlobals(s: State, venue: Mint -> VenueAnswer, untils: Mint -> int)
    ensures Globals(StartupAll(CrashAll(s), venue, untils)) == (s.seen, s.tripped, false, true)
  {
  }

  /** A crash forgets the kill: killed, crashed and started again, the controller enters a new mint
      although nobody cleared the switch. */
  lemma CrashForgetsKill(l: Limits, e: Launch, venue: Mint -> VenueAnswer, untils: Mint -> int)
    requires Roomy(l) && Favourable(e)
    ensures var steps := [Killed({})] + [Crashed] + [Started(venue, untils)] + [Launched(e)];
            var t := Run(l, INITIAL, steps);
            AdmissibleRun(l, INITIAL, steps) && Run(l, INITIAL, [Killed({})]).killed &&
            !t.killed && e.mint in t.positions
  {
    hide Run, AdmissibleRun, Revived, Snipe, StartupAll, CrashAll, FlattenAll, Aggregate, Put, Size;
    var m := e.mint;
    RunNothing(l, INITIAL);
    RunNext(l, INITIAL, [], Killed({}));
    assert [] + [Killed({})] == [Killed({})];
    KilledExactly(l, INITIAL, Killed({}));
    var s1 := Run(l, INITIAL, [Killed({})]);
    RunNext(l, INITIAL, [Killed({})], Crashed);
    RunNext(l, INITIAL, [Killed({})] + [Crashed], Started(venue, untils));
    var s3 := Run(l, INITIAL, [Killed({})] + [Crashed] + [Started(venue, untils)]);
    forall k
      ensures Get(s1, k) == EMPTY && Get(s3, k) == EMPTY
    {
      FlattenAllGet(INITIAL.(killed := true), {}, k);
      assert Get(INITIAL.(killed := true), k) == EMPTY;
      CrashedCells(s1, venue, untils, k);
    }
    FlattenAllGet(INITIAL.(killed := true), {}, m);
    CrashedCells(s1, venue, untils, m);
    StartupAllGet(CrashAll(s1), venue, untils, m);
    RunNext(l, INITIAL, [Killed({})] + [Crashed] + [Started(venue, untils)], Launched(e));
    FavourableEnters(l, s3, e);
    FreshMint(s3, m);
    StoredIs(Snipe(l, s3, e).0, m);
  }

  /** A restart registers nothing for an OPEN record the venue still lists, so a flatten before the next
      tick submits its exit, sees it land, and leaves the record in the store. */
  lemma FlattenAfterRestart(l: Limits, e: Launch, fill: Fill, venue: Mint -> VenueAnswer, untils: Mint -> int,
                            until: int)
    requires Roomy(l) && Favourable(e) && fill.landed && !venue(e.mint).gone
    ensures var steps := Opening(e, fill, venue, untils, until) + [Crashed] + [Started(venue, untils)];
            var s := Run(l, INITIAL, steps);
            var t := Run(l, INITIAL, steps + [Flattened({e.mint})]);
            AdmissibleRun(l, INITIAL, steps + [Flattened({e.mint})]) && e.mint in FlattenSubmissions(s) &&
            e.mint in t.positions && t.positions[e.mint].state == Open
  {
    hide Run, AdmissibleRun, Revived, StartupAll, CrashAll, FlattenAll, Inv, LiveStore, Opening, Size;
    var open, m := Opening(e, fill, venue, untils, until), e.mint;
    OpeningOpens(l, e, fill, venue, untils, until);
    var s0 := Run(l, INITIAL, open);
    RunNext(l, INITIAL, open, Crashed);
    RunNext(l, INITIAL, open + [Crashed], Started(venue, untils));
    var s := Run(l, INITIAL, open + [Crashed] + [Started(venue, untils)]);
    CrashedCells(s0, venue, untils, m);
    RunNext(l, INITIAL, open + [Crashed] + [Started(venue, untils)], Flattened({m}));
    FlattenAllGet(s, {m}, m);
    StoredIs(s, m);
    StoredIs(FlattenAll(s, {m}), m);
  }
}
