/** What every controller operation does to one mint: the FSM transitions with their write-ahead
    saves, fill reconciliation, registry sync, exits, flattening and the two reconcilers. */
module PositionFsm {
  import opened Common
  import opened ControllerState

  datatype Fill = Fill(landed: bool, tokensOut: int, slippageBps: int)

  /** `FSM_LEGAL_TRANSITIONS`. */
  predicate Legal(a: FsmState, b: FsmState)
  {
    (a == Idle && b == Entering) || (a == Entering && (b == Open || b == Vetoed)) ||
    (a == Open && b == Closing) || (a == Closing && b == Closed)
  }

  predicate Terminal(a: FsmState)
  {
    a == Closed || a == Vetoed
  }

  // ---------- transitions of an FSM holding p ----------

  /** `save_position`. */
  function Saved(c: Cell, p: Position): Cell
  {
    c.(stored := Some(p), history := c.history + [p.state])
  }

  function AsOpen(p: Position, fill: Fill): Position
  {
    p.(state := Open, tokensOut := fill.tokensOut, slippageBps := fill.slippageBps, unrealized := 0)
  }

  function AsVetoed(p: Position): Position
  {
    p.(state := Vetoed, realized := Some(0))
  }

  function AsClosing(p: Position): Position
  {
    p.(state := Closing)
  }

  function AsClosed(p: Position): Position
  {
    p.(state := Closed, realized := Some(0))
  }

  /** `transition_to_open`: save, then release the lock. */
  function Opened(c: Cell, p: Position, fill: Fill): Cell
    requires Legal(p.state, Open)
  {
    Saved(c, AsOpen(p, fill)).(lock := None)
  }

  /** `transition_to_vetoed`: save, release the lock, delete. */
  function Vetoing(c: Cell, p: Position): Cell
    requires Legal(p.state, Vetoed)
  {
    Saved(c, AsVetoed(p)).(lock := None, stored := None)
  }

  /** `transition_to_closed`: save, then delete. */
  function ClosedOut(c: Cell, p: Position): Cell
    requires Legal(p.state, Closed)
  {
    Saved(c, AsClosed(p)).(stored := None)
  }

  // ---------- FAST loop ----------

  /** The FSM used for a stored position: the registered one, or a fresh one around the record. */
  function FsmOf(c: Cell): Position
    requires c.stored.Some?
  {
    if c.tracked.Some? then c.tracked.value else c.stored.value
  }

  /** `reconcile_fill`; `until` is the end of the cooldown it would set. */
  function FillCell(c: Cell, fill: Fill, until: int): (Cell, bool)
  {
    if c.stored.None? || c.stored.value.state != Entering then (c, false)
    else
      var p := FsmOf(c);
      if !fill.landed then
        var vetoed := if p.state == Entering then Vetoing(c, p) else c;
        (vetoed.(tracked := None, exit := false, cooldown := Some(until)), true)
      else if p.state != Entering then (c, false)
      else (Opened(c, p, fill).(tracked := Some(AsOpen(p, fill)), exit := true), true)
  }

  /** `_sync_registry`. */
  function SyncCell(c: Cell): Cell
  {
    if c.stored.None? then
      if c.tracked.Some? then c.(tracked := None, exit := false) else c
    else if c.tracked.Some? then c
    else c.(tracked := c.stored, exit := c.exit || c.stored.value.state == Open)
  }

  /** `_force_exit` and `_do_full_exit`: close, whether or not the exit landed. */
  function ExitCell(c: Cell, until: int): Cell
  {
    if c.tracked.None? then c
    else
      var p := c.tracked.value;
      var closed := if p.state == Open then ClosedOut(Saved(c, AsClosing(p)), AsClosing(p)) else c;
      closed.(tracked := None, exit := false, cooldown := Some(until))
  }

  /** `update_unrealized_pnl`. */
  function MarkCell(c: Cell, unrealized: int): Cell
  {
    if c.tracked.None? then c
    else
      var p := c.tracked.value.(unrealized := unrealized);
      Saved(c, p).(tracked := Some(p))
  }

  /** `record_tp_hit`. */
  function TpHitCell(c: Cell): Cell
  {
    if c.tracked.None? then c
    else
      var p := c.tracked.value.(tpHit := c.tracked.value.tpHit + 1);
      Saved(c, p).(tracked := Some(p))
  }

  /** Whether `_flatten_position` submits an exit for this mint. */
  predicate FlattenSubmits(c: Cell)
  {
    c.stored.Some? && (c.stored.value.state == Open || c.stored.value.state == Closing)
  }

  /** `_flatten_position`. */
  function FlattenCell(c: Cell, landed: bool): Cell
  {
    if c.stored.None? then c
    else if c.stored.value.state == Entering then
      var p := FsmOf(c);
      (if p.state == Entering then Vetoing(c, p) else c).(tracked := None)
    else if !FlattenSubmits(c) || c.tracked.None? then c
    else
      var p := c.tracked.value;
      var starts := c.stored.value.state == Open && p.state == Open;
      var q := if starts then AsClosing(p) else p;
      var c1 := if starts then Saved(c, q).(tracked := Some(q)) else c;
      if landed && q.state == Closing then ClosedOut(c1, q).(tracked := Some(AsClosed(q))) else c1
  }

  // ---------- reconcilers ----------

  /** The venue's answers about one mint: a landed entry fill, a landed exit fill, and whether the
      mint is in a non-empty set of open mints. `gone` is `open_venue_mints and mint not in it`. */
  datatype VenueAnswer = VenueAnswer(entryFill: Option<Fill>, exitLanded: bool, gone: bool)

  /** One position of `startup_reconcile`. */
  function StartupCell(c: Cell, v: VenueAnswer, until: int): Cell
  {
    if c.stored.None? then c
    else
      var p := c.stored.value;
      match p.state
      case Idle => c
      case Entering =>
        if v.entryFill.Some? && v.entryFill.value.landed then FillCell(c, v.entryFill.value, until).0
        else FillCell(c, Fill(false, 0, 0), until).0
      case Open => if v.gone then ClosedOut(Saved(c, AsClosing(p)), AsClosing(p)) else c
      case Closing => if v.exitLanded then ClosedOut(c, p) else c
      case Closed => c.(stored := None)
      case Vetoed => c.(stored := None)
  }

  /** One position of `continuous_reconcile_tick`; a slot is 400 ms. */
  predicate TimedOut(p: Position, slot: int, ttl: int)
  {
    p.state == Entering && slot - p.entrySlot > ttl * 1000 / 400
  }

  function ContinuousCell(c: Cell, slot: int, ttl: int, until: int): Cell
  {
    if c.stored.Some? && TimedOut(c.stored.value, slot, ttl) then FillCell(c, Fill(false, 0, 0), until).0 else c
  }

  // ---------- what every operation keeps ----------

  function Latest(h: seq<FsmState>): Option<FsmState>
  {
    if h == [] then None else Some(h[|h| - 1])
  }

  /** What may be saved after `a`: an update in the same state, a legal edge, or a new life. */
  predicate Follows(a: Option<FsmState>, b: FsmState)
  {
    if a.None? then b == Entering
    else a.value == b || Legal(a.value, b) || (Terminal(a.value) && b == Entering)
  }

  predicate LegalHistory(h: seq<FsmState>)
  {
    h == [] || (LegalHistory(h[..|h| - 1]) && Follows(Latest(h[..|h| - 1]), h[|h| - 1]))
  }

  /** The edges a record's successive saves may take: the documented ones, an update in place, and a new life
      after the end of the last. */
  predicate Edge(a: FsmState, b: FsmState)
  {
    a == b ||
    (a, b) in {(Idle, Entering), (Entering, Open), (Entering, Vetoed), (Open, Closing), (Closing, Closed),
               (Closed, Entering), (Vetoed, Entering)}
  }

  /** A history is legal exactly when it starts in ENTERING and follows those edges throughout. */
  lemma {:induction false} LegalExactly(h: seq<FsmState>)
    ensures LegalHistory(h) <==>
            (h != [] ==> h[0] == Entering) && forall i :: 1 <= i < |h| ==> Edge(h[i - 1], h[i])
  {
    if h != [] {
      var front := h[..|h| - 1];
      LegalExactly(front);
      if |h| > 1 {
        FollowsIsEdge(h[|h| - 2], h[|h| - 1]);
      }
    }
  }

  lemma FollowsIsEdge(a: FsmState, b: FsmState)
    ensures Follows(Some(a), b) <==> Edge(a, b)
  {
  }

  lemma HistoryGrows(h: seq<FsmState>, a: FsmState)
    ensures LegalHistory(h + [a]) <==> LegalHistory(h) && Follows(Latest(h), a)
    ensures Latest(h + [a]) == Some(a)
  {
    assert (h + [a])[..|h|] == h;
  }

  /** A position that is not ENTERING holds no lock: opening it released the one it was entered under. */
  predicate Unlocked(c: Cell, p: Option<Position>)
  {
    p.Some? && p.value.state != Entering ==> c.lock.None?
  }

  /** Registry and store agree on a mint they both hold; an FSM left without a record is terminal;
      an open registered position has its exit state; only entries hold locks; every save followed a
      legal edge. */
  predicate CellInv(c: Cell)
  {
    (c.stored.Some? && c.tracked.Some? ==> c.stored == c.tracked) &&
    (c.stored.None? && c.tracked.Some? ==>
       Terminal(c.tracked.value.state) && Latest(c.history) == Some(c.tracked.value.state)) &&
    (c.tracked.Some? && c.tracked.value.state == Open ==> c.exit) &&
    (c.stored.Some? ==> c.stored.value.solIn > 0) &&
    Unlocked(c, c.stored) && Unlocked(c, c.tracked) &&
    LegalHistory(c.history) &&
    (c.stored.Some? ==> Latest(c.history) == Some(c.stored.value.state)) &&
    (c.stored.None? ==>
       c.history == [] || Terminal(c.history[|c.history| - 1]) || c.history[|c.history| - 1] == Entering)
  }

  /** No terminal record is stored. */
  predicate Live(c: Cell)
  {
    c.stored.Some? ==> !Terminal(c.stored.value.state) && c.stored.value.state != Idle
  }

  predicate SameEntry(p: Position, q: Position)
  {
    p.solIn == q.solIn && p.entrySlot == q.entrySlot
  }

  /** No record appears, and a kept one keeps its exposure and entry slot. */
  predicate Derisks(c: Cell, d: Cell)
  {
    d.stored.Some? ==> c.stored.Some? && SameEntry(c.stored.value, d.stored.value)
  }

  predicate Keeps(c: Cell, d: Cell)
  {
    CellInv(d) && Derisks(c, d)
  }

  lemma SavedHistory(c: Cell, p: Position)
    ensures LegalHistory(Saved(c, p).history) <==> LegalHistory(c.history) && Follows(Latest(c.history), p.state)
    ensures Latest(Saved(c, p).history) == Some(p.state)
  {
    HistoryGrows(c.history, p.state);
  }

  /** What a fill leaves. Landed, it opens an ENTERING record with the tokens and slippage of the fill, registers
      it with an exit state and frees the lock. Failed, it vetoes and deletes the record, drops its FSM and
      exit state, frees the lock and sets the cooldown. On anything else it does nothing. */
  predicate FillDone(c: Cell, fill: Fill, until: int, d: Cell)
  {
    if c.stored.None? || c.stored.value.state != Entering then d == c
    else if fill.landed then
      var p := c.stored.value;
      var q := p.(state := Open, tokensOut := fill.tokensOut, slippageBps := fill.slippageBps, unrealized := 0);
      d == Cell(Some(q), Some(q), true, None, c.cooldown, c.history + [Open])
    else d == Cell(None, None, false, None, Some(until), c.history + [Vetoed])
  }

  lemma FillKeeps(c: Cell, fill: Fill, until: int)
    requires CellInv(c)
    ensures Keeps(c, FillCell(c, fill, until).0)
    ensures Live(c) ==> Live(FillCell(c, fill, until).0)
    ensures c.stored.Some? && c.stored.value.state == Entering ==>
              FillCell(c, fill, until).1 &&
              (fill.landed ==> FillCell(c, fill, until).0.stored == Some(AsOpen(c.stored.value, fill))) &&
              (!fill.landed ==> FillCell(c, fill, until).0.stored == None)
    ensures FillDone(c, fill, until, FillCell(c, fill, until).0)
  {
    hide LegalHistory;
    if c.stored.Some? && c.stored.value.state == Entering {
      var p := FsmOf(c);
      SavedHistory(c, AsVetoed(p));
      SavedHistory(c, AsOpen(p, fill));
    }
  }

  lemma SyncKeeps(c: Cell)
    requires CellInv(c)
    ensures Keeps(c, SyncCell(c)) && (Live(c) ==> Live(SyncCell(c)))
    ensures SyncCell(c).tracked == SyncCell(c).stored == c.stored
    ensures SyncCell(c).exit <==>
            if c.stored.None? then c.tracked.None? && c.exit
            else c.exit || (c.tracked.None? && c.stored.value.state == Open)
    ensures (SyncCell(c).lock, SyncCell(c).cooldown, SyncCell(c).history) == (c.lock, c.cooldown, c.history)
  {
    hide LegalHistory;
  }

  lemma ExitKeeps(c: Cell, until: int)
    requires CellInv(c)
    ensures Keeps(c, ExitCell(c, until)) && (Live(c) ==> Live(ExitCell(c, until)))
  {
    hide LegalHistory;
    if c.tracked.Some? && c.tracked.value.state == Open {
      var p := c.tracked.value;
      SavedHistory(c, AsClosing(p));
      SavedHistory(Saved(c, AsClosing(p)), AsClosed(AsClosing(p)));
    }
  }

  lemma MarkKeeps(c: Cell, unrealized: int)
    requires CellInv(c) && c.stored.Some?
    ensures Keeps(c, MarkCell(c, unrealized)) && (Live(c) ==> Live(MarkCell(c, unrealized)))
    ensures var d := MarkCell(c, unrealized);
            c.tracked.Some? ==> d.tracked.Some? && SameEntry(c.tracked.value, d.tracked.value)
  {
    hide LegalHistory;
    if c.tracked.Some? {
      SavedHistory(c, c.tracked.value.(unrealized := unrealized));
    }
  }

  /** `record_tp_hit` on what `c` became: it writes the FSM's position back, so a record deleted in
      between reappears in its terminal state. */
  lemma TpHitKeeps(c: Cell, d: Cell)
    requires CellInv(c) && CellInv(d) && c.stored.Some? && d.tracked.Some? && SameEntry(c.stored.value, d.tracked.value)
    ensures Keeps(c, TpHitCell(d))
    ensures Live(TpHitCell(d)) <==> !Terminal(d.tracked.value.state) && d.tracked.value.state != Idle
  {
    hide LegalHistory;
    SavedHistory(d, d.tracked.value.(tpHit := d.tracked.value.tpHit + 1));
  }

  /** Flattening always ends in a coherent cell, and never submits for a terminal record. */
  lemma FlattenKeeps(c: Cell, landed: bool)
    requires CellInv(c)
    ensures Keeps(c, FlattenCell(c, landed)) && (Live(c) ==> Live(FlattenCell(c, landed)))
    ensures var d := FlattenCell(c, landed);
            c.tracked.Some? && c.tracked.value.state == Open ==>
              d.tracked.Some? && SameEntry(c.tracked.value, d.tracked.value) &&
              d.tracked.value.state == if landed then Closed else Closing
  {
    hide LegalHistory;
    if c.stored.Some? && c.stored.value.state == Entering {
      SavedHistory(c, AsVetoed(FsmOf(c)));
    } else if FlattenSubmits(c) && c.tracked.Some? {
      var p := c.tracked.value;
      SavedHistory(c, AsClosing(p));
      SavedHistory(Saved(c, AsClosing(p)), AsClosed(AsClosing(p)));
      SavedHistory(c, AsClosed(p));
    }
  }

  /** With a landing exit, flattening deletes the record exactly when it is ENTERING, or OPEN or
      CLOSING with its FSM registered. */
  lemma FlattenDeletes(c: Cell)
    requires CellInv(c) && c.stored.Some?
    ensures FlattenCell(c, true).stored.None? <==>
            c.stored.value.state == Entering || (FlattenSubmits(c) && c.tracked.Some?)
  {
    hide LegalHistory;
  }

  /** What a flatten leaves. An ENTERING record is vetoed and deleted. A registered OPEN one is closed, or left
      CLOSING when its exit does not land; a registered CLOSING one is closed when its exit lands. Any other
      cell stays as it is. */
  lemma FlattenDoes(c: Cell, landed: bool)
    requires CellInv(c)
    ensures var d := FlattenCell(c, landed);
            if c.stored.None? then d == c
            else
              var p := c.stored.value;
              if p.state == Entering then
                d == c.(stored := None, tracked := None, lock := None, history := c.history + [Vetoed])
              else if c.tracked.None? || (p.state == Closing && !landed) || Terminal(p.state) || p.state == Idle then
                d == c
              else
                var closed := p.(state := Closed, realized := Some(0));
                var closing := p.(state := Closing);
                if landed then
                  d == c.(stored := None, tracked := Some(closed),
                          history := c.history + (if p.state == Open then [Closing, Closed] else [Closed]))
                else d == c.(stored := Some(closing), tracked := Some(closing), history := c.history + [Closing])
  {
    hide LegalHistory;
    if FlattenSubmits(c) && c.tracked.Some? && c.stored.value.state == Open {
      assert c.history + [Closing] + [Closed] == c.history + [Closing, Closed];
    }
  }

  /** A restart keeps a record exactly when its entry landed, or it is OPEN and still at the venue, or CLOSING
      without a landed exit. */
  lemma StartupKeepsRecord(c: Cell, v: VenueAnswer, until: int)
    requires CellInv(c)
    ensures var d := StartupCell(CrashCell(c), v, until);
            d.stored.Some? <==>
            c.stored.Some? &&
            match c.stored.value.state
            case Entering => v.entryFill.Some? && v.entryFill.value.landed
            case Open => !v.gone
            case Closing => !v.exitLanded
            case _ => false
  {
    hide LegalHistory;
    NeverIdle(c.history);
    LatestIsMember(c.history);
    if c.stored.Some? && c.stored.value.state == Entering {
      FillKeeps(CrashCell(c), Fill(false, 0, 0), until);
      if v.entryFill.Some? {
        FillKeeps(CrashCell(c), v.entryFill.value, until);
      }
    }
  }

  lemma LatestIsMember(h: seq<FsmState>)
    ensures h != [] ==> h[|h| - 1] in h
  {
  }

  lemma ContinuousKeeps(c: Cell, slot: int, ttl: int, until: int)
    requires CellInv(c)
    ensures var d := ContinuousCell(c, slot, ttl, until);
            Keeps(c, d) && (Live(c) ==> Live(d)) && (d.stored.Some? ==> !TimedOut(d.stored.value, slot, ttl))
    ensures var d, late := ContinuousCell(c, slot, ttl, until), ttl * 1000 / 400;
            if c.stored.Some? && c.stored.value.state == Entering && slot - c.stored.value.entrySlot > late
            then FillDone(c, Fill(false, 0, 0), until, d) && d.stored.None?
            else d == c
  {
    hide LegalHistory;
    FillKeeps(c, Fill(false, 0, 0), until);
  }

  // ---------- restart ----------

  /** A crash loses the registry and the exit states. */
  function CrashCell(c: Cell): Cell
  {
    c.(tracked := None, exit := false)
  }

  lemma StartupKeeps(c: Cell, v: VenueAnswer, until: int)
    requires CellInv(c)
    ensures Keeps(c, StartupCell(CrashCell(c), v, until))
    ensures c.stored.Some? ==> c.stored.value.state != Idle
  {
    hide LegalHistory;
    var e := CrashCell(c);
    if c.stored.Some? {
      var p := c.stored.value;
      if p.state == Entering {
        FillKeeps(e, Fill(false, 0, 0), until);
        if v.entryFill.Some? {
          FillKeeps(e, v.entryFill.value, until);
        }
      }
      NeverIdle(c.history);
      SavedHistory(e, AsClosing(p));
      SavedHistory(Saved(e, AsClosing(p)), AsClosed(AsClosing(p)));
      SavedHistory(e, AsClosed(p));
    }
  }

  lemma {:induction false} NeverIdle(h: seq<FsmState>)
    requires LegalHistory(h)
    ensures Idle !in h
  {
    if h != [] {
      var front := h[..|h| - 1];
      NeverIdle(front);
      assert h == front + [h[|h| - 1]];
    }
  }

  /** After a restart only OPEN and CLOSING records remain, whatever was stored before. */
  lemma StartupSettles(c: Cell, v: VenueAnswer, until: int)
    requires CellInv(c)
    ensures var d := StartupCell(CrashCell(c), v, until);
            d.stored.Some? ==> d.stored.value.state == Open || d.stored.value.state == Closing
  {
    hide LegalHistory;
    StartupKeeps(c, v, until);
    if c.stored.Some? && c.stored.value.state == Entering {
      FillKeeps(CrashCell(c), Fill(false, 0, 0), until);
      if v.entryFill.Some? {
        FillKeeps(CrashCell(c), v.entryFill.value, until);
      }
    }
  }

  /** The venue's set contradicts its own fill: the entry landed but the mint is not listed. */
  predicate FillNotListed(c: Cell, v: VenueAnswer)
  {
    c.stored.Some? && c.stored.value.state == Entering && v.entryFill.Some? && v.entryFill.value.landed && v.gone
  }

  /** An OPEN record the venue does not know survives a restart exactly when the venue's set
      contradicts its own landed entry fill. */
  lemma StartupOpenIsKnown(c: Cell, v: VenueAnswer, until: int)
    requires CellInv(c)
    ensures var d := StartupCell(CrashCell(c), v, until);
            (d.stored.Some? && d.stored.value.state == Open && v.gone) <==> FillNotListed(c, v)
  {
    hide LegalHistory;
    if c.stored.Some? && c.stored.value.state == Entering {
      FillKeeps(CrashCell(c), Fill(false, 0, 0), until);
      if v.entryFill.Some? {
        FillKeeps(CrashCell(c), v.entryFill.value, until);
      }
    }
  }

  /** A second run on the same answers changes nothing, exactly when that contradiction is absent. */
  lemma StartupIdempotent(c: Cell, v: VenueAnswer, until: int, later: int)
    requires CellInv(c)
    ensures var d := StartupCell(CrashCell(c), v, until);
            StartupCell(d, v, later) == d <==> !FillNotListed(c, v)
  {
    hide LegalHistory;
    StartupSettles(c, v, until);
    StartupOpenIsKnown(c, v, until);
    var d := StartupCell(CrashCell(c), v, until);
    if d.stored.Some? && d.stored.value.state == Closing {
      assert c.stored == d.stored;
    }
  }
}
