/** The submit-and-retry protocol of the Jito/Jupiter venue. The network is an environment that may
    land a transaction while reporting failure, may answer a status query, and may raise from any
    call. A call leaves a trace of what it simulated, rechecked and sent. */
module LandRetry {
  import opened Common

  datatype Mode = DryRun | Devnet | Live

  /** The venue's configuration. `devnetAllowed` stands for the RPC_DEVNET gate. */
  datatype Config = Config(cluster: string, liveSubmitEnabled: bool, dryRunDisabled: bool, devnetAllowed: bool,
                           hasStatuses: bool)

  /** An RPC or signer call either replies or raises; `reason` is the one the call's handlers report. */
  datatype Answer<+T> = Reply(value: T) | Raised(reason: string)

  datatype Sim = Sim(success: bool, revertReason: string)
  datatype Status = NoStatus | Status(confirmed: bool, err: bool, slot: int)
  datatype SendReply = SendReply(submitted: bool, signature: Option<string>, reason: string, landSlot: int)
  datatype Confirm = Confirm(confirmed: bool, landSlot: int)
  datatype LandResult = LandResult(submitted: bool, reason: string, signature: Option<string>, landSlot: int)
  datatype Fill = Fill(landed: bool, reason: string)

  /** What the environment does in one attempt: the recheck of the previous transaction, the rebuilt
      and re-signed bytes, their simulation, the send and its confirmation, and, known only to the
      chain, whether the transaction sent in this attempt ever lands. */
  datatype Attempt = Attempt(
    status: Answer<Status>, rebuilt: Answer<string>, sim: Answer<Sim>,
    send: Answer<SendReply>, confirm: Answer<Confirm>, lands: bool)

  datatype Event =
    | Simulated(bytes: string, ok: bool)
    | Rechecked(bytes: string, found: bool)
    | Sent(bytes: string, lands: bool)

  type Outcome = (Answer<LandResult>, seq<Event>)

  const MAX_ATTEMPTS: nat := 3
  const RETRY_REASONS: set<string> := {"blockhash_expired", "BlockhashNotFound", "node_lag"}

  // ---------- specification ----------

  /** `submit_mode`. */
  function SubmitMode(c: Config): Mode
  {
    if c.cluster == "devnet" then Devnet
    else if c.liveSubmitEnabled && c.dryRunDisabled then Live
    else DryRun
  }

  /** `_send_once` in LIVE, `_send_and_confirm_devnet` in DEVNET. */
  function Send(mode: Mode, a: Attempt): Answer<LandResult>
  {
    match a.send
    case Raised(e) => Raised(e)
    case Reply(s) =>
      if mode != Devnet then
        Reply(if s.submitted then LandResult(true, "landed", s.signature, s.landSlot)
              else LandResult(false, s.reason, None, 0))
      else if !s.submitted || s.signature.None? || s.signature.value == "" then
        Reply(LandResult(false, s.reason, None, 0))
      else
        match a.confirm
        case Raised(e) => Raised(e)
        case Reply(k) =>
          Reply(if k.confirmed then LandResult(true, "devnet_landed", s.signature, k.landSlot)
                else LandResult(true, "devnet_confirm_failed", s.signature, 0))
  }

  /** `status is not None and status.confirmed and status.err is None`. */
  predicate Found(s: Status)
  {
    s.Status? && s.confirmed && !s.err
  }

  /** `extract_signature_b58`, kept abstract: a non-empty text fixed by the bytes. */
  function LocalSignature(bytes: string): string
  {
    "signature of " + bytes
  }

  function After(e: Event, o: Outcome): Outcome
  {
    (o.0, [e] + o.1)
  }

  /** Send `bytes` as attempt k, and retry on a transient reason. */
  function SendFrom(c: Config, env: seq<Attempt>, k: nat, bytes: string): Outcome
    requires 1 <= k <= MAX_ATTEMPTS <= |env|
    decreases MAX_ATTEMPTS - k, 0
  {
    var a := env[k - 1];
    After(Sent(bytes, a.lands),
      match Send(SubmitMode(c), a)
      case Raised(e) => (Raised(e), [])
      case Reply(r) =>
        if r.submitted then (Reply(r), [])
        else if r.reason !in RETRY_REASONS || k == MAX_ATTEMPTS then (Reply(LandResult(false, r.reason, None, 0)), [])
        else RetryFrom(c, env, k + 1, bytes))
  }

  /** Attempt k > 1: the phantom-land guard on the previous bytes, then rebuild, re-sign, re-simulate, send. */
  function RetryFrom(c: Config, env: seq<Attempt>, k: nat, previous: string): Outcome
    requires 2 <= k <= MAX_ATTEMPTS <= |env|
    decreases MAX_ATTEMPTS - k, 2
  {
    var a := env[k - 1];
    if !c.hasStatuses then ResendFrom(c, env, k)
    else
      match a.status
      case Raised(e) => (Raised(e), [])
      case Reply(s) =>
        if Found(s) then (Reply(LandResult(true, "landed", Some(LocalSignature(previous)), s.slot)),
                          [Rechecked(previous, true)])
        else After(Rechecked(previous, false), ResendFrom(c, env, k))
  }

  function SimRevert(sim: Sim): LandResult
  {
    LandResult(false, "sim_revert:" + (if sim.revertReason == "" then "unknown" else sim.revertReason), None, 0)
  }

  function ResendFrom(c: Config, env: seq<Attempt>, k: nat): Outcome
    requires 2 <= k <= MAX_ATTEMPTS <= |env|
    decreases MAX_ATTEMPTS - k, 1
  {
    var a := env[k - 1];
    match a.rebuilt
    case Raised(e) => (Raised(e), [])
    case Reply(bytes) =>
      match a.sim
      case Raised(e) => (Raised(e), [])
      case Reply(sim) =>
        if !sim.success then (Reply(SimRevert(sim)), [Simulated(bytes, false)])
        else After(Simulated(bytes, true), SendFrom(c, env, k, bytes))
  }

  /** `_land_with_retry_entry` and `_land_with_retry_exit`, which share this protocol. */
  function Land(c: Config, env: seq<Attempt>, bytes: string): Outcome
    requires MAX_ATTEMPTS <= |env|
  {
    match SubmitMode(c)
    case DryRun => (Reply(LandResult(false, "dry_run", None, 0)), [])
    case Devnet => if c.devnetAllowed then SendFrom(c, env, 1, bytes) else (Raised("unexpected_error"), [])
    case Live => SendFrom(c, env, 1, bytes)
  }

  /** `reconcile`: a fill needs a submission, a signature and a confirmed reason. */
  function Reconcile(r: LandResult): Fill
  {
    if r.submitted && r.signature.Some? && r.signature.value != "" && r.reason in {"landed", "devnet_landed"}
    then Fill(true, "filled")
    else Fill(false, r.reason)
  }

  /** Building and signing before the first send: `execute` signs and simulates twice, `exit` once. */
  datatype Round = Round(signed: Answer<string>, sim: Answer<Sim>)

  function Prepare(rounds: seq<Round>, bytes: string): (Answer<string>, seq<Event>)
  {
    if rounds == [] then (Reply(bytes), [])
    else
      match rounds[0].signed
      case Raised(e) => (Raised(e), [])
      case Reply(b) =>
        match rounds[0].sim
        case Raised(e) => (Raised(e), [])
        case Reply(sim) =>
          if !sim.success then (Raised(SimRevert(sim).reason), [Simulated(b, false)])
          else
            var rest := Prepare(rounds[1..], b);
            (rest.0, [Simulated(b, true)] + rest.1)
  }

  /** One `execute` or `exit` call. `quote` stands for the quote, freshness and minimum-output steps. */
  datatype Call = Call(intentId: string, quote: Answer<()>, rounds: seq<Round>, env: seq<Attempt>)

  predicate ValidCall(call: Call)
  {
    call.rounds != [] && MAX_ATTEMPTS <= |call.env|
  }

  function Run(c: Config, call: Call): (Fill, seq<Event>)
    requires ValidCall(call)
  {
    match call.quote
    case Raised(e) => (Fill(false, e), [])
    case Reply(_) =>
      var p := Prepare(call.rounds, "");
      match p.0
      case Raised(e) => (Fill(false, e), p.1)
      case Reply(bytes) =>
        var o := Land(c, call.env, bytes);
        match o.0
        case Raised(e) => (Fill(false, e), p.1 + o.1)
        case Reply(r) => (Reconcile(r), p.1 + o.1)
  }

  // ---------- what a trace shows ----------

  function Sends(trace: seq<Event>): seq<Event>
  {
    if trace == [] then [] else (if trace[0].Sent? then [trace[0]] else []) + Sends(trace[1..])
  }

  /** How many transactions of the trace land on chain. */
  function Landings(trace: seq<Event>): nat
  {
    if trace == [] then 0 else (if trace[0].Sent? && trace[0].lands then 1 else 0) + Landings(trace[1..])
  }

  /** Every sent byte string is the one simulated last, and that simulation succeeded. `armed` is the
      last successful simulation before the trace, if nothing failed since. */
  predicate Armed(trace: seq<Event>, armed: Option<string>)
  {
    if trace == [] then true
    else
      match trace[0]
      case Simulated(b, ok) => Armed(trace[1..], if ok then Some(b) else None)
      case Rechecked(_, _) => Armed(trace[1..], armed)
      case Sent(b, _) => armed == Some(b) && Armed(trace[1..], armed)
  }

  lemma EventFirst(e: Event, t: seq<Event>, armed: Option<string>)
    ensures Sends([e] + t) == (if e.Sent? then [e] else []) + Sends(t)
    ensures Landings([e] + t) == (if e.Sent? && e.lands then 1 else 0) + Landings(t)
    ensures Armed([e] + t, armed) <==>
            match e
            case Simulated(b, ok) => Armed(t, if ok then Some(b) else None)
            case Rechecked(_, _) => Armed(t, armed)
            case Sent(b, _) => armed == Some(b) && Armed(t, armed)
  {
    assert ([e] + t)[1..] == t && ([e] + t)[0] == e;
  }

  lemma EventOnly(e: Event, armed: Option<string>)
    ensures [e] + [] == [e]
    ensures Sends([e]) == if e.Sent? then [e] else []
    ensures Landings([e]) == if e.Sent? && e.lands then 1 else 0
    ensures Armed([e], armed) <==> (e.Sent? ==> armed == Some(e.bytes))
  {
    EventFirst(e, [], armed);
    assert [e] + [] == [e];
  }

  lemma {:induction false} SendsAppend(a: seq<Event>, b: seq<Event>)
    ensures Sends(a + b) == Sends(a) + Sends(b) && Landings(a + b) == Landings(a) + Landings(b)
  {
    if a == [] {
      assert a + b == b;
    } else {
      SendsAppend(a[1..], b);
      EventFirst(a[0], a[1..], None);
      EventFirst(a[0], a[1..] + b, None);
      assert a == [a[0]] + a[1..] && a + b == [a[0]] + (a[1..] + b);
    }
  }

  // ---------- at most three sends, of simulated bytes only ----------

  lemma {:induction false} SendFromSends(c: Config, env: seq<Attempt>, k: nat, bytes: string)
    requires 1 <= k <= MAX_ATTEMPTS <= |env|
    ensures |Sends(SendFrom(c, env, k, bytes).1)| <= 1 + MAX_ATTEMPTS - k
    ensures Armed(SendFrom(c, env, k, bytes).1, Some(bytes))
    decreases MAX_ATTEMPTS - k, 0
  {
    hide RetryFrom, Sends, Armed;
    var e := Sent(bytes, env[k - 1].lands);
    EventOnly(e, Some(bytes));
    NoEvents(Some(bytes));
    if k < MAX_ATTEMPTS {
      RetryFromSends(c, env, k + 1, bytes);
      EventFirst(e, RetryFrom(c, env, k + 1, bytes).1, Some(bytes));
    }
  }

  lemma NoEvents(armed: Option<string>)
    ensures Sends([]) == [] && Landings([]) == 0 && Armed([], armed)
  {
  }

  lemma {:induction false} RetryFromSends(c: Config, env: seq<Attempt>, k: nat, previous: string)
    requires 2 <= k <= MAX_ATTEMPTS <= |env|
    ensures |Sends(RetryFrom(c, env, k, previous).1)| <= 1 + MAX_ATTEMPTS - k
    ensures Armed(RetryFrom(c, env, k, previous).1, Some(previous))
    decreases MAX_ATTEMPTS - k, 2
  {
    hide ResendFrom, Sends, Armed;
    ResendFromSends(c, env, k, Some(previous));
    EventFirst(Rechecked(previous, false), ResendFrom(c, env, k).1, Some(previous));
    EventOnly(Rechecked(previous, true), Some(previous));
    NoEvents(Some(previous));
  }

  lemma {:induction false} ResendFromSends(c: Config, env: seq<Attempt>, k: nat, armed: Option<string>)
    requires 2 <= k <= MAX_ATTEMPTS <= |env|
    ensures |Sends(ResendFrom(c, env, k).1)| <= 1 + MAX_ATTEMPTS - k
    ensures Armed(ResendFrom(c, env, k).1, armed)
    decreases MAX_ATTEMPTS - k, 1
  {
    hide SendFrom, Sends, Armed;
    NoEvents(armed);
    NoEvents(None);
    if env[k - 1].rebuilt.Reply? {
      var b := env[k - 1].rebuilt.value;
      SendFromSends(c, env, k, b);
      EventFirst(Simulated(b, true), SendFrom(c, env, k, b).1, armed);
      EventOnly(Simulated(b, false), armed);
    }
  }

  /** Preparing sends nothing, and leaves the bytes it returns simulated last. */
  lemma {:induction false} PrepareArms(rounds: seq<Round>, bytes: string, armed: Option<string>, rest: seq<Event>)
    requires rounds != [] || armed == Some(bytes)
    ensures var p := Prepare(rounds, bytes);
            Sends(p.1) == [] && Landings(p.1) == 0 && Armed(p.1, armed) &&
            (p.0.Reply? && Armed(rest, Some(p.0.value)) ==> Armed(p.1 + rest, armed))
  {
    hide Sends, Landings, Armed;
    NoEvents(armed);
    NoEvents(None);
    if rounds == [] {
      assert [] + rest == rest;
    } else if rounds[0].signed.Reply? {
      var b := rounds[0].signed.value;
      PrepareArms(rounds[1..], b, Some(b), rest);
      var q := Prepare(rounds[1..], b).1;
      EventFirst(Simulated(b, true), q, armed);
      EventFirst(Simulated(b, true), q + rest, armed);
      EventOnly(Simulated(b, false), armed);
      assert [Simulated(b, true)] + q + rest == [Simulated(b, true)] + (q + rest);
    }
  }

  /** In every mode and against every environment: at most three sends, each of exactly the bytes that
      were simulated last and successfully; in DRY_RUN nothing is sent at all. */
  lemma SendDiscipline(c: Config, call: Call)
    requires ValidCall(call)
    ensures |Sends(Run(c, call).1)| <= 3
    ensures Armed(Run(c, call).1, None)
    ensures SubmitMode(c) == DryRun ==> Sends(Run(c, call).1) == [] && !Run(c, call).0.landed
  {
    hide SendFrom, Sends, Armed;
    NoEvents(None);
    if call.quote.Reply? {
      var p := Prepare(call.rounds, "");
      var rest := if p.0.Reply? then Land(c, call.env, p.0.value).1 else [];
      if p.0.Reply? {
        NoEvents(Some(p.0.value));
        SendFromSends(c, call.env, 1, p.0.value);
      }
      PrepareArms(call.rounds, "", None, rest);
      SendsAppend(p.1, rest);
    }
  }

  // ---------- which attempts are made ----------

  /** The send of `a` is reported as a confirmed fill. */
  predicate Confirms(mode: Mode, a: Attempt)
  {
    Send(mode, a).Reply? && Reconcile(Send(mode, a).value).landed
  }

  predicate Transient(mode: Mode, a: Attempt)
  {
    Send(mode, a).Reply? && !Send(mode, a).value.submitted && Send(mode, a).value.reason in RETRY_REASONS
  }

  /** Attempt k fails with a transient reason and a further one is made: its recheck does not find the
      bytes just sent, and the rebuilt bytes simulate successfully. */
  predicate GoesOn(c: Config, env: seq<Attempt>, k: nat)
    requires 1 <= k <= MAX_ATTEMPTS <= |env|
  {
    k < MAX_ATTEMPTS && Transient(SubmitMode(c), env[k - 1]) &&
    (c.hasStatuses ==> env[k].status.Reply? && !Found(env[k].status.value)) &&
    env[k].rebuilt.Reply? && env[k].sim.Reply? && env[k].sim.value.success
  }

  /** The call gets as far as sending. */
  predicate Submits(c: Config, call: Call)
  {
    call.quote.Reply? && Prepare(call.rounds, "").0.Reply? &&
    (SubmitMode(c) == Live || (SubmitMode(c) == Devnet && c.devnetAllowed))
  }

  // ---------- the gates and the answers, spelled out ----------

  /** Devnet submits with its RPC configured; any other cluster only with live submit enabled and the
      dry-run switch off. */
  predicate GatesOpen(c: Config)
  {
    if c.cluster == "devnet" then c.devnetAllowed else c.liveSubmitEnabled && c.dryRunDisabled
  }

  /** The quote is good and every round is signed and simulates successfully. */
  predicate Prepared(call: Call)
  {
    call.quote.Reply? && forall i :: 0 <= i < |call.rounds| ==> GoodRound(call.rounds[i])
  }

  predicate GoodRound(r: Round)
  {
    r.signed.Reply? && r.sim.Reply? && r.sim.value.success
  }

  lemma {:induction false} PrepareSucceeds(rounds: seq<Round>, bytes: string)
    ensures var p := Prepare(rounds, bytes).0;
            (p.Reply? <==> forall i :: 0 <= i < |rounds| ==> GoodRound(rounds[i])) &&
            (p.Reply? && rounds != [] ==> Reply(p.value) == rounds[|rounds| - 1].signed)
  {
    if rounds != [] && GoodRound(rounds[0]) {
      var tail := rounds[1..];
      PrepareSucceeds(tail, rounds[0].signed.value);
      assert forall i :: 1 <= i < |rounds| ==> rounds[i] == tail[i - 1];
      assert forall i :: 0 <= i < |tail| ==> tail[i] == rounds[i + 1];
    }
  }

  /** A call sends something exactly when it is prepared and the gates are open; otherwise, once prepared, it
      answers that it did not. */
  lemma SendsExactly(c: Config, call: Call)
    requires ValidCall(call)
    ensures Submits(c, call) <==> Prepared(call) && GatesOpen(c)
    ensures Sends(Run(c, call).1) != [] <==> Prepared(call) && GatesOpen(c)
    ensures Prepared(call) && !GatesOpen(c) ==>
              Run(c, call).0 == Fill(false, if c.cluster == "devnet" then "unexpected_error" else "dry_run")
  {
    hide SendFrom, Sends, Armed, Landings;
    PrepareSucceeds(call.rounds, "");
    NoEvents(None);
    if call.quote.Reply? {
      var p := Prepare(call.rounds, "");
      PrepareArms(call.rounds, "", None, []);
      if p.0.Reply? {
        var rest := Land(c, call.env, p.0.value).1;
        SendsAppend(p.1, rest);
        FirstSend(c, call.env, p.0.value);
      }
    }
  }

  lemma FirstSend(c: Config, env: seq<Attempt>, bytes: string)
    requires MAX_ATTEMPTS <= |env|
    ensures Sends(SendFrom(c, env, 1, bytes).1) != []
  {
    hide Sends, RetryFrom;
    var o := SendFrom(c, env, 1, bytes).1;
    EventFirst(o[0], o[1..], None);
    assert o == [o[0]] + o[1..];
  }

  /** When a send confirms by itself: the node accepted it with a signature, and on devnet the confirmation
      says so too. When it fails in a way that is retried: not accepted (on devnet, or without a signature),
      for one of the three transient reasons. */
  lemma SendSpelledOut(mode: Mode, a: Attempt)
    ensures Confirms(mode, a) <==>
            a.send.Reply? && a.send.value.submitted && a.send.value.signature.Some? &&
            a.send.value.signature.value != "" && (mode == Devnet ==> a.confirm.Reply? && a.confirm.value.confirmed)
    ensures Transient(mode, a) <==>
            a.send.Reply? && a.send.value.reason in {"blockhash_expired", "BlockhashNotFound", "node_lag"} &&
            (!a.send.value.submitted ||
             (mode == Devnet && (a.send.value.signature.None? || a.send.value.signature.value == "")))
  {
  }

  lemma FoundSpelledOut(s: Status)
    ensures Found(s) <==> exists slot :: s == Status(true, false, slot)
  {
    if Found(s) {
      assert s == Status(true, false, s.slot);
    }
  }

  // ---------- at most one landing per call ----------

  /** From attempt k on, a re-check that is made and replies finds the previous attempt if that one lands. */
  predicate FindsLandings(c: Config, env: seq<Attempt>, k: nat)
    requires 1 <= k <= MAX_ATTEMPTS <= |env|
    decreases MAX_ATTEMPTS - k
  {
    (k < MAX_ATTEMPTS && Transient(SubmitMode(c), env[k - 1]) && env[k - 1].lands && env[k].status.Reply? ==>
       Found(env[k].status.value)) &&
    (k < MAX_ATTEMPTS && GoesOn(c, env, k) ==> FindsLandings(c, env, k + 1))
  }

  /** No re-check the call makes misses a landing. */
  predicate AccurateRechecks(c: Config, call: Call)
    requires ValidCall(call)
  {
    Submits(c, call) ==> FindsLandings(c, call.env, 1)
  }

  /** How many of the attempts made from attempt k on land. */
  function LandingsMade(c: Config, env: seq<Attempt>, k: nat): nat
    requires 1 <= k <= MAX_ATTEMPTS <= |env|
    decreases MAX_ATTEMPTS - k
  {
    (if env[k - 1].lands then 1 else 0) +
    (if k < MAX_ATTEMPTS && GoesOn(c, env, k) then LandingsMade(c, env, k + 1) else 0)
  }

  lemma {:induction false} SendFromLandings(c: Config, env: seq<Attempt>, k: nat, bytes: string)
    requires 1 <= k <= MAX_ATTEMPTS <= |env|
    ensures Landings(SendFrom(c, env, k, bytes).1) == LandingsMade(c, env, k)
    decreases MAX_ATTEMPTS - k
  {
    hide Landings, Sends, Armed;
    var a := env[k - 1];
    EventOnly(Sent(bytes, a.lands), None);
    NoEvents(None);
    if k < MAX_ATTEMPTS && Transient(SubmitMode(c), a) {
      EventFirst(Sent(bytes, a.lands), RetryFrom(c, env, k + 1, bytes).1, None);
      EventOnly(Rechecked(bytes, true), None);
      EventFirst(Rechecked(bytes, false), ResendFrom(c, env, k + 1).1, None);
      if GoesOn(c, env, k) {
        var b := env[k].rebuilt.value;
        SendFromLandings(c, env, k + 1, b);
        EventFirst(Simulated(b, true), SendFrom(c, env, k + 1, b).1, None);
      } else if env[k].rebuilt.Reply? {
        EventOnly(Simulated(env[k].rebuilt.value, false), None);
      }
    }
  }

  /** What lands of a call, in every environment: the landing attempts among those it makes. */
  lemma LandingsExactly(c: Config, call: Call)
    requires ValidCall(call)
    ensures Landings(Run(c, call).1) == if Submits(c, call) then LandingsMade(c, call.env, 1) else 0
  {
    hide SendFrom, Landings, Sends, Armed, LandingsMade;
    NoEvents(None);
    if call.quote.Reply? {
      var p := Prepare(call.rounds, "");
      PrepareArms(call.rounds, "", None, []);
      if Submits(c, call) {
        SendFromLandings(c, call.env, 1, p.0.value);
        SendsAppend(p.1, Land(c, call.env, p.0.value).1);
      } else if p.0.Reply? {
        assert p.1 + [] == p.1;
      }
    }
  }

  lemma {:induction false} OneLanding(c: Config, env: seq<Attempt>, k: nat)
    requires 1 <= k <= MAX_ATTEMPTS <= |env| && c.hasStatuses && FindsLandings(c, env, k)
    ensures LandingsMade(c, env, k) <= 1
    decreases MAX_ATTEMPTS - k
  {
    if k < MAX_ATTEMPTS && GoesOn(c, env, k) {
      OneLanding(c, env, k + 1);
    }
  }

  /** When no re-check the call makes misses a landing, at most one of its transactions lands, however
      the sends misreport. */
  lemma AtMostOneLanding(c: Config, call: Call)
    requires ValidCall(call) && c.hasStatuses && AccurateRechecks(c, call)
    ensures Landings(Run(c, call).1) <= 1
  {
    hide Run, Landings;
    LandingsExactly(c, call);
    if Submits(c, call) {
      OneLanding(c, call.env, 1);
    }
  }

  /** Both hypotheses are needed: without a status endpoint, or with one that answers wrongly, a
      transient report on a transaction that did land makes the retry land a second one. */
  lemma GuardIsNeeded()
    ensures exists c: Config, call: Call ::
              ValidCall(call) && !c.hasStatuses && Landings(Run(c, call).1) == 2
    ensures exists c: Config, call: Call :: ValidCall(call) && c.hasStatuses && Landings(Run(c, call).1) == 2
  {
    var ok := Reply(Sim(true, ""));
    var lag := Reply(SendReply(false, None, "node_lag", 0));
    var good := Reply(SendReply(true, Some("s"), "", 7));
    var conf := Reply(Confirm(true, 7));
    var seen := Reply(Status(true, false, 7));
    var first := Attempt(seen, Reply("a"), ok, lag, conf, true);
    var second := Attempt(seen, Reply("b"), ok, good, conf, true);
    var call := Call("id", Reply(()), [Round(Reply("a"), ok)], [first, second, second]);
    var c := Config("mainnet", true, true, true, false);
    DoubleSend(c, call);
    var blind := second.(status := Reply(NoStatus));
    DoubleSend(c.(hasStatuses := true), call.(env := [first, blind, blind]));
  }

  lemma DoubleSend(c: Config, call: Call)
    requires ValidCall(call) && |call.env| == 3 && SubmitMode(c) == Live
    requires call.quote == Reply(()) && call.rounds == [Round(Reply("a"), Reply(Sim(true, "")))]
    requires call.env[0].send == Reply(SendReply(false, None, "node_lag", 0)) && call.env[0].lands
    requires c.hasStatuses ==> call.env[1].status == Reply(NoStatus)
    requires call.env[1].rebuilt == Reply("b") && call.env[1].sim == Reply(Sim(true, "")) && call.env[1].lands
    requires call.env[1].send == Reply(SendReply(true, Some("s"), "", 7))
    ensures Landings(Run(c, call).1) == 2
  {
    hide Landings, Sends, Armed;
    var env := call.env;
    NoEvents(None);
    EventOnly(Sent("b", true), None);
    assert Landings(SendFrom(c, env, 2, "b").1) == 1;
    EventFirst(Simulated("b", true), SendFrom(c, env, 2, "b").1, None);
    var resend := ResendFrom(c, env, 2).1;
    EventFirst(Rechecked("a", false), resend, None);
    var retry := RetryFrom(c, env, 2, "a").1;
    assert Landings(retry) == 1;
    EventFirst(Sent("a", true), retry, None);
    assert Landings(SendFrom(c, env, 1, "a").1) == 2;
    OneRound("a");
    PrepareArms(call.rounds, "", None, []);
    SendsAppend(Prepare(call.rounds, "").1, SendFrom(c, env, 1, "a").1);
  }

  lemma OneRound(b: string)
    ensures Prepare([Round(Reply(b), Reply(Sim(true, "")))], "").0 == Reply(b)
  {
    var rounds := [Round(Reply(b), Reply(Sim(true, "")))];
    assert rounds[1..] == [];
    assert Prepare(rounds[1..], b).0 == Reply(b);
  }

  // ---------- a landing that is reported ----------

  /** If attempt k lands, its own send confirms it, or it fails with a transient reason while a further
      attempt is left whose status query replies. The last attempt has no such successor. */
  predicate ReportedAt(mode: Mode, env: seq<Attempt>, k: nat)
    requires 1 <= k <= MAX_ATTEMPTS <= |env|
  {
    env[k - 1].lands ==>
      Confirms(mode, env[k - 1]) || (k < MAX_ATTEMPTS && Transient(mode, env[k - 1]) && env[k].status.Reply?)
  }

  /** So for attempt k and every attempt that is made after it. */
  predicate ReportedFrom(c: Config, env: seq<Attempt>, k: nat)
    requires 1 <= k <= MAX_ATTEMPTS <= |env|
    decreases MAX_ATTEMPTS - k
  {
    ReportedAt(SubmitMode(c), env, k) && (k < MAX_ATTEMPTS && GoesOn(c, env, k) ==> ReportedFrom(c, env, k + 1))
  }

  predicate LandsAsFill(o: Outcome)
  {
    Landings(o.1) > 0 ==> o.0.Reply? && Reconcile(o.0.value).landed
  }

  /** A made attempt that lands is a fill, exactly when every made attempt reports its landing. */
  lemma {:induction false} SendFromReported(c: Config, env: seq<Attempt>, k: nat, bytes: string)
    requires 1 <= k <= MAX_ATTEMPTS <= |env| && c.hasStatuses && FindsLandings(c, env, k)
    ensures LandsAsFill(SendFrom(c, env, k, bytes)) <==> ReportedFrom(c, env, k)
    decreases MAX_ATTEMPTS - k
  {
    hide Landings, Sends, Armed;
    var a := env[k - 1];
    EventOnly(Sent(bytes, a.lands), None);
    NoEvents(None);
    if k < MAX_ATTEMPTS && Transient(SubmitMode(c), a) {
      var retry, resend := RetryFrom(c, env, k + 1, bytes), ResendFrom(c, env, k + 1);
      EventFirst(Sent(bytes, a.lands), retry.1, None);
      EventOnly(Rechecked(bytes, true), None);
      EventFirst(Rechecked(bytes, false), resend.1, None);
      if GoesOn(c, env, k) {
        var b := env[k].rebuilt.value;
        SendFromReported(c, env, k + 1, b);
        EventFirst(Simulated(b, true), SendFrom(c, env, k + 1, b).1, None);
      } else if env[k].rebuilt.Reply? {
        EventOnly(Simulated(env[k].rebuilt.value, false), None);
      }
    }
  }

  /** When no re-check misses a landing, a call that lands returns a landed fill exactly when every attempt it makes
      reports its landing. */
  lemma LandingIsAFill(c: Config, call: Call)
    requires ValidCall(call) && c.hasStatuses && AccurateRechecks(c, call)
    ensures (Landings(Run(c, call).1) > 0 ==> Run(c, call).0.landed) <==>
            (Submits(c, call) ==> ReportedFrom(c, call.env, 1))
  {
    hide SendFrom, Landings, Sends, Armed, FindsLandings, ReportedFrom, Reconcile;
    NoEvents(None);
    if call.quote.Reply? {
      var p := Prepare(call.rounds, "");
      PrepareArms(call.rounds, "", None, []);
      if p.0.Reply? && !Submits(c, call) {
        assert p.1 + [] == p.1;
      } else if p.0.Reply? {
        SendFromReported(c, call.env, 1, p.0.value);
        SendsAppend(p.1, Land(c, call.env, p.0.value).1);
      }
    }
  }

  // ---------- a fill that is confirmed ----------

  /** The recheck before attempt k + 1 is made and finds the bytes of attempt k. */
  predicate RecheckFinds(c: Config, env: seq<Attempt>, k: nat)
    requires 1 <= k <= MAX_ATTEMPTS <= |env|
  {
    k < MAX_ATTEMPTS && Transient(SubmitMode(c), env[k - 1]) && c.hasStatuses && env[k].status.Reply? &&
    Found(env[k].status.value)
  }

  /** The attempt whose own send or recheck makes the fill, from attempt k on: all before it went on. */
  function FillAttempt(c: Config, env: seq<Attempt>, k: nat): (r: Option<nat>)
    requires 1 <= k <= MAX_ATTEMPTS <= |env|
    ensures r.Some? ==>
              k <= r.value <= MAX_ATTEMPTS &&
              (Confirms(SubmitMode(c), env[r.value - 1]) || RecheckFinds(c, env, r.value)) &&
              forall j :: k <= j < r.value ==> GoesOn(c, env, j)
    decreases MAX_ATTEMPTS - k
  {
    if Confirms(SubmitMode(c), env[k - 1]) || RecheckFinds(c, env, k) then Some(k)
    else if k < MAX_ATTEMPTS && GoesOn(c, env, k) then FillAttempt(c, env, k + 1)
    else None
  }

  lemma {:induction false} SendFromFills(c: Config, env: seq<Attempt>, k: nat, bytes: string)
    requires 1 <= k <= MAX_ATTEMPTS <= |env|
    ensures var o := SendFrom(c, env, k, bytes).0;
            (o.Reply? && Reconcile(o.value).landed) <==> FillAttempt(c, env, k).Some?
    decreases MAX_ATTEMPTS - k
  {
    if k < MAX_ATTEMPTS && GoesOn(c, env, k) {
      SendFromFills(c, env, k + 1, env[k].rebuilt.value);
    }
  }

  /** One attempt: its own confirmation, the recheck that finds it, or the attempt after it decides. */
  lemma AttemptDecides(c: Config, env: seq<Attempt>, k: nat, bytes: string)
    requires 1 <= k <= MAX_ATTEMPTS <= |env|
    ensures var o := SendFrom(c, env, k, bytes).0;
            (Confirms(SubmitMode(c), env[k - 1]) ==> o == Send(SubmitMode(c), env[k - 1])) &&
            (RecheckFinds(c, env, k) ==>
               o == Reply(LandResult(true, "landed", Some(LocalSignature(bytes)), env[k].status.value.slot))) &&
            (GoesOn(c, env, k) ==> o == SendFrom(c, env, k + 1, env[k].rebuilt.value).0)
  {
  }

  /** A landing result is the one of the attempt that made it: its send's, or the local signature of its
      bytes with the slot its status was found at. */
  lemma {:induction false} LandCarries(c: Config, env: seq<Attempt>, k: nat, bytes: string)
    requires 1 <= k <= MAX_ATTEMPTS <= |env| && FillAttempt(c, env, k).Some?
    ensures var j := FillAttempt(c, env, k).value;
            var o := SendFrom(c, env, k, bytes).0;
            if Confirms(SubmitMode(c), env[j - 1]) then o == Send(SubmitMode(c), env[j - 1])
            else
              j < MAX_ATTEMPTS && env[j].status.Reply? && env[j].status.value.Status? &&
              (j > k ==> env[j - 1].rebuilt.Reply?) &&
              var sent := if j == k then bytes else env[j - 1].rebuilt.value;
              o == Reply(LandResult(true, "landed", Some(LocalSignature(sent)), env[j].status.value.slot))
    decreases MAX_ATTEMPTS - k
  {
    hide SendFrom, Send, Confirms, Transient;
    AttemptDecides(c, env, k, bytes);
    if !Confirms(SubmitMode(c), env[k - 1]) && !RecheckFinds(c, env, k) {
      LandCarries(c, env, k + 1, env[k].rebuilt.value);
    }
  }

  /** A confirming send's result: accepted, with the node's signature, at the node's slot, or on devnet at the
      confirmed one. */
  lemma SendCarries(mode: Mode, a: Attempt)
    requires Confirms(mode, a)
    ensures Send(mode, a).Reply?
    ensures var r := Send(mode, a).value;
            r.submitted && r.signature == a.send.value.signature &&
            r.landSlot == if mode == Devnet then a.confirm.value.landSlot else a.send.value.landSlot
  {
  }

  /** A call returns a landed fill exactly when it sends and one of the attempts it makes is confirmed by
      its own send, or by the recheck that follows it. */
  lemma FillExactly(c: Config, call: Call)
    requires ValidCall(call)
    ensures Run(c, call).0.landed <==> Submits(c, call) && FillAttempt(c, call.env, 1).Some?
  {
    hide SendFrom, FillAttempt;
    if call.quote.Reply? && Prepare(call.rounds, "").0.Reply? {
      SendFromFills(c, call.env, 1, Prepare(call.rounds, "").0.value);
    }
  }

  /** On devnet the attempt that makes the fill was accepted with a signature and its confirmation says
      confirmed, or the recheck of its bytes found them: an unconfirmed send stays retryable. */
  lemma DevnetFillIsConfirmed(c: Config, call: Call)
    requires ValidCall(call) && SubmitMode(c) == Devnet && Run(c, call).0.landed
    ensures FillAttempt(c, call.env, 1).Some?
    ensures var k := FillAttempt(c, call.env, 1).value;
            var a := call.env[k - 1];
            (forall j :: 1 <= j < k ==> GoesOn(c, call.env, j)) &&
            (RecheckFinds(c, call.env, k) ||
             (a.send.Reply? && a.send.value.submitted && a.send.value.signature.Some? &&
              a.confirm.Reply? && a.confirm.value.confirmed))
  {
    hide Run, FillAttempt;
    FillExactly(c, call);
  }

  // ---------- why a call does not fill ----------

  /** The last attempt made, from attempt k on. */
  function LastMade(c: Config, env: seq<Attempt>, k: nat): (j: nat)
    requires 1 <= k <= MAX_ATTEMPTS <= |env|
    ensures k <= j <= MAX_ATTEMPTS && !GoesOn(c, env, j)
    ensures forall i :: k <= i < j ==> GoesOn(c, env, i)
    decreases MAX_ATTEMPTS - k
  {
    if GoesOn(c, env, k) then LastMade(c, env, k + 1) else k
  }

  function Reverted(sim: Sim): string
  {
    if sim.revertReason == "" then "sim_revert:unknown" else "sim_revert:" + sim.revertReason
  }

  /** The reason attempt j leaves when it is the last one and nothing fills: the send's own, unless that one
      asked for a retry; then what stopped the retry before it could send. */
  ghost predicate Explains(c: Config, env: seq<Attempt>, j: nat, reason: string)
    requires 1 <= j <= MAX_ATTEMPTS <= |env|
  {
    var a := env[j - 1];
    var devnet := c.cluster == "devnet";
    match a.send
    case Raised(e) => reason == e
    case Reply(s) =>
      var signed := s.signature.Some? && s.signature.value != "";
      if s.submitted && !devnet then reason == "landed"
      else if s.submitted && signed then
        reason == if a.confirm.Raised? then a.confirm.reason else "devnet_confirm_failed"
      else if j == 3 || s.reason !in {"blockhash_expired", "BlockhashNotFound", "node_lag"} then reason == s.reason
      else
        var b := env[j];
        if c.hasStatuses && b.status.Raised? then reason == b.status.reason
        else if b.rebuilt.Raised? then reason == b.rebuilt.reason
        else if b.sim.Raised? then reason == b.sim.reason
        else !b.sim.value.success && reason == Reverted(b.sim.value)
  }

  function ReasonOf(o: Answer<LandResult>): string
  {
    if o.Raised? then o.reason else o.value.reason
  }

  lemma RevertReason(sim: Sim)
    ensures SimRevert(sim).reason == Reverted(sim)
  {
    assert "sim_revert:" + "unknown" == "sim_revert:unknown";
  }

  lemma StopExplains(c: Config, env: seq<Attempt>, k: nat, bytes: string)
    requires 1 <= k <= MAX_ATTEMPTS <= |env|
    requires !Confirms(SubmitMode(c), env[k - 1]) && !RecheckFinds(c, env, k) && !GoesOn(c, env, k)
    requires SubmitMode(c) != DryRun
    ensures Explains(c, env, k, ReasonOf(SendFrom(c, env, k, bytes).0))
  {
    hide SimRevert, Reverted;
    if k < MAX_ATTEMPTS && env[k].sim.Reply? {
      RevertReason(env[k].sim.value);
    }
  }

  lemma {:induction false} LastExplains(c: Config, env: seq<Attempt>, k: nat, bytes: string)
    requires 1 <= k <= MAX_ATTEMPTS <= |env| && FillAttempt(c, env, k).None? && SubmitMode(c) != DryRun
    ensures Explains(c, env, LastMade(c, env, k), ReasonOf(SendFrom(c, env, k, bytes).0))
    decreases MAX_ATTEMPTS - k
  {
    hide SendFrom, Confirms, Explains, Send;
    if GoesOn(c, env, k) {
      AttemptDecides(c, env, k, bytes);
      LastExplains(c, env, k + 1, env[k].rebuilt.value);
    } else {
      StopExplains(c, env, k, bytes);
    }
  }

  /** The reason of the first round that is not signed or does not simulate. */
  ghost predicate Spoils(rounds: seq<Round>, i: nat, reason: string)
    requires i < |rounds|
  {
    (forall j :: 0 <= j < i ==> GoodRound(rounds[j])) && !GoodRound(rounds[i]) &&
    reason == if rounds[i].signed.Raised? then rounds[i].signed.reason
              else if rounds[i].sim.Raised? then rounds[i].sim.reason else Reverted(rounds[i].sim.value)
  }

  lemma {:induction false} PrepareSpoiled(rounds: seq<Round>, bytes: string) returns (i: nat)
    requires Prepare(rounds, bytes).0.Raised?
    ensures i < |rounds| && Spoils(rounds, i, Prepare(rounds, bytes).0.reason)
  {
    if GoodRound(rounds[0]) {
      var tail := rounds[1..];
      i := PrepareSpoiled(tail, rounds[0].signed.value);
      assert forall j :: 1 <= j < |rounds| ==> rounds[j] == tail[j - 1];
      i := i + 1;
    } else {
      if rounds[0].signed.Reply? && rounds[0].sim.Reply? {
        RevertReason(rounds[0].sim.value);
      }
      i := 0;
    }
  }

  /** What a call answers: a landed fill says so; without one the reason is the failed quote's, the first
      spoiled round's, or, once it sends, the one the last attempt made leaves. */
  lemma ReasonExactly(c: Config, call: Call)
    requires ValidCall(call)
    ensures var f := Run(c, call).0;
            (f.landed ==> f.reason == "filled") &&
            (call.quote.Raised? ==> f == Fill(false, call.quote.reason)) &&
            (call.quote.Reply? && !Prepared(call) ==>
               !f.landed && exists i :: 0 <= i < |call.rounds| && Spoils(call.rounds, i, f.reason)) &&
            (Prepared(call) && GatesOpen(c) && !f.landed ==>
               Explains(c, call.env, LastMade(c, call.env, 1), f.reason))
  {
    hide SendFrom, FillAttempt, Explains, LastMade, Spoils;
    PrepareSucceeds(call.rounds, "");
    FillExactly(c, call);
    if call.quote.Reply? && Prepare(call.rounds, "").0.Raised? {
      var i := PrepareSpoiled(call.rounds, "");
    } else if call.quote.Reply? && !Run(c, call).0.landed && GatesOpen(c) {
      LastExplains(c, call.env, 1, Prepare(call.rounds, "").0.value);
    }
  }

  // ---------- the retry loop ----------

  /** `total` is what follows `trace` and then `rest`. */
  ghost predicate Continues(total: Outcome, trace: seq<Event>, rest: Outcome)
  {
    total == (rest.0, trace + rest.1)
  }

  lemma ContinuesAfter(total: Outcome, trace: seq<Event>, e: Event, rest: Outcome)
    requires Continues(total, trace, After(e, rest))
    ensures Continues(total, trace + [e], rest)
  {
    assert trace + ([e] + rest.1) == trace + [e] + rest.1;
  }

  lemma ContinuesEnds(total: Outcome, trace: seq<Event>, r: Answer<LandResult>)
    requires Continues(total, trace, (r, []))
    ensures total == (r, trace)
  {
    assert trace + [] == trace;
  }

  /** The state at the head of the loop. */
  ghost predicate LoopState(c: Config, env: seq<Attempt>, total: Outcome, trace: seq<Event>, attempt: nat,
                            current: string, lastReason: string)
    requires 1 <= attempt <= MAX_ATTEMPTS + 1 && MAX_ATTEMPTS <= |env|
  {
    if attempt == 1 then Continues(total, trace, SendFrom(c, env, 1, current))
    else if attempt <= MAX_ATTEMPTS then Continues(total, trace, RetryFrom(c, env, attempt, current))
    else Continues(total, trace, (Reply(LandResult(false, lastReason, None, 0)), []))
  }

  /** The phantom-land guard and the resend of attempt k: either the call is over, or the new bytes
      are simulated and go out next. */
  method Rebuild(c: Config, env: seq<Attempt>, k: nat, previous: string, ghost total: Outcome, before: seq<Event>)
    returns (over: Option<Answer<LandResult>>, bytes: string, trace: seq<Event>)
    requires 2 <= k <= MAX_ATTEMPTS <= |env| && Continues(total, before, RetryFrom(c, env, k, previous))
    ensures over.Some? ==> total == (over.value, trace)
    ensures over.None? ==> Continues(total, trace, SendFrom(c, env, k, bytes))
  {
    hide SendFrom;
    var a := env[k - 1];
    bytes, trace := previous, before;
    if c.hasStatuses {
      if a.status.Raised? {
        ContinuesEnds(total, trace, Raised(a.status.reason));
        return Some(Raised(a.status.reason)), bytes, trace;
      }
      var found := Found(a.status.value);
      trace := trace + [Rechecked(previous, found)];
      if found {
        var landed := LandResult(true, "landed", Some(LocalSignature(previous)), a.status.value.slot);
        return Some(Reply(landed)), bytes, trace;
      }
      ContinuesAfter(total, before, Rechecked(previous, false), ResendFrom(c, env, k));
    }
    ghost var guarded := trace;
    assert Continues(total, guarded, ResendFrom(c, env, k));
    if a.rebuilt.Raised? {
      ContinuesEnds(total, trace, Raised(a.rebuilt.reason));
      return Some(Raised(a.rebuilt.reason)), bytes, trace;
    }
    bytes := a.rebuilt.value;
    if a.sim.Raised? {
      ContinuesEnds(total, trace, Raised(a.sim.reason));
      return Some(Raised(a.sim.reason)), bytes, trace;
    }
    trace := trace + [Simulated(bytes, a.sim.value.success)];
    if !a.sim.value.success {
      return Some(Reply(SimRevert(a.sim.value))), bytes, trace;
    }
    ContinuesAfter(total, guarded, Simulated(bytes, true), SendFrom(c, env, k, bytes));
    over := None;
  }

  /** The loop of `_land_with_retry_entry` and `_land_with_retry_exit`, with the trace it leaves. */
  method LandWithRetry(c: Config, env: seq<Attempt>, signed: string)
    returns (result: Answer<LandResult>, trace: seq<Event>)
    requires MAX_ATTEMPTS <= |env|
    ensures (result, trace) == Land(c, env, signed)
  {
    trace := [];
    var mode := SubmitMode(c);
    if mode == DryRun {
      return Reply(LandResult(false, "dry_run", None, 0)), [];
    }
    if mode == Devnet && !c.devnetAllowed {
      return Raised("unexpected_error"), [];
    }
    ghost var total := Land(c, env, signed);
    assert [] + total.1 == total.1;
    var current := signed;
    var lastReason := "unknown";
    var attempt := 1;
    while attempt <= MAX_ATTEMPTS
      invariant 1 <= attempt <= MAX_ATTEMPTS + 1
      invariant LoopState(c, env, total, trace, attempt, current, lastReason)
    {
      var a := env[attempt - 1];
      if attempt > 1 {
        var over;
        over, current, trace := Rebuild(c, env, attempt, current, total, trace);
        if over.Some? {
          return over.value, trace;
        }
      }
      ghost var next := SendFrom(c, env, attempt, current);
      ContinuesAfter(total, trace, Sent(current, a.lands), (next.0, next.1[1..]));
      trace := trace + [Sent(current, a.lands)];
      var sent := Send(mode, a);
      if sent.Raised? {
        ContinuesEnds(total, trace, sent);
        return sent, trace;
      }
      if sent.value.submitted {
        ContinuesEnds(total, trace, sent);
        return sent, trace;
      }
      lastReason := sent.value.reason;
      attempt := attempt + 1;
      if lastReason !in RETRY_REASONS {
        attempt := MAX_ATTEMPTS + 1;
        break;
      }
    }
    ContinuesEnds(total, trace, Reply(LandResult(false, lastReason, None, 0)));
    return Reply(LandResult(false, lastReason, None, 0)), trace;
  }
}
