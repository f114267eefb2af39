/** Whole runs of `execute` and `exit` calls on one venue: the set of submitted intent ids, the one
    confirmed fill per id, and when one landing per id follows. */
module IntentRuns {
  import opened Common
  import opened LandRetry

  /** A call together with the configuration read while it runs. */
  datatype Request = Request(config: Config, call: Call)

  datatype Report = Report(intentId: string, fill: Fill, trace: seq<Event>)

  predicate ValidRequests(requests: seq<Request>)
  {
    forall k :: 0 <= k < |requests| ==> ValidCall(requests[k].call)
  }

  // ---------- specification ----------

  function Respond(submitted: set<string>, q: Request): Report
    requires ValidCall(q.call)
  {
    if q.call.intentId in submitted then Report(q.call.intentId, Fill(false, "idempotency_key_conflict"), [])
    else
      var r := Run(q.config, q.call);
      Report(q.call.intentId, r.0, r.1)
  }

  function Remember(submitted: set<string>, r: Report): set<string>
  {
    if r.fill.landed then submitted + {r.intentId} else submitted
  }

  function RunAll(submitted: set<string>, requests: seq<Request>): (rs: seq<Report>)
    requires ValidRequests(requests)
    ensures |rs| == |requests|
    decreases |requests|
  {
    if requests == [] then []
    else
      var r := Respond(submitted, requests[0]);
      [r] + RunAll(Remember(submitted, r), requests[1..])
  }

  /** `execute` and `exit` on a venue that holds `_submitted_intent_ids`. */
  class Venue {
    var submitted: set<string>

    constructor ()
      ensures submitted == {}
    {
      submitted := {};
    }

    method Submit(q: Request) returns (r: Report)
      requires ValidCall(q.call)
      modifies this
      ensures r == Respond(old(submitted), q) && submitted == Remember(old(submitted), r)
    {
      var id := q.call.intentId;
      if id in submitted {
        return Report(id, Fill(false, "idempotency_key_conflict"), []);
      }
      if q.call.quote.Raised? {
        return Report(id, Fill(false, q.call.quote.reason), []);
      }
      var prepared := Prepare(q.call.rounds, "");
      if prepared.0.Raised? {
        return Report(id, Fill(false, prepared.0.reason), prepared.1);
      }
      var land, trace := LandWithRetry(q.config, q.call.env, prepared.0.value);
      if land.Raised? {
        return Report(id, Fill(false, land.reason), prepared.1 + trace);
      }
      var fill := Reconcile(land.value);
      if fill.landed {
        submitted := submitted + {id};
      }
      return Report(id, fill, prepared.1 + trace);
    }

    method SubmitAll(requests: seq<Request>) returns (rs: seq<Report>)
      requires ValidRequests(requests)
      modifies this
      ensures rs == RunAll(old(submitted), requests)
    {
      rs := [];
      assert requests[0..] == requests;
      for k := 0 to |requests|
        invariant rs + RunAll(submitted, requests[k..]) == RunAll(old(submitted), requests)
      {
        ghost var rest := requests[k..];
        assert rest[0] == requests[k] && rest[1..] == requests[k + 1..];
        var r := Submit(requests[k]);
        rs := rs + [r];
        assert rs + RunAll(submitted, rest[1..]) == RunAll(old(submitted), requests);
      }
      assert requests[|requests|..] == [];
    }
  }

  // ---------- one confirmed fill per intent id ----------

  /** Once an id is remembered, every later call with it submits nothing and is refused. */
  lemma {:induction false} RememberedIsRefused(submitted: set<string>, requests: seq<Request>, j: nat)
    requires ValidRequests(requests) && j < |requests| && requests[j].call.intentId in submitted
    ensures RunAll(submitted, requests)[j] ==
            Report(requests[j].call.intentId, Fill(false, "idempotency_key_conflict"), [])
    decreases |requests|
  {
    if j > 0 {
      var r := Respond(submitted, requests[0]);
      RememberedIsRefused(Remember(submitted, r), requests[1..], j - 1);
    }
  }

  /** Over every run, an id yields at most one landed fill: after it, nothing is even sent. */
  lemma {:induction false} OneFillPerIntent(submitted: set<string>, requests: seq<Request>, i: nat, j: nat)
    requires ValidRequests(requests) && i < j < |requests|
    requires requests[i].call.intentId == requests[j].call.intentId
    requires RunAll(submitted, requests)[i].fill.landed
    ensures var later := RunAll(submitted, requests)[j];
            !later.fill.landed && later.fill.reason == "idempotency_key_conflict" && later.trace == []
    decreases |requests|
  {
    var r := Respond(submitted, requests[0]);
    if i == 0 {
      RememberedIsRefused(Remember(submitted, r), requests[1..], j - 1);
    } else {
      OneFillPerIntent(Remember(submitted, r), requests[1..], i - 1, j - 1);
    }
  }

  // ---------- landings per intent id ----------

  function LandingsOf(id: string, rs: seq<Report>): nat
  {
    if rs == [] then 0 else (if rs[0].intentId == id then Landings(rs[0].trace) else 0) + LandingsOf(id, rs[1..])
  }

  /** There is a status endpoint, and no re-check the call makes misses a landing. */
  predicate Accurate(q: Request)
    requires ValidCall(q.call)
  {
    q.config.hasStatuses && AccurateRechecks(q.config, q.call)
  }

  /** It also reports the landing of every attempt the call makes. */
  predicate Truthful(q: Request)
    requires ValidCall(q.call)
  {
    Accurate(q) && (Submits(q.config, q.call) ==> ReportedFrom(q.config, q.call.env, 1))
  }

  lemma {:induction false} LandingsOfRemembered(submitted: set<string>, requests: seq<Request>, id: string)
    requires ValidRequests(requests) && id in submitted
    ensures LandingsOf(id, RunAll(submitted, requests)) == 0
    decreases |requests|
  {
    if requests != [] {
      var r := Respond(submitted, requests[0]);
      var rest := RunAll(Remember(submitted, r), requests[1..]);
      LandingsOfRemembered(Remember(submitted, r), requests[1..], id);
      assert ([r] + rest)[1..] == rest;
      NoEvents(None);
    }
  }

  /** With truthful environments at most one transaction per intent id lands, over every run. */
  lemma {:induction false} OneLandingPerIntent(submitted: set<string>, requests: seq<Request>, id: string)
    requires ValidRequests(requests) && forall k :: 0 <= k < |requests| ==> Truthful(requests[k])
    ensures LandingsOf(id, RunAll(submitted, requests)) <= 1
    decreases |requests|
  {
    hide Run, Landings, Truthful;
    if requests != [] {
      var q := requests[0];
      var r := Respond(submitted, q);
      var rest := RunAll(Remember(submitted, r), requests[1..]);
      OneLandingPerIntent(Remember(submitted, r), requests[1..], id);
      assert ([r] + rest)[1..] == rest;
      TruthfulCall(q);
      NoEvents(None);
      if r.intentId == id && Landings(r.trace) > 0 {
        LandingsOfRemembered(Remember(submitted, r), requests[1..], id);
      }
    }
  }

  lemma TruthfulCall(q: Request)
    requires ValidCall(q.call) && Truthful(q)
    ensures Landings(Run(q.config, q.call).1) <= 1
    ensures Landings(Run(q.config, q.call).1) > 0 ==> Run(q.config, q.call).0.landed
  {
    AtMostOneLanding(q.config, q.call);
    LandingIsAFill(q.config, q.call);
  }

  /** A call that lands without a landed fill leaves its id submittable: the same request again lands
      once more for each of its landings. */
  lemma UnreportedLandingRepeats(q: Request)
    requires ValidCall(q.call)
    ensures LandingsOf(q.call.intentId, RunAll({}, [q, q])) ==
            (if Run(q.config, q.call).0.landed then 1 else 2) * Landings(Run(q.config, q.call).1)
  {
    hide Run, Landings;
    var r := Respond({}, q);
    var again := Respond(Remember({}, r), q);
    assert [q, q][1..] == [q] && [q][1..] == [];
    assert RunAll(Remember({}, r), [q]) == [again] + RunAll(Remember(Remember({}, r), again), []) == [again];
    assert RunAll({}, [q, q]) == [r] + RunAll(Remember({}, r), [q]) == [r, again];
    assert [r, again][1..] == [again] && [again][1..] == [];
    assert LandingsOf(q.call.intentId, [again]) == Landings(again.trace);
    NoEvents(None);
  }

  /** Repeating a request lands at most once exactly when the request lands at most once, and then only
      with a landed fill. */
  lemma RepeatedOnce(q: Request)
    requires ValidCall(q.call)
    ensures LandingsOf(q.call.intentId, RunAll({}, [q, q])) <= 1 <==>
            var r := Run(q.config, q.call);
            Landings(r.1) <= 1 && (Landings(r.1) > 0 ==> r.0.landed)
  {
    hide Run, Landings, RunAll, LandingsOf;
    UnreportedLandingRepeats(q);
  }

  /** With accurate re-checks that is exactly when the environment is truthful. */
  lemma TruthfulExactly(q: Request)
    requires ValidCall(q.call) && Accurate(q)
    ensures LandingsOf(q.call.intentId, RunAll({}, [q, q])) <= 1 <==> Truthful(q)
  {
    hide Run, Landings, RunAll, LandingsOf, Submits, ReportedFrom, AccurateRechecks;
    RepeatedOnce(q);
    AtMostOneLanding(q.config, q.call);
    LandingIsAFill(q.config, q.call);
  }

  /** The call whose attempts are all answered "node_lag", all but the last without landing; the last
      one lands, and nothing re-checks it. */
  function LastAttemptLands(): Request
  {
    var ok := Reply(Sim(true, ""));
    var lag := Reply(SendReply(false, None, "node_lag", 0));
    var quiet := Attempt(Reply(NoStatus), Reply("a"), ok, lag, Reply(Confirm(false, 0)), false);
    Request(Config("mainnet", true, true, true, true),
            Call("id", Reply(()), [Round(Reply("a"), ok)], [quiet, quiet, quiet.(lands := true)]))
  }

  /** The call whose first send lands and raises. */
  function FirstSendRaises(): Request
  {
    var ok := Reply(Sim(true, ""));
    var lost := Attempt(Reply(Status(true, false, 7)), Reply("a"), ok, Raised("timeout"), Reply(Confirm(false, 0)),
                        true);
    Request(Config("mainnet", true, true, true, true),
            Call("id", Reply(()), [Round(Reply("a"), ok)], [lost, lost, lost]))
  }

  /** Accurate re-checks alone are not enough across calls, whether the unreported landing is the last
      attempt's or one whose send raises. */
  lemma AccurateIsNotTruthful()
    ensures forall q :: q == LastAttemptLands() || q == FirstSendRaises() ==>
              ValidCall(q.call) && Accurate(q) && LandingsOf("id", RunAll({}, [q, q])) == 2
  {
    hide Run, Landings, RunAll, LandingsOf;
    var q := LastAttemptLands();
    OneRound("a");
    assert !ReportedFrom(q.config, q.call.env, 3);
    assert GoesOn(q.config, q.call.env, 2) && !ReportedFrom(q.config, q.call.env, 2);
    assert GoesOn(q.config, q.call.env, 1) && !ReportedFrom(q.config, q.call.env, 1);
    UnreportedTwice(q);
    UnreportedTwice(FirstSendRaises());
  }

  lemma UnreportedTwice(q: Request)
    requires ValidCall(q.call) && Accurate(q) && Submits(q.config, q.call) && !ReportedFrom(q.config, q.call.env, 1)
    ensures LandingsOf(q.call.intentId, RunAll({}, [q, q])) == 2
  {
    hide Run, Landings, RunAll, LandingsOf, Submits, ReportedFrom, AccurateRechecks;
    UnreportedLandingRepeats(q);
    AtMostOneLanding(q.config, q.call);
    LandingIsAFill(q.config, q.call);
  }
}
