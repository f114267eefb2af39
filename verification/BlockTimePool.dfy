/** The worker pool of `resolve_block_times`: one worker per distinct signature, interleaved at every
    cache read, inner call and cache write. */
module BlockTimePool {
  import opened Common
  import opened BlockTimeCache

  datatype Worker =
    | Ready(attempt: nat)
    | Calling(attempt: nat)
    | Putting(value: BlockTime)
    | Done(result: Option<BlockTime>)

  datatype Pool = Pool(entries: Entries, workers: map<string, Worker>, calls: map<string, nat>)

  function Start(memo: Entries, work: set<string>): Pool
  {
    Pool(memo, map s | s in work :: Ready(0), map s | s in work :: 0)
  }

  /** One step of the worker of s; a schedule may name a finished worker, which then does nothing. */
  function Advance(oracle: Oracle, retries: nat, p: Pool, s: string): Pool
  {
    if s !in p.workers || s !in p.calls then p
    else
      match p.workers[s]
      case Ready(a) =>
        p.(workers := p.workers[s := if s in p.entries then Done(Some(p.entries[s])) else Calling(a)])
      case Calling(a) =>
        var next :=
          match oracle(s, p.calls[s])
          case Throttled => if a >= retries then Done(None) else Ready(a + 1)
          case Unavailable => Done(None)
          case Found(v) => Putting(v);
        p.(workers := p.workers[s := next], calls := p.calls[s := p.calls[s] + 1])
      case Putting(v) =>
        p.(workers := p.workers[s := Done(Some(v))], entries := p.entries[s := v])
      case Done(_) => p
  }

  function Run(oracle: Oracle, retries: nat, p: Pool, schedule: seq<string>): Pool
  {
    if schedule == [] then p
    else Advance(oracle, retries, Run(oracle, retries, p, schedule[..|schedule| - 1]), schedule[|schedule| - 1])
  }

  predicate Finished(p: Pool)
  {
    forall s :: s in p.workers ==> p.workers[s].Done?
  }

  /** What the pool's results collect into. */
  function Results(p: Pool): Entries
  {
    map s | s in p.workers && p.workers[s].Done? && p.workers[s].result.Some? :: p.workers[s].result.value
  }

  // ---------- the invariant ----------

  /** Where the worker of s stands: what it has called, what it will answer, what it has cached. */
  ghost predicate WorkerInv(oracle: Oracle, memo: Entries, retries: nat, s: string, w: Worker,
                            entry: Option<BlockTime>, calls: nat)
  {
    if s in memo then
      calls == 0 && entry == Some(memo[s]) && (w == Ready(0) || w == Done(Some(memo[s])))
    else
      match w
      case Ready(a) => calls == a <= retries && entry == None && SameFrom(oracle, s, a, retries)
      case Calling(a) => calls == a <= retries && entry == None && SameFrom(oracle, s, a, retries)
      case Putting(v) =>
        entry == None && Answer(oracle, s, 0, retries) == Some(v) && calls == Calls(oracle, s, 0, retries)
      case Done(r) => entry == r == Answer(oracle, s, 0, retries) && calls == Calls(oracle, s, 0, retries)
  }

  /** Calls before n were throttled. */
  ghost predicate SameFrom(oracle: Oracle, s: string, n: nat, retries: nat)
  {
    Answer(oracle, s, n, retries) == Answer(oracle, s, 0, retries) &&
    Calls(oracle, s, n, retries) == Calls(oracle, s, 0, retries)
  }

  function Entry(entries: Entries, s: string): Option<BlockTime>
  {
    if s in entries then Some(entries[s]) else None
  }

  ghost predicate PoolInv(oracle: Oracle, memo: Entries, retries: nat, work: set<string>, p: Pool)
  {
    p.workers.Keys == work && p.calls.Keys == work &&
    (forall s :: s !in work ==> Entry(p.entries, s) == Entry(memo, s)) &&
    forall s :: s in work ==> WorkerInv(oracle, memo, retries, s, p.workers[s], Entry(p.entries, s), p.calls[s])
  }

  lemma AdvanceKeeps(oracle: Oracle, memo: Entries, retries: nat, work: set<string>, p: Pool, s: string)
    requires PoolInv(oracle, memo, retries, work, p)
    ensures PoolInv(oracle, memo, retries, work, Advance(oracle, retries, p, s))
  {
    var q := Advance(oracle, retries, p, s);
    if s in work {
      OwnStep(oracle, memo, retries, p, s);
      OthersUntouched(oracle, retries, p, s);
    }
  }

  lemma OwnStep(oracle: Oracle, memo: Entries, retries: nat, p: Pool, s: string)
    requires s in p.workers && s in p.calls
    requires WorkerInv(oracle, memo, retries, s, p.workers[s], Entry(p.entries, s), p.calls[s])
    ensures var q := Advance(oracle, retries, p, s);
            s in q.workers && s in q.calls &&
            WorkerInv(oracle, memo, retries, s, q.workers[s], Entry(q.entries, s), q.calls[s])
  {
    if s !in memo && p.workers[s].Calling? && p.workers[s].attempt == retries {
      assert Answer(oracle, s, retries + 1, retries) == None && Calls(oracle, s, retries + 1, retries) == retries + 1;
    }
  }

  lemma OthersUntouched(oracle: Oracle, retries: nat, p: Pool, s: string)
    requires s in p.workers && s in p.calls
    ensures var q := Advance(oracle, retries, p, s);
            q.workers.Keys == p.workers.Keys && q.calls.Keys == p.calls.Keys &&
            forall k :: k != s ==>
                          Entry(q.entries, k) == Entry(p.entries, k) &&
                          (k in p.workers ==> q.workers[k] == p.workers[k]) &&
                          (k in p.calls ==> q.calls[k] == p.calls[k])
  {
  }

  lemma {:induction false} RunKeeps(oracle: Oracle, memo: Entries, retries: nat, work: set<string>,
                                    schedule: seq<string>)
    ensures PoolInv(oracle, memo, retries, work, Run(oracle, retries, Start(memo, work), schedule))
  {
    hide Advance;
    if schedule != [] {
      var front := schedule[..|schedule| - 1];
      RunKeeps(oracle, memo, retries, work, front);
      AdvanceKeeps(oracle, memo, retries, work, Run(oracle, retries, Start(memo, work), front),
                   schedule[|schedule| - 1]);
    }
  }

  // ---------- every schedule ----------

  /** Whatever the interleaving, a finished pool returns the sequential loop's map and leaves the
      sequential loop's cache. */
  lemma ScheduleDoesNotMatter(oracle: Oracle, memo: Entries, retries: nat, work: set<string>, schedule: seq<string>)
    requires Finished(Run(oracle, retries, Start(memo, work), schedule))
    ensures var p := Run(oracle, retries, Start(memo, work), schedule);
            Results(p) == ResolvedMap(oracle, memo, work, retries) &&
            p.entries == memo + ResolvedMap(oracle, memo, work, retries)
  {
    hide Run;
    RunKeeps(oracle, memo, retries, work, schedule);
    var p := Run(oracle, retries, Start(memo, work), schedule);
    var expected := ResolvedMap(oracle, memo, work, retries);
    forall s
      ensures s in Results(p) <==> s in expected
      ensures s in expected ==> Results(p)[s] == expected[s]
      ensures Entry(p.entries, s) == Entry(memo + expected, s)
    {
      if s in work {
        assert WorkerInv(oracle, memo, retries, s, p.workers[s], Entry(p.entries, s), p.calls[s]);
      } else {
        assert Entry(p.entries, s) == Entry(memo, s);
      }
    }
    assert Results(p) == expected;
    SameEntries(p.entries, memo + expected);
  }

  /** Some call within the retry limit is not throttled. */
  ghost predicate AnswersInTime(oracle: Oracle, retries: nat, s: string)
  {
    exists k: nat :: k <= retries && oracle(s, k) != Throttled
  }

  /** Throttles may depend on the interleaving: two resolvers with the same true answers and different
      throttles, each answering in time, give the same map. So the pool under one, on any schedule, returns
      what the sequential loop under the other does. */
  lemma ThrottlesAndSchedulesDoNotMatter(oracle: Oracle, other: Oracle, truth: string -> Response, memo: Entries,
                                         retries: nat, work: set<string>, schedule: seq<string>)
    requires Honest(oracle, truth) && Honest(other, truth)
    requires forall s :: s in work && s !in memo ==> AnswersInTime(oracle, retries, s)
    requires forall s :: s in work && s !in memo ==> AnswersInTime(other, retries, s)
    requires Finished(Run(oracle, retries, Start(memo, work), schedule))
    ensures var p := Run(oracle, retries, Start(memo, work), schedule);
            Results(p) == ResolvedMap(other, memo, work, retries) &&
            p.entries == memo + ResolvedMap(other, memo, work, retries)
  {
    hide Run, Finished;
    ScheduleDoesNotMatter(oracle, memo, retries, work, schedule);
    forall s | s in work
      ensures Resolved(oracle, memo, s, retries) == Resolved(other, memo, s, retries)
    {
      if s !in memo {
        assert AnswersInTime(oracle, retries, s);
        var i: nat :| i <= retries && oracle(s, i) != Throttled;
        var j: nat :| j <= retries && other(s, j) != Throttled;
        ThrottlesDoNotMatter(oracle, truth, s, 0, i, retries);
        ThrottlesDoNotMatter(other, truth, s, 0, j, retries);
      }
    }
    assert ResolvedMap(oracle, memo, work, retries) == ResolvedMap(other, memo, work, retries);
  }

  lemma SameEntries(a: Entries, b: Entries)
    requires forall s :: Entry(a, s) == Entry(b, s)
    ensures a == b
  {
    forall s
      ensures s in a <==> s in b
      ensures s in a ==> a[s] == b[s]
    {
      assert Entry(a, s) == Entry(b, s);
    }
  }

  /** In every state of every schedule the cache holds only true values, a cached signature costs no
      inner call, and any other at most one more than the retries. */
  lemma EveryMoment(oracle: Oracle, truth: string -> Response, memo: Entries, retries: nat, work: set<string>,
                    schedule: seq<string>, s: string)
    requires Honest(oracle, truth) && TrueEntries(memo, truth)
    ensures var p := Run(oracle, retries, Start(memo, work), schedule);
            (s in p.entries ==> truth(s) == Found(p.entries[s])) &&
            (s in work ==> s in p.calls && p.calls[s] <= retries + 1 && (s in memo ==> p.calls[s] == 0))
  {
    hide Run;
    RunKeeps(oracle, memo, retries, work, schedule);
    AnswerIsTrue(oracle, truth, s, 0, retries);
    var p := Run(oracle, retries, Start(memo, work), schedule);
    if s in work {
      assert WorkerInv(oracle, memo, retries, s, p.workers[s], Entry(p.entries, s), p.calls[s]);
    } else {
      assert Entry(p.entries, s) == Entry(memo, s);
    }
  }

  /** A second run over the cache a finished run left makes no inner call for a resolved signature,
      under any resolver and any schedule, and returns the same value. */
  lemma WarmRunIsFree(first: Oracle, second: Oracle, memo: Entries, retries: nat, again: nat, work: set<string>,
                      schedule: seq<string>, later: seq<string>, s: string)
    requires Finished(Run(first, retries, Start(memo, work), schedule))
    requires s in Results(Run(first, retries, Start(memo, work), schedule))
    ensures var p := Run(first, retries, Start(memo, work), schedule);
            var q := Run(second, again, Start(p.entries, work), later);
            s in q.calls && q.calls[s] == 0 && (Finished(q) ==> s in Results(q) && Results(q)[s] == Results(p)[s])
  {
    hide Run;
    RunKeeps(first, memo, retries, work, schedule);
    ScheduleDoesNotMatter(first, memo, retries, work, schedule);
    var p := Run(first, retries, Start(memo, work), schedule);
    assert s in p.entries && p.entries[s] == Results(p)[s];
    RunKeeps(second, p.entries, again, work, later);
    var q := Run(second, again, Start(p.entries, work), later);
    assert WorkerInv(second, p.entries, again, s, q.workers[s], Entry(q.entries, s), q.calls[s]);
  }

  // ---------- progress ----------

  function Rank(w: Worker, retries: nat): int
  {
    match w
    case Ready(a) => 2 * (retries - a) + 3
    case Calling(a) => 2 * (retries - a) + 2
    case Putting(_) => 1
    case Done(_) => 0
  }

  function Turns(schedule: seq<string>, s: string): nat
  {
    if schedule == [] then 0
    else Turns(schedule[..|schedule| - 1], s) + (if schedule[|schedule| - 1] == s then 1 else 0)
  }

  /** A worker given 2 * retries + 3 turns is done, whatever happens in between. */
  lemma {:induction false} TurnsFinish(oracle: Oracle, memo: Entries, retries: nat, work: set<string>,
                                       schedule: seq<string>, s: string)
    requires s in work
    ensures var p := Run(oracle, retries, Start(memo, work), schedule);
            s in p.workers &&
            (p.workers[s].Done? || Rank(p.workers[s], retries) + Turns(schedule, s) <= 2 * retries + 3) &&
            (Turns(schedule, s) >= 2 * retries + 3 ==> p.workers[s].Done?)
  {
    if schedule != [] {
      var front, k := schedule[..|schedule| - 1], schedule[|schedule| - 1];
      TurnsFinish(oracle, memo, retries, work, front, s);
      RunKeeps(oracle, memo, retries, work, front);
      RunKeeps(oracle, memo, retries, work, schedule);
      var p := Run(oracle, retries, Start(memo, work), front);
      assert WorkerInv(oracle, memo, retries, s, p.workers[s], Entry(p.entries, s), p.calls[s]);
      if k != s && k in work {
        OthersUntouched(oracle, retries, p, k);
      }
      RankPositive(oracle, memo, retries, work, schedule, s);
    }
  }

  lemma RankPositive(oracle: Oracle, memo: Entries, retries: nat, work: set<string>, schedule: seq<string>, s: string)
    requires s in work
    ensures var p := Run(oracle, retries, Start(memo, work), schedule);
            s in p.workers && (p.workers[s].Done? || Rank(p.workers[s], retries) > 0)
  {
    RunKeeps(oracle, memo, retries, work, schedule);
    var p := Run(oracle, retries, Start(memo, work), schedule);
    assert WorkerInv(oracle, memo, retries, s, p.workers[s], Entry(p.entries, s), p.calls[s]);
  }
}
