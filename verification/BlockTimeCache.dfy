/** Cached block-time resolution with bounded retries, by one loop or by concurrent workers. */
module BlockTimeCache {
  import opened Common
  import opened NumberTheory

  datatype BlockTime = BlockTime(slot: int, blockTimeMs: int)

  /** What one call of the inner resolver does: a throttle, an unavailable block time, or a value. */
  datatype Response = Throttled | Unavailable | Found(value: BlockTime)

  /** The inner resolver's answer to the n-th call for a signature. */
  type Oracle = (string, nat) -> Response

  /** Every answer that is not a throttle is the true one. */
  ghost predicate Honest(oracle: Oracle, truth: string -> Response)
  {
    forall s: string, n: nat :: oracle(s, n) == Throttled || oracle(s, n) == truth(s)
  }

  type Entries = map<string, BlockTime>

  /** No cached value differs from the true one. */
  ghost predicate TrueEntries(entries: Entries, truth: string -> Response)
  {
    forall s :: s in entries ==> truth(s) == Found(entries[s])
  }

  // ---------- specification ----------

  /** The outcome of calls n, n + 1, ... up to the retry limit. */
  function Answer(oracle: Oracle, s: string, n: nat, retries: nat): Option<BlockTime>
    decreases retries + 1 - n
  {
    if n > retries then None
    else
      match oracle(s, n)
      case Throttled => Answer(oracle, s, n + 1, retries)
      case Unavailable => None
      case Found(v) => Some(v)
  }

  /** How many inner calls that takes. */
  function Calls(oracle: Oracle, s: string, n: nat, retries: nat): (c: nat)
    ensures n <= c && (n <= retries ==> n < c <= retries + 1)
    decreases retries + 1 - n
  {
    if n > retries then n
    else if oracle(s, n) == Throttled then Calls(oracle, s, n + 1, retries) else n + 1
  }

  /** What a run resolves for one signature: the memo, or the backed-off answer. */
  function Resolved(oracle: Oracle, memo: Entries, s: string, retries: nat): Option<BlockTime>
  {
    if s in memo then Some(memo[s]) else Answer(oracle, s, 0, retries)
  }

  /** The map a run returns. */
  function ResolvedMap(oracle: Oracle, memo: Entries, work: set<string>, retries: nat): Entries
  {
    map s | s in work && Resolved(oracle, memo, s, retries).Some? :: Resolved(oracle, memo, s, retries).value
  }

  /** The answer is a true value, or nothing. */
  lemma {:induction false} AnswerIsTrue(oracle: Oracle, truth: string -> Response, s: string, n: nat, retries: nat)
    requires Honest(oracle, truth)
    ensures Answer(oracle, s, n, retries).Some? ==> truth(s) == Found(Answer(oracle, s, n, retries).value)
    decreases retries + 1 - n
  {
    if n <= retries {
      AnswerIsTrue(oracle, truth, s, n + 1, retries);
      assert oracle(s, n) == Throttled || oracle(s, n) == truth(s);
    }
  }

  /** The calls made: up to and including the first that is not throttled, or all that are allowed. */
  lemma {:induction false} CallsExactly(oracle: Oracle, s: string, n: nat, k: nat, retries: nat)
    requires n <= k <= retries && forall i :: n <= i < k ==> oracle(s, i) == Throttled
    ensures oracle(s, k) != Throttled || k == retries ==> Calls(oracle, s, n, retries) == k + 1
    ensures oracle(s, k) != Throttled ==>
              Answer(oracle, s, n, retries) == if oracle(s, k).Found? then Some(oracle(s, k).value) else None
    ensures oracle(s, k) == Throttled && k == retries ==> Answer(oracle, s, n, retries) == None
    decreases k - n
  {
    if n < k {
      CallsExactly(oracle, s, n + 1, k, retries);
    } else if oracle(s, k) == Throttled && k == retries {
      assert Calls(oracle, s, k + 1, retries) == k + 1 && Answer(oracle, s, k + 1, retries) == None;
    }
  }

  /** With a true memo and an honest resolver the map holds true values only. */
  lemma ResolvedIsTrue(oracle: Oracle, truth: string -> Response, memo: Entries, work: set<string>,
                       retries: nat, s: string)
    requires Honest(oracle, truth) && TrueEntries(memo, truth)
    ensures var r := ResolvedMap(oracle, memo, work, retries);
            s in r ==> s in work && truth(s) == Found(r[s])
  {
    AnswerIsTrue(oracle, truth, s, 0, retries);
  }

  /** If some call within the retry limit is not throttled, the true answer is found: fewer throttles
      than attempts cost nothing but time. */
  lemma {:induction false} ThrottlesDoNotMatter(oracle: Oracle, truth: string -> Response, s: string, n: nat, k: nat,
                                                retries: nat)
    requires Honest(oracle, truth) && n <= k <= retries && oracle(s, k) != Throttled
    ensures Answer(oracle, s, n, retries) == if truth(s).Found? then Some(truth(s).value) else None
    decreases k - n
  {
    assert oracle(s, n) == Throttled || oracle(s, n) == truth(s);
    assert oracle(s, k) == truth(s);
    if n < k {
      ThrottlesDoNotMatter(oracle, truth, s, n + 1, k, retries);
    }
  }

  // ---------- the cache ----------

  class Cache {
    var entries: Entries
    var dirty: bool
    /** What the file holds; a cache without a path never writes it. */
    var disk: Entries
    const persistent: bool

    ghost predicate Valid()
      reads this
    {
      persistent && !dirty ==> disk == entries
    }

    constructor (stored: Entries, onDisk: bool)
      ensures Valid() && entries == stored && persistent == onDisk && disk == stored
    {
      entries, disk, dirty, persistent := stored, stored, false, onDisk;
    }

    method Put(s: string, v: BlockTime)
      requires Valid()
      modifies this
      ensures Valid() && entries == old(entries)[s := v] && disk == old(disk)
    {
      if s !in entries || entries[s] != v {
        entries := entries[s := v];
        dirty := true;
      } else {
        assert entries == entries[s := v];
      }
    }

    method Flush()
      requires Valid()
      modifies this
      ensures Valid() && entries == old(entries) && (persistent ==> disk == entries) &&
              (!persistent ==> disk == old(disk))
    {
      if !persistent || !dirty {
        return;
      }
      disk := entries;
      dirty := false;
    }
  }

  /** `CachingBlockTimeResolver.resolve`: the n-th inner call happens only on a miss. */
  method ResolveCached(cache: Cache, oracle: Oracle, s: string, n: nat) returns (r: Response, called: bool)
    requires cache.Valid()
    modifies cache
    ensures cache.Valid() && cache.disk == old(cache.disk) && called == (s !in old(cache.entries))
    ensures r == if called then oracle(s, n) else Found(old(cache.entries)[s])
    ensures cache.entries == if called && r.Found? then old(cache.entries)[s := r.value] else old(cache.entries)
  {
    if s in cache.entries {
      return Found(cache.entries[s]), false;
    }
    r, called := oracle(s, n), true;
    if r.Found? {
      cache.Put(s, r.value);
    }
  }

  /** The delay before retry n + 1. */
  function Delay(base: real, most: real, n: nat): real
  {
    var delay := base * Pow(2, n) as real;
    if delay <= most then delay else most
  }

  /** The delays start at the base and double up to the cap. */
  lemma DelayDoubles(base: real, most: real, n: nat)
    requires base >= 0.0 && most >= 0.0
    ensures Delay(base, most, 0) == if base <= most then base else most
    ensures var next := 2.0 * Delay(base, most, n);
            Delay(base, most, n + 1) == if next <= most then next else most
  {
    var p := Pow(2, n) as real;
    assert Pow(2, n + 1) == 2 * Pow(2, n) && Pow(2, 0) == 1;
    assert base * (2.0 * p) == 2.0 * (base * p);
  }

  /** `_resolve_one_with_backoff` over the caching resolver: the value or a censored record, the exact
      number of inner calls, and the exact sleeps between them. */
  method ResolveWithBackoff(cache: Cache, oracle: Oracle, s: string, retries: nat, base: real, most: real)
    returns (r: Option<BlockTime>, calls: nat, sleeps: seq<real>)
    requires cache.Valid()
    modifies cache
    ensures cache.Valid() && cache.disk == old(cache.disk)
    ensures r == Resolved(oracle, old(cache.entries), s, retries)
    ensures calls == if s in old(cache.entries) then 0 else Calls(oracle, s, 0, retries)
    ensures cache.entries == if r.Some? then old(cache.entries)[s := r.value] else old(cache.entries)
    ensures |sleeps| == (if calls == 0 then 0 else calls - 1)
    ensures forall k :: 0 <= k < |sleeps| ==> sleeps[k] == Delay(base, most, k)
  {
    calls, sleeps := 0, [];
    var attempt := 0;
    while true
      invariant cache.Valid() && cache.disk == old(cache.disk) && cache.entries == old(cache.entries)
      invariant attempt <= retries && calls == attempt == |sleeps|
      invariant s in old(cache.entries) ==> attempt == 0
      invariant s !in old(cache.entries) ==>
                  Answer(oracle, s, attempt, retries) == Answer(oracle, s, 0, retries) &&
                  Calls(oracle, s, attempt, retries) == Calls(oracle, s, 0, retries)
      invariant forall k :: 0 <= k < |sleeps| ==> sleeps[k] == Delay(base, most, k)
      decreases retries - attempt
    {
      var answer, called := ResolveCached(cache, oracle, s, attempt);
      if called {
        calls := calls + 1;
      }
      match answer
      case Found(v) =>
        assert !called ==> cache.entries == cache.entries[s := v];
        return Some(v), calls, sleeps;
      case Unavailable => return None, calls, sleeps;
      case Throttled =>
        if attempt >= retries {
          return None, calls, sleeps;
        }
        sleeps := sleeps + [Delay(base, most, attempt)];
        attempt := attempt + 1;
    }
  }

  function Members(xs: seq<string>): set<string>
  {
    set k | 0 <= k < |xs| :: xs[k]
  }

  /** `resolve_block_times` as a sequential loop: duplicates are one lookup, the map holds exactly what
      resolves, and the cache gains exactly that. */
  method ResolveAll(cache: Cache, oracle: Oracle, signatures: seq<string>, retries: nat, base: real, most: real,
                    flush: bool)
    returns (resolved: Entries)
    requires cache.Valid()
    modifies cache
    ensures cache.Valid()
    ensures resolved == ResolvedMap(oracle, old(cache.entries), Members(signatures), retries)
    ensures cache.entries == old(cache.entries) + resolved
    ensures flush && cache.persistent ==> cache.disk == cache.entries
  {
    resolved := map[];
    ghost var memo := cache.entries;
    assert memo + resolved == memo;
    var done: set<string> := {};
    for k := 0 to |signatures|
      invariant cache.Valid() && done == Members(signatures[..k])
      invariant resolved == ResolvedMap(oracle, memo, done, retries) && cache.entries == memo + resolved
    {
      var s := signatures[k];
      MembersNext(signatures, k);
      ResolvedNext(oracle, memo, done, s, retries);
      if s !in done {
        MemoOf(oracle, memo, done, s, retries);
        var r, calls, sleeps := ResolveWithBackoff(cache, oracle, s, retries, base, most);
        if r.Some? {
          ghost var was := resolved;
          resolved := resolved[s := r.value];
          assert (memo + was)[s := r.value] == memo + resolved;
        }
      }
      done := done + {s};
    }
    assert signatures[..|signatures|] == signatures;
    if flush {
      cache.Flush();
    }
  }

  lemma MemberOf(xs: seq<string>, x: string)
    ensures x in Members(xs) <==> x in xs
  {
  }

  lemma MembersNext(xs: seq<string>, k: nat)
    requires k < |xs|
    ensures Members(xs[..k + 1]) == Members(xs[..k]) + {xs[k]}
  {
    assert xs[..k + 1] == xs[..k] + [xs[k]];
    forall x
      ensures x in Members(xs[..k + 1]) <==> x in Members(xs[..k]) + {xs[k]}
    {
      MemberOf(xs[..k], x);
      MemberOf(xs[..k + 1], x);
    }
  }

  lemma ResolvedNext(oracle: Oracle, memo: Entries, done: set<string>, s: string, retries: nat)
    ensures var r := Resolved(oracle, memo, s, retries);
            ResolvedMap(oracle, memo, done + {s}, retries) ==
            if r.Some? then ResolvedMap(oracle, memo, done, retries)[s := r.value]
            else ResolvedMap(oracle, memo, done, retries)
    ensures s in done ==> ResolvedMap(oracle, memo, done + {s}, retries) == ResolvedMap(oracle, memo, done, retries)
  {
    assert s in done ==> done + {s} == done;
  }

  lemma MemoOf(oracle: Oracle, memo: Entries, done: set<string>, s: string, retries: nat)
    requires s !in done
    ensures var now := memo + ResolvedMap(oracle, memo, done, retries);
            (s in now <==> s in memo) && Resolved(oracle, now, s, retries) == Resolved(oracle, memo, s, retries)
  {
  }
}
