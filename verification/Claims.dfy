/** Locks and intent dedup over whole runs of the store, against a clock that never goes back. */
module Claims {
  import opened Common
  import opened ControllerState
  import opened Controller

  /** A store operation with its clock readings. A claim reads `now` and then `check`; marking an
      intent reads `check` and then `now`. A release also stands for an FSM transition that releases. */
  datatype Op =
    | ClaimOp(mint: Mint, id: IntentId, ttl: int, now: int, check: int)
    | ReleaseOp(mint: Mint)
    | MarkOp(id: IntentId, ttl: int, check: int, now: int)

  datatype Table = Table(locks: map<Mint, Lock>, seen: map<IntentId, int>)

  /** The table after the operation, and what it returns (true for a release). */
  function Do(t: Table, op: Op): (Table, bool)
  {
    match op
    case ClaimOp(m, id, ttl, now, check) =>
      var lock := Claim(Lookup(t.locks, m), id, now, check, ttl);
      (if lock.Some? then t.(locks := t.locks[m := lock.value]) else t, lock.Some?)
    case ReleaseOp(m) => (t.(locks := t.locks - {m}), true)
    case MarkOp(id, ttl, check, now) =>
      var seen := MarkSeen(t.seen, id, check, now, ttl);
      (if seen.Some? then t.(seen := seen.value) else t, seen.Some?)
  }

  function After(t: Table, ops: seq<Op>): Table
  {
    if ops == [] then t else Do(After(t, ops[..|ops| - 1]), ops[|ops| - 1]).0
  }

  /** What operation k of a run from t returns. */
  function Returns(t: Table, ops: seq<Op>, k: nat): bool
    requires k < |ops|
  {
    Do(After(t, ops[..k]), ops[k]).1
  }

  // ---------- the clock ----------

  function First(op: Op): int
    requires !op.ReleaseOp?
  {
    if op.ClaimOp? then op.now else op.check
  }

  function Last(op: Op): int
    requires !op.ReleaseOp?
  {
    if op.ClaimOp? then op.check else op.now
  }

  /** Readings never decrease, within an operation and from one to the next. */
  predicate Clocked(ops: seq<Op>)
  {
    (forall i :: 0 <= i < |ops| && !ops[i].ReleaseOp? ==> First(ops[i]) <= Last(ops[i])) &&
    (forall i, j :: 0 <= i < j < |ops| && !ops[i].ReleaseOp? && !ops[j].ReleaseOp? ==> Last(ops[i]) <= First(ops[j]))
  }

  // ---------- claims ----------

  predicate Claims(op: Op, m: Mint)
  {
    op.ClaimOp? && op.mint == m
  }

  /** No release of m among operations i + 1 .. j - 1. */
  predicate Unreleased(ops: seq<Op>, m: Mint, i: nat, j: nat)
    requires j <= |ops|
  {
    forall k :: i < k < j ==> ops[k] != ReleaseOp(m)
  }

  lemma AfterStep(t: Table, ops: seq<Op>, k: nat)
    requires k < |ops|
    ensures After(t, ops[..k + 1]) == Do(After(t, ops[..k]), ops[k]).0
  {
    assert ops[..k + 1][..k] == ops[..k];
  }

  /** What one operation does to the lock of m. */
  lemma DoLock(t: Table, op: Op, m: Mint)
    ensures Lookup(Do(t, op).0.locks, m) ==
            if Claims(op, m) && Do(t, op).1 then Some(Lock(op.id, op.now + op.ttl * 1000))
            else if op == ReleaseOp(m) then None
            else Lookup(t.locks, m)
    ensures Claims(op, m) ==> (Do(t, op).1 <==> !(m in t.locks && op.check < t.locks[m].expiry))
  {
  }

  /** A successful claim holds its lock until released or until a claim reads a time past its expiry. */
  lemma {:induction false} ClaimHolds(t: Table, ops: seq<Op>, i: nat, j: nat)
    requires i < j <= |ops| && Clocked(ops) && ops[i].ClaimOp? && Returns(t, ops, i)
    requires Unreleased(ops, ops[i].mint, i, j)
    requires forall k :: i < k < j && Claims(ops[k], ops[i].mint) ==> ops[k].check < ops[i].now + ops[i].ttl * 1000
    ensures Lookup(After(t, ops[..j]).locks, ops[i].mint) == Some(Lock(ops[i].id, ops[i].now + ops[i].ttl * 1000))
    decreases j
  {
    hide After, Do;
    AfterStep(t, ops, j - 1);
    DoLock(After(t, ops[..j - 1]), ops[j - 1], ops[i].mint);
    if j - 1 > i {
      ClaimHolds(t, ops, i, j - 1);
      assert ops[j - 1] != ReleaseOp(ops[i].mint);
    }
  }

  /** Inside the window of a successful claim every claim of the mint fails, whoever makes it. */
  lemma ClaimExcludes(t: Table, ops: seq<Op>, i: nat, j: nat)
    requires i < j < |ops| && Clocked(ops) && ops[i].ClaimOp? && Returns(t, ops, i)
    requires Unreleased(ops, ops[i].mint, i, j) && Claims(ops[j], ops[i].mint)
    ensures ops[j].check < ops[i].now + ops[i].ttl * 1000 ==> !Returns(t, ops, j)
  {
    if ops[j].check < ops[i].now + ops[i].ttl * 1000 {
      forall k | i < k < j && Claims(ops[k], ops[i].mint)
        ensures ops[k].check < ops[i].now + ops[i].ttl * 1000
      {
        assert Last(ops[k]) <= First(ops[j]) && First(ops[j]) <= Last(ops[j]);
      }
      ClaimHolds(t, ops, i, j);
    }
  }

  /** The claim that holds the lock of m before operation j, if one does: it succeeded, was not
      released, is the latest such, and its expiry is the lock's. */
  predicate Holder(t: Table, ops: seq<Op>, m: Mint, i: nat, j: nat)
    requires i < j <= |ops|
  {
    Claims(ops[i], m) && Returns(t, ops, i) && Unreleased(ops, m, i, j) &&
    Lookup(After(t, ops[..j]).locks, m) == Some(Lock(ops[i].id, ops[i].now + ops[i].ttl * 1000))
  }

  lemma {:induction false} LockHasHolder(ops: seq<Op>, m: Mint, j: nat)
    requires j <= |ops| && m in After(Table(map[], map[]), ops[..j]).locks
    ensures exists i: nat :: i < j && Holder(Table(map[], map[]), ops, m, i, j)
    decreases j
  {
    hide Do, After;
    var t := Table(map[], map[]);
    AfterNone(t, ops);
    if j > 0 {
      var op := ops[j - 1];
      AfterStep(t, ops, j - 1);
      DoLock(After(t, ops[..j - 1]), op, m);
      if Claims(op, m) && Returns(t, ops, j - 1) {
        assert Holder(t, ops, m, j - 1, j);
      } else {
        LockHasHolder(ops, m, j - 1);
        var i: nat :| i < j - 1 && Holder(t, ops, m, i, j - 1);
        assert Holder(t, ops, m, i, j);
      }
    }
  }

  lemma AfterNone(t: Table, ops: seq<Op>)
    ensures After(t, ops[..0]) == t
  {
  }

  /** From an empty store a claim fails exactly when an earlier successful claim of the mint is
      unreleased and its window is still open. */
  lemma ClaimFailsExactly(ops: seq<Op>, j: nat)
    requires j < |ops| && Clocked(ops) && ops[j].ClaimOp?
    ensures !Returns(Table(map[], map[]), ops, j) <==>
            exists i: nat :: i < j && Claims(ops[i], ops[j].mint) && Returns(Table(map[], map[]), ops, i) &&
                             Unreleased(ops, ops[j].mint, i, j) && ops[j].check < ops[i].now + ops[i].ttl * 1000
  {
    var t := Table(map[], map[]);
    var m := ops[j].mint;
    if !Returns(t, ops, j) {
      LockHasHolder(ops, m, j);
      var i: nat :| i < j && Holder(t, ops, m, i, j);
    }
    if i: nat :| i < j && Claims(ops[i], m) && Returns(t, ops, i) && Unreleased(ops, m, i, j) &&
                 ops[j].check < ops[i].now + ops[i].ttl * 1000 {
      ClaimExcludes(t, ops, i, j);
    }
  }

  // ---------- intent dedup ----------

  predicate Marks(op: Op, id: IntentId)
  {
    op.MarkOp? && op.id == id
  }

  lemma {:induction false} MarkHolds(t: Table, ops: seq<Op>, i: nat, j: nat)
    requires i < j <= |ops| && Clocked(ops) && ops[i].MarkOp? && Returns(t, ops, i)
    requires forall k :: i < k < j && Marks(ops[k], ops[i].id) ==> ops[k].check < ops[i].now + ops[i].ttl * 1000
    ensures Lookup(After(t, ops[..j]).seen, ops[i].id) == Some(ops[i].now + ops[i].ttl * 1000)
    decreases j
  {
    AfterStep(t, ops, j - 1);
    if j - 1 > i {
      MarkHolds(t, ops, i, j - 1);
    }
  }

  /** `mark_intent_seen` returns true at most once per id in any window of its time to live: a second
      true needs a reading at or past the expiry set by the first. */
  lemma MarkedOnce(t: Table, ops: seq<Op>, i: nat, j: nat)
    requires i < j < |ops| && Clocked(ops) && ops[i].MarkOp? && Marks(ops[j], ops[i].id)
    requires Returns(t, ops, i) && Returns(t, ops, j)
    ensures ops[j].check >= ops[i].now + ops[i].ttl * 1000
  {
    if ops[j].check < ops[i].now + ops[i].ttl * 1000 {
      forall k | i < k < j && Marks(ops[k], ops[i].id)
        ensures ops[k].check < ops[i].now + ops[i].ttl * 1000
      {
        assert First(ops[k]) <= Last(ops[k]) && Last(ops[k]) <= First(ops[j]);
      }
      MarkHolds(t, ops, i, j);
    }
  }
}
