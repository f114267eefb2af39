/** The tighten-only risk configuration endpoint. A configuration is what a request body carries: a
    field may be missing. Decimal texts are taken as the numbers they parse to. */
module RiskConfig {
  import opened Common

  datatype Field =
    | PerTradeCap | MaxAggregate | MaxSlippage | JitoTipCap | KellyCap | DailyLossLimit | SnipeThreshold | Haircut

  type Config = map<Field, real>

  /** The fields the endpoint compares, in the order it does. */
  const CHECKED: seq<Field> := [PerTradeCap, MaxAggregate, MaxSlippage, JitoTipCap, KellyCap, DailyLossLimit,
                                SnipeThreshold]

  /** Whether b is a looser value of the field than a: lowering the snipe threshold, raising any other. */
  predicate Wider(f: Field, a: real, b: real)
  {
    if f == SnipeThreshold then b < a else b > a
  }

  predicate Widens(current: Config, proposed: Config, f: Field)
  {
    f in current && f in proposed && Wider(f, current[f], proposed[f])
  }

  function Violations(current: Config, proposed: Config, fields: seq<Field>): seq<Field>
  {
    if fields == [] then []
    else
      var f := fields[|fields| - 1];
      Violations(current, proposed, fields[..|fields| - 1]) + (if Widens(current, proposed, f) then [f] else [])
  }

  lemma {:induction false} ViolationsExact(current: Config, proposed: Config, fields: seq<Field>, f: Field)
    ensures f in Violations(current, proposed, fields) <==> f in fields && Widens(current, proposed, f)
  {
    if fields != [] {
      ViolationsExact(current, proposed, fields[..|fields| - 1], f);
      assert fields == fields[..|fields| - 1] + [fields[|fields| - 1]];
    }
  }

  /** `_validate_risk_config_tighten_only`. */
  method Validate(current: Config, proposed: Config) returns (violations: seq<Field>)
    ensures violations == Violations(current, proposed, CHECKED)
    ensures forall f :: f in violations <==> f in CHECKED && Widens(current, proposed, f)
  {
    violations := [];
    for k := 0 to |CHECKED|
      invariant violations == Violations(current, proposed, CHECKED[..k])
    {
      assert CHECKED[..k + 1][..k] == CHECKED[..k];
      var f := CHECKED[k];
      if f in current && f in proposed {
        if f == SnipeThreshold {
          if proposed[f] < current[f] {
            violations := violations + [f];
          }
        } else if proposed[f] > current[f] {
          violations := violations + [f];
        }
      }
    }
    assert CHECKED[..|CHECKED|] == CHECKED;
    forall f
      ensures f in violations <==> f in CHECKED && Widens(current, proposed, f)
    {
      ViolationsExact(current, proposed, CHECKED, f);
    }
  }

  /** Every field but the haircut is compared. */
  lemma CheckedExactly(f: Field)
    ensures f in CHECKED <==> f != Haircut
  {
    assert CHECKED[0] == PerTradeCap && CHECKED[1] == MaxAggregate;
    assert CHECKED[2] == MaxSlippage && CHECKED[3] == JitoTipCap;
    assert CHECKED[4] == KellyCap && CHECKED[5] == DailyLossLimit && CHECKED[6] == SnipeThreshold;
  }

  /** The hard limits `RiskConfig` enforces on what a body carries; a missing field takes its default. */
  predicate WithinLimits(c: Config)
  {
    (PerTradeCap in c ==> c[PerTradeCap] <= 100000000.0) &&
    (MaxAggregate in c ==> c[MaxAggregate] <= 500000000.0) &&
    (DailyLossLimit in c ==> c[DailyLossLimit] <= 3.0) &&
    (KellyCap in c ==> c[KellyCap] <= 0.25) &&
    (JitoTipCap in c ==> c[JitoTipCap] <= 0.3) &&
    (Haircut in c ==> c[Haircut] >= 150.0)
  }

  datatype Reply = Accepted(config: Config) | WouldWiden(violations: seq<Field>) | Invalid

  function Post(current: Config, body: Config): Reply
  {
    var violations := Violations(current, body, CHECKED);
    if violations != [] then WouldWiden(violations)
    else if !WithinLimits(body) then Invalid
    else Accepted(body)
  }

  /** The boxed configuration of the control plane. */
  class ControlPlane {
    var config: Config

    constructor (initial: Config)
      ensures config == initial
    {
      config := initial;
    }

    /** `post_risk_config`: an accepted body replaces the whole configuration. */
    method PostRiskConfig(body: Config) returns (r: Reply)
      modifies this
      ensures r == Post(old(config), body)
      ensures config == if r.Accepted? then body else old(config)
    {
      var violations := Validate(config, body);
      if violations != [] {
        return WouldWiden(violations);
      }
      if !WithinLimits(body) {
        return Invalid;
      }
      config := body;
      return Accepted(config);
    }
  }

  // ---------- runs of posts ----------

  /** The configuration after a run of posts; rejected ones change nothing. */
  function After(initial: Config, posts: seq<Config>): Config
  {
    if posts == [] then initial
    else
      var c := After(initial, posts[..|posts| - 1]);
      match Post(c, posts[|posts| - 1])
      case Accepted(d) => d
      case _ => c
  }

  predicate NotWider(f: Field, a: Config, b: Config)
  {
    f in a && f in b && !Wider(f, a[f], b[f])
  }

  lemma OnePost(current: Config, body: Config, f: Field)
    requires f in CHECKED && f in current && f in body
    ensures Post(current, body).Accepted? ==> NotWider(f, current, body)
  {
    ViolationsExact(current, body, CHECKED, f);
  }

  /** Every body the run accepts carries the field. */
  predicate AcceptedCarry(initial: Config, posts: seq<Config>, f: Field)
  {
    forall k :: 0 <= k < |posts| && Post(After(initial, posts[..k]), posts[k]).Accepted? ==> f in posts[k]
  }

  /** A limit carried by the initial configuration and by every accepted body of the run never widens. */
  lemma {:induction false} NeverWidens(initial: Config, posts: seq<Config>, f: Field)
    requires f in CHECKED && f in initial && AcceptedCarry(initial, posts, f)
    ensures NotWider(f, initial, After(initial, posts))
  {
    if posts != [] {
      var n := |posts| - 1;
      var front, body := posts[..n], posts[n];
      hide Post, Wider;
      CarryBefore(initial, posts, f, n);
      NeverWidens(initial, front, f);
      if Post(After(initial, front), body).Accepted? {
        OnePost(After(initial, front), body, f);
        NotWiderTrans(f, initial, After(initial, front), body);
      }
    }
  }

  lemma CarryBefore(initial: Config, posts: seq<Config>, f: Field, n: nat)
    requires n <= |posts| && AcceptedCarry(initial, posts, f)
    ensures AcceptedCarry(initial, posts[..n], f)
  {
    hide Post, After;
    assert forall k :: 0 <= k < n ==> posts[..n][..k] == posts[..k];
  }

  lemma NotWiderTrans(f: Field, a: Config, b: Config, c: Config)
    requires NotWider(f, a, b) && NotWider(f, b, c)
    ensures NotWider(f, a, c)
  {
  }

  /** A limit is in force and not wider than at the start at every moment of a run, exactly when every
      accepted body carries it. */
  lemma NeverWidensExactly(initial: Config, posts: seq<Config>, f: Field)
    requires f in CHECKED && f in initial
    ensures (forall j :: 0 <= j <= |posts| ==> NotWider(f, initial, After(initial, posts[..j]))) <==>
            AcceptedCarry(initial, posts, f)
  {
    if AcceptedCarry(initial, posts, f) {
      forall j | 0 <= j <= |posts|
        ensures NotWider(f, initial, After(initial, posts[..j]))
      {
        CarryBefore(initial, posts, f, j);
        NeverWidens(initial, posts[..j], f);
      }
    } else {
      var k :| 0 <= k < |posts| && Post(After(initial, posts[..k]), posts[k]).Accepted? && f !in posts[k];
      assert posts[..k + 1][..k] == posts[..k];
      assert After(initial, posts[..k + 1]) == posts[k];
    }
  }

  /** No single accepted post can set the field wider than `ref`. */
  ghost predicate Bounded(c: Config, f: Field, ref: real)
  {
    forall body :: Post(c, body).Accepted? && f in body ==> !Wider(f, ref, body[f])
  }

  /** A bound on the field is guarded against the next post exactly when the configuration carries the
      field and is itself within the bound; unless the hard limits alone already guard it. */
  lemma BoundedExactly(c: Config, f: Field, ref: real, v: real)
    requires f in CHECKED && WithinLimits(c) && Wider(f, ref, v) && WithinLimits(map[f := v])
    ensures Bounded(c, f, ref) <==> f in c && !Wider(f, ref, c[f])
  {
    if f !in c {
      NothingShared(c, map[f := v]);
      assert Post(c, map[f := v]).Accepted?;
    } else {
      SamePostAccepted(c);
      forall body | Post(c, body).Accepted? && f in body
        ensures !Wider(f, c[f], body[f])
      {
        OnePost(c, body, f);
      }
    }
  }

  /** Posting the current configuration again is accepted. */
  lemma SamePostAccepted(c: Config)
    requires WithinLimits(c)
    ensures Post(c, c) == Accepted(c)
  {
    var vs := Violations(c, c, CHECKED);
    if vs != [] {
      ViolationsExact(c, c, CHECKED, vs[0]);
    }
  }

  /** So along a run whose accepted bodies are complete no limit widens between any two moments. */
  lemma CompleteBodiesNeverWiden(initial: Config, posts: seq<Config>, i: nat, j: nat)
    requires i <= j <= |posts| && (forall f :: f in CHECKED ==> f in initial)
    requires forall f :: f in CHECKED ==> AcceptedCarry(initial, posts, f)
    ensures forall f :: f in CHECKED ==> NotWider(f, After(initial, posts[..i]), After(initial, posts[..j]))
  {
    hide Post, After, AcceptedCarry, Wider;
    forall f | f in CHECKED
      ensures NotWider(f, After(initial, posts[..i]), After(initial, posts[..j]))
    {
      NeverWidensExactly(initial, posts, f);
      var c := After(initial, posts[..i]);
      CarryFrom(initial, posts, f, i, j);
      NeverWidens(c, posts[i..j], f);
      AfterAppend(initial, posts[..i], posts[i..j]);
      assert posts[..i] + posts[i..j] == posts[..j];
    }
  }

  lemma CarryFrom(initial: Config, posts: seq<Config>, f: Field, i: nat, j: nat)
    requires i <= j <= |posts| && AcceptedCarry(initial, posts, f)
    ensures AcceptedCarry(After(initial, posts[..i]), posts[i..j], f)
  {
    forall k | 0 <= k < j - i && Post(After(After(initial, posts[..i]), posts[i..j][..k]), posts[i..j][k]).Accepted?
      ensures f in posts[i..j][k]
    {
      assert posts[i..j][..k] == posts[i..i + k] && posts[..i] + posts[i..i + k] == posts[..i + k];
      AfterAppend(initial, posts[..i], posts[i..i + k]);
      assert posts[i..j][k] == posts[i + k];
    }
  }

  /** What not widening means, field by field: the caps, the slippage, the tip, the Kelly fraction and the loss
      limit have not risen, and the snipe threshold has not fallen. */
  lemma NothingLoosened(initial: Config, posts: seq<Config>)
    requires forall f :: f != Haircut ==> f in initial && AcceptedCarry(initial, posts, f)
    ensures var c := After(initial, posts);
            (forall f :: f != Haircut ==> f in c) &&
            c[PerTradeCap] <= initial[PerTradeCap] && c[MaxAggregate] <= initial[MaxAggregate] &&
            c[MaxSlippage] <= initial[MaxSlippage] && c[JitoTipCap] <= initial[JitoTipCap] &&
            c[KellyCap] <= initial[KellyCap] && c[DailyLossLimit] <= initial[DailyLossLimit] &&
            c[SnipeThreshold] >= initial[SnipeThreshold]
  {
    hide Post, After, AcceptedCarry, CHECKED;
    forall f | f != Haircut
      ensures NotWider(f, initial, After(initial, posts))
    {
      CheckedExactly(f);
      NeverWidens(initial, posts, f);
    }
    var c := After(initial, posts);
    assert forall f :: f != Haircut ==> NotWider(f, initial, c);
    assert NotWider(PerTradeCap, initial, c) && NotWider(MaxAggregate, initial, c) && NotWider(MaxSlippage, initial, c);
    assert NotWider(JitoTipCap, initial, c) && NotWider(KellyCap, initial, c) && NotWider(DailyLossLimit, initial, c);
    assert NotWider(SnipeThreshold, initial, c);
    forall f | f != Haircut
      ensures f in c
    {
      assert NotWider(f, initial, c);
    }
  }

  lemma {:induction false} AfterAppend(initial: Config, a: seq<Config>, b: seq<Config>)
    ensures After(initial, a + b) == After(After(initial, a), b)
    decreases |b|
  {
    if b == [] {
      assert a + b == a;
    } else {
      var front := b[..|b| - 1];
      AfterAppend(initial, a, front);
      assert (a + b)[..|a + b| - 1] == a + front;
    }
  }

  /** Every body is compared only with the fields it shares with the current configuration, so one
      that drops a field forgets its limit: from every configuration, two posts bring any field to any
      value within the hard limits, wider or not. */
  lemma PartialBodiesWiden(initial: Config, f: Field, v: real)
    requires f in CHECKED && WithinLimits(map[f := v])
    ensures After(initial, [map[], map[f := v]]) == map[f := v]
  {
    var empty: Config := map[];
    var body := map[f := v];
    NothingShared(initial, empty);
    NothingShared(empty, body);
    var posts := [empty, body];
    assert posts[..1] == [empty] && [empty][..0] == [];
    assert After(initial, [empty]) == empty;
  }

  lemma NothingShared(current: Config, body: Config)
    requires current.Keys !! body.Keys
    ensures Violations(current, body, CHECKED) == []
  {
    var vs := Violations(current, body, CHECKED);
    if vs != [] {
      ViolationsExact(current, body, CHECKED, vs[0]);
    }
  }

  /** Every configuration reached by posts from one within the hard limits stays within them. */
  lemma {:induction false} LimitsHold(initial: Config, posts: seq<Config>)
    requires WithinLimits(initial)
    ensures WithinLimits(After(initial, posts))
    ensures var c := After(initial, posts);
            (PerTradeCap in c ==> c[PerTradeCap] <= 100000000.0) &&
            (MaxAggregate in c ==> c[MaxAggregate] <= 500000000.0) &&
            (DailyLossLimit in c ==> c[DailyLossLimit] <= 3.0) && (KellyCap in c ==> c[KellyCap] <= 0.25) &&
            (JitoTipCap in c ==> c[JitoTipCap] <= 0.3) && (Haircut in c ==> c[Haircut] >= 150.0)
  {
    if posts != [] {
      LimitsHold(initial, posts[..|posts| - 1]);
    }
  }
}
