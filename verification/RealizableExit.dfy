/** Realizable-exit arithmetic: what a position's spot proceeds are worth into the thinnest book it
    could have been sold into. Decimals are reals, so the 28-digit rounding of Decimal is not modelled. */
module RealizableExit {
  import opened Common
  import opened RealMath

  const LAMPORTS_PER_SOL: real := 1000000000.0
  const BPS: real := 10000.0

  datatype Mark = Mark(priceSol: Option<real>, priceUsd: Option<real>, liquidityUsd: Option<real>)

  datatype Params = Params(coeff: real, cap: real, floor: real, residualBps: real, solUsd: real)

  /** The structural checks on the frozen parameters. */
  predicate ValidParams(p: Params)
  {
    p.coeff >= 0.0 && 0.0 <= p.cap <= 1.0 && p.floor >= 0.0 && 0.0 <= p.residualBps <= BPS && p.solUsd > 0.0
  }

  datatype Adjustment = Adjustment(
    sellable: bool, solUsd: real, liquidity: Option<real>, notionalUsd: real, slip: real, multiplier: real,
      deduction: int)

  // ---------- the source's functions ----------

  function Impact(coeff: real, notionalUsd: real, liquidityUsd: real): (raw: real)
    requires liquidityUsd > 0.0
    ensures coeff >= 0.0 && notionalUsd >= 0.0 ==> raw >= 0.0
  {
    assert coeff >= 0.0 && notionalUsd >= 0.0 ==> coeff * notionalUsd >= 0.0;
    coeff * notionalUsd / liquidityUsd
  }

  function SlippageFraction(notionalUsd: real, liquidityUsd: real, p: Params): (slip: real)
    ensures ValidParams(p) ==> 0.0 <= slip <= p.cap
  {
    if liquidityUsd <= 0.0 then p.cap
    else if notionalUsd <= 0.0 then 0.0
    else
      var raw := Impact(p.coeff, notionalUsd, liquidityUsd);
      if raw < p.cap then raw else p.cap
  }

  function InsertReal(x: real, s: seq<real>): seq<real>
  {
    if s == [] || x <= s[0] then [x] + s else [s[0]] + InsertReal(x, s[1..])
  }

  function Sorted(s: seq<real>): seq<real>
  {
    if s == [] then [] else InsertReal(s[0], Sorted(s[1..]))
  }

  /** `_median`. */
  function Median(values: seq<real>): real
    requires values != []
  {
    SortedSorts(values);
    var s := Sorted(values);
    var mid := |s| / 2;
    if |s| % 2 == 1 then s[mid] else (s[mid - 1] + s[mid]) / 2.0
  }

  /** The values `f` finds on the marks, in order. */
  function Picked(marks: seq<Mark>, f: Mark -> Option<real>): seq<real>
  {
    if marks == [] then []
    else
      var v := f(marks[|marks| - 1]);
      Picked(marks[..|marks| - 1], f) + (if v.Some? then [v.value] else [])
  }

  function Ratio(m: Mark): Option<real>
  {
    if m.priceSol.Some? && m.priceSol.value > 0.0 && m.priceUsd.Some? && m.priceUsd.value > 0.0
    then Some(m.priceUsd.value / m.priceSol.value) else None
  }

  function Ratios(marks: seq<Mark>): seq<real>
  {
    Picked(marks, Ratio)
  }

  function SolUsd(marks: seq<Mark>, p: Params): real
  {
    if Ratios(marks) == [] then p.solUsd else Median(Ratios(marks))
  }

  /** `derive_sol_usd` with its loop. */
  method DeriveSolUsd(marks: seq<Mark>, p: Params) returns (rate: real)
    ensures rate == SolUsd(marks, p)
  {
    var ratios: seq<real> := [];
    for k := 0 to |marks|
      invariant ratios == Ratios(marks[..k])
    {
      assert marks[..k + 1][..k] == marks[..k];
      var m := marks[k];
      if m.priceSol.Some? && m.priceSol.value > 0.0 && m.priceUsd.Some? && m.priceUsd.value > 0.0 {
        ratios := ratios + [m.priceUsd.value / m.priceSol.value];
      }
    }
    assert marks[..|marks|] == marks;
    rate := if ratios == [] then p.solUsd else Median(ratios);
  }

  predicate Sellable(m: Mark, floor: real)
  {
    m.priceSol.Some? && m.priceSol.value > 0.0 && m.liquidityUsd.Some? && m.liquidityUsd.value >= floor
  }

  function SellableAt(floor: real): Mark -> Option<real>
  {
    (m: Mark) => if Sellable(m, floor) then m.liquidityUsd else None
  }

  function SellableLiquidity(marks: seq<Mark>, floor: real): seq<real>
  {
    Picked(marks, SellableAt(floor))
  }

  function Least(s: seq<real>): (r: real)
    requires s != []
    ensures r in s && forall k :: 0 <= k < |s| ==> r <= s[k]
  {
    if |s| == 1 then s[0]
    else
      var rest := Least(s[1..]);
      assert forall k :: 1 <= k < |s| ==> s[k] == s[1..][k - 1];
      if s[0] <= rest then s[0] else rest
  }

  function NotionalUsd(marks: seq<Mark>, notional: int, p: Params): real
  {
    notional as real / LAMPORTS_PER_SOL * SolUsd(marks, p)
  }

  /** The share of spot proceeds that can be realized. */
  function Multiplier(marks: seq<Mark>, notional: int, p: Params): real
  {
    var liqs := SellableLiquidity(marks, p.floor);
    if liqs == [] then p.residualBps / BPS
    else 1.0 - SlippageFraction(NotionalUsd(marks, notional, p), Least(liqs), p)
  }

  /** The deduction before its safety clamp. */
  function RawDeduction(proceeds: int, multiplier: real): int
  {
    proceeds - Truncate(proceeds as real * multiplier)
  }

  /** `compute_realizable_adjustment`. */
  function Adjust(marks: seq<Mark>, notional: int, proceeds: int, p: Params): Adjustment
  {
    var liqs := SellableLiquidity(marks, p.floor);
    var multiplier := Multiplier(marks, notional, p);
    var raw := RawDeduction(proceeds, multiplier);
    Adjustment(liqs != [], SolUsd(marks, p), if liqs == [] then None else Some(Least(liqs)),
               NotionalUsd(marks, notional, p), 1.0 - multiplier, multiplier, if raw < 0 then 0 else raw)
  }

  /** `realizable_gross_pnl` for the realizable model. */
  function GrossPnl(spotGross: int, proceeds: int, marks: seq<Mark>, notional: int, p: Params): int
  {
    var gross := spotGross - Adjust(marks, notional, proceeds, p).deduction;
    if gross > spotGross then spotGross else gross
  }

  /** `realizable_gross_pnl` with its model switch. */
  function GrossPnlBy(model: string, spotGross: int, proceeds: int, marks: seq<Mark>, notional: int,
                      p: Params): Result<int, string>
  {
    if model == "spot" then Ok(spotGross)
    else if model != "realizable" then Err("unknown exit_model")
    else Ok(GrossPnl(spotGross, proceeds, marks, notional, p))
  }

  // ---------- what the adjustment is, spelled out ----------

  lemma {:induction false} PickedHas(marks: seq<Mark>, f: Mark -> Option<real>, x: real)
    ensures x in Picked(marks, f) <==> exists i :: 0 <= i < |marks| && f(marks[i]) == Some(x)
  {
    if marks != [] {
      var n := |marks| - 1;
      var front := marks[..n];
      PickedHas(front, f, x);
      assert forall i :: 0 <= i < n ==> front[i] == marks[i];
      if f(marks[n]) == Some(x) {
        assert 0 <= n < |marks| && f(marks[n]) == Some(x);
      }
    }
  }

  /** A mark that could have been sold into: priced above zero, with liquidity at or above the floor. */
  predicate CanSell(m: Mark, floor: real)
  {
    m.priceSol.Some? && m.priceSol.value > 0.0 && m.liquidityUsd.Some? && m.liquidityUsd.value >= floor
  }

  lemma SellableExactly(marks: seq<Mark>, floor: real)
    ensures SellableLiquidity(marks, floor) != [] <==> exists i :: 0 <= i < |marks| && CanSell(marks[i], floor)
  {
    hide Picked;
    var liqs := SellableLiquidity(marks, floor);
    if liqs != [] {
      PickedHas(marks, SellableAt(floor), liqs[0]);
    }
    if i :| 0 <= i < |marks| && CanSell(marks[i], floor) {
      PickedHas(marks, SellableAt(floor), marks[i].liquidityUsd.value);
    }
  }

  /** Never sellable: only the residual of the proceeds is kept. */
  lemma UnsellableKeepsResidual(marks: seq<Mark>, notional: int, proceeds: int, p: Params)
    requires forall i :: 0 <= i < |marks| ==> !CanSell(marks[i], p.floor)
    ensures var a := Adjust(marks, notional, proceeds, p);
            !a.sellable && a.liquidity.None? && a.multiplier * 10000.0 == p.residualBps && a.slip == 1.0 - a.multiplier
  {
    hide SellableLiquidity, SolUsd;
    SellableExactly(marks, p.floor);
  }

  /** Sellable: the slippage is taken at the thinnest book that could have been sold into, as the capped
      linear impact of the notional at the SOL/USD rate. */
  lemma SellableSlips(marks: seq<Mark>, notional: int, proceeds: int, p: Params)
    requires exists i :: 0 <= i < |marks| && CanSell(marks[i], p.floor)
    ensures var a := Adjust(marks, notional, proceeds, p);
            a.sellable && a.liquidity.Some? && a.multiplier == 1.0 - a.slip &&
            (exists i :: 0 <= i < |marks| && CanSell(marks[i], p.floor) && marks[i].liquidityUsd == a.liquidity) &&
            (forall i :: 0 <= i < |marks| && CanSell(marks[i], p.floor) ==>
               a.liquidity.value <= marks[i].liquidityUsd.value) &&
            a.notionalUsd * 1000000000.0 == notional as real * a.solUsd &&
            (if a.liquidity.value <= 0.0 then a.slip == p.cap
             else if a.notionalUsd <= 0.0 then a.slip == 0.0
             else
               var raw := p.coeff * a.notionalUsd / a.liquidity.value;
               a.slip == if raw < p.cap then raw else p.cap)
  {
    hide SellableLiquidity, SolUsd, SlippageFraction, RawDeduction, Least;
    SellableExactly(marks, p.floor);
    ThinnestSellable(marks, p.floor);
    NotionalScale(notional as real, SolUsd(marks, p));
    SlipIs(NotionalUsd(marks, notional, p), Least(SellableLiquidity(marks, p.floor)), p);
  }

  lemma ThinnestSellable(marks: seq<Mark>, floor: real)
    requires SellableLiquidity(marks, floor) != []
    ensures var least := Least(SellableLiquidity(marks, floor));
            (exists i :: 0 <= i < |marks| && CanSell(marks[i], floor) && marks[i].liquidityUsd == Some(least)) &&
            (forall i :: 0 <= i < |marks| && CanSell(marks[i], floor) ==> least <= marks[i].liquidityUsd.value)
  {
    hide Picked;
    var liqs := SellableLiquidity(marks, floor);
    var least := Least(liqs);
    PickedHas(marks, SellableAt(floor), least);
    forall i | 0 <= i < |marks| && CanSell(marks[i], floor)
      ensures least <= marks[i].liquidityUsd.value
    {
      PickedHas(marks, SellableAt(floor), marks[i].liquidityUsd.value);
    }
  }

  lemma SlipIs(n: real, l: real, p: Params)
    ensures SlippageFraction(n, l, p) ==
            if l <= 0.0 then p.cap
            else if n <= 0.0 then 0.0
            else if p.coeff * n / l < p.cap then p.coeff * n / l else p.cap
  {
  }

  lemma NotionalScale(n: real, rate: real)
    ensures n / LAMPORTS_PER_SOL * rate * 1000000000.0 == n * rate
  {
    assert n / LAMPORTS_PER_SOL * LAMPORTS_PER_SOL == n;
  }

  // ---------- conservative ----------

  lemma MultiplierInRange(marks: seq<Mark>, notional: int, p: Params)
    requires ValidParams(p)
    ensures 0.0 <= Multiplier(marks, notional, p) <= 1.0
    ensures SellableLiquidity(marks, p.floor) != [] ==> Multiplier(marks, notional, p) >= 1.0 - p.cap
  {
  }

  /** On nonnegative proceeds neither safety clamp ever acts; the realizable gross lies between the
      spot gross less all proceeds and the spot gross, and sellable proceeds keep at least the floor
      of the uncapped share. */
  lemma Conservative(spotGross: int, proceeds: nat, marks: seq<Mark>, notional: int, p: Params)
    requires ValidParams(p)
    ensures var raw := RawDeduction(proceeds, Multiplier(marks, notional, p));
            0 <= raw <= proceeds && Adjust(marks, notional, proceeds, p).deduction == raw &&
            GrossPnl(spotGross, proceeds, marks, notional, p) == spotGross - raw &&
            (var share := proceeds as real * Adjust(marks, notional, proceeds, p).multiplier;
             (proceeds - raw) as real <= share < (proceeds - raw) as real + 1.0) &&
            (SellableLiquidity(marks, p.floor) != [] ==> proceeds - raw >= (proceeds as real * (1.0 - p.cap)).Floor)
  {
    hide Multiplier, RawDeduction, SlippageFraction;
    MultiplierInRange(marks, notional, p);
    KeptShare(proceeds, Multiplier(marks, notional, p), 1.0 - p.cap);
  }

  /** The model switch: spot passes through, realizable never exceeds spot, anything else is an error. */
  lemma ModelSwitch(model: string, spotGross: int, proceeds: nat, marks: seq<Mark>, notional: int, p: Params)
    requires ValidParams(p)
    ensures var r := GrossPnlBy(model, spotGross, proceeds, marks, notional, p);
            (r.Ok? <==> model == "spot" || model == "realizable") && (r.Ok? ==> r.value <= spotGross) &&
            (model == "spot" ==> r == Ok(spotGross)) &&
            (model == "realizable" ==> r == Ok(spotGross - Adjust(marks, notional, proceeds, p).deduction))
  {
    hide Adjust;
    Conservative(spotGross, proceeds, marks, notional, p);
  }

  /** Keeping the share m of the proceeds deducts between nothing and everything. */
  lemma KeptShare(proceeds: nat, m: real, low: real)
    requires 0.0 <= m <= 1.0
    ensures 0 <= RawDeduction(proceeds, m) <= proceeds
    ensures (proceeds - RawDeduction(proceeds, m)) as real <= proceeds as real * m
    ensures proceeds as real * m < (proceeds - RawDeduction(proceeds, m)) as real + 1.0
    ensures low <= m ==> proceeds - RawDeduction(proceeds, m) >= (proceeds as real * low).Floor
  {
    var x := proceeds as real;
    var kept := x * m;
    ShareWithin(x, m);
    FloorsWithin(kept, proceeds);
    assert RawDeduction(proceeds, m) == proceeds - kept.Floor;
    if low <= m {
      Scaled(x, low, m);
      FloorMonotone(x * low, kept);
    }
  }

  lemma ShareWithin(x: real, m: real)
    requires x >= 0.0 && 0.0 <= m <= 1.0
    ensures 0.0 <= x * m <= x
  {
    Scaled(x, 0.0, m);
    Scaled(x, m, 1.0);
    assert x * 0.0 == 0.0;
    assert x * 1.0 == x;
  }

  lemma FloorsWithin(kept: real, n: nat)
    requires 0.0 <= kept <= n as real
    ensures 0 <= kept.Floor <= n && kept.Floor as real <= kept < kept.Floor as real + 1.0
  {
  }

  lemma FloorMonotone(a: real, b: real)
    requires a <= b
    ensures a.Floor <= b.Floor
  {
  }

  lemma Quotient(a: real, b: real, c: real)
    requires a <= b && c > 0.0
    ensures a / c <= b / c
  {
    assert b / c - a / c == (b - a) / c;
  }

  lemma SmallerQuotient(a: real, b: real, c: real)
    requires a >= 0.0 && 0.0 < b <= c
    ensures a / c <= a / b
  {
    var q := a / c;
    assert q * c == a;
    assert q >= 0.0;
    Scaled(q, b, c);
    assert q * b <= a;
    Quotient(q * b, a, b);
    assert q * b / b == q;
  }

  /** Slippage grows with the amount sold and shrinks with the depth of the book. */
  lemma SlippageMonotone(small: real, large: real, thin: real, deep: real, p: Params)
    requires ValidParams(p) && small <= large && thin <= deep
    ensures SlippageFraction(small, deep, p) <= SlippageFraction(large, thin, p)
  {
    hide Impact;
    if thin > 0.0 && small > 0.0 {
      RawMonotone(p.coeff, small, large, thin, deep);
    }
  }

  lemma RawMonotone(coeff: real, small: real, large: real, thin: real, deep: real)
    requires coeff >= 0.0 && 0.0 < small <= large && 0.0 < thin <= deep
    ensures Impact(coeff, small, deep) <= Impact(coeff, large, thin)
  {
    Scaled(coeff, small, large);
    ProductNonNegative(coeff, small);
    QuotientsOrdered(coeff * small, coeff * large, thin, deep);
  }

  lemma QuotientsOrdered(a: real, b: real, thin: real, deep: real)
    requires 0.0 <= a <= b && 0.0 < thin <= deep
    ensures a / deep <= b / thin
  {
    Quotient(a, b, deep);
    SmallerQuotient(b, thin, deep);
  }

  // ---------- order of the marks ----------

  predicate Ascending(s: seq<real>)
  {
    forall i, j :: 0 <= i < j < |s| ==> s[i] <= s[j]
  }

  lemma {:induction false} InsertSorts(x: real, s: seq<real>)
    requires Ascending(s)
    ensures Ascending(InsertReal(x, s)) && multiset(InsertReal(x, s)) == multiset(s) + multiset{x}
  {
    if s != [] && x > s[0] {
      var tail := s[1..];
      InsertSorts(x, tail);
      InsertBound(x, tail, s[0]);
      assert s == [s[0]] + tail;
      PrependAscending(s[0], InsertReal(x, tail));
    } else {
      PrependAscending(x, s);
    }
  }

  predicate AtLeast(s: seq<real>, b: real)
  {
    forall k :: 0 <= k < |s| ==> b <= s[k]
  }

  lemma PrependAscending(x: real, s: seq<real>)
    requires Ascending(s) && (s == [] || AtLeast(s, x) || x <= s[0])
    ensures Ascending([x] + s)
  {
    assert forall k :: 0 <= k < |s| ==> ([x] + s)[k + 1] == s[k];
    if s != [] {
      assert forall k :: 0 < k < |s| ==> s[0] <= s[k];
    }
  }

  lemma {:induction false} InsertBound(x: real, s: seq<real>, b: real)
    requires b <= x && AtLeast(s, b)
    ensures AtLeast(InsertReal(x, s), b)
  {
    if s != [] && x > s[0] {
      InsertBound(x, s[1..], b);
    }
  }

  lemma {:induction false} SortedSorts(s: seq<real>)
    ensures Ascending(Sorted(s)) && multiset(Sorted(s)) == multiset(s) && |Sorted(s)| == |s|
  {
    if s != [] {
      SortedSorts(s[1..]);
      InsertSorts(s[0], Sorted(s[1..]));
      assert s == [s[0]] + s[1..];
      assert |multiset(Sorted(s))| == |multiset(s)|;
    }
  }

  /** Ascending sequences of the same elements are equal. */
  lemma {:induction false} AscendingUnique(s: seq<real>, t: seq<real>)
    requires Ascending(s) && Ascending(t) && multiset(s) == multiset(t)
    ensures s == t
  {
    SameShape(s, t);
    if s != [] {
      SameTail(s, t);
      AscendingUnique(s[1..], t[1..]);
      assert s == [s[0]] + s[1..] && t == [t[0]] + t[1..];
    }
  }

  lemma SameShape(s: seq<real>, t: seq<real>)
    requires Ascending(s) && Ascending(t) && multiset(s) == multiset(t)
    ensures |s| == |t| && (s != [] ==> s[0] == t[0])
  {
    hide Ascending;
    assert |multiset(s)| == |multiset(t)|;
    if s != [] {
      HeadIsLeast(t, s[0]);
      HeadIsLeast(s, t[0]);
    }
  }

  lemma SameTail(s: seq<real>, t: seq<real>)
    requires multiset(s) == multiset(t) && s != [] && t != [] && s[0] == t[0]
    ensures multiset(s[1..]) == multiset(t[1..])
  {
    TailOf(s);
    TailOf(t);
  }

  lemma HeadIsLeast(s: seq<real>, x: real)
    requires Ascending(s) && s != []
    ensures x in multiset(s) ==> s[0] <= x
    ensures s[0] in multiset(s)
  {
    assert x in multiset(s) <==> x in s;
  }

  lemma TailOf(s: seq<real>)
    requires s != []
    ensures multiset(s[1..]) == multiset(s) - multiset{s[0]}
  {
    assert s == [s[0]] + s[1..];
  }

  lemma MedianPermutes(s: seq<real>, t: seq<real>)
    requires s != [] && t != [] && multiset(s) == multiset(t)
    ensures Median(s) == Median(t)
  {
    SortedSorts(s);
    SortedSorts(t);
    AscendingUnique(Sorted(s), Sorted(t));
  }

  /** The median in terms of any ascending arrangement: its middle element, or halfway between the two. */
  lemma MedianExactly(values: seq<real>, t: seq<real>)
    requires values != [] && Ascending(t) && multiset(t) == multiset(values)
    ensures |t| == |values|
    ensures |t| % 2 == 1 ==> Median(values) == t[|t| / 2]
    ensures |t| % 2 == 0 ==> 2.0 * Median(values) == t[|t| / 2 - 1] + t[|t| / 2]
  {
    SortedSorts(values);
    AscendingUnique(Sorted(values), t);
  }

  /** The rate is what the marks agree on: if every mark with both prices has the same USD per SOL, that; with
      no such mark, the fallback. */
  lemma RateAgreed(marks: seq<Mark>, p: Params, rate: real)
    requires forall i :: 0 <= i < |marks| && BothPriced(marks[i]) ==>
               marks[i].priceUsd.value == rate * marks[i].priceSol.value
    ensures SolUsd(marks, p) == if exists i :: 0 <= i < |marks| && BothPriced(marks[i]) then rate else p.solUsd
  {
    hide Picked, Median, Ratio;
    var rs := Ratios(marks);
    forall x | x in rs
      ensures x == rate
    {
      PickedHas(marks, Ratio, x);
      var i :| 0 <= i < |marks| && Ratio(marks[i]) == Some(x);
      RatioIs(marks[i], rate);
    }
    if i :| 0 <= i < |marks| && BothPriced(marks[i]) {
      RatioIs(marks[i], rate);
      PickedHas(marks, Ratio, rate);
    }
    if rs != [] {
      PickedHas(marks, Ratio, rs[0]);
      var i :| 0 <= i < |marks| && Ratio(marks[i]) == Some(rs[0]);
      RatioIs(marks[i], rate);
      AllEqual(rs, rate);
    }
  }

  predicate BothPriced(m: Mark)
  {
    m.priceSol.Some? && m.priceSol.value > 0.0 && m.priceUsd.Some? && m.priceUsd.value > 0.0
  }

  lemma RatioIs(m: Mark, rate: real)
    ensures Ratio(m).Some? <==> BothPriced(m)
    ensures BothPriced(m) && m.priceUsd.value == rate * m.priceSol.value ==> Ratio(m) == Some(rate)
  {
    if BothPriced(m) && m.priceUsd.value == rate * m.priceSol.value {
      QuotientIs(m.priceUsd.value, m.priceSol.value, rate);
    }
  }

  lemma AllEqual(s: seq<real>, x: real)
    requires s != [] && forall y :: y in s ==> y == x
    ensures Median(s) == x
  {
    assert forall i :: 0 <= i < |s| ==> s[i] in s;
    assert Ascending(s);
    MedianExactly(s, s);
    assert |s| % 2 == 0 ==> s[|s| / 2 - 1] in s && s[|s| / 2] in s;
  }

  lemma LeastPermutes(s: seq<real>, t: seq<real>)
    requires s != [] && t != [] && multiset(s) == multiset(t)
    ensures Least(s) == Least(t)
  {
    assert Least(s) in multiset(t) && Least(t) in multiset(s);
  }

  function Contribution(v: Option<real>): multiset<real>
  {
    if v.Some? then multiset{v.value} else multiset{}
  }

  lemma PickedLast(marks: seq<Mark>, m: Mark, f: Mark -> Option<real>)
    ensures multiset(Picked(marks + [m], f)) == multiset(Picked(marks, f)) + Contribution(f(m))
  {
    assert (marks + [m])[..|marks|] == marks;
  }

  /** Taking mark k out takes out its own contribution. */
  lemma {:induction false} TakeOut(marks: seq<Mark>, f: Mark -> Option<real>, k: nat)
    requires k < |marks|
    ensures multiset(Picked(marks, f)) == multiset(Picked(marks[..k] + marks[k + 1..], f)) + Contribution(f(marks[k]))
    decreases |marks|
  {
    hide Picked;
    var front, last := marks[..|marks| - 1], marks[|marks| - 1];
    assert marks == front + [last];
    PickedLast(front, last, f);
    if k == |marks| - 1 {
      assert marks[..k] + marks[k + 1..] == front;
    } else {
      TakeOut(front, f, k);
      PickedLast(front[..k] + front[k + 1..], last, f);
      assert marks[..k] + marks[k + 1..] == front[..k] + front[k + 1..] + [last];
    }
  }

  lemma {:induction false} PickedPermutes(xs: seq<Mark>, ys: seq<Mark>, f: Mark -> Option<real>)
    requires multiset(xs) == multiset(ys)
    ensures multiset(Picked(xs, f)) == multiset(Picked(ys, f))
    decreases |xs|
  {
    hide Picked;
    assert |multiset(xs)| == |multiset(ys)|;
    if xs == [] {
      assert ys == xs;
    } else {
      var front, last := xs[..|xs| - 1], xs[|xs| - 1];
      assert xs == front + [last];
      assert last in multiset(ys);
      var k :| 0 <= k < |ys| && ys[k] == last;
      var rest := ys[..k] + ys[k + 1..];
      assert ys == ys[..k] + [last] + ys[k + 1..];
      assert multiset(rest) == multiset(ys) - multiset{last} == multiset(front);
      PickedPermutes(front, rest, f);
      TakeOut(ys, f, k);
      PickedLast(front, last, f);
    }
  }

  lemma PicksPermute(xs: seq<Mark>, ys: seq<Mark>, floor: real)
    requires multiset(xs) == multiset(ys)
    ensures multiset(Ratios(xs)) == multiset(Ratios(ys))
    ensures multiset(SellableLiquidity(xs, floor)) == multiset(SellableLiquidity(ys, floor))
  {
    PickedPermutes(xs, ys, Ratio);
    PickedPermutes(xs, ys, SellableAt(floor));
  }

  /** The adjustment does not depend on the order of the marks. */
  lemma OrderIrrelevant(xs: seq<Mark>, ys: seq<Mark>, notional: int, proceeds: int, p: Params)
    requires multiset(xs) == multiset(ys)
    ensures Adjust(xs, notional, proceeds, p) == Adjust(ys, notional, proceeds, p)
  {
    hide Ratios, SellableLiquidity, Median, SlippageFraction, Truncate;
    PicksPermute(xs, ys, p.floor);
    var rx, ry := Ratios(xs), Ratios(ys);
    var lx, ly := SellableLiquidity(xs, p.floor), SellableLiquidity(ys, p.floor);
    assert |multiset(rx)| == |multiset(ry)| && |multiset(lx)| == |multiset(ly)|;
    if rx != [] {
      MedianPermutes(rx, ry);
    }
    if lx != [] {
      LeastPermutes(lx, ly);
    }
    SameInputs(xs, ys, notional, proceeds, p);
  }

  lemma SameInputs(xs: seq<Mark>, ys: seq<Mark>, notional: int, proceeds: int, p: Params)
    requires SolUsd(xs, p) == SolUsd(ys, p)
    requires var lx, ly := SellableLiquidity(xs, p.floor), SellableLiquidity(ys, p.floor);
             (lx == [] <==> ly == []) && (lx != [] ==> Least(lx) == Least(ly))
    ensures Adjust(xs, notional, proceeds, p) == Adjust(ys, notional, proceeds, p)
  {
    hide SolUsd, SellableLiquidity, SlippageFraction, RawDeduction;
    assert NotionalUsd(xs, notional, p) == NotionalUsd(ys, notional, p);
    assert Multiplier(xs, notional, p) == Multiplier(ys, notional, p);
  }

  // ---------- the bonding-curve proxy ----------

  /** `bonding_curve_liquidity_usd`. */
  function CurveLiquidity(vsol: Option<int>, p: Params): Option<real>
  {
    if vsol.None? || vsol.value <= 0 then None else Some(2.0 * (vsol.value as real / LAMPORTS_PER_SOL) * p.solUsd)
  }

  /** A mark of the bonding-curve corpus: no USD price, liquidity from the curve's reserve. */
  function CurveMark(price: Option<real>, vsol: Option<int>, p: Params): Mark
  {
    Mark(price, None, CurveLiquidity(vsol, p))
  }

  datatype Reading = Reading(price: Option<real>, vsol: Option<int>)

  function CurveMarks(readings: seq<Reading>, p: Params): seq<Mark>
  {
    if readings == [] then []
    else CurveMarks(readings[..|readings| - 1], p) + [CurveMark(readings[|readings| - 1].price,
                                                                readings[|readings| - 1].vsol, p)]
  }

  predicate Usable(r: Reading, p: Params)
  {
    Sellable(CurveMark(r.price, r.vsol, p), p.floor)
  }

  function Thinner(a: Option<int>, b: int): int
  {
    if a.None? || b < a.value then b else a.value
  }

  /** The smallest virtual reserve among the usable readings. */
  function ThinnestVsol(readings: seq<Reading>, p: Params): (v: Option<int>)
    ensures v.Some? ==> v.value > 0
  {
    if readings == [] then None
    else
      var v := ThinnestVsol(readings[..|readings| - 1], p);
      var r := readings[|readings| - 1];
      if Usable(r, p) then Some(Thinner(v, r.vsol.value)) else v
  }

  lemma CurveOrder(a: int, b: int, p: Params)
    requires 0 < a && 0 < b && p.solUsd > 0.0
    ensures CurveLiquidity(Some(a), p).Some? && CurveLiquidity(Some(b), p).Some?
    ensures a <= b <==> CurveLiquidity(Some(a), p).value <= CurveLiquidity(Some(b), p).value
    ensures CurveLiquidity(Some(a), p).value > 0.0
  {
    var x, y := a as real / LAMPORTS_PER_SOL, b as real / LAMPORTS_PER_SOL;
    assert 2.0 * y * p.solUsd - 2.0 * x * p.solUsd == (y - x) * (2.0 * p.solUsd);
    Signs(y - x, 2.0 * p.solUsd);
    Signs(x, 2.0 * p.solUsd);
    assert 2.0 * x * p.solUsd == x * (2.0 * p.solUsd);
  }

  /** The thinnest usable book is the one with the smallest reserve. */
  lemma {:induction false} ThinnestBook(readings: seq<Reading>, p: Params)
    requires ValidParams(p)
    ensures Ratios(CurveMarks(readings, p)) == []
    ensures ThinnestVsol(readings, p).Some? ==> CurveLiquidity(ThinnestVsol(readings, p), p).Some?
    ensures var liqs := SellableLiquidity(CurveMarks(readings, p), p.floor);
            var v := ThinnestVsol(readings, p);
            (liqs == [] <==> v.None?) && (liqs != [] ==> Least(liqs) == CurveLiquidity(v, p).value)
  {
    hide CurveLiquidity, Picked, Ratio, Least;
    if readings != [] {
      var front, r := readings[..|readings| - 1], readings[|readings| - 1];
      var marks := CurveMarks(front, p);
      var m := CurveMark(r.price, r.vsol, p);
      ThinnestBook(front, p);
      CurveShape(r, p);
      PickedAppend(marks, m, Ratio);
      PickedAppend(marks, m, SellableAt(p.floor));
      if Usable(r, p) {
        var v, liqs := ThinnestVsol(front, p), SellableLiquidity(marks, p.floor);
        var x := m.liquidityUsd.value;
        assert r.vsol == Some(r.vsol.value);
        LeastAppend(liqs, x);
        ThinnerBook(v, r.vsol.value, p);
        assert SellableLiquidity(CurveMarks(readings, p), p.floor) == liqs + [x];
        assert ThinnestVsol(readings, p) == Some(Thinner(v, r.vsol.value));
        assert Least(liqs + [x]) == CurveLiquidity(Some(Thinner(v, r.vsol.value)), p).value;
      }
    } else {
      PickedNone(Ratio);
      PickedNone(SellableAt(p.floor));
    }
  }

  lemma PickedNone(f: Mark -> Option<real>)
    ensures Picked([], f) == []
  {
  }

  lemma CurveShape(r: Reading, p: Params)
    ensures CurveLiquidity(r.vsol, p).Some? <==> r.vsol.Some? && r.vsol.value > 0
    ensures Ratio(CurveMark(r.price, r.vsol, p)) == None
  {
  }

  lemma PickedAppend(marks: seq<Mark>, m: Mark, f: Mark -> Option<real>)
    ensures Picked(marks + [m], f) == if f(m).Some? then Picked(marks, f) + [f(m).value] else Picked(marks, f)
  {
    assert (marks + [m])[..|marks|] == marks;
  }

  lemma ThinnerBook(a: Option<int>, b: int, p: Params)
    requires p.solUsd > 0.0 && b > 0 && (a.Some? ==> a.value > 0)
    ensures CurveLiquidity(Some(b), p).Some? && CurveLiquidity(Some(Thinner(a, b)), p).Some? &&
            (a.Some? ==> CurveLiquidity(a, p).Some?)
    ensures var t, y := CurveLiquidity(Some(Thinner(a, b)), p).value, CurveLiquidity(Some(b), p).value;
            t == if a.None? || y < CurveLiquidity(a, p).value then y else CurveLiquidity(a, p).value
  {
    hide CurveLiquidity;
    CurveOrder(b, b, p);
    if a.Some? {
      CurveOrder(a.value, b, p);
      CurveOrder(b, a.value, p);
    }
  }

  lemma LeastAppend(s: seq<real>, x: real)
    ensures Least(s + [x]) == if s == [] || x < Least(s) then x else Least(s)
  {
    var t := s + [x];
    assert t[|s|] == x;
    assert forall k :: 0 <= k < |s| ==> t[k] == s[k];
  }

  /** With the curve proxy and no USD prices the slippage is a pure fraction of the pool: the
      SOL/USD rate cancels, and only sellability depends on it. */
  lemma RateCancels(readings: seq<Reading>, notional: nat, proceeds: int, p: Params)
    requires ValidParams(p) && ThinnestVsol(readings, p).Some?
    ensures var v := ThinnestVsol(readings, p).value as real;
            var share := p.coeff * (notional as real) / (2.0 * v);
            Adjust(CurveMarks(readings, p), notional, proceeds, p).slip == if share < p.cap then share else p.cap
  {
    hide Ratios, SellableLiquidity, Median, Truncate, CurveMarks, ThinnestVsol;
    ThinnestBook(readings, p);
    var v := ThinnestVsol(readings, p).value;
    CurveOrder(v, v, p);
    Cancels(p.coeff, notional as real, v as real, p.solUsd);
  }

  lemma Cancels(coeff: real, n: real, v: real, rate: real)
    requires v > 0.0 && rate > 0.0 && n >= 0.0
    ensures 2.0 * (v / LAMPORTS_PER_SOL) * rate > 0.0
    ensures coeff * (n / LAMPORTS_PER_SOL * rate) / (2.0 * (v / LAMPORTS_PER_SOL) * rate) == coeff * n / (2.0 * v)
    ensures n / LAMPORTS_PER_SOL * rate > 0.0 <==> n > 0.0
    ensures n == 0.0 ==> coeff * n / (2.0 * v) == 0.0
  {
    var g := rate / LAMPORTS_PER_SOL;
    var sold, book := n / LAMPORTS_PER_SOL * rate, 2.0 * (v / LAMPORTS_PER_SOL) * rate;
    assert sold == n * g && book == (2.0 * v) * g;
    Signs(n, g);
    Signs(2.0 * v, g);
    var q := coeff * n / (2.0 * v);
    assert q * (2.0 * v) == coeff * n;
    Regroup(q, 2.0 * v, g);
    Regroup(coeff, n, g);
    QuotientIs(coeff * sold, book, q);
  }

  lemma Regroup(a: real, b: real, c: real)
    ensures a * (b * c) == (a * b) * c
  {
  }
}
