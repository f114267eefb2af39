/** The simulation venue: the landing race and the integer constant-product fill. Random draws are
    inputs; prices are reals. */
module SimVenue {
  import opened Common
  import opened RealMath

  datatype Amm = Amm(tokensOut: int, price: real, slippageBps: int)

  /** Python's floor division, for a nonzero divisor. */
  function FloorDiv(a: int, b: int): int
    requires b != 0
  {
    if b > 0 then a / b else (-a) / (-b)
  }

  function Reserve(sol: int, ahead: int, size: int): int
  {
    sol + ahead * size
  }

  /** Tokens bought from a pool of `reserve` lamports and `tok` tokens, before the zero checks. */
  function Bought(reserve: int, tok: int, solIn: int): int
    requires reserve + solIn != 0
  {
    tok - FloorDiv(reserve * tok, reserve + solIn)
  }

  /** The relative distance of the effective price from the spot price before the trade. */
  function SlipFraction(reserve: int, tok: int, solIn: int, out: int): real
    requires tok != 0 && out != 0 && reserve != 0
  {
    var spot := reserve as real / tok as real;
    if spot == 0.0 then 0.0 else (solIn as real / out as real - spot) / spot
  }

  /** `_simulate_amm_entry`. */
  function AmmEntry(sol: int, tok: int, solIn: int, ahead: int, size: int): Amm
  {
    var reserve := Reserve(sol, ahead, size);
    if reserve + solIn == 0 then Amm(0, 0.0, 0)
    else
      var out := Bought(reserve, tok, solIn);
      if out <= 0 || tok == 0 then Amm(0, 0.0, 0)
      else
        var price := solIn as real / out as real;
        var bps := if reserve != 0 && reserve as real / tok as real > 0.0
                   then Truncate(SlipFraction(reserve, tok, solIn, out) * 10000.0) else 0;
        Amm(out, price, Max(0, bps))
  }

  // ---------- tokens out ----------

  lemma DivBounds(a: int, b: int)
    requires b > 0
    ensures a / b * b <= a < (a / b + 1) * b
  {
    assert a == a / b * b + a % b;
  }

  lemma ScaleNat(a: int, b: int, c: int)
    requires a <= b && c >= 0
    ensures a * c <= b * c
  {
    assert (b - a) * c >= 0;
  }

  lemma Unscale(a: int, b: int, c: int)
    requires c > 0 && a * c < b * c
    ensures a < b
  {
    if a >= b {
      ScaleNat(b, a, c);
    }
  }

  /** Tokens out is the least amount that pays for the input at the price after the trade. */
  lemma BoughtIsLeast(reserve: nat, tok: nat, solIn: nat)
    requires reserve + solIn > 0
    ensures var t := Bought(reserve, tok, solIn);
            (t - 1) * (reserve + solIn) < tok * solIn <= t * (reserve + solIn) && 0 <= t <= tok
  {
    var d := reserve + solIn;
    var left := reserve * tok / d;
    DivBounds(reserve * tok, d);
    assert (tok - left) * d == tok * d - left * d;
    assert (tok - left - 1) * d == tok * d - (left + 1) * d;
    assert tok * d == tok * reserve + tok * solIn;
    assert tok * reserve == reserve * tok;
    LeftBounds(left, tok, reserve, d);
  }

  lemma LeftBounds(left: int, tok: nat, reserve: nat, d: nat)
    requires d > 0 && reserve <= d && left * d <= reserve * tok < (left + 1) * d
    ensures 0 <= left <= tok
  {
    assert reserve * tok >= 0;
    assert 0 * d < (left + 1) * d;
    Unscale(0, left + 1, d);
    ScaleNat(reserve, d, tok);
    assert left * d < (tok + 1) * d;
    Unscale(left, tok + 1, d);
  }

  /** No smaller amount would pay for it. */
  lemma LeastUnique(t: int, u: int, d: int, n: int)
    requires d > 0 && (t - 1) * d < n && n <= u * d
    ensures t <= u
  {
    Unscale(t - 1, u, d);
  }

  /** With positive reserves and input, tokens out is the rounded-up share tok * in / (reserve + in),
      at least one and at most the pool. */
  lemma TokensOutIsCeiling(sol: int, tok: int, solIn: int, ahead: nat, size: nat)
    requires sol > 0 && tok > 0 && solIn > 0
    ensures var d := sol + ahead * size + solIn;
            d > 0 && var out := AmmEntry(sol, tok, solIn, ahead, size).tokensOut;
            out == (tok * solIn + d - 1) / d && 1 <= out <= tok
  {
    hide SlipFraction;
    var reserve := Reserve(sol, ahead, size);
    ReservePositive(sol, ahead, size);
    var d := reserve + solIn;
    var n := tok * solIn;
    assert n > 0;
    var t := Bought(reserve, tok, solIn);
    BoughtIsLeast(reserve, tok, solIn);
    var c := (n + d - 1) / d;
    DivBounds(n + d - 1, d);
    assert (c + 1) * d == c * d + d && (c - 1) * d == c * d - d;
    LeastUnique(t, c, d, n);
    LeastUnique(c, t, d, n);
    assert 0 * d < t * d;
    Unscale(0, t, d);
  }

  lemma ReservePositive(sol: int, ahead: nat, size: nat)
    requires sol > 0
    ensures Reserve(sol, ahead, size) >= sol > 0
  {
    assert ahead * size >= 0;
  }

  /** Paying more buys no less, and buyers ahead leave no more. */
  lemma TokensOutMonotone(sol: int, tok: int, less: int, more: int, few: nat, many: nat, size: nat)
    requires sol > 0 && tok > 0 && 0 < less <= more && few <= many
    ensures AmmEntry(sol, tok, less, few, size).tokensOut <= AmmEntry(sol, tok, more, few, size).tokensOut
    ensures AmmEntry(sol, tok, less, many, size).tokensOut <= AmmEntry(sol, tok, less, few, size).tokensOut
  {
    hide SlipFraction, AmmEntry, Bought;
    ScaleNat(few, many, size);
    ReservePositive(sol, few, size);
    var s := Reserve(sol, few, size);
    OutIsBought(sol, tok, less, few, size);
    OutIsBought(sol, tok, more, few, size);
    OutIsBought(sol, tok, less, many, size);
    MoreInput(s, tok, less, more);
    DeeperPool(s, Reserve(sol, many, size), tok, less);
  }

  lemma OutIsBought(sol: int, tok: int, solIn: int, ahead: nat, size: nat)
    requires sol > 0 && tok > 0 && solIn > 0
    ensures Reserve(sol, ahead, size) > 0
    ensures AmmEntry(sol, tok, solIn, ahead, size).tokensOut == Bought(Reserve(sol, ahead, size), tok, solIn) >= 1
  {
    hide SlipFraction;
    ReservePositive(sol, ahead, size);
    TokensOutIsCeiling(sol, tok, solIn, ahead, size);
    var reserve := Reserve(sol, ahead, size);
    BoughtIsLeast(reserve, tok, solIn);
    assert tok * solIn > 0;
    assert 0 * (reserve + solIn) < Bought(reserve, tok, solIn) * (reserve + solIn);
    Unscale(0, Bought(reserve, tok, solIn), reserve + solIn);
  }

  lemma MoreInput(reserve: nat, tok: nat, less: nat, more: nat)
    requires 0 < less <= more
    ensures Bought(reserve, tok, less) <= Bought(reserve, tok, more)
  {
    hide Bought;
    var t, u := Bought(reserve, tok, less), Bought(reserve, tok, more);
    BoughtIsLeast(reserve, tok, less);
    BoughtIsLeast(reserve, tok, more);
    ScaleNat(u, tok, more - less);
    assert u * (reserve + more) == u * (reserve + less) + u * (more - less);
    assert tok * more == tok * less + tok * (more - less);
    LeastUnique(t, u, reserve + less, tok * less);
  }

  lemma DeeperPool(small: nat, large: nat, tok: nat, solIn: nat)
    requires small <= large && solIn > 0
    ensures Bought(large, tok, solIn) <= Bought(small, tok, solIn)
  {
    hide Bought;
    var t, u := Bought(small, tok, solIn), Bought(large, tok, solIn);
    BoughtIsLeast(small, tok, solIn);
    BoughtIsLeast(large, tok, solIn);
    ScaleNat(small + solIn, large + solIn, t);
    assert t * (small + solIn) == (small + solIn) * t && t * (large + solIn) == (large + solIn) * t;
    LeastUnique(u, t, large + solIn, tok * solIn);
  }

  // ---------- slippage ----------

  /** The reported slippage is at most the rounded-down share of the input in the reserve. */
  lemma SlippageBound(sol: int, tok: int, solIn: int, ahead: nat, size: nat)
    requires sol > 0 && tok > 0 && solIn > 0
    ensures 0 <= AmmEntry(sol, tok, solIn, ahead, size).slippageBps <= (10000.0 * solIn as real / sol as real).Floor
  {
    hide SlipFraction, Bought;
    var reserve := Reserve(sol, ahead, size);
    ReservePositive(sol, ahead, size);
    OutIsBought(sol, tok, solIn, ahead, size);
    var out := Bought(reserve, tok, solIn);
    BoughtIsLeast(reserve, tok, solIn);
    SlipBound(reserve, tok, solIn, out);
    var slip := SlipFraction(reserve, tok, solIn, out);
    var bound := solIn as real / reserve as real;
    BoundShrinks(solIn as real, sol as real, reserve as real);
    assert slip * 10000.0 <= bound * 10000.0 <= 10000.0 * solIn as real / sol as real;
    FloorMonotone(slip * 10000.0, 10000.0 * solIn as real / sol as real);
    assert 10000.0 * solIn as real / sol as real >= 0.0;
  }

  lemma FloorMonotone(a: real, b: real)
    requires a <= b && b >= 0.0
    ensures Max(0, Truncate(a)) <= b.Floor
  {
  }

  lemma QuotientBelow(a: real, b: real, c: real)
    requires b > 0.0 && a <= c * b
    ensures a / b <= c
  {
    assert a / b * b == a;
    assert (a / b - c) * b == a / b * b - c * b;
  }

  lemma BoundShrinks(x: real, s: real, r: real)
    requires x >= 0.0 && 0.0 < s <= r
    ensures x / r * 10000.0 <= 10000.0 * x / s
  {
    var q := x / s;
    assert q * s == x && q >= 0.0;
    Scaled(q, s, r);
    QuotientBelow(x, r, q);
    assert 10000.0 * x / s == 10000.0 * q by {
      assert 10000.0 * q * s == 10000.0 * x;
      QuotientIs(10000.0 * x, s, 10000.0 * q);
    }
  }

  lemma SlipBound(reserve: int, tok: int, solIn: int, out: int)
    requires reserve > 0 && tok > 0 && solIn > 0 && out > 0 && tok * solIn <= out * (reserve + solIn)
    ensures SlipFraction(reserve, tok, solIn, out) <= solIn as real / reserve as real
  {
    var r, t, x, o := reserve as real, tok as real, solIn as real, out as real;
    assert t * x <= o * (r + x);
    var spot, eff := r / t, x / o;
    assert spot * t == r && eff * o == x;
    assert spot > 0.0;
    EffBound(r, t, x, o, spot, eff);
    var cap := x / r;
    assert cap * r == x;
    CapTimesSpot(cap, r, t, x, spot, eff - spot);
    QuotientBelow(eff - spot, spot, cap);
  }

  /** The effective price is at most the price of the whole pool after the trade. */
  lemma EffBound(r: real, t: real, x: real, o: real, spot: real, eff: real)
    requires r > 0.0 && t > 0.0 && x > 0.0 && o > 0.0 && t * x <= o * (r + x) && spot * t == r && eff * o == x
    ensures (eff - spot) * t <= x
  {
    assert eff * t * o == eff * o * t == x * t;
    if eff * t > r + x {
      ScaleStrict(r + x, eff * t, o);
    }
    assert (eff - spot) * t == eff * t - spot * t;
  }

  lemma ScaleStrict(a: real, b: real, c: real)
    requires a < b && c > 0.0
    ensures a * c < b * c
  {
    assert (b - a) * c > 0.0;
  }

  lemma CapTimesSpot(cap: real, r: real, t: real, x: real, spot: real, y: real)
    requires t > 0.0 && cap * r == x && spot * t == r && y * t <= x
    ensures y <= cap * spot
  {
    assert cap * spot * t == cap * (spot * t);
    if y > cap * spot {
      ScaleStrict(cap * spot, y, t);
    }
  }

  /** Python's floor division: the quotient rounded toward minus infinity. */
  lemma FloorDivExactly(a: int, b: int)
    requires b != 0
    ensures var q := FloorDiv(a, b);
            if b > 0 then q * b <= a < (q + 1) * b else q * b >= a > (q + 1) * b
  {
    if b > 0 {
      DivBounds(a, b);
    } else {
      var q := FloorDiv(a, b);
      DivBounds(-a, -b);
      assert q * -b == -(q * b) && (q + 1) * -b == -((q + 1) * b);
    }
  }

  /** The reported slippage: how far the input is above what the tokens were worth at the spot price, in whole
      basis points rounded down; nothing when it is below. The price is the input per token. */
  lemma SlippageExactly(sol: int, tok: int, solIn: int, ahead: nat, size: nat)
    requires sol > 0 && tok > 0 && solIn > 0
    ensures var amm, reserve := AmmEntry(sol, tok, solIn, ahead, size), sol + ahead * size;
            var worth, excess := amm.tokensOut * reserve, tok * solIn - amm.tokensOut * reserve;
            amm.price * amm.tokensOut as real == solIn as real &&
            if excess < 0 then amm.slippageBps == 0
            else amm.slippageBps * worth <= 10000 * excess < (amm.slippageBps + 1) * worth
  {
    hide Bought, SlipFraction;
    var reserve := Reserve(sol, ahead, size);
    OutIsBought(sol, tok, solIn, ahead, size);
    var out := Bought(reserve, tok, solIn);
    var worth, excess := out * reserve, tok * solIn - out * reserve;
    assert worth > 0;
    var f := SlipFraction(reserve, tok, solIn, out);
    SlipScaled(reserve, tok, solIn, out);
    Signs(f, worth as real);
    var amm := AmmEntry(sol, tok, solIn, ahead, size);
    SpotPositive(reserve, tok);
    assert amm.slippageBps == Max(0, Truncate(f * 10000.0));
    if excess < 0 {
      Signs(-f, worth as real);
    } else {
      WholeBps(f, worth, excess, Truncate(f * 10000.0));
    }
  }

  lemma SpotPositive(reserve: int, tok: int)
    requires reserve > 0 && tok > 0
    ensures reserve as real / tok as real > 0.0
  {
  }

  lemma WholeBps(f: real, worth: int, excess: int, bps: int)
    requires worth > 0 && excess >= 0 && f >= 0.0 && f * worth as real == excess as real && bps == (f * 10000.0).Floor
    ensures bps >= 0 && bps * worth <= 10000 * excess < (bps + 1) * worth
  {
    Regrouped(f, worth as real);
    FloorBounds(f * 10000.0, worth, 10000 * excess);
  }

  /** The floor of a nonnegative quotient, in integers. */
  lemma FloorBounds(g: real, d: int, n: int)
    requires d > 0 && g >= 0.0 && g * d as real == n as real
    ensures g.Floor >= 0 && g.Floor * d <= n < (g.Floor + 1) * d
  {
    var q, next := g.Floor, g.Floor + 1;
    RealBounds(g, d as real, q as real, next as real, n as real);
    RealProduct(q, d);
    RealProduct(next, d);
    CompareInts(q * d, n, q as real * d as real, n as real);
    StrictInts(n, next * d, n as real, next as real * d as real);
  }

  lemma RealBounds(g: real, w: real, q: real, p: real, n: real)
    requires w > 0.0 && q <= g < p && g * w == n
    ensures q * w <= n < p * w
  {
    Scaled(w, q, g);
    ScaleStrict(g, p, w);
  }

  lemma CompareInts(a: int, b: int, x: real, y: real)
    requires a as real == x && b as real == y && x <= y
    ensures a <= b
  {
  }

  lemma StrictInts(a: int, b: int, x: real, y: real)
    requires a as real == x && b as real == y && x < y
    ensures a < b
  {
  }

  lemma Regrouped(f: real, w: real)
    ensures f * 10000.0 * w == 10000.0 * (f * w)
  {
  }

  lemma RealProduct(a: int, b: int)
    ensures (a * b) as real == a as real * b as real
  {
  }

  /** The slip fraction times the tokens' worth is the excess. */
  lemma SlipScaled(reserve: int, tok: int, solIn: int, out: int)
    requires reserve > 0 && tok > 0 && solIn > 0 && out > 0
    ensures SlipFraction(reserve, tok, solIn, out) * (out * reserve) as real == (tok * solIn - out * reserve) as real
  {
    var r, t, x, o := reserve as real, tok as real, solIn as real, out as real;
    var spot, eff := r / t, x / o;
    assert spot * t == r && eff * o == x && spot > 0.0;
    var f := (eff - spot) / spot;
    assert f * spot == eff - spot;
    assert (out * reserve) as real == o * r;
    assert (tok * solIn - out * reserve) as real == t * x - o * r;
    assert f * (o * r) == t * x - o * r by {
      FractionScaled(f, spot, eff, r, t, x, o);
    }
  }

  lemma FractionScaled(f: real, spot: real, eff: real, r: real, t: real, x: real, o: real)
    requires spot * t == r && eff * o == x && f * spot == eff - spot
    ensures f * (o * r) == t * x - o * r
  {
    assert f * (o * r) == f * (o * (spot * t));
    assert f * (o * (spot * t)) == (f * spot) * (o * t);
    assert (f * spot) * (o * t) == (eff - spot) * (o * t);
    assert (eff - spot) * (o * t) == (eff * o) * t - (spot * t) * o;
  }

  // ---------- the landing race ----------

  /** One competitor's draws: its slot delay, and its tip (looked at only on a tie). */
  datatype Rival = Rival(delay: int, tip: int)

  predicate BeatsUs(r: Rival, delay: int, tip: int)
  {
    r.delay < delay || (r.delay == delay && r.tip > tip)
  }

  function Ahead(rivals: seq<Rival>, delay: int, tip: int): (n: nat)
    ensures n <= |rivals|
  {
    if rivals == [] then 0
    else Ahead(rivals[..|rivals| - 1], delay, tip) + (if BeatsUs(rivals[|rivals| - 1], delay, tip) then 1 else 0)
  }

  /** How many rivals land before us: those with a smaller delay, and on a tie those with a higher tip. */
  lemma {:induction false} AheadExactly(rivals: seq<Rival>, delay: int, tip: int)
    ensures Ahead(rivals, delay, tip) == |Faster(rivals, delay, tip)|
  {
    if rivals == [] {
      assert Faster(rivals, delay, tip) == {};
    } else {
      var n := |rivals| - 1;
      AheadExactly(rivals[..n], delay, tip);
      LastRival(rivals, delay, tip);
    }
  }

  function Faster(rivals: seq<Rival>, delay: int, tip: int): set<nat>
  {
    set k: nat | k < |rivals| && (rivals[k].delay < delay || (rivals[k].delay == delay && rivals[k].tip > tip))
  }

  lemma LastRival(rivals: seq<Rival>, delay: int, tip: int)
    requires rivals != []
    ensures var n := |rivals| - 1;
            n !in Faster(rivals[..n], delay, tip) &&
            Faster(rivals, delay, tip) ==
            Faster(rivals[..n], delay, tip) + (if BeatsUs(rivals[n], delay, tip) then {n} else {})
  {
  }

  /** `_attempt_land`, with our slot delay already drawn. */
  method AttemptLand(rivals: seq<Rival>, delay: int, tip: int, maxSlots: int) returns (landed: bool, ahead: nat)
    ensures landed == (delay <= maxSlots)
    ensures ahead == if landed then Ahead(rivals, delay, tip) else |rivals|
  {
    if delay > maxSlots {
      return false, |rivals|;
    }
    ahead := 0;
    for k := 0 to |rivals|
      invariant ahead == Ahead(rivals[..k], delay, tip)
    {
      assert rivals[..k + 1][..k] == rivals[..k];
      if rivals[k].delay < delay || (rivals[k].delay == delay && rivals[k].tip > tip) {
        ahead := ahead + 1;
      }
    }
    assert rivals[..|rivals|] == rivals;
    landed := true;
  }

  datatype Order = Order(solIn: int, slippageBps: int, tip: int)
  datatype Pool = Pool(sol: int, tok: int)
  datatype SimFill = SimFill(landed: bool, reason: string, ahead: nat, tokensOut: int, slippageBps: int)

  /** `execute`: a landed fill keeps the order's slippage limit, and on a real pool it buys between what
      all rivals ahead would leave and what no rival ahead would. */
  method Execute(order: Order, pool: Pool, rivals: seq<Rival>, delay: int, maxSlots: int, size: nat)
    returns (fill: SimFill)
    ensures fill.landed ==> delay <= maxSlots && 0 <= fill.slippageBps <= Max(0, order.slippageBps)
    ensures fill.landed <==>
            delay <= maxSlots && var ahead := Ahead(rivals, delay, order.tip);
            AmmEntry(pool.sol, pool.tok, order.solIn, ahead, size).slippageBps <= order.slippageBps
    ensures fill.landed ==>
              var amm := AmmEntry(pool.sol, pool.tok, order.solIn, Ahead(rivals, delay, order.tip), size);
              fill.tokensOut == amm.tokensOut && fill.slippageBps == amm.slippageBps && fill.reason == "filled"
    ensures fill.ahead == if delay <= maxSlots then Ahead(rivals, delay, order.tip) else |rivals|
    ensures !fill.landed ==>
              fill.tokensOut == 0 &&
              fill.reason == if delay <= maxSlots then "reverted_min_out" else "too_late_or_outbid"
    ensures fill.landed && pool.sol > 0 && pool.tok > 0 && order.solIn > 0 ==>
              AmmEntry(pool.sol, pool.tok, order.solIn, |rivals|, size).tokensOut <= fill.tokensOut
              <= AmmEntry(pool.sol, pool.tok, order.solIn, 0, size).tokensOut
  {
    hide AmmEntry;
    var landed, ahead := AttemptLand(rivals, delay, order.tip, maxSlots);
    if !landed {
      return SimFill(false, "too_late_or_outbid", ahead, 0, 0);
    }
    var amm := AmmEntry(pool.sol, pool.tok, order.solIn, ahead, size);
    if pool.sol > 0 && pool.tok > 0 && order.solIn > 0 {
      TokensOutMonotone(pool.sol, pool.tok, order.solIn, order.solIn, ahead, |rivals|, size);
      TokensOutMonotone(pool.sol, pool.tok, order.solIn, order.solIn, 0, ahead, size);
    }
    BpsNonNegative(pool.sol, pool.tok, order.solIn, ahead, size);
    if amm.slippageBps > order.slippageBps {
      return SimFill(false, "reverted_min_out", ahead, 0, amm.slippageBps);
    }
    fill := SimFill(true, "filled", ahead, amm.tokensOut, amm.slippageBps);
  }

  lemma BpsNonNegative(sol: int, tok: int, solIn: int, ahead: int, size: int)
    ensures AmmEntry(sol, tok, solIn, ahead, size).slippageBps >= 0
  {
    hide SlipFraction;
  }
}
