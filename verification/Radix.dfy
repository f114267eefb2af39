/** Positional notation, most significant digit first, and runs of a leading element. */
module Radix {
  import NumberTheory

  predicate ValidDigits(ds: seq<nat>, b: nat)
  {
    forall i :: 0 <= i < |ds| ==> ds[i] < b
  }

  function Eval(ds: seq<nat>, b: nat): nat
  {
    if ds == [] then 0 else Eval(ds[..|ds| - 1], b) * b + ds[|ds| - 1]
  }

  /** The digits of n without leading zeros; zero has no digits. */
  function Digits(n: nat, b: nat): seq<nat>
    requires b >= 2
  {
    if n == 0 then [] else Digits(n / b, b) + [n % b]
  }

  lemma {:induction false} EvalOfDigits(n: nat, b: nat)
    requires b >= 2
    ensures Eval(Digits(n, b), b) == n && ValidDigits(Digits(n, b), b)
    ensures n > 0 ==> Digits(n, b) != [] && Digits(n, b)[0] != 0
  {
    hide Digits, Eval, ValidDigits;
    LastDigit(n, b);
    if n == 0 {
      NoDigits(b);
    } else {
      var q, d := n / b, n % b;
      NumberTheory.DivFacts(n, b);
      LastDigit(q, b);
      EvalOfDigits(q, b);
      AppendDigit(Digits(q, b), d, b);
    }
  }

  lemma LastDigit(n: nat, b: nat)
    requires b >= 2
    ensures Digits(n, b) == if n == 0 then [] else Digits(n / b, b) + [n % b]
  {
  }

  lemma NoDigits(b: nat)
    ensures Eval([], b) == 0 && ValidDigits([], b)
  {
  }

  lemma AppendDigit(ds: seq<nat>, d: nat, b: nat)
    ensures Eval(ds + [d], b) == Eval(ds, b) * b + d
    ensures ValidDigits(ds, b) && d < b ==> ValidDigits(ds + [d], b)
  {
    assert (ds + [d])[..|ds|] == ds;
  }

  lemma {:induction false} DigitsOfEval(ds: seq<nat>, b: nat)
    requires b >= 2 && ValidDigits(ds, b) && (ds == [] || ds[0] != 0)
    ensures Digits(Eval(ds, b), b) == ds
    ensures ds != [] ==> Eval(ds, b) > 0
  {
    if ds != [] {
      var front, last := ds[..|ds| - 1], ds[|ds| - 1];
      DigitsOfEval(front, b);
      var n, m := Eval(ds, b), Eval(front, b);
      DivRem(m, b, last);
      assert ds == front + [last];
      if front == [] {
        assert m == 0 && n == last;
      }
    }
  }

  lemma DivRem(m: nat, b: nat, d: nat)
    requires d < b
    ensures (m * b + d) / b == m && (m * b + d) % b == d
  {
    NumberTheory.ModUnique(m * b + d, b, m, d);
  }

  /** Digit i from the right of a numeral is what is left of its value by i divisions, modulo the base. */
  lemma {:induction false} EvalDigit(ds: seq<nat>, b: nat, i: nat)
    requires b >= 2 && ValidDigits(ds, b) && i < |ds|
    ensures NumberTheory.Pow(b, i) > 0 && Eval(ds, b) / NumberTheory.Pow(b, i) % b == ds[|ds| - 1 - i]
  {
    var front, last := ds[..|ds| - 1], ds[|ds| - 1];
    var t := Eval(front, b);
    NumberTheory.PowPositive(b, i);
    if i == 0 {
      NumberTheory.LowDigit(last, b, t);
    } else {
      NumberTheory.PowPositive(b, i - 1);
      EvalDigit(front, b, i - 1);
      NumberTheory.ShiftDiv(last, b, t, NumberTheory.Pow(b, i - 1));
    }
  }

  function Repeat<T>(x: T, k: nat): seq<T>
  {
    seq(k, _ => x)
  }

  lemma {:induction false} EvalZeros(k: nat, b: nat)
    ensures Eval(Repeat<nat>(0, k), b) == 0
  {
    if k > 0 {
      EvalZeros(k - 1, b);
      assert Repeat<nat>(0, k)[..k - 1] == Repeat<nat>(0, k - 1);
    }
  }

  lemma {:induction false} EvalPadded(k: nat, ds: seq<nat>, b: nat)
    ensures Eval(Repeat<nat>(0, k) + ds, b) == Eval(ds, b)
  {
    var s := Repeat<nat>(0, k) + ds;
    if ds != [] {
      EvalPadded(k, ds[..|ds| - 1], b);
      assert s[..|s| - 1] == Repeat<nat>(0, k) + ds[..|ds| - 1];
    } else {
      EvalZeros(k, b);
      assert s == Repeat<nat>(0, k);
    }
  }

  /** How many leading elements of s equal x: `len(s) - len(s.lstrip(x))`. */
  function LeadingRun<T(==)>(s: seq<T>, x: T): (k: nat)
    ensures k <= |s|
    ensures s[..k] == Repeat(x, k)
    ensures k < |s| ==> s[k] != x
  {
    if s == [] || s[0] != x then 0
    else
      var k := 1 + LeadingRun(s[1..], x);
      assert s[..k] == [x] + s[1..][..k - 1];
      k
  }

  lemma {:induction false} LeadingRunOf<T>(x: T, k: nat, s: seq<T>)
    requires s == [] || s[0] != x
    ensures LeadingRun(Repeat(x, k) + s, x) == k
  {
    var t := Repeat(x, k) + s;
    if k > 0 {
      LeadingRunOf(x, k - 1, s);
      assert t[1..] == Repeat(x, k - 1) + s;
    } else {
      assert t == s;
    }
  }
}
