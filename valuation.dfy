/**
 * Discounting of cash-flow sequences. The entry at index i is divided by
 * (1 + rate)^i, with i counted from 0, so the first entry is never discounted.
 * The internal rate of return is whatever an external bracketing root-finder
 * reports, turned into an optional value.
 */
module Valuation {
  import opened Wrappers
  import opened Power

  /** The undiscounted total, summed from the front. */
  function Sum(cf: seq<real>): real
  {
    if cf == [] then 0.0 else cf[0] + Sum(cf[1..])
  }

  /** Σ cf[i] / base^i for i from 0 to |cf| - 1. */
  function DiscountedSum(cf: seq<real>, base: real): real
    requires base != 0.0
    decreases |cf|
  {
    if cf == [] then 0.0
    else DiscountedSum(cf[..|cf| - 1], base) + cf[|cf| - 1] / Pow(base, |cf| - 1)
  }

  /** NPV at a rate given as a fraction. */
  function NpvFunc(rate: real, cashFlows: seq<real>): real
    requires rate != -1.0
  {
    DiscountedSum(cashFlows, 1.0 + rate)
  }

  /** NPV at a rate given in percent: the same sum at rate / 100. */
  function CalculateNpv(cashFlows: seq<real>, discountRate: real): (r: real)
    requires discountRate != -100.0
    ensures r == NpvFunc(discountRate / 100.0, cashFlows)
  {
    DiscountedSum(cashFlows, 1.0 + discountRate / 100.0)
  }

  /** n equal flows of x, built by appending one at a time. */
  function Level(x: real, n: nat): (r: seq<real>)
    ensures |r| == n
    ensures forall i :: 0 <= i < n ==> r[i] == x
  {
    if n == 0 then [] else Level(x, n - 1) + [x]
  }

  /** Σ 1 / (1 + rate)^i for i from 0 to n - 1: the present value of n unit flows. */
  function AnnuityFactor(rate: real, n: nat): real
    requires rate != -1.0
  {
    if n == 0 then 0.0 else AnnuityFactor(rate, n - 1) + 1.0 / Pow(1.0 + rate, n - 1)
  }

  lemma DivSplit(x: real, p: real, q: real)
    requires p != 0.0 && q != 0.0
    ensures x / (p * q) == (x / q) / p
  {
  }

  lemma DivAdd(u: real, v: real, p: real)
    requires p != 0.0
    ensures (u + v) / p == u / p + v / p
  {
  }

  /** Appending b after a discounts all of b by a further base^|a|. */
  lemma {:induction false} DiscountedSumConcat(a: seq<real>, b: seq<real>, base: real)
    requires base != 0.0
    ensures DiscountedSum(a + b, base) == DiscountedSum(a, base) + DiscountedSum(b, base) / Pow(base, |a|)
    decreases |b|
  {
    if b == [] {
      assert a + b == a;
    } else {
      var b', x := b[..|b| - 1], b[|b| - 1];
      assert (a + b)[..|a + b| - 1] == a + b';
      assert (a + b)[|a + b| - 1] == x;
      var pa, pb := Pow(base, |a|), Pow(base, |b'|);
      DiscountedSumConcat(a, b', base);
      PowAdd(base, |a|, |b'|);
      assert DiscountedSum(a + b, base) == DiscountedSum(a + b', base) + x / (pa * pb);
      assert DiscountedSum(b, base) == DiscountedSum(b', base) + x / pb;
      ConcatStep(DiscountedSum(a, base), DiscountedSum(b', base), x, pa, pb);
    }
  }

  /** One step of DiscountedSumConcat over plain numbers. */
  lemma ConcatStep(sa: real, sb: real, x: real, pa: real, pb: real)
    requires pa != 0.0 && pb != 0.0
    ensures sa + sb / pa + x / (pa * pb) == sa + (sb + x / pb) / pa
  {
    DivSplit(x, pa, pb);
    DivAdd(sb, x / pb, pa);
  }

  /** The first entry counts in full; everything after it is discounted one more period. */
  lemma NpvFirstEntryUndiscounted(rate: real, cashFlows: seq<real>)
    requires rate != -1.0 && cashFlows != []
    ensures NpvFunc(rate, cashFlows) == cashFlows[0] + NpvFunc(rate, cashFlows[1..]) / (1.0 + rate)
  {
    var base := 1.0 + rate;
    assert cashFlows == [cashFlows[0]] + cashFlows[1..];
    DiscountedSumConcat([cashFlows[0]], cashFlows[1..], base);
    assert [cashFlows[0]][..0] == [];
    assert DiscountedSum([cashFlows[0]], base) == cashFlows[0];
    assert Pow(base, 1) == base;
  }

  /** With no discounting, the NPV is the plain sum. */
  lemma {:induction false} NpvAtZeroRate(cashFlows: seq<real>)
    ensures NpvFunc(0.0, cashFlows) == Sum(cashFlows)
    ensures CalculateNpv(cashFlows, 0.0) == Sum(cashFlows)
    decreases |cashFlows|
  {
    if cashFlows != [] {
      NpvFirstEntryUndiscounted(0.0, cashFlows);
      NpvAtZeroRate(cashFlows[1..]);
    }
  }

  /** Raising one entry by x raises the discounted sum by x discounted to that entry's index. */
  lemma {:induction false} DiscountedSumBump(cf: seq<real>, k: nat, x: real, base: real)
    requires base != 0.0 && k < |cf|
    ensures DiscountedSum(cf[k := cf[k] + x], base) == DiscountedSum(cf, base) + x / Pow(base, k)
    decreases |cf|
  {
    var cf' := cf[k := cf[k] + x];
    var n := |cf|;
    if k == n - 1 {
      assert cf'[..n - 1] == cf[..n - 1];
    } else {
      assert cf'[..n - 1] == cf[..n - 1][k := cf[k] + x];
      DiscountedSumBump(cf[..n - 1], k, x, base);
    }
  }

  lemma DivideByLarger(c: real, p1: real, p2: real)
    requires c >= 0.0 && 0.0 < p1 <= p2
    ensures c / p2 <= c / p1
  {
    assert c / p2 * p2 == c;
    assert c / p1 * p1 == c;
    ScaleLe(c / p2, p1, p2);
  }

  /**
   * When every entry after the first is non-negative, a higher rate never
   * raises the NPV.
   */
  lemma {:induction false} NpvNonIncreasing(cashFlows: seq<real>, r1: real, r2: real)
    requires -1.0 < r1 <= r2
    requires forall i :: 1 <= i < |cashFlows| ==> cashFlows[i] >= 0.0
    ensures NpvFunc(r2, cashFlows) <= NpvFunc(r1, cashFlows)
    decreases |cashFlows|
  {
    var n := |cashFlows|;
    if n > 0 {
      NpvNonIncreasing(cashFlows[..n - 1], r1, r2);
      if n > 1 {
        PowMonotoneBase(1.0 + r1, 1.0 + r2, n - 1);
        DivideByLarger(cashFlows[n - 1], Pow(1.0 + r1, n - 1), Pow(1.0 + r2, n - 1));
      }
    }
  }

  /**
   * The mirror of NpvNonIncreasing: when every entry after the first is at most
   * zero, as for flows of costs, a higher rate never lowers the NPV.
   */
  lemma {:induction false} NpvNonDecreasing(cashFlows: seq<real>, r1: real, r2: real)
    requires -1.0 < r1 <= r2
    requires forall i :: 1 <= i < |cashFlows| ==> cashFlows[i] <= 0.0
    ensures NpvFunc(r1, cashFlows) <= NpvFunc(r2, cashFlows)
    decreases |cashFlows|
  {
    var n := |cashFlows|;
    if n > 0 {
      NpvNonDecreasing(cashFlows[..n - 1], r1, r2);
      if n > 1 {
        var x, p1, p2 := cashFlows[n - 1], Pow(1.0 + r1, n - 1), Pow(1.0 + r2, n - 1);
        PowMonotoneBase(1.0 + r1, 1.0 + r2, n - 1);
        DivideByLarger(-x, p1, p2);
        NegateDivision(x, p1);
        NegateDivision(x, p2);
      }
    }
  }

  lemma NegateDivision(x: real, p: real)
    requires p != 0.0
    ensures (-x) / p == -(x / p)
  {
  }

  /** n equal flows are worth the flow times the annuity factor. */
  lemma {:induction false} NpvOfLevelFlows(rate: real, x: real, n: nat)
    requires rate != -1.0
    ensures NpvFunc(rate, Level(x, n)) == x * AnnuityFactor(rate, n)
    decreases n
  {
    if n > 0 {
      assert Level(x, n)[..n - 1] == Level(x, n - 1);
      NpvOfLevelFlows(rate, x, n - 1);
      var p := Pow(1.0 + rate, n - 1);
      var earlier := AnnuityFactor(rate, n - 1);
      assert NpvFunc(rate, Level(x, n)) == x * earlier + x / p;
      assert AnnuityFactor(rate, n) == earlier + 1.0 / p;
      MulAddOneOver(x, earlier, p);
    }
  }

  lemma MulAddOneOver(x: real, a: real, p: real)
    requires p != 0.0
    ensures x * a + x / p == x * (a + 1.0 / p)
  {
  }

  /** An outlay at index 0 followed by n equal flows: the flows start one period out. */
  lemma NpvOfOutlayThenLevel(rate: real, outlay: real, x: real, n: nat)
    requires rate != -1.0
    ensures NpvFunc(rate, [outlay] + Level(x, n)) == outlay + x * AnnuityFactor(rate, n) / (1.0 + rate)
  {
    var base := 1.0 + rate;
    DiscountedSumConcat([outlay], Level(x, n), base);
    assert [outlay][..0] == [];
    assert DiscountedSum([outlay], base) == outlay;
    assert Pow(base, 1) == base;
    NpvOfLevelFlows(rate, x, n);
  }

  /** Undiscounted, n unit flows are worth n. */
  lemma {:induction false} AnnuityFactorAtZeroRate(n: nat)
    ensures AnnuityFactor(0.0, n) == n as real
    decreases n
  {
    if n > 0 {
      AnnuityFactorAtZeroRate(n - 1);
    }
  }

  /** What the bracketing root-finder reports: a root and whether it converged, or a refusal of the bracket. */
  datatype RootFinding = Finished(root: real, converged: bool) | BracketRejected

  /** The internal rate of return: the root when the solver converged, no value otherwise. */
  function CalculateIrr(outcome: RootFinding): (r: Option<real>)
    ensures r.Some? <==> outcome.Finished? && outcome.converged
    ensures r.Some? ==> r.value == outcome.root
  {
    match outcome
    case Finished(root, converged) => if converged then Some(root) else None
    case BracketRejected => None
  }
}
