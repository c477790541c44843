# Buy-vs-lease cash-flow model

A Dafny model of the arithmetic at the heart of the buy-vs-lease calculator. It covers these parts:

- the mortgage helpers: the level-payment amortisation formula, total interest, and the flat-rate tax benefit;
- the cash-flow projector. Buying gives a down payment at index 0, one net cost per lease year, and the
  property's future value added to the last year. Leasing gives one net lease cost per year and no outlay at index 0;
- NPV: each entry at index `i` is divided by `(1 + rate)^i`, counting from 0, so both sequences' first entries are
  undiscounted;
- IRR as an optional value from an external root-finder;
- the three-way recommendation drawn from the two NPVs.

Files and modules:

- `wrappers.dfy` (`Wrappers`): `Option` and `Result`.
- `power.dfy` (`Power`): `Pow(b, n)` for a natural exponent. Every exponent in the calculator is a whole number
  (`mortgage_term*12`, `lease_term`, the `arange` indices).
- `mortgage.dfy` (`Mortgage`): `calculate_mortgage`, `calculate_total_interest` and `calculate_tax_benefits`.
  It also defines a month-by-month loan `Balance` and the `InterestPaid` schedule. These are the independent
  reference the closed-form formula is proved against.
- `valuation.dfy` (`Valuation`): `npv_func`, `calculate_npv` and `calculate_irr`.
- `buy_vs_lease.dfy` (`BuyVsLease`): the inputs and the cash-flow sequences as functions. It also holds the loops
  that build them as methods, the whole analysis as a method, the closed forms of both NPVs, and the
  recommendation.

Numbers are Dafny `real`s. Nothing here is a claim about floating-point accuracy.

The interest deduction is approximated as `total_interest / mortgage_term` in every year. The model keeps this
approximation as written.

The code has no zero-rate branch: at a zero rate the formula divides by `(1 + 0)^n - 1 = 0`, and Python raises
`ZeroDivisionError`. `CalculateMortgage` returns `Failure(DivisionByZero)` exactly when
the growth factor is one. `MortgageDefinedIff` shows that, for the rates the input form allows (`>= 0`), this
happens exactly at rate 0 or with a zero term. The analysis then fails as a whole.

## Model

| member | source | states |
|---|---|---|
| `Power.Pow` | Buy-vs-Lease/BLTool_Test.py:9 | `b^n` is 1 for base 1, non-zero for a non-zero base, positive for a positive base |
| `Power.PowAdd` | Buy-vs-Lease/BLTool_Test.py:19 | `b^(i+j) = b^i * b^j`, used to shift discount exponents when sequences are joined |
| `Mortgage.LevelPayment` | Buy-vs-Lease/BLTool_Test.py:9 | the amortisation formula `loan*(m*g)/(g-1)` with the growth factor given; `MortgagePaymentAmortizes` shows it is the one level payment that clears the loan |
| `Mortgage.CalculateMortgage` | Buy-vs-Lease/BLTool_Test.py:5-9 | the payment formula fails (division by zero) exactly when `(1 + monthly rate)^n` is 1; a successful result implies a non-zero rate and at least one year of term |
| `Mortgage.MortgageDefinedIff` | Buy-vs-Lease/BLTool_Test.py:7-9 | for a rate of at least 0, the formula is defined if and only if the rate is positive and the term is at least one year |
| `Mortgage.MortgagePaymentAmortizes` | Buy-vs-Lease/BLTool_Test.py:5-9 | for a positive rate and a term of at least one year, the formula is defined, and a level monthly payment leaves a zero balance after `mortgage_term*12` months (interest accruing at the monthly rate) if and only if it equals the formula's payment |
| `Mortgage.TotalInterest` | Buy-vs-Lease/BLTool_Test.py:11-13 | total paid minus the loan; its meaning is stated by `TotalInterestIsInterestPaid` and its sign by `TotalInterestNonNegative` |
| `Mortgage.TotalInterestIsInterestPaid` | Buy-vs-Lease/BLTool_Test.py:11-13 | for a positive rate and a term of at least one year, total paid minus the loan equals the sum of the monthly interest charges of the amortisation schedule |
| `Mortgage.TotalInterestNonNegative` | Buy-vs-Lease/BLTool_Test.py:11-13 | with a positive rate, a term of at least one year and a non-negative loan, the total interest is at least 0 |
| `Mortgage.BalanceAsAccrued` | Buy-vs-Lease/BLTool_Test.py:9 | after `k` months the balance is the loan grown by `(1+m)^k` less `payment` times the value of `k` unit payments each grown from the month it was made |
| `Mortgage.AccruedTimesRate` | Buy-vs-Lease/BLTool_Test.py:9 | the grown value of `k` unit payments times `m` is `(1+m)^k - 1`, the divisor of the formula at `k = n` |
| `Mortgage.BalanceClosedForm` | Buy-vs-Lease/BLTool_Test.py:9 | the month-by-month balance times `m` equals `loan*m*(1+m)^k - payment*((1+m)^k - 1)`, the identity the formula solves at `k = n` |
| `Mortgage.InterestPaidClosedForm` | Buy-vs-Lease/BLTool_Test.py:12-13 | the interest charged over `k` months equals `k*payment` minus the principal repaid |
| `Mortgage.TaxBenefit` | Buy-vs-Lease/BLTool_Test.py:15-16 | the benefit is 0 at a 0% tax rate, and lies between 0 and the deductible amount for rates in [0, 100] and a non-negative amount |
| `Mortgage.TaxBenefitLinear` | Buy-vs-Lease/BLTool_Test.py:15-16 | the benefit is additive and scales with the deductible amount |
| `Valuation.DiscountedSum` | Buy-vs-Lease/BLTool_Test.py:19-22 | the `np.sum` of entry `i` divided by `base^i`; its properties are stated by `DiscountedSumConcat`, `DiscountedSumBump` and `NpvAtZeroRate` |
| `Valuation.NpvFunc` | Buy-vs-Lease/BLTool_Test.py:21-22 | `npv_func(rate, cf)`; its meaning is stated by the lemmas below, from `NpvAtZeroRate` to `NpvOfOutlayThenLevel` |
| `Valuation.CalculateNpv` | Buy-vs-Lease/BLTool_Test.py:18-22 | `calculate_npv(cf, d)` equals `npv_func(d/100, cf)` |
| `Valuation.NpvAtZeroRate` | Buy-vs-Lease/BLTool_Test.py:18-22 | at a zero rate the NPV equals the plain sum of the flows, summed from the front |
| `Valuation.NpvFirstEntryUndiscounted` | Buy-vs-Lease/BLTool_Test.py:21-22 | the NPV is the first entry in full plus the NPV of the rest divided by `1 + rate` |
| `Valuation.DiscountedSumConcat` | Buy-vs-Lease/BLTool_Test.py:21-22 | the NPV of `a + b` is the NPV of `a` plus the NPV of `b` discounted by `(1+rate)^len(a)` |
| `Valuation.DiscountedSumBump` | Buy-vs-Lease/BLTool_Test.py:21-22 | raising entry `k` by `x` raises the NPV by exactly `x / (1+rate)^k` |
| `Valuation.NpvNonIncreasing` | Buy-vs-Lease/BLTool_Test.py:21-22 | when every entry after the first is non-negative, a higher rate (above -1) never gives a higher NPV |
| `Valuation.NpvNonDecreasing` | Buy-vs-Lease/BLTool_Test.py:21-22 | when every entry after the first is at most 0, as for flows of costs, a higher rate (above -1) never gives a lower NPV |
| `Valuation.NpvOfLevelFlows` | Buy-vs-Lease/BLTool_Test.py:21-22 | `n` equal flows `x` have NPV `x` times the annuity factor `sum 1/(1+rate)^i, i < n` |
| `Valuation.NpvOfOutlayThenLevel` | Buy-vs-Lease/BLTool_Test.py:21-22 | an outlay followed by `n` equal flows has NPV `outlay + x * annuity / (1 + rate)`, so the flows start one period out |
| `Valuation.AnnuityFactorAtZeroRate` | Buy-vs-Lease/BLTool_Test.py:19 | undiscounted, the annuity factor of `n` years is `n` |
| `Valuation.Level` | Buy-vs-Lease/BLTool_Test.py:43-46 | appending the same flow `n` times yields `n` entries, all equal to it |
| `Valuation.CalculateIrr` | Buy-vs-Lease/BLTool_Test.py:24-29 | the IRR is present exactly when the root-finder finished and converged, and is then its root; a rejected bracket or non-convergence gives no value |
| `BuyVsLease.FutureValue` | Buy-vs-Lease/BLTool_Test.py:37 | the property value compounded yearly at the appreciation rate over the lease term; `SaleAddsDiscountedValue` states what it adds to the buying NPV |
| `BuyVsLease.AnnualMaintenance` | Buy-vs-Lease/BLTool_Test.py:38 | the maintenance percentage of the property value; used by `YearlyBuyFlow` |
| `BuyVsLease.AnnualInsurance` | Buy-vs-Lease/BLTool_Test.py:39 | the insurance percentage of the property value; used by `YearlyBuyFlow` |
| `BuyVsLease.YearlyBuyFlow` | Buy-vs-Lease/BLTool_Test.py:44-46 | one year of owning: mortgage, maintenance and insurance paid out, less the tax saved on an even share of the interest plus maintenance and insurance; `BuyFlowsBeforeSale` places it at entries 1..`lease_term` |
| `BuyVsLease.YearlyLeaseFlow` | Buy-vs-Lease/BLTool_Test.py:51-56 | the net lease flow is `-payment` at a 0% tax rate and lies between `-payment` and 0 for tax rates in [0, 100] |
| `BuyVsLease.BuyFlowsBeforeSale` | Buy-vs-Lease/BLTool_Test.py:42-46 | the buying flows have `lease_term + 1` entries, entry 0 is `-down_payment` and entries 1..`lease_term` are the yearly net cost |
| `BuyVsLease.BuyFlows` | Buy-vs-Lease/BLTool_Test.py:47 | adding the sale changes only the last entry, by exactly the future property value; all other entries and the length are unchanged |
| `BuyVsLease.LeaseFlows` | Buy-vs-Lease/BLTool_Test.py:53-56 | the leasing flows have exactly `lease_term` entries, all equal to the net lease flow |
| `BuyVsLease.ProjectBuyFlows` | Buy-vs-Lease/BLTool_Test.py:37-47 | the append loop followed by the in-place update of the last entry yields exactly `BuyFlows` |
| `BuyVsLease.ProjectLeaseFlows` | Buy-vs-Lease/BLTool_Test.py:51-56 | the append loop yields exactly `LeaseFlows` |
| `BuyVsLease.BuyVsLeaseAnalysis` | Buy-vs-Lease/BLTool_Test.py:31-63 | the analysis fails if and only if the mortgage formula does; otherwise it reports the NPVs of `BuyFlows` and `LeaseFlows` at the discount rate and the IRR of the buying flows |
| `BuyVsLease.SaleAddsDiscountedValue` | Buy-vs-Lease/BLTool_Test.py:37-47 | realising the sale raises the buying NPV by the future value divided by `(1 + d/100)^lease_term` |
| `BuyVsLease.BeforeSaleNpv` | Buy-vs-Lease/BLTool_Test.py:42-46 | before the sale, the buying NPV is `-down_payment + yearly * annuity / (1 + d/100)` |
| `BuyVsLease.OutlayThenLevelAtPercent` | Buy-vs-Lease/BLTool_Test.py:18-19 | for a rate in percent, an outlay followed by `n` equal flows has NPV `outlay + x * annuity(d/100) / (1 + d/100)` |
| `BuyVsLease.BuyNpvClosedForm` | Buy-vs-Lease/BLTool_Test.py:59 | the buying NPV equals the down payment in full, plus the yearly flows discounted from the first year on, plus the discounted sale value |
| `BuyVsLease.LeaseNpvClosedForm` | Buy-vs-Lease/BLTool_Test.py:60 | the leasing NPV is the net lease flow times the annuity factor, with the first lease year at exponent 0 |
| `BuyVsLease.LeaseNpvNonDecreasing` | Buy-vs-Lease/BLTool_Test.py:51-60 | for a non-negative lease payment and a tax rate in [0, 100], a higher discount rate (above -100%) never lowers the leasing NPV |
| `BuyVsLease.UndiscountedTotals` | Buy-vs-Lease/BLTool_Test.py:59-60 | at a 0% discount rate the NPVs are `-down + lease_term*yearly + future value` and `lease_term * net lease flow` |
| `BuyVsLease.Recommend` | Buy-vs-Lease/BLTool_Test.py:95-100 | buying is favoured if and only if its NPV is larger, leasing if and only if its NPV is larger, and "equally advantageous" if and only if the two are equal |

## Left out

- The Streamlit interface (Buy-vs-Lease/BLTool_Test.py:65-93, 102): input widgets, currency and percent formatting,
  the success and warning messages. The recommendation text is modelled as the `Recommendation` value.
- BLTool.py is not part of this model. It reads its inputs with `input()` and prints its results. Its payment, NPV
  and IRR come from `numpy_financial` calls. Its cash-flow loops repeat the ones modelled here.
- `total_lease_payments` (Buy-vs-Lease/BLTool_Test.py:50) is computed but never read, so it is not modelled.
- Floating point: rounding, overflow, NaN and infinities are not modelled. All arithmetic is on exact reals.
- CalculateIrr: scipy's `brentq` is not modelled. The solver is a parameter (`solve`) whose outcome is taken as
  given. Nothing is claimed about the root, in particular not that it makes the NPV zero.
- CalculateNpv: requires a discount rate other than -100%. At -100% numpy divides by `0^i` and produces infinities
  or NaN rather than raising, and that is outside exact reals. `NpvFunc` likewise requires a rate other than -1.
- BuyVsLeaseAnalysis: requires a discount rate other than -100%, for the same reason.
- MortgageDefinedIff: stated only for rates of at least 0, the range the input form accepts. At -2400%, `(1 + m)^n`
  is 1 too, for every term.
- MortgagePaymentAmortizes: stated for positive rates only, the part of the form's range where the formula is
  defined. The same identity holds for every rate where the formula succeeds.
- TotalInterestIsInterestPaid: stated for positive rates only, for the same reason.
- Negative lease or mortgage terms are not modelled. Both terms are natural numbers. A zero mortgage term makes the
  mortgage formula fail. A zero lease term gives a one-entry buying sequence holding `-down_payment` plus the
  property value, and an empty leasing sequence, as in the code.
