/**
 * The buy-versus-lease comparison: the yearly cash flows of buying and of
 * leasing over the lease horizon, their NPVs, the IRR of buying, and the
 * three-way recommendation drawn from the two NPVs.
 */
module BuyVsLease {
  import opened Wrappers
  import opened Power
  import opened Mortgage
  import opened Valuation

  /** The calculator's inputs; rates are percentages, terms are whole years. */
  datatype Inputs = Inputs(
    propertyValue: real,
    leaseTerm: nat,
    annualLeasePayment: real,
    downPayment: real,
    interestRate: real,
    mortgageTerm: nat,
    appreciationRate: real,
    taxRate: real,
    maintenanceRate: real,
    insuranceRate: real,
    discountRate: real)

  /** The property's value at the end of the lease horizon, compounding the appreciation yearly. */
  function FutureValue(p: Inputs): real
  {
    p.propertyValue * Pow(1.0 + p.appreciationRate / 100.0, p.leaseTerm)
  }

  function AnnualMaintenance(p: Inputs): real
  {
    p.propertyValue * p.maintenanceRate / 100.0
  }

  function AnnualInsurance(p: Inputs): real
  {
    p.propertyValue * p.insuranceRate / 100.0
  }

  /**
   * The net cash flow of one year of owning: mortgage payments, maintenance and
   * insurance paid out, less the tax saved on an even share of the total
   * interest plus maintenance and insurance.
   */
  function YearlyBuyFlow(p: Inputs, monthlyMortgage: real, totalInterest: real): real
    requires p.mortgageTerm >= 1
  {
    var annualCosts := monthlyMortgage * 12.0 + AnnualMaintenance(p) + AnnualInsurance(p);
    var deductible := totalInterest / (p.mortgageTerm as real) + AnnualMaintenance(p) + AnnualInsurance(p);
    -annualCosts + TaxBenefit(deductible, p.taxRate)
  }

  /** The net cash flow of one year of leasing: the payment less its tax saving. */
  function YearlyLeaseFlow(p: Inputs): (r: real)
    ensures 0.0 <= p.annualLeasePayment && 0.0 <= p.taxRate <= 100.0 ==> -p.annualLeasePayment <= r <= 0.0
    ensures p.taxRate == 0.0 ==> r == -p.annualLeasePayment
  {
    -p.annualLeasePayment + TaxBenefit(p.annualLeasePayment, p.taxRate)
  }

  /** The buying flows before the sale: the down payment at index 0, then one yearly flow per lease year. */
  function BuyFlowsBeforeSale(p: Inputs, monthlyMortgage: real, totalInterest: real): (cf: seq<real>)
    requires p.mortgageTerm >= 1
    ensures |cf| == p.leaseTerm + 1
    ensures cf[0] == -p.downPayment
    ensures forall i :: 1 <= i <= p.leaseTerm ==> cf[i] == YearlyBuyFlow(p, monthlyMortgage, totalInterest)
  {
    [-p.downPayment] + Level(YearlyBuyFlow(p, monthlyMortgage, totalInterest), p.leaseTerm)
  }

  /** The buying flows: the property's future value is realised in the last entry only. */
  function BuyFlows(p: Inputs, monthlyMortgage: real, totalInterest: real): (cf: seq<real>)
    requires p.mortgageTerm >= 1
    ensures |cf| == p.leaseTerm + 1
    ensures forall i :: 0 <= i < p.leaseTerm ==> cf[i] == BuyFlowsBeforeSale(p, monthlyMortgage, totalInterest)[i]
    ensures cf[p.leaseTerm] == BuyFlowsBeforeSale(p, monthlyMortgage, totalInterest)[p.leaseTerm] + FutureValue(p)
  {
    var before := BuyFlowsBeforeSale(p, monthlyMortgage, totalInterest);
    before[p.leaseTerm := before[p.leaseTerm] + FutureValue(p)]
  }

  /** The leasing flows: one net lease flow per lease year and no outlay at index 0. */
  function LeaseFlows(p: Inputs): (cf: seq<real>)
    ensures |cf| == p.leaseTerm
    ensures forall i :: 0 <= i < p.leaseTerm ==> cf[i] == YearlyLeaseFlow(p)
  {
    Level(YearlyLeaseFlow(p), p.leaseTerm)
  }

  /** Builds the buying flows year by year, then adds the sale value to the last entry in place. */
  method ProjectBuyFlows(p: Inputs, monthlyMortgage: real, totalInterest: real) returns (cashFlows: seq<real>)
    requires p.mortgageTerm >= 1
    ensures cashFlows == BuyFlows(p, monthlyMortgage, totalInterest)
  {
    var futureValue := FutureValue(p);
    var maintenance := AnnualMaintenance(p);
    var insurance := AnnualInsurance(p);
    cashFlows := [-p.downPayment];
    for year := 1 to p.leaseTerm + 1
      invariant cashFlows == [-p.downPayment] + Level(YearlyBuyFlow(p, monthlyMortgage, totalInterest), year - 1)
    {
      var annualCosts := monthlyMortgage * 12.0 + maintenance + insurance;
      var taxBenefits := TaxBenefit(totalInterest / (p.mortgageTerm as real) + maintenance + insurance, p.taxRate);
      cashFlows := cashFlows + [-annualCosts + taxBenefits];
    }
    cashFlows := cashFlows[|cashFlows| - 1 := cashFlows[|cashFlows| - 1] + futureValue];
  }

  /** Builds the leasing flows year by year. */
  method ProjectLeaseFlows(p: Inputs) returns (cashFlows: seq<real>)
    ensures cashFlows == LeaseFlows(p)
  {
    var taxBenefitsLeasing := TaxBenefit(p.annualLeasePayment, p.taxRate);
    cashFlows := [];
    for year := 1 to p.leaseTerm + 1
      invariant cashFlows == Level(YearlyLeaseFlow(p), year - 1)
    {
      cashFlows := cashFlows + [-p.annualLeasePayment + taxBenefitsLeasing];
    }
  }

  /** What the analysis reports: both NPVs and the IRR of buying, when it could be found. */
  datatype Report = Report(npvBuying: real, npvLeasing: real, irrBuying: Option<real>)

  /**
   * The full analysis. It fails exactly when the mortgage formula divides by
   * zero; the root-finder is given as `solve`.
   */
  method BuyVsLeaseAnalysis(p: Inputs, solve: seq<real> -> RootFinding) returns (r: Result<Report, Fault>)
    requires p.discountRate != -100.0
    ensures r.Failure? <==> CalculateMortgage(p.propertyValue, p.downPayment, p.interestRate, p.mortgageTerm).Failure?
    ensures r.Success? ==>
      (var monthlyMortgage := CalculateMortgage(p.propertyValue, p.downPayment, p.interestRate, p.mortgageTerm).value;
       var buying := BuyFlows(p, monthlyMortgage, TotalInterest(monthlyMortgage, p.mortgageTerm, p.propertyValue, p.downPayment));
       r.value == Report(CalculateNpv(buying, p.discountRate),
                         CalculateNpv(LeaseFlows(p), p.discountRate),
                         CalculateIrr(solve(buying))))
  {
    var mortgage := CalculateMortgage(p.propertyValue, p.downPayment, p.interestRate, p.mortgageTerm);
    if mortgage.Failure? {
      return Failure(mortgage.error);
    }
    var monthlyMortgage := mortgage.value;
    var totalInterest := TotalInterest(monthlyMortgage, p.mortgageTerm, p.propertyValue, p.downPayment);
    var cashFlowsBuying := ProjectBuyFlows(p, monthlyMortgage, totalInterest);
    var cashFlowsLeasing := ProjectLeaseFlows(p);
    var npvBuying := CalculateNpv(cashFlowsBuying, p.discountRate);
    var npvLeasing := CalculateNpv(cashFlowsLeasing, p.discountRate);
    var irrBuying := CalculateIrr(solve(cashFlowsBuying));
    r := Success(Report(npvBuying, npvLeasing, irrBuying));
  }

  /** Realising the sale in the last entry adds exactly its value discounted over the horizon. */
  lemma SaleAddsDiscountedValue(p: Inputs, monthlyMortgage: real, totalInterest: real)
    requires p.mortgageTerm >= 1 && p.discountRate != -100.0
    ensures CalculateNpv(BuyFlows(p, monthlyMortgage, totalInterest), p.discountRate)
            == CalculateNpv(BuyFlowsBeforeSale(p, monthlyMortgage, totalInterest), p.discountRate)
               + FutureValue(p) / Pow(1.0 + p.discountRate / 100.0, p.leaseTerm)
  {
    var before := BuyFlowsBeforeSale(p, monthlyMortgage, totalInterest);
    assert BuyFlows(p, monthlyMortgage, totalInterest) == before[p.leaseTerm := before[p.leaseTerm] + FutureValue(p)];
    DiscountedSumBump(before, p.leaseTerm, FutureValue(p), 1.0 + p.discountRate / 100.0);
  }

  /** Before the sale, the down payment counts in full and the yearly flows start one period out. */
  lemma BeforeSaleNpv(p: Inputs, monthlyMortgage: real, totalInterest: real)
    requires p.mortgageTerm >= 1 && p.discountRate != -100.0
    ensures CalculateNpv(BuyFlowsBeforeSale(p, monthlyMortgage, totalInterest), p.discountRate)
            == -p.downPayment
               + YearlyBuyFlow(p, monthlyMortgage, totalInterest) * AnnuityFactor(p.discountRate / 100.0, p.leaseTerm)
                 / (1.0 + p.discountRate / 100.0)
  {
    OutlayThenLevelAtPercent(p.discountRate, BuyFlowsBeforeSale(p, monthlyMortgage, totalInterest),
                             -p.downPayment, YearlyBuyFlow(p, monthlyMortgage, totalInterest), p.leaseTerm);
  }

  /** NpvOfOutlayThenLevel restated for a rate given in percent. */
  lemma OutlayThenLevelAtPercent(discountRate: real, cf: seq<real>, outlay: real, yearly: real, n: nat)
    requires discountRate != -100.0 && cf == [outlay] + Level(yearly, n)
    ensures CalculateNpv(cf, discountRate)
            == outlay + yearly * AnnuityFactor(discountRate / 100.0, n) / (1.0 + discountRate / 100.0)
  {
    NpvOfOutlayThenLevel(discountRate / 100.0, outlay, yearly, n);
  }

  /**
   * The NPV of buying in closed form: the down payment in full, the level
   * yearly flows discounted from the first year on, and the sale value
   * discounted over the whole horizon.
   */
  lemma BuyNpvClosedForm(p: Inputs, monthlyMortgage: real, totalInterest: real)
    requires p.mortgageTerm >= 1 && p.discountRate != -100.0
    ensures (var rate := p.discountRate / 100.0;
             CalculateNpv(BuyFlows(p, monthlyMortgage, totalInterest), p.discountRate)
             == -p.downPayment
                + YearlyBuyFlow(p, monthlyMortgage, totalInterest) * AnnuityFactor(rate, p.leaseTerm) / (1.0 + rate)
                + FutureValue(p) / Pow(1.0 + rate, p.leaseTerm))
  {
    SaleAddsDiscountedValue(p, monthlyMortgage, totalInterest);
    BeforeSaleNpv(p, monthlyMortgage, totalInterest);
  }

  /** The NPV of leasing in closed form: the first lease year sits at exponent 0. */
  lemma LeaseNpvClosedForm(p: Inputs)
    requires p.discountRate != -100.0
    ensures CalculateNpv(LeaseFlows(p), p.discountRate)
            == YearlyLeaseFlow(p) * AnnuityFactor(p.discountRate / 100.0, p.leaseTerm)
  {
    NpvOfLevelFlows(p.discountRate / 100.0, YearlyLeaseFlow(p), p.leaseTerm);
  }

  /**
   * Leasing only costs money, so a higher discount rate never lowers its NPV:
   * the later payments weigh less.
   */
  lemma LeaseNpvNonDecreasing(p: Inputs, d1: real, d2: real)
    requires 0.0 <= p.annualLeasePayment && 0.0 <= p.taxRate <= 100.0
    requires -100.0 < d1 <= d2
    ensures CalculateNpv(LeaseFlows(p), d1) <= CalculateNpv(LeaseFlows(p), d2)
  {
    NpvNonDecreasing(LeaseFlows(p), d1 / 100.0, d2 / 100.0);
  }

  /** With a zero discount rate the NPVs are the plain totals over the horizon. */
  lemma UndiscountedTotals(p: Inputs, monthlyMortgage: real, totalInterest: real)
    requires p.mortgageTerm >= 1 && p.discountRate == 0.0
    ensures CalculateNpv(BuyFlows(p, monthlyMortgage, totalInterest), p.discountRate)
            == -p.downPayment + (p.leaseTerm as real) * YearlyBuyFlow(p, monthlyMortgage, totalInterest) + FutureValue(p)
    ensures CalculateNpv(LeaseFlows(p), p.discountRate) == (p.leaseTerm as real) * YearlyLeaseFlow(p)
  {
    BuyNpvClosedForm(p, monthlyMortgage, totalInterest);
    LeaseNpvClosedForm(p);
    AnnuityFactorAtZeroRate(p.leaseTerm);
  }

  datatype Recommendation = BuyingFavoured | LeasingFavoured | EquallyAdvantageous

  /** The recommendation drawn from the two NPVs: exactly one of three outcomes. */
  function Recommend(npvBuying: real, npvLeasing: real): (r: Recommendation)
    ensures r == BuyingFavoured <==> npvBuying > npvLeasing
    ensures r == LeasingFavoured <==> npvLeasing > npvBuying
    ensures r == EquallyAdvantageous <==> npvBuying == npvLeasing
  {
    if npvBuying > npvLeasing then BuyingFavoured
    else if npvLeasing > npvBuying then LeasingFavoured
    else EquallyAdvantageous
  }
}
