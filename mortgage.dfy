/**
 * The mortgage helpers of the calculator: the level-payment amortisation formula,
 * total interest as total paid minus the loan, and the flat-rate tax benefit.
 * A month-by-month loan balance is defined beside them as the reference the
 * formula is proved against.
 */
module Mortgage {
  import opened Wrappers
  import opened Power

  /** The formula divides by (1 + monthly rate)^n - 1; a zero divisor raises in the Python code. */
  datatype Fault = DivisionByZero

  function LoanAmount(propertyValue: real, downPayment: real): real
  {
    propertyValue - downPayment
  }

  /** The annual percentage rate turned into a monthly fraction. */
  function MonthlyRate(interestRate: real): real
  {
    interestRate / 12.0 / 100.0
  }

  function PaymentCount(mortgageTerm: nat): nat
  {
    mortgageTerm * 12
  }

  /** (1 + monthly rate) raised to the number of monthly payments. */
  function Growth(interestRate: real, mortgageTerm: nat): real
  {
    Pow(1.0 + MonthlyRate(interestRate), PaymentCount(mortgageTerm))
  }

  /**
   * The monthly payment of a level-payment mortgage. Fails exactly when the
   * growth factor is one, which happens at a zero rate or with no payments.
   */
  function CalculateMortgage(propertyValue: real, downPayment: real, interestRate: real, mortgageTerm: nat)
    : (r: Result<real, Fault>)
    ensures r.Failure? <==> Growth(interestRate, mortgageTerm) == 1.0
    ensures r.Success? ==> interestRate != 0.0 && mortgageTerm >= 1
  {
    var loan := LoanAmount(propertyValue, downPayment);
    var m := MonthlyRate(interestRate);
    var g := Growth(interestRate, mortgageTerm);
    if g - 1.0 == 0.0 then Failure(DivisionByZero)
    else Success(LevelPayment(loan, m, g))
  }

  /** loan * (m * g) / (g - 1): the amortisation formula with the growth factor g given. */
  function LevelPayment(loan: real, m: real, g: real): real
    requires g != 1.0
  {
    loan * (m * g) / (g - 1.0)
  }

  /** Total of all monthly payments minus the amount borrowed. */
  function TotalInterest(monthlyPayment: real, mortgageTerm: nat, propertyValue: real, downPayment: real): real
  {
    var totalPaid := monthlyPayment * (mortgageTerm as real) * 12.0;
    totalPaid - (propertyValue - downPayment)
  }

  /** The flat-percentage tax saving on a deductible amount. */
  function TaxBenefit(deductibleAmount: real, taxRate: real): (r: real)
    ensures taxRate == 0.0 ==> r == 0.0
    ensures 0.0 <= deductibleAmount && 0.0 <= taxRate <= 100.0 ==> 0.0 <= r <= deductibleAmount
  {
    deductibleAmount * taxRate / 100.0
  }

  lemma TaxBenefitLinear(a: real, b: real, c: real, taxRate: real)
    ensures TaxBenefit(a + b, taxRate) == TaxBenefit(a, taxRate) + TaxBenefit(b, taxRate)
    ensures TaxBenefit(c * a, taxRate) == c * TaxBenefit(a, taxRate)
  {
  }

  /** The amount still owed after k monthly payments, interest accruing at m per month. */
  function Balance(loan: real, m: real, payment: real, k: nat): real
  {
    if k == 0 then loan else Balance(loan, m, payment, k - 1) * (1.0 + m) - payment
  }

  /** The interest charged over the first k months: each month's balance times m. */
  function InterestPaid(loan: real, m: real, payment: real, k: nat): real
  {
    if k == 0 then 0.0 else InterestPaid(loan, m, payment, k - 1) + Balance(loan, m, payment, k - 1) * m
  }

  /** What k payments of one are worth at month k, each accruing at m per month after it is made. */
  function Accrued(m: real, k: nat): real
  {
    if k == 0 then 0.0 else Accrued(m, k - 1) * (1.0 + m) + 1.0
  }

  /** The balance is the loan grown for k months less the grown payments. */
  lemma {:induction false} BalanceAsAccrued(loan: real, m: real, payment: real, k: nat)
    ensures Balance(loan, m, payment, k) == loan * Pow(1.0 + m, k) - payment * Accrued(m, k)
    decreases k
  {
    if k > 0 {
      BalanceAsAccrued(loan, m, payment, k - 1);
      BalanceAsAccruedStep(loan, m, payment, k);
    }
  }

  /** BalanceAsAccrued carried from month k - 1 to month k. */
  lemma BalanceAsAccruedStep(loan: real, m: real, payment: real, k: nat)
    requires k > 0
    requires Balance(loan, m, payment, k - 1) == loan * Pow(1.0 + m, k - 1) - payment * Accrued(m, k - 1)
    ensures Balance(loan, m, payment, k) == loan * Pow(1.0 + m, k) - payment * Accrued(m, k)
  {
    BalanceStep(loan, m, payment,
                Balance(loan, m, payment, k - 1), Pow(1.0 + m, k - 1), Accrued(m, k - 1),
                Balance(loan, m, payment, k), Pow(1.0 + m, k), Accrued(m, k));
  }

  /**
   * One month of BalanceAsAccrued over plain numbers: b, g and a are the balance,
   * growth and accrued payments before it, b', g' and a' after it.
   */
  lemma BalanceStep(loan: real, m: real, payment: real, b: real, g: real, a: real, b': real, g': real, a': real)
    requires b == loan * g - payment * a && b' == b * (1.0 + m) - payment
          && g' == (1.0 + m) * g && a' == a * (1.0 + m) + 1.0
    ensures b' == loan * g' - payment * a'
  {
  }

  /** Accrued payments times m are the growth factor less one. */
  lemma {:induction false} AccruedTimesRate(m: real, k: nat)
    ensures Accrued(m, k) * m == Pow(1.0 + m, k) - 1.0
    decreases k
  {
    if k > 0 {
      AccruedTimesRate(m, k - 1);
      AccruedTimesRateStep(m, k);
    }
  }

  /** AccruedTimesRate carried from month k - 1 to month k. */
  lemma AccruedTimesRateStep(m: real, k: nat)
    requires k > 0
    requires Accrued(m, k - 1) * m == Pow(1.0 + m, k - 1) - 1.0
    ensures Accrued(m, k) * m == Pow(1.0 + m, k) - 1.0
  {
    AccruedStep(m, Accrued(m, k - 1), Pow(1.0 + m, k - 1), Accrued(m, k), Pow(1.0 + m, k));
  }

  /** One month of AccruedTimesRate over plain numbers. */
  lemma AccruedStep(m: real, a: real, g: real, a': real, g': real)
    requires a * m == g - 1.0 && a' == a * (1.0 + m) + 1.0 && g' == (1.0 + m) * g
    ensures a' * m == g' - 1.0
  {
    assert a' * m == (1.0 + m) * (a * m) + m;
  }

  /** The balance times m in closed form: the identity the payment formula solves at k = n. */
  lemma BalanceClosedForm(loan: real, m: real, payment: real, k: nat)
    ensures Balance(loan, m, payment, k) * m
         == loan * m * Pow(1.0 + m, k) - payment * (Pow(1.0 + m, k) - 1.0)
  {
    BalanceAsAccrued(loan, m, payment, k);
    AccruedTimesRate(m, k);
    ClosedFormStep(loan, m, payment, Pow(1.0 + m, k), Accrued(m, k));
  }

  lemma ClosedFormStep(loan: real, m: real, payment: real, g: real, a: real)
    requires a * m == g - 1.0
    ensures (loan * g - payment * a) * m == loan * m * g - payment * (g - 1.0)
  {
    assert (loan * g - payment * a) * m == loan * m * g - payment * (a * m);
  }

  lemma {:induction false} InterestPaidClosedForm(loan: real, m: real, payment: real, k: nat)
    ensures InterestPaid(loan, m, payment, k) == (k as real) * payment - (loan - Balance(loan, m, payment, k))
    decreases k
  {
    if k > 0 {
      InterestPaidClosedForm(loan, m, payment, k - 1);
    }
  }

  /** Over the calculator's input range, the formula is defined exactly for a positive rate and term. */
  lemma MortgageDefinedIff(propertyValue: real, downPayment: real, interestRate: real, mortgageTerm: nat)
    requires interestRate >= 0.0
    ensures CalculateMortgage(propertyValue, downPayment, interestRate, mortgageTerm).Success?
        <==> interestRate > 0.0 && mortgageTerm >= 1
  {
    if interestRate > 0.0 && mortgageTerm >= 1 {
      PowAboveOne(1.0 + MonthlyRate(interestRate), PaymentCount(mortgageTerm));
    }
  }

  /**
   * The formula's payment is the one level payment that leaves nothing owed
   * after the last month.
   */
  lemma MortgagePaymentAmortizes(propertyValue: real, downPayment: real, interestRate: real, mortgageTerm: nat,
                                 payment: real)
    requires interestRate > 0.0 && mortgageTerm >= 1
    ensures CalculateMortgage(propertyValue, downPayment, interestRate, mortgageTerm).Success?
    ensures Balance(LoanAmount(propertyValue, downPayment), MonthlyRate(interestRate), payment,
                    PaymentCount(mortgageTerm)) == 0.0
        <==> payment == CalculateMortgage(propertyValue, downPayment, interestRate, mortgageTerm).value
  {
    MortgageDefinedIff(propertyValue, downPayment, interestRate, mortgageTerm);
    var loan, m, n := LoanAmount(propertyValue, downPayment), MonthlyRate(interestRate), PaymentCount(mortgageTerm);
    var g := Growth(interestRate, mortgageTerm);
    var r := CalculateMortgage(propertyValue, downPayment, interestRate, mortgageTerm);
    assert g != 1.0 && interestRate != 0.0;
    assert m != 0.0;
    assert r.value == LevelPayment(loan, m, g);
    assert g == Pow(1.0 + m, n);
    BalanceClosedForm(loan, m, payment, n);
    ClearedIffFormula(loan, m, g, payment, Balance(loan, m, payment, n));
  }

  /** The algebra behind MortgagePaymentAmortizes, over plain numbers. */
  lemma ClearedIffFormula(loan: real, m: real, g: real, payment: real, bal: real)
    requires m != 0.0 && g != 1.0
    requires bal * m == loan * m * g - payment * (g - 1.0)
    ensures bal == 0.0 <==> payment == LevelPayment(loan, m, g)
  {
    var formula := LevelPayment(loan, m, g);
    assert formula * (g - 1.0) == loan * m * g;
    if bal == 0.0 {
      assert payment * (g - 1.0) == formula * (g - 1.0);
      CancelFactor(payment, formula, g - 1.0);
    }
    if payment == formula {
      assert bal * m == 0.0;
    }
  }

  lemma CancelFactor(x: real, y: real, c: real)
    requires c != 0.0 && x * c == y * c
    ensures x == y
  {
    assert (x - y) * c == 0.0;
  }

  /**
   * Total interest as the calculator computes it equals the interest the
   * amortisation schedule actually charges, month by month.
   */
  lemma TotalInterestIsInterestPaid(propertyValue: real, downPayment: real, interestRate: real, mortgageTerm: nat)
    requires interestRate > 0.0 && mortgageTerm >= 1
    ensures CalculateMortgage(propertyValue, downPayment, interestRate, mortgageTerm).Success?
    ensures (var payment := CalculateMortgage(propertyValue, downPayment, interestRate, mortgageTerm).value;
             TotalInterest(payment, mortgageTerm, propertyValue, downPayment)
             == InterestPaid(LoanAmount(propertyValue, downPayment), MonthlyRate(interestRate), payment,
                             PaymentCount(mortgageTerm)))
  {
    MortgageDefinedIff(propertyValue, downPayment, interestRate, mortgageTerm);
    var payment := CalculateMortgage(propertyValue, downPayment, interestRate, mortgageTerm).value;
    var loan, m, n := LoanAmount(propertyValue, downPayment), MonthlyRate(interestRate), PaymentCount(mortgageTerm);
    MortgagePaymentAmortizes(propertyValue, downPayment, interestRate, mortgageTerm, payment);
    InterestPaidClosedForm(loan, m, payment, n);
    assert (n as real) == (mortgageTerm as real) * 12.0;
  }

  /** With a positive rate and a non-negative loan, the payments never total less than the loan. */
  lemma TotalInterestNonNegative(propertyValue: real, downPayment: real, interestRate: real, mortgageTerm: nat)
    requires interestRate > 0.0 && mortgageTerm >= 1 && propertyValue >= downPayment
    ensures CalculateMortgage(propertyValue, downPayment, interestRate, mortgageTerm).Success?
    ensures TotalInterest(CalculateMortgage(propertyValue, downPayment, interestRate, mortgageTerm).value,
                          mortgageTerm, propertyValue, downPayment) >= 0.0
  {
    MortgageDefinedIff(propertyValue, downPayment, interestRate, mortgageTerm);
    var loan, m, n := LoanAmount(propertyValue, downPayment), MonthlyRate(interestRate), PaymentCount(mortgageTerm);
    var g := Growth(interestRate, mortgageTerm);
    assert g == Pow(1.0 + m, n);
    PowAboveOne(1.0 + m, n);
    PowGrowthBound(1.0 + m, n);
    assert (n as real) * (1.0 + m - 1.0) * g == (n as real) * m * g;
    var payment := CalculateMortgage(propertyValue, downPayment, interestRate, mortgageTerm).value;
    assert payment == LevelPayment(loan, m, g);
    PaymentsCoverLoan(loan, m, g, n as real);
    assert (n as real) == (mortgageTerm as real) * 12.0;
    assert payment * (mortgageTerm as real) * 12.0 == (n as real) * payment;
  }

  /** The algebra behind TotalInterestNonNegative, over plain numbers. */
  lemma PaymentsCoverLoan(loan: real, m: real, g: real, n: real)
    requires loan >= 0.0 && g > 1.0
    requires g - 1.0 <= n * m * g
    ensures n * LevelPayment(loan, m, g) >= loan
  {
    var q := (m * g) / (g - 1.0);
    DivideLe(g - 1.0, n * (m * g), g - 1.0);
    MulDivAssoc(n, m * g, g - 1.0);
    assert n * q >= 1.0;
    MulDivAssoc(loan, m * g, g - 1.0);
    ScaleLe(loan, 1.0, n * q);
  }

  lemma DivideLe(x: real, y: real, c: real)
    requires c > 0.0 && x <= y
    ensures x / c <= y / c
  {
  }

  lemma MulDivAssoc(a: real, b: real, c: real)
    requires c != 0.0
    ensures a * b / c == a * (b / c)
  {
  }
}
