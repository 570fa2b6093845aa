/** What a home costs a household up front and each month, and how affordable
    that is rated. */
module Affordability {
  import opened Prelude
  import opened Money
  import Annuity
  import opened HousingGrant

  datatype Rating = Comfortable | Manageable | Tight | Risky | NotRecommended

  datatype Assets = Assets(cashSavings: int, cpfOA: int, takeHome: int, expenses: int)

  datatype Result = Affordability(
    id: string,
    netPrice: int,
    downpayment: int,
    initialDownpayment: int,
    finalDownpayment: int,
    upfront: int,
    loan: int,
    mortgage: int,
    cpfUsed: int,
    cashTopUp: int,
    remainingCash: int,
    remainingOA: int,
    housingCost: int,
    surplus: int,
    rating: Rating)

  function InitialDownpayment(o: HousingOption, required: int): int {
    if required <= 0 then 0
    else if o.loanType.CashLoan? then required
    else
      var initial := CentsByBps(Max(o.price, 0), if IsDeferred(o) then 250 else 500);
      if initial <= 0 then required else Min(initial, required)
  }

  function RatingOf(housingCost: int, takeHome: int, surplus: int): Rating {
    if takeHome <= 0 || surplus < 0 then NotRecommended
    else
      var ratioBps := Quo(housingCost * 10000, takeHome);
      if ratioBps <= 2500 then Comfortable
      else if ratioBps <= 3500 then Manageable
      else if ratioBps <= 4500 then Tight
      else if ratioBps <= 5500 then Risky
      else NotRecommended
  }

  function NetPrice(o: HousingOption): int { Max(o.price - o.grant, 0) }

  function Downpayment(o: HousingOption): int { CentsByBps(NetPrice(o), o.downpaymentBps) }

  function Loan(o: HousingOption): int {
    if o.loanAmount <= 0 then Max(NetPrice(o) - Downpayment(o), 0) else o.loanAmount
  }

  function Calculate(o: HousingOption, a: Assets): Result {
    var downpayment := Downpayment(o);
    var initial := InitialDownpayment(o, downpayment);
    var upfront := downpayment + o.legalFees + o.stampDuty;
    var mortgage := Annuity.MonthlyPayment(Loan(o), o.interestBps, o.tenureMonths);
    var cpfUsed := Min(a.cpfOA, downpayment);
    var cashTopUp := Max(upfront - cpfUsed, 0);
    var housingCost := mortgage + o.maintenance;
    var surplus := a.takeHome - a.expenses - housingCost;
    Affordability(
      o.id, NetPrice(o), downpayment, initial, Max(downpayment - initial, 0), upfront, Loan(o), mortgage,
      cpfUsed, cashTopUp, a.cashSavings - cashTopUp, a.cpfOA - cpfUsed, housingCost, surplus,
      RatingOf(housingCost, a.takeHome, surplus))
  }

  // ---- what each figure is ----

  lemma InitialCases(o: HousingOption, required: int)
    ensures var initial := InitialDownpayment(o, required);
      && (required <= 0 ==> initial == 0)
      && (required > 0 && o.loanType.CashLoan? ==> initial == required)
      && (required > 0 && !o.loanType.CashLoan? && o.price <= 0 ==> initial == required)
  {
    hide IsDeferred;
    QuoBounds(0, 10000);
  }

  /** Each figure from the option and the assets alone.  Shares are cut down to
      whole cents; the grant cannot make the price negative; a loan amount given
      is the loan, otherwise it is what the downpayment leaves; CPF pays as much
      of the downpayment as it can and cash the rest of the upfront cost. */
  lemma CalculationMeans(o: HousingOption, a: Assets)
    ensures var x := Calculate(o, a);
      && x.id == o.id
      && x.netPrice == (if o.price > o.grant then o.price - o.grant else 0)
      && (o.downpaymentBps >= 0 ==>
            x.downpayment * 10000 <= x.netPrice * o.downpaymentBps < (x.downpayment + 1) * 10000)
      && (o.downpaymentBps <= 0 ==>
            (x.downpayment - 1) * 10000 < x.netPrice * o.downpaymentBps <= x.downpayment * 10000)
      && (x.downpayment <= 0 ==> x.initialDownpayment == 0)
      && (x.downpayment > 0 && (o.loanType.CashLoan? || o.price <= 0) ==> x.initialDownpayment == x.downpayment)
      && x.finalDownpayment == (if x.downpayment > x.initialDownpayment then x.downpayment - x.initialDownpayment else 0)
      && x.upfront == x.downpayment + o.legalFees + o.stampDuty
      && (o.loanAmount > 0 ==> x.loan == o.loanAmount)
      && (o.loanAmount <= 0 ==> x.loan == if x.netPrice > x.downpayment then x.netPrice - x.downpayment else 0)
      && x.mortgage == Annuity.MonthlyPayment(x.loan, o.interestBps, o.tenureMonths)
      && x.cpfUsed <= a.cpfOA && x.cpfUsed <= x.downpayment && (x.cpfUsed == a.cpfOA || x.cpfUsed == x.downpayment)
      && x.cashTopUp == (if x.upfront > x.cpfUsed then x.upfront - x.cpfUsed else 0)
      && x.remainingCash == a.cashSavings - x.cashTopUp && x.remainingOA == a.cpfOA - x.cpfUsed
      && x.housingCost == x.mortgage + o.maintenance
      && x.surplus == a.takeHome - a.expenses - x.housingCost
  {
    hide Annuity.MonthlyPayment, RatingOf, InitialDownpayment, Quo;
    InitialCases(o, Downpayment(o));
    ShareBounds(NetPrice(o), o.downpaymentBps);
  }

  lemma ShareBounds(cents: int, bps: int)
    requires cents >= 0
    ensures bps >= 0 ==> CentsByBps(cents, bps) * 10000 <= cents * bps < (CentsByBps(cents, bps) + 1) * 10000
    ensures bps <= 0 ==> (CentsByBps(cents, bps) - 1) * 10000 < cents * bps <= CentsByBps(cents, bps) * 10000
  {
    hide Quo;
    if bps >= 0 { TimesMonotone(0, bps, cents); } else { TimesMonotone(bps, 0, cents); }
    QuoBounds(cents * bps, 10000);
  }

  /** The five ratings as bands of the monthly cost against take-home pay. */
  lemma RatingBands(o: HousingOption, a: Assets)
    ensures var x := Calculate(o, a);
      var share, pay := x.housingCost * 10000, a.takeHome;
      && (pay <= 0 || x.surplus < 0 ==> x.rating == NotRecommended)
      && (pay > 0 && x.surplus >= 0 ==>
            && (x.rating.Comfortable? <==> share < 2501 * pay)
            && (x.rating.Manageable? <==> 2501 * pay <= share < 3501 * pay)
            && (x.rating.Tight? <==> 3501 * pay <= share < 4501 * pay)
            && (x.rating.Risky? <==> 4501 * pay <= share < 5501 * pay)
            && (x.rating.NotRecommended? <==> 5501 * pay <= share))
  {
    hide Annuity.MonthlyPayment, InitialDownpayment, Quo, NetPrice, Downpayment, Loan;
    var x := Calculate(o, a);
    if a.takeHome > 0 {
      RatioWithin(x.housingCost * 10000, a.takeHome, 2500);
      RatioWithin(x.housingCost * 10000, a.takeHome, 3500);
      RatioWithin(x.housingCost * 10000, a.takeHome, 4500);
      RatioWithin(x.housingCost * 10000, a.takeHome, 5500);
    }
  }

  // ---- a dearer home is never more affordable ----

  // The same home at a higher price or with a smaller grant.
  ghost predicate Dearer(o: HousingOption, d: HousingOption) {
    d == o.(price := d.price, grant := d.grant) && o.price <= d.price && d.grant <= o.grant
  }

  function Rank(r: Rating): int {
    match r
    case Comfortable => 0
    case Manageable => 1
    case Tight => 2
    case Risky => 3
    case NotRecommended => 4
  }

  lemma RatingWorsens(cost: int, dearer: int, takeHome: int, surplus: int, smaller: int)
    requires cost <= dearer && smaller <= surplus
    ensures Rank(RatingOf(cost, takeHome, surplus)) <= Rank(RatingOf(dearer, takeHome, smaller))
  {
    if takeHome > 0 {
      QuoMonotone(cost * 10000, dearer * 10000, takeHome);
    }
  }

  // The share of take-home pay, in basis points, that each rating stops at.
  function Limit(rank: nat): int
    requires rank < 4
  {
    if rank == 0 then 2500 else if rank == 1 then 3500 else if rank == 2 then 4500 else 5500
  }

  /** A rating without the division: it is at least as good as a given one
      exactly when the cost stays below one basis point above that one's limit;
      no income or a deficit is never recommended. */
  lemma RatingMeans(cost: int, takeHome: int, surplus: int, rank: nat)
    requires rank < 4
    ensures Rank(RatingOf(cost, takeHome, surplus)) <= rank
       <==> takeHome > 0 && surplus >= 0 && cost * 10000 < (Limit(rank) + 1) * takeHome
  {
    hide Quo;
    if takeHome > 0 {
      RatioWithin(cost * 10000, takeHome, Limit(rank));
    }
  }

  // A truncated ratio is within a limit when the amount stays below the next step.
  lemma RatioWithin(amount: int, d: int, limit: nat)
    requires d > 0
    ensures Quo(amount, d) <= limit <==> amount < (limit + 1) * d
  {
    hide Quo;
    var q := Quo(amount, d);
    QuoBounds(amount, d);
    TimesMonotone(0, limit + 1, d);
    if amount > 0 {
      if q <= limit { TimesMonotone(q + 1, limit + 1, d); } else { TimesMonotone(limit + 1, q, d); }
    } else {
      TimesMonotone(1, limit + 1, d);
    }
  }

  lemma LoanGrows(o: HousingOption, d: HousingOption)
    requires Dearer(o, d) && o.downpaymentBps >= 0
    ensures NetPrice(o) <= NetPrice(d) && Downpayment(o) <= Downpayment(d) && Loan(o) <= Loan(d)
  {
    hide CentsByBps;
    CentsByBpsMonotone(NetPrice(o), NetPrice(d), o.downpaymentBps);
    if o.downpaymentBps <= 10000 {
      RemainderMonotone(NetPrice(o), NetPrice(d), o.downpaymentBps);
    } else {
      WholeOrMore(NetPrice(o), o.downpaymentBps);
    }
  }

  lemma WholeOrMore(cents: int, bps: int)
    requires cents >= 0 && bps >= 10000
    ensures CentsByBps(cents, bps) >= cents
  {
    TimesMonotone(10000, bps, cents);
    QuoMonotone(cents * 10000, cents * bps, 10000);
  }

  /** Raising the price or lowering the grant, all else equal, never lowers the
      downpayment, the loan or the mortgage, never leaves more surplus or cash,
      and never improves the rating. */
  lemma DearerIsNeverBetter(o: HousingOption, d: HousingOption, a: Assets)
    requires Dearer(o, d) && o.downpaymentBps >= 0
    ensures var x, y := Calculate(o, a), Calculate(d, a);
      && x.netPrice <= y.netPrice && x.downpayment <= y.downpayment && x.upfront <= y.upfront
      && x.loan <= y.loan && x.mortgage <= y.mortgage && x.housingCost <= y.housingCost
      && x.cashTopUp <= y.cashTopUp && x.remainingCash >= y.remainingCash && x.remainingOA >= y.remainingOA
      && x.surplus >= y.surplus && Rank(x.rating) <= Rank(y.rating)
  {
    hide CentsByBps, Annuity.MonthlyPayment, RatingOf, Rank, InitialDownpayment, NetPrice, Downpayment, Loan;
    LoanGrows(o, d);
    Annuity.PaymentMonotone(Loan(o), Loan(d), o.interestBps, o.tenureMonths);
    var x, y := Calculate(o, a), Calculate(d, a);
    RatingWorsens(x.housingCost, y.housingCost, a.takeHome, x.surplus, y.surplus);
  }

  // ---- no money appears or disappears ----

  ghost predicate NonNegative(o: HousingOption) {
    o.price >= 0 && o.downpaymentBps >= 0 && o.legalFees >= 0 && o.stampDuty >= 0
  }

  /** A financed downpayment starts with the most that is within both the
      downpayment and a twentieth of the price, a fortieth when deferred; a share
      that comes to less than a cent asks for the whole downpayment at once. */
  lemma InitialIsLargestWithinShare(o: HousingOption, required: int)
    requires o.price >= 0 && required > 0 && !o.loanType.CashLoan?
    ensures var initial, bps := InitialDownpayment(o, required), if IsDeferred(o) then 250 else 500;
      && 0 < initial <= required
      && (o.price * bps < 10000 ==> initial == required)
      && (o.price * bps >= 10000 ==> initial * 10000 <= o.price * bps)
      && (initial < required ==> (initial + 1) * 10000 > o.price * bps)
  {
    QuoBounds(o.price * (if IsDeferred(o) then 250 else 500), 10000);
  }

  /** The parts add up: the two instalments of the downpayment, the make-up and
      the sources of the upfront cost, the monthly pay, what the household keeps,
      and the price itself. */
  lemma MoneyAddsUp(o: HousingOption, a: Assets)
    requires NonNegative(o)
    ensures var x := Calculate(o, a);
      && x.initialDownpayment + x.finalDownpayment == x.downpayment
      && 0 <= x.initialDownpayment && 0 <= x.finalDownpayment
      && x.upfront == x.initialDownpayment + x.finalDownpayment + o.legalFees + o.stampDuty
      && x.cpfUsed + x.cashTopUp == x.upfront
      && x.surplus + x.mortgage + o.maintenance + a.expenses == a.takeHome
      && x.remainingCash + x.remainingOA + x.upfront == a.cashSavings + a.cpfOA
      && (o.loanAmount <= 0 && o.downpaymentBps <= 10000 ==> x.downpayment + x.loan == x.netPrice)
  {
    hide CentsByBps, Annuity.MonthlyPayment, RatingOf;
    CentsByBpsMonotone(0, NetPrice(o), o.downpaymentBps);
    assert CentsByBps(0, o.downpaymentBps) == 0 by { ZeroCents(o.downpaymentBps); }
    if o.downpaymentBps <= 10000 { CentsByBpsFraction(NetPrice(o), o.downpaymentBps); }
  }

  lemma ZeroCents(bps: int)
    ensures CentsByBps(0, bps) == 0
  {
    QuoBounds(0, 10000);
  }

  // ---- machine integers ----

  predicate Fits(x: int) { -0x8000_0000_0000_0000 <= x < 0x8000_0000_0000_0000 }

  const MONEY_BOUND := 10_000_000_000_000

  ghost predicate Bounded(o: HousingOption, a: Assets) {
    && 0 <= o.price <= MONEY_BOUND && 0 <= o.grant <= MONEY_BOUND && o.loanAmount <= MONEY_BOUND
    && 0 <= o.legalFees <= MONEY_BOUND && 0 <= o.stampDuty <= MONEY_BOUND && 0 <= o.maintenance <= MONEY_BOUND
    && 0 <= o.downpaymentBps <= 10000 && 0 <= o.interestBps <= 10000 && 1 <= o.tenureMonths <= 420
    && 0 <= a.cashSavings <= MONEY_BOUND && 0 <= a.cpfOA <= MONEY_BOUND
    && 0 <= a.takeHome <= MONEY_BOUND && 0 <= a.expenses <= MONEY_BOUND
  }

  lemma PaymentBound(principal: int, bps: int, months: int)
    requires principal <= MONEY_BOUND && 0 <= bps <= 10000 && 1 <= months
    ensures 0 <= Annuity.MonthlyPayment(principal, bps, months) <= 2 * MONEY_BOUND
  {
    hide Annuity.Instalment, Annuity.RoundHalfAway;
    Annuity.PaymentMonotone(principal, principal, bps, months);
    if principal > 0 {
      if bps == 0 {
        QuoBounds(principal, months);
        AtMostWhole(Quo(principal, months), months, principal);
      } else {
        var b, r := principal as real, Annuity.MonthlyRate(bps);
        Annuity.InstalmentBounds(b, r, months);
        RateAndShare(bps, months);
        Annuity.TimesUp(r + 1.0 / months as real, 1.5, b);
        Annuity.RoundMonotone(Annuity.Instalment(b, r, months), 1.5 * b);
        RoundBelow(1.5 * b, 2 * MONEY_BOUND);
      }
    }
  }

  lemma AtMostWhole(q: int, n: int, whole: int)
    requires n >= 1 && q >= 0 && q * n <= whole
    ensures q <= whole
  {
    TimesMonotone(1, n, q);
  }

  lemma RateAndShare(bps: int, months: int)
    requires 0 < bps <= 10000 && months >= 1
    ensures Annuity.MonthlyRate(bps) > 0.0 && Annuity.MonthlyRate(bps) + 1.0 / months as real <= 1.5
  {
    var n := months as real;
    assert n >= 1.0;
    Annuity.QuotientTimes(1.0, n);
    var s := 1.0 / n;
    assert s <= 1.0 by { if s > 1.0 { Annuity.TimesUpStrictly(1.0, s, n); } }
  }

  lemma RoundBelow(x: real, k: int)
    requires 0.0 <= x <= k as real
    ensures Annuity.RoundHalfAway(x) <= k
  {
  }

  /** With money up to 10^13 cents, rates up to 10000 basis points and up to 420
      months, every integer the calculation forms fits a signed 64-bit one. */
  lemma IntermediatesFit(o: HousingOption, a: Assets)
    requires Bounded(o, a)
    ensures var x := Calculate(o, a);
      && Fits(o.price - o.grant) && Fits(x.netPrice * o.downpaymentBps) && Fits(x.downpayment)
      && Fits(o.price * 500) && Fits(x.downpayment - x.initialDownpayment)
      && Fits(x.downpayment + o.legalFees) && Fits(x.upfront) && Fits(x.netPrice - x.downpayment) && Fits(x.loan)
      && Fits(x.mortgage) && Fits(x.upfront - x.cpfUsed) && Fits(x.remainingCash) && Fits(x.remainingOA)
      && Fits(x.housingCost) && Fits(a.takeHome - a.expenses) && Fits(x.surplus) && Fits(x.housingCost * 10000)
  {
    hide CentsByBps, Annuity.MonthlyPayment, RatingOf;
    CentsByBpsFraction(NetPrice(o), o.downpaymentBps);
    TimesMonotone(o.downpaymentBps, 10000, NetPrice(o));
    TimesMonotone(0, o.downpaymentBps, NetPrice(o));
    PaymentBound(Loan(o), o.interestBps, o.tenureMonths);
    MoneyAddsUp(o, a);
  }
}
