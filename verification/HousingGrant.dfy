/** Homes, grant estimates by income bracket, and the deferral rules. */
module HousingGrant {
  import opened Prelude
  import opened Money
  import opened Income

  // `Unlisted` stands for every other string the type may hold.
  datatype HousingType = BTO | ResaleHDB | ExecutiveCondo | PrivateCondo | Landed | OtherType | Unlisted

  datatype LoanType = HDBLoan | BankLoan | CashLoan | NoLoanType | UnlistedLoan

  // `keyDate` is None for no date; the zero date is 0.
  datatype HousingOption = HousingOption(
    id: string,
    family: string,
    housingType: HousingType,
    price: int,
    grant: int,
    loanType: LoanType,
    loanAmount: int,
    interestBps: int,
    tenureMonths: int,
    downpaymentBps: int,
    legalFees: int,
    stampDuty: int,
    maintenance: int,
    visible: bool,
    keyDate: Option<int>,
    overrides: nat)

  datatype Estimate = Estimate(amount: int, householdGross: int, eligible: bool)

  datatype Bracket = Bracket(maxIncome: int, grant: int)

  const BRACKETS := [
    Bracket(150000, 12000000), Bracket(200000, 11000000), Bracket(250000, 10500000), Bracket(300000, 9500000),
    Bracket(350000, 9000000), Bracket(400000, 8000000), Bracket(450000, 7000000), Bracket(500000, 6500000),
    Bracket(550000, 5500000), Bracket(600000, 5000000), Bracket(650000, 4000000), Bracket(700000, 3000000),
    Bracket(750000, 2500000), Bracket(800000, 2000000), Bracket(850000, 1000000), Bracket(900000, 500000)]

  predicate IsEligibleType(t: HousingType) { t.BTO? || t.ResaleHDB? }

  predicate IsNonHDB(t: HousingType) {
    t.ExecutiveCondo? || t.PrivateCondo? || t.Landed? || t.OtherType?
  }

  function MaxTenureMonths(t: HousingType): int {
    (if t.BTO? || t.ResaleHDB? then 30 else 35) * 12
  }

  // The grant is that of bracket i: the first whose limit the income does not pass.
  predicate InBracket(income: int, i: int) {
    && 0 <= i < |BRACKETS|
    && income <= BRACKETS[i].maxIncome
    && (forall k :: 0 <= k < i ==> BRACKETS[k].maxIncome < income)
  }

  lemma BracketsEnd()
    ensures forall i :: 0 <= i < |BRACKETS| ==> BRACKETS[i].maxIncome <= 900000
    ensures BRACKETS[|BRACKETS| - 1].maxIncome == 900000
  {
  }

  lemma BracketUnique(income: int, i: int, j: int)
    requires InBracket(income, i) && InBracket(income, j)
    ensures i == j
  {
  }

  // No bracket left to try, or the first match from bracket i on.
  function GrantFrom(income: int, i: nat): int
    requires i <= |BRACKETS|
    decreases |BRACKETS| - i
  {
    if i == |BRACKETS| then 0
    else if income <= BRACKETS[i].maxIncome then BRACKETS[i].grant
    else GrantFrom(income, i + 1)
  }

  function EstimateFor(t: HousingType, gross: int): Estimate {
    var income := Max(gross, 0);
    Estimate(if IsEligibleType(t) then GrantFrom(income, 0) else 0, income, IsEligibleType(t))
  }

  method EstimateFromGrossMonthlyIncome(t: HousingType, gross: int) returns (estimate: Estimate)
    ensures estimate == EstimateFor(t, gross)
    ensures estimate.eligible <==> IsEligibleType(t)
    ensures forall i :: estimate.eligible && InBracket(estimate.householdGross, i) ==> estimate.amount == BRACKETS[i].grant
    ensures estimate.eligible ==>
      ((exists i :: InBracket(estimate.householdGross, i)) <==> estimate.householdGross <= 900000)
    ensures !estimate.eligible || estimate.householdGross > 900000 ==> estimate.amount == 0
  {
    estimate := Estimate(0, Max(gross, 0), IsEligibleType(t));
    if !estimate.eligible { return; }
    BracketsEnd();
    var income := estimate.householdGross;
    for i := 0 to |BRACKETS|
      invariant forall k :: 0 <= k < i ==> BRACKETS[k].maxIncome < income
      invariant GrantFrom(income, 0) == GrantFrom(income, i)
      invariant estimate == Estimate(0, income, true)
    {
      if income <= BRACKETS[i].maxIncome {
        assert InBracket(income, i);
        estimate := estimate.(amount := BRACKETS[i].grant);
        forall j | InBracket(income, j)
          ensures estimate.amount == BRACKETS[j].grant
        {
          BracketUnique(income, i, j);
        }
        return;
      }
    }
  }

  function EstimateForPeople(t: HousingType, people: seq<Person>): Estimate {
    if people == [] then Estimate(0, 0, IsEligibleType(t))
    else EstimateFor(t, HouseholdSummary(people).currentGross)
  }

  method EstimateHousingGrantAmount(t: HousingType, people: seq<Person>) returns (estimate: Estimate)
    ensures estimate == EstimateForPeople(t, people)
  {
    hide HouseholdSummary;
    if people == [] {
      return Estimate(0, 0, IsEligibleType(t));
    }
    var summary := CalculateHouseholdIncomeSummary(people);
    estimate := EstimateFromGrossMonthlyIncome(t, summary.currentGross);
  }

  lemma BracketsDescend()
    ensures forall i, j :: 0 <= i < j < |BRACKETS| ==> BRACKETS[i].grant >= BRACKETS[j].grant
    ensures forall i :: 0 <= i < |BRACKETS| ==> 0 < BRACKETS[i].grant <= 12000000
  {
  }

  lemma {:induction false} GrantFromBounds(income: int, i: nat)
    requires i <= |BRACKETS|
    ensures 0 <= GrantFrom(income, i)
    ensures forall k :: 0 <= k < i ==> GrantFrom(income, i) <= BRACKETS[k].grant
    decreases |BRACKETS| - i
  {
    BracketsDescend();
    if i < |BRACKETS| { GrantFromBounds(income, i + 1); }
  }

  lemma {:induction false} GrantFalls(low: int, high: int, i: nat)
    requires low <= high && i <= |BRACKETS|
    ensures GrantFrom(high, i) <= GrantFrom(low, i)
    decreases |BRACKETS| - i
  {
    if i < |BRACKETS| {
      GrantFalls(low, high, i + 1);
      GrantFromBounds(high, i + 1);
    }
  }

  /** One more person never raises a household's grant, unless the household was empty. */
  lemma AddingAPersonNeverRaises(t: HousingType, people: seq<Person>, p: Person)
    requires people != []
    ensures EstimateForPeople(t, people + [p]).amount <= EstimateForPeople(t, people).amount
  {
    hide HouseholdSummary, CalculateBreakdown;
    SummaryOfOneMore(people, p);
    GrossNeverNegative(people);
    OneGrossNeverNegative(p);
    GrantFalls(HouseholdSummary(people).currentGross, HouseholdSummary(people + [p]).currentGross, 0);
  }

  lemma OneGrossNeverNegative(p: Person)
    ensures CalculateBreakdown(p).currentGross >= 0
  {
  }

  predicate IsDeferred(o: HousingOption) {
    if o.loanType.CashLoan? || IsNonHDB(o.housingType) || !o.housingType.BTO? then false
    else
      var hasKeyDate := o.keyDate.Some? && o.keyDate.value != 0;
      || (o.loanAmount == 0 && o.downpaymentBps == 2500)
      || (hasKeyDate && o.loanAmount == 0 && o.grant == 0
          && (o.loanType.NoLoanType? || o.loanType.BankLoan? || o.loanType.HDBLoan?))
      || (hasKeyDate && o.loanType.BankLoan? && o.loanAmount == 0
          && (o.tenureMonths == 300 || o.tenureMonths == MaxTenureMonths(o.housingType)))
      || (hasKeyDate && o.overrides > 0)
  }

  // ---- the request handler's grant step ----

  predicate ValidOption(o: HousingOption) {
    && (IsNonHDB(o.housingType) ==> !o.loanType.HDBLoan? && o.grant <= 0)
    && (o.loanType.CashLoan? || o.tenureMonths <= MaxTenureMonths(o.housingType))
  }

  function ValidateHousingOption(o: HousingOption): (r: Result<()>)
    ensures r.Ok? <==> ValidOption(o)
    ensures r.Ok? || r == Err(InvalidArgument)
    ensures r.Ok? <==>
      && (o.housingType.ExecutiveCondo? || o.housingType.PrivateCondo? || o.housingType.Landed? || o.housingType.OtherType?
          ==> !o.loanType.HDBLoan? && o.grant <= 0)
      && (!o.loanType.CashLoan? ==>
          o.tenureMonths <= if o.housingType.BTO? || o.housingType.ResaleHDB? then 360 else 420)
  {
    if IsNonHDB(o.housingType) && (o.loanType.HDBLoan? || o.grant > 0) then Err(InvalidArgument)
    else if o.loanType.CashLoan? || o.tenureMonths <= 0 then Ok(())
    else if o.tenureMonths > MaxTenureMonths(o.housingType) then Err(InvalidArgument)
    else Ok(())
  }

  // What the people repository answers; None when there is no repository.
  type Household = Option<Result<seq<Person>>>

  function WithGrant(o: HousingOption, people: Household): Result<HousingOption> {
    if people.None? || o.family == "" then Ok(o)
    else if IsNonHDB(o.housingType) || IsDeferred(o) then Ok(o.(grant := 0))
    else
      match people.value
      case Err(e) => Err(e)
      case Ok(ps) => Ok(o.(grant := EstimateForPeople(o.housingType, ps).amount))
  }

  method ApplyGrantEstimate(o: HousingOption, people: Household) returns (r: Result<HousingOption>)
    ensures r == WithGrant(o, people)
    ensures r.Ok? ==> r.value == o.(grant := r.value.grant)
  {
    hide EstimateForPeople;
    var option := o;
    if people.None? || option.family == "" { return Ok(option); }
    if IsNonHDB(option.housingType) {
      option := option.(grant := 0);
      return Ok(option);
    }
    if IsDeferred(option) {
      option := option.(grant := 0);
      return Ok(option);
    }
    if people.value.Err? { return Err(people.value.error); }
    var estimate := EstimateHousingGrantAmount(option.housingType, people.value.value);
    option := option.(grant := estimate.amount);
    return Ok(option);
  }

  /** A deferred home is a BTO not paid in cash of one of four shapes: no loan and
      a quarter down; or, with a date, no loan or grant and an ordinary loan type,
      a bank loan of amount nought over 25 or 30 years, or income overrides. */
  lemma DeferredShapes(o: HousingOption)
    ensures IsDeferred(o) <==>
      && o.housingType.BTO? && !o.loanType.CashLoan?
      && (|| (o.loanAmount == 0 && o.downpaymentBps == 2500)
          || (o.keyDate.Some? && o.keyDate.value != 0 && o.loanAmount == 0 && o.grant == 0 && !o.loanType.UnlistedLoan?)
          || (o.keyDate.Some? && o.keyDate.value != 0 && o.loanAmount == 0 && o.loanType.BankLoan?
              && (o.tenureMonths == 300 || o.tenureMonths == 360))
          || (o.keyDate.Some? && o.keyDate.value != 0 && o.overrides > 0))
  {
  }

  // What the members earn together, a negative wage counting as none.
  function Earned(people: seq<Person>): int {
    if people == [] then 0 else
      var wage := people[|people| - 1].grossMonthlyIncome;
      Earned(people[..|people| - 1]) + if wage > 0 then wage else 0
  }

  lemma {:induction false} GrossIsEarned(people: seq<Person>)
    ensures HouseholdSummary(people).currentGross == Earned(people) >= 0
  {
    if people != [] {
      var n := |people| - 1;
      GrossIsEarned(people[..n]);
      assert people == people[..n] + [people[n]];
      hide HouseholdSummary;
      SummaryAdds(people[..n], people[n]);
    }
  }

  // The published amounts in cents, by monthly income in cents.
  lemma GrantTable(income: int)
    ensures GrantFrom(income, 0) ==
      if income <= 150000 then 12000000 else if income <= 200000 then 11000000
      else if income <= 250000 then 10500000 else if income <= 300000 then 9500000
      else if income <= 350000 then 9000000 else if income <= 400000 then 8000000
      else if income <= 450000 then 7000000 else if income <= 500000 then 6500000
      else if income <= 550000 then 5500000 else if income <= 600000 then 5000000
      else if income <= 650000 then 4000000 else if income <= 700000 then 3000000
      else if income <= 750000 then 2500000 else if income <= 800000 then 2000000
      else if income <= 850000 then 1000000 else if income <= 900000 then 500000 else 0
  {
    assert GrantFrom(income, 12) ==
      if income <= 750000 then 2500000 else if income <= 800000 then 2000000
      else if income <= 850000 then 1000000 else if income <= 900000 then 500000 else 0 by {
      assert GrantFrom(income, 14) == if income <= 850000 then 1000000 else if income <= 900000 then 500000 else 0;
    }
    assert GrantFrom(income, 8) ==
      if income <= 550000 then 5500000 else if income <= 600000 then 5000000
      else if income <= 650000 then 4000000 else if income <= 700000 then 3000000 else GrantFrom(income, 12) by {
      assert GrantFrom(income, 10) == if income <= 650000 then 4000000 else if income <= 700000 then 3000000 else GrantFrom(income, 12);
    }
    assert GrantFrom(income, 4) ==
      if income <= 350000 then 9000000 else if income <= 400000 then 8000000
      else if income <= 450000 then 7000000 else if income <= 500000 then 6500000 else GrantFrom(income, 8) by {
      assert GrantFrom(income, 6) == if income <= 450000 then 7000000 else if income <= 500000 then 6500000 else GrantFrom(income, 8);
    }
    assert GrantFrom(income, 2) == if income <= 250000 then 10500000 else if income <= 300000 then 9500000 else GrantFrom(income, 4);
  }

  /** An estimate for people: whether the kind of home is one that has grants,
      what they earn together, and the published amount for that. */
  lemma EstimateMeans(t: HousingType, people: seq<Person>)
    ensures var e := EstimateForPeople(t, people);
      && (e.eligible <==> t.BTO? || t.ResaleHDB?)
      && e.householdGross == Earned(people)
      && e.amount == if people != [] && e.eligible then GrantFrom(Earned(people), 0) else 0
  {
    hide HouseholdSummary, GrantFrom;
    GrossIsEarned(people);
  }

  /** The grant the handler leaves on a home.  Without a repository or a family it
      is the one submitted; a condominium, landed or other home and a deferred one
      get none; otherwise it is what the members' wages together give a BTO or
      resale home, nothing for an empty household or another kind of home. */
  lemma GrantStepMeans(o: HousingOption, people: Household)
    ensures var r := WithGrant(o, people);
      var t := o.housingType;
      var dated := o.keyDate.Some? && o.keyDate.value != 0;
      var deferred := t.BTO? && !o.loanType.CashLoan?
        && (|| (o.loanAmount == 0 && o.downpaymentBps == 2500)
            || (dated && o.loanAmount == 0 && o.grant == 0 && !o.loanType.UnlistedLoan?)
            || (dated && o.loanAmount == 0 && o.loanType.BankLoan? && (o.tenureMonths == 300 || o.tenureMonths == 360))
            || (dated && o.overrides > 0));
      var none := t.ExecutiveCondo? || t.PrivateCondo? || t.Landed? || t.OtherType? || deferred;
      && (people.None? || o.family == "" ==> r == Ok(o))
      && (people.Some? && o.family != "" ==>
            && (none ==> r == Ok(o.(grant := 0)))
            && (!none && people.value.Err? ==> r == Err(people.value.error))
            && (!none && people.value.Ok? ==>
                  var ps := people.value.value;
                  r == Ok(o.(grant := if ps != [] && (t.BTO? || t.ResaleHDB?) then GrantFrom(Earned(ps), 0) else 0))))
  {
    hide HouseholdSummary, GrantFrom, IsDeferred, Earned;
    DeferredShapes(o);
    if people.Some? && people.value.Ok? { GrossIsEarned(people.value.value); }
  }

  /** Applying the estimate twice is applying it once, although the deferral test
      reads the grant the first application wrote. */
  lemma ApplyingTwiceIsOnce(o: HousingOption, people: Household)
    requires WithGrant(o, people).Ok?
    ensures WithGrant(WithGrant(o, people).value, people) == WithGrant(o, people)
  {
    hide EstimateForPeople;
  }

  /** The grant step keeps a valid option valid, and never makes an HDB option
      valid that was not. */
  lemma GrantStepKeepsValidity(o: HousingOption, people: Household)
    requires WithGrant(o, people).Ok?
    ensures ValidOption(o) ==> ValidOption(WithGrant(o, people).value)
    ensures !IsNonHDB(o.housingType) ==> (ValidOption(o) <==> ValidOption(WithGrant(o, people).value))
  {
    hide EstimateForPeople;
  }
}
