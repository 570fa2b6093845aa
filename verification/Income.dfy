/** Income of a person and of a household. */
module Income {
  import opened Money
  import opened Cpf

  datatype Person = Person(
    id: string,
    age: int,
    status: EmploymentStatus,
    grossMonthlyIncome: int,
    expectedFutureIncome: int,
    cashSavings: int,
    cpfOA: int,
    cpfSA: int,
    cpfMA: int,
    monthlyExpenses: int)

  datatype Breakdown = Breakdown(
    currentGross: int,
    projectedGross: int,
    employeeCpf: int,
    employerCpf: int,
    takeHome: int,
    expenses: int,
    surplus: int)

  datatype Summary = Summary(
    currentGross: int,
    projectedGross: int,
    takeHome: int,
    employeeCpf: int,
    employerCpf: int,
    expenses: int,
    surplus: int,
    cpfOA: int,
    cpfSA: int,
    cpfMA: int,
    mayNeedDeferred: bool)

  function CurrentIncome(p: Person): int { Max(p.grossMonthlyIncome, 0) }

  function ProjectedIncome(p: Person): int {
    if p.expectedFutureIncome > 0 then p.expectedFutureIncome else CurrentIncome(p)
  }

  predicate MayNeedDeferred(status: EmploymentStatus) {
    status.Student? || status.FullTimeNSF? || status.FutureEmployee?
  }

  function CalculateBreakdown(p: Person): Breakdown {
    var current := CurrentIncome(p);
    var cpf := CalculateContribution(p.age, current, p.status);
    var takeHome := current - cpf.employee;
    Breakdown(current, ProjectedIncome(p), cpf.employee, cpf.employer, takeHome, p.monthlyExpenses, takeHome - p.monthlyExpenses)
  }

  // The sum of one amount over a household.
  function Total(people: seq<Person>, amount: Person -> int): int {
    if people == [] then 0 else Total(people[..|people| - 1], amount) + amount(people[|people| - 1])
  }

  function HouseholdSummary(people: seq<Person>): Summary {
    Summary(
      Total(people, p => CalculateBreakdown(p).currentGross),
      Total(people, p => CalculateBreakdown(p).projectedGross),
      Total(people, p => CalculateBreakdown(p).takeHome),
      Total(people, p => CalculateBreakdown(p).employeeCpf),
      Total(people, p => CalculateBreakdown(p).employerCpf),
      Total(people, p => CalculateBreakdown(p).expenses),
      Total(people, p => CalculateBreakdown(p).surplus),
      Total(people, (p: Person) => p.cpfOA),
      Total(people, (p: Person) => p.cpfSA),
      Total(people, (p: Person) => p.cpfMA),
      exists p :: p in people && MayNeedDeferred(p.status))
  }

  method CalculateHouseholdIncomeSummary(people: seq<Person>) returns (summary: Summary)
    ensures summary == HouseholdSummary(people)
  {
    hide CalculateBreakdown;
    summary := Summary(0, 0, 0, 0, 0, 0, 0, 0, 0, 0, false);
    for i := 0 to |people|
      invariant summary == HouseholdSummary(people[..i])
    {
      var before := people[..i];
      var b := CalculateBreakdown(people[i]);
      assert people[..i + 1] == before + [people[i]];
      SummaryOfOneMore(before, people[i]);
      summary := Summary(
        summary.currentGross + b.currentGross,
        summary.projectedGross + b.projectedGross,
        summary.takeHome + b.takeHome,
        summary.employeeCpf + b.employeeCpf,
        summary.employerCpf + b.employerCpf,
        summary.expenses + b.expenses,
        summary.surplus + b.surplus,
        summary.cpfOA + people[i].cpfOA,
        summary.cpfSA + people[i].cpfSA,
        summary.cpfMA + people[i].cpfMA,
        summary.mayNeedDeferred);
      if MayNeedDeferred(people[i].status) {
        summary := summary.(mayNeedDeferred := true);
      }
    }
    assert people[..|people|] == people;
  }

  lemma SummaryOfOneMore(people: seq<Person>, p: Person)
    ensures var s, b := HouseholdSummary(people), CalculateBreakdown(p);
      HouseholdSummary(people + [p]) == Summary(
        s.currentGross + b.currentGross,
        s.projectedGross + b.projectedGross,
        s.takeHome + b.takeHome,
        s.employeeCpf + b.employeeCpf,
        s.employerCpf + b.employerCpf,
        s.expenses + b.expenses,
        s.surplus + b.surplus,
        s.cpfOA + p.cpfOA,
        s.cpfSA + p.cpfSA,
        s.cpfMA + p.cpfMA,
        s.mayNeedDeferred || MayNeedDeferred(p.status))
  {
    hide CalculateBreakdown;
    assert (people + [p])[..|people|] == people;
    assert forall x :: x in people + [p] <==> x in people || x == p;
  }

  /** A household's figures from its members' own: each adds their wage, never
      less than nothing, what they expect if that is given, the contributions on
      the wage at their age, and what those and their expenses leave. */
  lemma SummaryAdds(people: seq<Person>, p: Person)
    ensures HouseholdSummary([]) == Summary(0, 0, 0, 0, 0, 0, 0, 0, 0, 0, false)
    ensures var s := HouseholdSummary(people);
      var wage := if p.grossMonthlyIncome > 0 then p.grossMonthlyIncome else 0;
      var cpf := CalculateContribution(p.age, wage, p.status);
      HouseholdSummary(people + [p]) == Summary(
        s.currentGross + wage,
        s.projectedGross + if p.expectedFutureIncome > 0 then p.expectedFutureIncome else wage,
        s.takeHome + wage - cpf.employee,
        s.employeeCpf + cpf.employee,
        s.employerCpf + cpf.employer,
        s.expenses + p.monthlyExpenses,
        s.surplus + wage - cpf.employee - p.monthlyExpenses,
        s.cpfOA + p.cpfOA,
        s.cpfSA + p.cpfSA,
        s.cpfMA + p.cpfMA,
        s.mayNeedDeferred || p.status == Student || p.status == FullTimeNSF || p.status == FutureEmployee)
  {
    hide CalculateContribution, HouseholdSummary;
    SummaryOfNone();
    SummaryOfOneMore(people, p);
  }

  lemma SummaryOfNone()
    ensures HouseholdSummary([]) == Summary(0, 0, 0, 0, 0, 0, 0, 0, 0, 0, false)
  {
    hide CalculateBreakdown;
  }

  lemma {:induction false} GrossNeverNegative(people: seq<Person>)
    ensures HouseholdSummary(people).currentGross >= 0
  {
    if people != [] {
      var n := |people| - 1;
      GrossNeverNegative(people[..n]);
      assert people == people[..n] + [people[n]];
      SummaryOfOneMore(people[..n], people[n]);
    }
  }

  /** A household's gross income splits into take-home pay and employee
      contributions, take-home pay into expenses and surplus, and at least four
      fifths of the gross is taken home. */
  lemma {:induction false} HouseholdBalances(people: seq<Person>)
    ensures var s := HouseholdSummary(people);
      && s.currentGross == s.takeHome + s.employeeCpf
      && s.takeHome == s.expenses + s.surplus
      && 5 * s.takeHome >= 4 * s.currentGross >= 0
  {
    if people != [] {
      var n := |people| - 1;
      HouseholdBalances(people[..n]);
      assert people == people[..n] + [people[n]];
      hide CalculateContribution;
      SummaryOfOneMore(people[..n], people[n]);
      ContributionBalances(people[n].age, CurrentIncome(people[n]), people[n].status);
    }
  }
}
