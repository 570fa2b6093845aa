/** The household dashboard: totals over people, and each visible home's figures. */
module Dashboard {
  import opened Money
  import opened Income
  import opened HousingGrant
  import A = Affordability

  datatype HouseholdDashboard = HouseholdDashboard(
    family: string,
    income: Summary,
    cashSavings: int,
    homes: seq<A.Result>)

  function Cash(people: seq<Person>): int {
    Total(people, (p: Person) => p.cashSavings)
  }

  /** The dashboard's cash is the members' savings together. */
  lemma CashAdds(people: seq<Person>, p: Person)
    ensures Cash([]) == 0 && Cash(people + [p]) == Cash(people) + p.cashSavings
  {
    assert (people + [p])[..|people|] == people;
  }

  function AssetsOf(people: seq<Person>): A.Assets {
    var income := HouseholdSummary(people);
    A.Assets(Cash(people), income.cpfOA, income.takeHome, income.expenses)
  }

  function Visible(options: seq<HousingOption>): seq<HousingOption> {
    if options == [] then [] else
      var n := |options| - 1;
      Visible(options[..n]) + if options[n].visible then [options[n]] else []
  }

  method BuildHouseholdDashboard(family: string, people: seq<Person>, options: seq<HousingOption>)
    returns (d: HouseholdDashboard)
    ensures d.family == family && d.income == HouseholdSummary(people) && d.cashSavings == Cash(people)
    ensures |d.homes| == |Visible(options)|
    ensures forall i :: 0 <= i < |d.homes| ==> d.homes[i] == A.Calculate(Visible(options)[i], AssetsOf(people))
    ensures forall i :: 0 <= i < |d.homes| ==>
      var assets := A.Assets(d.cashSavings, d.income.cpfOA, d.income.takeHome, d.income.expenses);
      d.homes[i] == A.Calculate(Visible(options)[i], assets)
  {
    hide HouseholdSummary, A.Calculate;
    var income := CalculateHouseholdIncomeSummary(people);
    var cash := 0;
    for i := 0 to |people|
      invariant cash == Cash(people[..i])
    {
      assert people[..i + 1][..i] == people[..i];
      cash := cash + people[i].cashSavings;
    }
    assert people[..|people|] == people;
    var assets := A.Assets(cash, income.cpfOA, income.takeHome, income.expenses);
    var results: seq<A.Result> := [];
    for i := 0 to |options|
      invariant |results| == |Visible(options[..i])|
      invariant forall k :: 0 <= k < |results| ==> results[k] == A.Calculate(Visible(options[..i])[k], assets)
    {
      assert options[..i + 1][..i] == options[..i];
      if options[i].visible {
        results := results + [A.Calculate(options[i], assets)];
      }
    }
    assert options[..|options|] == options;
    d := HouseholdDashboard(family, income, cash, results);
  }

  /** Listing the visible homes of one list and then of another lists those of
      both in order: nothing is moved, only hidden homes are dropped. */
  lemma {:induction false} VisibleKeepsOrder(a: seq<HousingOption>, b: seq<HousingOption>)
    ensures Visible(a + b) == Visible(a) + Visible(b)
    ensures |b| == 1 ==> Visible(b) == if b[0].visible then b else []
  {
    if |b| == 1 { assert b[..0] == []; }
    if b == [] {
      assert a + b == a;
    } else {
      var n := |b| - 1;
      VisibleKeepsOrder(a, b[..n]);
      assert (a + b)[..|a + b| - 1] == a + b[..n];
    }
  }

  lemma {:induction false} VisibleMembers(options: seq<HousingOption>)
    ensures forall o :: o in Visible(options) <==> o in options && o.visible
  {
    if options != [] {
      var n := |options| - 1;
      VisibleMembers(options[..n]);
      assert options == options[..n] + [options[n]];
    }
  }

  // What everyone together has.
  function Wealth(people: seq<Person>): int {
    if people == [] then 0 else
      var p := people[|people| - 1];
      Wealth(people[..|people| - 1]) + p.cashSavings + p.cpfOA
  }

  lemma {:induction false} AssetsAreWealth(people: seq<Person>)
    ensures AssetsOf(people).cashSavings + AssetsOf(people).cpfOA == Wealth(people)
  {
    if people != [] {
      var n := |people| - 1;
      AssetsAreWealth(people[..n]);
      assert people == people[..n] + [people[n]];
      hide HouseholdSummary;
      SummaryOfOneMore(people[..n], people[n]);
    }
  }

  /** For every home on the dashboard, what the household keeps plus what it pays
      up front is what its members have, person by person. */
  lemma DashboardConservesWealth(people: seq<Person>, options: seq<HousingOption>, i: nat)
    requires i < |Visible(options)| && A.NonNegative(Visible(options)[i])
    ensures var x := A.Calculate(Visible(options)[i], AssetsOf(people));
      x.remainingCash + x.remainingOA + x.upfront == Wealth(people)
  {
    hide A.Calculate, AssetsOf, Visible;
    AssetsAreWealth(people);
    A.MoneyAddsUp(Visible(options)[i], AssetsOf(people));
  }
}
