/** Monthly CPF contributions by wage band. */
module Cpf {
  import opened Money

  const ORDINARY_WAGE_CEILING_CENTS_2026 := 800000

  datatype EmploymentStatus =
    | FullTime | PartTime | SelfEmployed | Student | FullTimeNSF | Unemployed | FutureEmployee | OtherStatus

  datatype Contribution = Contribution(
    applicableWage: int,
    employee: int,
    employer: int,
    total: int,
    ordinary: int,
    special: int,
    medisave: int)

  datatype Rate = Rate(employerBps: int, employeeBps: int)

  function RateForAge(age: int): (r: Rate)
    ensures 500 <= r.employeeBps <= 2000 && 750 <= r.employerBps <= 1700
  {
    if age <= 55 then Rate(1700, 2000)
    else if age <= 60 then Rate(1600, 1800)
    else if age <= 65 then Rate(1250, 1250)
    else if age <= 70 then Rate(900, 750)
    else Rate(750, 500)
  }

  function FloorToDollar(cents: int): int { Quo(cents, 100) * 100 }

  // The remainder of truncating division.
  function Rem(a: int, d: int): int
    requires d > 0
  {
    a - Quo(a, d) * d
  }

  function RoundToNearestDollar(cents: int): int {
    (if Rem(cents, 100) >= 50 then Quo(cents, 100) + 1 else Quo(cents, 100)) * 100
  }

  // Employee and total cents before whole-dollar rounding.
  function Raw(rate: Rate, wage: int): (int, int) {
    if wage <= 50000 then
      (0, CentsByBps(wage, rate.employerBps))
    else if wage <= 75000 then
      var employee := CentsByBps(wage - 50000, 1500);
      (employee, CentsByBps(wage, rate.employerBps) + employee)
    else
      (CentsByBps(wage, rate.employeeBps), CentsByBps(wage, rate.employeeBps + rate.employerBps))
  }

  function Allocation(age: int, total: int): (int, int, int) {
    var (oaBps, saBps) :=
      if age <= 35 then (6216, 1621)
      else if age <= 45 then (5677, 1892)
      else if age <= 50 then (5136, 2162)
      else (4054, 3108);
    (CentsByBps(total, oaBps), CentsByBps(total, saBps), total - CentsByBps(total, oaBps) - CentsByBps(total, saBps))
  }

  function CalculateContribution(age: int, monthlyWage: int, status: EmploymentStatus): Contribution {
    if !status.FullTime? || monthlyWage <= 5000 then
      Contribution(0, 0, 0, 0, 0, 0, 0)
    else
      var wage := Min(monthlyWage, ORDINARY_WAGE_CEILING_CENTS_2026);
      var (rawEmployee, rawTotal) := Raw(RateForAge(age), wage);
      var employee, total := FloorToDollar(rawEmployee), RoundToNearestDollar(rawTotal);
      var (oa, sa, ma) := Allocation(age, total);
      Contribution(wage, employee, Max(total - employee, 0), total, oa, sa, ma)
  }

  // ---- rounding ----

  lemma FloorMonotone(a: int, b: int)
    requires a <= b
    ensures FloorToDollar(a) <= FloorToDollar(b)
  {
    QuoMonotone(a, b, 100);
  }

  lemma FloorBounds(a: int)
    requires a >= 0
    ensures 0 <= FloorToDollar(a) <= a < FloorToDollar(a) + 100
  {
    QuoBounds(a, 100);
  }

  lemma RoundBounds(a: int)
    requires a >= 0
    ensures FloorToDollar(a) <= RoundToNearestDollar(a) && a - 50 < RoundToNearestDollar(a) <= a + 50
  {
    QuoBounds(a, 100);
  }

  lemma RoundMonotone(a: int, b: int)
    requires 0 <= a <= b
    ensures RoundToNearestDollar(a) <= RoundToNearestDollar(b)
  {
    QuoBounds(a, 100);
    QuoBounds(b, 100);
    QuoMonotone(a, b, 100);
  }

  // ---- bands ----

  lemma ByBpsBetween(cents: int, bps: int)
    requires cents >= 0 && bps >= 0
    ensures 0 <= CentsByBps(cents, bps) && CentsByBps(cents, bps) * 10000 <= cents * bps < CentsByBps(cents, bps) * 10000 + 10000
  {
    TimesMonotone(0, cents, bps);
    QuoBounds(cents * bps, 10000);
  }

  lemma RawInBand(rate: Rate, wage: int)
    requires 500 <= rate.employeeBps <= 2000 && 750 <= rate.employerBps <= 1700 && wage >= 0
    ensures var (employee, total) := Raw(rate, wage);
      0 <= employee <= total && 5 * employee <= wage
  {
    hide CentsByBps;
    ByBpsBetween(wage, rate.employerBps);
    if wage > 75000 {
      ByBpsBetween(wage, rate.employeeBps);
      ByBpsBetween(wage, rate.employeeBps + rate.employerBps);
      TimesMonotone(rate.employeeBps, 2000, wage);
      RateMonotone(wage, rate.employeeBps, rate.employeeBps + rate.employerBps);
    } else if wage > 50000 {
      ByBpsBetween(wage - 50000, 1500);
    }
  }

  lemma RateMonotone(cents: int, bps: int, bps': int)
    requires cents >= 0 && bps <= bps'
    ensures CentsByBps(cents, bps) <= CentsByBps(cents, bps')
  {
    TimesMonotone(bps, bps', cents);
    QuoMonotone(cents * bps, cents * bps', 10000);
  }

  // From the middle band to the top one neither amount drops.
  lemma MiddleToTop(rate: Rate, low: int, high: int)
    requires 500 <= rate.employeeBps <= 2000 && 750 <= rate.employerBps <= 1700
    requires 50000 < low <= 75000 < high
    ensures Raw(rate, low).0 <= Raw(rate, high).0 && Raw(rate, low).1 <= Raw(rate, high).1
  {
    hide CentsByBps;
    var ee, er := rate.employeeBps, rate.employerBps;
    ByBpsBetween(low - 50000, 1500);
    ByBpsBetween(low, er);
    ByBpsBetween(high, ee);
    ByBpsBetween(high, ee + er);
    TimesMonotone(500, ee, high);
    TimesMonotone(low, high, er);
    assert high * (ee + er) == high * ee + high * er;
  }

  lemma RawMonotone(rate: Rate, low: int, high: int)
    requires 500 <= rate.employeeBps <= 2000 && 750 <= rate.employerBps <= 1700
    requires 0 <= low <= high
    ensures Raw(rate, low).0 <= Raw(rate, high).0 && Raw(rate, low).1 <= Raw(rate, high).1
  {
    hide CentsByBps;
    var ee, er := rate.employeeBps, rate.employerBps;
    CentsByBpsMonotone(low, high, er);
    if 50000 < low <= 75000 && high > 75000 {
      MiddleToTop(rate, low, high);
    } else if high > 75000 {
      ByBpsBetween(high, ee);
      RateMonotone(high, er, ee + er);
      CentsByBpsMonotone(low, high, ee);
      CentsByBpsMonotone(low, high, ee + er);
    } else if high > 50000 {
      ByBpsBetween(high - 50000, 1500);
      if low > 50000 { CentsByBpsMonotone(low - 50000, high - 50000, 1500); }
    }
  }

  // ---- what a contribution promises ----

  /** At a fixed age a higher full-time wage never means a smaller employee or
      total contribution, across every band edge and the ceiling. */
  lemma ContributionMonotone(age: int, low: int, high: int)
    requires low <= high
    ensures CalculateContribution(age, low, FullTime).employee <= CalculateContribution(age, high, FullTime).employee
    ensures CalculateContribution(age, low, FullTime).total <= CalculateContribution(age, high, FullTime).total
  {
    hide Raw, FloorToDollar, RoundToNearestDollar, Allocation;
    if high > 5000 {
      var rate, w := RateForAge(age), Min(high, ORDINARY_WAGE_CEILING_CENTS_2026);
      RawInBand(rate, w);
      FloorBounds(Raw(rate, w).0);
      RoundBounds(Raw(rate, w).1);
      if low > 5000 {
        var v := Min(low, ORDINARY_WAGE_CEILING_CENTS_2026);
        RawInBand(rate, v);
        RawMonotone(rate, v, w);
        FloorMonotone(Raw(rate, v).0, Raw(rate, w).0);
        RoundMonotone(Raw(rate, v).1, Raw(rate, w).1);
      } else {
        FloorBounds(Raw(rate, w).0);
        assert RoundToNearestDollar(Raw(rate, w).1) >= FloorToDollar(Raw(rate, w).1);
        FloorBounds(Raw(rate, w).1);
      }
    }
  }

  /** Employee and employer shares add up to the total (the clamp never acts),
      the three accounts are non-negative and add up to it, and the employee
      pays at most a fifth of the wage. */
  lemma ContributionBalances(age: int, wage: int, status: EmploymentStatus)
    ensures var c := CalculateContribution(age, wage, status);
      && c.employee + c.employer == c.total && 0 <= c.employee <= c.total
      && c.ordinary + c.special + c.medisave == c.total
      && c.ordinary >= 0 && c.special >= 0 && c.medisave >= 0
      && 5 * c.employee <= Max(wage, 0)
  {
    hide Raw, FloorToDollar, RoundToNearestDollar, CentsByBps;
    if status.FullTime? && wage > 5000 {
      var rate, w := RateForAge(age), Min(wage, ORDINARY_WAGE_CEILING_CENTS_2026);
      var (employee, total) := Raw(rate, w);
      RawInBand(rate, w);
      FloorBounds(employee);
      FloorBounds(total);
      FloorMonotone(employee, total);
      RoundBounds(total);
      AllocationFits(age, RoundToNearestDollar(total));
    }
  }

  lemma AllocationFits(age: int, total: int)
    requires total >= 0
    ensures var (oa, sa, ma) := Allocation(age, total);
      oa >= 0 && sa >= 0 && ma >= 0 && oa + sa + ma == total
  {
    hide CentsByBps;
    var oaBps := if age <= 35 then 6216 else if age <= 45 then 5677 else if age <= 50 then 5136 else 4054;
    var saBps := if age <= 35 then 1621 else if age <= 45 then 1892 else if age <= 50 then 2162 else 3108;
    ByBpsBetween(total, oaBps);
    ByBpsBetween(total, saBps);
  }

  lemma RoundIsNearest(a: int)
    requires a >= 0
    ensures RoundToNearestDollar(a) % 100 == 0 && RoundToNearestDollar(a) - 50 <= a < RoundToNearestDollar(a) + 50
  {
    QuoBounds(a, 100);
  }

  /** A contribution in figures: nothing unless full-time above 50 dollars;
      otherwise `own` and `all` are the employee's and the total cents by the
      rates of the age and the band of the wage, cut down to whole cents.  The
      employee pays the whole dollars of `own`, the total is the dollar nearest
      to `all`, halves up, and the accounts get their shares of it by age. */
  lemma ContributionMeans(age: int, wage: int, status: EmploymentStatus) returns (own: int, all: int)
    ensures !status.FullTime? || wage <= 5000 ==>
      CalculateContribution(age, wage, status) == Contribution(0, 0, 0, 0, 0, 0, 0)
    ensures status.FullTime? && wage > 5000 ==>
      var c := CalculateContribution(age, wage, status);
      var w := if wage < 800000 then wage else 800000;
      var employeeBps := if age <= 55 then 2000 else if age <= 60 then 1800 else if age <= 65 then 1250 else if age <= 70 then 750 else 500;
      var employerBps := if age <= 55 then 1700 else if age <= 60 then 1600 else if age <= 65 then 1250 else if age <= 70 then 900 else 750;
      var oaBps := if age <= 35 then 6216 else if age <= 45 then 5677 else if age <= 50 then 5136 else 4054;
      var saBps := if age <= 35 then 1621 else if age <= 45 then 1892 else if age <= 50 then 2162 else 3108;
      && c.applicableWage == w
      && (w <= 50000 ==> own == 0)
      && (50000 < w <= 75000 ==> own * 10000 <= (w - 50000) * 1500 < (own + 1) * 10000)
      && (w > 75000 ==> own * 10000 <= w * employeeBps < (own + 1) * 10000)
      && (w <= 75000 ==> (all - own) * 10000 <= w * employerBps < (all - own + 1) * 10000)
      && (w > 75000 ==> all * 10000 <= w * (employeeBps + employerBps) < (all + 1) * 10000)
      && c.employee % 100 == 0 && c.employee <= own < c.employee + 100
      && c.total % 100 == 0 && c.total - 50 <= all < c.total + 50
      && c.employer == c.total - c.employee
      && c.ordinary * 10000 <= c.total * oaBps < (c.ordinary + 1) * 10000
      && c.special * 10000 <= c.total * saBps < (c.special + 1) * 10000
      && c.medisave == c.total - c.ordinary - c.special
  {
    hide FloorToDollar, RoundToNearestDollar, CentsByBps;
    own, all := 0, 0;
    if status.FullTime? && wage > 5000 {
      var rate, w := RateForAge(age), Min(wage, 800000);
      own, all := Raw(rate, w).0, Raw(rate, w).1;
      RawInBand(rate, w);
      RawShares(rate, w);
      FloorIsWhole(own);
      RoundIsNearest(all);
      ContributionBalances(age, wage, status);
      AllocationShares(age, RoundToNearestDollar(all));
    }
  }

  lemma FloorIsWhole(a: int)
    requires a >= 0
    ensures FloorToDollar(a) % 100 == 0 && FloorToDollar(a) <= a < FloorToDollar(a) + 100
  {
    QuoBounds(a, 100);
  }

  lemma RawShares(rate: Rate, w: int)
    requires rate.employeeBps >= 0 && rate.employerBps >= 0 && w >= 0
    ensures var (own, all) := Raw(rate, w);
      && (w <= 50000 ==> own == 0)
      && (50000 < w <= 75000 ==> own * 10000 <= (w - 50000) * 1500 < (own + 1) * 10000)
      && (w > 75000 ==> own * 10000 <= w * rate.employeeBps < (own + 1) * 10000)
      && (w <= 75000 ==> (all - own) * 10000 <= w * rate.employerBps < (all - own + 1) * 10000)
      && (w > 75000 ==> all * 10000 <= w * (rate.employeeBps + rate.employerBps) < (all + 1) * 10000)
  {
    hide CentsByBps;
    ByBpsBetween(w, rate.employeeBps);
    ByBpsBetween(w, rate.employerBps);
    ByBpsBetween(w, rate.employeeBps + rate.employerBps);
    if w > 50000 { ByBpsBetween(w - 50000, 1500); }
  }

  lemma AllocationShares(age: int, total: int)
    requires total >= 0
    ensures var (oa, sa, ma) := Allocation(age, total);
      var oaBps := if age <= 35 then 6216 else if age <= 45 then 5677 else if age <= 50 then 5136 else 4054;
      var saBps := if age <= 35 then 1621 else if age <= 45 then 1892 else if age <= 50 then 2162 else 3108;
      && oa * 10000 <= total * oaBps < (oa + 1) * 10000
      && sa * 10000 <= total * saBps < (sa + 1) * 10000
      && ma == total - oa - sa
  {
    hide CentsByBps;
    var oaBps := if age <= 35 then 6216 else if age <= 45 then 5677 else if age <= 50 then 5136 else 4054;
    var saBps := if age <= 35 then 1621 else if age <= 45 then 1892 else if age <= 50 then 2162 else 3108;
    ByBpsBetween(total, oaBps);
    ByBpsBetween(total, saBps);
  }
}
