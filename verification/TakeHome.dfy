/** When a higher wage means less take-home pay.

    Employee contributions are whole dollars, and the phase-in rate of the middle
    wage band is the same for every age, so take-home pay can fall as the wage
    rises.  These lemmas say exactly when. */
module TakeHome {
  import opened Money
  import opened Cpf
  import opened Income

  // What a person takes home at a gross monthly income of `gross`.
  function PayAt(p: Person, gross: int): int {
    CalculateBreakdown(p.(grossMonthlyIncome := gross)).takeHome
  }

  // The last wage, in whole dollars, of the middle band.
  const EDGE := 750

  // Whole dollars of employee contribution.
  function Dollars(age: int, wage: int): int {
    if wage <= 50000 then 0
    else if wage <= 75000 then (wage - 50000) * 1500 / 1_000_000
    else Min(wage, ORDINARY_WAGE_CEILING_CENTS_2026) * RateForAge(age).employeeBps / 1_000_000
  }

  // Flooring to a cent and then to a dollar is flooring to a dollar.
  lemma FloorTwice(x: int)
    requires x >= 0
    ensures FloorToDollar(Quo(x, 10000)) == 100 * (x / 1_000_000)
  {
  }

  lemma EmployeeDollars(age: int, wage: int)
    ensures CalculateContribution(age, wage, FullTime).employee == 100 * Dollars(age, wage)
  {
    hide FloorToDollar, RoundToNearestDollar, Quo;
    FloorTwice(0);
    assert Quo(0, 10000) == 0 by { QuoBounds(0, 10000); }
    if wage > 75000 {
      var w, bps := Min(wage, ORDINARY_WAGE_CEILING_CENTS_2026), RateForAge(age).employeeBps;
      TimesMonotone(0, w, bps);
      FloorTwice(w * bps);
    } else if wage > 50000 {
      FloorTwice((wage - 50000) * 1500);
    }
  }

  lemma PayIs(p: Person, gross: int)
    ensures PayAt(p, gross) ==
            if p.status.FullTime? then Max(gross, 0) - 100 * Dollars(p.age, gross) else Max(gross, 0)
  {
    hide CalculateContribution, Dollars;
    EmployeeDollars(p.age, Max(gross, 0));
    NoDollars(p.age, gross);
    OnlyFullTime(p.age, Max(gross, 0), p.status);
  }

  lemma NoDollars(age: int, gross: int)
    ensures Dollars(age, Max(gross, 0)) == Dollars(age, gross)
  {
  }

  lemma OnlyFullTime(age: int, wage: int, status: EmploymentStatus)
    ensures !status.FullTime? ==> CalculateContribution(age, wage, status).employee == 0
  {
  }

  /** For any two wages: the higher one pays less exactly when the raise is smaller
      than the whole dollars of contribution it adds. */
  lemma RaiseLosesExactly(p: Person, low: int, high: int)
    requires low <= high
    ensures PayAt(p, high) < PayAt(p, low) <==>
            p.status.FullTime? && Max(high, 0) - Max(low, 0) < 100 * (Dollars(p.age, high) - Dollars(p.age, low))
  {
    hide PayAt, Dollars;
    PayIs(p, low);
    PayIs(p, high);
  }

  // ---- one cent more ----

  // One cent more completes another dollar of contribution.
  predicate CompletesDollar(age: int, wage: int) {
    var bps := RateForAge(age).employeeBps;
    || (50000 <= wage < 75000 && (wage - 50000) * 1500 % 1_000_000 >= 998_500)
    || (wage == 75000 && age <= 70)
    || (75000 < wage < ORDINARY_WAGE_CEILING_CENTS_2026 && wage * bps % 1_000_000 >= 1_000_000 - bps)
  }

  lemma DollarBoundary(x: int, step: int)
    requires x >= 0 && 0 < step <= 1_000_000
    ensures (x + step) / 1_000_000 > x / 1_000_000 <==> x % 1_000_000 >= 1_000_000 - step
    ensures (x + step) / 1_000_000 >= x / 1_000_000
  {
  }

  lemma DollarsOneCentMore(age: int, wage: int)
    ensures Dollars(age, wage + 1) > Dollars(age, wage) <==> CompletesDollar(age, wage)
    ensures Dollars(age, wage + 1) >= Dollars(age, wage)
  {
    var bps := RateForAge(age).employeeBps;
    if 50000 <= wage < 75000 {
      DollarBoundary((wage - 50000) * 1500, 1500);
    } else if 75000 < wage < ORDINARY_WAGE_CEILING_CENTS_2026 {
      TimesMonotone(0, wage, bps);
      assert (wage + 1) * bps == wage * bps + bps;
      DollarBoundary(wage * bps, bps);
    }
  }

  /** One cent more of gross pay lowers take-home pay exactly for a full-time
      employee whose contribution it brings to another whole dollar: in the middle
      band, at its upper edge up to age 70, or in the top band below the ceiling. */
  lemma CentLosesExactly(p: Person, gross: int)
    ensures PayAt(p, gross + 1) < PayAt(p, gross) <==> p.status.FullTime? && CompletesDollar(p.age, gross)
  {
    hide PayAt, Dollars, CompletesDollar;
    PayIs(p, gross);
    PayIs(p, gross + 1);
    DollarsOneCentMore(p.age, gross);
    NeverBelowTheBands(p.age, gross);
  }

  lemma NeverBelowTheBands(age: int, gross: int)
    ensures gross < 0 ==> !CompletesDollar(age, gross)
  {
  }

  // ---- whole dollars ----

  lemma BoundaryOfStep(x: int, step: int)
    requires x >= 0 && 0 <= step <= 200_000
    ensures x / 1_000_000 <= (x + step) / 1_000_000 <= x / 1_000_000 + 1
  {
  }

  lemma DollarsOneDollarMore(age: int, d: nat)
    requires d != EDGE
    ensures Dollars(age, 100 * d) <= Dollars(age, 100 * d + 100) <= Dollars(age, 100 * d) + 1
  {
    var bps := RateForAge(age).employeeBps;
    if 500 <= d < EDGE {
      BoundaryOfStep((100 * d - 50000) * 1500, 150_000);
    } else if EDGE < d < 8000 {
      TimesMonotone(0, 100 * d, bps);
      assert (100 * d + 100) * bps == 100 * d * bps + 100 * bps;
      BoundaryOfStep(100 * d * bps, 100 * bps);
    }
  }

  lemma DollarsAtEdge(age: int)
    ensures Dollars(age, 75000) == 37
    ensures Dollars(age, 75100) > 38 <==> age <= 70
  {
  }

  /** One whole dollar more on a whole-dollar wage lowers take-home pay exactly at
      the edge from 750 to 751 dollars, up to age 70. */
  lemma DollarLosesExactly(p: Person, d: nat)
    ensures PayAt(p, 100 * d + 100) < PayAt(p, 100 * d) <==> p.status.FullTime? && d == EDGE && p.age <= 70
  {
    hide PayAt, Dollars;
    PayIs(p, 100 * d);
    PayIs(p, 100 * d + 100);
    if d == EDGE { DollarsAtEdge(p.age); } else { DollarsOneDollarMore(p.age, d); }
  }

  /** So no raise from one whole-dollar wage to another lowers take-home pay
      unless it crosses that edge. */
  lemma {:induction false} RaiseOffTheEdge(p: Person, d: nat, e: nat)
    requires d <= e && (e <= EDGE || EDGE < d || p.age > 70 || !p.status.FullTime?)
    ensures PayAt(p, 100 * d) <= PayAt(p, 100 * e)
  {
    hide PayAt;
    if d < e {
      RaiseOffTheEdge(p, d, e - 1);
      DollarLosesExactly(p, e - 1);
    }
  }

  // The whole-dollar wage at which the pay lost at the edge is made up.
  function MadeUpAt(age: int): nat {
    if age <= 55 then 891 else if age <= 60 then 869 else if age <= 65 then 814 else 770
  }

  lemma PayAroundMadeUp(p: Person)
    requires p.status.FullTime? && p.age <= 70
    ensures PayAt(p, 75000) == 71300
    ensures PayAt(p, 100 * MadeUpAt(p.age)) >= 71300 > PayAt(p, 100 * (MadeUpAt(p.age) - 1))
  {
    hide PayAt;
    var m := MadeUpAt(p.age);
    PayIs(p, 75000);
    PayIs(p, 100 * m);
    PayIs(p, 100 * (m - 1));
  }

  /** A raise from 750 dollars to a higher whole-dollar wage is a loss exactly
      until the wage at which the jump in contributions is made up. */
  lemma LossAtEdgeExactly(p: Person, e: nat)
    requires e > EDGE
    ensures PayAt(p, 100 * e) < PayAt(p, 100 * EDGE) <==> p.status.FullTime? && p.age <= 70 && e < MadeUpAt(p.age)
  {
    hide PayAt, MadeUpAt;
    if !p.status.FullTime? || p.age > 70 {
      RaiseOffTheEdge(p, EDGE, e);
    } else {
      var m := MadeUpAt(p.age);
      assert m > EDGE + 1 by { MadeUpLater(p.age); }
      PayAroundMadeUp(p);
      if e < m { RaiseOffTheEdge(p, e, m - 1); } else { RaiseOffTheEdge(p, m, e); }
    }
  }

  lemma MadeUpLater(age: int)
    ensures MadeUpAt(age) > EDGE + 1
  {
  }

  // ---- how much can be lost ----

  lemma DollarsApart(x: int, y: int)
    requires 0 <= x <= y
    ensures 100 * (y / 1_000_000 - x / 1_000_000) * 10_000 < y - x + 1_000_000
  {
  }

  /** Two wages on the same side of the edge differ the wrong way by less than a dollar. */
  lemma LossUnderADollar(p: Person, low: int, high: int)
    requires low <= high && (high <= 75000 || 75000 < low)
    ensures PayAt(p, low) - PayAt(p, high) < 100
  {
    hide PayAt;
    PayIs(p, low);
    PayIs(p, high);
    var bps := RateForAge(p.age).employeeBps;
    if high <= 75000 {
      DollarsApart(Max(low - 50000, 0) * 1500, Max(high - 50000, 0) * 1500);
    } else {
      var v, w := Min(low, ORDINARY_WAGE_CEILING_CENTS_2026), Min(high, ORDINARY_WAGE_CEILING_CENTS_2026);
      TimesMonotone(0, v, bps);
      TimesMonotone(v, w, bps);
      TimesMonotone(bps, 2000, w - v);
      assert w * bps - v * bps == bps * (w - v);
      DollarsApart(v * bps, w * bps);
    }
  }

  /** A raise of a dollar at the edge, and a raise of a cent elsewhere, that cost
      a thirty-year-old money. */
  lemma TakeHomeCanFall(p: Person)
    requires p.status.FullTime? && p.age == 30
    ensures PayAt(p, 75100) == 60100 < 71300 == PayAt(p, 75000)
    ensures PayAt(p, 80500) == 64400 < 64499 == PayAt(p, 80499)
  {
    hide PayAt;
    PayIs(p, 75000);
    PayIs(p, 75100);
    PayIs(p, 80499);
    PayIs(p, 80500);
  }
}
