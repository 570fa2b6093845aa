/** The mortgage instalment and what repaying it does to the balance.  The
    program's float64 is idealised as a real number; rounding is to the nearest
    cent, halves away from zero. */
module Annuity {
  import opened Money

  function Pow(x: real, n: nat): real {
    if n == 0 then 1.0 else Pow(x, n - 1) * x
  }

  function RoundHalfAway(x: real): int {
    if x >= 0.0 then (x + 0.5).Floor else -((-x + 0.5).Floor)
  }

  function MonthlyRate(annualRateBps: int): real {
    annualRateBps as real / 10000.0 / 12.0
  }

  // The exact instalment of a loan of `b` over n months at monthly rate r.
  function Instalment(b: real, r: real, n: nat): real
    requires r > 0.0 && n > 0
  {
    PowAboveOne(r, n);
    b * (r * Pow(1.0 + r, n)) / (Pow(1.0 + r, n) - 1.0)
  }

  function MonthlyPayment(principal: int, annualRateBps: int, months: int): int {
    if principal <= 0 || months <= 0 then 0
    else if annualRateBps <= 0 then Quo(principal, months)
    else RoundHalfAway(Instalment(principal as real, MonthlyRate(annualRateBps), months))
  }

  // The balance after n months of interest and instalments of p.
  function Balance(b: real, r: real, p: real, n: nat): real {
    if n == 0 then b else Balance(b, r, p, n - 1) * (1.0 + r) - p
  }

  // ---- real arithmetic ----

  lemma TimesPositive(x: real, y: real)
    requires x > 0.0 && y > 0.0
    ensures x * y > 0.0
  {
  }

  lemma TimesUp(x: real, y: real, z: real)
    requires x <= y && z >= 0.0
    ensures x * z <= y * z
  {
    assert (y - x) * z >= 0.0;
  }

  lemma TimesUpStrictly(x: real, y: real, z: real)
    requires x < y && z > 0.0
    ensures x * z < y * z
  {
    assert (y - x) * z > 0.0;
  }

  lemma {:induction false} PowAboveOne(r: real, n: nat)
    requires r > 0.0
    ensures Pow(1.0 + r, n) >= 1.0 && (n > 0 ==> Pow(1.0 + r, n) > 1.0)
  {
    if n > 0 {
      PowAboveOne(r, n - 1);
      TimesUp(1.0, Pow(1.0 + r, n - 1), 1.0 + r);
    }
  }

  // One more month in the two bounds on compound growth.
  lemma GrowthStep(x: real, q: real, r: real, x': real, q': real)
    requires x >= 0.0 && r > 0.0 && q >= 1.0 && x <= q - 1.0 <= x * q
    requires x' == x + r && q' == q + q * r
    ensures x' <= q' - 1.0 < x' * q'
  {
    assert r <= q * r by {
      TimesUp(0.0, q - 1.0, r);
      assert (q - 1.0) * r == q * r - r;
    }
    assert x' <= q' - 1.0;
    Distribute(x, r, q);
    TimesUpStrictly(q, q', x');
    calc {
      q' - 1.0;
    <=
      x * q + q * r;
    ==
      q * x';
    <
      x' * q';
    }
  }

  lemma Distribute(x: real, y: real, z: real)
    ensures z * (x + y) == x * z + y * z
  {
  }

  // n months of simple interest on 1.
  function Simple(n: nat, r: real): real {
    n as real * r
  }

  // Compound growth is at least simple growth, and at most simple growth on
  // the final amount.
  lemma {:induction false} PowBetween(r: real, n: nat)
    requires r > 0.0
    ensures Simple(n, r) <= Pow(1.0 + r, n) - 1.0 <= Simple(n, r) * Pow(1.0 + r, n)
    ensures n > 0 ==> Pow(1.0 + r, n) - 1.0 < Simple(n, r) * Pow(1.0 + r, n)
  {
    hide Simple, Pow;
    NoGrowth(r);
    if n > 0 {
      PowBetween(r, n - 1);
      PowAboveOne(r, n - 1);
      SimpleGrowth(n - 1, r);
      PowStep(r, n - 1);
      GrowthStep(Simple(n - 1, r), Pow(1.0 + r, n - 1), r, Simple(n, r), Pow(1.0 + r, n));
    }
  }

  lemma NoGrowth(r: real)
    ensures Simple(0, r) == 0.0 && Pow(1.0 + r, 0) == 1.0
  {
  }

  lemma PowStep(r: real, m: nat)
    ensures Pow(1.0 + r, m + 1) == Pow(1.0 + r, m) + Pow(1.0 + r, m) * r
  {
  }

  lemma SimpleGrowth(m: nat, r: real)
    requires r > 0.0
    ensures Simple(m, r) >= 0.0 && Simple(m + 1, r) == Simple(m, r) + r
  {
    TimesUp(0.0, m as real, r);
  }

  // ---- repayment ----

  lemma {:induction false} BalanceClosed(b: real, r: real, p: real, n: nat)
    ensures r * Balance(b, r, p, n) == b * r * Pow(1.0 + r, n) - p * (Pow(1.0 + r, n) - 1.0)
  {
    if n > 0 {
      var c, q, c', q' := Balance(b, r, p, n - 1), Pow(1.0 + r, n - 1), Balance(b, r, p, n), Pow(1.0 + r, n);
      assert c' == c * (1.0 + r) - p && q' == q * (1.0 + r);
      hide Balance, Pow;
      BalanceClosed(b, r, p, n - 1);
      BalanceStep(b, r, p, c, q, c', q');
    }
  }

  lemma BalanceStep(b: real, r: real, p: real, c: real, q: real, c': real, q': real)
    requires r * c == b * r * q - p * (q - 1.0)
    requires c' == c * (1.0 + r) - p && q' == q * (1.0 + r)
    ensures r * c' == b * r * q' - p * (q' - 1.0)
  {
    calc {
      r * c';
    ==
      r * c * (1.0 + r) - r * p;
    ==
      (b * r * q - p * (q - 1.0)) * (1.0 + r) - r * p;
    ==
      b * r * q' - p * (q' - 1.0);
    }
  }

  // The instalment as the number whose multiple by q - 1 is b * r * q.
  lemma InstalmentTimes(b: real, r: real, n: nat)
    requires r > 0.0 && n > 0
    ensures Pow(1.0 + r, n) > 1.0
    ensures Instalment(b, r, n) * (Pow(1.0 + r, n) - 1.0) == b * r * Pow(1.0 + r, n)
  {
    PowAboveOne(r, n);
    QuotientTimes(b * (r * Pow(1.0 + r, n)), Pow(1.0 + r, n) - 1.0);
    assert b * (r * Pow(1.0 + r, n)) == b * r * Pow(1.0 + r, n);
  }

  lemma QuotientTimes(x: real, d: real)
    requires d > 0.0
    ensures x / d * d == x
  {
  }

  /** Paying the exact instalment every month clears the loan exactly. */
  lemma ExactInstalmentClears(b: real, r: real, n: nat)
    requires r > 0.0 && n > 0
    ensures Balance(b, r, Instalment(b, r, n), n) == 0.0
  {
    hide Balance, Instalment, Pow;
    BalanceClosed(b, r, Instalment(b, r, n), n);
    InstalmentTimes(b, r, n);
    ZeroProduct(r, Balance(b, r, Instalment(b, r, n), n));
  }

  lemma MonthlyRateIs(annualRateBps: int)
    ensures MonthlyRate(annualRateBps) * 120000.0 == annualRateBps as real
  {
  }

  /** The cases without interest, and no loan. */
  lemma PaymentWithoutInterest(principal: int, annualRateBps: int, months: int)
    ensures var p := MonthlyPayment(principal, annualRateBps, months);
      && (principal <= 0 || months <= 0 ==> p == 0)
      && (principal > 0 && months > 0 && annualRateBps <= 0 ==> p * months <= principal < (p + 1) * months)
  {
    hide Quo;
    if principal > 0 && months > 0 { QuoBounds(principal, months); }
  }

  lemma RoundIsNearest(x: real)
    requires x >= 0.0
    ensures RoundHalfAway(x) as real - 0.5 <= x < RoundHalfAway(x) as real + 0.5
  {
  }

  /** With interest the payment is the nearest cent, halves up, to an exact sum
      that repays the loan: month by month the balance bears a twelfth of the
      yearly rate and loses that sum, and after the tenure nothing is left. */
  lemma PaymentRepays(principal: int, annualRateBps: int, months: int) returns (exact: real, balances: seq<real>)
    requires principal > 0 && annualRateBps > 0 && months > 0
    ensures var p := MonthlyPayment(principal, annualRateBps, months);
      p as real - 0.5 <= exact < p as real + 0.5
    ensures |balances| == months + 1 && balances[0] == principal as real && balances[months] == 0.0
    ensures forall i :: 0 <= i < months ==>
      (balances[i + 1] - balances[i] + exact) * 120000.0 == balances[i] * annualRateBps as real
  {
    hide Balance, Instalment, RoundHalfAway;
    var b, r := principal as real, MonthlyRate(annualRateBps);
    exact := Instalment(b, r, months);
    balances := seq(months + 1, i requires 0 <= i => Balance(b, r, exact, i));
    assert balances[0] == b by { BalanceMonth(b, r, exact, 0, annualRateBps); }
    ExactInstalmentClears(b, r, months);
    InstalmentBounds(b, r, months);
    RoundIsNearest(exact);
    forall i | 0 <= i < months
      ensures (balances[i + 1] - balances[i] + exact) * 120000.0 == balances[i] * annualRateBps as real
    {
      BalanceMonth(b, r, exact, i, annualRateBps);
    }
  }

  lemma BalanceMonth(b: real, r: real, p: real, n: nat, annualRateBps: int)
    requires r == MonthlyRate(annualRateBps)
    ensures Balance(b, r, p, 0) == b
    ensures (Balance(b, r, p, n + 1) - Balance(b, r, p, n) + p) * 120000.0 == Balance(b, r, p, n) * annualRateBps as real
  {
    var x := Balance(b, r, p, n);
    MonthlyRateIs(annualRateBps);
    assert Balance(b, r, p, n + 1) - x + p == x * r;
    assert x * r * 120000.0 == x * (r * 120000.0);
  }

  lemma ZeroProduct(r: real, x: real)
    requires r > 0.0 && r * x == 0.0
    ensures x == 0.0
  {
  }

  lemma RoundingError(x: real)
    ensures -0.5 <= RoundHalfAway(x) as real - x <= 0.5
  {
  }

  function Abs(x: real): real { if x >= 0.0 then x else -x }

  /** Paying an instalment off by e leaves a balance of e * ((1+r)^n - 1) / r. */
  lemma BalanceOfInstalment(b: real, r: real, n: nat, p: real)
    requires r > 0.0 && n > 0
    ensures r * Balance(b, r, p, n) == (Instalment(b, r, n) - p) * (Pow(1.0 + r, n) - 1.0)
  {
    hide Balance, Instalment, Pow;
    BalanceClosed(b, r, p, n);
    InstalmentTimes(b, r, n);
    Difference(Instalment(b, r, n), p, Pow(1.0 + r, n) - 1.0);
  }

  lemma Difference(x: real, y: real, z: real)
    ensures (x - y) * z == x * z - y * z
  {
  }

  /** With the instalment the program returns, rounded to a cent, the final
      balance is within ((1+r)^n - 1) / (2r) cents of nothing, either way. */
  lemma RoundedInstalmentNearlyClears(principal: int, annualRateBps: int, months: int)
    requires principal > 0 && annualRateBps > 0 && months > 0
    ensures var r := MonthlyRate(annualRateBps);
      r > 0.0 &&
      Abs(Balance(principal as real, r, MonthlyPayment(principal, annualRateBps, months) as real, months))
        <= (Pow(1.0 + r, months) - 1.0) / (2.0 * r)
  {
    hide Balance, Instalment, Pow;
    var r, p := MonthlyRate(annualRateBps), MonthlyPayment(principal, annualRateBps, months) as real;
    BalanceOfInstalment(principal as real, r, months, p);
    RoundingError(Instalment(principal as real, r, months));
    PowAboveOne(r, months);
    Within(r, Balance(principal as real, r, p, months), Instalment(principal as real, r, months) - p, Pow(1.0 + r, months) - 1.0);
  }

  lemma Within(r: real, x: real, e: real, d: real)
    requires r > 0.0 && d > 0.0 && r * x == e * d && -0.5 <= e <= 0.5
    ensures Abs(x) <= d / (2.0 * r)
  {
    TimesUp(e, 0.5, d);
    TimesUp(-0.5, e, d);
    var bound := d / (2.0 * r);
    QuotientTimes(d, 2.0 * r);
    assert r * bound == 0.5 * d;
    if x > bound { TimesUpStrictly(bound, x, r); }
    if -x > bound { TimesUpStrictly(bound, -x, r); }
  }

  // ---- bounds on the instalment ----

  /** The instalment exceeds the interest alone, and is at most the interest
      plus an equal share of the loan; it exceeds that share. */
  lemma InstalmentBounds(b: real, r: real, n: nat)
    requires b > 0.0 && r > 0.0 && n > 0
    ensures b * r < Instalment(b, r, n) <= b * (r + 1.0 / n as real)
    ensures b / n as real < Instalment(b, r, n)
  {
    hide Instalment, Pow;
    PowBetween(r, n);
    InstalmentTimes(b, r, n);
    var q, p := Pow(1.0 + r, n), Instalment(b, r, n);
    AboveInterest(b, r, q, p);
    AtMostInterestAndShare(b, r, q, p, n as real);
    AboveShare(b, r, q, p, n as real);
  }

  lemma AboveInterest(b: real, r: real, q: real, p: real)
    requires b > 0.0 && r > 0.0 && q > 1.0 && p * (q - 1.0) == b * r * q
    ensures b * r < p
  {
    TimesPositive(b, r);
    var i, d := b * r, q - 1.0;
    assert i * q == i * d + i;
    Difference(p, i, d);
    if p <= i { TimesUp(p - i, 0.0, d); }
  }

  lemma Cancel(x: real, y: real, d: real)
    requires d > 0.0 && x * d <= y * d
    ensures x <= y
  {
    if x > y { TimesUpStrictly(y, x, d); }
  }

  lemma AtMostInterestAndShare(b: real, r: real, q: real, p: real, n: real)
    requires b > 0.0 && r > 0.0 && q > 1.0 && n > 0.0 && p * (q - 1.0) == b * r * q
    requires n * r <= q - 1.0
    ensures p <= b * (r + 1.0 / n)
  {
    // p = b * r + b * r / (q - 1), and r / (q - 1) is at most 1 / n
    var share := p - b * r;
    assert share * (q - 1.0) == b * r;
    AboveInterest(b, r, q, p);
    TimesUp(n * r, q - 1.0, share);
    assert share * n * r == share * (n * r);
    Cancel(share * n, b, r);
    QuotientTimes(b, n);
    Cancel(share, b / n, n);
    assert b * (r + 1.0 / n) == b * r + b / n;
  }

  lemma AboveShare(b: real, r: real, q: real, p: real, n: real)
    requires b > 0.0 && r > 0.0 && q > 1.0 && n > 0.0 && p * (q - 1.0) == b * r * q
    requires q - 1.0 < n * r * q
    ensures b / n < p
  {
    AboveInterest(b, r, q, p);
    TimesPositive(b, r);
    TimesUpStrictly(q - 1.0, n * r * q, p);
    TimesPositive(r, q);
    assert b * (r * q) == (q - 1.0) * p;
    assert n * r * q * p == (n * p) * (r * q);
    if n * p <= b { TimesUp(n * p, b, r * q); }
    QuotientTimes(b, n);
    if p <= b / n { TimesUp(p, b / n, n); }
  }

  /** A longer tenure has a smaller instalment. */
  lemma LongerIsSmaller(b: real, r: real, n: nat, m: nat)
    requires b > 0.0 && r > 0.0 && 0 < n < m
    ensures Instalment(b, r, m) < Instalment(b, r, n)
  {
    hide Instalment, Pow;
    PowGrows(r, n, m);
    InstalmentTimes(b, r, n);
    InstalmentTimes(b, r, m);
    AboveInterest(b, r, Pow(1.0 + r, n), Instalment(b, r, n));
    AboveInterest(b, r, Pow(1.0 + r, m), Instalment(b, r, m));
    BiggerFactorSmallerShare(b, r, Pow(1.0 + r, n), Pow(1.0 + r, m), Instalment(b, r, n), Instalment(b, r, m));
  }

  lemma {:induction false} PowGrows(r: real, n: nat, m: nat)
    requires r > 0.0 && n < m
    ensures Pow(1.0 + r, n) < Pow(1.0 + r, m)
  {
    PowAboveOne(r, m - 1);
    PowStep(r, m - 1);
    TimesPositive(Pow(1.0 + r, m - 1), r);
    if n < m - 1 { PowGrows(r, n, m - 1); }
  }

  // (p - b r)(q - 1) = b r for both, so the larger q has the smaller p.
  lemma BiggerFactorSmallerShare(b: real, r: real, q: real, q': real, p: real, p': real)
    requires b > 0.0 && r > 0.0 && 1.0 < q < q' && b * r < p && b * r < p'
    requires p * (q - 1.0) == b * r * q && p' * (q' - 1.0) == b * r * q'
    ensures p' < p
  {
    var i := b * r;
    assert (p - i) * (q - 1.0) == i;
    assert (p' - i) * (q' - 1.0) == i;
    if p' >= p {
      TimesUp(p - i, p' - i, q' - 1.0);
      TimesUpStrictly(q - 1.0, q' - 1.0, p - i);
    }
  }

  lemma RoundMonotone(x: real, y: real)
    requires x <= y
    ensures RoundHalfAway(x) <= RoundHalfAway(y)
  {
  }

  lemma RoundAtLeast(k: int, x: real)
    requires k as real <= x
    ensures k <= RoundHalfAway(x)
  {
  }

  /** Interest never makes the monthly payment smaller. */
  lemma NotBelowInterestFree(principal: int, annualRateBps: int, months: int)
    requires annualRateBps > 0
    ensures MonthlyPayment(principal, annualRateBps, months) >= MonthlyPayment(principal, 0, months)
  {
    hide Instalment, RoundHalfAway;
    if principal > 0 && months > 0 {
      InstalmentBounds(principal as real, MonthlyRate(annualRateBps), months);
      ShareRoundsDown(principal, months);
      RoundAtLeast(Quo(principal, months), Instalment(principal as real, MonthlyRate(annualRateBps), months));
    }
  }

  lemma ShareRoundsDown(a: nat, n: int)
    requires n > 0
    ensures Quo(a, n) as real <= a as real / n as real
  {
    QuoBounds(a, n);
    var k := Quo(a, n);
    assert (k * n) as real == k as real * n as real;
    QuotientTimes(a as real, n as real);
    if k as real > a as real / n as real { TimesUpStrictly(a as real / n as real, k as real, n as real); }
  }

  lemma InstalmentMonotone(b: real, b': real, r: real, n: nat)
    requires b <= b' && r > 0.0 && n > 0
    ensures Instalment(b, r, n) <= Instalment(b', r, n)
  {
    hide Instalment, Pow;
    InstalmentTimes(b, r, n);
    InstalmentTimes(b', r, n);
    PowAboveOne(r, n);
    LargerLoan(b, b', r, Pow(1.0 + r, n), Instalment(b, r, n), Instalment(b', r, n));
  }

  lemma LargerLoan(b: real, b': real, r: real, q: real, p: real, p': real)
    requires b <= b' && r > 0.0 && q > 1.0
    requires p * (q - 1.0) == b * r * q && p' * (q - 1.0) == b' * r * q
    ensures p <= p'
  {
    TimesUp(b, b', r);
    var lo, hi := b * r * q, b' * r * q;
    assert lo <= hi by { TimesUp(b * r, b' * r, q); }
    CancelEqual(p, p', q - 1.0, lo, hi);
  }

  lemma CancelEqual(x: real, y: real, d: real, lo: real, hi: real)
    requires d > 0.0 && x * d == lo && y * d == hi && lo <= hi
    ensures x <= y
  {
    Cancel(x, y, d);
  }

  /** A larger loan never has a smaller payment, at any rate and tenure. */
  lemma PaymentMonotone(principal: int, principal': int, annualRateBps: int, months: int)
    requires principal <= principal'
    ensures MonthlyPayment(principal, annualRateBps, months) <= MonthlyPayment(principal', annualRateBps, months)
    ensures MonthlyPayment(principal, annualRateBps, months) >= 0
  {
    hide Instalment, RoundHalfAway;
    if principal' > 0 && months > 0 {
      var p, p' := Max(principal, 0), principal';
      if annualRateBps <= 0 {
        QuoMonotone(p, p', months);
        QuoBounds(p, months);
        QuoBounds(p', months);
      } else {
        var r := MonthlyRate(annualRateBps);
        InstalmentMonotone(p as real, p' as real, r, months);
        RoundMonotone(Instalment(p as real, r, months), Instalment(p' as real, r, months));
        NotNegative(p, r, months);
        NotNegative(p', r, months);
      }
    }
  }

  lemma NotNegative(p: nat, r: real, n: nat)
    requires r > 0.0 && n > 0
    ensures RoundHalfAway(Instalment(p as real, r, n)) >= 0
  {
    hide Instalment, Pow, RoundHalfAway;
    var i := Instalment(p as real, r, n);
    InstalmentTimes(p as real, r, n);
    if p > 0 {
      InstalmentBounds(p as real, r, n);
      TimesPositive(p as real, r);
    } else {
      ZeroProduct(Pow(1.0 + r, n) - 1.0, i);
    }
    RoundAtLeast(0, i);
  }
}
