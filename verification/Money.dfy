/** Integer cents with the program's division, which truncates toward zero. */
module Money {

  function Div(a: nat, d: int): nat
    requires d > 0
  {
    DivNonNegative(a, d);
    a / d
  }

  lemma DivNonNegative(a: nat, d: int)
    requires d > 0
    ensures a / d >= 0
  {
  }

  function Quo(a: int, d: int): int
    requires d > 0
  {
    if a >= 0 then Div(a, d) else
      var q: int := Div(-a, d);
      -q
  }

  function CentsByBps(cents: int, bps: int): int {
    Quo(cents * bps, 10000)
  }

  function Min(a: int, b: int): int { if a < b then a else b }

  function Max(a: int, b: int): int { if a > b then a else b }

  lemma TimesMonotone(x: int, y: int, z: int)
    requires x <= y && z >= 0
    ensures x * z <= y * z
  {
  }

  lemma DivBounds(a: nat, d: int)
    requires d > 0
    ensures Div(a, d) * d <= a < Div(a, d) * d + d
  {
    assert a == (a / d) * d + a % d;
  }

  lemma DivMonotone(a: nat, b: nat, d: int)
    requires d > 0 && a <= b
    ensures Div(a, d) <= Div(b, d)
  {
    hide Div;
    DivBounds(a, d);
    DivBounds(b, d);
    if Div(b, d) + 1 <= Div(a, d) {
      TimesMonotone(Div(b, d) + 1, Div(a, d), d);
    }
  }

  lemma QuoMonotone(a: int, b: int, d: int)
    requires d > 0 && a <= b
    ensures Quo(a, d) <= Quo(b, d)
  {
    hide Div;
    if a >= 0 {
      DivMonotone(a, b, d);
    } else if b < 0 {
      DivMonotone(-b, -a, d);
    }
  }

  // Truncation brings a number toward zero by less than one.
  lemma QuoBounds(a: int, d: int)
    requires d > 0
    ensures a >= 0 ==> Quo(a, d) * d <= a < Quo(a, d) * d + d && Quo(a, d) >= 0
    ensures a <= 0 ==> Quo(a, d) * d - d < a <= Quo(a, d) * d && Quo(a, d) <= 0
  {
    hide Div;
    DivBounds(if a >= 0 then a else -a, d);
    if a == 0 { DivBounds(0, d); }
  }

  lemma CentsByBpsMonotone(a: int, b: int, bps: int)
    requires a <= b && bps >= 0
    ensures CentsByBps(a, bps) <= CentsByBps(b, bps)
  {
    TimesMonotone(a, b, bps);
    QuoMonotone(a * bps, b * bps, 10000);
  }

  lemma CentsByBpsFraction(cents: int, bps: int)
    requires cents >= 0 && 0 <= bps <= 10000
    ensures 0 <= CentsByBps(cents, bps) <= cents
  {
    TimesMonotone(0, cents, bps);
    TimesMonotone(bps, 10000, cents);
    QuoMonotone(0, cents * bps, 10000);
    QuoMonotone(cents * bps, cents * 10000, 10000);
  }

  lemma SharesApart(a: int, b: int, bps: int)
    requires a <= b && 0 <= bps <= 10000
    ensures a * bps <= b * bps <= a * bps + 10000 * (b - a)
  {
    var n := b - a;
    TimesMonotone(0, n, bps);
    TimesMonotone(bps, 10000, n);
    assert b * bps == a * bps + n * bps;
  }

  /** What is left after a share of at most the whole never falls as the whole grows. */
  lemma RemainderMonotone(a: int, b: int, bps: int)
    requires a <= b && 0 <= bps <= 10000
    ensures a - CentsByBps(a, bps) <= b - CentsByBps(b, bps)
  {
    hide Quo;
    var x, y := a * bps, b * bps;
    SharesApart(a, b, bps);
    StepsApart(x, y, b - a);
  }

  lemma StepsApart(x: int, y: int, n: int)
    requires x <= y <= x + 10000 * n
    ensures Quo(y, 10000) <= Quo(x, 10000) + n
  {
    hide Quo;
    QuoMonotone(y, x + 10000 * n, 10000);
    QuoShift(x, n);
  }

  lemma QuoShift(x: int, n: int)
    requires n >= 0
    ensures Quo(x + 10000 * n, 10000) <= Quo(x, 10000) + n
  {
  }
}
