/**
 * The tiered loyalty rule of `calculatePoints`: a purchase earns one point for
 * every whole dollar above 50 up to 100, and two points for every whole dollar
 * above 100. Cents never earn anything.
 */
module PointCalculator {

  /** Points earned by the d-th whole dollar of a purchase, counting from 1. */
  function DollarRate(d: int): nat {
    if d > 100 then 2 else if d > 50 then 1 else 0
  }

  /** Points earned by w whole dollars: the rates of dollars 1 to w added up. */
  function Earned(w: int): nat
    decreases w
  {
    if w <= 0 then 0 else Earned(w - 1) + DollarRate(w)
  }

  /** The points a purchase of `amount` dollars earns under the per-dollar rule. */
  function Points(amount: real): nat {
    Earned(amount.Floor)
  }

  /** The three tiers of the rule, in closed form. */
  lemma {:induction false} EarnedTiers(w: int)
    ensures w <= 50 ==> Earned(w) == 0
    ensures 50 < w <= 100 ==> Earned(w) == w - 50
    ensures 100 < w ==> Earned(w) == 50 + 2 * (w - 100)
    decreases w
  {
    if w > 0 {
      EarnedTiers(w - 1);
    }
  }

  function Min(a: int, b: int): int {
    if a <= b then a else b
  }

  /**
   * `calculatePoints`: floor the amount, then two guarded additions to an
   * accumulator that starts at zero.
   */
  method CalculatePoints(amount: real) returns (points: int)
    ensures points == Points(amount)
  {
    var wholeDollars := amount.Floor;
    points := 0;

    if wholeDollars > 50 {
      points := points + Min(wholeDollars, 100) - 50;
    }

    if wholeDollars > 100 {
      points := points + (wholeDollars - 100) * 2;
    }

    EarnedTiers(wholeDollars);
  }

  lemma PointsAtMostFifty(amount: real)
    requires amount.Floor <= 50
    ensures Points(amount) == 0
  {
    EarnedTiers(amount.Floor);
  }

  lemma PointsMiddleTier(amount: real)
    requires 50 < amount.Floor <= 100
    ensures Points(amount) == amount.Floor - 50
  {
    EarnedTiers(amount.Floor);
  }

  lemma PointsUpperTier(amount: real)
    requires 100 < amount.Floor
    ensures Points(amount) == 50 + 2 * (amount.Floor - 100)
  {
    EarnedTiers(amount.Floor);
  }

  /** Only the whole dollars count. */
  lemma PointsIgnoreCents(amount: real)
    ensures Points(amount) == Points(amount.Floor as real)
  {
  }

  lemma {:induction false} EarnedMonotone(v: int, w: int)
    requires v <= w
    ensures Earned(v) <= Earned(w)
    decreases w - v
  {
    if v < w {
      EarnedMonotone(v, w - 1);
    }
  }

  /** Spending more never earns fewer points. */
  lemma PointsMonotone(a: real, b: real)
    requires a <= b
    ensures Points(a) <= Points(b)
  {
    EarnedMonotone(a.Floor, b.Floor);
  }

  /** The values the unit tests of `calculatePoints` expect. */
  lemma PointsExamples()
    ensures Points(0.0) == 0 && Points(49.0) == 0 && Points(50.0) == 0
    ensures Points(51.0) == 1 && Points(60.0) == 10 && Points(100.0) == 50
    ensures Points(120.0) == 90 && Points(101.0) == 52
    ensures Points(120.99) == 90 && Points(50.9) == 0
  {
    EarnedTiers(0); EarnedTiers(49); EarnedTiers(50);
    EarnedTiers(51); EarnedTiers(60); EarnedTiers(100);
    EarnedTiers(120); EarnedTiers(101);
  }
}
