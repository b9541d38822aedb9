/** The claim-cost schedules of Town.getTownBlockCostN and
    Town.getBonusBlockCostN, on exact reals: the price of the claim that takes
    the count from c to c+1 is price × increase^c, and Math.round is
    "nearest integer, halves up". */
module ClaimCost {
  import opened TownyObjects

  /** Math.pow with a natural exponent. */
  function Pow(b: real, e: nat): (r: real)
    ensures b >= 0.0 ==> r >= 0.0
  {
    if e == 0 then 1.0 else b * Pow(b, e - 1)
  }

  /** Math.round: the nearest integer, halves rounded up. */
  function Round(x: real): (r: int)
    ensures x - 0.5 < r as real <= x + 0.5
  {
    (x + 0.5).Floor
  }

  /** The unrounded geometric term at the given exponent
      (getTownBlockCost / getBonusBlockCost when the exponent is the count). */
  function Term(price: real, increase: real, e: nat): real
  {
    Pow(increase, e) * price
  }

  /** The rounded terms added by the loop: exponents count+1 .. count+k-1. */
  function RoundedTail(price: real, increase: real, count: nat, k: int): int
    decreases k
  {
    if k <= 1 then 0
    else RoundedTail(price, increase, count, k - 1) + Round(Term(price, increase, count + k - 1))
  }

  /** The cost computed for an effective count n: zero for n == 0; otherwise
      the first term, unrounded, plus the rounded later terms, the total
      rounded. A negative n runs no loop iteration and costs the first term. */
  function CostOfN(price: real, increase: real, count: nat, n: int): real
  {
    if n == 0 then 0.0
    else Round(Term(price, increase, count) + RoundedTail(price, increase, count, n) as real) as real
  }

  /** getTownBlockCostN. */
  function TownBlockCostN(price: real, increase: real, count: nat, inputN: int): (r: Result<real>)
    ensures inputN < 0 <==> r == Err(TownyError("msg_err_negative"))
    ensures inputN == 0 ==> r == Ok(0.0)
  {
    if inputN < 0 then Err(TownyError("msg_err_negative"))
    else Ok(CostOfN(price, increase, count, inputN))
  }

  /** The number of bonus blocks actually costed: the request, cut down to the
      remaining headroom when it would pass the maximum. The sum and the
      difference are Java int arithmetic, so a sum past MaxInt32 wraps to a
      negative value and the cut is skipped. */
  function BonusEffectiveN(current: nat, inputN: int, maxPurchased: int): int
  {
    if Wrap32(current + inputN) > maxPurchased then Wrap32(maxPurchased - current) else inputN
  }

  /** getBonusBlockCostN. */
  function BonusBlockCostN(price: real, increase: real, current: nat, maxPurchased: int, inputN: int): (r: Result<real>)
    ensures inputN < 0 <==> r == Err(TownyError("msg_err_negative"))
  {
    if inputN < 0 then Err(TownyError("msg_err_negative"))
    else Ok(CostOfN(price, increase, current, BonusEffectiveN(current, inputN, maxPurchased)))
  }

  // ---------------------------------------------------------------------
  // The reference schedule and the lemmas connecting the two.

  /** The reference schedule: n terms, each rounded, at exponents
      count .. count+n-1. */
  function RoundedSum(price: real, increase: real, count: nat, n: nat): int
  {
    if n == 0 then 0
    else RoundedSum(price, increase, count, n - 1) + Round(Term(price, increase, count + n - 1))
  }

  lemma RoundShift(x: real, k: int)
    ensures Round(x + k as real) == Round(x) + k
  {
    var a := Round(x + k as real);
    var b := Round(x) + k;
    assert x + k as real - 0.5 < a as real <= x + k as real + 0.5;
    assert x + k as real - 0.5 < b as real <= x + k as real + 0.5;
  }

  lemma {:induction false} TailIsSum(price: real, increase: real, count: nat, n: nat)
    requires n >= 1
    ensures Round(Term(price, increase, count)) + RoundedTail(price, increase, count, n)
         == RoundedSum(price, increase, count, n)
  {
    if n > 1 {
      TailIsSum(price, increase, count, n - 1);
    }
  }

  /** Leaving the first term unrounded changes nothing: the final rounding
      rounds it, because every other addend is a whole number. For n >= 1
      the cost is the sum of n rounded terms. */
  lemma CostIsSumOfRoundedTerms(price: real, increase: real, count: nat, n: nat)
    ensures CostOfN(price, increase, count, n) == RoundedSum(price, increase, count, n) as real
  {
    if n >= 1 {
      RoundShift(Term(price, increase, count), RoundedTail(price, increase, count, n));
      TailIsSum(price, increase, count, n);
    }
  }

  lemma {:induction false} RoundedSumMonotone(price: real, increase: real, count: nat, n: nat, m: nat)
    requires price >= 0.0 && increase >= 0.0 && n <= m
    ensures RoundedSum(price, increase, count, n) <= RoundedSum(price, increase, count, m)
    decreases m
  {
    if n < m {
      RoundedSumMonotone(price, increase, count, n, m - 1);
      assert Term(price, increase, count + m - 1) >= 0.0;
    }
  }

  /** With a non-negative price and increase, claiming more never costs less. */
  lemma CostMonotone(price: real, increase: real, count: nat, n: nat, m: nat)
    requires price >= 0.0 && increase >= 0.0 && n <= m
    ensures CostOfN(price, increase, count, n) <= CostOfN(price, increase, count, m)
  {
    CostIsSumOfRoundedTerms(price, increase, count, n);
    CostIsSumOfRoundedTerms(price, increase, count, m);
    RoundedSumMonotone(price, increase, count, n, m);
  }

  /** The bonus request is capped at the headroom: never more than asked, and
      never past the maximum; a request that fits is costed as asked. This
      holds while current + inputN fits a Java int; past that the sum wraps
      negative and the request is costed in full, past the maximum. */
  lemma BonusCap(current: nat, inputN: int, maxPurchased: int)
    requires inputN >= 0 && current <= maxPurchased
    requires IsInt32(inputN) && IsInt32(maxPurchased)
    ensures current + inputN <= MaxInt32 ==>
      0 <= BonusEffectiveN(current, inputN, maxPurchased) <= inputN
      && current + BonusEffectiveN(current, inputN, maxPurchased) <= maxPurchased
    ensures current + inputN <= maxPurchased ==> BonusEffectiveN(current, inputN, maxPurchased) == inputN
    ensures maxPurchased < current + inputN <= MaxInt32 ==>
      BonusEffectiveN(current, inputN, maxPurchased) == maxPurchased - current
    ensures current + inputN > MaxInt32 ==> BonusEffectiveN(current, inputN, maxPurchased) == inputN
  {
    if current + inputN > MaxInt32 {
      assert Wrap32(current + inputN) == current + inputN - 0x1_0000_0000;
    }
  }

  /** Ten bonus blocks bought, a maximum of 100: a request for 200 is cut to
      90, while a request for MaxInt32 wraps the sum and is costed in full. */
  lemma BonusWrapExample()
    ensures BonusEffectiveN(10, 200, 100) == 90
    ensures BonusEffectiveN(10, MaxInt32, 100) == MaxInt32
  {
  }

  /** A town already past the bonus maximum is still charged the first term:
      the effective count is negative, the loop does not run (while the
      request and the overshoot fit a Java int). */
  lemma OverCapChargesFirstTerm(price: real, increase: real, current: nat, maxPurchased: int, inputN: int)
    requires inputN >= 0 && current > maxPurchased
    requires IsInt32(inputN) && IsInt32(maxPurchased) && current <= MaxInt32
    ensures current + inputN <= MaxInt32 && maxPurchased - current >= MinInt32 ==>
      BonusBlockCostN(price, increase, current, maxPurchased, inputN)
        == Ok(Round(Term(price, increase, current)) as real)
  {
    if current + inputN <= MaxInt32 && maxPurchased - current >= MinInt32 {
      assert RoundedTail(price, increase, current, maxPurchased - current) == 0;
    }
  }

  /** Base price 100, increase 1.1, two claims held: one more claim costs
      round(100 × 1.1²) = 121, two more cost 121 + round(133.1) = 254. */
  lemma ClaimCostExample()
    ensures TownBlockCostN(100.0, 1.1, 2, 1) == Ok(121.0)
    ensures TownBlockCostN(100.0, 1.1, 2, 2) == Ok(254.0)
  {
    assert Pow(1.1, 2) == 1.21;
    assert Pow(1.1, 3) == 1.331;
    assert Round(121.0) == 121;
    assert Round(133.1) == 133;
    assert RoundedTail(100.0, 1.1, 2, 2) == 133;
    assert Round(121.0 + 133.0) == 254;
  }
}
