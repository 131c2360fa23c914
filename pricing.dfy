/**
 * The exact-arithmetic part of the price calculator: percentage discounts, the distance-tiered
 * delivery fee and rounding down to a multiple of 100. Money is `decimal`, modelled as `real`;
 * the `(int)` casts and the 32-bit `int` products the source mixes in are modelled exactly.
 */
module Pricing {
  import opened Wrappers
  import opened Numerics

  /** `(int)` of a `decimal` outside the `int` range throws OverflowException. */
  datatype PriceError = Overflow

  /** `ApplyDiscount`: the total less `discountPercent` percent of it. */
  function ApplyDiscount(total: real, discountPercent: real): (r: real)
    ensures discountPercent == 0.0 ==> r == total
    ensures discountPercent == 100.0 ==> r == 0.0
    ensures total >= 0.0 && 0.0 <= discountPercent <= 100.0 ==> 0.0 <= r <= total
    ensures total > 0.0 && discountPercent > 100.0 ==> r < 0.0
    ensures r == total * (100.0 - discountPercent) / 100.0
  {
    total - total * discountPercent / 100.0
  }

  /** Two discounts in a row are one discount of `a + b - a·b/100` percent. */
  lemma DiscountsCompose(total: real, a: real, b: real)
    ensures ApplyDiscount(ApplyDiscount(total, a), b) == ApplyDiscount(total, a + b - a * b / 100.0)
  {
    calc {
      ApplyDiscount(ApplyDiscount(total, a), b);
      total * (100.0 - a) / 100.0 * (100.0 - b) / 100.0;
      { assert (100.0 - a) * (100.0 - b) == 100.0 * (100.0 - (a + b - a * b / 100.0)); }
      total * (100.0 - (a + b - a * b / 100.0)) / 100.0;
    }
  }

  /** A larger discount never leaves a larger total, for a non-negative total. */
  lemma DiscountAntitone(total: real, a: real, b: real)
    requires total >= 0.0 && a <= b
    ensures ApplyDiscount(total, b) <= ApplyDiscount(total, a)
  {
    var extra := total * (b - a);
    assert extra >= 0.0 by {
      NonNegativeProduct(total, b - a);
    }
    assert total * b == total * a + extra;
    assert total * b / 100.0 == total * a / 100.0 + extra / 100.0;
  }

  lemma NonNegativeProduct(x: real, y: real)
    requires x >= 0.0 && y >= 0.0
    ensures x * y >= 0.0
  {
  }

  /** The whole kilometres charged beyond the first five, or the cast's overflow. */
  function ExtraKilometres(distance: real): (r: Option<Int32>)
    requires distance > 5.0
    ensures r == DecimalToInt32(distance - 5.0)
    ensures r.Some? ==> 0 <= r.value && r.value as real <= distance - 5.0 < r.value as real + 1.0
  {
    DecimalToInt32(distance - 5.0)
  }

  /**
   * `CalculateDeliveryFee`, as written: the base rate up to 5 km, then 2000 per whole extra
   * kilometre, the product taken in 32-bit `int` arithmetic.
   */
  function CalculateDeliveryFee(distance: real, baseRate: real): (r: Result<real, PriceError>)
    ensures distance <= 5.0 ==> r == Ok(baseRate)
    ensures r.Err? <==> distance > 5.0 && TruncReal(distance - 5.0) > INT32_MAX
    ensures distance > 5.0 && TruncReal(distance - 5.0) * 2000 <= INT32_MAX ==>
      r == Ok(baseRate + (2000 * TruncReal(distance - 5.0)) as real)
  {
    if distance <= 5.0 then Ok(baseRate)
    else match ExtraKilometres(distance)
      case None => Err(Overflow)
      case Some(km) => Ok(baseRate + Wrap32(km * 2000) as real)
  }

  /** `(int)` truncation keeps order. */
  lemma TruncMonotone(x: real, y: real)
    requires 0.0 <= x <= y
    ensures TruncReal(x) <= TruncReal(y)
  {
  }

  /** The largest whole extra distance whose 2000-per-km charge still fits in an `int`. */
  const MAX_EXACT_KM: int := INT32_MAX / 2000

  /** Up to 5 + MAX_EXACT_KM + 1 km, a longer distance never costs less. */
  lemma DeliveryFeeMonotone(d1: real, d2: real, baseRate: real)
    requires d1 <= d2 < (5 + MAX_EXACT_KM + 1) as real
    ensures CalculateDeliveryFee(d1, baseRate).Ok? && CalculateDeliveryFee(d2, baseRate).Ok?
    ensures CalculateDeliveryFee(d1, baseRate).value <= CalculateDeliveryFee(d2, baseRate).value
  {
    if d2 > 5.0 {
      assert TruncReal(d2 - 5.0) <= MAX_EXACT_KM;
      if d1 > 5.0 {
        TruncMonotone(d1 - 5.0, d2 - 5.0);
      }
    }
  }

  /** Beyond that distance the 32-bit product wraps and the fee turns negative. */
  lemma DeliveryFeeWrapsNegative()
    ensures CalculateDeliveryFee(1073747.0, 0.0) == Ok(-2147483296.0)
    ensures CalculateDeliveryFee(1073746.0, 0.0) == Ok(2147482000.0)
  {
    assert TruncReal(1073742.0) == 1073742;
    assert TruncReal(1073741.0) == 1073741;
  }

  /** The fee as evidently intended: 2000 per whole extra kilometre, in `decimal` throughout. */
  function DeliveryFeeExact(distance: real, baseRate: real): (r: real)
    ensures distance <= 5.0 ==> r == baseRate
    ensures distance > 5.0 ==> r == baseRate + (2000 * TruncReal(distance - 5.0)) as real
  {
    if distance <= 5.0 then baseRate else baseRate + (2000 * TruncReal(distance - 5.0)) as real
  }

  /** The corrected fee never decreases with distance, and never drops below the base rate. */
  lemma DeliveryFeeExactMonotone(d1: real, d2: real, baseRate: real)
    requires d1 <= d2
    ensures baseRate <= DeliveryFeeExact(d1, baseRate) <= DeliveryFeeExact(d2, baseRate)
  {
    if d1 > 5.0 {
      TruncMonotone(d1 - 5.0, d2 - 5.0);
    }
  }

  /** Where the source does not overflow, it agrees with the corrected fee. */
  lemma DeliveryFeeAgrees(distance: real, baseRate: real)
    requires distance < (5 + MAX_EXACT_KM + 1) as real
    ensures CalculateDeliveryFee(distance, baseRate) == Ok(DeliveryFeeExact(distance, baseRate))
  {
    if distance > 5.0 {
      assert TruncReal(distance - 5.0) <= MAX_EXACT_KM;
    }
  }

  /** `RoundToNearestCurrency`, as written: `(int)(amount / 100) * 100` in 32-bit `int` arithmetic. */
  function RoundToNearestCurrency(amount: real): (r: Result<int, PriceError>)
    ensures r.Err? <==> !(INT32_MIN <= TruncReal(amount / 100.0) <= INT32_MAX)
    ensures r.Ok? ==> INT32_MIN <= r.value <= INT32_MAX
  {
    match DecimalToInt32(amount / 100.0)
    case None => Err(Overflow)
    case Some(hundreds) => Ok(Wrap32(hundreds * 100))
  }

  /** Below 2147483700 a non-negative amount is rounded down to a multiple of 100. */
  lemma RoundDownBelowLimit(amount: real)
    requires 0.0 <= amount < 2147483700.0
    ensures RoundToNearestCurrency(amount).Ok?
    ensures var r := RoundToNearestCurrency(amount).value;
            r % 100 == 0 && r as real <= amount < r as real + 100.0
  {
    var h := TruncReal(amount / 100.0);
    assert 0 <= h <= 21474836;
    assert Wrap32(h * 100) == h * 100;
  }

  /** At 2147483700 the product wraps: the "rounded" amount is negative. */
  lemma RoundWrapsAtLimit()
    ensures RoundToNearestCurrency(2147483700.0) == Ok(-2147483596)
  {
    assert TruncReal(2147483700.0 / 100.0) == 21474837;
  }

  /** Rounding as evidently intended: truncate toward zero to a multiple of 100, in `decimal`. */
  function RoundDownToHundred(amount: real): (r: int)
    ensures r % 100 == 0
    ensures amount >= 0.0 ==> r as real <= amount < r as real + 100.0
    ensures amount < 0.0 ==> r as real - 100.0 < amount <= r as real
  {
    100 * TruncReal(amount / 100.0)
  }

  /** Where the source does not wrap, it agrees with the corrected rounding. */
  lemma RoundAgrees(amount: real)
    requires INT32_MIN as real <= amount <= INT32_MAX as real
    ensures RoundToNearestCurrency(amount) == Ok(RoundDownToHundred(amount))
  {
    var h := TruncReal(amount / 100.0);
    assert -21474836 <= h <= 21474836;
    assert Wrap32(h * 100) == h * 100;
  }
}
