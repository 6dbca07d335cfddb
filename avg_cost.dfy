/** The average-cost top-up calculator: how many more units to buy at the
    current price so that the average cost of the whole holding becomes
    the target. Reading the four numbers and printing are left out. */
module AvgCost {
  import opened Common

  /** A recommendation: buy `amount` more units, paying `additionalCost`,
      ending with `newHolding` units. */
  datatype TopUp = TopUp(amount: real, additionalCost: real, newHolding: real)

  /** `calculate_additional_amount`: solves
      (qty * cost + x * price) / (qty + x) = target for x; no
      recommendation when the price equals the target or when x is not
      positive. */
  function AdditionalAmount(qty: real, cost: real, price: real, target: real): (r: Option<TopUp>)
    ensures r.None? <==> target == price || (qty * cost - qty * target) / (target - price) <= 0.0
    ensures r.Some? ==> r.value.amount > 0.0 && r.value.newHolding > qty
    ensures r.Some? ==> r.value.additionalCost == r.value.amount * price
    ensures r.Some? ==> r.value.newHolding == qty + r.value.amount
  {
    var totalCost := qty * cost;
    var numerator := totalCost - qty * target;
    var denominator := target - price;
    if denominator == 0.0 then None
    else
      var x := numerator / denominator;
      if x <= 0.0 then None
      else Some(TopUp(x, x * price, qty + x))
  }

  /** The amount solves the equation of the derivation: the total cost
      after buying equals the target times the new holding, so with a
      non-negative holding the new average cost is the target. */
  lemma TopUpReachesTarget(qty: real, cost: real, price: real, target: real)
    requires AdditionalAmount(qty, cost, price, target).Some?
    ensures var t := AdditionalAmount(qty, cost, price, target).value;
      qty * cost + t.additionalCost == target * t.newHolding
    ensures var t := AdditionalAmount(qty, cost, price, target).value;
      qty >= 0.0 ==> (qty * cost + t.additionalCost) / t.newHolding == target
  {
    var t := AdditionalAmount(qty, cost, price, target).value;
    var x := t.amount;
    var d := target - price;
    assert x == (qty * cost - qty * target) / d;
    assert x * d == qty * cost - qty * target;
    assert qty * cost + x * price == target * (qty + x);
    if qty >= 0.0 {
      assert t.newHolding > 0.0;
    }
  }

  /** The amount is the only positive one that reaches the target. */
  lemma TopUpUnique(qty: real, cost: real, price: real, target: real, y: real)
    requires target != price && y > 0.0
    requires qty * cost + y * price == target * (qty + y)
    ensures AdditionalAmount(qty, cost, price, target) == Some(TopUp(y, y * price, qty + y))
  {
    var d := target - price;
    assert y * d == qty * cost - qty * target;
    QuotientOfProduct(y, d, qty * cost - qty * target);
    assert (qty * cost - qty * target) / (target - price) == y;
    assert AdditionalAmount(qty, cost, price, target).Some?;
    var t := AdditionalAmount(qty, cost, price, target).value;
    assert t.amount == y;
    assert t == TopUp(y, y * price, qty + y);
  }

  /** With units held above the target cost and a price below the target,
      a top-up is always recommended: buying cheaper units pulls the
      average down to the target. */
  lemma TopUpWhenPriceBelowTarget(qty: real, cost: real, price: real, target: real)
    requires qty > 0.0 && price < target < cost
    ensures AdditionalAmount(qty, cost, price, target).Some?
  {
    var n := qty * cost - qty * target;
    assert n == qty * (cost - target);
    MulPositive(qty, cost - target);
    assert n / (target - price) > 0.0;
  }

  /** Buying above the target can never pull an average that is at or
      above the target down to it: no recommendation then. */
  lemma NoTopUpWhenPriceAboveTarget(qty: real, cost: real, price: real, target: real)
    requires qty >= 0.0 && target <= cost && target < price
    ensures AdditionalAmount(qty, cost, price, target).None?
  {
    var n := qty * cost - qty * target;
    assert n == qty * (cost - target);
    MulNonNegative(qty, cost - target);
    QuotientSign(n, target - price);
  }

  /** Dividing back a product recovers the factor. */
  lemma QuotientOfProduct(y: real, d: real, n: real)
    requires d != 0.0 && y * d == n
    ensures n / d == y
  {
  }

  /** A non-negative amount over a negative divisor is non-positive. */
  lemma QuotientSign(n: real, d: real)
    requires n >= 0.0 && d < 0.0
    ensures n / d <= 0.0
  {
    assert n / d == -(n / (-d));
  }


}
