/**
 * The Decimal `Pool` row of api/app/models/pool.py. The file app/models/pool.py
 * holds a line-for-line duplicate of the same class, so this one class models
 * both. Reserves and K are fields updated in place; every method is tied to the
 * pure engine in module Amm.
 */
module DecimalPool {
  import opened Wrappers
  import opened Amm

  class Pool {
    var currencyX: nat
    var currencyY: nat
    var x: real       // x_reserve
    var y: real       // y_reserve
    var K: real       // the stored constant product
    var isActive: bool

    /** The reserves and constant as one value. */
    function State(): Reserves
      reads this
    {
      Reserves(x, y, K)
    }

    /** The documented invariant x_reserve * y_reserve = K, with reserves >= 0. */
    predicate Valid()
      reads this
    {
      Balanced(State())
    }

    /** A row built from explicit column values. */
    constructor (currencyX: nat, currencyY: nat, reserves: Reserves, isActive: bool)
      ensures this.currencyX == currencyX && this.currencyY == currencyY
      ensures State() == reserves && this.isActive == isActive
    {
      this.currencyX := currencyX;
      this.currencyY := currencyY;
      x, y, K := reserves.x, reserves.y, reserves.k;
      this.isActive := isActive;
    }

    /** Units of Y per unit of X, or 0 for an empty X reserve. */
    function PriceXInY(): (p: real)
      reads this
      ensures x == 0.0 ==> p == 0.0
      ensures x != 0.0 ==> p * x == y
    {
      if x == 0.0 then 0.0 else y / x
    }

    /** Units of X per unit of Y, or 0 for an empty Y reserve. */
    function PriceYInX(): (p: real)
      reads this
      ensures y == 0.0 ==> p == 0.0
      ensures y != 0.0 ==> p * y == x
    {
      if y == 0.0 then 0.0 else x / y
    }

    /** Send `dx` of X in and receive Y; a rejected swap changes nothing. */
    method SwapXForY(dx: real) returns (r: Result<real, PoolError>)
      modifies this
      ensures var o := Amm.SwapXForY(old(State()), dx);
        && (o.Ok? ==> r == Ok(o.value.amountOut) && State() == o.value.after)
        && (o.Err? ==> r == Err(o.error) && State() == old(State()))
      ensures currencyX == old(currencyX) && currencyY == old(currencyY) && isActive == old(isActive)
      ensures old(Valid()) && 0.0 < dx ==> r.Ok? && Valid()
    {
      if dx <= 0.0 {
        return Err(NonPositiveAmount);
      }
      var xNew := x + dx;
      if xNew == 0.0 {
        return Err(DivisionUndefined);
      }
      var yNew := K / xNew;
      var dy := y - yNew;
      if Valid() {
        SwapsPreserveBalanced(State(), dx);
      }
      x := xNew;
      y := yNew;
      return Ok(dy);
    }

    /** Send `dy` of Y in and receive X; a rejected swap changes nothing. */
    method SwapYForX(dy: real) returns (r: Result<real, PoolError>)
      modifies this
      ensures var o := Amm.SwapYForX(old(State()), dy);
        && (o.Ok? ==> r == Ok(o.value.amountOut) && State() == o.value.after)
        && (o.Err? ==> r == Err(o.error) && State() == old(State()))
      ensures currencyX == old(currencyX) && currencyY == old(currencyY) && isActive == old(isActive)
      ensures old(Valid()) && 0.0 < dy ==> r.Ok? && Valid()
    {
      if dy <= 0.0 {
        return Err(NonPositiveAmount);
      }
      var yNew := y + dy;
      if yNew == 0.0 {
        return Err(DivisionUndefined);
      }
      var xNew := K / yNew;
      var dx := x - xNew;
      if Valid() {
        SwapsPreserveBalanced(State(), dy);
      }
      y := yNew;
      x := xNew;
      return Ok(dx);
    }

    /** Deposit `dx` and `dy` and recompute K; negative deltas are rejected. */
    method AddLiquidity(dx: real, dy: real) returns (r: Outcome<PoolError>)
      modifies this
      ensures var o := Amm.AddLiquidity(old(State()), dx, dy);
        && (o.Ok? ==> r == Pass && State() == o.value)
        && (o.Err? ==> r == Fail(o.error) && State() == old(State()))
      ensures currencyX == old(currencyX) && currencyY == old(currencyY) && isActive == old(isActive)
      ensures old(Valid()) ==> Valid()
    {
      if dx < 0.0 || dy < 0.0 {
        return Fail(NegativeAmount);
      }
      if Valid() {
        AddLiquidityPreservesBalanced(State(), dx, dy);
      }
      x := x + dx;
      y := y + dy;
      K := x * y;
      return Pass;
    }

    /** Withdraw `dx` and `dy` and recompute K; negative or over-large deltas are rejected. */
    method RemoveLiquidity(dx: real, dy: real) returns (r: Outcome<PoolError>)
      modifies this
      ensures var o := Amm.RemoveLiquidity(old(State()), dx, dy);
        && (o.Ok? ==> r == Pass && State() == o.value)
        && (o.Err? ==> r == Fail(o.error) && State() == old(State()))
      ensures currencyX == old(currencyX) && currencyY == old(currencyY) && isActive == old(isActive)
      ensures r == Pass ==> Valid()
      ensures old(Valid()) ==> Valid()
    {
      if dx < 0.0 || dy < 0.0 {
        return Fail(NegativeAmount);
      }
      if x < dx || y < dy {
        return Fail(InsufficientReserves);
      }
      x := x - dx;
      y := y - dy;
      K := x * y;
      return Pass;
    }
  }

  /** Non-zero prices quoted in both directions are reciprocal. */
  lemma PricesReciprocal(p: Pool)
    requires p.x != 0.0 && p.y != 0.0
    ensures p.PriceXInY() * p.PriceYInX() == 1.0
  {
    var a, b := p.PriceXInY(), p.PriceYInX();
    assert a * p.x == p.y && b * p.y == p.x;
    assert (a * b) * (p.x * p.y) == (a * p.x) * (b * p.y);
    assert (a * b - 1.0) * (p.x * p.y) == 0.0;
    assert p.x * p.y != 0.0;
  }
}
