/**
 * The float `LiquidityPool` dataclass of app/pools/models.py. Construction
 * rejects non-positive reserves and fixes K once; K is a `const` here because
 * nothing after construction assigns it. Prices have no zero guard: the class
 * invariant keeps both reserves positive.
 */
module LiquidityPools {
  import opened Wrappers
  import opened Amm

  class LiquidityPool {
    const id: nat
    var x: real       // x_reserve
    var y: real       // y_reserve
    const K: real

    function State(): Reserves
      reads this
    {
      Reserves(x, y, K)
    }

    /** Both reserves positive and their product equal to K. */
    predicate Valid()
      reads this
    {
      Positive(State())
    }

    /** The success path of construction: `__post_init__` found both reserves positive. */
    constructor (id: nat, x0: real, y0: real)
      requires 0.0 < x0 && 0.0 < y0
      ensures this.id == id && Ok(State()) == InitialReserves(x0, y0) && Valid()
    {
      this.id := id;
      x := x0;
      y := y0;
      K := x0 * y0;
    }

    /** Construction with its check: non-positive reserves raise instead of building a pool. */
    static method Create(id: nat, x0: real, y0: real) returns (r: Result<LiquidityPool, PoolError>)
      ensures r.Ok? <==> 0.0 < x0 && 0.0 < y0
      ensures r.Err? ==> r.error == NonPositiveInitialReserves
      ensures r.Ok? ==>
        fresh(r.value) && r.value.id == id && Ok(r.value.State()) == InitialReserves(x0, y0) && r.value.Valid()
    {
      if x0 <= 0.0 || y0 <= 0.0 {
        return Err(NonPositiveInitialReserves);
      }
      var p := new LiquidityPool(id, x0, y0);
      return Ok(p);
    }

    /** Units of Y per unit of X: positive, and y/x exactly. */
    function PriceXInY(): (p: real)
      reads this
      requires Valid()
      ensures 0.0 < p && p * x == y
    {
      var p := y / x;
      PositiveFactor(p, x);
      p
    }

    /** Units of X per unit of Y: positive, and x/y exactly. */
    function PriceYInX(): (p: real)
      reads this
      requires Valid()
      ensures 0.0 < p && p * y == x
    {
      var p := x / y;
      PositiveFactor(p, y);
      p
    }

    /** Send `dx` of X in and receive Y; only a non-positive input is rejected. */
    method SwapXForY(dx: real) returns (r: Result<real, PoolError>)
      requires Valid()
      modifies this
      ensures Valid()
      ensures var o := Amm.SwapXForY(old(State()), dx);
        && (o.Ok? ==> r == Ok(o.value.amountOut) && State() == o.value.after)
        && (o.Err? ==> r == Err(o.error) && State() == old(State()))
      ensures r.Ok? <==> 0.0 < dx
      ensures r.Ok? ==> 0.0 < r.value < old(y)
    {
      if dx <= 0.0 {
        return Err(NonPositiveAmount);
      }
      SwapXForYBounds(State(), dx);
      var xNew := x + dx;
      var yNew := K / xNew;
      var dy := y - yNew;
      x := xNew;
      y := yNew;
      return Ok(dy);
    }

    /** Send `dy` of Y in and receive X; only a non-positive input is rejected. */
    method SwapYForX(dy: real) returns (r: Result<real, PoolError>)
      requires Valid()
      modifies this
      ensures Valid()
      ensures var o := Amm.SwapYForX(old(State()), dy);
        && (o.Ok? ==> r == Ok(o.value.amountOut) && State() == o.value.after)
        && (o.Err? ==> r == Err(o.error) && State() == old(State()))
      ensures r.Ok? <==> 0.0 < dy
      ensures r.Ok? ==> 0.0 < r.value < old(x)
    {
      if dy <= 0.0 {
        return Err(NonPositiveAmount);
      }
      SwapYForXBounds(State(), dy);
      var yNew := y + dy;
      var xNew := K / yNew;
      var dx := x - xNew;
      y := yNew;
      x := xNew;
      return Ok(dx);
    }
  }
}
