/**
 * The constant-product invariant engine shared by the three pool classes of
 * the system: the Decimal `Pool` (api/app/models/pool.py and its duplicate
 * app/models/pool.py) and the float `LiquidityPool` (app/pools/models.py).
 * All three compute a swap by the same formulas: hold K fixed, move the input
 * reserve, solve for the output reserve. Quantities are exact reals here.
 */
module Amm {
  import opened Wrappers

  /** A pool's reserve of X, reserve of Y and its stored constant K. */
  datatype Reserves = Reserves(x: real, y: real, k: real)

  datatype PoolError =
    | NonPositiveAmount          // a swap input that is zero or negative
    | NegativeAmount             // a liquidity delta below zero
    | InsufficientReserves       // removing more than the pool holds
    | DivisionUndefined          // Decimal division with a zero divisor
    | NonPositiveInitialReserves // a LiquidityPool seeded with a reserve <= 0

  /** A completed swap: the reserves afterwards and the amount paid out. */
  datatype Swap = Swap(after: Reserves, amountOut: real)

  /** The invariant of the Decimal pool: non-negative reserves whose product is K. */
  predicate Balanced(r: Reserves)
  {
    0.0 <= r.x && 0.0 <= r.y && r.x * r.y == r.k
  }

  /** The invariant of the float pool: positive reserves whose product is K. */
  predicate Positive(r: Reserves)
  {
    0.0 < r.x && 0.0 < r.y && r.x * r.y == r.k
  }

  /** Seeding a pool: both reserves must be positive, and K is their product. */
  function InitialReserves(x0: real, y0: real): (r: Result<Reserves, PoolError>)
    ensures r.Ok? <==> 0.0 < x0 && 0.0 < y0
    ensures r.Err? ==> r.error == NonPositiveInitialReserves
    ensures r.Ok? ==> r.value.x == x0 && r.value.y == y0 && Positive(r.value)
  {
    if x0 <= 0.0 || y0 <= 0.0 then Err(NonPositiveInitialReserves)
    else Ok(Reserves(x0, y0, x0 * y0))
  }

  /**
   * Send `dx` of X into the pool: X grows by `dx`, Y becomes K / (x + dx),
   * and the caller receives the drop in Y. K is not recomputed.
   */
  function SwapXForY(r: Reserves, dx: real): (o: Result<Swap, PoolError>)
    ensures o.Ok? <==> 0.0 < dx && r.x + dx != 0.0
    ensures dx <= 0.0 ==> o == Err(NonPositiveAmount)
    ensures 0.0 < dx && r.x + dx == 0.0 ==> o == Err(DivisionUndefined)
    ensures o.Ok? ==>
      && o.value.after.x == r.x + dx
      && o.value.after.x * o.value.after.y == r.k
      && o.value.after.k == r.k
      && o.value.amountOut == r.y - o.value.after.y
  {
    if dx <= 0.0 then Err(NonPositiveAmount)
    else
      var xNew := r.x + dx;
      if xNew == 0.0 then Err(DivisionUndefined)
      else
        var yNew := r.k / xNew;
        Ok(Swap(Reserves(xNew, yNew, r.k), r.y - yNew))
  }

  /** The mirror image of SwapXForY: send `dy` of Y in, receive X. */
  function SwapYForX(r: Reserves, dy: real): (o: Result<Swap, PoolError>)
    ensures o.Ok? <==> 0.0 < dy && r.y + dy != 0.0
    ensures dy <= 0.0 ==> o == Err(NonPositiveAmount)
    ensures 0.0 < dy && r.y + dy == 0.0 ==> o == Err(DivisionUndefined)
    ensures o.Ok? ==>
      && o.value.after.y == r.y + dy
      && o.value.after.x * o.value.after.y == r.k
      && o.value.after.k == r.k
      && o.value.amountOut == r.x - o.value.after.x
  {
    if dy <= 0.0 then Err(NonPositiveAmount)
    else
      var yNew := r.y + dy;
      if yNew == 0.0 then Err(DivisionUndefined)
      else
        var xNew := r.k / yNew;
        Ok(Swap(Reserves(xNew, yNew, r.k), r.x - xNew))
  }

  /** Management deposit: grow both reserves, then recompute K from them. */
  function AddLiquidity(r: Reserves, dx: real, dy: real): (o: Result<Reserves, PoolError>)
    ensures o.Ok? <==> 0.0 <= dx && 0.0 <= dy
    ensures o.Err? ==> o.error == NegativeAmount
    ensures o.Ok? ==>
      && o.value.x == r.x + dx && o.value.y == r.y + dy
      && o.value.k == o.value.x * o.value.y
  {
    if dx < 0.0 || dy < 0.0 then Err(NegativeAmount)
    else Ok(Reserves(r.x + dx, r.y + dy, (r.x + dx) * (r.y + dy)))
  }

  /**
   * Management withdrawal: reject negative deltas, then deltas larger than the
   * reserves; otherwise shrink both reserves and recompute K. The result is
   * Balanced whatever the state before.
   */
  function RemoveLiquidity(r: Reserves, dx: real, dy: real): (o: Result<Reserves, PoolError>)
    ensures o.Ok? <==> 0.0 <= dx && 0.0 <= dy && dx <= r.x && dy <= r.y
    ensures (dx < 0.0 || dy < 0.0) ==> o == Err(NegativeAmount)
    ensures 0.0 <= dx && 0.0 <= dy && (r.x < dx || r.y < dy) ==> o == Err(InsufficientReserves)
    ensures o.Ok? ==> o.value.x == r.x - dx && o.value.y == r.y - dy && Balanced(o.value)
  {
    if dx < 0.0 || dy < 0.0 then Err(NegativeAmount)
    else if r.x < dx || r.y < dy then Err(InsufficientReserves)
    else Ok(Reserves(r.x - dx, r.y - dy, (r.x - dx) * (r.y - dy)))
  }

  /** The product of two positive numbers is positive. */
  lemma ProductPositive(a: real, b: real)
    requires 0.0 < a && 0.0 < b
    ensures 0.0 < a * b
  {
  }

  /** A factor whose product with a positive number is positive is positive. */
  lemma PositiveFactor(a: real, c: real)
    requires 0.0 < c && 0.0 < a * c
    ensures 0.0 < a
  {
  }

  /** A factor whose product with a positive number is non-negative is non-negative. */
  lemma NonNegativeFactor(a: real, c: real)
    requires 0.0 < c && 0.0 <= a * c
    ensures 0.0 <= a
  {
  }

  /** Cancelling a positive factor keeps a strict inequality. */
  lemma CancelLess(a: real, b: real, c: real)
    requires 0.0 < c && a * c < b * c
    ensures a < b
  {
    assert (b - a) * c == b * c - a * c;
    PositiveFactor(b - a, c);
  }

  /** Cancelling a positive factor keeps an equality. */
  lemma CancelEqual(a: real, b: real, c: real)
    requires 0.0 < c && a * c == b * c
    ensures a == b
  {
    assert (b - a) * c == 0.0;
  }

  /** Growing one side of a fixed positive product strictly shrinks the other. */
  lemma OtherSideShrinks(a: real, b: real, aNew: real, bNew: real)
    requires 0.0 < b && a < aNew && 0.0 < aNew && bNew * aNew == a * b
    ensures bNew < b
  {
    ProductPositive(aNew - a, b);
    assert (aNew - a) * b == aNew * b - a * b;
    assert bNew * aNew < b * aNew;
    CancelLess(bNew, b, aNew);
  }

  /** From positive reserves, a positive input is accepted, pays out strictly
      between 0 and the Y reserve, and leaves the reserves positive. */
  lemma SwapXForYBounds(r: Reserves, dx: real)
    requires Positive(r) && 0.0 < dx
    ensures SwapXForY(r, dx).Ok?
    ensures var s := SwapXForY(r, dx).value;
      0.0 < s.amountOut < r.y && Positive(s.after)
  {
    var s := SwapXForY(r, dx).value;
    var xNew := r.x + dx;
    assert s.after.y * xNew == r.x * r.y;
    OtherSideShrinks(r.x, r.y, xNew, s.after.y);
    ProductPositive(r.x, r.y);
    PositiveFactor(s.after.y, xNew);
  }

  /** The mirror of SwapXForYBounds for a Y-to-X swap. */
  lemma SwapYForXBounds(r: Reserves, dy: real)
    requires Positive(r) && 0.0 < dy
    ensures SwapYForX(r, dy).Ok?
    ensures var s := SwapYForX(r, dy).value;
      0.0 < s.amountOut < r.x && Positive(s.after)
  {
    var s := SwapYForX(r, dy).value;
    var yNew := r.y + dy;
    assert s.after.x * yNew == r.y * r.x;
    OtherSideShrinks(r.y, r.x, yNew, s.after.x);
    ProductPositive(r.x, r.y);
    PositiveFactor(s.after.x, yNew);
  }

  /** A swap of a positive amount from a Balanced state is accepted and leaves it Balanced. */
  lemma SwapsPreserveBalanced(r: Reserves, d: real)
    requires Balanced(r) && 0.0 < d
    ensures SwapXForY(r, d).Ok? && Balanced(SwapXForY(r, d).value.after)
    ensures SwapYForX(r, d).Ok? && Balanced(SwapYForX(r, d).value.after)
  {
    var sx := SwapXForY(r, d).value.after;
    assert sx.y * (r.x + d) == r.k;
    NonNegativeFactor(sx.y, r.x + d);
    var sy := SwapYForX(r, d).value.after;
    assert sy.x * (r.y + d) == r.k;
    NonNegativeFactor(sy.x, r.y + d);
  }

  /**
   * Exact arithmetic makes a swap reversible: swapping `dx` of X for Y and then
   * the Y received back for X restores the reserves and returns exactly `dx`.
   */
  lemma SwapXForYThenBack(r: Reserves, dx: real)
    requires Balanced(r) && 0.0 < r.y && 0.0 < dx
    ensures SwapXForY(r, dx).Ok?
    ensures var s := SwapXForY(r, dx).value;
      && 0.0 < s.amountOut
      && SwapYForX(s.after, s.amountOut) == Ok(Swap(r, dx))
  {
    SwapsPreserveBalanced(r, dx);
    var s := SwapXForY(r, dx).value;
    var xNew := r.x + dx;
    assert s.after.y * xNew == r.x * r.y;
    OtherSideShrinks(r.x, r.y, xNew, s.after.y);
    var back := SwapYForX(s.after, s.amountOut).value;
    assert s.after.y + s.amountOut == r.y;
    assert back.after.y == r.y;
    assert back.after.x * back.after.y == r.k;
    assert back.after.x * r.y == r.x * r.y;
    CancelEqual(back.after.x, r.x, r.y);
  }

  /** The mirror of SwapXForYThenBack, starting with a Y-to-X swap. */
  lemma SwapYForXThenBack(r: Reserves, dy: real)
    requires Balanced(r) && 0.0 < r.x && 0.0 < dy
    ensures SwapYForX(r, dy).Ok?
    ensures var s := SwapYForX(r, dy).value;
      && 0.0 < s.amountOut
      && SwapXForY(s.after, s.amountOut) == Ok(Swap(r, dy))
  {
    SwapsPreserveBalanced(r, dy);
    var s := SwapYForX(r, dy).value;
    var yNew := r.y + dy;
    assert s.after.x * yNew == r.y * r.x;
    OtherSideShrinks(r.y, r.x, yNew, s.after.x);
    var back := SwapXForY(s.after, s.amountOut).value;
    assert s.after.x + s.amountOut == r.x;
    assert back.after.x == r.x;
    assert back.after.x * back.after.y == r.k;
    assert back.after.y * r.x == r.y * r.x;
    CancelEqual(back.after.y, r.y, r.x);
  }

  /** A deposit accepted from a Balanced state leaves it Balanced. */
  lemma AddLiquidityPreservesBalanced(r: Reserves, dx: real, dy: real)
    requires Balanced(r) && 0.0 <= dx && 0.0 <= dy
    ensures AddLiquidity(r, dx, dy).Ok? && Balanced(AddLiquidity(r, dx, dy).value)
  {
    var a := AddLiquidity(r, dx, dy).value;
    assert 0.0 <= a.x * a.y;
  }

  /** Withdrawing exactly what was just deposited restores a Balanced pool. */
  lemma AddThenRemoveLiquidity(r: Reserves, dx: real, dy: real)
    requires Balanced(r) && 0.0 <= dx && 0.0 <= dy
    ensures AddLiquidity(r, dx, dy).Ok?
    ensures RemoveLiquidity(AddLiquidity(r, dx, dy).value, dx, dy) == Ok(r)
  {
    var a := AddLiquidity(r, dx, dy).value;
    assert a.x - dx == r.x && a.y - dy == r.y;
    assert RemoveLiquidity(a, dx, dy).value == Reserves(r.x, r.y, r.x * r.y);
  }
}
