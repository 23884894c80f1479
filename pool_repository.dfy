/**
 * The in-memory `PoolRepository` of app/pools/repository.py: a dictionary from
 * pool id to LiquidityPool object. Pool ids come from a counter instead of uuid4.
 */
module InMemoryPools {
  import opened Wrappers
  import opened Amm
  import opened LiquidityPools

  datatype RepositoryError =
    | PoolNotFound                  // PoolNotFoundError
    | InvalidReserves(cause: PoolError)  // the ValueError raised by LiquidityPool

  class PoolRepository {
    var pools: map<nat, LiquidityPool>
    var nextId: nat

    /** Every pool is stored under its own id, and every id was drawn from the counter. */
    predicate Valid()
      reads this
    {
      forall i :: i in pools ==> i < nextId && pools[i].id == i
    }

    constructor ()
      ensures Valid() && pools == map[]
    {
      pools := map[];
      nextId := 0;
    }

    /** The pool stored under `id`, or PoolNotFound. */
    function GetPool(id: nat): (r: Result<LiquidityPool, RepositoryError>)
      reads this
      ensures id in pools ==> r == Ok(pools[id])
      ensures id !in pools ==> r == Err(PoolNotFound)
    {
      if id in pools then Ok(pools[id]) else Err(PoolNotFound)
    }

    /**
     * Build a pool and store it under its new id. Invalid reserves raise and
     * leave the dictionary as it was; pools stored before are untouched.
     */
    method CreatePool(xInit: real, yInit: real) returns (r: Result<LiquidityPool, RepositoryError>)
      requires Valid()
      modifies this
      ensures Valid()
      ensures r.Ok? <==> 0.0 < xInit && 0.0 < yInit
      ensures r.Err? ==> r.error == InvalidReserves(NonPositiveInitialReserves) && pools == old(pools)
      ensures r.Ok? ==>
        && fresh(r.value) && r.value.Valid()
        && Ok(r.value.State()) == InitialReserves(xInit, yInit)
        && r.value.id !in old(pools)
        && pools == old(pools)[r.value.id := r.value]
        && GetPool(r.value.id) == Ok(r.value)
      ensures forall i :: i in old(pools) ==> i in pools && pools[i] == old(pools)[i] && unchanged(pools[i])
    {
      var created := LiquidityPool.Create(nextId, xInit, yInit);
      if created.Err? {
        return Err(InvalidReserves(created.error));
      }
      var pool := created.value;
      pools := pools[pool.id := pool];
      nextId := nextId + 1;
      return Ok(pool);
    }
  }
}
