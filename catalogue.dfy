/**
 * The database-backed catalogue of currencies and pools
 * (api/app/pools/repository.py). The two tables are maps from row id to row;
 * ids are handed out in increasing order, so "by increasing id" stands for the
 * order in which the database returns rows.
 */
module Catalogue {
  import opened Wrappers
  import opened Amm
  import opened Rows
  import opened Text

  datatype Currency = Currency(symbol: string, name: string, decimals: Option<nat>, imageUrl: Option<string>)

  datatype PoolRow = PoolRow(currencyX: nat, currencyY: nat, reserves: Reserves, isActive: bool)

  datatype CatalogueError =
    | SymbolTaken
    | NameTaken
    | SameCurrency
    | UnknownCurrencyX
    | UnknownCurrencyY
    | PairExists
    | PoolNotFound

  /** A page of rows together with the size of the whole unpaged query. */
  datatype Listing<T> = Listing(rows: seq<(nat, T)>, total: nat)

  /** `get_or_create_currency` stores this many decimals. */
  const DefaultDecimals: nat := 18

  /** `name or symbol`: an absent or empty name falls back to the symbol. */
  function NameOrSymbol(name: Option<string>, symbol: string): (n: string)
    ensures name.Some? && name.value != [] ==> n == name.value
    ensures name.None? || name.value == [] ==> n == symbol
  {
    if name.Some? && name.value != [] then name.value else symbol
  }

  /** Whether a pool of `ps` trades `c` on either side. */
  predicate Used(ps: map<nat, PoolRow>, c: nat)
  {
    exists i :: i in ps && (ps[i].currencyX == c || ps[i].currencyY == c)
  }

  /** The row filter of `get_available_currencies`. */
  function Unused(ps: map<nat, PoolRow>): (nat, Currency) -> bool
  {
    (k: nat, c: Currency) => !Used(ps, k)
  }

  /**
   * The invariant of the two tables: ids are below the counter `bound`, symbols
   * are unique (the `unique=True` column), every pool refers to two different
   * existing currencies, and no two pools share an ordered currency pair (the
   * `uq_pool_currencies` constraint).
   */
  predicate Catalogued(cs: map<nat, Currency>, ps: map<nat, PoolRow>, bound: nat)
  {
    && (forall i :: i in cs ==> i < bound)
    && (forall i :: i in ps ==> i < bound)
    && (forall i, j :: i in cs && j in cs && cs[i].symbol == cs[j].symbol ==> i == j)
    && (forall i :: i in ps ==> ps[i].currencyX in cs && ps[i].currencyY in cs)
    && (forall i :: i in ps ==> ps[i].currencyX != ps[i].currencyY)
    && (forall i, j ::
          i in ps && j in ps && ps[i].currencyX == ps[j].currencyX && ps[i].currencyY == ps[j].currencyY
          ==> i == j)
  }

  /** The row filter "symbol is exactly `symbol`". */
  function HasSymbol(symbol: string): (nat, Currency) -> bool
  {
    (k: nat, c: Currency) => c.symbol == symbol
  }

  /** The first currency (by id) whose symbol is exactly `symbol`, if any. */
  function CurrencyWithSymbol(cs: map<nat, Currency>, bound: nat, symbol: string): (r: Option<nat>)
    ensures r.Some? ==> r.value in cs && cs[r.value].symbol == symbol
    ensures r.None? ==> forall i :: i in cs && i < bound ==> cs[i].symbol != symbol
  {
    var ids := IdsWhere(cs, bound, HasSymbol(symbol));
    if |ids| == 0 then None else Some(ids[0])
  }

  /** Under unique symbols, the lookup by symbol finds the one currency carrying it. */
  lemma SymbolFindsOnly(cs: map<nat, Currency>, ps: map<nat, PoolRow>, bound: nat, symbol: string, id: nat)
    requires Catalogued(cs, ps, bound)
    requires id in cs && cs[id].symbol == symbol
    ensures CurrencyWithSymbol(cs, bound, symbol) == Some(id)
  {
    assert HasSymbol(symbol)(id, cs[id]);
  }

  /** Storing a currency with a fresh symbol under the next id keeps the invariant. */
  lemma AddCurrencyKeeps(cs: map<nat, Currency>, ps: map<nat, PoolRow>, bound: nat, c: Currency)
    requires Catalogued(cs, ps, bound)
    requires forall i :: i in cs ==> cs[i].symbol != c.symbol
    ensures Catalogued(cs[bound := c], ps, bound + 1)
  {
  }

  /** Storing a pool on a new ordered pair of two different existing currencies keeps the invariant. */
  lemma AddPoolKeeps(cs: map<nat, Currency>, ps: map<nat, PoolRow>, bound: nat, p: PoolRow)
    requires Catalogued(cs, ps, bound)
    requires p.currencyX in cs && p.currencyY in cs && p.currencyX != p.currencyY
    requires forall i :: i in ps ==> ps[i].currencyX != p.currencyX || ps[i].currencyY != p.currencyY
    ensures Catalogued(cs, ps[bound := p], bound + 1)
  {
  }

  class Store {
    var currencies: map<nat, Currency>
    var pools: map<nat, PoolRow>
    var nextId: nat

    predicate Valid()
      reads this
    {
      Catalogued(currencies, pools, nextId)
    }

    constructor ()
      ensures Valid()
      ensures currencies == map[] && pools == map[]
    {
      currencies := map[];
      pools := map[];
      nextId := 0;
    }

    /** Whether some currency already carries `name`. */
    predicate NameInUse(name: string)
      reads this
    {
      exists i :: i in currencies && currencies[i].name == name
    }

    /** Whether some pool already trades `currencyX` against `currencyY`, in that order. */
    predicate PairInUse(currencyX: nat, currencyY: nat)
      reads this
    {
      exists i :: i in pools && pools[i].currencyX == currencyX && pools[i].currencyY == currencyY
    }

    /** Whether a pool trades `c` on either side. */
    predicate UsedByPool(c: nat)
      reads this
    {
      Used(pools, c)
    }

    /** Currencies that no pool trades. */
    ghost function AvailableIds(): set<nat>
      reads this
    {
      set c | c in currencies && !UsedByPool(c)
    }

    /**
     * Look a currency up by its upper-cased symbol, or create it with the
     * default decimals and the name falling back to the symbol.
     */
    method GetOrCreateCurrency(symbol: string, name: Option<string>) returns (id: nat)
      requires Valid()
      modifies this
      ensures Valid()
      ensures id in currencies && currencies[id].symbol == Upper(symbol)
      ensures CurrencyWithSymbol(currencies, nextId, Upper(symbol)) == Some(id)
      ensures old(CurrencyWithSymbol(currencies, nextId, Upper(symbol))).Some? ==>
                id == old(CurrencyWithSymbol(currencies, nextId, Upper(symbol))).value
                && currencies == old(currencies) && nextId == old(nextId)
      ensures old(CurrencyWithSymbol(currencies, nextId, Upper(symbol))).None? ==>
                id == old(nextId) && id !in old(currencies)
                && currencies == old(currencies)[id := Currency(Upper(symbol), NameOrSymbol(name, Upper(symbol)), Some(DefaultDecimals), None)]
      ensures pools == old(pools)
    {
      var s := Upper(symbol);
      var found := CurrencyWithSymbol(currencies, nextId, s);
      if found.Some? {
        return found.value;
      }
      id := StoreCurrency(Currency(s, NameOrSymbol(name, s), Some(DefaultDecimals), None));
    }

    /** Store `c`, whose symbol is not taken, under the next id. */
    method StoreCurrency(c: Currency) returns (id: nat)
      requires Valid()
      requires CurrencyWithSymbol(currencies, nextId, c.symbol).None?
      modifies this
      ensures Valid()
      ensures id == old(nextId) && id !in old(currencies) && nextId == old(nextId) + 1
      ensures currencies == old(currencies)[id := c] && pools == old(pools)
      ensures CurrencyWithSymbol(currencies, nextId, c.symbol) == Some(id)
    {
      id := nextId;
      AddCurrencyKeeps(currencies, pools, nextId, c);
      SymbolFindsOnly(currencies[id := c], pools, nextId + 1, c.symbol, id);
      currencies := currencies[id := c];
      nextId := nextId + 1;
    }

    /**
     * Create a currency with a normalised symbol and a stripped name, refusing
     * a symbol that is taken, and then a name that is taken.
     */
    method CreateCurrency(symbol: string, name: string, imageUrl: Option<string>) returns (r: Result<nat, CatalogueError>)
      requires Valid()
      modifies this
      ensures Valid()
      ensures old(CurrencyWithSymbol(currencies, nextId, NormalSymbol(symbol))).Some? ==> r == Err(SymbolTaken)
      ensures old(CurrencyWithSymbol(currencies, nextId, NormalSymbol(symbol))).None? && old(NameInUse(Strip(name))) ==> r == Err(NameTaken)
      ensures r.Err? ==> currencies == old(currencies) && nextId == old(nextId)
      ensures r.Ok? <==> old(CurrencyWithSymbol(currencies, nextId, NormalSymbol(symbol))).None? && !old(NameInUse(Strip(name)))
      ensures r.Ok? ==>
                && r.value == old(nextId) && r.value !in old(currencies)
                && currencies == old(currencies)[r.value := Currency(NormalSymbol(symbol), Strip(name), None, imageUrl)]
                && CurrencyWithSymbol(currencies, nextId, NormalSymbol(symbol)) == Some(r.value)
      ensures pools == old(pools)
    {
      var s := NormalSymbol(symbol);
      var n := Strip(name);
      if CurrencyWithSymbol(currencies, nextId, s).Some? {
        return Err(SymbolTaken);
      }
      if NameInUse(n) {
        return Err(NameTaken);
      }
      var id := StoreCurrency(Currency(s, n, None, imageUrl));
      r := Ok(id);
    }

    /**
     * Create an active pool on two different existing currencies whose ordered
     * pair is new, with `K` the product of the initial reserves.
     */
    method CreatePool(currencyX: nat, currencyY: nat, xInit: real, yInit: real) returns (r: Result<nat, CatalogueError>)
      requires Valid()
      modifies this
      ensures Valid()
      ensures currencyX == currencyY ==> r == Err(SameCurrency)
      ensures currencyX != currencyY && currencyX !in currencies ==> r == Err(UnknownCurrencyX)
      ensures currencyX != currencyY && currencyX in currencies && currencyY !in currencies ==> r == Err(UnknownCurrencyY)
      ensures (currencyX != currencyY && currencyX in currencies && currencyY in currencies
                && old(PairInUse(currencyX, currencyY))) ==> r == Err(PairExists)
      ensures r.Ok? <==> (currencyX != currencyY && currencyX in currencies && currencyY in currencies
                && !old(PairInUse(currencyX, currencyY)))
      ensures r.Err? ==> pools == old(pools) && nextId == old(nextId)
      ensures r.Ok? ==>
                && r.value == old(nextId) && r.value !in old(pools)
                && pools == old(pools)[r.value := PoolRow(currencyX, currencyY, Reserves(xInit, yInit, xInit * yInit), true)]
      ensures currencies == old(currencies)
    {
      if currencyX == currencyY {
        return Err(SameCurrency);
      }
      if currencyX !in currencies {
        return Err(UnknownCurrencyX);
      }
      if currencyY !in currencies {
        return Err(UnknownCurrencyY);
      }
      if PairInUse(currencyX, currencyY) {
        return Err(PairExists);
      }
      var id := nextId;
      var p := PoolRow(currencyX, currencyY, Reserves(xInit, yInit, xInit * yInit), true);
      AddPoolKeeps(currencies, pools, nextId, p);
      pools := pools[id := p];
      nextId := nextId + 1;
      r := Ok(id);
    }

    /** The stored pool, or `PoolNotFound`. */
    function GetPool(id: nat): (r: Result<PoolRow, CatalogueError>)
      reads this
      ensures r.Ok? <==> id in pools
      ensures r.Ok? ==> r.value == pools[id]
      ensures r.Err? ==> r.error == PoolNotFound
    {
      if id in pools then Ok(pools[id]) else Err(PoolNotFound)
    }

    /** One page of all pools by increasing id, and the number of pools. */
    function GetAllPools(skip: nat, limit: nat): (l: Listing<PoolRow>)
      reads this
      ensures |l.rows| <= limit
      ensures forall i :: 0 <= i < |l.rows| ==> l.rows[i].0 in pools && l.rows[i].1 == pools[l.rows[i].0]
      ensures forall i, j :: 0 <= i < j < |l.rows| ==> l.rows[i].0 < l.rows[j].0
      ensures Valid() ==> l.total == |AllIds(pools, nextId)|
      ensures Valid() ==> |l.rows| == if skip < l.total then Min(limit, l.total - skip) else 0
      ensures forall i :: 0 <= i < |l.rows| ==> skip + i < |AllIds(pools, nextId)| && l.rows[i].0 == AllIds(pools, nextId)[skip + i]
    {
      var ids := AllIds(pools, nextId);
      AllIdsCount(pools, nextId);
      Listing(RowsAt(pools, Page(ids, skip, limit)), |pools|)
    }

    /** The ids of the currencies no pool trades, in increasing order: the query behind the listing. */
    function AvailableList(): (ids: seq<nat>)
      reads this
      ensures forall i :: 0 <= i < |ids| ==> ids[i] in currencies && !UsedByPool(ids[i])
      ensures forall c :: c in currencies && c < nextId && !UsedByPool(c) ==> c in ids
      ensures forall i, j :: 0 <= i < j < |ids| ==> ids[i] < ids[j]
      ensures Valid() ==> |ids| == |AvailableIds()|
    {
      var p := Unused(pools);
      IdsWhereCount(currencies, nextId, p);
      assert Valid() ==> Matching(currencies, nextId, p) == AvailableIds();
      IdsWhere(currencies, nextId, p)
    }

    /** One page of the currencies no pool trades, by increasing id, and how many there are. */
    function GetAvailableCurrencies(skip: nat, limit: nat): (l: Listing<Currency>)
      reads this
      ensures |l.rows| <= limit
      ensures |l.rows| == if skip < |AvailableList()| then Min(limit, |AvailableList()| - skip) else 0
      ensures forall i :: 0 <= i < |l.rows| ==> skip + i < |AvailableList()| && l.rows[i].0 == AvailableList()[skip + i]
      ensures forall i :: 0 <= i < |l.rows| ==>
                l.rows[i].0 in currencies && l.rows[i].1 == currencies[l.rows[i].0] && !UsedByPool(l.rows[i].0)
      ensures forall i, j :: 0 <= i < j < |l.rows| ==> l.rows[i].0 < l.rows[j].0
      ensures l.total == |AvailableList()|
      ensures Valid() ==> l.total == |AvailableIds()|
    {
      var ids := AvailableList();
      Listing(RowsAt(currencies, Page(ids, skip, limit)), |ids|)
    }

    /** With no offset and a large enough limit, every available currency is listed. */
    lemma AvailableAllListed(limit: nat)
      requires Valid() && limit >= |AvailableIds()|
      ensures forall c :: c in AvailableIds() ==>
                exists i :: 0 <= i < |GetAvailableCurrencies(0, limit).rows| && GetAvailableCurrencies(0, limit).rows[i].0 == c
    {
      var l := GetAvailableCurrencies(0, limit);
      var ids := AvailableList();
      assert Page(ids, 0, limit) == ids;
      forall c | c in AvailableIds()
        ensures exists i :: 0 <= i < |l.rows| && l.rows[i].0 == c
      {
        assert c in ids;
        var i :| 0 <= i < |ids| && ids[i] == c;
        assert l.rows[i].0 == c;
      }
    }
  }
}
