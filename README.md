# amm-game core, modelled in Dafny

amm-game is a trading-experiment backend. Players in numbered groups trade two
currencies against a constant-product automated market maker (AMM) pool. Each
pool's reserves `x` and `y` keep the product `K = x * y` fixed across swaps.
Administrators build experiments out of rounds. Each round seeds one pool per
group, and starting or ending the round switches those pools on or off.

This project models the parts of that system that carry logic, and proves what
the code promises about them:

- **The pool engine.** Module `Amm` holds the formulas on a `Reserves` value.
  Three classes update reserves in place and are tied to those formulas:
  - the Decimal `Pool` row (`DecimalPool.Pool`). `api/app/models/pool.py` and
    `app/models/pool.py` hold the same class, differing only in comments, so
    one class models both;
  - the float `LiquidityPool` dataclass (`LiquidityPools.LiquidityPool`).
- **The pool registries.**
  - `InMemoryPools.PoolRepository` models the in-memory id-to-pool dictionary.
  - `Catalogue.Store` models the database catalogue of currencies and pools:
    symbol normalisation and uniqueness, name uniqueness, distinct existing
    currencies, ordered-pair uniqueness, and the paged "all pools" and
    "currencies no pool trades" queries.
- **The experiment game.**
  - `LabRecords` holds the records of experiments, groups, rounds and per-group
    pools ("experiment rounds") and the pure rules over them: the group fan-out,
    the pool seeding, the activation cascade, partial updates, and the
    `delete-orphan` cascades the relationship declarations name.
  - `Lab.LabDb` is the repository that applies those rules step by step.
    Its invariant is that no row dangles and no pool is active outside a running
    round.
- **Users and login.**
  - `Users.UserStore` keeps e-mail addresses unique and holds admins and players
    as one tagged variant.
  - `Auth` holds the placeholder password "hash", the token format and the
    accept/reject logic of login.
- **Request validation.** `Schemas` models the field bounds and defaults of the
  request bodies, and proves that what passes them is what the repositories need.
  For example, validated initial reserves give a positive `K`.

Modelling choices:
- Numbers are exact: Decimal and float quantities are `real`.
- Database tables are `map<nat, Row>`. Ids come from one increasing counter.
  "The order the database returns rows in" is increasing id.
- Timestamps are readings `now: nat` of a clock passed in by the caller.
- A raised exception is the `Err`/`Fail` arm of `Result`/`Outcome`, with the
  error named after the exception or message it stands for.

Modules: `Wrappers` (Option/Result/Outcome), `Rows` (ordered queries and
offset/limit paging over a map), `Text` (upper-casing and stripping), `Amm`,
`DecimalPool`, `LiquidityPools`, `InMemoryPools`, `Catalogue`, `LabRecords`,
`Lab`, `Users`, `Auth`, `Schemas`.

## Model

| member | source | states |
|---|---|---|
| Amm.InitialReserves | app/pools/models.py:26-31 | A pool can be seeded exactly when both reserves are positive; otherwise it fails with the "initial reserves must be positive" error. On success the reserves are as given, both positive, and K is their product. |
| Amm.SwapXForY | api/app/models/pool.py:80-100 | The swap is accepted iff `dx > 0` and the Decimal divisor `x + dx` is non-zero; a non-positive input is refused first. On success: `x' = x + dx`, `x' * y' = K`, K is unchanged, and the output is `y - y'`. |
| Amm.SwapYForX | api/app/models/pool.py:102-122 | The mirror of the X-to-Y swap: accepted iff `dy > 0` and `y + dy != 0`. Then `y' = y + dy`, `x' * y' = K`, K is unchanged, and the output is `x - x'`. |
| Amm.AddLiquidity | api/app/models/pool.py:124-133 | Accepted iff neither delta is negative; otherwise it fails with the negative-amount error. On success both reserves grow by their deltas and K is recomputed as the product of the new reserves. |
| Amm.RemoveLiquidity | api/app/models/pool.py:135-146 | Accepted iff the deltas are non-negative and no larger than the reserves. A negative delta is refused before an over-large one. On success both reserves shrink by their deltas and the result is Balanced: non-negative reserves whose product is K. |
| Amm.SwapXForYBounds | app/pools/models.py:49-72 | From positive reserves, every positive input is accepted. It pays out strictly between 0 and the Y reserve and leaves both reserves positive with product K. |
| Amm.SwapYForXBounds | app/pools/models.py:74-97 | From positive reserves, every positive input is accepted. It pays out strictly between 0 and the X reserve and leaves both reserves positive with product K. |
| Amm.SwapsPreserveBalanced | api/app/models/pool.py:18-19 | From a Balanced pool, a swap of any positive amount in either direction is accepted and leaves the pool Balanced. |
| Amm.SwapXForYThenBack | api/app/models/pool.py:80-122 | With exact arithmetic, swapping `dx` of X for Y and then swapping the Y received back restores the original reserves and returns exactly `dx`. |
| Amm.SwapYForXThenBack | api/app/models/pool.py:80-122 | The mirror round trip: swapping `dy` of Y for X and then the X received back restores the reserves and returns exactly `dy`. |
| Amm.AddLiquidityPreservesBalanced | api/app/models/pool.py:124-133 | A deposit of non-negative amounts into a Balanced pool is accepted and keeps it Balanced. |
| Amm.AddThenRemoveLiquidity | api/app/models/pool.py:124-146 | Withdrawing exactly what was just deposited into a Balanced pool gives back the original reserves and K. |
| DecimalPool.Pool.constructor | api/app/models/pool.py:28-44 | A row holds the given currency ids, reserves, K and active flag. |
| DecimalPool.Pool.PriceXInY | app/models/pool.py:41-45 | An empty X reserve quotes 0; otherwise the price `p` satisfies `p * x = y`. |
| DecimalPool.Pool.PriceYInX | app/models/pool.py:47-51 | An empty Y reserve quotes 0; otherwise the price `p` satisfies `p * y = x`. |
| DecimalPool.PricesReciprocal | app/models/pool.py:41-51 | When both reserves are non-zero, the two quoted prices multiply to 1. |
| DecimalPool.Pool.SwapXForY | app/models/pool.py:53-71 | The fields move exactly as `Amm.SwapXForY` says and the method returns its output. A rejected swap changes no field. The currencies and the active flag never change. From a Balanced pool, every positive input succeeds and the pool stays Balanced. |
| DecimalPool.Pool.SwapYForX | app/models/pool.py:73-91 | The mirror of the X-to-Y swap method, tied to `Amm.SwapYForX`, with the same rejection, frame and Balanced guarantees. |
| DecimalPool.Pool.AddLiquidity | app/models/pool.py:93-101 | The fields become what `Amm.AddLiquidity` computes. A rejected deposit changes nothing. A Balanced pool stays Balanced. |
| DecimalPool.Pool.RemoveLiquidity | app/models/pool.py:103-113 | The fields become what `Amm.RemoveLiquidity` computes. A rejected withdrawal changes nothing. Every accepted withdrawal leaves the pool Balanced. |
| LiquidityPools.LiquidityPool.constructor | app/pools/models.py:20-31 | Construction from positive reserves gives exactly the reserves and K that `Amm.InitialReserves` gives, so the class invariant holds: positive reserves with product K. |
| LiquidityPools.LiquidityPool.Create | app/pools/models.py:26-31 | Construction succeeds iff both reserves are positive. Otherwise it raises the initial-reserves error. A created pool is new, carries the id and reserves, and satisfies the invariant. |
| LiquidityPools.LiquidityPool.PriceXInY | app/pools/models.py:35-39 | With no zero guard, the price still exists because the invariant keeps the reserves positive. It is positive and satisfies `p * x = y`. |
| LiquidityPools.LiquidityPool.PriceYInX | app/pools/models.py:41-45 | The price is positive and satisfies `p * y = x`. |
| LiquidityPools.LiquidityPool.SwapXForY | app/pools/models.py:49-72 | The method succeeds iff `dx > 0` and then moves the reserves exactly as `Amm.SwapXForY` says. The output lies strictly between 0 and the old Y reserve, the invariant is kept, and K is a constant set once at construction. |
| LiquidityPools.LiquidityPool.SwapYForX | app/pools/models.py:74-97 | The method succeeds iff `dy > 0`, follows `Amm.SwapYForX`, pays out strictly between 0 and the old X reserve, and keeps the invariant. |
| InMemoryPools.PoolRepository.constructor | app/pools/repository.py:24-25 | The repository starts with an empty dictionary. |
| InMemoryPools.PoolRepository.GetPool | app/pools/repository.py:34-38 | Returns the pool stored under the id, or raises pool-not-found for an id not in the dictionary. |
| InMemoryPools.PoolRepository.CreatePool | app/pools/repository.py:29-32 | Succeeds iff both initial reserves are positive; a failure leaves the dictionary unchanged. The new pool is fresh, valid and stored under its own new id, so `GetPool` of that id returns it. Every pool stored before is untouched. |
| Text.UpperChar | api/app/pools/repository.py:19 | A lower-case ASCII letter maps to its upper-case letter, 32 code points lower. Any other character is returned unchanged. The result is never a lower-case letter. |
| Text.Upper | api/app/pools/repository.py:19 | Keeps the length and upper-cases each character in place, so the result contains no lower-case letter. |
| Text.TrimStart | api/app/pools/repository.py:41-42 | The result is a suffix of the input. Everything dropped is whitespace, and the result does not start with whitespace. |
| Text.TrimEnd | api/app/pools/repository.py:41-42 | The result is a prefix of the input. Everything dropped is whitespace, and the result does not end with whitespace. |
| Text.LeadingSpaces | api/app/pools/repository.py:41-42 | Counts the whitespace a string starts with: every character before the count is whitespace, and the one at the count, if any, is not. |
| Text.Strip | api/app/pools/repository.py:41-42 | The result is the slice of the input that starts right after its leading whitespace, and everything after the slice is whitespace. The result neither starts nor ends with whitespace, so exactly the leading and trailing whitespace is removed. |
| Text.StripIdempotent | api/app/pools/repository.py:41-42 | Stripping a stripped string changes nothing. |
| Text.NormalSymbol | api/app/pools/repository.py:41 | The stored symbol is the input upper-cased and then stripped. It contains no lower-case letter, does not start or end with whitespace, and is no longer than the input. |
| Text.NormalSymbolIdempotent | api/app/pools/repository.py:41-47 | Normalising a stored symbol again yields the same symbol. |
| Catalogue.NameOrSymbol | api/app/pools/repository.py:24 | An absent or empty name falls back to the symbol; a non-empty name is kept. |
| Catalogue.CurrencyWithSymbol | api/app/pools/repository.py:20 | The lookup by symbol returns a stored currency carrying that exact symbol, or none when no stored currency carries it. |
| Catalogue.SymbolFindsOnly | api/app/pools/repository.py:45-47 | Under unique symbols, the lookup finds the one stored currency with that symbol. |
| Catalogue.AddCurrencyKeeps | api/app/pools/repository.py:54-59 | Storing a currency with an unused symbol under the next id keeps the catalogue invariant: ids below the counter, unique symbols, and pools over two different existing currencies with unique ordered pairs. |
| Catalogue.AddPoolKeeps | api/app/pools/repository.py:89-98 | Storing a pool on a new ordered pair of two different existing currencies keeps the catalogue invariant. |
| Catalogue.Store.constructor | api/app/models/pool.py:23-25 | The catalogue starts empty and satisfies its invariant, which includes the unique ordered currency pair of every pool. |
| Catalogue.Store.GetOrCreateCurrency | api/app/pools/repository.py:18-27 | Looks the symbol up upper-cased. An existing currency with that symbol is returned and nothing changes. Otherwise a new currency is stored with the upper-cased symbol, `name or symbol`, 18 decimals and no image. Either way the lookup then finds the returned id, so a second call creates nothing. |
| Catalogue.Store.StoreCurrency | api/app/pools/repository.py:54-62 | Stores a currency whose symbol is unused under the next id, keeping the invariant, and the lookup by its symbol then finds it. |
| Catalogue.Store.CreateCurrency | api/app/pools/repository.py:30-62 | The symbol is normalised and the name stripped. A taken symbol is refused, and otherwise a taken name is refused, both leaving the currencies unchanged. Success happens exactly when neither is taken, and stores the new currency under the next id with the given image URL. |
| Catalogue.Store.CreatePool | api/app/pools/repository.py:65-101 | Refuses, in this order: identical currencies, an unknown X, an unknown Y, then an existing ordered pair. Success happens exactly when none applies and stores an active pool with `x = x_init`, `y = y_init` and `K = x_init * y_init`. A refusal changes nothing, and the currencies never change. |
| Catalogue.Store.GetPool | api/app/pools/repository.py:104-109 | Returns the stored pool, or pool-not-found exactly when no pool has that id. |
| Catalogue.Store.GetAllPools | api/app/pools/repository.py:112-117 | The rows are the window `[skip, skip+limit)` of all pools in id order, each with its stored value. The total is the number of all pools, not of the page. |
| Catalogue.Store.AvailableList | api/app/pools/repository.py:131-140 | The query behind the listing: the ids of stored currencies that no pool trades, in increasing order. In a valid store it holds every such currency. |
| Catalogue.Store.GetAvailableCurrencies | api/app/pools/repository.py:128-146 | The rows are the window `[skip, skip + limit)` of the available ids: `min(limit, n - skip)` rows when `skip < n`, none otherwise, and row `i` is id `skip + i` with its stored currency. Every listed currency is traded by no pool, and the ids increase. The total is the number of currencies no pool trades. |
| Catalogue.Store.AvailableAllListed | api/app/pools/repository.py:128-146 | With no offset and a large enough limit, every currency no pool trades is listed, so the listing is exactly the available currencies. |
| LabRecords.NewExperiment | api/app/models/experiment.py:20-30 | A new experiment carries the given settings and creator and starts neither started nor ended. |
| LabRecords.NumberedGroupsNumbering | api/app/experiments/repository.py:81-86 | The groups `create_experiment` adds all belong to the new experiment, occupy the fresh ids, and are numbered 1..N, one group per number. |
| LabRecords.NumberedGroupsCount | api/app/experiments/repository.py:81-86 | Exactly `num_groups` groups are added, or none when it is not positive. |
| LabRecords.NewRound | api/app/rounds/repository.py:66-78 | A new round carries the given fields unchanged and starts neither started nor ended. |
| LabRecords.SeededPool | api/app/rounds/repository.py:101-111 | A seeded pool belongs to the round and group, holds the round's initial reserves with `k = ix * iy`, a zero fee, is inactive, and has no timestamps. |
| LabRecords.SeedPools | api/app/rounds/repository.py:99-113 | One seeded pool per group id, in order, under consecutive fresh ids, and nothing else. |
| LabRecords.SeedPoolsAt | api/app/rounds/repository.py:99-113 | After the new pools are added to the existing ones, the `j`-th fresh id holds the pool seeded for the `j`-th group. |
| LabRecords.GroupsOfExperiment | api/app/rounds/repository.py:96 | Every group the query returns belongs to the round's experiment. |
| LabRecords.SeedPoolsFit | api/app/rounds/repository.py:99-111 | The seeded pools point to an existing round and group of the same experiment, and are inactive. |
| LabRecords.InitializeConsistent | api/app/rounds/repository.py:86-119 | Adding the seeded pools keeps the tables consistent and keeps every id below the counter. |
| LabRecords.FreshIds | api/app/rounds/repository.py:98-113 | The ids handed out are consecutive from the counter, one per created row. |
| LabRecords.InitializePoolsSeeded | api/app/rounds/repository.py:98-119 | Each returned id is new and holds the pool seeded for its group, one per group. |
| LabRecords.InitializePoolsOrdered | api/app/rounds/repository.py:96-119 | The returned pools follow the groups in increasing group id, so their group ids are distinct. |
| LabRecords.InitializeCoversGroups | api/app/rounds/repository.py:96-119 | Every group of the round's experiment receives one of the returned pools. |
| LabRecords.ActivatedPools | api/app/rounds/repository.py:135-144 | Activating exactly the pools the round query returns gives the same pool table as `ActivateRound`. |
| LabRecords.DeactivatedPools | api/app/rounds/repository.py:173-182 | Deactivating exactly the pools the round query returns gives the same pool table as `DeactivateRound`. |
| LabRecords.ActivateRound | api/app/rounds/repository.py:135-144 | Every pool of the round becomes active with `started_at` set to the clock reading, and no other field of any pool changes. Pools of other rounds are unchanged. |
| LabRecords.DeactivateRound | api/app/rounds/repository.py:173-182 | Every pool of the round becomes inactive with `ended_at` set to the clock reading, and no other field of any pool changes. Pools of other rounds are unchanged. |
| LabRecords.StartRoundConsistent | api/app/rounds/repository.py:128-144 | Starting an unstarted round and activating its pools keeps the tables consistent: every active pool belongs to a running round. |
| LabRecords.EndRoundConsistent | api/app/rounds/repository.py:163-182 | Ending a running round and deactivating its pools keeps the tables consistent. |
| LabRecords.PutExperimentConsistent | api/app/experiments/repository.py:119-140 | Storing an experiment that has not ended without having started keeps the tables consistent. |
| LabRecords.AddGroupsConsistent | api/app/models/experiment.py:47-48 | Adding new groups that point to existing experiments keeps the tables consistent. |
| LabRecords.CreateExperimentConsistent | api/app/experiments/repository.py:66-90 | After adding the new experiment and its numbered groups, the groups occupy ids not used before, every id stays below the advanced counter, and the tables stay consistent. |
| LabRecords.AddRoundConsistent | api/app/rounds/repository.py:66-83 | Adding a new, unstarted round of an existing experiment keeps the tables consistent. |
| LabRecords.ReplaceRoundConsistent | api/app/rounds/repository.py:214-224 | Replacing a round by one with the same experiment, number, currencies and timestamps keeps the tables consistent. |
| LabRecords.AddPoolsConsistent | api/app/models/round.py:52-58 | Adding inactive pools whose round and group exist and belong to one experiment keeps the tables consistent. |
| LabRecords.ApplyExperimentArg | api/app/experiments/repository.py:104-106 | A keyword argument with a non-`None` value stores that value in its field. No other field changes, and a `None` value or an unknown name changes nothing. The creator and the timestamps never change. |
| LabRecords.ApplyExperimentArgs | api/app/experiments/repository.py:104-106 | No sequence of update arguments changes the creator or the timestamps. |
| LabRecords.ExperimentUnsuppliedKept | api/app/experiments/repository.py:103-106 | A field that no argument supplies keeps its value. |
| LabRecords.ExperimentLastSupplierWins | api/app/experiments/repository.py:103-106 | A supplied field ends up with the value of the last argument that supplies it. |
| LabRecords.ExperimentNothingSupplied | api/app/experiments/repository.py:103-106 | Arguments that are all `None`, or all unknown attributes, leave the experiment exactly as it was. |
| LabRecords.ApplyRoundArg | api/app/rounds/repository.py:214-220 | A keyword argument with a non-`None` value stores that value in its field. No other field changes, and a `None` value or an unknown name changes nothing. The experiment, number, currencies and timestamps never change. |
| LabRecords.ApplyRoundArgs | api/app/rounds/repository.py:214-220 | No sequence of update arguments changes the experiment, number, currencies or timestamps. |
| LabRecords.RoundUnsuppliedKept | api/app/rounds/repository.py:214-220 | A round field that no argument supplies keeps its value. |
| LabRecords.RoundLastSupplierWins | api/app/rounds/repository.py:214-220 | A supplied round field ends up with the value of the last argument that supplies it. |
| LabRecords.DeleteRoundRows | api/app/models/round.py:40-69 | Deleting a round removes it and keeps only rows of the old tables. Every other round, every pool of another round, and every dependent row of a kept pool survives. |
| LabRecords.DeleteRoundConsistent | api/app/models/round.py:40-69 | The round-delete cascade leaves consistent tables: nothing points to a deleted row. |
| LabRecords.DeleteExperimentRows | api/app/models/experiment.py:34-54 | Deleting an experiment removes it and keeps only rows of the old tables. Groups and rounds of other experiments survive, as do pools whose round and group survive and dependent rows of surviving pools. |
| LabRecords.DeleteExperimentConsistent | api/app/models/experiment.py:34-54 | The experiment-delete cascade leaves consistent tables. |
| LabRecords.DeletedExperimentUnreachable | api/app/models/experiment.py:34-54 | After the cascade, no group, round or pool refers to the deleted experiment. |
| Lab.LabDb.constructor | api/app/models/experiment.py:15-35 | The database starts empty and consistent. |
| Lab.LabDb.CreateExperiment | api/app/experiments/repository.py:50-90 | Succeeds iff the creator is an admin; otherwise it fails with the invalid-admin error and changes nothing. On success it stores the new experiment under the next id, unstarted, plus groups numbered 1..`num_groups` under new ids. The tables stay consistent. |
| Lab.LabDb.UpdateExperiment | api/app/experiments/repository.py:93-110 | Fails with experiment-not-found exactly for an unknown id. Otherwise the experiment becomes the supplied non-`None` fields applied in order, and no other table changes. |
| Lab.LabDb.StartExperiment | api/app/experiments/repository.py:113-125 | An unknown id is not found, and an experiment already started is refused. Success happens exactly for a known unstarted experiment and sets only its `started_at` to the clock reading. |
| Lab.LabDb.EndExperiment | api/app/experiments/repository.py:128-143 | An unknown id is not found. An unstarted experiment is refused, then an already ended one. Success happens exactly for a running experiment and sets only its `ended_at`. |
| Lab.LabDb.DeleteExperiment | api/app/experiments/repository.py:146-154 | Fails with not-found exactly for an unknown id, changing nothing. Otherwise the tables become what the experiment-delete cascade leaves. |
| Lab.LabDb.GetAllExperiments | api/app/experiments/repository.py:35-47 | The rows are the window `[skip, skip + limit)` of the matching ids: `min(limit, n - skip)` rows when `skip < n`, none otherwise, and row `i` is matching id `skip + i`. The ids increase, each row is the stored experiment, and when a creator is given the rows are only that creator's experiments. |
| Lab.LabDb.ExperimentsAllListed | api/app/experiments/repository.py:35-47 | With no offset and a large enough limit, every experiment passing the creator filter is listed. |
| Lab.LabDb.CreateRound | api/app/rounds/repository.py:40-83 | An unknown experiment is refused first, then an unknown currency. Success happens exactly when the experiment and both currencies exist, and stores the given fields as a new unstarted round under the next id. |
| Lab.LabDb.InitializeExperimentRounds | api/app/rounds/repository.py:86-119 | Fails with round-not-found exactly for an unknown round. Otherwise it adds one seeded pool per group of the round's experiment, in group id order under consecutive new ids, and returns those ids. There is no guard against running it twice. |
| Lab.LabDb.StartRound | api/app/rounds/repository.py:122-154 | An unknown round is not found and a started round is refused. Success happens exactly for an unstarted round: it sets the round's `started_at` and activates every pool of that round and no other. |
| Lab.LabDb.EndRound | api/app/rounds/repository.py:157-186 | An unknown round is not found. An unstarted round is refused, then an ended one. Success happens exactly for a running round: it sets `ended_at` and deactivates every pool of that round and no other. |
| Lab.LabDb.GetExperimentRoundByGroup | api/app/rounds/repository.py:199-205 | Returns the lowest-id pool of that round and group, or none exactly when no such pool exists. |
| Lab.LabDb.UpdateRound | api/app/rounds/repository.py:208-224 | Fails with round-not-found exactly for an unknown round. Otherwise the round becomes the supplied non-`None` fields applied in order, and no other table changes. |
| Lab.LabDb.DeleteRound | api/app/rounds/repository.py:227-235 | Fails with round-not-found exactly for an unknown round. Otherwise the tables become what the round-delete cascade leaves. |
| Lab.LabDb.AddNumberedGroups | api/app/experiments/repository.py:81-86 | The loop adds exactly the numbered groups under the next ids and advances the counter by their number. |
| Lab.LabDb.SeedGroupPools | api/app/rounds/repository.py:98-113 | The loop adds exactly the seeded pools for the given groups and returns their new ids in order. |
| Lab.LabDb.ActivatePools | api/app/rounds/repository.py:142-144 | The loop activates exactly the listed pools at the clock reading and leaves every other row as it was. |
| Lab.LabDb.DeactivatePools | api/app/rounds/repository.py:180-182 | The loop deactivates exactly the listed pools at the clock reading and leaves every other row as it was. |
| Users.UserWithEmail | api/app/users/repository.py:35-37 | The lookup by e-mail returns a stored user with exactly that e-mail, or none when no stored user has it. |
| Users.EmailFindsOnly | api/app/users/repository.py:74-76 | Under unique e-mails, the lookup finds the one user carrying the address. |
| Users.NewUser | api/app/users/repository.py:78-95 | ADMIN builds an admin and PLAYER builds a player in the given group with no payment yet. Any other type is refused with the invalid-type error. The e-mail, hash and username are kept. |
| Users.AddUserKeeps | api/app/users/repository.py:74-100 | Storing a user with an unused e-mail under the next id keeps both e-mails unique and ids below the counter. |
| Users.ReplaceUserKeeps | api/app/users/repository.py:103-124 | Rewriting a user without touching its e-mail keeps e-mails unique. |
| Users.WithGroup | api/app/users/repository.py:110 | Only the player's group changes, to the given group. |
| Users.WithPayment | api/app/users/repository.py:122 | Only the player's payment changes, to the given amount. |
| Users.UserStore.constructor | api/app/users/repository.py:74-76 | The store starts empty and satisfies its invariant of unique e-mails. |
| Users.UserStore.CreateUser | api/app/users/repository.py:60-100 | A registered e-mail is refused before the type is looked at; an unknown type is refused next. Success happens exactly when the e-mail is free and the type is ADMIN or PLAYER. The new user is stored under a new id and the lookup then finds it. A refusal changes nothing, and e-mails stay unique. |
| Users.UserStore.UpdatePlayerGroup | api/app/users/repository.py:103-112 | Fails with not-found exactly when the id is not a player's, changing nothing. Otherwise only that player's group changes and the updated player is returned. |
| Users.UserStore.UpdatePlayerPayment | api/app/users/repository.py:115-124 | Fails with not-found exactly when the id is not a player's. Otherwise only that player's payment changes. |
| Users.UserStore.DeleteUser | api/app/users/repository.py:127-135 | Fails with not-found exactly for an unknown id. Otherwise exactly that user is removed. |
| Users.UserStore.GetAllUsers | api/app/users/repository.py:50-52 | Returns the window `[skip, skip+limit)` of all users in id order, with as many rows as that window holds. |
| Users.UserStore.GetAllPlayers | api/app/users/repository.py:55-57 | The rows are the window `[skip, skip + limit)` of the player ids: `min(limit, n - skip)` rows when `skip < n`, none otherwise, and row `i` is player id `skip + i`. Each row is a stored player, and the ids increase. |
| Users.UserStore.PlayersAllListed | api/app/users/repository.py:55-57 | With no offset and a large enough limit, every player is listed. |
| Users.FilterNoLarger | api/app/users/repository.py:50-57 | A filtered query never returns more rows than the table holds. |
| Auth.HashPassword | api/app/users/routes.py:41-48 | The hash is the fixed prefix `hashed_` followed by the password itself. |
| Auth.VerifyIffSamePassword | api/app/users/routes.py:51-58 | A password verifies against the hash of `p` exactly when it is `p`: the right password passes and every other one fails. |
| Auth.VerifyNeedsPrefix | api/app/users/routes.py:51-58 | A stored value without the `hashed_` prefix verifies no password. |
| Auth.IdText | api/app/users/routes.py:68 | The text of an id is a non-empty string of decimal digits. |
| Auth.IdTextRoundTrip | api/app/users/routes.py:68 | Reading back the decimal text of an id gives the id. |
| Auth.IdTextInjective | api/app/users/routes.py:68 | Distinct ids have distinct texts. |
| Auth.CreateAccessToken | api/app/users/routes.py:61-68 | A token is the prefix `token_` followed by the id's non-empty text. |
| Auth.TokenSubject | api/app/users/routes.py:61-68 | A string names an id only when it has the token prefix. |
| Auth.TokenRoundTrip | api/app/users/routes.py:61-68 | The token made for an id names that id, so users receive distinct tokens. |
| Auth.Login | api/app/users/routes.py:116-143 | Login succeeds iff the e-mail lookup finds a user whose stored hash verifies the password. On success the session names a user with that e-mail and carries that user's token. |
| Auth.LoginIffCredentials | api/app/users/routes.py:116-143 | Over a store with unique e-mails, login succeeds exactly when some stored user has that e-mail and the hash of that password. |
| Auth.LoginRejectsOtherPassword | api/app/users/routes.py:131-135 | A stored user's e-mail with any password other than its own is refused with the one 401 error. |
| Auth.RegisterThenLogin | api/app/users/repository.py:60-100 | A user stored under a fresh e-mail with the hash of `p` logs in with `p` and receives the token of its new id. |
| Schemas.ValidatePoolCreate | app/pools/schemas.py:22-45 | A pool request is accepted iff both initial reserves are positive; otherwise exactly the offending fields are reported. |
| Schemas.ValidateSwapRequest | app/pools/schemas.py:81-114 | A swap request is accepted iff the input is positive and a given minimum output is non-negative. An absent minimum defaults to 0. Otherwise exactly the offending fields are reported. |
| Schemas.ValidPoolAcceptsValidSwaps | app/pools/schemas.py:34-45 | A validated pool seeds positive reserves with `K = x_init * y_init`, and every validated swap on it is accepted and pays out strictly between 0 and the opposite reserve. |
| Schemas.ValidateCurrencyCreate | app/pools/schemas.py:139-160 | A currency request is accepted iff the symbol has 1..10 characters, the name 1..100, and a given image URL at most 500. Otherwise exactly the offending fields are reported. |
| Schemas.ValidCurrencyStoredFits | app/pools/schemas.py:141-154 | What `create_currency` stores for a validated request still fits the bounds: a normalised symbol of at most 10 characters and a stripped name of at most 100. |
| Schemas.BlankSymbolPassesAndEmpties | app/pools/schemas.py:141-147 | A one-space symbol passes the length bound, yet normalises to the empty symbol. |
| Schemas.ValidateRoundCreate | api/app/rounds/schemas.py:15-27 | A round request is accepted iff the number, duration, prices and reserves are positive; otherwise exactly the offending fields are reported. A validated request is the unstarted round with those fields, within the round bounds, with absent flags defaulting to false. |
| Schemas.BoundedRoundSeedsPositive | api/app/rounds/schemas.py:26-27 | A round within the bounds seeds every group's pool with positive reserves and a positive `k`. |
| Schemas.ValidateRoundUpdate | api/app/rounds/schemas.py:30-38 | A round update is accepted iff every present duration, price and reserve is positive; otherwise exactly the offending fields are reported. Its result lists all seven fields, in order, as keyword arguments, with `None` for an absent one. The route passes only the fields the request set, but the repository skips `None`, so the effect is the same. |
| Schemas.ValidRoundUpdateInBounds | api/app/rounds/schemas.py:30-38 | Every argument a validated round update passes on meets its bound. |
| Schemas.RoundArgsKeepBounds | api/app/rounds/schemas.py:30-38 | Update arguments within their bounds keep a round within the create bounds. |
| Schemas.ValidUpdateKeepsRound | api/app/rounds/schemas.py:15-38 | A validated round updated by a validated update stays within the bounds and still seeds positive pools. |
| Schemas.ValidateExperimentCreate | api/app/experiments/schemas.py:14-21 | An experiment request is accepted iff the name has 1..255 characters, the round, payment-round, player and group counts are positive, and a given training count is non-negative. An absent training count defaults to 0. Otherwise exactly the offending fields are reported. |
| Schemas.ValidateGroupCreate | api/app/experiments/schemas.py:34-37 | A group request is accepted iff its number is positive; otherwise the number is the one field reported. |
| Schemas.ValidExperimentGroups | api/app/experiments/schemas.py:14-37 | A validated experiment creates a positive number of groups, exactly `num_groups`, and every group it creates would pass the group schema. |
| Schemas.ValidateExperimentUpdate | api/app/experiments/schemas.py:24-31 | An experiment update is accepted iff every present field meets its create bound; otherwise exactly the offending fields are reported. Its result lists all six fields, in order, as keyword arguments, with `None` for an absent one. The route passes only the fields the request set, but the repository skips `None`, so the effect is the same. |
| Schemas.ValidExperimentUpdateInBounds | api/app/experiments/schemas.py:24-31 | Every argument a validated experiment update passes on meets its bound. |
| Schemas.ExperimentArgsKeepBounds | api/app/experiments/schemas.py:24-31 | Update arguments within their bounds keep an experiment within the create bounds. |
| Schemas.ValidUpdateKeepsExperiment | api/app/experiments/schemas.py:14-31 | A validated experiment updated by a validated update stays within the bounds. |

## Left out

- HTTP routing and the mapping of exceptions to status codes live in the FastAPI route files. They are plumbing, and only the accept/reject logic of `login_user` is modelled.
- Slippage protection: `min_amount_out` is validated and defaults to 0, but no code reads it, so no swap fails on it.
- Trading fees: `transaction_fee_percent` is stored as 0 on every seeded pool and never applied. No code raises an insufficient-liquidity error.
- Numeric precision: every Decimal and float quantity is an exact `real`. Decimal context precision, float rounding and the numeric column scales are not modelled, so the swap identities hold over exact arithmetic only.
- Amm.SwapXForY, Amm.SwapYForX: a Decimal division by zero (`x + dx == 0`, possible only from a negative reserve) is a distinct error, not a Python exception type.
- Commits, flushes, refreshes and sessions are the database's business. Each repository operation is one atomic state change.
- Generated values: UUIDs are ids from one increasing counter. `created_at`/`updated_at` columns are left out. Each `datetime.now()` is a clock reading `now` passed in, and all readings inside one operation are the same instant.
- Auth.CreateAccessToken: the token carries the id's decimal text where the code formats a UUID.
- Row order: queries without `ORDER BY` return rows in increasing id, the order of insertion.
- Catalogue.CurrencyWithSymbol: `one_or_none()` raises when it finds several rows. The catalogue invariant keeps symbols unique, so this path cannot arise.
- Catalogue.Store.CreateCurrency: the name check is "some currency has that name" (`NameTaken`). When several currencies share a name, `one_or_none()` raises `MultipleResultsFound` instead, and the model reports the same refusal.
- Field mismatches between repositories and models are not reconciled:
  - the catalogue keeps `name` and `decimals`, which the repository writes but the currency model lacks;
  - users keep `email` and `password_hash`, which the repository writes but the user model lacks;
  - experiments keep `created_by_id` where the model has `admin_id`.
- Update keyword arguments are the schema's fields plus one "not an attribute" argument. `hasattr` on other model attributes (ids, timestamps) and the `Decimal(str(value))` conversion are not modelled.
- Paging parameters are `nat`: negative `skip` or `limit`, which SQL would reject, cannot be passed.
- Lab.LabDb: the admin ids and currency ids it checks against are parameters (`set<nat>`). The user and currency tables are separate stores.
- Dependent rows of a pool (transactions, knowledge, feedback, balances) exist only so the delete cascade can be stated. No modelled operation creates them, because `start_round` leaves balance initialisation as a TODO.
- Lab.LabDb.DeleteExperiment: deleting an experiment's groups also sets the `group_id` of their players to NULL, because `Group.players` has no delete cascade and `PlayerUser.group_id` is nullable (api/app/models/experiment.py:53, api/app/models/user.py:67). Players live in the separate user store, so the model does not clear a player's group id.
- Users.UserStore.DeleteUser: the cascades a user deletion would trigger on experiments or player data are not modelled, nor are database uniqueness or non-null constraints on `username`.
- The remaining `get_*_by_id` and `get_*_by_*` lookups are plain map reads and have no members of their own.
- `EmailStr` validation of e-mail addresses and the user request schemas are library behaviour.
- Users.UserStore.UpdatePlayerPayment: the `Numeric(10,2)` rounding of the stored payment is not modelled.
- Text.Upper: only ASCII letters are upper-cased. Python's full Unicode case mapping is not modelled.
- Schemas: Pydantic type coercion and error message texts are not modelled. A refusal is the set of offending fields.
- The declaration-only models (player data, transactions, enums, the old `__init__`) and the database, migration and reset scripts are not part of this model.
- `app/pools/routes.py` calls a `create_pool` signature that matches neither repository. That file is not part of this model.
