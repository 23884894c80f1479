/**
 * The request schemas that guard the repositories: Pydantic models whose
 * field constraints (`gt`, `ge`, `min_length`, `max_length`) and defaults are
 * checked before any repository call. A request either becomes the validated
 * model, with its defaults filled in, or is refused with the set of fields
 * that break a constraint. The lemmas say what a validated request buys the
 * code behind it.
 */
module Schemas {
  import opened Wrappers
  import opened Amm
  import opened Text
  import opened LabRecords

  /** The request fields that carry constraints, named after the schema attributes. */
  datatype Attr =
    | XInitAttr | YInitAttr | AmountInAttr | MinAmountOutAttr
    | SymbolAttr | NameAttr | ImageUrlAttr
    | RoundNumberAttr | DurationMinutesAttr | ExternalPriceXAttr | ExternalPriceYAttr
    | InitialReserveXAttr | InitialReserveYAttr
    | NumRoundsAttr | NumTrainingRoundsAttr | NumRoundsForPaymentAttr | NumPlayersAttr | NumGroupsAttr
    | GroupNumberAttr

  /** The fields of a request that break their constraints. */
  type Violations = set<Attr>

  // ----- pools -----

  datatype PoolCreate = PoolCreate(currencyXId: nat, currencyYId: nat, xInit: real, yInit: real)

  /** The `PoolCreate` constraint field `a` breaks: both initial reserves must be strictly positive. */
  predicate PoolCreateBreaks(p: PoolCreate, a: Attr)
  {
    match a
    case XInitAttr => p.xInit <= 0.0
    case YInitAttr => p.yInit <= 0.0
    case _ => false
  }

  /** `PoolCreate`: accepted as sent when both reserves are positive, otherwise the broken fields. */
  function ValidatePoolCreate(p: PoolCreate): (r: Result<PoolCreate, Violations>)
    ensures r.Ok? <==> 0.0 < p.xInit && 0.0 < p.yInit
    ensures r.Ok? ==> r.value == p
    ensures r.Err? ==> forall a :: a in r.error <==> PoolCreateBreaks(p, a)
  {
    if 0.0 < p.xInit && 0.0 < p.yInit then Ok(p)
    else Err(set a | a in {XInitAttr, YInitAttr} && PoolCreateBreaks(p, a))
  }

  /** The validated amount of a swap; `min_amount_out` defaults to 0. */
  datatype SwapRequest = SwapRequest(amountIn: real, minAmountOut: real)

  /** The swap-request constraint field `a` breaks: a positive input, a non-negative minimum output. */
  predicate SwapRequestBreaks(amountIn: real, minAmountOut: Option<real>, a: Attr)
  {
    match a
    case AmountInAttr => amountIn <= 0.0
    case MinAmountOutAttr => minAmountOut.Some? && minAmountOut.value < 0.0
    case _ => false
  }

  /**
   * `SwapXForYRequest` and `SwapYForXRequest`, which carry the same
   * constraints and the same default.
   */
  function ValidateSwapRequest(amountIn: real, minAmountOut: Option<real>): (r: Result<SwapRequest, Violations>)
    ensures r.Ok? <==> 0.0 < amountIn && (minAmountOut.None? || 0.0 <= minAmountOut.value)
    ensures r.Ok? ==> r.value.amountIn == amountIn
    ensures r.Ok? && minAmountOut.None? ==> r.value.minAmountOut == 0.0
    ensures r.Ok? && minAmountOut.Some? ==> r.value.minAmountOut == minAmountOut.value
    ensures r.Err? ==> forall a :: a in r.error <==> SwapRequestBreaks(amountIn, minAmountOut, a)
  {
    if amountIn <= 0.0 || (minAmountOut.Some? && minAmountOut.value < 0.0) then
      Err(set a | a in {AmountInAttr, MinAmountOutAttr} && SwapRequestBreaks(amountIn, minAmountOut, a))
    else
      Ok(SwapRequest(amountIn, if minAmountOut.Some? then minAmountOut.value else 0.0))
  }

  /**
   * A pool seeded from a validated `PoolCreate` is positive, and from it a
   * validated swap in either direction is accepted, pays out strictly less
   * than the opposite reserve and leaves the reserves positive.
   */
  lemma ValidPoolAcceptsValidSwaps(p: PoolCreate, amountIn: real, minAmountOut: Option<real>)
    requires ValidatePoolCreate(p).Ok?
    requires ValidateSwapRequest(amountIn, minAmountOut).Ok?
    ensures InitialReserves(p.xInit, p.yInit) == Ok(Reserves(p.xInit, p.yInit, p.xInit * p.yInit))
    ensures Positive(Reserves(p.xInit, p.yInit, p.xInit * p.yInit))
    ensures var s := SwapXForY(Reserves(p.xInit, p.yInit, p.xInit * p.yInit), amountIn);
            s.Ok? && 0.0 < s.value.amountOut < p.yInit && Positive(s.value.after)
    ensures var s := SwapYForX(Reserves(p.xInit, p.yInit, p.xInit * p.yInit), amountIn);
            s.Ok? && 0.0 < s.value.amountOut < p.xInit && Positive(s.value.after)
  {
    var r := InitialReserves(p.xInit, p.yInit).value;
    assert r.x == p.xInit && r.y == p.yInit && r.k == r.x * r.y;
    assert r == Reserves(p.xInit, p.yInit, p.xInit * p.yInit);
    SwapXForYBounds(r, amountIn);
    SwapYForXBounds(r, amountIn);
  }

  // ----- currencies -----

  datatype CurrencyCreate = CurrencyCreate(symbol: string, name: string, imageUrl: Option<string>)

  /** The `CurrencyCreate` constraint field `a` breaks: symbol of 1..10 characters, name of 1..100, URL of at most 500. */
  predicate CurrencyCreateBreaks(c: CurrencyCreate, a: Attr)
  {
    match a
    case SymbolAttr => !(1 <= |c.symbol| <= 10)
    case NameAttr => !(1 <= |c.name| <= 100)
    case ImageUrlAttr => c.imageUrl.Some? && |c.imageUrl.value| > 500
    case _ => false
  }

  /** `CurrencyCreate`: accepted as sent within the length bounds, otherwise the broken fields. */
  function ValidateCurrencyCreate(c: CurrencyCreate): (r: Result<CurrencyCreate, Violations>)
    ensures r.Ok? <==> && 1 <= |c.symbol| <= 10 && 1 <= |c.name| <= 100
                       && (c.imageUrl.None? || |c.imageUrl.value| <= 500)
    ensures r.Ok? ==> r.value == c
    ensures r.Err? ==> forall a :: a in r.error <==> CurrencyCreateBreaks(c, a)
  {
    if 1 <= |c.symbol| <= 10 && 1 <= |c.name| <= 100 && (c.imageUrl.None? || |c.imageUrl.value| <= 500) then Ok(c)
    else Err(set a | a in {SymbolAttr, NameAttr, ImageUrlAttr} && CurrencyCreateBreaks(c, a))
  }

  /**
   * What the repository stores for a validated currency still fits the
   * schema's upper bounds: normalising and stripping never lengthen.
   */
  lemma ValidCurrencyStoredFits(c: CurrencyCreate)
    requires ValidateCurrencyCreate(c).Ok?
    ensures |NormalSymbol(c.symbol)| <= 10 && |Strip(c.name)| <= 100
  {
  }

  /**
   * The lower bound does not survive normalisation: a symbol of blanks passes
   * the schema and is stored as the empty symbol.
   */
  lemma BlankSymbolPassesAndEmpties()
    ensures ValidateCurrencyCreate(CurrencyCreate(" ", "Coin", None)).Ok?
    ensures NormalSymbol(" ") == []
  {
    assert Upper(" ") == " ";
    assert TrimStart(" ") == [];
  }

  // ----- rounds -----

  /** The `RoundCreate` body as sent: the two flags may be left out. */
  datatype RoundCreateRequest = RoundCreateRequest(
    experimentId: nat,
    roundNumber: int,
    isTrainingRound: Option<bool>,
    countsForPayment: Option<bool>,
    durationMinutes: int,
    currencyXId: nat,
    currencyYId: nat,
    externalPriceX: real,
    externalPriceY: real,
    initialReserveX: real,
    initialReserveY: real)

  /** The bounds every round created through the schema satisfies. */
  predicate RoundBounds(r: Round)
  {
    && r.roundNumber > 0 && r.durationMinutes > 0
    && r.externalPriceX > 0.0 && r.externalPriceY > 0.0
    && r.initialReserveX > 0.0 && r.initialReserveY > 0.0
  }

  /** The `RoundCreate` constraint field `a` breaks: number, duration, prices and reserves strictly positive. */
  predicate RoundCreateBreaks(q: RoundCreateRequest, a: Attr)
  {
    match a
    case RoundNumberAttr => q.roundNumber <= 0
    case DurationMinutesAttr => q.durationMinutes <= 0
    case ExternalPriceXAttr => q.externalPriceX <= 0.0
    case ExternalPriceYAttr => q.externalPriceY <= 0.0
    case InitialReserveXAttr => q.initialReserveX <= 0.0
    case InitialReserveYAttr => q.initialReserveY <= 0.0
    case _ => false
  }

  /** `RoundCreate`: the validated request as the new round it describes, flags defaulting to false. */
  function ValidateRoundCreate(q: RoundCreateRequest): (r: Result<Round, Violations>)
    ensures r.Ok? <==> && q.roundNumber > 0 && q.durationMinutes > 0
                       && q.externalPriceX > 0.0 && q.externalPriceY > 0.0
                       && q.initialReserveX > 0.0 && q.initialReserveY > 0.0
    ensures r.Ok? ==> RoundBounds(r.value) && r.value.startedAt.None? && r.value.endedAt.None?
    ensures r.Ok? ==> && r.value.experimentId == q.experimentId && r.value.roundNumber == q.roundNumber
                      && r.value.durationMinutes == q.durationMinutes
                      && r.value.currencyX == q.currencyXId && r.value.currencyY == q.currencyYId
    ensures r.Ok? ==> && r.value.externalPriceX == q.externalPriceX && r.value.externalPriceY == q.externalPriceY
                      && r.value.initialReserveX == q.initialReserveX && r.value.initialReserveY == q.initialReserveY
    ensures r.Ok? ==> r.value.isTrainingRound == (q.isTrainingRound == Some(true))
    ensures r.Ok? ==> r.value.countsForPayment == (q.countsForPayment == Some(true))
    ensures r.Err? ==> forall a :: a in r.error <==> RoundCreateBreaks(q, a)
  {
    if (|| q.roundNumber <= 0 || q.durationMinutes <= 0 || q.externalPriceX <= 0.0 || q.externalPriceY <= 0.0
        || q.initialReserveX <= 0.0 || q.initialReserveY <= 0.0) then
      Err(set a | a in {RoundNumberAttr, DurationMinutesAttr, ExternalPriceXAttr, ExternalPriceYAttr,
                        InitialReserveXAttr, InitialReserveYAttr} && RoundCreateBreaks(q, a))
    else
      Ok(NewRound(q.experimentId, q.roundNumber,
                  if q.isTrainingRound.Some? then q.isTrainingRound.value else false,
                  if q.countsForPayment.Some? then q.countsForPayment.value else false,
                  q.durationMinutes, q.currencyXId, q.currencyYId,
                  q.externalPriceX, q.externalPriceY, q.initialReserveX, q.initialReserveY))
  }

  /** A round within the bounds seeds every group's pool with positive reserves and a positive constant. */
  lemma BoundedRoundSeedsPositive(r: Round, roundId: nat, groupId: nat)
    requires RoundBounds(r)
    ensures var p := SeededPool(roundId, groupId, r);
            Positive(Reserves(p.reserveX, p.reserveY, p.kConstant)) && p.kConstant > 0.0
  {
    ProductPositive(r.initialReserveX, r.initialReserveY);
  }

  /** The `RoundUpdate` body: every field optional. */
  datatype RoundUpdate = RoundUpdate(
    isTrainingRound: Option<bool>,
    countsForPayment: Option<bool>,
    durationMinutes: Option<int>,
    externalPriceX: Option<real>,
    externalPriceY: Option<real>,
    initialReserveX: Option<real>,
    initialReserveY: Option<real>)

  /** The `RoundUpdate` constraint field `a` breaks: a present duration, price or reserve must be positive. */
  predicate RoundUpdateBreaks(u: RoundUpdate, a: Attr)
  {
    match a
    case DurationMinutesAttr => u.durationMinutes.Some? && u.durationMinutes.value <= 0
    case ExternalPriceXAttr => u.externalPriceX.Some? && u.externalPriceX.value <= 0.0
    case ExternalPriceYAttr => u.externalPriceY.Some? && u.externalPriceY.value <= 0.0
    case InitialReserveXAttr => u.initialReserveX.Some? && u.initialReserveX.value <= 0.0
    case InitialReserveYAttr => u.initialReserveY.Some? && u.initialReserveY.value <= 0.0
    case _ => false
  }

  /** A round argument whose value, when present, meets the `RoundUpdate` bound. */
  predicate RoundArgInBounds(a: RoundArg)
  {
    match a
    case SetDurationMinutes(v) => v.None? || v.value > 0
    case SetExternalPriceX(v) => v.None? || v.value > 0.0
    case SetExternalPriceY(v) => v.None? || v.value > 0.0
    case SetInitialReserveX(v) => v.None? || v.value > 0.0
    case SetInitialReserveY(v) => v.None? || v.value > 0.0
    case _ => true
  }

  /** `RoundUpdate`: the keyword arguments it passes to `update_round`, in field order. */
  function ValidateRoundUpdate(u: RoundUpdate): (r: Result<seq<RoundArg>, Violations>)
    ensures r.Ok? <==> && (u.durationMinutes.None? || u.durationMinutes.value > 0)
                       && (u.externalPriceX.None? || u.externalPriceX.value > 0.0)
                       && (u.externalPriceY.None? || u.externalPriceY.value > 0.0)
                       && (u.initialReserveX.None? || u.initialReserveX.value > 0.0)
                       && (u.initialReserveY.None? || u.initialReserveY.value > 0.0)
    ensures r.Ok? ==> r.value == [SetIsTrainingRound(u.isTrainingRound), SetCountsForPayment(u.countsForPayment),
                                  SetDurationMinutes(u.durationMinutes), SetExternalPriceX(u.externalPriceX),
                                  SetExternalPriceY(u.externalPriceY), SetInitialReserveX(u.initialReserveX),
                                  SetInitialReserveY(u.initialReserveY)]
    ensures r.Err? ==> forall a :: a in r.error <==> RoundUpdateBreaks(u, a)
  {
    if (|| (u.durationMinutes.Some? && u.durationMinutes.value <= 0)
        || (u.externalPriceX.Some? && u.externalPriceX.value <= 0.0)
        || (u.externalPriceY.Some? && u.externalPriceY.value <= 0.0)
        || (u.initialReserveX.Some? && u.initialReserveX.value <= 0.0)
        || (u.initialReserveY.Some? && u.initialReserveY.value <= 0.0)) then
      Err(set a | a in {DurationMinutesAttr, ExternalPriceXAttr, ExternalPriceYAttr,
                        InitialReserveXAttr, InitialReserveYAttr} && RoundUpdateBreaks(u, a))
    else
      Ok([SetIsTrainingRound(u.isTrainingRound), SetCountsForPayment(u.countsForPayment),
          SetDurationMinutes(u.durationMinutes), SetExternalPriceX(u.externalPriceX),
          SetExternalPriceY(u.externalPriceY), SetInitialReserveX(u.initialReserveX),
          SetInitialReserveY(u.initialReserveY)])
  }

  /** Every argument a validated `RoundUpdate` passes on is within the update bounds. */
  lemma ValidRoundUpdateInBounds(u: RoundUpdate)
    requires ValidateRoundUpdate(u).Ok?
    ensures forall i :: 0 <= i < |ValidateRoundUpdate(u).value| ==> RoundArgInBounds(ValidateRoundUpdate(u).value[i])
  {
    var args := ValidateRoundUpdate(u).value;
    assert RoundArgInBounds(args[2]) && RoundArgInBounds(args[3]) && RoundArgInBounds(args[4])
        && RoundArgInBounds(args[5]) && RoundArgInBounds(args[6]);
  }

  /** Arguments within the update bounds keep a round within the create bounds. */
  lemma {:induction false} RoundArgsKeepBounds(r: Round, args: seq<RoundArg>)
    requires RoundBounds(r)
    requires forall i :: 0 <= i < |args| ==> RoundArgInBounds(args[i])
    ensures RoundBounds(ApplyRoundArgs(r, args))
  {
    if args != [] {
      RoundArgsKeepBounds(r, args[..|args| - 1]);
      assert RoundArgInBounds(args[|args| - 1]);
    }
  }

  /**
   * A round created and then updated only through the schemas stays within
   * the bounds, so its pools are still seeded positive.
   */
  lemma ValidUpdateKeepsRound(r: Round, u: RoundUpdate, roundId: nat, groupId: nat)
    requires RoundBounds(r) && ValidateRoundUpdate(u).Ok?
    ensures RoundBounds(ApplyRoundArgs(r, ValidateRoundUpdate(u).value))
    ensures var p := SeededPool(roundId, groupId, ApplyRoundArgs(r, ValidateRoundUpdate(u).value));
            Positive(Reserves(p.reserveX, p.reserveY, p.kConstant))
  {
    var args := ValidateRoundUpdate(u).value;
    ValidRoundUpdateInBounds(u);
    RoundArgsKeepBounds(r, args);
    BoundedRoundSeedsPositive(ApplyRoundArgs(r, args), roundId, groupId);
  }

  // ----- experiments and groups -----

  /** The `ExperimentCreate` body as sent: the training-round count may be left out. */
  datatype ExperimentCreateRequest = ExperimentCreateRequest(
    name: string,
    numRounds: int,
    numTrainingRounds: Option<int>,
    numRoundsForPayment: int,
    numPlayers: int,
    numGroups: int)

  /** The bounds every experiment created through the schema satisfies. */
  predicate ExperimentBounds(e: Experiment)
  {
    && 1 <= |e.name| <= 255 && e.numRounds > 0 && e.numTrainingRounds >= 0
    && e.numRoundsForPayment > 0 && e.numPlayers > 0 && e.numGroups > 0
  }

  /**
   * The `ExperimentCreate` constraint field `a` breaks: a name of 1..255
   * characters, no negative training rounds, the other counts strictly positive.
   */
  predicate ExperimentCreateBreaks(q: ExperimentCreateRequest, a: Attr)
  {
    match a
    case NameAttr => !(1 <= |q.name| <= 255)
    case NumRoundsAttr => q.numRounds <= 0
    case NumTrainingRoundsAttr => q.numTrainingRounds.Some? && q.numTrainingRounds.value < 0
    case NumRoundsForPaymentAttr => q.numRoundsForPayment <= 0
    case NumPlayersAttr => q.numPlayers <= 0
    case NumGroupsAttr => q.numGroups <= 0
    case _ => false
  }

  /** `ExperimentCreate`: the validated request as the experiment it describes, training rounds defaulting to 0. */
  function ValidateExperimentCreate(q: ExperimentCreateRequest, createdById: nat): (r: Result<Experiment, Violations>)
    ensures r.Ok? <==> && 1 <= |q.name| <= 255 && q.numRounds > 0
                       && (q.numTrainingRounds.None? || q.numTrainingRounds.value >= 0)
                       && q.numRoundsForPayment > 0 && q.numPlayers > 0 && q.numGroups > 0
    ensures r.Ok? ==> ExperimentBounds(r.value) && r.value.startedAt.None? && r.value.endedAt.None?
    ensures r.Ok? ==> && r.value.name == q.name && r.value.numRounds == q.numRounds
                      && r.value.numRoundsForPayment == q.numRoundsForPayment
                      && r.value.numPlayers == q.numPlayers && r.value.numGroups == q.numGroups
                      && r.value.createdById == createdById
    ensures r.Ok? && q.numTrainingRounds.None? ==> r.value.numTrainingRounds == 0
    ensures r.Ok? && q.numTrainingRounds.Some? ==> r.value.numTrainingRounds == q.numTrainingRounds.value
    ensures r.Err? ==> forall a :: a in r.error <==> ExperimentCreateBreaks(q, a)
  {
    if (|| !(1 <= |q.name| <= 255) || q.numRounds <= 0
        || (q.numTrainingRounds.Some? && q.numTrainingRounds.value < 0)
        || q.numRoundsForPayment <= 0 || q.numPlayers <= 0 || q.numGroups <= 0) then
      Err(set a | a in {NameAttr, NumRoundsAttr, NumTrainingRoundsAttr, NumRoundsForPaymentAttr,
                        NumPlayersAttr, NumGroupsAttr} && ExperimentCreateBreaks(q, a))
    else
      Ok(NewExperiment(q.name, q.numRounds, if q.numTrainingRounds.Some? then q.numTrainingRounds.value else 0,
                       q.numRoundsForPayment, q.numPlayers, q.numGroups, createdById))
  }

  datatype GroupCreate = GroupCreate(experimentId: nat, groupNumber: int)

  /** `GroupCreate`: a strictly positive group number. */
  function ValidateGroupCreate(g: GroupCreate): (r: Result<GroupCreate, Violations>)
    ensures r.Ok? <==> g.groupNumber > 0
    ensures r.Ok? ==> r.value == g
    ensures r.Err? ==> r.error == {GroupNumberAttr}
  {
    if g.groupNumber <= 0 then Err({GroupNumberAttr}) else Ok(g)
  }

  /**
   * A validated experiment gets at least one group at creation, and every
   * group `create_experiment` adds would itself pass `GroupCreate`.
   */
  lemma ValidExperimentGroups(q: ExperimentCreateRequest, createdById: nat, eid: nat, first: nat)
    requires ValidateExperimentCreate(q, createdById).Ok?
    ensures |NumberedGroups(eid, first, q.numGroups)| == q.numGroups > 0
    ensures forall i :: i in NumberedGroups(eid, first, q.numGroups) ==>
              ValidateGroupCreate(GroupCreate(eid, NumberedGroups(eid, first, q.numGroups)[i].groupNumber)).Ok?
  {
    NumberedGroupsCount(eid, first, q.numGroups);
    NumberedGroupsNumbering(eid, first, q.numGroups);
  }

  /** The `ExperimentUpdate` body: every field optional. */
  datatype ExperimentUpdate = ExperimentUpdate(
    name: Option<string>,
    numRounds: Option<int>,
    numTrainingRounds: Option<int>,
    numRoundsForPayment: Option<int>,
    numPlayers: Option<int>,
    numGroups: Option<int>)

  /** The `ExperimentUpdate` constraint field `a` breaks: the create bounds, on present fields only. */
  predicate ExperimentUpdateBreaks(u: ExperimentUpdate, a: Attr)
  {
    match a
    case NameAttr => u.name.Some? && !(1 <= |u.name.value| <= 255)
    case NumRoundsAttr => u.numRounds.Some? && u.numRounds.value <= 0
    case NumTrainingRoundsAttr => u.numTrainingRounds.Some? && u.numTrainingRounds.value < 0
    case NumRoundsForPaymentAttr => u.numRoundsForPayment.Some? && u.numRoundsForPayment.value <= 0
    case NumPlayersAttr => u.numPlayers.Some? && u.numPlayers.value <= 0
    case NumGroupsAttr => u.numGroups.Some? && u.numGroups.value <= 0
    case _ => false
  }

  /** An experiment argument whose value, when present, meets the `ExperimentUpdate` bound. */
  predicate ExperimentArgInBounds(a: ExperimentArg)
  {
    match a
    case SetName(v) => v.None? || 1 <= |v.value| <= 255
    case SetNumRounds(v) => v.None? || v.value > 0
    case SetNumTrainingRounds(v) => v.None? || v.value >= 0
    case SetNumRoundsForPayment(v) => v.None? || v.value > 0
    case SetNumPlayers(v) => v.None? || v.value > 0
    case SetNumGroups(v) => v.None? || v.value > 0
    case NotAnExperimentAttribute => true
  }

  /** `ExperimentUpdate`: the keyword arguments it passes to `update_experiment`, in field order. */
  function ValidateExperimentUpdate(u: ExperimentUpdate): (r: Result<seq<ExperimentArg>, Violations>)
    ensures r.Ok? <==> && (u.name.None? || 1 <= |u.name.value| <= 255)
                       && (u.numRounds.None? || u.numRounds.value > 0)
                       && (u.numTrainingRounds.None? || u.numTrainingRounds.value >= 0)
                       && (u.numRoundsForPayment.None? || u.numRoundsForPayment.value > 0)
                       && (u.numPlayers.None? || u.numPlayers.value > 0)
                       && (u.numGroups.None? || u.numGroups.value > 0)
    ensures r.Ok? ==> r.value == [SetName(u.name), SetNumRounds(u.numRounds), SetNumTrainingRounds(u.numTrainingRounds),
                                  SetNumRoundsForPayment(u.numRoundsForPayment), SetNumPlayers(u.numPlayers),
                                  SetNumGroups(u.numGroups)]
    ensures r.Err? ==> forall a :: a in r.error <==> ExperimentUpdateBreaks(u, a)
  {
    if (|| (u.name.Some? && !(1 <= |u.name.value| <= 255))
        || (u.numRounds.Some? && u.numRounds.value <= 0)
        || (u.numTrainingRounds.Some? && u.numTrainingRounds.value < 0)
        || (u.numRoundsForPayment.Some? && u.numRoundsForPayment.value <= 0)
        || (u.numPlayers.Some? && u.numPlayers.value <= 0)
        || (u.numGroups.Some? && u.numGroups.value <= 0)) then
      Err(set a | a in {NameAttr, NumRoundsAttr, NumTrainingRoundsAttr, NumRoundsForPaymentAttr,
                        NumPlayersAttr, NumGroupsAttr} && ExperimentUpdateBreaks(u, a))
    else
      Ok([SetName(u.name), SetNumRounds(u.numRounds), SetNumTrainingRounds(u.numTrainingRounds),
          SetNumRoundsForPayment(u.numRoundsForPayment), SetNumPlayers(u.numPlayers), SetNumGroups(u.numGroups)])
  }

  /** Every argument a validated `ExperimentUpdate` passes on is within the update bounds. */
  lemma ValidExperimentUpdateInBounds(u: ExperimentUpdate)
    requires ValidateExperimentUpdate(u).Ok?
    ensures forall i :: 0 <= i < |ValidateExperimentUpdate(u).value| ==>
              ExperimentArgInBounds(ValidateExperimentUpdate(u).value[i])
  {
    var args := ValidateExperimentUpdate(u).value;
    assert ExperimentArgInBounds(args[0]) && ExperimentArgInBounds(args[1]) && ExperimentArgInBounds(args[2])
        && ExperimentArgInBounds(args[3]) && ExperimentArgInBounds(args[4]) && ExperimentArgInBounds(args[5]);
  }

  /** Arguments within the update bounds keep an experiment within the create bounds. */
  lemma {:induction false} ExperimentArgsKeepBounds(e: Experiment, args: seq<ExperimentArg>)
    requires ExperimentBounds(e)
    requires forall i :: 0 <= i < |args| ==> ExperimentArgInBounds(args[i])
    ensures ExperimentBounds(ApplyExperimentArgs(e, args))
  {
    if args != [] {
      ExperimentArgsKeepBounds(e, args[..|args| - 1]);
      assert ExperimentArgInBounds(args[|args| - 1]);
    }
  }

  /** An experiment created and then updated only through the schemas stays within the bounds. */
  lemma ValidUpdateKeepsExperiment(e: Experiment, u: ExperimentUpdate)
    requires ExperimentBounds(e) && ValidateExperimentUpdate(u).Ok?
    ensures ExperimentBounds(ApplyExperimentArgs(e, ValidateExperimentUpdate(u).value))
  {
    ValidExperimentUpdateInBounds(u);
    ExperimentArgsKeepBounds(e, ValidateExperimentUpdate(u).value);
  }
}
