/**
 * Records of the experiment game (api/app/models/experiment.py and
 * api/app/models/round.py) and the pure rules over them: the integrity the
 * foreign keys and cascades maintain, the rows an experiment's creation and a
 * round's initialisation add, the activation cascade of a round's start and
 * end, the partial updates, and the delete cascades.
 *
 * Timestamps are readings of a clock, an `Option<nat>` that starts unset.
 */
module LabRecords {
  import opened Wrappers
  import opened Rows

  datatype Experiment = Experiment(
    name: string,
    numRounds: int,
    numTrainingRounds: int,
    numRoundsForPayment: int,
    numPlayers: int,
    numGroups: int,
    createdById: nat,
    startedAt: Option<nat>,
    endedAt: Option<nat>)

  datatype Group = Group(experimentId: nat, groupNumber: int)

  datatype Round = Round(
    experimentId: nat,
    roundNumber: int,
    isTrainingRound: bool,
    countsForPayment: bool,
    durationMinutes: int,
    currencyX: nat,
    currencyY: nat,
    externalPriceX: real,
    externalPriceY: real,
    initialReserveX: real,
    initialReserveY: real,
    startedAt: Option<nat>,
    endedAt: Option<nat>)

  /** One group's pool in one round. */
  datatype ExperimentRound = ExperimentRound(
    roundId: nat,
    groupId: nat,
    reserveX: real,
    reserveY: real,
    kConstant: real,
    feePercent: real,
    isActive: bool,
    startedAt: Option<nat>,
    endedAt: Option<nat>)

  /** The rows that hang off one pool and are deleted with it. */
  datatype DependentKind = TransactionRow | KnowledgeRow | FeedbackRow | BalanceRow

  datatype Dependent = Dependent(kind: DependentKind, experimentRoundId: nat)

  datatype Tables = Tables(
    experiments: map<nat, Experiment>,
    groups: map<nat, Group>,
    rounds: map<nat, Round>,
    pools: map<nat, ExperimentRound>,
    dependents: map<nat, Dependent>)

  datatype LabError =
    | InvalidAdmin
    | ExperimentNotFound
    | RoundNotFound
    | AlreadyStarted
    | NotStarted
    | AlreadyEnded
    | InvalidCurrency

  /** Every id in use lies below `bound`. */
  predicate Below(t: Tables, bound: nat)
  {
    && (forall i :: i in t.experiments ==> i < bound)
    && (forall i :: i in t.groups ==> i < bound)
    && (forall i :: i in t.rounds ==> i < bound)
    && (forall i :: i in t.pools ==> i < bound)
    && (forall i :: i in t.dependents ==> i < bound)
  }

  /**
   * Referential integrity: groups and rounds belong to an existing experiment,
   * a pool to an existing round and group of that same experiment, and every
   * dependent row to an existing pool.
   */
  predicate Linked(t: Tables)
  {
    && (forall g :: g in t.groups ==> t.groups[g].experimentId in t.experiments)
    && (forall r :: r in t.rounds ==> t.rounds[r].experimentId in t.experiments)
    && (forall p :: p in t.pools ==>
          && t.pools[p].roundId in t.rounds
          && t.pools[p].groupId in t.groups
          && t.groups[t.pools[p].groupId].experimentId == t.rounds[t.pools[p].roundId].experimentId)
    && (forall d :: d in t.dependents ==> t.dependents[d].experimentRoundId in t.pools)
  }

  /** Started and not yet ended. */
  predicate Running(r: Round)
  {
    r.startedAt.Some? && r.endedAt.None?
  }

  /**
   * The lifecycle: nothing has ended without having started, and a pool is
   * active only while its round is running.
   */
  predicate Timeline(t: Tables)
  {
    && (forall e :: e in t.experiments ==> (t.experiments[e].endedAt.Some? ==> t.experiments[e].startedAt.Some?))
    && (forall r :: r in t.rounds ==> (t.rounds[r].endedAt.Some? ==> t.rounds[r].startedAt.Some?))
    && (forall p :: p in t.pools && t.pools[p].isActive && t.pools[p].roundId in t.rounds ==>
          Running(t.rounds[t.pools[p].roundId]))
  }

  predicate Consistent(t: Tables)
  {
    Linked(t) && Timeline(t)
  }

  /** Every row of `u` is the same row of `t`. */
  predicate SubTables(u: Tables, t: Tables)
  {
    && (forall i :: i in u.experiments ==> i in t.experiments && u.experiments[i] == t.experiments[i])
    && (forall i :: i in u.groups ==> i in t.groups && u.groups[i] == t.groups[i])
    && (forall i :: i in u.rounds ==> i in t.rounds && u.rounds[i] == t.rounds[i])
    && (forall i :: i in u.pools ==> i in t.pools && u.pools[i] == t.pools[i])
    && (forall i :: i in u.dependents ==> i in t.dependents && u.dependents[i] == t.dependents[i])
  }

  // ----- creation -----

  /** A new experiment: every field as given, never started or ended. */
  function NewExperiment(name: string, numRounds: int, numTrainingRounds: int, numRoundsForPayment: int,
                         numPlayers: int, numGroups: int, createdById: nat): (e: Experiment)
    ensures e.startedAt.None? && e.endedAt.None?
  {
    Experiment(name, numRounds, numTrainingRounds, numRoundsForPayment, numPlayers, numGroups, createdById, None, None)
  }

  /**
   * The groups `create_experiment` adds, numbered 1..n under the fresh ids
   * `first`, `first + 1`, ...; none when `n` is not positive.
   */
  function NumberedGroups(eid: nat, first: nat, n: int): map<nat, Group>
    decreases if n < 0 then 0 else n
  {
    if n <= 0 then map[] else NumberedGroups(eid, first, n - 1)[first + n - 1 := Group(eid, n)]
  }

  /**
   * Exactly one group of experiment `eid` for each number 1..n, under the ids
   * from `first` on, and nothing else.
   */
  lemma {:induction false} NumberedGroupsNumbering(eid: nat, first: nat, n: int)
    ensures forall i :: i in NumberedGroups(eid, first, n) ==> first <= i < first + n
    ensures forall i :: i in NumberedGroups(eid, first, n) ==>
              NumberedGroups(eid, first, n)[i].experimentId == eid && 1 <= NumberedGroups(eid, first, n)[i].groupNumber <= n
    ensures forall i :: first <= i < first + n ==>
              i in NumberedGroups(eid, first, n) && NumberedGroups(eid, first, n)[i].groupNumber == i - first + 1
    ensures forall i, j ::
              (i in NumberedGroups(eid, first, n) && j in NumberedGroups(eid, first, n)
               && NumberedGroups(eid, first, n)[i].groupNumber == NumberedGroups(eid, first, n)[j].groupNumber) ==> i == j
    decreases if n < 0 then 0 else n
  {
    if n > 0 {
      NumberedGroupsNumbering(eid, first, n - 1);
      assert NumberedGroups(eid, first, n) == NumberedGroups(eid, first, n - 1)[first + n - 1 := Group(eid, n)];
    }
  }

  /** `create_experiment` adds as many groups as `num_groups` says, or none. */
  lemma {:induction false} NumberedGroupsCount(eid: nat, first: nat, n: int)
    ensures |NumberedGroups(eid, first, n)| == if n < 0 then 0 else n
    decreases if n < 0 then 0 else n
  {
    if n > 0 {
      NumberedGroupsCount(eid, first, n - 1);
      NumberedGroupsNumbering(eid, first, n - 1);
      assert first + n - 1 !in NumberedGroups(eid, first, n - 1);
    }
  }

  /** A new round: every field as given, never started or ended. */
  function NewRound(experimentId: nat, roundNumber: int, isTrainingRound: bool, countsForPayment: bool,
                    durationMinutes: int, currencyX: nat, currencyY: nat,
                    externalPriceX: real, externalPriceY: real,
                    initialReserveX: real, initialReserveY: real): (r: Round)
    ensures r.startedAt.None? && r.endedAt.None?
  {
    Round(experimentId, roundNumber, isTrainingRound, countsForPayment, durationMinutes, currencyX, currencyY,
          externalPriceX, externalPriceY, initialReserveX, initialReserveY, None, None)
  }

  /**
   * The pool `initialize_experiment_rounds` seeds for one group: the round's
   * initial reserves, their product as the constant, no fee, inactive and
   * never started or ended.
   */
  function SeededPool(roundId: nat, groupId: nat, r: Round): (p: ExperimentRound)
    ensures p.roundId == roundId && p.groupId == groupId
    ensures p.reserveX == r.initialReserveX && p.reserveY == r.initialReserveY
    ensures p.kConstant == p.reserveX * p.reserveY
    ensures p.feePercent == 0.0 && !p.isActive && p.startedAt.None? && p.endedAt.None?
  {
    ExperimentRound(roundId, groupId, r.initialReserveX, r.initialReserveY,
                    r.initialReserveX * r.initialReserveY, 0.0, false, None, None)
  }

  /** The pools seeded for `groupIds`, in order, under the fresh ids from `first` on. */
  function SeedPools(roundId: nat, r: Round, groupIds: seq<nat>, first: nat): (ps: map<nat, ExperimentRound>)
    ensures forall i :: i in ps ==> first <= i < first + |groupIds|
    ensures forall i :: first <= i < first + |groupIds| ==>
              i in ps && ps[i] == SeededPool(roundId, groupIds[i - first], r)
  {
    if groupIds == [] then map[]
    else
      var n := |groupIds| - 1;
      SeedPools(roundId, r, groupIds[..n], first)[first + n := SeededPool(roundId, groupIds[n], r)]
  }

  /** The `j`-th seeded pool, as seen through a union with the existing pools. */
  lemma SeedPoolsAt(m: map<nat, ExperimentRound>, roundId: nat, r: Round, groupIds: seq<nat>, first: nat, j: nat)
    requires j < |groupIds|
    ensures first + j in m + SeedPools(roundId, r, groupIds, first)
    ensures (m + SeedPools(roundId, r, groupIds, first))[first + j] == SeededPool(roundId, groupIds[j], r)
  {
    assert first + j in SeedPools(roundId, r, groupIds, first);
  }

  /** The filter "group of experiment `eid`". */
  function InExperiment(eid: nat): (nat, Group) -> bool
  {
    (k: nat, g: Group) => g.experimentId == eid
  }

  /** The groups the initialisation query returns belong to the round's experiment. */
  lemma GroupsOfExperiment(groups: map<nat, Group>, bound: nat, eid: nat)
    ensures forall i :: 0 <= i < |IdsWhere(groups, bound, InExperiment(eid))| ==>
              var g := IdsWhere(groups, bound, InExperiment(eid))[i];
              g in groups && groups[g].experimentId == eid
  {
  }

  /** Pools seeded for groups of the round's experiment fit the tables they join. */
  lemma SeedPoolsFit(groups: map<nat, Group>, rounds: map<nat, Round>, rid: nat, gids: seq<nat>, bound: nat)
    requires rid in rounds
    requires forall i :: 0 <= i < |gids| ==> gids[i] in groups && groups[gids[i]].experimentId == rounds[rid].experimentId
    ensures forall p :: p in SeedPools(rid, rounds[rid], gids, bound) ==>
              var q := SeedPools(rid, rounds[rid], gids, bound)[p];
              && q.roundId in rounds && q.groupId in groups
              && groups[q.groupId].experimentId == rounds[q.roundId].experimentId
              && !q.isActive
  {
    var ps := SeedPools(rid, rounds[rid], gids, bound);
    forall p | p in ps
      ensures ps[p].roundId == rid && ps[p].groupId == gids[p - bound] && !ps[p].isActive
    {
    }
  }

  /**
   * The tables after `initialize_experiment_rounds` seeded one pool for each
   * group of the round's experiment under the fresh ids from `bound` on.
   */
  lemma InitializeConsistent(t: Tables, bound: nat, rid: nat, gids: seq<nat>, u: Tables)
    requires Below(t, bound) && Consistent(t) && rid in t.rounds
    requires forall i :: 0 <= i < |gids| ==> gids[i] in t.groups && t.groups[gids[i]].experimentId == t.rounds[rid].experimentId
    requires u.pools == t.pools + SeedPools(rid, t.rounds[rid], gids, bound)
    requires u.experiments == t.experiments && u.groups == t.groups && u.rounds == t.rounds && u.dependents == t.dependents
    ensures Below(u, bound + |gids|) && Consistent(u)
  {
    assert u == t.(pools := t.pools + SeedPools(rid, t.rounds[rid], gids, bound));
    var ps := SeedPools(rid, t.rounds[rid], gids, bound);
    SeedPoolsFit(t.groups, t.rounds, rid, gids, bound);
    AddPoolsConsistent(t, ps);
  }

  /** The `n` ids handed out from `first` on, in order. */
  function FreshIds(first: nat, n: nat): (ids: seq<nat>)
    ensures |ids| == n
    ensures forall j :: 0 <= j < n ==> ids[j] == first + j
  {
    if n == 0 then [] else FreshIds(first, n - 1) + [first + n - 1]
  }

  /**
   * The ids handed back by the initialisation of round `rid` name pools that did not exist
   * before, the `j`-th seeded from `r` for the `j`-th group `gids[j]`.
   */
  lemma InitializePoolsSeeded(pools: map<nat, ExperimentRound>, bound: nat,
                              rid: nat, r: Round, gids: seq<nat>, created: seq<nat>)
    requires forall p :: p in pools ==> p < bound
    requires created == FreshIds(bound, |gids|)
    ensures |created| == |gids|
    ensures forall j {:trigger created[j]} :: 0 <= j < |created| ==>
              && created[j] !in pools && created[j] in pools + SeedPools(rid, r, gids, bound)
              && (pools + SeedPools(rid, r, gids, bound))[created[j]] == SeededPool(rid, gids[j], r)
  {
    forall j {:trigger created[j]} | 0 <= j < |gids|
      ensures created[j] in pools + SeedPools(rid, r, gids, bound)
      ensures (pools + SeedPools(rid, r, gids, bound))[created[j]] == SeededPool(rid, gids[j], r)
    {
      SeedPoolsAt(pools, rid, r, gids, bound, j);
    }
  }

  /** The pools the initialisation creates follow the groups in increasing id order. */
  lemma InitializePoolsOrdered(pools: map<nat, ExperimentRound>, groups: map<nat, Group>, bound: nat,
                               rid: nat, r: Round, gids: seq<nat>, created: seq<nat>)
    requires forall p :: p in pools ==> p < bound
    requires gids == IdsWhere(groups, bound, InExperiment(r.experimentId))
    requires created == FreshIds(bound, |gids|)
    ensures forall i, j {:trigger created[i], created[j]} :: 0 <= i < j < |created| ==>
              && created[i] in pools + SeedPools(rid, r, gids, bound)
              && created[j] in pools + SeedPools(rid, r, gids, bound)
              && (pools + SeedPools(rid, r, gids, bound))[created[i]].groupId
                 < (pools + SeedPools(rid, r, gids, bound))[created[j]].groupId
  {
    InitializePoolsSeeded(pools, bound, rid, r, gids, created);
  }

  /** Every group of the round's experiment gets one of the created pools. */
  lemma InitializeCoversGroups(pools: map<nat, ExperimentRound>, groups: map<nat, Group>, bound: nat,
                               rid: nat, r: Round, gids: seq<nat>, created: seq<nat>)
    requires forall p :: p in pools ==> p < bound
    requires forall g :: g in groups ==> g < bound
    requires gids == IdsWhere(groups, bound, InExperiment(r.experimentId))
    requires created == FreshIds(bound, |gids|)
    ensures forall g :: g in groups && groups[g].experimentId == r.experimentId ==>
              exists j {:trigger created[j]} :: 0 <= j < |created|
                && created[j] in pools + SeedPools(rid, r, gids, bound)
                && (pools + SeedPools(rid, r, gids, bound))[created[j]].groupId == g
  {
    InitializePoolsSeeded(pools, bound, rid, r, gids, created);
    forall g | g in groups && groups[g].experimentId == r.experimentId
      ensures exists j {:trigger created[j]} :: 0 <= j < |created|
                && created[j] in pools + SeedPools(rid, r, gids, bound)
                && (pools + SeedPools(rid, r, gids, bound))[created[j]].groupId == g
    {
      assert InExperiment(r.experimentId)(g, groups[g]);
      var j :| 0 <= j < |gids| && gids[j] == g;
      assert (pools + SeedPools(rid, r, gids, bound))[created[j]].groupId == g;
    }
  }

  /** The pool map the activation loop leaves behind is `ActivateRound`'s. */
  lemma ActivatedPools(ps: map<nat, ExperimentRound>, qs: map<nat, ExperimentRound>, bound: nat, rid: nat, now: nat)
    requires forall p :: p in ps ==> p < bound
    requires qs.Keys == ps.Keys
    requires forall p :: p in qs ==>
               qs[p] == if p in IdsWhere(ps, bound, OfRound(rid)) then Activated(ps[p], now) else ps[p]
    ensures qs == ActivateRound(ps, rid, now)
  {
    forall p | p in ps
      ensures p in IdsWhere(ps, bound, OfRound(rid)) <==> ps[p].roundId == rid
    {
      if ps[p].roundId == rid {
        assert OfRound(rid)(p, ps[p]);
      }
    }
  }

  /** The pool map the deactivation loop leaves behind is `DeactivateRound`'s. */
  lemma DeactivatedPools(ps: map<nat, ExperimentRound>, qs: map<nat, ExperimentRound>, bound: nat, rid: nat, now: nat)
    requires forall p :: p in ps ==> p < bound
    requires qs.Keys == ps.Keys
    requires forall p :: p in qs ==>
               qs[p] == if p in IdsWhere(ps, bound, OfRound(rid)) then Deactivated(ps[p], now) else ps[p]
    ensures qs == DeactivateRound(ps, rid, now)
  {
    forall p | p in ps
      ensures p in IdsWhere(ps, bound, OfRound(rid)) <==> ps[p].roundId == rid
    {
      if ps[p].roundId == rid {
        assert OfRound(rid)(p, ps[p]);
      }
    }
  }

  /** The filter "pool of round `rid`". */
  function OfRound(rid: nat): (nat, ExperimentRound) -> bool
  {
    (k: nat, p: ExperimentRound) => p.roundId == rid
  }

  /** The filter "pool of round `rid` for group `gid`". */
  function OfRoundAndGroup(rid: nat, gid: nat): (nat, ExperimentRound) -> bool
  {
    (k: nat, p: ExperimentRound) => p.roundId == rid && p.groupId == gid
  }

  // ----- start and end of a round -----

  function Activated(p: ExperimentRound, now: nat): ExperimentRound
  {
    p.(isActive := true, startedAt := Some(now))
  }

  function Deactivated(p: ExperimentRound, now: nat): ExperimentRound
  {
    p.(isActive := false, endedAt := Some(now))
  }

  /** `start_round`'s cascade: every pool of round `rid` is activated, no other pool changes. */
  function ActivateRound(ps: map<nat, ExperimentRound>, rid: nat, now: nat): (qs: map<nat, ExperimentRound>)
    ensures qs.Keys == ps.Keys
    ensures forall p :: p in ps && ps[p].roundId == rid ==> qs[p] == Activated(ps[p], now)
    ensures forall p :: p in ps && ps[p].roundId == rid ==> qs[p].isActive && qs[p].startedAt == Some(now)
    ensures forall p :: p in ps ==> qs[p].(isActive := ps[p].isActive, startedAt := ps[p].startedAt) == ps[p]
    ensures forall p :: p in ps ==> qs[p].roundId == ps[p].roundId && qs[p].groupId == ps[p].groupId
    ensures forall p :: p in ps && ps[p].roundId != rid ==> qs[p] == ps[p]
  {
    map p | p in ps :: if ps[p].roundId == rid then Activated(ps[p], now) else ps[p]
  }

  /** `end_round`'s cascade: every pool of round `rid` is deactivated, no other pool changes. */
  function DeactivateRound(ps: map<nat, ExperimentRound>, rid: nat, now: nat): (qs: map<nat, ExperimentRound>)
    ensures qs.Keys == ps.Keys
    ensures forall p :: p in ps && ps[p].roundId == rid ==> qs[p] == Deactivated(ps[p], now)
    ensures forall p :: p in ps && ps[p].roundId == rid ==> !qs[p].isActive && qs[p].endedAt == Some(now)
    ensures forall p :: p in ps ==> qs[p].(isActive := ps[p].isActive, endedAt := ps[p].endedAt) == ps[p]
    ensures forall p :: p in ps ==> qs[p].roundId == ps[p].roundId && qs[p].groupId == ps[p].groupId
    ensures forall p :: p in ps && ps[p].roundId != rid ==> qs[p] == ps[p]
  {
    map p | p in ps :: if ps[p].roundId == rid then Deactivated(ps[p], now) else ps[p]
  }

  /** Starting a round that has not started keeps the tables consistent. */
  lemma StartRoundConsistent(t: Tables, rid: nat, now: nat)
    requires Consistent(t) && rid in t.rounds && t.rounds[rid].startedAt.None?
    ensures Consistent(t.(rounds := t.rounds[rid := t.rounds[rid].(startedAt := Some(now))],
                          pools := ActivateRound(t.pools, rid, now)))
  {
    var u := t.(rounds := t.rounds[rid := t.rounds[rid].(startedAt := Some(now))],
                 pools := ActivateRound(t.pools, rid, now));
    assert Running(u.rounds[rid]);
  }

  /** Ending a running round keeps the tables consistent. */
  lemma EndRoundConsistent(t: Tables, rid: nat, now: nat)
    requires Consistent(t) && rid in t.rounds && Running(t.rounds[rid])
    ensures Consistent(t.(rounds := t.rounds[rid := t.rounds[rid].(endedAt := Some(now))],
                          pools := DeactivateRound(t.pools, rid, now)))
  {
  }

  /** Storing an experiment that has not ended without starting keeps the tables consistent. */
  lemma PutExperimentConsistent(t: Tables, id: nat, e: Experiment)
    requires Consistent(t)
    requires e.endedAt.Some? ==> e.startedAt.Some?
    ensures Consistent(t.(experiments := t.experiments[id := e]))
  {
  }

  /** Adding fresh groups of existing experiments keeps the tables consistent. */
  lemma AddGroupsConsistent(t: Tables, gs: map<nat, Group>)
    requires Consistent(t)
    requires forall g :: g in gs ==> g !in t.groups && gs[g].experimentId in t.experiments
    ensures Consistent(t.(groups := t.groups + gs))
  {
    var u := t.(groups := t.groups + gs);
    forall p | p in u.pools
      ensures u.groups[u.pools[p].groupId] == t.groups[t.pools[p].groupId]
    {
    }
  }

  /** The tables after `create_experiment`: one new experiment and its numbered groups. */
  lemma CreateExperimentConsistent(t: Tables, eid: nat, e: Experiment, n: int, u: Tables)
    requires Below(t, eid) && Consistent(t)
    requires e.startedAt.None? && e.endedAt.None?
    requires u.experiments == t.experiments[eid := e] && u.groups == t.groups + NumberedGroups(eid, eid + 1, n)
    requires u.rounds == t.rounds && u.pools == t.pools && u.dependents == t.dependents
    ensures forall g :: g in NumberedGroups(eid, eid + 1, n) ==> g !in t.groups
    ensures Below(u, eid + 1 + (if n < 0 then 0 else n)) && Consistent(u)
  {
    assert u == t.(experiments := t.experiments[eid := e], groups := t.groups + NumberedGroups(eid, eid + 1, n));
    PutExperimentConsistent(t, eid, e);
    var t1 := t.(experiments := t.experiments[eid := e]);
    var gs := NumberedGroups(eid, eid + 1, n);
    NumberedGroupsNumbering(eid, eid + 1, n);
    forall g | g in gs
      ensures g !in t1.groups && gs[g].experimentId in t1.experiments
    {
      assert g >= eid + 1;
    }
    AddGroupsConsistent(t1, gs);
  }

  /** Adding a fresh, unstarted round of an existing experiment keeps the tables consistent. */
  lemma AddRoundConsistent(t: Tables, id: nat, r: Round)
    requires Consistent(t)
    requires id !in t.rounds && r.experimentId in t.experiments && r.startedAt.None? && r.endedAt.None?
    ensures Consistent(t.(rounds := t.rounds[id := r]))
  {
  }

  /** Replacing a round by one with the same experiment and timestamps keeps the tables consistent. */
  lemma ReplaceRoundConsistent(t: Tables, id: nat, r: Round)
    requires Consistent(t)
    requires id in t.rounds && RoundFixedFields(r, t.rounds[id])
    ensures Consistent(t.(rounds := t.rounds[id := r]))
  {
    var u := t.(rounds := t.rounds[id := r]);
    forall p | p in u.pools
      ensures u.rounds[u.pools[p].roundId].experimentId == t.rounds[t.pools[p].roundId].experimentId
      ensures Running(u.rounds[u.pools[p].roundId]) == Running(t.rounds[t.pools[p].roundId])
    {
    }
  }

  /** Adding inactive pools of existing rounds and groups of one experiment keeps the tables consistent. */
  lemma AddPoolsConsistent(t: Tables, ps: map<nat, ExperimentRound>)
    requires Consistent(t)
    requires forall p :: p in ps ==>
               && ps[p].roundId in t.rounds && ps[p].groupId in t.groups
               && t.groups[ps[p].groupId].experimentId == t.rounds[ps[p].roundId].experimentId
               && !ps[p].isActive
    ensures Consistent(t.(pools := t.pools + ps))
  {
  }

  // ----- partial updates -----

  /** One keyword argument of `update_experiment`; `None` values are skipped. */
  datatype ExperimentArg =
    | SetName(name: Option<string>)
    | SetNumRounds(numRounds: Option<int>)
    | SetNumTrainingRounds(numTrainingRounds: Option<int>)
    | SetNumRoundsForPayment(numRoundsForPayment: Option<int>)
    | SetNumPlayers(numPlayers: Option<int>)
    | SetNumGroups(numGroups: Option<int>)
    | NotAnExperimentAttribute

  datatype ExperimentField = NameField | NumRoundsField | NumTrainingRoundsField | NumRoundsForPaymentField
                           | NumPlayersField | NumGroupsField

  /** The field an argument overwrites: only a non-`None` value of an existing attribute does. */
  function ExperimentSupplied(a: ExperimentArg): Option<ExperimentField>
  {
    match a
    case SetName(v) => if v.Some? then Some(NameField) else None
    case SetNumRounds(v) => if v.Some? then Some(NumRoundsField) else None
    case SetNumTrainingRounds(v) => if v.Some? then Some(NumTrainingRoundsField) else None
    case SetNumRoundsForPayment(v) => if v.Some? then Some(NumRoundsForPaymentField) else None
    case SetNumPlayers(v) => if v.Some? then Some(NumPlayersField) else None
    case SetNumGroups(v) => if v.Some? then Some(NumGroupsField) else None
    case NotAnExperimentAttribute => None
  }

  /** `a` and `b` agree on field `f`. */
  predicate ExperimentAgree(a: Experiment, b: Experiment, f: ExperimentField)
  {
    match f
    case NameField => a.name == b.name
    case NumRoundsField => a.numRounds == b.numRounds
    case NumTrainingRoundsField => a.numTrainingRounds == b.numTrainingRounds
    case NumRoundsForPaymentField => a.numRoundsForPayment == b.numRoundsForPayment
    case NumPlayersField => a.numPlayers == b.numPlayers
    case NumGroupsField => a.numGroups == b.numGroups
  }

  /** One `setattr`, applied only when the value is not `None`. */
  function ApplyExperimentArg(e: Experiment, a: ExperimentArg): (r: Experiment)
    ensures r.createdById == e.createdById && r.startedAt == e.startedAt && r.endedAt == e.endedAt
    ensures forall f :: ExperimentSupplied(a) != Some(f) ==> ExperimentAgree(r, e, f)
    ensures a.SetName? && a.name.Some? ==> r.name == a.name.value
    ensures a.SetNumRounds? && a.numRounds.Some? ==> r.numRounds == a.numRounds.value
    ensures a.SetNumTrainingRounds? && a.numTrainingRounds.Some? ==> r.numTrainingRounds == a.numTrainingRounds.value
    ensures a.SetNumRoundsForPayment? && a.numRoundsForPayment.Some? ==> r.numRoundsForPayment == a.numRoundsForPayment.value
    ensures a.SetNumPlayers? && a.numPlayers.Some? ==> r.numPlayers == a.numPlayers.value
    ensures a.SetNumGroups? && a.numGroups.Some? ==> r.numGroups == a.numGroups.value
  {
    match a
    case SetName(v) => if v.Some? then e.(name := v.value) else e
    case SetNumRounds(v) => if v.Some? then e.(numRounds := v.value) else e
    case SetNumTrainingRounds(v) => if v.Some? then e.(numTrainingRounds := v.value) else e
    case SetNumRoundsForPayment(v) => if v.Some? then e.(numRoundsForPayment := v.value) else e
    case SetNumPlayers(v) => if v.Some? then e.(numPlayers := v.value) else e
    case SetNumGroups(v) => if v.Some? then e.(numGroups := v.value) else e
    case NotAnExperimentAttribute => e
  }

  /** The arguments applied in order. The creator and the timestamps never change. */
  function ApplyExperimentArgs(e: Experiment, args: seq<ExperimentArg>): (r: Experiment)
    ensures r.createdById == e.createdById && r.startedAt == e.startedAt && r.endedAt == e.endedAt
  {
    if args == [] then e else ApplyExperimentArg(ApplyExperimentArgs(e, args[..|args| - 1]), args[|args| - 1])
  }

  /** A field that no argument supplies keeps its value. */
  lemma {:induction false} ExperimentUnsuppliedKept(e: Experiment, args: seq<ExperimentArg>, f: ExperimentField)
    requires forall i :: 0 <= i < |args| ==> ExperimentSupplied(args[i]) != Some(f)
    ensures ExperimentAgree(ApplyExperimentArgs(e, args), e, f)
  {
    if args != [] {
      ExperimentUnsuppliedKept(e, args[..|args| - 1], f);
    }
  }

  /** A supplied field takes the value of the last argument that supplies it. */
  lemma {:induction false} ExperimentLastSupplierWins(e: Experiment, args: seq<ExperimentArg>, j: nat, f: ExperimentField)
    requires j < |args| && ExperimentSupplied(args[j]) == Some(f)
    requires forall i :: j < i < |args| ==> ExperimentSupplied(args[i]) != Some(f)
    ensures ExperimentAgree(ApplyExperimentArgs(e, args), ApplyExperimentArg(e, args[j]), f)
  {
    var init := args[..|args| - 1];
    if j < |args| - 1 {
      ExperimentLastSupplierWins(e, init, j, f);
    }
  }

  /** Arguments that supply nothing leave the experiment as it was. */
  lemma ExperimentNothingSupplied(e: Experiment, args: seq<ExperimentArg>)
    requires forall i :: 0 <= i < |args| ==> ExperimentSupplied(args[i]).None?
    ensures ApplyExperimentArgs(e, args) == e
  {
    ExperimentUnsuppliedKept(e, args, NameField);
    ExperimentUnsuppliedKept(e, args, NumRoundsField);
    ExperimentUnsuppliedKept(e, args, NumTrainingRoundsField);
    ExperimentUnsuppliedKept(e, args, NumRoundsForPaymentField);
    ExperimentUnsuppliedKept(e, args, NumPlayersField);
    ExperimentUnsuppliedKept(e, args, NumGroupsField);
  }

  /** One keyword argument of `update_round`; `None` values are skipped. */
  datatype RoundArg =
    | SetIsTrainingRound(isTrainingRound: Option<bool>)
    | SetCountsForPayment(countsForPayment: Option<bool>)
    | SetDurationMinutes(durationMinutes: Option<int>)
    | SetExternalPriceX(externalPriceX: Option<real>)
    | SetExternalPriceY(externalPriceY: Option<real>)
    | SetInitialReserveX(initialReserveX: Option<real>)
    | SetInitialReserveY(initialReserveY: Option<real>)
    | NotARoundAttribute

  datatype RoundField = IsTrainingRoundField | CountsForPaymentField | DurationMinutesField
                      | ExternalPriceXField | ExternalPriceYField | InitialReserveXField | InitialReserveYField

  function RoundSupplied(a: RoundArg): Option<RoundField>
  {
    match a
    case SetIsTrainingRound(v) => if v.Some? then Some(IsTrainingRoundField) else None
    case SetCountsForPayment(v) => if v.Some? then Some(CountsForPaymentField) else None
    case SetDurationMinutes(v) => if v.Some? then Some(DurationMinutesField) else None
    case SetExternalPriceX(v) => if v.Some? then Some(ExternalPriceXField) else None
    case SetExternalPriceY(v) => if v.Some? then Some(ExternalPriceYField) else None
    case SetInitialReserveX(v) => if v.Some? then Some(InitialReserveXField) else None
    case SetInitialReserveY(v) => if v.Some? then Some(InitialReserveYField) else None
    case NotARoundAttribute => None
  }

  predicate RoundAgree(a: Round, b: Round, f: RoundField)
  {
    match f
    case IsTrainingRoundField => a.isTrainingRound == b.isTrainingRound
    case CountsForPaymentField => a.countsForPayment == b.countsForPayment
    case DurationMinutesField => a.durationMinutes == b.durationMinutes
    case ExternalPriceXField => a.externalPriceX == b.externalPriceX
    case ExternalPriceYField => a.externalPriceY == b.externalPriceY
    case InitialReserveXField => a.initialReserveX == b.initialReserveX
    case InitialReserveYField => a.initialReserveY == b.initialReserveY
  }

  /** The fields no round update can reach. */
  predicate RoundFixedFields(a: Round, b: Round)
  {
    && a.experimentId == b.experimentId && a.roundNumber == b.roundNumber
    && a.currencyX == b.currencyX && a.currencyY == b.currencyY
    && a.startedAt == b.startedAt && a.endedAt == b.endedAt
  }

  function ApplyRoundArg(r: Round, a: RoundArg): (u: Round)
    ensures RoundFixedFields(u, r)
    ensures forall f :: RoundSupplied(a) != Some(f) ==> RoundAgree(u, r, f)
    ensures a.SetIsTrainingRound? && a.isTrainingRound.Some? ==> u.isTrainingRound == a.isTrainingRound.value
    ensures a.SetCountsForPayment? && a.countsForPayment.Some? ==> u.countsForPayment == a.countsForPayment.value
    ensures a.SetDurationMinutes? && a.durationMinutes.Some? ==> u.durationMinutes == a.durationMinutes.value
    ensures a.SetExternalPriceX? && a.externalPriceX.Some? ==> u.externalPriceX == a.externalPriceX.value
    ensures a.SetExternalPriceY? && a.externalPriceY.Some? ==> u.externalPriceY == a.externalPriceY.value
    ensures a.SetInitialReserveX? && a.initialReserveX.Some? ==> u.initialReserveX == a.initialReserveX.value
    ensures a.SetInitialReserveY? && a.initialReserveY.Some? ==> u.initialReserveY == a.initialReserveY.value
  {
    match a
    case SetIsTrainingRound(v) => if v.Some? then r.(isTrainingRound := v.value) else r
    case SetCountsForPayment(v) => if v.Some? then r.(countsForPayment := v.value) else r
    case SetDurationMinutes(v) => if v.Some? then r.(durationMinutes := v.value) else r
    case SetExternalPriceX(v) => if v.Some? then r.(externalPriceX := v.value) else r
    case SetExternalPriceY(v) => if v.Some? then r.(externalPriceY := v.value) else r
    case SetInitialReserveX(v) => if v.Some? then r.(initialReserveX := v.value) else r
    case SetInitialReserveY(v) => if v.Some? then r.(initialReserveY := v.value) else r
    case NotARoundAttribute => r
  }

  /** The arguments applied in order; id, number, currencies and timestamps never change. */
  function ApplyRoundArgs(r: Round, args: seq<RoundArg>): (u: Round)
    ensures RoundFixedFields(u, r)
  {
    if args == [] then r else ApplyRoundArg(ApplyRoundArgs(r, args[..|args| - 1]), args[|args| - 1])
  }

  lemma {:induction false} RoundUnsuppliedKept(r: Round, args: seq<RoundArg>, f: RoundField)
    requires forall i :: 0 <= i < |args| ==> RoundSupplied(args[i]) != Some(f)
    ensures RoundAgree(ApplyRoundArgs(r, args), r, f)
  {
    if args != [] {
      RoundUnsuppliedKept(r, args[..|args| - 1], f);
    }
  }

  lemma {:induction false} RoundLastSupplierWins(r: Round, args: seq<RoundArg>, j: nat, f: RoundField)
    requires j < |args| && RoundSupplied(args[j]) == Some(f)
    requires forall i :: j < i < |args| ==> RoundSupplied(args[i]) != Some(f)
    ensures RoundAgree(ApplyRoundArgs(r, args), ApplyRoundArg(r, args[j]), f)
  {
    var init := args[..|args| - 1];
    if j < |args| - 1 {
      RoundLastSupplierWins(r, init, j, f);
    }
  }

  // ----- delete cascades -----

  /**
   * Deleting round `rid` deletes its pools and, through them, their dependent
   * rows: the result is the part of the tables that does not reach `rid`.
   */
  function DeleteRoundRows(t: Tables, rid: nat): (u: Tables)
    ensures SubTables(u, t)
    ensures rid !in u.rounds
    ensures u.experiments == t.experiments && u.groups == t.groups
    ensures forall r :: r in t.rounds && r != rid ==> r in u.rounds
    ensures forall p :: p in t.pools && t.pools[p].roundId != rid ==> p in u.pools
    ensures forall d :: d in t.dependents && t.dependents[d].experimentRoundId in u.pools ==> d in u.dependents
  {
    var pools := map p | p in t.pools && t.pools[p].roundId != rid :: t.pools[p];
    var dependents := map d | d in t.dependents && t.dependents[d].experimentRoundId in pools :: t.dependents[d];
    Tables(t.experiments, t.groups, t.rounds - {rid}, pools, dependents)
  }

  /** Deleting a round keeps the tables consistent: its cascade leaves nothing dangling. */
  lemma DeleteRoundConsistent(t: Tables, rid: nat, bound: nat)
    requires Below(t, bound) && Consistent(t)
    ensures Below(DeleteRoundRows(t, rid), bound) && Consistent(DeleteRoundRows(t, rid))
  {
    var u := DeleteRoundRows(t, rid);
    assert Linked(u);
  }

  /**
   * Deleting experiment `eid` deletes its rounds and groups, every pool of one
   * of those, and the rows depending on those pools: the result is the part of
   * the tables that does not reach `eid`.
   */
  function DeleteExperimentRows(t: Tables, eid: nat): (u: Tables)
    ensures SubTables(u, t)
    ensures u.experiments == t.experiments - {eid}
    ensures forall g :: g in t.groups && t.groups[g].experimentId != eid ==> g in u.groups
    ensures forall r :: r in t.rounds && t.rounds[r].experimentId != eid ==> r in u.rounds
    ensures forall p :: p in t.pools && t.pools[p].roundId in u.rounds && t.pools[p].groupId in u.groups ==> p in u.pools
    ensures forall d :: d in t.dependents && t.dependents[d].experimentRoundId in u.pools ==> d in u.dependents
  {
    var groups := map g | g in t.groups && t.groups[g].experimentId != eid :: t.groups[g];
    var rounds := map r | r in t.rounds && t.rounds[r].experimentId != eid :: t.rounds[r];
    var pools := map p | p in t.pools && t.pools[p].roundId in rounds && t.pools[p].groupId in groups :: t.pools[p];
    var dependents := map d | d in t.dependents && t.dependents[d].experimentRoundId in pools :: t.dependents[d];
    Tables(t.experiments - {eid}, groups, rounds, pools, dependents)
  }

  /** Deleting an experiment keeps the tables consistent: its cascade leaves nothing dangling. */
  lemma DeleteExperimentConsistent(t: Tables, eid: nat, bound: nat)
    requires Below(t, bound) && Consistent(t)
    ensures Below(DeleteExperimentRows(t, eid), bound) && Consistent(DeleteExperimentRows(t, eid))
  {
    var u := DeleteExperimentRows(t, eid);
    assert Linked(u);
  }

  /** After deleting an experiment nothing at all refers to it. */
  lemma DeletedExperimentUnreachable(t: Tables, eid: nat)
    requires Consistent(t)
    ensures var u := DeleteExperimentRows(t, eid);
      && (forall g :: g in u.groups ==> u.groups[g].experimentId != eid)
      && (forall r :: r in u.rounds ==> u.rounds[r].experimentId != eid)
      && (forall p :: p in u.pools ==> u.rounds[u.pools[p].roundId].experimentId != eid)
  {
  }
}
