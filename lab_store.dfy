/**
 * The experiment and round repositories (api/app/experiments/repository.py and
 * api/app/rounds/repository.py) over one in-memory database of experiments,
 * groups, rounds, per-group pools and the rows that depend on those pools.
 *
 * Ids come from one counter. `datetime.now()` is the parameter `now`. Admin
 * accounts and currencies live in other stores; the operations that consult
 * them take the set of existing ids as a parameter.
 */
module Lab {
  import opened Wrappers
  import opened Rows
  import opened LabRecords

  class LabDb {
    var experiments: map<nat, Experiment>
    var groups: map<nat, Group>
    var rounds: map<nat, Round>
    var pools: map<nat, ExperimentRound>
    var dependents: map<nat, Dependent>
    var nextId: nat

    function Snapshot(): Tables
      reads this
    {
      Tables(experiments, groups, rounds, pools, dependents)
    }

    predicate Valid()
      reads this
    {
      Below(Snapshot(), nextId) && Consistent(Snapshot())
    }

    constructor ()
      ensures Valid()
      ensures experiments == map[] && groups == map[] && rounds == map[] && pools == map[] && dependents == map[]
    {
      experiments := map[];
      groups := map[];
      rounds := map[];
      pools := map[];
      dependents := map[];
      nextId := 0;
    }

    // ----- experiments -----

    /**
     * Create an experiment for an admin creator, together with its groups
     * numbered 1..`numGroups`.
     */
    method CreateExperiment(name: string, numRounds: int, numTrainingRounds: int, numRoundsForPayment: int,
                            numPlayers: int, numGroups: int, createdById: nat, admins: set<nat>)
      returns (r: Result<nat, LabError>)
      requires Valid()
      modifies this
      ensures Valid()
      ensures r.Ok? <==> createdById in admins
      ensures r.Err? ==> r.error == InvalidAdmin && Snapshot() == old(Snapshot()) && nextId == old(nextId)
      ensures r.Ok? ==>
                && r.value == old(nextId) && r.value !in old(experiments)
                && experiments == old(experiments)[r.value := NewExperiment(name, numRounds, numTrainingRounds,
                                                     numRoundsForPayment, numPlayers, numGroups, createdById)]
                && groups == old(groups) + NumberedGroups(r.value, r.value + 1, numGroups)
                && (forall g :: g in NumberedGroups(r.value, r.value + 1, numGroups) ==> g !in old(groups))
      ensures rounds == old(rounds) && pools == old(pools) && dependents == old(dependents)
    {
      if createdById !in admins {
        return Err(InvalidAdmin);
      }
      var eid := nextId;
      var e := NewExperiment(name, numRounds, numTrainingRounds, numRoundsForPayment, numPlayers, numGroups, createdById);
      var before := groups;
      experiments := experiments[eid := e];
      nextId := nextId + 1;
      AddNumberedGroups(eid, numGroups);
      assert groups == before + NumberedGroups(eid, eid + 1, numGroups);
      CreateExperimentConsistent(old(Snapshot()), eid, e, numGroups, Snapshot());
      r := Ok(eid);
    }

    /** Apply the supplied, non-`None` fields in order. */
    method UpdateExperiment(id: nat, args: seq<ExperimentArg>) returns (r: Result<Experiment, LabError>)
      requires Valid()
      modifies this
      ensures Valid()
      ensures r.Ok? <==> id in old(experiments)
      ensures r.Err? ==> r.error == ExperimentNotFound && experiments == old(experiments)
      ensures r.Ok? ==>
                && r.value == ApplyExperimentArgs(old(experiments)[id], args)
                && experiments == old(experiments)[id := r.value]
      ensures groups == old(groups) && rounds == old(rounds) && pools == old(pools)
      ensures dependents == old(dependents) && nextId == old(nextId)
    {
      if id !in experiments {
        return Err(ExperimentNotFound);
      }
      var i := 0;
      while i < |args|
        invariant 0 <= i <= |args|
        invariant experiments == old(experiments)[id := ApplyExperimentArgs(old(experiments)[id], args[..i])]
        invariant groups == old(groups) && rounds == old(rounds) && pools == old(pools)
        invariant dependents == old(dependents) && nextId == old(nextId)
      {
        assert args[..i + 1][..i] == args[..i];
        experiments := experiments[id := ApplyExperimentArg(experiments[id], args[i])];
        i := i + 1;
      }
      assert args[..|args|] == args;
      PutExperimentConsistent(old(Snapshot()), id, experiments[id]);
      r := Ok(experiments[id]);
    }

    /** Record the start of an experiment that exists and has not started. */
    method StartExperiment(id: nat, now: nat) returns (r: Result<Experiment, LabError>)
      requires Valid()
      modifies this
      ensures Valid()
      ensures id !in old(experiments) ==> r == Err(ExperimentNotFound)
      ensures id in old(experiments) && old(experiments)[id].startedAt.Some? ==> r == Err(AlreadyStarted)
      ensures r.Ok? <==> id in old(experiments) && old(experiments)[id].startedAt.None?
      ensures r.Ok? ==>
                && r.value == old(experiments)[id].(startedAt := Some(now))
                && experiments == old(experiments)[id := r.value]
      ensures r.Err? ==> experiments == old(experiments)
      ensures groups == old(groups) && rounds == old(rounds) && pools == old(pools)
      ensures dependents == old(dependents) && nextId == old(nextId)
    {
      if id !in experiments {
        return Err(ExperimentNotFound);
      }
      if experiments[id].startedAt.Some? {
        return Err(AlreadyStarted);
      }
      var e := experiments[id].(startedAt := Some(now));
      PutExperimentConsistent(Snapshot(), id, e);
      experiments := experiments[id := e];
      r := Ok(e);
    }

    /** Record the end of an experiment that has started and not ended. */
    method EndExperiment(id: nat, now: nat) returns (r: Result<Experiment, LabError>)
      requires Valid()
      modifies this
      ensures Valid()
      ensures id !in old(experiments) ==> r == Err(ExperimentNotFound)
      ensures id in old(experiments) && old(experiments)[id].startedAt.None? ==> r == Err(NotStarted)
      ensures (id in old(experiments) && old(experiments)[id].startedAt.Some? && old(experiments)[id].endedAt.Some?)
                ==> r == Err(AlreadyEnded)
      ensures r.Ok? <==> id in old(experiments) && old(experiments)[id].startedAt.Some? && old(experiments)[id].endedAt.None?
      ensures r.Ok? ==>
                && r.value == old(experiments)[id].(endedAt := Some(now))
                && experiments == old(experiments)[id := r.value]
      ensures r.Err? ==> experiments == old(experiments)
      ensures groups == old(groups) && rounds == old(rounds) && pools == old(pools)
      ensures dependents == old(dependents) && nextId == old(nextId)
    {
      if id !in experiments {
        return Err(ExperimentNotFound);
      }
      if experiments[id].startedAt.None? {
        return Err(NotStarted);
      }
      if experiments[id].endedAt.Some? {
        return Err(AlreadyEnded);
      }
      var e := experiments[id].(endedAt := Some(now));
      PutExperimentConsistent(Snapshot(), id, e);
      experiments := experiments[id := e];
      r := Ok(e);
    }

    /** Delete an experiment and everything its cascades reach. */
    method DeleteExperiment(id: nat) returns (r: Outcome<LabError>)
      requires Valid()
      modifies this
      ensures Valid()
      ensures r.Pass? <==> id in old(experiments)
      ensures r.Fail? ==> r.error == ExperimentNotFound && Snapshot() == old(Snapshot())
      ensures r.Pass? ==> Snapshot() == DeleteExperimentRows(old(Snapshot()), id)
      ensures nextId == old(nextId)
    {
      if id !in experiments {
        return Fail(ExperimentNotFound);
      }
      var u := DeleteExperimentRows(Snapshot(), id);
      DeleteExperimentConsistent(Snapshot(), id, nextId);
      experiments, groups, rounds, pools, dependents := u.experiments, u.groups, u.rounds, u.pools, u.dependents;
      r := Pass;
    }

    /** The filter "created by `creator`", or no filter at all. */
    static function ByCreator(creator: Option<nat>): (nat, Experiment) -> bool
    {
      (k: nat, e: Experiment) => creator.None? || e.createdById == creator.value
    }

    /** One page of the experiments, by increasing id, optionally only one creator's. */
    function GetAllExperiments(skip: nat, limit: nat, creator: Option<nat>): (rows: seq<(nat, Experiment)>)
      reads this
      ensures |rows| <= limit
      ensures var ids := IdsWhere(experiments, nextId, ByCreator(creator));
              |rows| == (if skip < |ids| then Min(limit, |ids| - skip) else 0)
              && forall i :: 0 <= i < |rows| ==> skip + i < |ids| && rows[i].0 == ids[skip + i]
      ensures forall i :: 0 <= i < |rows| ==> rows[i].0 in experiments && rows[i].1 == experiments[rows[i].0]
      ensures creator.Some? ==> forall i :: 0 <= i < |rows| ==> rows[i].1.createdById == creator.value
      ensures forall i, j :: 0 <= i < j < |rows| ==> rows[i].0 < rows[j].0
    {
      RowsAt(experiments, Page(IdsWhere(experiments, nextId, ByCreator(creator)), skip, limit))
    }

    /** With no offset and a large enough limit, every experiment passing the filter is listed. */
    lemma ExperimentsAllListed(limit: nat, creator: Option<nat>)
      requires Valid()
      requires limit >= |IdsWhere(experiments, nextId, ByCreator(creator))|
      ensures forall e :: e in experiments && (creator.None? || experiments[e].createdById == creator.value) ==>
                exists i :: 0 <= i < |GetAllExperiments(0, limit, creator)| && GetAllExperiments(0, limit, creator)[i].0 == e
    {
      var ids := IdsWhere(experiments, nextId, ByCreator(creator));
      var rows := GetAllExperiments(0, limit, creator);
      assert Page(ids, 0, limit) == ids;
      forall e | e in experiments && (creator.None? || experiments[e].createdById == creator.value)
        ensures exists i :: 0 <= i < |rows| && rows[i].0 == e
      {
        assert ByCreator(creator)(e, experiments[e]);
        assert e in ids;
        var i :| 0 <= i < |ids| && ids[i] == e;
        assert rows[i].0 == e;
      }
    }

    // ----- rounds -----

    /** Create a round of an existing experiment trading two existing currencies. */
    method CreateRound(experimentId: nat, roundNumber: int, isTrainingRound: bool, countsForPayment: bool,
                       durationMinutes: int, currencyX: nat, currencyY: nat,
                       externalPriceX: real, externalPriceY: real,
                       initialReserveX: real, initialReserveY: real, currencies: set<nat>)
      returns (r: Result<nat, LabError>)
      requires Valid()
      modifies this
      ensures Valid()
      ensures experimentId !in old(experiments) ==> r == Err(ExperimentNotFound)
      ensures (experimentId in old(experiments) && (currencyX !in currencies || currencyY !in currencies))
                ==> r == Err(InvalidCurrency)
      ensures r.Ok? <==> experimentId in old(experiments) && currencyX in currencies && currencyY in currencies
      ensures r.Err? ==> rounds == old(rounds) && nextId == old(nextId)
      ensures r.Ok? ==>
                && r.value == old(nextId) && r.value !in old(rounds)
                && rounds == old(rounds)[r.value := NewRound(experimentId, roundNumber, isTrainingRound,
                                            countsForPayment, durationMinutes, currencyX, currencyY,
                                            externalPriceX, externalPriceY, initialReserveX, initialReserveY)]
      ensures experiments == old(experiments) && groups == old(groups) && pools == old(pools)
      ensures dependents == old(dependents)
    {
      if experimentId !in experiments {
        return Err(ExperimentNotFound);
      }
      if currencyX !in currencies || currencyY !in currencies {
        return Err(InvalidCurrency);
      }
      var id := nextId;
      var round := NewRound(experimentId, roundNumber, isTrainingRound, countsForPayment, durationMinutes,
                            currencyX, currencyY, externalPriceX, externalPriceY, initialReserveX, initialReserveY);
      AddRoundConsistent(Snapshot(), id, round);
      rounds := rounds[id := round];
      nextId := nextId + 1;
      r := Ok(id);
    }

    /**
     * Seed one inactive pool per group of the round's experiment, in group id
     * order, and return the new pools' ids. Nothing stops a second call from
     * seeding a second set.
     */
    method InitializeExperimentRounds(roundId: nat) returns (r: Result<seq<nat>, LabError>)
      requires Valid()
      modifies this
      ensures Valid()
      ensures r.Ok? <==> roundId in old(rounds)
      ensures r.Err? ==> r.error == RoundNotFound && pools == old(pools) && nextId == old(nextId)
      ensures r.Ok? ==>
                var gids := IdsWhere(old(groups), old(nextId), InExperiment(old(rounds)[roundId].experimentId));
                && r.value == FreshIds(old(nextId), |gids|)
                && pools == old(pools) + SeedPools(roundId, old(rounds)[roundId], gids, old(nextId))
                && nextId == old(nextId) + |gids|
      ensures experiments == old(experiments) && groups == old(groups) && rounds == old(rounds)
      ensures dependents == old(dependents)
    {
      if roundId !in rounds {
        return Err(RoundNotFound);
      }
      var round := rounds[roundId];
      var gids := IdsWhere(groups, nextId, InExperiment(round.experimentId));
      var first := nextId;
      GroupsOfExperiment(groups, first, round.experimentId);
      var created := SeedGroupPools(roundId, round, gids);
      InitializeConsistent(old(Snapshot()), first, roundId, gids, Snapshot());
      r := Ok(created);
    }

    /** Start a round that has not started and activate every pool of it. */
    method StartRound(roundId: nat, now: nat) returns (r: Result<Round, LabError>)
      requires Valid()
      modifies this
      ensures Valid()
      ensures roundId !in old(rounds) ==> r == Err(RoundNotFound)
      ensures roundId in old(rounds) && old(rounds)[roundId].startedAt.Some? ==> r == Err(AlreadyStarted)
      ensures r.Ok? <==> roundId in old(rounds) && old(rounds)[roundId].startedAt.None?
      ensures r.Err? ==> rounds == old(rounds) && pools == old(pools)
      ensures r.Ok? ==>
                && r.value == old(rounds)[roundId].(startedAt := Some(now))
                && rounds == old(rounds)[roundId := r.value]
                && pools == ActivateRound(old(pools), roundId, now)
      ensures experiments == old(experiments) && groups == old(groups)
      ensures dependents == old(dependents) && nextId == old(nextId)
    {
      if roundId !in rounds {
        return Err(RoundNotFound);
      }
      if rounds[roundId].startedAt.Some? {
        return Err(AlreadyStarted);
      }
      StartRoundConsistent(Snapshot(), roundId, now);
      var round := rounds[roundId].(startedAt := Some(now));
      rounds := rounds[roundId := round];
      var ids := IdsWhere(pools, nextId, OfRound(roundId));
      ActivatePools(ids, now);
      ActivatedPools(old(pools), pools, nextId, roundId, now);
      r := Ok(round);
    }

    /** End a running round and deactivate every pool of it. */
    method EndRound(roundId: nat, now: nat) returns (r: Result<Round, LabError>)
      requires Valid()
      modifies this
      ensures Valid()
      ensures roundId !in old(rounds) ==> r == Err(RoundNotFound)
      ensures roundId in old(rounds) && old(rounds)[roundId].startedAt.None? ==> r == Err(NotStarted)
      ensures (roundId in old(rounds) && old(rounds)[roundId].startedAt.Some? && old(rounds)[roundId].endedAt.Some?)
                ==> r == Err(AlreadyEnded)
      ensures r.Ok? <==> roundId in old(rounds) && Running(old(rounds)[roundId])
      ensures r.Err? ==> rounds == old(rounds) && pools == old(pools)
      ensures r.Ok? ==>
                && r.value == old(rounds)[roundId].(endedAt := Some(now))
                && rounds == old(rounds)[roundId := r.value]
                && pools == DeactivateRound(old(pools), roundId, now)
      ensures experiments == old(experiments) && groups == old(groups)
      ensures dependents == old(dependents) && nextId == old(nextId)
    {
      if roundId !in rounds {
        return Err(RoundNotFound);
      }
      if rounds[roundId].startedAt.None? {
        return Err(NotStarted);
      }
      if rounds[roundId].endedAt.Some? {
        return Err(AlreadyEnded);
      }
      EndRoundConsistent(Snapshot(), roundId, now);
      var round := rounds[roundId].(endedAt := Some(now));
      rounds := rounds[roundId := round];
      var ids := IdsWhere(pools, nextId, OfRound(roundId));
      DeactivatePools(ids, now);
      DeactivatedPools(old(pools), pools, nextId, roundId, now);
      r := Ok(round);
    }

    /** The first pool, by id, of round `roundId` for group `groupId`. */
    function GetExperimentRoundByGroup(roundId: nat, groupId: nat): (r: Option<nat>)
      reads this
      ensures r.Some? ==> r.value in pools && pools[r.value].roundId == roundId && pools[r.value].groupId == groupId
      ensures r.Some? ==> forall p :: p in pools && p < r.value ==> !(pools[p].roundId == roundId && pools[p].groupId == groupId)
      ensures r.None? && Valid() ==> forall p :: p in pools ==> !(pools[p].roundId == roundId && pools[p].groupId == groupId)
    {
      var ids := IdsWhere(pools, nextId, OfRoundAndGroup(roundId, groupId));
      assert forall p :: p in pools && p < nextId && pools[p].roundId == roundId && pools[p].groupId == groupId ==>
        OfRoundAndGroup(roundId, groupId)(p, pools[p]);
      if |ids| == 0 then None else Some(ids[0])
    }

    /** Apply the supplied, non-`None` round fields in order. */
    method UpdateRound(roundId: nat, args: seq<RoundArg>) returns (r: Result<Round, LabError>)
      requires Valid()
      modifies this
      ensures Valid()
      ensures r.Ok? <==> roundId in old(rounds)
      ensures r.Err? ==> r.error == RoundNotFound && rounds == old(rounds)
      ensures r.Ok? ==>
                && r.value == ApplyRoundArgs(old(rounds)[roundId], args)
                && rounds == old(rounds)[roundId := r.value]
      ensures experiments == old(experiments) && groups == old(groups) && pools == old(pools)
      ensures dependents == old(dependents) && nextId == old(nextId)
    {
      if roundId !in rounds {
        return Err(RoundNotFound);
      }
      var i := 0;
      while i < |args|
        invariant 0 <= i <= |args|
        invariant rounds == old(rounds)[roundId := ApplyRoundArgs(old(rounds)[roundId], args[..i])]
        invariant experiments == old(experiments) && groups == old(groups) && pools == old(pools)
        invariant dependents == old(dependents) && nextId == old(nextId)
      {
        assert args[..i + 1][..i] == args[..i];
        rounds := rounds[roundId := ApplyRoundArg(rounds[roundId], args[i])];
        i := i + 1;
      }
      assert args[..|args|] == args;
      ReplaceRoundConsistent(old(Snapshot()), roundId, rounds[roundId]);
      r := Ok(rounds[roundId]);
    }

    /** Delete a round and everything its cascades reach. */
    method DeleteRound(roundId: nat) returns (r: Outcome<LabError>)
      requires Valid()
      modifies this
      ensures Valid()
      ensures r.Pass? <==> roundId in old(rounds)
      ensures r.Fail? ==> r.error == RoundNotFound && Snapshot() == old(Snapshot())
      ensures r.Pass? ==> Snapshot() == DeleteRoundRows(old(Snapshot()), roundId)
      ensures nextId == old(nextId)
    {
      if roundId !in rounds {
        return Fail(RoundNotFound);
      }
      var u := DeleteRoundRows(Snapshot(), roundId);
      DeleteRoundConsistent(Snapshot(), roundId, nextId);
      experiments, groups, rounds, pools, dependents := u.experiments, u.groups, u.rounds, u.pools, u.dependents;
      r := Pass;
    }
    // ----- the loops of the operations above -----

    /** The loop of `create_experiment`: groups numbered 1..n of `eid` under fresh ids. */
    method AddNumberedGroups(eid: nat, n: int)
      modifies this
      ensures groups == old(groups) + NumberedGroups(eid, old(nextId), n)
      ensures nextId == old(nextId) + if n < 0 then 0 else n
      ensures experiments == old(experiments) && rounds == old(rounds) && pools == old(pools)
      ensures dependents == old(dependents)
    {
      var first := nextId;
      var k := 1;
      while k <= n
        invariant 1 <= k <= if n < 1 then 1 else n + 1
        invariant nextId == first + k - 1
        invariant groups == old(groups) + NumberedGroups(eid, first, k - 1)
        invariant experiments == old(experiments) && rounds == old(rounds) && pools == old(pools)
        invariant dependents == old(dependents)
      {
        assert NumberedGroups(eid, first, k) == NumberedGroups(eid, first, k - 1)[first + k - 1 := Group(eid, k)];
        UnionUpdate(old(groups), NumberedGroups(eid, first, k - 1), nextId, Group(eid, k));
        groups := groups[nextId := Group(eid, k)];
        nextId := nextId + 1;
        k := k + 1;
      }
      if n < 1 {
        assert NumberedGroups(eid, first, n) == map[] == NumberedGroups(eid, first, 0);
      }
    }

    /** The loop of `initialize_experiment_rounds`: one seeded pool per group id, under fresh ids. */
    method SeedGroupPools(roundId: nat, round: Round, gids: seq<nat>) returns (created: seq<nat>)
      modifies this
      ensures created == FreshIds(old(nextId), |gids|)
      ensures pools == old(pools) + SeedPools(roundId, round, gids, old(nextId))
      ensures nextId == old(nextId) + |gids|
      ensures experiments == old(experiments) && groups == old(groups) && rounds == old(rounds)
      ensures dependents == old(dependents)
    {
      var first := nextId;
      created := [];
      var i := 0;
      while i < |gids|
        invariant 0 <= i <= |gids|
        invariant nextId == first + i
        invariant pools == old(pools) + SeedPools(roundId, round, gids[..i], first)
        invariant created == FreshIds(first, i)
        invariant experiments == old(experiments) && groups == old(groups) && rounds == old(rounds)
        invariant dependents == old(dependents)
      {
        assert gids[..i + 1][..i] == gids[..i];
        UnionUpdate(old(pools), SeedPools(roundId, round, gids[..i], first), nextId, SeededPool(roundId, gids[i], round));
        pools := pools[nextId := SeededPool(roundId, gids[i], round)];
        created := created + [nextId];
        nextId := nextId + 1;
        i := i + 1;
      }
      assert gids[..i] == gids;
    }

    /** The loop of `start_round` over the pools `ids`. */
    method ActivatePools(ids: seq<nat>, now: nat)
      requires forall i :: 0 <= i < |ids| ==> ids[i] in pools
      requires forall i, j :: 0 <= i < j < |ids| ==> ids[i] < ids[j]
      modifies this
      ensures pools.Keys == old(pools).Keys
      ensures forall p :: p in pools ==> pools[p] == if p in ids then Activated(old(pools)[p], now) else old(pools)[p]
      ensures experiments == old(experiments) && groups == old(groups) && rounds == old(rounds)
      ensures dependents == old(dependents) && nextId == old(nextId)
    {
      var i := 0;
      while i < |ids|
        invariant 0 <= i <= |ids|
        invariant pools.Keys == old(pools).Keys
        invariant forall p :: p in pools ==> pools[p] == if p in ids[..i] then Activated(old(pools)[p], now) else old(pools)[p]
        invariant experiments == old(experiments) && groups == old(groups) && rounds == old(rounds)
        invariant dependents == old(dependents) && nextId == old(nextId)
      {
        assert ids[i] !in ids[..i];
        assert ids[..i + 1] == ids[..i] + [ids[i]];
        pools := pools[ids[i] := Activated(pools[ids[i]], now)];
        i := i + 1;
      }
      assert ids[..i] == ids;
    }

    /** The loop of `end_round` over the pools `ids`. */
    method DeactivatePools(ids: seq<nat>, now: nat)
      requires forall i :: 0 <= i < |ids| ==> ids[i] in pools
      requires forall i, j :: 0 <= i < j < |ids| ==> ids[i] < ids[j]
      modifies this
      ensures pools.Keys == old(pools).Keys
      ensures forall p :: p in pools ==> pools[p] == if p in ids then Deactivated(old(pools)[p], now) else old(pools)[p]
      ensures experiments == old(experiments) && groups == old(groups) && rounds == old(rounds)
      ensures dependents == old(dependents) && nextId == old(nextId)
    {
      var i := 0;
      while i < |ids|
        invariant 0 <= i <= |ids|
        invariant pools.Keys == old(pools).Keys
        invariant forall p :: p in pools ==> pools[p] == if p in ids[..i] then Deactivated(old(pools)[p], now) else old(pools)[p]
        invariant experiments == old(experiments) && groups == old(groups) && rounds == old(rounds)
        invariant dependents == old(dependents) && nextId == old(nextId)
      {
        assert ids[i] !in ids[..i];
        assert ids[..i + 1] == ids[..i] + [ids[i]];
        pools := pools[ids[i] := Deactivated(pools[ids[i]], now)];
        i := i + 1;
      }
      assert ids[..i] == ids;
    }
  }
}
