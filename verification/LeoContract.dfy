/** The Leo contract as an object that updates its storage in place, call by call. */
module LeoContract {
  import opened Words
  import opened LeoState
  import opened LeoRuns

  datatype Result = Ok(owed: seq<Owed>) | Err(fault: Fault)

  /** The storage and the result after a call agree with what its reply says. */
  ghost predicate Answers(before: Storage, after: Storage, result: Result, reply: Reply)
  {
    match reply
    case Accepted(s, owed) => after == s && result == Ok(owed)
    case Reverted(fault) => after == before && result == Err(fault)
  }

  /** The loop that walks the versions of a campaign until one applies, is open, or none is left. */
  method ScanVersions(versions: seq<Version>, start: nat, now: U64, lower: I32, upper: I32) returns (finding: Finding)
    ensures finding == Scan(versions, start, now, lower, upper)
  {
    var offset := start;
    while true
      invariant Scan(versions, start, now, lower, upper) == Scan(versions, offset, now, lower, upper)
      decreases |versions| - offset
    {
      if offset >= |versions| {
        return Nothing;
      }
      var campaign := versions[offset];
      if campaign.ending == 0 {
        return Nothing;
      }
      if now >= campaign.ending {
        offset := offset + 1;
        continue;
      }
      var clamped := if campaign.ending < now then campaign.ending else now;
      if clamped < campaign.starting {
        return Nothing;
      }
      var shouldSkip := lower < campaign.tickLower || upper > campaign.tickUpper;
      if shouldSkip {
        offset := offset + 1;
        continue;
      }
      var clampedSecsSince := clamped - campaign.starting;
      if clampedSecsSince <= 0 {
        return Nothing;
      }
      return Earned(campaign.perSecond, clampedSecsSince);
    }
  }

  class Leo {
    var version: nat
    var enabled: bool
    var council: Address
    var campaigns: map<(Address, CampaignId), seq<Version>>
    var balances: map<CampaignId, Balance>
    var positions: map<PositionId, Position>
    var liquidity: map<Address, U256>

    function Contents(): Storage
      reads this
    {
      Storage(version, enabled, council, campaigns, balances, positions, liquidity)
    }

    /** Storage is all zero except for the owners the campaign balances start with. */
    constructor (owners: map<CampaignId, Address>)
      ensures Contents() == Storage(0, false, NOBODY, map[], map id | id in owners :: EMPTY_BALANCE.(owner := owners[id]),
                                    map[], map[])
    {
      version := 0;
      enabled := false;
      council := NOBODY;
      campaigns := map[];
      balances := map id | id in owners :: EMPTY_BALANCE.(owner := owners[id]);
      positions := map[];
      liquidity := map[];
    }

    method Setup(emergency: Address) returns (r: Result)
      modifies this
      ensures Answers(old(Contents()), Contents(), r, Ctor(old(Contents()), emergency))
    {
      if version != 0 {
        return Err(AlreadySetUp);
      }
      council := emergency;
      version := 1;
      enabled := true;
      return Ok([]);
    }

    method VestPosition(e: Env, pool: Address, id: PositionId, o: Oracle) returns (r: Result)
      modifies this
      ensures Answers(old(Contents()), Contents(), r, Vest(old(Contents()), e, pool, id, o))
    {
      var position := Contents().PositionOf(id);
      if position.timestamp != 0 {
        return Err(PositionAlreadyExists);
      }
      if o.liquidity == 0 {
        return Err(PositionHasNoLiquidity);
      }
      if !o.transferred {
        return Err(Panicked);
      }
      position := position.(owner := e.sender);
      position := position.(timestamp := e.now);
      position := position.(token := pool);
      position := position.(tickLower := o.tickLower);
      position := position.(tickUpper := o.tickUpper);
      position := position.(liquidity := o.liquidity);
      positions := positions[id := position];
      var existingLiq := Contents().PoolLp(pool);
      liquidity := liquidity[pool := Wrap(existingLiq + o.liquidity)];
      return Ok([]);
    }

    method CreateCampaign(e: Env, id: CampaignId, pool: Address, v: Version, token: Address, extraMax: U256)
      returns (r: Result)
      modifies this
      ensures Answers(old(Contents()), Contents(), r, Create(old(Contents()), e, id, pool, v, token, extraMax))
    {
      if !enabled {
        return Err(NotEnabled);
      }
      if v.perSecond == 0 {
        return Err(BadCampaignConfig);
      }
      var versions := Contents().Versions(pool, id);
      if versions != [] {
        return Err(CampaignAlreadyExists);
      }
      var saved := campaigns;
      campaigns := campaigns[(pool, id) := versions + [EMPTY_VERSION]];
      if Contents().BalanceOf(id).owner != e.sender {
        campaigns := saved;
        return Err(NotCampaignOwner);
      }
      campaigns := saved[(pool, id) := [v]];
      balances := balances[id := Contents().BalanceOf(id).(owner := e.sender, token := token)];
      AddMaximum(id, extraMax);
      return Ok([]);
    }

    method UpdateCampaign(e: Env, id: CampaignId, pool: Address, v: Version, extraMax: U256) returns (r: Result)
      modifies this
      ensures Answers(old(Contents()), Contents(), r, Update(old(Contents()), e, id, pool, v, extraMax))
    {
      if !enabled {
        return Err(NotEnabled);
      }
      if Contents().BalanceOf(id).owner != e.sender {
        return Err(Panicked);
      }
      if v.perSecond == 0 {
        return Err(BadCampaignConfig);
      }
      if v.starting < e.now {
        return Err(BadCampaignConfig);
      }
      if v.ending <= e.now {
        return Err(BadCampaignConfig);
      }
      var versions := Contents().Versions(pool, id);
      if versions == [] {
        return Err(NoCampaign);
      }
      CloseLastVersion(e.now, pool, id);
      Grow(pool, id, v);
      AddMaximum(id, extraMax);
      return Ok([]);
    }

    method CancelCampaign(e: Env, pool: Address, id: CampaignId) returns (r: Result)
      modifies this
      ensures Answers(old(Contents()), Contents(), r, Cancel(old(Contents()), e, pool, id))
    {
      if !enabled {
        return Err(NotEnabled);
      }
      if Contents().BalanceOf(id).owner != e.sender {
        return Err(Panicked);
      }
      if Contents().Versions(pool, id) == [] {
        return Err(NoCampaign);
      }
      CloseLastVersion(e.now, pool, id);
      Grow(pool, id, EMPTY_VERSION);
      return Ok([]);
    }

    method CloseLastVersion(now: U64, pool: Address, id: CampaignId)
      requires Contents().Versions(pool, id) != []
      modifies this`campaigns
      ensures var versions := old(Contents().Versions(pool, id));
              campaigns == old(campaigns)[(pool, id) := versions[|versions| - 1 := versions[|versions| - 1].(ending := now)]]
    {
      var versions := campaigns[(pool, id)];
      var last := |versions| - 1;
      campaigns := campaigns[(pool, id) := versions[last := versions[last].(ending := now)]];
    }

    method Grow(pool: Address, id: CampaignId, v: Version)
      modifies this`campaigns
      ensures campaigns == old(campaigns)[(pool, id) := old(Contents().Versions(pool, id)) + [v]]
    {
      campaigns := campaigns[(pool, id) := Contents().Versions(pool, id) + [v]];
    }

    method AddMaximum(id: CampaignId, extraMax: U256)
      modifies this`balances
      ensures Contents() == Fund(old(Contents()), id, extraMax)
    {
      if extraMax != 0 {
        var balance := Contents().BalanceOf(id);
        var newMaximum := Wrap(balance.maximum + extraMax);
        balances := balances[id := balance.(maximum := newMaximum)];
      }
    }

    /** One campaign of a collect call. */
    method CollectCampaign(e: Env, pool: Address, posId: PositionId, id: CampaignId) returns (r: Result)
      modifies this`balances, this`positions
      ensures Answers(old(Contents()), Contents(), r, CollectOne(old(Contents()), e, pool, posId, id))
    {
      var position := Contents().PositionOf(posId);
      var balance := Contents().BalanceOf(id);
      if balance.maximum == 0 {
        return Err(CampaignMaxEmpty);
      }
      var distributed := balance.distributed;
      var owed: seq<Owed> := [];
      var found := ScanVersions(Contents().Versions(pool, id), position.Offset(id), e.now,
                                position.tickLower, position.tickUpper);
      if found.Earned? {
        var base := CalcBaseRewards(Contents().PoolLp(pool), position.liquidity, found.perSecond);
        if base == Undefined {
          return Err(Panicked);
        }
        var rewards := Wrap(base.value * found.seconds);
        owed := [Owed(id, balance.token, rewards)];
        distributed := Wrap(distributed + rewards);
        if distributed >= balance.maximum {
          return Err(CampaignDistributedCompletely);
        }
      }
      positions := positions[posId := position.(timestamp := e.now)];
      balances := balances[id := balance.(distributed := distributed)];
      return Ok(owed);
    }

    /** Walks the listed campaigns, paying each; a failure undoes the whole call. */
    method CollectLpRewards(e: Env, pool: Address, posId: PositionId, ids: seq<CampaignId>) returns (r: Result)
      modifies this`balances, this`positions
      ensures Answers(old(Contents()), Contents(), r, Collect(old(Contents()), e, pool, posId, ids))
    {
      if !enabled {
        return Err(NotEnabled);
      }
      if Contents().PositionOf(posId).owner != e.sender {
        return Err(NotPositionOwner);
      }
      var savedBalances, savedPositions := balances, positions;
      var owed: seq<Owed> := [];
      hide CollectOne;
      for i := 0 to |ids|
        invariant CollectAll(old(Contents()), e, pool, posId, ids)
               == Prepend(owed, CollectAll(Contents(), e, pool, posId, ids[i..]))
      {
        assert ids[i..][0] == ids[i] && ids[i..][1..] == ids[i + 1..];
        var one := CollectCampaign(e, pool, posId, ids[i]);
        if one.Err? {
          balances, positions := savedBalances, savedPositions;
          return Err(one.fault);
        }
        PrependTwice(owed, one.owed, CollectAll(Contents(), e, pool, posId, ids[i + 1..]));
        owed := owed + one.owed;
      }
      assert ids[|ids|..] == [];
      return Ok(owed);
    }

    method DivestPosition(e: Env, pool: Address, posId: PositionId, ids: seq<CampaignId>, transferred: bool)
      returns (r: Result)
      modifies this`balances, this`positions, this`liquidity
      ensures Answers(old(Contents()), Contents(), r, Divest(old(Contents()), e, pool, posId, ids, transferred))
    {
      if !enabled {
        return Err(NotEnabled);
      }
      if Contents().PositionOf(posId).owner != e.sender {
        return Err(NotPositionOwner);
      }
      var savedBalances, savedPositions, savedLiquidity := balances, positions, liquidity;
      r := CollectLpRewards(e, pool, posId, ids);
      if r.Err? {
        return;
      }
      positions := positions[posId := Contents().PositionOf(posId).(owner := NOBODY)];
      var existingLiq := Contents().PoolLp(pool);
      liquidity := liquidity[pool := Wrap(existingLiq - positions[posId].liquidity)];
      if !transferred {
        balances, positions, liquidity := savedBalances, savedPositions, savedLiquidity;
        return Err(Panicked);
      }
    }

    /** One transaction against the contract. */
    method Execute(tx: Tx) returns (r: Result)
      modifies this
      ensures Answers(old(Contents()), Contents(), r, Step(old(Contents()), tx))
    {
      match tx.call
      case CallCtor(emergency) => r := Setup(emergency);
      case CallVest(pool, position, oracle) => r := VestPosition(tx.env, pool, position, oracle);
      case CallCreate(id, pool, version, token, extraMax) =>
        r := CreateCampaign(tx.env, id, pool, version, token, extraMax);
      case CallUpdate(id, pool, version, extraMax) => r := UpdateCampaign(tx.env, id, pool, version, extraMax);
      case CallCancel(pool, id) => r := CancelCampaign(tx.env, pool, id);
      case CallCollect(pool, position, ids) => r := CollectLpRewards(tx.env, pool, position, ids);
      case CallDivest(pool, position, ids, transferred) =>
        r := DivestPosition(tx.env, pool, position, ids, transferred);
    }

    /** A whole run against the contract ends in the storage that the run theorems speak about. */
    method Run(run: seq<Tx>)
      modifies this
      ensures Contents() == Exec(old(Contents()), run)
    {
      for i := 0 to |run|
        invariant Contents() == Exec(old(Contents()), run[..i])
      {
        hide Step;
        assert run[..i + 1][..i] == run[..i];
        var r := Execute(run[i]);
      }
      assert run[..|run|] == run;
    }
  }
}
