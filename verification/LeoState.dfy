/**
  The Leo liquidity-rewards contract: its storage and the effect of every call, as functions.
  A call that returns an error or panics is undone by the chain, so it leaves the storage as it was.
 */
module LeoState {
  import opened Words

  type Address = nat
  type CampaignId = nat
  type PositionId = nat

  /** Address zero marks a slot nobody owns. */
  const NOBODY: Address := 0

  /** One entry of a campaign's append-only version list. */
  datatype Version = Version(tickLower: I32, tickUpper: I32, perSecond: U256, starting: U64, ending: U64)

  const EMPTY_VERSION: Version := Version(0, 0, 0, 0, 0)

  datatype Balance = Balance(owner: Address, token: Address, maximum: U256, distributed: U256)

  const EMPTY_BALANCE: Balance := Balance(NOBODY, 0, 0, 0)

  datatype Position = Position(owner: Address, timestamp: U64, token: Address,
                               tickLower: I32, tickUpper: I32, liquidity: U256, offsets: map<CampaignId, nat>)
  {
    function Offset(id: CampaignId): nat { if id in offsets then offsets[id] else 0 }
  }

  const EMPTY_POSITION: Position := Position(NOBODY, 0, 0, 0, 0, 0, map[])

  /** Contract storage. Slots that were never written read as zero. */
  datatype Storage = Storage(version: nat, enabled: bool, council: Address,
                             campaigns: map<(Address, CampaignId), seq<Version>>,
                             balances: map<CampaignId, Balance>,
                             positions: map<PositionId, Position>,
                             liquidity: map<Address, U256>)
  {
    function Versions(pool: Address, id: CampaignId): seq<Version>
    {
      if (pool, id) in campaigns then campaigns[(pool, id)] else []
    }

    function BalanceOf(id: CampaignId): Balance
    {
      if id in balances then balances[id] else EMPTY_BALANCE
    }

    function PositionOf(id: PositionId): Position
    {
      if id in positions then positions[id] else EMPTY_POSITION
    }

    function PoolLp(pool: Address): U256
    {
      if pool in liquidity then liquidity[pool] else 0
    }
  }

  datatype Fault =
    | AlreadySetUp | CampaignMaxEmpty | NoCampaign | NotEnabled | NotPositionOwner
    | CampaignDistributedCompletely | PositionAlreadyExists | BadCampaignConfig
    | CampaignAlreadyExists | NotCampaignOwner | PositionHasNoLiquidity
    | Panicked

  /** A reward computed for one campaign by a collect call. */
  datatype Owed = Owed(campaign: CampaignId, token: Address, amount: U256)

  datatype Reply = Accepted(after: Storage, owed: seq<Owed>) | Reverted(fault: Fault)

  /** What the chain supplies with a call: the sender and the block time. */
  datatype Env = Env(sender: Address, now: U64)

  // --- Arithmetic ------------------------------------------------------------------------------

  datatype Quotient = Quotient(value: U256) | Undefined

  function FloorDiv(a: nat, b: nat, c: nat): (q: nat)
    requires 0 < c
  {
    var product: nat := a * b;
    product / c
  }

  /** floor(a * b / c); it panics on a zero divisor and on a quotient wider than 256 bits. */
  function MulDiv(a: U256, b: U256, c: U256): Quotient
  {
    if c == 0 then Undefined
    else
      var quotient := FloorDiv(a, b, c);
      if quotient >= MOD256 then Undefined else Quotient(quotient)
  }

  function CalcBaseRewards(poolLp: U256, ourLp: U256, perSecond: U256): Quotient
  {
    MulDiv(poolLp, perSecond, ourLp)
  }

  /** `q` is the quotient rounded down. */
  ghost predicate IsFloor(q: nat, product: nat, divisor: nat)
  {
    q * divisor <= product < (q + 1) * divisor
  }

  /** The base reward is the rounded-down quotient, and is undefined exactly when there is none that fits. */
  lemma BaseRewardIsFloor(poolLp: U256, ourLp: U256, perSecond: U256)
    ensures var r := CalcBaseRewards(poolLp, ourLp, perSecond);
            && (r.Quotient? ==> IsFloor(r.value, poolLp * perSecond, ourLp))
            && (r.Undefined? <==> !exists q: U256 :: IsFloor(q, poolLp * perSecond, ourLp))
  {
    if ourLp != 0 {
      var product: nat := poolLp * perSecond;
      var q := FloorDiv(poolLp, perSecond, ourLp);
      FloorBounds(product, ourLp);
      forall other: nat | IsFloor(other, product, ourLp) ensures other == q {
        FloorUnique(other, q, product, ourLp);
      }
    }
  }

  lemma FloorBounds(n: nat, c: nat)
    requires 0 < c
    ensures IsFloor(n / c, n, c)
  {
  }

  lemma FloorUnique(a: nat, b: nat, n: nat, c: nat)
    requires IsFloor(a, n, c) && IsFloor(b, n, c)
    ensures a == b
  {
    ProductOrder(a, b + 1, c);
    ProductOrder(b, a + 1, c);
  }

  lemma ProductOrder(a: nat, b: nat, c: nat)
    requires a * c < b * c
    ensures a < b
  {
  }

  // --- Setup and vesting -----------------------------------------------------------------------

  function Ctor(s: Storage, emergency: Address): Reply
  {
    if s.version != 0 then Reverted(AlreadySetUp)
    else Accepted(s.(version := 1, enabled := true, council := emergency), [])
  }

  /** What Seawater and the NFT manager answer during a vest. */
  datatype Oracle = Oracle(liquidity: U256, tickLower: I32, tickUpper: I32, transferred: bool)

  function Vest(s: Storage, e: Env, pool: Address, id: PositionId, o: Oracle): Reply
  {
    if s.PositionOf(id).timestamp != 0 then Reverted(PositionAlreadyExists)
    else if o.liquidity == 0 then Reverted(PositionHasNoLiquidity)
    else if !o.transferred then Reverted(Panicked)
    else
      var position := s.PositionOf(id).(owner := e.sender, timestamp := e.now, token := pool,
                                        tickLower := o.tickLower, tickUpper := o.tickUpper, liquidity := o.liquidity);
      Accepted(s.(positions := s.positions[id := position],
                  liquidity := s.liquidity[pool := Wrap(s.PoolLp(pool) + o.liquidity)]), [])
  }

  // --- Campaigns -------------------------------------------------------------------------------

  /** A zero amount touches nothing. */
  function Fund(s: Storage, id: CampaignId, extraMax: U256): Storage
  {
    if extraMax == 0 then s
    else s.(balances := s.balances[id := s.BalanceOf(id).(maximum := Wrap(s.BalanceOf(id).maximum + extraMax))])
  }

  function Create(s: Storage, e: Env, id: CampaignId, pool: Address, v: Version, token: Address, extraMax: U256): Reply
  {
    if !s.enabled then Reverted(NotEnabled)
    else if v.perSecond == 0 then Reverted(BadCampaignConfig)
    else if s.Versions(pool, id) != [] then Reverted(CampaignAlreadyExists)
    else if s.BalanceOf(id).owner != e.sender then Reverted(NotCampaignOwner)
    else
      var balance := s.BalanceOf(id).(owner := e.sender, token := token);
      Accepted(Fund(s.(campaigns := s.campaigns[(pool, id) := [v]], balances := s.balances[id := balance]),
                    id, extraMax), [])
  }

  /** Close the last version at `now` and append `v`. */
  function Supersede(versions: seq<Version>, now: U64, v: Version): seq<Version>
    requires versions != []
  {
    var last := |versions| - 1;
    versions[last := versions[last].(ending := now)] + [v]
  }

  function Update(s: Storage, e: Env, id: CampaignId, pool: Address, v: Version, extraMax: U256): Reply
  {
    if !s.enabled then Reverted(NotEnabled)
    else if s.BalanceOf(id).owner != e.sender then Reverted(Panicked)
    else if v.perSecond == 0 || v.starting < e.now || v.ending <= e.now then Reverted(BadCampaignConfig)
    else if s.Versions(pool, id) == [] then Reverted(NoCampaign)
    else
      Accepted(Fund(s.(campaigns := s.campaigns[(pool, id) := Supersede(s.Versions(pool, id), e.now, v)]),
                    id, extraMax), [])
  }

  function Cancel(s: Storage, e: Env, pool: Address, id: CampaignId): Reply
  {
    if !s.enabled then Reverted(NotEnabled)
    else if s.BalanceOf(id).owner != e.sender then Reverted(Panicked)
    else if s.Versions(pool, id) == [] then Reverted(NoCampaign)
    else Accepted(s.(campaigns := s.campaigns[(pool, id) := Supersede(s.Versions(pool, id), e.now, EMPTY_VERSION)]), [])
  }

  datatype Details =
    | NoDetails
    | Details(tickLower: I32, tickUpper: I32, perSecond: U256, token: Address,
              distributed: U256, maximum: U256, starting: U64, ending: U64)

  /** The last version of a campaign together with its balance. */
  function CampaignDetails(s: Storage, pool: Address, id: CampaignId): Details
  {
    var versions, balance := s.Versions(pool, id), s.BalanceOf(id);
    if versions == [] then NoDetails
    else
      var v := versions[|versions| - 1];
      Details(v.tickLower, v.tickUpper, v.perSecond, balance.token, balance.distributed, balance.maximum,
              v.starting, v.ending)
  }

  // --- Collecting ------------------------------------------------------------------------------

  /** What the scan over a version list finds for a position: nothing, or seconds at a rate. */
  datatype Finding = Nothing | Earned(perSecond: U256, seconds: U64)

  /** The version scan of a collect call, from a given offset on. */
  function Scan(versions: seq<Version>, offset: nat, now: U64, lower: I32, upper: I32): Finding
    decreases |versions| - offset
  {
    if offset >= |versions| then Nothing
    else
      var v := versions[offset];
      if v.ending == 0 then Nothing
      else if now >= v.ending then Scan(versions, offset + 1, now, lower, upper)
      else if now < v.starting then Nothing
      else if lower < v.tickLower || upper > v.tickUpper then Scan(versions, offset + 1, now, lower, upper)
      else if now == v.starting then Nothing
      else Earned(v.perSecond, now - v.starting)
  }

  function Settle(s: Storage, e: Env, posId: PositionId, id: CampaignId, distributed: U256): Storage
  {
    s.(positions := s.positions[posId := s.PositionOf(posId).(timestamp := e.now)],
       balances := s.balances[id := s.BalanceOf(id).(distributed := distributed)])
  }

  /** The effect of a collect call for one campaign of its list. */
  function CollectOne(s: Storage, e: Env, pool: Address, posId: PositionId, id: CampaignId): Reply
  {
    var position, balance := s.PositionOf(posId), s.BalanceOf(id);
    if balance.maximum == 0 then Reverted(CampaignMaxEmpty)
    else
      match Scan(s.Versions(pool, id), position.Offset(id), e.now, position.tickLower, position.tickUpper)
      case Nothing => Accepted(Settle(s, e, posId, id, balance.distributed), [])
      case Earned(perSecond, seconds) =>
        match CalcBaseRewards(s.PoolLp(pool), position.liquidity, perSecond)
        case Undefined => Reverted(Panicked)
        case Quotient(base) =>
          var rewards := Wrap(base * seconds);
          var distributed := Wrap(balance.distributed + rewards);
          if distributed >= balance.maximum then Reverted(CampaignDistributedCompletely)
          else Accepted(Settle(s, e, posId, id, distributed), [Owed(id, balance.token, rewards)])
  }

  function Prepend(owed: seq<Owed>, r: Reply): Reply
  {
    if r.Accepted? then Accepted(r.after, owed + r.owed) else r
  }

  lemma PrependTwice(a: seq<Owed>, b: seq<Owed>, r: Reply)
    ensures Prepend(a, Prepend(b, r)) == Prepend(a + b, r)
  {
    if r.Accepted? {
      assert a + (b + r.owed) == (a + b) + r.owed;
    }
  }

  function CollectAll(s: Storage, e: Env, pool: Address, posId: PositionId, ids: seq<CampaignId>): Reply
    decreases |ids|
  {
    if ids == [] then Accepted(s, [])
    else
      var first := CollectOne(s, e, pool, posId, ids[0]);
      if first.Reverted? then first
      else Prepend(first.owed, CollectAll(first.after, e, pool, posId, ids[1..]))
  }

  /** Collecting touches nothing but the balances and the claim time of the position, which becomes now. */
  lemma {:induction false} CollectFrame(s: Storage, e: Env, pool: Address, posId: PositionId, ids: seq<CampaignId>)
    requires CollectAll(s, e, pool, posId, ids).Accepted?
    ensures var t := CollectAll(s, e, pool, posId, ids).after;
            && t == s.(balances := t.balances, positions := t.positions)
            && t.PositionOf(posId) == s.PositionOf(posId).(timestamp := t.PositionOf(posId).timestamp)
            && (forall other :: other != posId ==> t.PositionOf(other) == s.PositionOf(other))
            && t.PositionOf(posId).timestamp == (if ids == [] then s.PositionOf(posId).timestamp else e.now)
    decreases |ids|
  {
    if ids != [] {
      CollectFrame(CollectOne(s, e, pool, posId, ids[0]).after, e, pool, posId, ids[1..]);
    }
  }

  function Collect(s: Storage, e: Env, pool: Address, posId: PositionId, ids: seq<CampaignId>): Reply
  {
    if !s.enabled then Reverted(NotEnabled)
    else if s.PositionOf(posId).owner != e.sender then Reverted(NotPositionOwner)
    else CollectAll(s, e, pool, posId, ids)
  }

  function Divest(s: Storage, e: Env, pool: Address, posId: PositionId, ids: seq<CampaignId>, transferred: bool): Reply
  {
    var collected := Collect(s, e, pool, posId, ids);
    if collected.Reverted? then collected
    else if !transferred then Reverted(Panicked)
    else
      var t := collected.after;
      var position := t.PositionOf(posId);
      Accepted(t.(positions := t.positions[posId := position.(owner := NOBODY)],
                  liquidity := t.liquidity[pool := Wrap(t.PoolLp(pool) - position.liquidity)]), collected.owed)
  }

  // --- Transactions ----------------------------------------------------------------------------

  datatype Call =
    | CallCtor(emergency: Address)
    | CallVest(pool: Address, position: PositionId, oracle: Oracle)
    | CallCreate(id: CampaignId, pool: Address, version: Version, token: Address, extraMax: U256)
    | CallUpdate(id: CampaignId, pool: Address, version: Version, extraMax: U256)
    | CallCancel(pool: Address, id: CampaignId)
    | CallCollect(pool: Address, position: PositionId, ids: seq<CampaignId>)
    | CallDivest(pool: Address, position: PositionId, ids: seq<CampaignId>, transferred: bool)

  datatype Tx = Tx(env: Env, call: Call)

  function Step(s: Storage, tx: Tx): Reply
  {
    match tx.call
    case CallCtor(emergency) => Ctor(s, emergency)
    case CallVest(pool, position, oracle) => Vest(s, tx.env, pool, position, oracle)
    case CallCreate(id, pool, version, token, extraMax) => Create(s, tx.env, id, pool, version, token, extraMax)
    case CallUpdate(id, pool, version, extraMax) => Update(s, tx.env, id, pool, version, extraMax)
    case CallCancel(pool, id) => Cancel(s, tx.env, pool, id)
    case CallCollect(pool, position, ids) => Collect(s, tx.env, pool, position, ids)
    case CallDivest(pool, position, ids, transferred) => Divest(s, tx.env, pool, position, ids, transferred)
  }

  /** A reverted transaction changes nothing. */
  function Apply(s: Storage, tx: Tx): Storage
  {
    var r := Step(s, tx);
    if r.Accepted? then r.after else s
  }
}
