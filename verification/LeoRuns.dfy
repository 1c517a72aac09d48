/**
  Whole runs of the Leo contract: any number of transactions from any senders, with block times that
  are positive and never decrease. Every theorem holds after every run from an initial storage.
 */
module LeoRuns {
  import opened Words
  import opened LeoState
  import opened LeoVersions

  /** The storage after a run. */
  function Exec(s: Storage, run: seq<Tx>): Storage
    decreases |run|
  {
    if run == [] then s else Apply(Exec(s, run[..|run| - 1]), run[|run| - 1])
  }

  function Clock(run: seq<Tx>): nat
  {
    if run == [] then 0 else run[|run| - 1].env.now
  }

  /** Block times are positive and never decrease, and nobody signs for address zero. */
  ghost predicate Chain(run: seq<Tx>)
  {
    && (forall i :: 0 <= i < |run| ==> 0 < run[i].env.now && run[i].env.sender != NOBODY)
    && (forall i, j :: 0 <= i <= j < |run| ==> run[i].env.now <= run[j].env.now)
  }

  lemma ChainPrefix(run: seq<Tx>)
    requires Chain(run) && run != []
    ensures Chain(run[..|run| - 1]) && Clock(run[..|run| - 1]) <= Clock(run)
  {
    var init := run[..|run| - 1];
    assert forall i :: 0 <= i < |init| ==> init[i] == run[i];
  }

  /** Nothing vested, no campaign, no ledger entry; the owners of campaign balances are arbitrary. */
  ghost predicate Initial(s: Storage)
  {
    && s.campaigns == map[]
    && s.positions == map[]
    && s.liquidity == map[]
    && (forall id :: id in s.balances ==> s.balances[id].maximum == 0 && s.balances[id].distributed == 0)
  }

  // --- What a call leaves alone ----------------------------------------------------------------

  ghost predicate Collects(tx: Tx)
  {
    tx.call.CallCollect? || tx.call.CallDivest?
  }

  lemma StepFrame(s: Storage, tx: Tx)
    ensures !(tx.call.CallCreate? || tx.call.CallUpdate? || tx.call.CallCancel?) ==>
              Apply(s, tx).campaigns == s.campaigns
    ensures !tx.call.CallVest? && !Collects(tx) ==>
              Apply(s, tx).positions == s.positions && Apply(s, tx).liquidity == s.liquidity
    ensures tx.call.CallCollect? ==> Apply(s, tx).liquidity == s.liquidity
    ensures tx.call.CallCtor? || tx.call.CallVest? || tx.call.CallCancel? ==> Apply(s, tx).balances == s.balances
  {
    hide CollectAll, Supersede;
    if Step(s, tx).Accepted? && Collects(tx) {
      CollectFrame(s, tx.env, tx.call.pool, tx.call.position, tx.call.ids);
    }
  }

  // --- Version lists ---------------------------------------------------------------------------

  ghost predicate CampaignsInOrder(s: Storage, now: nat)
  {
    forall key :: key in s.campaigns ==> InOrder(s.campaigns[key], now)
  }

  lemma LaterInOrder(s: Storage, before: nat, now: nat)
    requires CampaignsInOrder(s, before) && before <= now
    ensures CampaignsInOrder(s, now)
  {
  }

  lemma StepKeepsOrder(s: Storage, tx: Tx, before: nat)
    requires CampaignsInOrder(s, before) && before <= tx.env.now && 0 < tx.env.now
    ensures CampaignsInOrder(Apply(s, tx), tx.env.now)
  {
    hide Collect, Divest, Vest, InOrder, Supersede;
    LaterInOrder(s, before, tx.env.now);
    StepFrame(s, tx);
    if Step(s, tx).Accepted? {
      match tx.call
      case CallCreate(_, _, version, _, _) =>
        OneInOrder(version, tx.env.now);
      case CallUpdate(id, pool, version, _) =>
        SupersedeInOrder(s.Versions(pool, id), before, tx.env.now, version);
      case CallCancel(pool, id) =>
        SupersedeInOrder(s.Versions(pool, id), before, tx.env.now, EMPTY_VERSION);
      case _ =>
    }
  }

  lemma OneInOrder(v: Version, now: nat)
    ensures InOrder([v], now)
  {
  }

  /** On every run the version lists stay in order. */
  lemma {:induction false} RunKeepsOrder(s: Storage, run: seq<Tx>)
    requires Initial(s) && Chain(run)
    ensures CampaignsInOrder(Exec(s, run), Clock(run))
    decreases |run|
  {
    if run != [] {
      ChainPrefix(run);
      RunKeepsOrder(s, run[..|run| - 1]);
      StepKeepsOrder(Exec(s, run[..|run| - 1]), run[|run| - 1], Clock(run[..|run| - 1]));
    }
  }

  /** What one transaction does to the version list of a campaign. */
  ghost predicate Continues(before: seq<Version>, after: seq<Version>, tx: Tx, pool: Address, id: CampaignId)
  {
    || after == before
    || (before == [] && tx.call.CallCreate? && tx.call.id == id && tx.call.pool == pool && after == [tx.call.version])
    || (before != [] && (tx.call.CallUpdate? || tx.call.CallCancel?) && tx.call.id == id && tx.call.pool == pool
        && after == before[..|before| - 1] + [before[|before| - 1].(ending := tx.env.now)]
                    + [if tx.call.CallUpdate? then tx.call.version else EMPTY_VERSION])
  }

  lemma StepContinues(s: Storage, tx: Tx, pool: Address, id: CampaignId)
    ensures Continues(s.Versions(pool, id), Apply(s, tx).Versions(pool, id), tx, pool, id)
    ensures Step(s, tx).Accepted? && Manages(tx.call, id) && tx.call.pool == pool ==>
              Apply(s, tx).Versions(pool, id) != s.Versions(pool, id)
  {
    hide Collect, Divest, Vest;
    StepFrame(s, tx);
  }

  /** The later list keeps the earlier one: only the ending of its last version may have been closed. */
  ghost predicate Extends(later: seq<Version>, earlier: seq<Version>)
  {
    && |earlier| <= |later|
    && (forall i :: 0 <= i < |earlier| - 1 ==> later[i] == earlier[i])
    && (forall i :: 0 <= i < |earlier| ==> later[i] == earlier[i].(ending := later[i].ending))
    && (|earlier| == |later| ==> later == earlier)
  }

  lemma ContinuesExtends(a: seq<Version>, b: seq<Version>, c: seq<Version>, tx: Tx, pool: Address, id: CampaignId)
    requires Extends(b, a) && Continues(b, c, tx, pool, id)
    ensures Extends(c, a)
  {
  }

  /**
    The history of a campaign is never rewritten: between any two moments of any run its version list
    only grows, and nothing but the ending of the version then last changes.
   */
  lemma {:induction false} HistoryIsKept(s: Storage, run: seq<Tx>, earlier: nat, pool: Address, id: CampaignId)
    requires earlier <= |run|
    ensures Extends(Exec(s, run).Versions(pool, id), Exec(s, run[..earlier]).Versions(pool, id))
    decreases |run|
  {
    if earlier == |run| {
      assert run[..earlier] == run;
    } else {
      var init, tx := run[..|run| - 1], run[|run| - 1];
      assert init[..earlier] == run[..earlier];
      HistoryIsKept(s, init, earlier, pool, id);
      StepContinues(Exec(s, init), tx, pool, id);
      hide Extends, Continues, Apply;
      ContinuesExtends(Exec(s, init[..earlier]).Versions(pool, id), Exec(s, init).Versions(pool, id),
                       Exec(s, run).Versions(pool, id), tx, pool, id);
    }
  }

  /** On every run, for every campaign, no moment is paid for by two of its versions. */
  lemma PayingWindowsDisjoint(s: Storage, run: seq<Tx>, pool: Address, id: CampaignId, i: nat, j: nat, time: nat)
    requires Initial(s) && Chain(run)
    requires i < j < |Exec(s, run).Versions(pool, id)|
    ensures var versions := Exec(s, run).Versions(pool, id);
            !(Pays(versions[i], time) && Pays(versions[j], time))
  {
    RunKeepsOrder(s, run);
    WindowsDisjoint(Exec(s, run).Versions(pool, id), Clock(run), i, j, time);
  }

  // --- Positions -------------------------------------------------------------------------------

  datatype Stage = Unvested | Vested | Divested

  function StageOf(p: Position): Stage
  {
    if p.timestamp == 0 then Unvested else if p.owner != NOBODY then Vested else Divested
  }

  function Rank(g: Stage): nat
  {
    match g case Unvested => 0 case Vested => 1 case Divested => 2
  }

  /** A tracked position has been vested, keeps no offsets, and has liquidity as long as it is owned. */
  ghost predicate SoundPositions(s: Storage)
  {
    forall id :: id in s.positions ==>
      && s.positions[id].timestamp != 0
      && s.positions[id].offsets == map[]
      && s.positions[id].liquidity != 0
  }

  /** One transaction moves a position at most one stage on, and rewrites nothing while it stays vested. */
  ghost predicate Advances(before: Position, after: Position)
  {
    && Rank(StageOf(before)) <= Rank(StageOf(after)) <= Rank(StageOf(before)) + 1
    && (StageOf(before) == StageOf(after) ==> after == before.(timestamp := after.timestamp))
  }

  /** The position a vest call records: the sender's, with what Seawater answered. */
  function Recorded(e: Env, pool: Address, o: Oracle): Position
  {
    Position(e.sender, e.now, pool, o.tickLower, o.tickUpper, o.liquidity, map[])
  }

  /** A position is only vested by a vest call and only divested by a divest call of its owner. */
  ghost predicate LegalMove(before: Position, after: Position, tx: Tx, id: PositionId)
  {
    && Advances(before, after)
    && (StageOf(before) == Unvested && StageOf(after) == Vested ==>
          tx.call.CallVest? && tx.call.position == id && after == Recorded(tx.env, tx.call.pool, tx.call.oracle))
    && (StageOf(before) == Vested && StageOf(after) == Divested ==>
          tx.call.CallDivest? && tx.call.position == id && before.owner == tx.env.sender)
  }

  lemma StepAdvances(s: Storage, tx: Tx, id: PositionId)
    requires SoundPositions(s) && 0 < tx.env.now && tx.env.sender != NOBODY
    ensures SoundPositions(Apply(s, tx))
    ensures LegalMove(s.PositionOf(id), Apply(s, tx).PositionOf(id), tx, id)
  {
    if Step(s, tx).Accepted? {
      match tx.call
      case CallVest(pool, position, oracle) => VestAdvances(s, tx, id);
      case CallCollect(pool, position, ids) => CollectAdvances(s, tx, id);
      case CallDivest(pool, position, ids, _) => DivestAdvances(s, tx, id);
      case _ => StepFrame(s, tx);
    }
    hide Step;
  }

  lemma VestAdvances(s: Storage, tx: Tx, id: PositionId)
    requires SoundPositions(s) && 0 < tx.env.now && tx.env.sender != NOBODY
    requires tx.call.CallVest?
    ensures SoundPositions(Apply(s, tx))
    ensures LegalMove(s.PositionOf(id), Apply(s, tx).PositionOf(id), tx, id)
  {
  }

  lemma CollectAdvances(s: Storage, tx: Tx, id: PositionId)
    requires SoundPositions(s) && 0 < tx.env.now && tx.env.sender != NOBODY
    requires tx.call.CallCollect? && Step(s, tx).Accepted?
    ensures SoundPositions(Apply(s, tx))
    ensures LegalMove(s.PositionOf(id), Apply(s, tx).PositionOf(id), tx, id)
  {
    hide CollectAll;
    CollectKeepsPositions(s, tx.env, tx.call.pool, tx.call.position, tx.call.ids);
    CollectFrame(s, tx.env, tx.call.pool, tx.call.position, tx.call.ids);
  }

  lemma DivestAdvances(s: Storage, tx: Tx, id: PositionId)
    requires SoundPositions(s) && 0 < tx.env.now && tx.env.sender != NOBODY
    requires tx.call.CallDivest? && Step(s, tx).Accepted?
    ensures SoundPositions(Apply(s, tx))
    ensures LegalMove(s.PositionOf(id), Apply(s, tx).PositionOf(id), tx, id)
  {
    hide CollectAll;
    CollectKeepsPositions(s, tx.env, tx.call.pool, tx.call.position, tx.call.ids);
    CollectFrame(s, tx.env, tx.call.pool, tx.call.position, tx.call.ids);
  }

  lemma {:induction false} CollectKeepsPositions(s: Storage, e: Env, pool: Address, posId: PositionId, ids: seq<CampaignId>)
    requires CollectAll(s, e, pool, posId, ids).Accepted?
    requires SoundPositions(s) && 0 < e.now && posId in s.positions
    ensures SoundPositions(CollectAll(s, e, pool, posId, ids).after)
    ensures CollectAll(s, e, pool, posId, ids).after.positions.Keys == s.positions.Keys
    decreases |ids|
  {
    if ids != [] {
      var t := CollectOne(s, e, pool, posId, ids[0]).after;
      SettleKeepsPositions(s, e, posId, ids[0], t.BalanceOf(ids[0]).distributed);
      hide CollectOne, Settle;
      CollectKeepsPositions(t, e, pool, posId, ids[1..]);
    }
  }

  lemma SettleKeepsPositions(s: Storage, e: Env, posId: PositionId, id: CampaignId, distributed: U256)
    requires SoundPositions(s) && 0 < e.now && posId in s.positions
    ensures SoundPositions(Settle(s, e, posId, id, distributed))
    ensures Settle(s, e, posId, id, distributed).positions.Keys == s.positions.Keys
  {
  }

  lemma {:induction false} RunKeepsPositions(s: Storage, run: seq<Tx>)
    requires Initial(s) && Chain(run)
    ensures SoundPositions(Exec(s, run))
    decreases |run|
  {
    if run != [] {
      ChainPrefix(run);
      RunKeepsPositions(s, run[..|run| - 1]);
      StepAdvances(Exec(s, run[..|run| - 1]), run[|run| - 1], 0);
    }
  }

  /**
    Along every run a position goes only from unvested to vested to divested: its stage never falls
    between an earlier and a later moment, and while it stays vested its owner, pool, ticks and
    liquidity are what they were.
   */
  lemma {:induction false} StagesNeverFall(s: Storage, run: seq<Tx>, earlier: nat, id: PositionId)
    requires Initial(s) && Chain(run) && earlier <= |run|
    ensures var p, q := Exec(s, run[..earlier]).PositionOf(id), Exec(s, run).PositionOf(id);
            && Rank(StageOf(p)) <= Rank(StageOf(q))
            && (StageOf(p) == StageOf(q) ==> q == p.(timestamp := q.timestamp))
    decreases |run|
  {
    if earlier == |run| {
      assert run[..earlier] == run;
    } else {
      var init := run[..|run| - 1];
      assert init[..earlier] == run[..earlier];
      ChainPrefix(run);
      StagesNeverFall(s, init, earlier, id);
      RunKeepsPositions(s, init);
      StepAdvances(Exec(s, init), run[|run| - 1], id);
    }
  }

  /** A divested position can neither be vested again nor collect: every such call reverts. */
  lemma DivestedIsFinal(s: Storage, run: seq<Tx>, tx: Tx, id: PositionId)
    requires Initial(s) && Chain(run + [tx])
    requires StageOf(Exec(s, run).PositionOf(id)) == Divested
    ensures (tx.call.CallVest? || tx.call.CallCollect? || tx.call.CallDivest?) && tx.call.position == id ==>
              Step(Exec(s, run), tx).Reverted?
  {
    var all := run + [tx];
    assert all[|run|] == tx;
  }

  /** Whoever may collect owns a vested position with liquidity, so the reward division never meets a zero divisor. */
  lemma CollectorHasLiquidity(s: Storage, run: seq<Tx>, sender: Address, id: PositionId)
    requires Initial(s) && Chain(run) && sender != NOBODY
    requires Exec(s, run).PositionOf(id).owner == sender
    ensures StageOf(Exec(s, run).PositionOf(id)) == Vested
    ensures Exec(s, run).PositionOf(id).liquidity != 0
  {
    RunKeepsPositions(s, run);
  }

  // --- The scan --------------------------------------------------------------------------------

  /**
    In every reachable state the scanning loop, from the offset a position has stored, agrees with
    looking only at the version that campaign_details reports.
   */
  lemma ScanAgreesWithDetails(s: Storage, run: seq<Tx>, pool: Address, id: CampaignId, posId: PositionId, now: U64)
    requires Initial(s) && Chain(run) && Clock(run) <= now
    ensures var t := Exec(s, run);
            var p := t.PositionOf(posId);
            && Scan(t.Versions(pool, id), p.Offset(id), now, p.tickLower, p.tickUpper)
               == Lookup(CampaignDetails(t, pool, id), now, p.tickLower, p.tickUpper)
  {
    var t := Exec(s, run);
    RunKeepsOrder(s, run);
    RunKeepsPositions(s, run);
    LaterInOrder(t, Clock(run), now);
    assert InOrder(t.Versions(pool, id), now);
    ScanIsLookup(t, pool, id, now, t.PositionOf(posId).tickLower, t.PositionOf(posId).tickUpper);
  }

  /** The reported version is open at `now` and its tick range contains the position's. */
  predicate OpenFor(d: Details, now: U64, p: Position)
  {
    d.Details? && d.starting < now < d.ending && d.tickLower <= p.tickLower && p.tickUpper <= d.tickUpper
  }

  /**
    In every reachable state a collect pushes a reward for a campaign exactly when the version that
    campaign_details reports is open for the position, and then it is that version's rate over the
    time since it started.
   */
  lemma RewardExactlyWhenOpen(s: Storage, run: seq<Tx>, e: Env, pool: Address, id: CampaignId, posId: PositionId)
    requires Initial(s) && Chain(run) && Clock(run) <= e.now
    requires CollectOne(Exec(s, run), e, pool, posId, id).Accepted?
    ensures var t := Exec(s, run);
            var owed, d, p := CollectOne(t, e, pool, posId, id).owed, CampaignDetails(t, pool, id), t.PositionOf(posId);
            && (owed != [] <==> OpenFor(d, e.now, p))
            && (OpenFor(d, e.now, p) ==>
                  var base := CalcBaseRewards(t.PoolLp(pool), p.liquidity, d.perSecond);
                  base.Quotient? && owed == [Owed(id, d.token, Wrap(base.value * (e.now - d.starting)))])
  {
    ScanAgreesWithDetails(s, run, pool, id, posId, e.now);
    hide Exec, Scan, CalcBaseRewards, Wrap;
  }

  // --- Campaign owners -------------------------------------------------------------------------

  lemma {:induction false} CollectKeepsTerms(s: Storage, e: Env, pool: Address, posId: PositionId, ids: seq<CampaignId>, id: CampaignId)
    requires CollectAll(s, e, pool, posId, ids).Accepted?
    ensures var b, c := s.BalanceOf(id), CollectAll(s, e, pool, posId, ids).after.BalanceOf(id);
            c == b.(distributed := c.distributed)
    decreases |ids|
  {
    if ids != [] {
      CollectKeepsTerms(CollectOne(s, e, pool, posId, ids[0]).after, e, pool, posId, ids[1..], id);
    }
  }

  lemma StepKeepsOwner(s: Storage, tx: Tx, id: CampaignId)
    ensures Apply(s, tx).BalanceOf(id).owner == s.BalanceOf(id).owner
  {
    if Step(s, tx).Accepted? && Collects(tx) {
      CollectKeepsTerms(s, tx.env, tx.call.pool, tx.call.position, tx.call.ids, id);
    }
    hide CollectAll, Supersede;
  }

  /** No run ever changes the owner of a campaign balance. */
  lemma {:induction false} OwnersNeverChange(s: Storage, run: seq<Tx>, id: CampaignId)
    ensures Exec(s, run).BalanceOf(id).owner == s.BalanceOf(id).owner
    decreases |run|
  {
    if run != [] {
      OwnersNeverChange(s, run[..|run| - 1], id);
      StepKeepsOwner(Exec(s, run[..|run| - 1]), run[|run| - 1], id);
    }
  }

  predicate Manages(call: Call, id: CampaignId)
  {
    (call.CallCreate? || call.CallUpdate? || call.CallCancel?) && call.id == id
  }

  /** Only the initial owner of a campaign balance ever creates, updates or cancels a campaign. */
  lemma OnlyOwnersManage(s: Storage, run: seq<Tx>, tx: Tx, id: CampaignId)
    requires Manages(tx.call, id) && Step(Exec(s, run), tx).Accepted?
    ensures tx.env.sender == s.BalanceOf(id).owner
  {
    OwnersNeverChange(s, run, id);
  }

  /**
    The owner is compared with the sender before it is written, and nothing else writes it. So on an
    unowned campaign balance no run of signed transactions gets a campaign created, and a storage that
    starts out all zero never holds one.
   */
  lemma {:induction false} UnownedCampaignsStayEmpty(s: Storage, run: seq<Tx>, pool: Address, id: CampaignId)
    requires Initial(s) && Chain(run) && s.BalanceOf(id).owner == NOBODY
    ensures Exec(s, run).Versions(pool, id) == []
    ensures CampaignDetails(Exec(s, run), pool, id) == NoDetails
    decreases |run|
  {
    if run != [] {
      var init, tx := run[..|run| - 1], run[|run| - 1];
      ChainPrefix(run);
      UnownedCampaignsStayEmpty(s, init, pool, id);
      OwnersNeverChange(s, init, id);
      StepFrame(Exec(s, init), tx);
      hide Collect, Divest, Vest;
    }
  }
}
