/**
  When each call of the contract is accepted, why it is refused otherwise, and what the reports and the
  settings of a campaign are on every run.
 */
module LeoCalls {
  import opened Words
  import opened LeoState
  import opened LeoVersions
  import opened LeoRuns
  import opened LeoLedger
  import opened LeoRewards

  // --- Setup -----------------------------------------------------------------------------------

  /** How many setups of a run were accepted. */
  function Setups(s: Storage, run: seq<Tx>): nat
    decreases |run|
  {
    if run == [] then 0
    else
      var init, tx := run[..|run| - 1], run[|run| - 1];
      Setups(s, init) + (if tx.call.CallCtor? && Step(Exec(s, init), tx).Accepted? then 1 else 0)
  }

  /** The emergency address of the last accepted setup, or the council the storage starts with. */
  function Council(s: Storage, run: seq<Tx>): Address
    decreases |run|
  {
    if run == [] then s.council
    else
      var init, tx := run[..|run| - 1], run[|run| - 1];
      if tx.call.CallCtor? && Step(Exec(s, init), tx).Accepted? then tx.call.emergency else Council(s, init)
  }

  lemma StepKeepsSettings(s: Storage, tx: Tx)
    ensures var t := Apply(s, tx);
            if tx.call.CallCtor? && Step(s, tx).Accepted?
            then s.version == 0 && t.version == 1 && t.enabled && t.council == tx.call.emergency
            else t.version == s.version && t.enabled == s.enabled && t.council == s.council
    ensures tx.call.CallCtor? ==> (Step(s, tx).Accepted? <==> s.version == 0)
  {
    hide CollectAll, Supersede;
    if Step(s, tx).Accepted? && Collects(tx) {
      CollectFrame(s, tx.env, tx.call.pool, tx.call.position, tx.call.ids);
    }
  }

  /**
    On every run from a storage that was never set up, exactly the first setup is accepted; the contract is
    enabled from then on and not before, and the council is the one that setup named.
   */
  lemma {:induction false} SetUpOnce(s: Storage, run: seq<Tx>)
    requires s.version == 0 && !s.enabled
    ensures Setups(s, run) <= 1
    ensures Exec(s, run).enabled <==> Setups(s, run) == 1
    ensures Exec(s, run).version == Setups(s, run)
    ensures Exec(s, run).council == Council(s, run)
    decreases |run|
  {
    hide Step, Apply;
    if run != [] {
      SetUpOnce(s, run[..|run| - 1]);
      StepKeepsSettings(Exec(s, run[..|run| - 1]), run[|run| - 1]);
    }
  }

  // --- Tokens ----------------------------------------------------------------------------------

  /** The token that the last accepted create of a campaign named, or the one the storage starts with. */
  function TokenNamed(s: Storage, run: seq<Tx>, id: CampaignId): Address
    decreases |run|
  {
    if run == [] then s.BalanceOf(id).token
    else
      var init, tx := run[..|run| - 1], run[|run| - 1];
      if tx.call.CallCreate? && tx.call.id == id && Step(Exec(s, init), tx).Accepted? then tx.call.token
      else TokenNamed(s, init, id)
  }

  lemma StepKeepsToken(s: Storage, tx: Tx, id: CampaignId)
    ensures Apply(s, tx).BalanceOf(id).token
         == if tx.call.CallCreate? && tx.call.id == id && Step(s, tx).Accepted? then tx.call.token
            else s.BalanceOf(id).token
  {
    if Step(s, tx).Accepted? && Collects(tx) {
      hide CollectAll, Wrap;
      CollectKeepsTerms(s, tx.env, tx.call.pool, tx.call.position, tx.call.ids, id);
    } else {
      hide Collect, Divest, Supersede, Wrap;
      StepFrame(s, tx);
    }
    hide Step;
  }

  /** On every run a campaign pays in the token that its last accepted create named; no other call changes it. */
  lemma {:induction false} TokenOnRun(s: Storage, run: seq<Tx>, id: CampaignId)
    ensures Exec(s, run).BalanceOf(id).token == TokenNamed(s, run, id)
    decreases |run|
  {
    hide Step, Apply;
    if run != [] {
      TokenOnRun(s, run[..|run| - 1], id);
      StepKeepsToken(Exec(s, run[..|run| - 1]), run[|run| - 1], id);
    }
  }

  lemma {:induction false} OwedTokens(s: Storage, e: Env, pool: Address, posId: PositionId, ids: seq<CampaignId>)
    requires CollectAll(s, e, pool, posId, ids).Accepted?
    ensures forall o :: o in CollectAll(s, e, pool, posId, ids).owed ==> o.token == s.BalanceOf(o.campaign).token
    decreases |ids|
  {
    if ids != [] {
      var one := CollectOne(s, e, pool, posId, ids[0]);
      OneOwesToken(s, e, pool, posId, ids[0]);
      hide CollectOne;
      OwedTokens(one.after, e, pool, posId, ids[1..]);
    }
  }

  lemma OneOwesToken(s: Storage, e: Env, pool: Address, posId: PositionId, first: CampaignId)
    requires CollectOne(s, e, pool, posId, first).Accepted?
    ensures forall o :: o in CollectOne(s, e, pool, posId, first).owed ==> o.token == s.BalanceOf(o.campaign).token
    ensures forall id: CampaignId :: CollectOne(s, e, pool, posId, first).after.BalanceOf(id).token == s.BalanceOf(id).token
  {
    hide Scan, CalcBaseRewards, Wrap;
  }

  /** On every run each reward is owed in the token that the last accepted create of its campaign named. */
  lemma OwedInNamedToken(s: Storage, run: seq<Tx>, tx: Tx)
    ensures forall o :: o in OwedBy(Exec(s, run), tx) ==> o.token == TokenNamed(s, run, o.campaign)
  {
    var t := Exec(s, run);
    if Step(t, tx).Accepted? && Collects(tx) {
      hide CollectAll, Exec;
      OwedTokens(t, tx.env, tx.call.pool, tx.call.position, tx.call.ids);
    } else {
      NothingOwed(t, tx);
    }
    hide Step;
    forall o | o in OwedBy(t, tx) ensures o.token == TokenNamed(s, run, o.campaign) {
      TokenOnRun(s, run, o.campaign);
    }
  }

  // --- Campaign details ------------------------------------------------------------------------

  /**
    On every run the details of a campaign are its last version, the token of its last accepted create, all
    rewards owed from it and all funding accepted for it, both modulo the word.
   */
  lemma DetailsOnRun(s: Storage, run: seq<Tx>, pool: Address, id: CampaignId)
    requires Initial(s)
    ensures var d, versions := CampaignDetails(Exec(s, run), pool, id), Exec(s, run).Versions(pool, id);
            && (d.Details? <==> versions != [])
            && (d.Details? ==>
                  && Version(d.tickLower, d.tickUpper, d.perSecond, d.starting, d.ending) == versions[|versions| - 1]
                  && d.token == TokenNamed(s, run, id)
                  && d.distributed == Wrap(PaidBy(Owes(s, run), id))
                  && d.maximum == Wrap(Funds(s, run, id)))
  {
    hide Exec, Owes, Funds, PaidBy, Wrap, TokenNamed;
    TokenOnRun(s, run, id);
    LedgerConserved(s, run, id);
  }

  // --- When a call is accepted -----------------------------------------------------------------

  /** What has to hold for a call to be accepted, in what can be read before it. */
  ghost predicate Acceptable(t: Storage, tx: Tx)
  {
    var e := tx.env;
    match tx.call
    case CallCtor(_) => t.version == 0
    case CallVest(_, id, o) => StageOf(t.PositionOf(id)) == Unvested && o.liquidity != 0 && o.transferred
    case CallCreate(id, pool, v, _, _) =>
      t.enabled && v.perSecond != 0 && CampaignDetails(t, pool, id).NoDetails? && t.BalanceOf(id).owner == e.sender
    case CallUpdate(id, pool, v, _) =>
      && t.enabled && t.BalanceOf(id).owner == e.sender && CampaignDetails(t, pool, id).Details?
      && v.perSecond != 0 && e.now <= v.starting && e.now < v.ending
    case CallCancel(pool, id) =>
      t.enabled && t.BalanceOf(id).owner == e.sender && CampaignDetails(t, pool, id).Details?
    case CallCollect(pool, id, ids) =>
      && t.enabled && StageOf(t.PositionOf(id)) == Vested && t.PositionOf(id).owner == e.sender
      && Payable(t, e, pool, id, ids)
    case CallDivest(pool, id, ids, transferred) =>
      && t.enabled && StageOf(t.PositionOf(id)) == Vested && t.PositionOf(id).owner == e.sender
      && Payable(t, e, pool, id, ids) && transferred
  }

  /** Why a call is refused. */
  ghost predicate Explains(t: Storage, tx: Tx, fault: Fault)
  {
    var e, call := tx.env, tx.call;
    match fault
    case AlreadySetUp => call.CallCtor? && t.version != 0
    case NotEnabled => !call.CallCtor? && !call.CallVest? && !t.enabled
    case PositionAlreadyExists => call.CallVest? && StageOf(t.PositionOf(call.position)) != Unvested
    case PositionHasNoLiquidity => call.CallVest? && call.oracle.liquidity == 0
    case BadCampaignConfig =>
      || (call.CallCreate? && call.version.perSecond == 0)
      || (call.CallUpdate? && (call.version.perSecond == 0 || call.version.starting < e.now || call.version.ending <= e.now))
    case CampaignAlreadyExists => call.CallCreate? && CampaignDetails(t, call.pool, call.id).Details?
    case NotCampaignOwner => call.CallCreate? && t.BalanceOf(call.id).owner != e.sender
    case NoCampaign => (call.CallUpdate? || call.CallCancel?) && CampaignDetails(t, call.pool, call.id).NoDetails?
    case NotPositionOwner => Collects(tx) && t.PositionOf(call.position).owner != e.sender
    case CampaignMaxEmpty => FailsWith(t, tx, CampaignMaxEmpty)
    case CampaignDistributedCompletely => FailsWith(t, tx, CampaignDistributedCompletely)
    case Panicked =>
      || (call.CallVest? && !call.oracle.transferred)
      || ((call.CallUpdate? || call.CallCancel?) && t.BalanceOf(call.id).owner != e.sender)
      || FailsWith(t, tx, Panicked)
      || (call.CallDivest? && !call.transferred && Payable(t, e, call.pool, call.position, call.ids))
  }

  /** The first campaign of a collect call that cannot be paid fails with the given fault. */
  ghost predicate FailsWith(t: Storage, tx: Tx, fault: Fault)
  {
    && Collects(tx)
    && !Payable(t, tx.env, tx.call.pool, tx.call.position, tx.call.ids)
    && FirstFault(t, tx.env, tx.call.pool, tx.call.position, tx.call.ids) == fault
  }

  lemma CollectAccepted(t: Storage, tx: Tx)
    requires Collects(tx) && Readable(t, tx.call.pool, tx.call.position, tx.env.now)
    requires SoundPositions(t) && tx.env.sender != NOBODY
    ensures Step(t, tx).Accepted? <==> Acceptable(t, tx)
    ensures Step(t, tx).Reverted? ==> Explains(t, tx, Step(t, tx).fault)
  {
    hide CollectAll, Payable, FirstFault, Readable;
    CollectByDetails(t, tx.env, tx.call.pool, tx.call.position, tx.call.ids);
  }

  /**
    On every run, for every call: exactly when it is accepted, and that a refusal names a reason that is
    true. A vest or a divest whose NFT transfer fails is refused, for instance.
   */
  lemma AcceptedExactly(s: Storage, run: seq<Tx>, tx: Tx)
    requires Initial(s) && Chain(run) && Clock(run) <= tx.env.now && tx.env.sender != NOBODY
    ensures Step(Exec(s, run), tx).Accepted? <==> Acceptable(Exec(s, run), tx)
    ensures Step(Exec(s, run), tx).Reverted? ==> Explains(Exec(s, run), tx, Step(Exec(s, run), tx).fault)
  {
    hide Exec, Chain, Collect, Divest;
    var t := Exec(s, run);
    RunKeepsPositions(s, run);
    if Collects(tx) {
      ReachableIsReadable(s, run, tx.call.pool, tx.call.position, tx.env.now);
      CollectAccepted(t, tx);
      hide Step, Acceptable, Explains;
    }
  }
}
