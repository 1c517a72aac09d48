/**
  What a collect call pays, in values that can be read before the call: the details of the campaigns, the
  pool's counter and the position. From it follows exactly when the ledger records what is owed.
 */
module LeoRewards {
  import opened Words
  import opened LeoState
  import opened LeoVersions
  import opened LeoRuns
  import opened LeoLedger

  // --- One campaign ----------------------------------------------------------------------------

  /** What a position may claim from a campaign: nothing, a reward, or a reward whose division fails. */
  datatype Entitlement = Unpaid | Owing(amount: U256) | Undivided

  /** The claim, from the version that campaign_details reports. */
  function Entitled(s: Storage, e: Env, pool: Address, posId: PositionId, id: CampaignId): Entitlement
  {
    var d, p := CampaignDetails(s, pool, id), s.PositionOf(posId);
    if !OpenFor(d, e.now, p) then Unpaid
    else
      match CalcBaseRewards(s.PoolLp(pool), p.liquidity, d.perSecond)
      case Undefined => Undivided
      case Quotient(base) => Owing(Wrap(base * (e.now - d.starting)))
  }

  function Amount(s: Storage, e: Env, pool: Address, posId: PositionId, id: CampaignId): U256
  {
    match Entitled(s, e, pool, posId, id)
    case Owing(amount) => amount
    case _ => 0
  }

  /** What every reachable storage has: ordered version lists, and no stored offsets. */
  ghost predicate Readable(s: Storage, pool: Address, posId: PositionId, now: U64)
  {
    s.PositionOf(posId).offsets == map[] && forall id :: InOrder(s.Versions(pool, id), now)
  }

  lemma ReachableIsReadable(s: Storage, run: seq<Tx>, pool: Address, posId: PositionId, now: U64)
    requires Initial(s) && Chain(run) && Clock(run) <= now
    ensures Readable(Exec(s, run), pool, posId, now)
  {
    RunKeepsOrder(s, run);
    RunKeepsPositions(s, run);
    hide Exec;
    LaterInOrder(Exec(s, run), Clock(run), now);
  }

  /** Whether a campaign can be paid when `due` is what it has to pay altogether, this time included. */
  predicate PayableOne(s: Storage, e: Env, pool: Address, posId: PositionId, id: CampaignId, due: nat)
  {
    var b := s.BalanceOf(id);
    && b.maximum != 0
    && match Entitled(s, e, pool, posId, id)
       case Unpaid => true
       case Undivided => false
       case Owing(_) => Wrap(b.distributed + due) < b.maximum
  }

  function ClaimOne(s: Storage, e: Env, pool: Address, posId: PositionId, id: CampaignId): seq<Owed>
  {
    match Entitled(s, e, pool, posId, id)
    case Owing(amount) => [Owed(id, s.BalanceOf(id).token, amount)]
    case _ => []
  }

  /** Why a campaign that cannot be paid is not. */
  function FaultOne(s: Storage, e: Env, pool: Address, posId: PositionId, id: CampaignId): Fault
  {
    if s.BalanceOf(id).maximum == 0 then CampaignMaxEmpty
    else if Entitled(s, e, pool, posId, id).Undivided? then Panicked
    else CampaignDistributedCompletely
  }

  lemma OneByDetails(s: Storage, e: Env, pool: Address, posId: PositionId, id: CampaignId)
    requires Readable(s, pool, posId, e.now)
    ensures var r := CollectOne(s, e, pool, posId, id);
            && (r.Accepted? <==> PayableOne(s, e, pool, posId, id, Amount(s, e, pool, posId, id)))
            && (r.Accepted? ==> r.owed == ClaimOne(s, e, pool, posId, id))
            && (r.Reverted? ==> r.fault == FaultOne(s, e, pool, posId, id))
  {
    var p := s.PositionOf(posId);
    ScanIsLookup(s, pool, id, e.now, p.tickLower, p.tickUpper);
    hide Scan, CalcBaseRewards, Wrap, InOrder;
  }

  // --- A list of campaigns ---------------------------------------------------------------------

  /** How often a campaign occurs in a list. */
  function Times(ids: seq<CampaignId>, id: CampaignId): nat
    decreases |ids|
  {
    if ids == [] then 0 else Times(ids[..|ids| - 1], id) + (if ids[|ids| - 1] == id then 1 else 0)
  }

  /** What a list claims from a campaign altogether. */
  function Due(s: Storage, e: Env, pool: Address, posId: PositionId, ids: seq<CampaignId>, id: CampaignId): nat
  {
    Times(ids, id) * Amount(s, e, pool, posId, id)
  }

  /** Every campaign of the list can be paid, counting how often it has occurred so far. */
  predicate Payable(s: Storage, e: Env, pool: Address, posId: PositionId, ids: seq<CampaignId>)
    decreases |ids|
  {
    ids != [] ==>
      var init, last := ids[..|ids| - 1], ids[|ids| - 1];
      Payable(s, e, pool, posId, init) && PayableOne(s, e, pool, posId, last, Due(s, e, pool, posId, ids, last))
  }

  /** The rewards of the campaigns of the list that are open for the position, in order. */
  function Claims(s: Storage, e: Env, pool: Address, posId: PositionId, ids: seq<CampaignId>): seq<Owed>
    decreases |ids|
  {
    if ids == [] then []
    else Claims(s, e, pool, posId, ids[..|ids| - 1]) + ClaimOne(s, e, pool, posId, ids[|ids| - 1])
  }

  /** The fault of the first campaign of the list that cannot be paid. */
  function FirstFault(s: Storage, e: Env, pool: Address, posId: PositionId, ids: seq<CampaignId>): (f: Fault)
    requires !Payable(s, e, pool, posId, ids)
    ensures f == CampaignMaxEmpty || f == Panicked || f == CampaignDistributedCompletely
    decreases |ids|
  {
    var init, last := ids[..|ids| - 1], ids[|ids| - 1];
    if !Payable(s, e, pool, posId, init) then FirstFault(s, e, pool, posId, init)
    else FaultOne(s, e, pool, posId, last)
  }

  lemma {:induction false} ClaimsPaid(s: Storage, e: Env, pool: Address, posId: PositionId, ids: seq<CampaignId>, id: CampaignId)
    ensures PaidBy(Claims(s, e, pool, posId, ids), id) == Due(s, e, pool, posId, ids, id)
    decreases |ids|
  {
    hide Due, ClaimOne;
    if ids == [] {
      NothingDue(s, e, pool, posId, id);
    } else {
      var init, last := ids[..|ids| - 1], ids[|ids| - 1];
      assert ids == init + [last];
      ClaimsPaid(s, e, pool, posId, init, id);
      PaidByConcat(Claims(s, e, pool, posId, init), ClaimOne(s, e, pool, posId, last), id);
      ClaimOnePaid(s, e, pool, posId, last, id);
      OneMoreDue(s, e, pool, posId, init, last, id);
    }
  }

  lemma NothingDue(s: Storage, e: Env, pool: Address, posId: PositionId, id: CampaignId)
    ensures Due(s, e, pool, posId, [], id) == 0
  {
  }

  lemma ClaimOnePaid(s: Storage, e: Env, pool: Address, posId: PositionId, last: CampaignId, id: CampaignId)
    ensures PaidBy(ClaimOne(s, e, pool, posId, last), id) == if last == id then Amount(s, e, pool, posId, id) else 0
  {
    hide Entitled;
  }

  lemma OneMoreDue(s: Storage, e: Env, pool: Address, posId: PositionId, init: seq<CampaignId>, last: CampaignId, id: CampaignId)
    ensures Due(s, e, pool, posId, init + [last], id)
         == Due(s, e, pool, posId, init, id) + (if last == id then Amount(s, e, pool, posId, id) else 0)
  {
    hide Amount;
    assert (init + [last])[..|init|] == init;
    if last == id {
      assert Times(init + [last], id) == Times(init, id) + 1;
    }
  }

  /** The last campaign of a list is collected from where the others left the storage. */
  lemma {:induction false} CollectSnoc(s: Storage, e: Env, pool: Address, posId: PositionId, ids: seq<CampaignId>, last: CampaignId)
    ensures var r := CollectAll(s, e, pool, posId, ids);
            CollectAll(s, e, pool, posId, ids + [last])
            == if r.Reverted? then r else Prepend(r.owed, CollectOne(r.after, e, pool, posId, last))
    decreases |ids|
  {
    hide CollectOne;
    var all := ids + [last];
    if ids == [] {
      assert all[1..] == [] && all[0] == last;
    } else {
      var one := CollectOne(s, e, pool, posId, ids[0]);
      assert all[0] == ids[0] && all[1..] == ids[1..] + [last];
      if one.Accepted? {
        CollectSnoc(one.after, e, pool, posId, ids[1..], last);
        var rest := CollectAll(one.after, e, pool, posId, ids[1..]);
        if rest.Accepted? {
          PrependTwice(one.owed, rest.owed, CollectOne(rest.after, e, pool, posId, last));
        }
      }
    }
  }

  /** The claims read nothing that a collect call writes. */
  lemma SameClaim(s: Storage, t: Storage, e: Env, pool: Address, posId: PositionId, id: CampaignId)
    requires t.campaigns == s.campaigns && t.liquidity == s.liquidity
    requires t.PositionOf(posId) == s.PositionOf(posId).(timestamp := t.PositionOf(posId).timestamp)
    requires Readable(s, pool, posId, e.now)
    ensures Readable(t, pool, posId, e.now)
    ensures Entitled(t, e, pool, posId, id) == Entitled(s, e, pool, posId, id)
  {
    hide CalcBaseRewards, InOrder, Wrap;
    assert forall any :: t.Versions(pool, any) == s.Versions(pool, any);
    assert t.PoolLp(pool) == s.PoolLp(pool);
  }

  /** Collecting changes no claim. */
  lemma ClaimsStay(s: Storage, e: Env, pool: Address, posId: PositionId, ids: seq<CampaignId>, id: CampaignId)
    requires CollectAll(s, e, pool, posId, ids).Accepted? && Readable(s, pool, posId, e.now)
    ensures var t := CollectAll(s, e, pool, posId, ids).after;
            && Readable(t, pool, posId, e.now)
            && Entitled(t, e, pool, posId, id) == Entitled(s, e, pool, posId, id)
            && t.BalanceOf(id) == s.BalanceOf(id).(distributed := t.BalanceOf(id).distributed)
  {
    hide CollectAll, Entitled, Readable;
    CollectFrame(s, e, pool, posId, ids);
    CollectKeepsTerms(s, e, pool, posId, ids, id);
    SameClaim(s, CollectAll(s, e, pool, posId, ids).after, e, pool, posId, id);
  }

  /**
    A list of campaigns is paid exactly when each can be, in values read before the call, and then the
    rewards are those of the open campaigns, in order; otherwise it fails as its first unpayable campaign.
   */
  lemma {:induction false} CollectByDetails(s: Storage, e: Env, pool: Address, posId: PositionId, ids: seq<CampaignId>)
    requires Readable(s, pool, posId, e.now)
    ensures var r := CollectAll(s, e, pool, posId, ids);
            && (r.Accepted? <==> Payable(s, e, pool, posId, ids))
            && (r.Accepted? ==> r.owed == Claims(s, e, pool, posId, ids))
            && (r.Reverted? ==> r.fault == FirstFault(s, e, pool, posId, ids))
    decreases |ids|
  {
    hide CollectOne, Entitled, PayableOne, ClaimOne, FaultOne, Readable;
    if ids != [] {
      var init, last := ids[..|ids| - 1], ids[|ids| - 1];
      assert ids == init + [last];
      CollectByDetails(s, e, pool, posId, init);
      CollectSnoc(s, e, pool, posId, init, last);
      if CollectAll(s, e, pool, posId, init).Accepted? {
        LastOfList(s, e, pool, posId, init, last);
      }
    }
  }

  lemma LastOfList(s: Storage, e: Env, pool: Address, posId: PositionId, init: seq<CampaignId>, last: CampaignId)
    requires Readable(s, pool, posId, e.now)
    requires var r := CollectAll(s, e, pool, posId, init);
             r.Accepted? && r.owed == Claims(s, e, pool, posId, init)
    ensures var one := CollectOne(CollectAll(s, e, pool, posId, init).after, e, pool, posId, last);
            && (one.Accepted? <==> PayableOne(s, e, pool, posId, last, Due(s, e, pool, posId, init + [last], last)))
            && (one.Accepted? ==> one.owed == ClaimOne(s, e, pool, posId, last))
            && (one.Reverted? ==> one.fault == FaultOne(s, e, pool, posId, last))
  {
    hide CollectAll, CollectOne, Entitled, Readable, Wrap, Due, Claims, PaidBy;
    var t := CollectAll(s, e, pool, posId, init).after;
    ClaimsStay(s, e, pool, posId, init, last);
    OneByDetails(t, e, pool, posId, last);
    CollectPays(s, e, pool, posId, init, last);
    ClaimsPaid(s, e, pool, posId, init, last);
    OneMoreDue(s, e, pool, posId, init, last, last);
    WrapSum(s.BalanceOf(last).distributed + Due(s, e, pool, posId, init, last), Amount(s, e, pool, posId, last));
  }

  // --- When the ledger is exact ----------------------------------------------------------------

  /** The rewards of one campaign in the list, added to its `distributed`, fit the word. */
  predicate FitsWord(s: Storage, e: Env, pool: Address, posId: PositionId, ids: seq<CampaignId>, id: CampaignId)
  {
    s.BalanceOf(id).distributed + Due(s, e, pool, posId, ids, id) < MOD256
  }

  /** A collect records exactly what it owes from a campaign if and only if that fits the word. */
  lemma CollectIsExact(s: Storage, e: Env, pool: Address, posId: PositionId, ids: seq<CampaignId>, id: CampaignId)
    requires Readable(s, pool, posId, e.now) && CollectAll(s, e, pool, posId, ids).Accepted?
    ensures var r := CollectAll(s, e, pool, posId, ids);
            && PaidBy(r.owed, id) == Due(s, e, pool, posId, ids, id)
            && (r.after.BalanceOf(id).distributed == s.BalanceOf(id).distributed + PaidBy(r.owed, id)
                <==> FitsWord(s, e, pool, posId, ids, id))
  {
    hide CollectAll, Claims, Due, Wrap, PaidBy, Readable, Payable;
    CollectByDetails(s, e, pool, posId, ids);
    CollectPays(s, e, pool, posId, ids, id);
    ClaimsPaid(s, e, pool, posId, ids, id);
    WrapExact(s.BalanceOf(id).distributed + PaidBy(CollectAll(s, e, pool, posId, ids).owed, id));
  }

  /** The rewards of all campaigns that pay in a token fit the word. */
  ghost predicate TokenFits(s: Storage, e: Env, pool: Address, posId: PositionId, ids: seq<CampaignId>, token: Address)
  {
    forall id: CampaignId :: s.BalanceOf(id).token == token ==> FitsWord(s, e, pool, posId, ids, id)
  }

  lemma TokenFitsStep(s: Storage, e: Env, pool: Address, posId: PositionId, init: seq<CampaignId>, last: CampaignId, token: Address)
    ensures TokenFits(s, e, pool, posId, init + [last], token)
       <==> TokenFits(s, e, pool, posId, init, token)
            && (s.BalanceOf(last).token == token ==> FitsWord(s, e, pool, posId, init + [last], last))
  {
    hide Due, Amount;
    forall id: CampaignId
      ensures FitsWord(s, e, pool, posId, init + [last], id) ==> FitsWord(s, e, pool, posId, init, id)
      ensures id != last ==> FitsWord(s, e, pool, posId, init + [last], id) == FitsWord(s, e, pool, posId, init, id)
    {
      OneMoreDue(s, e, pool, posId, init, last, id);
    }
    hide FitsWord;
  }

  /** One campaign moves the token's total by what it records. */
  lemma OneMovesToken(s: Storage, e: Env, pool: Address, posId: PositionId, id: CampaignId, token: Address)
    requires CollectOne(s, e, pool, posId, id).Accepted?
    ensures var r := CollectOne(s, e, pool, posId, id);
            var paid := PaidBy(r.owed, id);
            var pays := s.BalanceOf(id).token == token;
            && PaidIn(r.owed, token) == (if pays then paid else 0)
            && DistributedIn(r.after.balances, token) == DistributedIn(s.balances, token)
               + (if pays then Wrap(s.BalanceOf(id).distributed + paid) - s.BalanceOf(id).distributed else 0)
  {
    hide Scan, CalcBaseRewards, DistributedIn, Wrap;
    OnePays(s, e, pool, posId, id, id);
    SharesUpdate(s.balances, token, id, CollectOne(s, e, pool, posId, id).after.BalanceOf(id).distributed);
  }

  lemma WrapAtMost(n: nat)
    ensures Wrap(n) <= n && (Wrap(n) == n <==> n < MOD256)
  {
  }

  /**
    What a call owes in a token is at least what the campaigns paying in it record, and the two are equal
    if and only if no such campaign's rewards wrap the word.
   */
  lemma {:induction false} CollectPaysExactly(s: Storage, e: Env, pool: Address, posId: PositionId, ids: seq<CampaignId>, token: Address)
    requires Readable(s, pool, posId, e.now) && CollectAll(s, e, pool, posId, ids).Accepted?
    ensures var r := CollectAll(s, e, pool, posId, ids);
            var owed := DistributedIn(s.balances, token) + PaidIn(r.owed, token);
            && DistributedIn(r.after.balances, token) <= owed
            && (DistributedIn(r.after.balances, token) == owed <==> TokenFits(s, e, pool, posId, ids, token))
    decreases |ids|
  {
    hide CollectOne, DistributedIn, Readable, Wrap, TokenFits, FitsWord, ClaimOne;
    if ids == [] {
      NothingToFit(s, e, pool, posId, token);
    } else {
      var init, last := ids[..|ids| - 1], ids[|ids| - 1];
      assert ids == init + [last];
      CollectSnoc(s, e, pool, posId, init, last);
      CollectPaysExactly(s, e, pool, posId, init, token);
      LastMovesToken(s, e, pool, posId, init, last, token);
      TokenFitsStep(s, e, pool, posId, init, last, token);
    }
  }

  lemma NothingToFit(s: Storage, e: Env, pool: Address, posId: PositionId, token: Address)
    ensures TokenFits(s, e, pool, posId, [], token)
  {
    forall id: CampaignId ensures FitsWord(s, e, pool, posId, [], id) {
      NothingDue(s, e, pool, posId, id);
      hide Due;
    }
  }

  /** The last campaign loses nothing exactly if it fits, as long as the earlier ones did. */
  lemma LastMovesToken(s: Storage, e: Env, pool: Address, posId: PositionId, init: seq<CampaignId>, last: CampaignId, token: Address)
    requires Readable(s, pool, posId, e.now) && CollectAll(s, e, pool, posId, init + [last]).Accepted?
    requires CollectAll(s, e, pool, posId, init).Accepted?
    ensures var r, all := CollectAll(s, e, pool, posId, init), CollectAll(s, e, pool, posId, init + [last]);
            var recorded := DistributedIn(all.after.balances, token) - DistributedIn(r.after.balances, token);
            var owed := PaidIn(all.owed, token) - PaidIn(r.owed, token);
            var pays := s.BalanceOf(last).token == token;
            && recorded <= owed
            && (!pays ==> recorded == owed)
            && (pays && TokenFits(s, e, pool, posId, init, token) ==>
                  (recorded == owed <==> FitsWord(s, e, pool, posId, init + [last], last)))
  {
    hide CollectAll, CollectOne, DistributedIn, Readable, Wrap, Due, ClaimOne, Claims, Amount, PaidBy, PaidIn;
    var r := CollectAll(s, e, pool, posId, init);
    CollectSnoc(s, e, pool, posId, init, last);
    var one := CollectOne(r.after, e, pool, posId, last);
    PaidInConcat(r.owed, one.owed, token);
    ClaimsStay(s, e, pool, posId, init, last);
    CollectByDetails(s, e, pool, posId, init);
    LastOfList(s, e, pool, posId, init, last);
    ClaimOnePaid(s, e, pool, posId, last, last);
    OneMovesToken(r.after, e, pool, posId, last, token);
    CollectIsExact(s, e, pool, posId, init, last);
    OneMoreDue(s, e, pool, posId, init, last, last);
    WrapAtMost(r.after.BalanceOf(last).distributed + PaidBy(one.owed, last));
  }

  // --- Whole runs ------------------------------------------------------------------------------

  /** In every reachable state, when a collect call is accepted and which rewards it pushes. */
  lemma CollectCallByDetails(s: Storage, run: seq<Tx>, e: Env, pool: Address, posId: PositionId, ids: seq<CampaignId>)
    requires Initial(s) && Chain(run) && Clock(run) <= e.now
    ensures var t, tx := Exec(s, run), Tx(e, CallCollect(pool, posId, ids));
            && (Step(t, tx).Accepted? <==> t.enabled && t.PositionOf(posId).owner == e.sender && Payable(t, e, pool, posId, ids))
            && (Step(t, tx).Accepted? ==> Step(t, tx).owed == Claims(t, e, pool, posId, ids))
  {
    hide Exec, CollectAll, Payable, Claims, Readable;
    ReachableIsReadable(s, run, pool, posId, e.now);
    CollectByDetails(Exec(s, run), e, pool, posId, ids);
  }

  /** A transaction wraps the payouts of a campaign only if it is an accepted collect whose rewards do not fit. */
  predicate StepFits(t: Storage, tx: Tx, id: CampaignId)
  {
    Step(t, tx).Accepted? && (tx.call.CallCollect? || tx.call.CallDivest?) ==>
      FitsWord(t, tx.env, tx.call.pool, tx.call.position, tx.call.ids, id)
  }

  /** No transaction of the run wraps the payouts of the campaign. */
  predicate NeverWraps(s: Storage, run: seq<Tx>, id: CampaignId)
    decreases |run|
  {
    run != [] ==>
      var init := run[..|run| - 1];
      NeverWraps(s, init, id) && StepFits(Exec(s, init), run[|run| - 1], id)
  }

  /** No transaction of the run wraps the maximum of the campaign. */
  predicate FundingFits(s: Storage, run: seq<Tx>, id: CampaignId)
    decreases |run|
  {
    run != [] ==>
      var init, tx := run[..|run| - 1], run[|run| - 1];
      && FundingFits(s, init, id)
      && Exec(s, init).BalanceOf(id).maximum + FundedBy(Exec(s, init), tx, id) < MOD256
  }

  lemma StepIsExact(t: Storage, tx: Tx, id: CampaignId)
    requires Collects(tx) ==> Readable(t, tx.call.pool, tx.call.position, tx.env.now)
    ensures t.BalanceOf(id).distributed + PaidBy(OwedBy(t, tx), id) < MOD256 <==> StepFits(t, tx, id)
  {
    if Step(t, tx).Accepted? && Collects(tx) {
      hide CollectAll, Due, PaidBy, Readable;
      CollectIsExact(t, tx.env, tx.call.pool, tx.call.position, tx.call.ids, id);
    } else {
      NothingOwed(t, tx);
      hide Step;
    }
  }

  /**
    On every run, for every campaign, `distributed` is the exact sum of all rewards ever owed if and only
    if no collect of the run wrapped it, and `maximum` the exact sum of all funding if and only if no
    create or update wrapped it: conditions on values that could be read before each transaction.
   */
  lemma {:induction false} LedgerExact(s: Storage, run: seq<Tx>, id: CampaignId)
    requires Initial(s) && Chain(run)
    ensures Exec(s, run).BalanceOf(id).distributed == PaidBy(Owes(s, run), id) <==> NeverWraps(s, run, id)
    ensures PaidBy(Owes(s, run), id) < MOD256 <==> NeverWraps(s, run, id)
    ensures Exec(s, run).BalanceOf(id).maximum == Funds(s, run, id) <==> FundingFits(s, run, id)
    ensures Funds(s, run, id) < MOD256 <==> FundingFits(s, run, id)
    decreases |run|
  {
    hide Step, Apply, Wrap, StepFits, PaidBy, FundedBy, OwedBy, Chain;
    LedgerConserved(s, run, id);
    WrapExact(PaidBy(Owes(s, run), id));
    WrapExact(Funds(s, run, id));
    if run == [] {
      PaidNothing(id);
    } else {
      var init, tx := run[..|run| - 1], run[|run| - 1];
      var t := Exec(s, init);
      ChainPrefix(run);
      LedgerExact(s, init, id);
      PaidByConcat(Owes(s, init), OwedBy(t, tx), id);
      if Collects(tx) {
        ReachableIsReadable(s, init, tx.call.pool, tx.call.position, tx.env.now);
      }
      StepIsExact(t, tx, id);
    }
  }

  lemma PaidNothing(id: CampaignId)
    ensures PaidBy([], id) == 0
  {
  }

  /**
    On every run whose funding fits the word, what was ever owed from a campaign is zero or below what was
    funded if and only if no collect wrapped its `distributed`.
   */
  lemma OwedBelowFunding(s: Storage, run: seq<Tx>, id: CampaignId)
    requires Initial(s) && Chain(run) && Funds(s, run, id) < MOD256
    ensures var owed := PaidBy(Owes(s, run), id);
            && ((owed == 0 || owed < Funds(s, run, id)) <==> owed < MOD256)
            && ((owed == 0 || owed < Funds(s, run, id)) <==> NeverWraps(s, run, id))
  {
    hide Exec, PaidBy, Owes, Funds, NeverWraps, FundingFits, Chain;
    LedgerExact(s, run, id);
    DistributedStaysBelowMaximum(s, run, id);
  }
}
