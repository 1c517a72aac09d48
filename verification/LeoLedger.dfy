/** The reward ledger: what collect calls compute as owed against what the campaign balances record. */
module LeoLedger {
  import opened Words
  import opened Sums
  import opened LeoState
  import opened LeoRuns

  // --- One collect call ------------------------------------------------------------------------

  /** The rewards of a list that belong to one campaign. */
  function PaidBy(owed: seq<Owed>, id: CampaignId): nat
  {
    if owed == [] then 0
    else (if owed[0].campaign == id then owed[0].amount else 0) + PaidBy(owed[1..], id)
  }

  /** The rewards of a list that are paid in one token. */
  function PaidIn(owed: seq<Owed>, token: Address): nat
  {
    if owed == [] then 0
    else (if owed[0].token == token then owed[0].amount else 0) + PaidIn(owed[1..], token)
  }

  lemma {:induction false} PaidByConcat(a: seq<Owed>, b: seq<Owed>, id: CampaignId)
    ensures PaidBy(a + b, id) == PaidBy(a, id) + PaidBy(b, id)
  {
    if a == [] {
      assert a + b == b;
    } else {
      assert (a + b)[1..] == a[1..] + b;
      PaidByConcat(a[1..], b, id);
    }
  }

  lemma {:induction false} PaidInConcat(a: seq<Owed>, b: seq<Owed>, token: Address)
    ensures PaidIn(a + b, token) == PaidIn(a, token) + PaidIn(b, token)
  {
    if a == [] {
      assert a + b == b;
    } else {
      assert (a + b)[1..] == a[1..] + b;
      PaidInConcat(a[1..], b, token);
    }
  }

  lemma OnePays(s: Storage, e: Env, pool: Address, posId: PositionId, first: CampaignId, id: CampaignId)
    requires CollectOne(s, e, pool, posId, first).Accepted?
    ensures var r := CollectOne(s, e, pool, posId, first);
            && r.after.BalanceOf(id).distributed == Wrap(s.BalanceOf(id).distributed + PaidBy(r.owed, id))
            && (r.owed != [] ==> r.after.BalanceOf(first).distributed < r.after.BalanceOf(first).maximum)
            && (r.owed == [] ==> r.after.BalanceOf(id) == s.BalanceOf(id))
  {
    hide Scan, CalcBaseRewards, Wrap;
    WrapSmall(s.BalanceOf(id).distributed);
  }

  /** Repeats included, a campaign records exactly what the call computed as owed from it. */
  lemma {:induction false} CollectPays(s: Storage, e: Env, pool: Address, posId: PositionId, ids: seq<CampaignId>, id: CampaignId)
    requires CollectAll(s, e, pool, posId, ids).Accepted?
    ensures var r := CollectAll(s, e, pool, posId, ids);
            r.after.BalanceOf(id).distributed == Wrap(s.BalanceOf(id).distributed + PaidBy(r.owed, id))
    decreases |ids|
  {
    hide CollectOne, Wrap;
    if ids == [] {
      WrapSmall(s.BalanceOf(id).distributed);
    } else {
      var one := CollectOne(s, e, pool, posId, ids[0]);
      OnePays(s, e, pool, posId, ids[0], id);
      var rest := CollectAll(one.after, e, pool, posId, ids[1..]);
      CollectPays(one.after, e, pool, posId, ids[1..], id);
      PaidByConcat(one.owed, rest.owed, id);
      WrapSum(s.BalanceOf(id).distributed + PaidBy(one.owed, id), PaidBy(rest.owed, id));
    }
  }

  /** All that the campaigns paying in a token have distributed. */
  ghost function DistributedIn(balances: map<CampaignId, Balance>, token: Address): int
  {
    Total(Shares(balances, token))
  }

  ghost function Shares(balances: map<CampaignId, Balance>, token: Address): map<CampaignId, int>
  {
    map id | id in balances :: if balances[id].token == token then balances[id].distributed as int else 0
  }

  lemma SharesUpdate(balances: map<CampaignId, Balance>, token: Address, id: CampaignId, d: U256)
    requires id in balances
    ensures DistributedIn(balances[id := balances[id].(distributed := d)], token)
         == DistributedIn(balances, token) + (if balances[id].token == token then d - balances[id].distributed else 0)
  {
    var share := if balances[id].token == token then d as int else 0;
    assert Shares(balances[id := balances[id].(distributed := d)], token) == Shares(balances, token)[id := share];
    TotalUpdate(Shares(balances, token), id, share);
  }

  lemma OnePaysToken(s: Storage, e: Env, pool: Address, posId: PositionId, first: CampaignId, token: Address)
    requires CollectOne(s, e, pool, posId, first).Accepted?
    ensures var r := CollectOne(s, e, pool, posId, first);
            Wrap(DistributedIn(r.after.balances, token)) == Wrap(DistributedIn(s.balances, token) + PaidIn(r.owed, token))
  {
    hide Scan, CalcBaseRewards, DistributedIn, Wrap;
    var r := CollectOne(s, e, pool, posId, first);
    var before, after := s.BalanceOf(first), r.after.BalanceOf(first);
    OnePays(s, e, pool, posId, first, first);
    SharesUpdate(s.balances, token, first, after.distributed);
    var delta := PaidBy(r.owed, first);
    assert PaidIn(r.owed, token) == if before.token == token then delta else 0;
    WrapDifference(DistributedIn(s.balances, token), before.distributed, delta);
  }

  lemma WrapDifference(total: int, d: int, delta: int)
    ensures Wrap(total + (Wrap(d + delta) - d)) == Wrap(total + delta)
  {
    WrapSum(d + delta, total - d);
  }

  /**
    For one collect call over any list of campaigns, repeats included, the rewards owed in a token add
    up to what the campaigns paying in that token have distributed more than before.
   */
  lemma {:induction false} CollectPaysToken(s: Storage, e: Env, pool: Address, posId: PositionId, ids: seq<CampaignId>, token: Address)
    requires CollectAll(s, e, pool, posId, ids).Accepted?
    ensures var r := CollectAll(s, e, pool, posId, ids);
            Wrap(DistributedIn(r.after.balances, token)) == Wrap(DistributedIn(s.balances, token) + PaidIn(r.owed, token))
    decreases |ids|
  {
    hide CollectOne, DistributedIn, Wrap;
    if ids != [] {
      var one := CollectOne(s, e, pool, posId, ids[0]);
      OnePaysToken(s, e, pool, posId, ids[0], token);
      var rest := CollectAll(one.after, e, pool, posId, ids[1..]);
      CollectPaysToken(one.after, e, pool, posId, ids[1..], token);
      PaidInConcat(one.owed, rest.owed, token);
      WrapSum(DistributedIn(one.after.balances, token), PaidIn(rest.owed, token));
      WrapSum(DistributedIn(s.balances, token) + PaidIn(one.owed, token), PaidIn(rest.owed, token));
    }
  }

  /** The first `k` campaigns of the list are paid and the next one fails. */
  ghost predicate FailsAt(s: Storage, e: Env, pool: Address, posId: PositionId, ids: seq<CampaignId>, k: nat)
  {
    && k < |ids|
    && CollectAll(s, e, pool, posId, ids[..k]).Accepted?
    && CollectOne(CollectAll(s, e, pool, posId, ids[..k]).after, e, pool, posId, ids[k]).Reverted?
  }

  lemma {:induction false} FailureIsFirst(s: Storage, e: Env, pool: Address, posId: PositionId, ids: seq<CampaignId>) returns (k: nat)
    requires CollectAll(s, e, pool, posId, ids).Reverted?
    ensures FailsAt(s, e, pool, posId, ids, k)
    decreases |ids|
  {
    hide CollectOne;
    var one := CollectOne(s, e, pool, posId, ids[0]);
    if one.Reverted? {
      k := 0;
      assert ids[..0] == [];
    } else {
      var j := FailureIsFirst(one.after, e, pool, posId, ids[1..]);
      k := j + 1;
      assert ids[..k][0] == ids[0] && ids[..k][1..] == ids[1..][..j];
    }
  }

  lemma {:induction false} FailureFailsAll(s: Storage, e: Env, pool: Address, posId: PositionId, ids: seq<CampaignId>, k: nat)
    requires FailsAt(s, e, pool, posId, ids, k)
    ensures CollectAll(s, e, pool, posId, ids).Reverted?
    decreases |ids|
  {
    hide CollectOne;
    if k > 0 {
      assert ids[..k][0] == ids[0] && ids[..k][1..] == ids[1..][..k - 1];
      FailureFailsAll(CollectOne(s, e, pool, posId, ids[0]).after, e, pool, posId, ids[1..], k - 1);
    } else {
      assert ids[..0] == [];
    }
  }

  /**
    A collect by the position's owner reverts exactly when some campaign of its list fails after the
    ones before it were paid, and then it changes no ledger at all.
   */
  lemma FailureChangesNothing(s: Storage, e: Env, pool: Address, posId: PositionId, ids: seq<CampaignId>)
    requires s.enabled && s.PositionOf(posId).owner == e.sender
    ensures var tx := Tx(e, CallCollect(pool, posId, ids));
            && (Step(s, tx).Reverted? <==> exists k: nat :: FailsAt(s, e, pool, posId, ids, k))
            && (Step(s, tx).Reverted? ==> Apply(s, tx) == s)
  {
    hide CollectAll, FailsAt;
    if CollectAll(s, e, pool, posId, ids).Reverted? {
      var k := FailureIsFirst(s, e, pool, posId, ids);
    }
    if k: nat :| FailsAt(s, e, pool, posId, ids, k) {
      FailureFailsAll(s, e, pool, posId, ids, k);
    }
  }

  // --- Whole runs ------------------------------------------------------------------------------

  /** The rewards computed as owed by an accepted transaction. */
  function OwedBy(s: Storage, tx: Tx): seq<Owed>
  {
    var r := Step(s, tx);
    if r.Accepted? then r.owed else []
  }

  /** Every reward ever computed as owed during a run. */
  function Owes(s: Storage, run: seq<Tx>): seq<Owed>
    decreases |run|
  {
    if run == [] then []
    else
      var init := run[..|run| - 1];
      Owes(s, init) + OwedBy(Exec(s, init), run[|run| - 1])
  }

  /** What an accepted create or update adds to the maximum of a campaign. */
  function FundedBy(s: Storage, tx: Tx, id: CampaignId): nat
  {
    if Step(s, tx).Accepted? && (tx.call.CallCreate? || tx.call.CallUpdate?) && tx.call.id == id
    then tx.call.extraMax else 0
  }

  /** Everything ever accepted towards the maximum of a campaign. */
  function Funds(s: Storage, run: seq<Tx>, id: CampaignId): nat
    decreases |run|
  {
    if run == [] then 0
    else
      var init := run[..|run| - 1];
      Funds(s, init, id) + FundedBy(Exec(s, init), run[|run| - 1], id)
  }

  /** Both entries of a campaign after a transaction, from what it owes and what it funds. */
  ghost predicate Booked(s: Storage, tx: Tx, id: CampaignId)
  {
    var b, c := s.BalanceOf(id), Apply(s, tx).BalanceOf(id);
    && c.distributed == Wrap(b.distributed + PaidBy(OwedBy(s, tx), id))
    && c.maximum == Wrap(b.maximum + FundedBy(s, tx, id))
  }

  lemma StepBooks(s: Storage, tx: Tx, id: CampaignId)
    ensures Booked(s, tx, id)
  {
    hide Booked, Apply;
    if Step(s, tx).Accepted? && Collects(tx) {
      CollectBooks(s, tx, id);
    } else if Step(s, tx).Accepted? && (tx.call.CallCreate? || tx.call.CallUpdate?) {
      FundBooks(s, tx, id);
    } else {
      QuietBooks(s, tx, id);
    }
    hide Step;
  }

  lemma FundBooks(s: Storage, tx: Tx, id: CampaignId)
    requires Step(s, tx).Accepted? && (tx.call.CallCreate? || tx.call.CallUpdate?)
    ensures Booked(s, tx, id)
  {
    hide Supersede, Wrap;
    WrapSmall(s.BalanceOf(id).distributed);
    WrapSmall(s.BalanceOf(id).maximum);
  }

  lemma QuietBooks(s: Storage, tx: Tx, id: CampaignId)
    requires !(Step(s, tx).Accepted? && (Collects(tx) || tx.call.CallCreate? || tx.call.CallUpdate?))
    ensures Booked(s, tx, id)
  {
    hide Create, Update, Collect, Divest, Wrap;
    WrapSmall(s.BalanceOf(id).distributed);
    WrapSmall(s.BalanceOf(id).maximum);
    StepFrame(s, tx);
  }

  lemma CollectBooks(s: Storage, tx: Tx, id: CampaignId)
    requires Step(s, tx).Accepted? && Collects(tx)
    ensures Booked(s, tx, id)
  {
    hide CollectAll, PaidBy, Wrap;
    WrapSmall(s.BalanceOf(id).maximum);
    CollectPays(s, tx.env, tx.call.pool, tx.call.position, tx.call.ids, id);
    CollectKeepsTerms(s, tx.env, tx.call.pool, tx.call.position, tx.call.ids, id);
  }

  /**
    Conservation: on every run, for every campaign, `distributed` is the sum of all rewards ever owed
    from it and `maximum` the sum of all amounts accepted for it, both in 256-bit arithmetic.
   */
  lemma {:induction false} LedgerConserved(s: Storage, run: seq<Tx>, id: CampaignId)
    requires Initial(s)
    ensures Exec(s, run).BalanceOf(id).distributed == Wrap(PaidBy(Owes(s, run), id))
    ensures Exec(s, run).BalanceOf(id).maximum == Wrap(Funds(s, run, id))
    decreases |run|
  {
    hide Step, Apply, Wrap;
    if run == [] {
      WrapSmall(0);
    } else {
      var init, tx := run[..|run| - 1], run[|run| - 1];
      LedgerConserved(s, init, id);
      StepBooks(Exec(s, init), tx, id);
      PaidByConcat(Owes(s, init), OwedBy(Exec(s, init), tx), id);
      WrapSum(PaidBy(Owes(s, init), id), PaidBy(OwedBy(Exec(s, init), tx), id));
      WrapSum(Funds(s, init, id), FundedBy(Exec(s, init), tx, id));
    }
  }

  // --- The cap ---------------------------------------------------------------------------------

  ghost predicate WithinCap(b: Balance)
  {
    b.distributed == 0 || b.distributed < b.maximum
  }

  lemma {:induction false} CollectKeepsCap(s: Storage, e: Env, pool: Address, posId: PositionId, ids: seq<CampaignId>, id: CampaignId)
    requires CollectAll(s, e, pool, posId, ids).Accepted?
    requires WithinCap(s.BalanceOf(id))
    ensures WithinCap(CollectAll(s, e, pool, posId, ids).after.BalanceOf(id))
    decreases |ids|
  {
    hide CollectOne, Wrap;
    if ids != [] {
      var one := CollectOne(s, e, pool, posId, ids[0]);
      OnePays(s, e, pool, posId, ids[0], id);
      if id != ids[0] {
        OneTouchesOne(s, e, pool, posId, ids[0], id);
      }
      CollectKeepsCap(one.after, e, pool, posId, ids[1..], id);
    }
  }

  lemma OneTouchesOne(s: Storage, e: Env, pool: Address, posId: PositionId, first: CampaignId, id: CampaignId)
    requires CollectOne(s, e, pool, posId, first).Accepted? && id != first
    ensures CollectOne(s, e, pool, posId, first).after.BalanceOf(id) == s.BalanceOf(id)
  {
    hide Scan, CalcBaseRewards, Wrap;
  }

  /**
    A transaction keeps the recorded `distributed` zero or below `maximum` exactly unless it adds to the
    maximum so much that the sum wraps around to `distributed` or below.
   */
  lemma StepKeepsCap(s: Storage, tx: Tx, id: CampaignId)
    requires WithinCap(s.BalanceOf(id))
    ensures var b := s.BalanceOf(id);
            var sum := b.maximum + FundedBy(s, tx, id);
            WithinCap(Apply(s, tx).BalanceOf(id))
            <==> FundedBy(s, tx, id) == 0 || b.distributed == 0 || sum < MOD256 || b.distributed < sum - MOD256
  {
    hide Collect, Divest, Create, Update, Wrap;
    StepBooks(s, tx, id);
    var b, extra := s.BalanceOf(id), FundedBy(s, tx, id);
    WrapAround(b.maximum, extra);
    if Step(s, tx).Accepted? && Collects(tx) {
      StepCollectKeepsCap(s, tx, id);
    } else {
      NothingOwed(s, tx);
      WrapSmall(b.distributed);
    }
  }

  lemma WrapAround(a: U256, b: U256)
    ensures Wrap(a + b) == if a + b < MOD256 then a + b else a + b - MOD256
  {
  }

  lemma NothingOwed(s: Storage, tx: Tx)
    requires !(Step(s, tx).Accepted? && Collects(tx))
    ensures OwedBy(s, tx) == []
  {
  }

  lemma StepCollectKeepsCap(s: Storage, tx: Tx, id: CampaignId)
    requires Step(s, tx).Accepted? && Collects(tx) && WithinCap(s.BalanceOf(id))
    ensures WithinCap(Apply(s, tx).BalanceOf(id))
  {
    hide CollectAll, Wrap;
    CollectKeepsCap(s, tx.env, tx.call.pool, tx.call.position, tx.call.ids, id);
  }

  /** On every run whose accepted funding fits a word, the recorded `distributed` is zero or strictly below `maximum`. */
  lemma {:induction false} DistributedStaysBelowMaximum(s: Storage, run: seq<Tx>, id: CampaignId)
    requires Initial(s) && Funds(s, run, id) < MOD256
    ensures WithinCap(Exec(s, run).BalanceOf(id))
    decreases |run|
  {
    hide Step, Apply, Wrap;
    if run != [] {
      var init := run[..|run| - 1];
      DistributedStaysBelowMaximum(s, init, id);
      LedgerConserved(s, init, id);
      WrapSmall(Funds(s, init, id));
      StepKeepsCap(Exec(s, init), run[|run| - 1], id);
    }
  }

  const OPEN_VERSION: Version := Version(0, 0, 1, 0, 100)
  const OWNED: Storage := Storage(1, true, NOBODY, map[], map[3 := Balance(7, 0, 0, 0)], map[], map[])
  const CREATED: Storage := OWNED.(campaigns := map[(5, 3) := [OPEN_VERSION]], balances := map[3 := Balance(7, 6, 10, 0)])
  const VESTED: Storage := CREATED.(positions := map[4 := Position(8, 2, 5, 0, 0, 1, map[])], liquidity := map[5 := 1])
  const COLLECTED: Storage := VESTED.(positions := map[4 := Position(8, 9, 5, 0, 0, 1, map[])],
                                      balances := map[3 := Balance(7, 6, 10, 9)])

  const CREATE: Tx := Tx(Env(7, 1), CallCreate(3, 5, OPEN_VERSION, 6, 10))
  const VEST: Tx := Tx(Env(8, 2), CallVest(5, 4, Oracle(1, 0, 0, true)))
  const COLLECT: Tx := Tx(Env(8, 9), CallCollect(5, 4, [3]))
  const OVERFUND: Tx := Tx(Env(7, 10), CallUpdate(3, 5, Version(0, 0, 1, 10, 11), MOD256 - 5))

  const RAISED_VERSION: Version := Version(0, 0, MOD256 - 1, 10, 100)
  const RAISED: Storage := COLLECTED.(campaigns := map[(5, 3) := [OPEN_VERSION.(ending := 10), RAISED_VERSION]])
  const DRAINED: Storage := RAISED.(positions := map[4 := Position(8, 11, 5, 0, 0, 1, map[])],
                                    balances := map[3 := Balance(7, 6, 10, 8)])

  const RAISE: Tx := Tx(Env(7, 10), CallUpdate(3, 5, RAISED_VERSION, 0))
  const DRAIN: Tx := Tx(Env(8, 11), CallCollect(5, 4, [3]))

  lemma CreateThenVest()
    ensures Step(OWNED, CREATE) == Accepted(CREATED, []) && Step(CREATED, VEST) == Accepted(VESTED, [])
    ensures FundedBy(OWNED, CREATE, 3) == 10 && FundedBy(CREATED, VEST, 3) == 0
  {
  }

  lemma ThenCollect()
    ensures Step(VESTED, COLLECT) == Accepted(COLLECTED, [Owed(3, 6, 9)]) && FundedBy(VESTED, COLLECT, 3) == 0
  {
    assert Scan([OPEN_VERSION], 0, 9, 0, 0) == Earned(1, 9);
    assert CalcBaseRewards(1, 1, 1) == Quotient(1);
    assert CollectOne(VESTED, COLLECT.env, 5, 4, 3) == Accepted(COLLECTED, [Owed(3, 6, 9)]);
    assert CollectAll(COLLECTED, COLLECT.env, 5, 4, []) == Accepted(COLLECTED, []);
    hide CollectOne;
    assert CollectAll(VESTED, COLLECT.env, 5, 4, [3]) == Accepted(COLLECTED, [Owed(3, 6, 9)]);
  }

  lemma ThenOverfund()
    ensures Step(COLLECTED, OVERFUND).Accepted? && Step(COLLECTED, OVERFUND).after.BalanceOf(3) == Balance(7, 6, 5, 9)
  {
  }

  lemma ThenRaise()
    ensures Step(COLLECTED, RAISE) == Accepted(RAISED, []) && FundedBy(COLLECTED, RAISE, 3) == 0
  {
    assert Supersede([OPEN_VERSION], 10, RAISED_VERSION) == [OPEN_VERSION.(ending := 10), RAISED_VERSION];
    assert COLLECTED.campaigns[(5, 3) := [OPEN_VERSION.(ending := 10), RAISED_VERSION]] == RAISED.campaigns;
  }

  lemma ThenDrain()
    ensures Step(RAISED, DRAIN) == Accepted(DRAINED, [Owed(3, 6, MOD256 - 1)]) && FundedBy(RAISED, DRAIN, 3) == 0
  {
    assert Scan([OPEN_VERSION.(ending := 10), RAISED_VERSION], 0, 11, 0, 0) == Earned(MOD256 - 1, 1);
    assert CalcBaseRewards(1, 1, MOD256 - 1) == Quotient(MOD256 - 1);
    assert CollectOne(RAISED, DRAIN.env, 5, 4, 3) == Accepted(DRAINED, [Owed(3, 6, MOD256 - 1)]);
    assert CollectAll(DRAINED, DRAIN.env, 5, 4, []) == Accepted(DRAINED, []);
    hide CollectOne;
    assert CollectAll(RAISED, DRAIN.env, 5, 4, [3]) == Accepted(DRAINED, [Owed(3, 6, MOD256 - 1)]);
  }

  /** One more accepted transaction at the end of a run. */
  lemma RunOn(s: Storage, run: seq<Tx>, tx: Tx, t: Storage, u: Storage, owed: seq<Owed>, id: CampaignId)
    requires Exec(s, run) == t && Step(t, tx) == Accepted(u, owed)
    ensures Exec(s, run + [tx]) == u
    ensures PaidBy(Owes(s, run + [tx]), id) == PaidBy(Owes(s, run), id) + PaidBy(owed, id)
    ensures Funds(s, run + [tx], id) == Funds(s, run, id) + FundedBy(t, tx, id)
  {
    hide Step, PaidBy, FundedBy;
    assert (run + [tx])[..|run|] == run;
    PaidByConcat(Owes(s, run), owed, id);
  }

  lemma EmptyRun(s: Storage, id: CampaignId)
    ensures Exec(s, []) == s && PaidBy(Owes(s, []), id) == 0 && Funds(s, [], id) == 0
  {
  }

  lemma RunToVested()
    ensures Initial(OWNED) && Exec(OWNED, [CREATE, VEST]) == VESTED
    ensures PaidBy(Owes(OWNED, [CREATE, VEST]), 3) == 0 && Funds(OWNED, [CREATE, VEST], 3) == 10
  {
    CreateThenVest();
    EmptyRun(OWNED, 3);
    hide Step, Exec, Owes, Funds, FundedBy;
    assert [] + [CREATE] == [CREATE] && [CREATE] + [VEST] == [CREATE, VEST];
    RunOn(OWNED, [], CREATE, OWNED, CREATED, [], 3);
    RunOn(OWNED, [CREATE], VEST, CREATED, VESTED, [], 3);
  }

  lemma RunToCollected()
    ensures Exec(OWNED, [CREATE, VEST, COLLECT]) == COLLECTED
    ensures PaidBy(Owes(OWNED, [CREATE, VEST, COLLECT]), 3) == 9 && Funds(OWNED, [CREATE, VEST, COLLECT], 3) == 10
  {
    RunToVested();
    ThenCollect();
    hide Step, Exec, Owes, Funds, FundedBy;
    assert [CREATE, VEST] + [COLLECT] == [CREATE, VEST, COLLECT];
    RunOn(OWNED, [CREATE, VEST], COLLECT, VESTED, COLLECTED, [Owed(3, 6, 9)], 3);
  }

  /** A run of four transactions whose funding wraps the word and leaves `distributed` above `maximum`. */
  lemma WrappedFundingBreaksCap()
    ensures var run := [CREATE, VEST, COLLECT, OVERFUND];
            Initial(OWNED) && Chain(run) && !WithinCap(Exec(OWNED, run).BalanceOf(3))
  {
    RunToVested();
    RunToCollected();
    ThenOverfund();
    hide Step, Exec, Owes, Funds, FundedBy, PaidBy;
    assert [CREATE, VEST, COLLECT] + [OVERFUND] == [CREATE, VEST, COLLECT, OVERFUND];
    var r := Step(COLLECTED, OVERFUND);
    RunOn(OWNED, [CREATE, VEST, COLLECT], OVERFUND, COLLECTED, r.after, r.owed, 3);
  }

  /**
    A run of five accepted transactions with funding of ten in which the last collect owes 2^256 - 1:
    adding that reward wraps `distributed` from 9 to 8, so the cap lets it through. What was owed is far
    above what was funded, and is not what `distributed` says.
   */
  lemma WrappedRewardEscapesCap()
    ensures var run := [CREATE, VEST, COLLECT, RAISE, DRAIN];
            && Initial(OWNED) && Chain(run)
            && Step(OWNED, CREATE).Accepted? && Step(CREATED, VEST).Accepted? && Step(VESTED, COLLECT).Accepted?
            && Step(COLLECTED, RAISE).Accepted? && Step(RAISED, DRAIN).Accepted? && Exec(OWNED, run) == DRAINED
            && Funds(OWNED, run, 3) == 10
            && Exec(OWNED, run).BalanceOf(3).distributed == 8
            && PaidBy(Owes(OWNED, run), 3) == 9 + (MOD256 - 1)
  {
    CreateThenVest();
    ThenCollect();
    RunToVested();
    RunToCollected();
    ThenRaise();
    ThenDrain();
    hide Step, Exec, Owes, Funds, FundedBy;
    var run := [CREATE, VEST, COLLECT];
    RunOn(OWNED, run, RAISE, COLLECTED, RAISED, [], 3);
    RunOn(OWNED, run + [RAISE], DRAIN, RAISED, DRAINED, [Owed(3, 6, MOD256 - 1)], 3);
    assert run + [RAISE] + [DRAIN] == [CREATE, VEST, COLLECT, RAISE, DRAIN];
  }
}
