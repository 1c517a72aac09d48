/** The per-pool liquidity counters against the liquidity of the positions that are vested. */
module LeoLiquidity {
  import opened Words
  import opened Sums
  import opened LeoState
  import opened LeoRuns
  import LeoLedger

  /** What a position contributes while it is vested. */
  function Weight(p: Position): nat
  {
    if p.owner != NOBODY then p.liquidity else 0
  }

  ghost function Weights(positions: map<PositionId, Position>): map<PositionId, int>
  {
    map id | id in positions :: Weight(positions[id]) as int
  }

  /** The liquidity of all vested positions. */
  ghost function VestedTotal(positions: map<PositionId, Position>): int
  {
    Total(Weights(positions))
  }

  ghost function WeightsIn(positions: map<PositionId, Position>, pool: Address): map<PositionId, int>
  {
    map id | id in positions :: if positions[id].token == pool then Weight(positions[id]) as int else 0
  }

  /** The liquidity of the vested positions of one pool. */
  ghost function VestedIn(positions: map<PositionId, Position>, pool: Address): int
  {
    Total(WeightsIn(positions, pool))
  }

  /** The counters of all pools together. */
  ghost function Counters(s: Storage): int
  {
    Total(s.liquidity)
  }

  lemma WriteWeight(positions: map<PositionId, Position>, id: PositionId, p: Position)
    ensures VestedTotal(positions[id := p])
         == VestedTotal(positions) - (if id in positions then Weight(positions[id]) else 0) + Weight(p)
  {
    assert Weights(positions[id := p]) == Weights(positions)[id := Weight(p)];
    TotalUpdate(Weights(positions), id, Weight(p));
  }

  lemma WriteWeightIn(positions: map<PositionId, Position>, id: PositionId, p: Position, pool: Address)
    ensures VestedIn(positions[id := p], pool)
         == VestedIn(positions, pool)
            - (if id in positions && positions[id].token == pool then Weight(positions[id]) else 0)
            + (if p.token == pool then Weight(p) else 0)
  {
    var w := if p.token == pool then Weight(p) else 0;
    assert WeightsIn(positions[id := p], pool) == WeightsIn(positions, pool)[id := w];
    TotalUpdate(WeightsIn(positions, pool), id, w);
  }

  lemma WriteCounter(s: Storage, pool: Address, n: U256)
    ensures Total(s.liquidity[pool := n]) == Counters(s) - s.PoolLp(pool) + n
  {
    TotalUpdate(s.liquidity, pool, n);
  }

  /** Adding to a counter moves the total by the same amount, modulo the word. */
  lemma CounterMoves(total: int, counter: int, delta: int)
    ensures Wrap(total - counter + Wrap(counter + delta)) == Wrap(total + delta)
  {
    WrapSum(counter + delta, total - counter);
  }

  lemma {:induction false} CollectKeepsWeights(s: Storage, e: Env, pool: Address, posId: PositionId, ids: seq<CampaignId>, any: Address)
    requires CollectAll(s, e, pool, posId, ids).Accepted? && posId in s.positions
    ensures var t := CollectAll(s, e, pool, posId, ids).after;
            && posId in t.positions
            && VestedTotal(t.positions) == VestedTotal(s.positions)
            && VestedIn(t.positions, any) == VestedIn(s.positions, any)
    decreases |ids|
  {
    if ids != [] {
      var t := CollectOne(s, e, pool, posId, ids[0]).after;
      var p := s.PositionOf(posId).(timestamp := e.now);
      assert t.positions == s.positions[posId := p];
      WriteWeight(s.positions, posId, p);
      WriteWeightIn(s.positions, posId, p, any);
      hide CollectOne, VestedTotal, VestedIn;
      CollectKeepsWeights(t, e, pool, posId, ids[1..], any);
    }
  }

  // --- All pools together ----------------------------------------------------------------------

  ghost predicate Balanced(s: Storage)
  {
    Wrap(Counters(s)) == Wrap(VestedTotal(s.positions))
  }

  lemma VestBalanced(s: Storage, e: Env, pool: Address, id: PositionId, o: Oracle)
    requires SoundPositions(s) && e.sender != NOBODY && Balanced(s)
    requires Vest(s, e, pool, id, o).Accepted?
    ensures Balanced(Vest(s, e, pool, id, o).after)
  {
    hide Wrap, VestedTotal;
    var t := Vest(s, e, pool, id, o).after;
    WriteWeight(s.positions, id, t.positions[id]);
    WriteCounter(s, pool, t.liquidity[pool]);
    CounterMoves(Counters(s), s.PoolLp(pool), o.liquidity);
    WrapSum(Counters(s), o.liquidity);
    WrapSum(VestedTotal(s.positions), o.liquidity);
  }

  /** What a divest does to the two sides, whichever pool it names. */
  lemma DivestMoves(s: Storage, e: Env, pool: Address, posId: PositionId, ids: seq<CampaignId>, transferred: bool, any: Address)
    requires SoundPositions(s) && e.sender != NOBODY
    requires Divest(s, e, pool, posId, ids, transferred).Accepted?
    ensures var t, p := Divest(s, e, pool, posId, ids, transferred).after, s.PositionOf(posId);
            && p.liquidity != 0
            && posId in s.positions && p.owner != NOBODY
            && t.liquidity == s.liquidity[pool := Wrap(s.PoolLp(pool) - p.liquidity)]
            && VestedTotal(t.positions) == VestedTotal(s.positions) - p.liquidity
            && VestedIn(t.positions, any) == VestedIn(s.positions, any) - (if p.token == any then p.liquidity else 0)
  {
    hide CollectAll, Wrap, VestedTotal, VestedIn;
    CollectFrame(s, e, pool, posId, ids);
    CollectKeepsWeights(s, e, pool, posId, ids, any);
    var c := CollectAll(s, e, pool, posId, ids).after;
    WriteWeight(c.positions, posId, c.PositionOf(posId).(owner := NOBODY));
    WriteWeightIn(c.positions, posId, c.PositionOf(posId).(owner := NOBODY), any);
  }

  lemma DivestBalanced(s: Storage, e: Env, pool: Address, posId: PositionId, ids: seq<CampaignId>, transferred: bool)
    requires SoundPositions(s) && e.sender != NOBODY && Balanced(s)
    requires Divest(s, e, pool, posId, ids, transferred).Accepted?
    ensures Balanced(Divest(s, e, pool, posId, ids, transferred).after)
  {
    hide Wrap, VestedTotal, Divest;
    var l: int := s.PositionOf(posId).liquidity;
    DivestMoves(s, e, pool, posId, ids, transferred, pool);
    WriteCounter(s, pool, Wrap(s.PoolLp(pool) - l));
    CounterMoves(Counters(s), s.PoolLp(pool), -l);
    WrapSum(Counters(s), l);
    WrapSum(VestedTotal(s.positions), l);
  }

  lemma StepBalanced(s: Storage, tx: Tx)
    requires SoundPositions(s) && 0 < tx.env.now && tx.env.sender != NOBODY && Balanced(s)
    ensures Balanced(Apply(s, tx))
  {
    StepFrame(s, tx);
    hide Wrap, VestedTotal, Vest, Divest, Create, Update, Cancel;
    if Step(s, tx).Accepted? {
      match tx.call
      case CallVest(pool, position, oracle) => VestBalanced(s, tx.env, pool, position, oracle);
      case CallCollect(pool, position, ids) =>
        hide CollectAll;
        CollectKeepsWeights(s, tx.env, pool, position, ids, pool);
      case CallDivest(pool, position, ids, transferred) =>
        DivestBalanced(s, tx.env, pool, position, ids, transferred);
      case _ =>
    }
  }

  /**
    On every run, whatever pools the calls name, the counters of all pools together equal the
    liquidity of all vested positions, modulo the word.
   */
  lemma {:induction false} CountersBalance(s: Storage, run: seq<Tx>)
    requires Initial(s) && Chain(run)
    ensures Balanced(Exec(s, run))
    decreases |run|
  {
    hide Wrap, Apply;
    if run != [] {
      ChainPrefix(run);
      CountersBalance(s, run[..|run| - 1]);
      RunKeepsPositions(s, run[..|run| - 1]);
      StepBalanced(Exec(s, run[..|run| - 1]), run[|run| - 1]);
    }
  }

  // --- Pool by pool ----------------------------------------------------------------------------

  ghost predicate PoolsBalanced(s: Storage)
  {
    forall pool: Address :: s.PoolLp(pool) == Wrap(VestedIn(s.positions, pool))
  }

  lemma VestPoolBalanced(s: Storage, e: Env, pool: Address, id: PositionId, o: Oracle, any: Address)
    requires SoundPositions(s) && e.sender != NOBODY
    requires s.PoolLp(any) == Wrap(VestedIn(s.positions, any))
    requires Vest(s, e, pool, id, o).Accepted?
    ensures var t := Vest(s, e, pool, id, o).after;
            t.PoolLp(any) == Wrap(VestedIn(t.positions, any))
  {
    hide Wrap, VestedIn;
    var t := Vest(s, e, pool, id, o).after;
    WriteWeightIn(s.positions, id, t.positions[id], any);
    WrapSum(VestedIn(s.positions, any), o.liquidity);
  }

  /**
    A divest keeps the books pool by pool exactly when it names the pool the position was vested with.
   */
  lemma DivestPoolBalanced(s: Storage, e: Env, pool: Address, posId: PositionId, ids: seq<CampaignId>, transferred: bool)
    requires SoundPositions(s) && e.sender != NOBODY && PoolsBalanced(s)
    requires Divest(s, e, pool, posId, ids, transferred).Accepted?
    ensures PoolsBalanced(Divest(s, e, pool, posId, ids, transferred).after) <==> pool == s.PositionOf(posId).token
  {
    hide Wrap, VestedIn, Divest;
    var t, p := Divest(s, e, pool, posId, ids, transferred).after, s.PositionOf(posId);
    if pool == p.token {
      forall any: Address ensures t.PoolLp(any) == Wrap(VestedIn(t.positions, any)) {
        DivestMoves(s, e, pool, posId, ids, transferred, any);
        WrapSum(VestedIn(s.positions, any), p.liquidity);
      }
    } else {
      DivestMoves(s, e, pool, posId, ids, transferred, p.token);
      WrapSeparates(VestedIn(s.positions, p.token), p.liquidity);
      assert t.PoolLp(p.token) != Wrap(VestedIn(t.positions, p.token));
    }
  }

  lemma WrapSeparates(n: int, d: U256)
    requires d != 0
    ensures Wrap(n - d) != Wrap(n)
  {
  }

  /** Every accepted divest of the run names the pool its position was vested with. */
  ghost predicate NamesVestedPools(s: Storage, run: seq<Tx>)
    decreases |run|
  {
    run != [] ==>
      var init, tx := run[..|run| - 1], run[|run| - 1];
      && NamesVestedPools(s, init)
      && (tx.call.CallDivest? && Step(Exec(s, init), tx).Accepted? ==>
            tx.call.pool == Exec(s, init).PositionOf(tx.call.position).token)
  }

  lemma StepPoolsBalanced(s: Storage, tx: Tx)
    requires SoundPositions(s) && 0 < tx.env.now && tx.env.sender != NOBODY && PoolsBalanced(s)
    requires tx.call.CallDivest? && Step(s, tx).Accepted? ==> tx.call.pool == s.PositionOf(tx.call.position).token
    ensures PoolsBalanced(Apply(s, tx))
  {
    StepFrame(s, tx);
    hide Wrap, VestedIn, Vest, Divest, Create, Update, Cancel;
    if Step(s, tx).Accepted? {
      var t := Apply(s, tx);
      match tx.call
      case CallVest(pool, position, oracle) =>
        forall any: Address ensures t.PoolLp(any) == Wrap(VestedIn(t.positions, any)) {
          VestPoolBalanced(s, tx.env, pool, position, oracle, any);
        }
      case CallCollect(pool, position, ids) =>
        hide CollectAll;
        forall any: Address ensures t.PoolLp(any) == Wrap(VestedIn(t.positions, any)) {
          CollectKeepsWeights(s, tx.env, pool, position, ids, any);
        }
      case CallDivest(pool, position, ids, transferred) =>
        DivestPoolBalanced(s, tx.env, pool, position, ids, transferred);
      case _ =>
    }
  }

  /** On such runs every pool's counter is the liquidity of its vested positions, modulo the word. */
  lemma {:induction false} PoolCountersBalance(s: Storage, run: seq<Tx>)
    requires Initial(s) && Chain(run) && NamesVestedPools(s, run)
    ensures PoolsBalanced(Exec(s, run))
    decreases |run|
  {
    hide Wrap, Apply;
    if run == [] {
      WrapSmall(0);
    } else {
      ChainPrefix(run);
      PoolCountersBalance(s, run[..|run| - 1]);
      RunKeepsPositions(s, run[..|run| - 1]);
      StepPoolsBalanced(Exec(s, run[..|run| - 1]), run[|run| - 1]);
    }
  }

  /**
    And only on such runs: the counters agree pool by pool at every moment of a run if and only if
    every accepted divest names the pool its position was vested with.
   */
  lemma {:induction false} PoolCountersBalanceExactly(s: Storage, run: seq<Tx>)
    requires Initial(s) && Chain(run)
    ensures NamesVestedPools(s, run) <==> forall k :: 0 <= k <= |run| ==> PoolsBalanced(Exec(s, run[..k]))
    decreases |run|
  {
    hide Wrap, Apply, Step, PoolsBalanced;
    if run == [] {
      PoolCountersBalance(s, run);
      assert forall k :: 0 <= k <= |run| ==> run[..k] == run;
    } else {
      var n := |run| - 1;
      var init, tx := run[..n], run[n];
      ChainPrefix(run);
      PoolCountersBalanceExactly(s, init);
      assert run[..n + 1] == run;
      assert forall k :: 0 <= k <= n ==> init[..k] == run[..k];
      assert init[..n] == init;
      RunKeepsPositions(s, init);
      LastDivestNames(Exec(s, init), tx);
    }
  }

  lemma LastDivestNames(s: Storage, tx: Tx)
    requires SoundPositions(s) && 0 < tx.env.now && tx.env.sender != NOBODY
    ensures PoolsBalanced(s) ==>
              (PoolsBalanced(Apply(s, tx)) <==>
               (tx.call.CallDivest? && Step(s, tx).Accepted? ==> tx.call.pool == s.PositionOf(tx.call.position).token))
  {
    if PoolsBalanced(s) {
      if tx.call.CallDivest? && Step(s, tx).Accepted? {
        hide Divest, PoolsBalanced;
        DivestPoolBalanced(s, tx.env, tx.call.pool, tx.call.position, tx.call.ids, tx.call.transferred);
      } else {
        hide Step, Apply, PoolsBalanced;
        StepPoolsBalanced(s, tx);
      }
    }
  }

  /** A divest of the position vested with pool 5 that names pool 6. */
  const MISNAMED: Tx := Tx(Env(8, 9), CallDivest(6, 4, [], true))

  /** A run of three accepted transactions after which the counters of pools 5 and 6 are both wrong. */
  lemma MisnamedPoolBreaksBooks()
    ensures var run := [LeoLedger.CREATE, LeoLedger.VEST, MISNAMED];
            && Initial(LeoLedger.OWNED) && Chain(run)
            && Step(LeoLedger.VESTED, MISNAMED).Accepted?
            && PoolsBalanced(Exec(LeoLedger.OWNED, run[..2]))
            && !PoolsBalanced(Exec(LeoLedger.OWNED, run))
  {
    LeoLedger.RunToVested();
    MisnamedIsAccepted();
    hide Apply, Step, PoolsBalanced, NamesVestedPools;
    var run := [LeoLedger.CREATE, LeoLedger.VEST, MISNAMED];
    assert run[..2] == [LeoLedger.CREATE, LeoLedger.VEST];
    NoDivests(LeoLedger.OWNED, run[..2]);
    PoolCountersBalance(LeoLedger.OWNED, run[..2]);
    RunKeepsPositions(LeoLedger.OWNED, run[..2]);
    LastDivestNames(LeoLedger.VESTED, MISNAMED);
  }

  lemma MisnamedIsAccepted()
    ensures Step(LeoLedger.VESTED, MISNAMED).Accepted? && LeoLedger.VESTED.PositionOf(4).token == 5
  {
  }

  lemma {:induction false} NoDivests(s: Storage, run: seq<Tx>)
    requires forall i :: 0 <= i < |run| ==> !run[i].call.CallDivest?
    ensures NamesVestedPools(s, run)
    decreases |run|
  {
    if run != [] {
      NoDivests(s, run[..|run| - 1]);
    }
  }

  /**
    While a pool's vested liquidity fits a word its counter is that liquidity exactly, so taking a
    vested position of the pool off the counter never borrows.
   */
  lemma DivestNeverUnderflows(s: Storage, run: seq<Tx>, id: PositionId)
    requires Initial(s) && Chain(run) && NamesVestedPools(s, run)
    requires StageOf(Exec(s, run).PositionOf(id)) == Vested
    requires VestedIn(Exec(s, run).positions, Exec(s, run).PositionOf(id).token) < MOD256
    ensures var t := Exec(s, run);
            var p := t.PositionOf(id);
            && t.PoolLp(p.token) == VestedIn(t.positions, p.token)
            && p.liquidity <= t.PoolLp(p.token)
  {
    hide Wrap, Exec, NamesVestedPools;
    var t := Exec(s, run);
    var p := t.PositionOf(id);
    PoolCountersBalance(s, run);
    TotalNonNegative(WeightsIn(t.positions, p.token));
    TotalAtLeast(WeightsIn(t.positions, p.token), id);
    WrapSmall(VestedIn(t.positions, p.token));
  }
}
