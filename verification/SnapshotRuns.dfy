/** Whole snapshots: what the stored rows are, whatever the interleaving of the request fan-out. */
module SnapshotRuns {
  import opened Outcomes
  import opened PositionKeys
  import TickMath
  import TickOrder
  import LiquidityAmounts
  import opened Batching
  import opened FanOut
  import opened Snapshot

  type Prices = map<string, nat>

  // --- One response per key --------------------------------------------------------------------

  /** Every key of the set is answered exactly once, and nothing else is answered. */
  ghost predicate OneEach(resps: seq<Resp>, keys: set<string>)
  {
    && (forall i :: 0 <= i < |resps| ==> resps[i].key in keys)
    && (forall i, j :: 0 <= i < j < |resps| ==> resps[i].key != resps[j].key)
    && (forall key :: key in keys ==> exists i :: 0 <= i < |resps| && resps[i].key == key)
  }

  lemma {:induction false} KeysAt(resps: seq<Resp>, i: nat)
    requires i < |resps|
    ensures |Keys(resps)| == |resps| && Keys(resps)[i] == resps[i].key
  {
    KeysLength(resps);
    if i > 0 {
      KeysAt(resps[1..], i - 1);
    }
  }

  lemma TwiceIsTwo(ks: seq<string>, i: nat, j: nat)
    requires i < j < |ks| && ks[i] == ks[j]
    ensures multiset(ks)[ks[i]] >= 2
  {
    assert ks == ks[..j] + ks[j..];
    assert ks[i] in ks[..j] && ks[j] in ks[j..];
  }

  lemma NoRepeats(ks: seq<string>, keys: set<string>, i: nat, j: nat)
    requires multiset(ks) == multiset(keys) && i < j < |ks|
    ensures ks[i] != ks[j]
  {
    if ks[i] == ks[j] {
      TwiceIsTwo(ks, i, j);
      assert false;
    }
  }

  lemma PermutationAnswersEach(resps: seq<Resp>, keys: set<string>)
    requires multiset(Keys(resps)) == multiset(keys)
    ensures OneEach(resps, keys) && |resps| == |keys|
  {
    var ks := Keys(resps);
    KeysLength(resps);
    assert |multiset(ks)| == |multiset(keys)|;
    forall i | 0 <= i < |resps| ensures ks[i] == resps[i].key {
      KeysAt(resps, i);
    }
    hide Keys;
    forall i | 0 <= i < |resps| ensures resps[i].key in keys {
      assert ks[i] in multiset(ks);
    }
    forall i, j | 0 <= i < j < |resps| ensures resps[i].key != resps[j].key {
      NoRepeats(ks, keys, i, j);
    }
    forall key | key in keys ensures exists i :: 0 <= i < |resps| && resps[i].key == key {
      assert key in multiset(ks);
      var i :| 0 <= i < |ks| && ks[i] == key;
      assert resps[i].key == key;
    }
  }

  // --- What the rows are -----------------------------------------------------------------------

  ghost predicate Sourced(row: Row, resps: seq<Resp>, m: map<string, Position>, prices: Prices)
  {
    exists r :: r in resps && RowOf(r, m, prices) == Ok(Some(row))
  }

  ghost predicate Kept(r: Resp, rows: seq<Row>, m: map<string, Position>, prices: Prices)
  {
    RowOf(r, m, prices).Ok? && (RowOf(r, m, prices).value.Some? ==> RowOf(r, m, prices).value.value in rows)
  }

  /** Every row is the row of some response, and every response with a row has it. */
  ghost predicate RowsAreThose(rows: seq<Row>, resps: seq<Resp>, m: map<string, Position>, prices: Prices)
  {
    && (forall row :: row in rows ==> Sourced(row, resps, m, prices))
    && (forall r :: r in resps ==> Kept(r, rows, m, prices))
  }

  lemma {:induction false} RowsMeaning(resps: seq<Resp>, m: map<string, Position>, prices: Prices)
    requires Rows(resps, m, prices).Ok?
    ensures RowsAreThose(Rows(resps, m, prices).value, resps, m, prices)
    ensures |Rows(resps, m, prices).value| <= |resps|
  {
    hide RowOf;
    if resps != [] {
      var init, last := resps[..|resps| - 1], resps[|resps| - 1];
      RowsMeaning(init, m, prices);
      var rows, all, row := Rows(init, m, prices).value, Rows(resps, m, prices).value, RowOf(last, m, prices).value;
      assert all == if row.None? then rows else rows + [row.value];
      hide Rows;
      OneMoreResponse(rows, init, last, m, prices);
      assert resps == init + [last];
    }
  }

  lemma OneMoreResponse(rows: seq<Row>, resps: seq<Resp>, r: Resp, m: map<string, Position>, prices: Prices)
    requires RowsAreThose(rows, resps, m, prices) && RowOf(r, m, prices).Ok?
    ensures var row := RowOf(r, m, prices).value;
            RowsAreThose(if row.None? then rows else rows + [row.value], resps + [r], m, prices)
  {
    hide RowOf;
    var row := RowOf(r, m, prices).value;
    var more, all := if row.None? then rows else rows + [row.value], resps + [r];
    forall x | x in more ensures Sourced(x, all, m, prices) {
      if x in rows {
        assert Sourced(x, resps, m, prices);
      } else {
        assert r in all;
      }
    }
    forall x | x in all ensures Kept(x, more, m, prices) {
      if x in resps {
        assert Kept(x, rows, m, prices);
      }
    }
    assert RowsAreThose(more, all, m, prices);
  }

  /** Every position in the map stands under its own key and has an address of 42 characters. */
  ghost predicate Keyed(m: map<string, Position>)
  {
    forall key :: key in m ==> KeyOf(m[key]) == key && |m[key].pool| == 42
  }

  /** No position is stored twice. */
  ghost predicate DistinctRows(rows: seq<Row>)
  {
    forall j, k :: 0 <= j < k < |rows| ==> rows[j].pool != rows[k].pool || rows[j].id != rows[k].id
  }

  /** The row of a response names the position under the response's key. */
  lemma RowNamesKey(r: Resp, m: map<string, Position>, prices: Prices)
    requires RowOf(r, m, prices).Ok? && RowOf(r, m, prices).value.Some?
    ensures r.key in m && var row := RowOf(r, m, prices).value.value;
            row.pool == Lower(m[r.key].pool) && row.id == m[r.key].id
  {
    hide Lower, Truncate, PriceOf;
  }

  /** Responses with different keys get rows for different positions. */
  lemma RowsApart(r: Resp, s: Resp, m: map<string, Position>, prices: Prices)
    requires Keyed(m) && r.key != s.key
    requires RowOf(r, m, prices).Ok? && RowOf(r, m, prices).value.Some?
    requires RowOf(s, m, prices).Ok? && RowOf(s, m, prices).value.Some?
    ensures var x, y := RowOf(r, m, prices).value.value, RowOf(s, m, prices).value.value;
            x.pool != y.pool || x.id != y.id
  {
    RowNamesKey(r, m, prices);
    RowNamesKey(s, m, prices);
    hide RowOf, EncodeId, Lower;
    var p, q := m[r.key], m[s.key];
    KeyInjective(p.pool, p.id, q.pool, q.id);
  }

  lemma {:induction false} RowsDistinct(resps: seq<Resp>, m: map<string, Position>, prices: Prices)
    requires Keyed(m) && Rows(resps, m, prices).Ok?
    requires forall i, j :: 0 <= i < j < |resps| ==> resps[i].key != resps[j].key
    ensures DistinctRows(Rows(resps, m, prices).value)
  {
    hide RowOf;
    if resps != [] {
      var init, last := resps[..|resps| - 1], resps[|resps| - 1];
      RowsDistinct(init, m, prices);
      RowsMeaning(init, m, prices);
      var rows, row := Rows(init, m, prices).value, RowOf(last, m, prices).value;
      assert Rows(resps, m, prices).value == if row.None? then rows else rows + [row.value];
      hide Rows;
      if row.Some? {
        forall k | 0 <= k < |rows| ensures rows[k].pool != row.value.pool || rows[k].id != row.value.id {
          assert Sourced(rows[k], init, m, prices);
          var r :| r in init && RowOf(r, m, prices) == Ok(Some(rows[k]));
          RowsApart(r, last, m, prices);
        }
      }
    }
  }

  // --- No panic --------------------------------------------------------------------------------

  ghost predicate TicksInRange(p: Position)
  {
    TickMath.Abs(p.lower) <= TickMath.MAX_TICK && TickMath.Abs(p.upper) <= TickMath.MAX_TICK
  }

  lemma AmountsNeverPanic(price: LiquidityAmounts.Maybe, a: nat, b: nat, liq: int)
    requires 0 < a && 0 < b
    ensures LiquidityAmounts.GetAmountsForLiq(price, LiquidityAmounts.Num(a), LiquidityAmounts.Num(b), LiquidityAmounts.Num(liq)).Ok?
  {
    hide LiquidityAmounts.Quo, LiquidityAmounts.Numerator, LiquidityAmounts.Amount1;
  }

  lemma RowNeverPanics(r: Resp, m: map<string, Position>, prices: Prices)
    requires r.key in m ==> TicksInRange(m[r.key])
    ensures RowOf(r, m, prices).Ok?
  {
    hide TickMath.SqrtRatioAtTick, LiquidityAmounts.GetAmountsForLiq, Lower, PriceOf, Truncate;
    if r.key in m {
      var p := m[r.key];
      TickMath.PriceIsPositive(p.lower);
      TickMath.PriceIsPositive(p.upper);
      AmountsNeverPanic(PriceOf(prices, Lower(p.pool)), TickMath.SqrtRatioAtTick(p.lower).value,
                        TickMath.SqrtRatioAtTick(p.upper).value, r.delta);
    }
  }

  lemma {:induction false} RowsNeverPanic(resps: seq<Resp>, m: map<string, Position>, prices: Prices)
    requires forall key :: key in m ==> TicksInRange(m[key])
    ensures Rows(resps, m, prices).Ok?
  {
    hide RowOf, TicksInRange;
    if resps != [] {
      RowsNeverPanic(resps[..|resps| - 1], m, prices);
      RowNeverPanics(resps[|resps| - 1], m, prices);
    }
  }

  /** The prices panic exactly when some pool's final tick is above the last convertible one. */
  lemma {:induction false} PricesPanicExactly(pools: seq<Pool>)
    ensures PoolPrices(pools).Panic? <==> exists k :: 0 <= k < |pools| && pools[k].finalTick > TickOrder.LAST_TICK
  {
    hide TickMath.SqrtRatioAtTick;
    if pools != [] {
      var n := |pools| - 1;
      PricesPanicExactly(pools[..n]);
      TickOrder.PanicsExactly(pools[n].finalTick);
      assert forall k :: 0 <= k < n ==> pools[..n][k] == pools[k];
    }
  }

  // --- What a row's amounts are ----------------------------------------------------------------

  /** `n` is `x` rounded down. */
  ghost predicate RoundsDown(n: int, x: real)
  {
    0 <= n && n as real <= x < n as real + 1.0
  }

  lemma TruncateRoundsDown(x: real)
    requires 0.0 <= x
    ensures RoundsDown(Truncate(x), x)
  {
  }

  /** The amounts of a row; a position without a row holds less than one unit of either token. */
  function AmountsOf(row: Option<Row>): (int, int)
  {
    match row
    case None => (0, 0)
    case Some(r) => (r.amount0, r.amount1)
  }

  /** The stored amounts are a point on the position's curve, rounded down to whole units. */
  ghost predicate OnCurveRoundedDown(stored: (int, int), price: int, lo: nat, hi: nat, liq: nat)
    requires 0 < hi
  {
    var exact := LiquidityAmounts.Amounts(price, lo, hi, liq);
    && exact.Ok?
    && LiquidityAmounts.OnCurve(exact.value.0, exact.value.1, liq, lo, hi)
    && RoundsDown(stored.0, exact.value.0)
    && RoundsDown(stored.1, exact.value.1)
  }

  lemma RowAtPrice(pos: Position, delta: nat, prices: Prices)
    requires TicksInRange(pos) && pos.lower < pos.upper && Lower(pos.pool) in prices
    ensures PositionRow(pos, delta, prices).Ok?
    ensures var lower, upper := TickMath.SqrtRatioAtTick(pos.lower), TickMath.SqrtRatioAtTick(pos.upper);
            && lower.Ok? && upper.Ok? && 0 < lower.value < upper.value
            && OnCurveRoundedDown(AmountsOf(PositionRow(pos, delta, prices).value), prices[Lower(pos.pool)],
                                  lower.value, upper.value, delta)
  {
    hide TickMath.SqrtRatioAtTick, LiquidityAmounts.GetAmountsForLiq, LiquidityAmounts.OnCurve, Lower, Truncate, RoundsDown;
    TickMath.PriceIsPositive(pos.lower);
    TickOrder.PriceOrder(pos.lower, pos.upper);
    var lo, hi := TickMath.SqrtRatioAtTick(pos.lower).value, TickMath.SqrtRatioAtTick(pos.upper).value;
    var price := prices[Lower(pos.pool)];
    LiquidityAmounts.AmountsOnCurve(price, lo, hi, delta);
    LiquidityAmounts.AmountsNonNegative(price, lo, hi, delta);
    var exact := LiquidityAmounts.Amounts(price, lo, hi, delta).value;
    TruncateRoundsDown(exact.0);
    TruncateRoundsDown(exact.1);
  }

  /**
    For every position with a lower tick below its upper one, every reported liquidity and every list of
    pools that knows the position's pool: the bounds are positive prices in order, and the amounts stored
    for the position (none: zero) are, rounded down, the point on the curve of equation 2.2 at the
    price of the pool's final tick. A row that holds nothing is not stored.
   */
  lemma RowOnCurve(pos: Position, delta: nat, pools: seq<Pool>, i: nat)
    requires TicksInRange(pos) && pos.lower < pos.upper
    requires PoolPrices(pools).Ok? && LastPool(pools, Lower(pos.pool), i)
    ensures var row := PositionRow(pos, delta, PoolPrices(pools).value);
            row.Ok? && (row.value.Some? <==> AmountsOf(row.value) != (0, 0))
    ensures var lower, upper := TickMath.SqrtRatioAtTick(pos.lower), TickMath.SqrtRatioAtTick(pos.upper);
            var price := TickMath.SqrtRatioAtTick(pools[i].finalTick);
            && lower.Ok? && upper.Ok? && price.Ok? && 0 < lower.value < upper.value
            && OnCurveRoundedDown(AmountsOf(PositionRow(pos, delta, PoolPrices(pools).value).value), price.value,
                                  lower.value, upper.value, delta)
  {
    hide TickMath.SqrtRatioAtTick, LiquidityAmounts.GetAmountsForLiq, Lower, Truncate, PoolPrices, OnCurveRoundedDown;
    var prices, address := PoolPrices(pools).value, Lower(pos.pool);
    PoolPricesMeaning(pools, address);
    var j: nat :| LastPool(pools, address, j) && TickMath.SqrtRatioAtTick(pools[j].finalTick) == Ok(prices[address]);
    assert i == j;
    RowAtPrice(pos, delta, prices);
  }

  /** A position whose pool is not in the list gets no row. */
  lemma NoPriceNoRow(pos: Position, delta: int, pools: seq<Pool>)
    requires TicksInRange(pos) && PoolPrices(pools).Ok?
    requires forall i :: 0 <= i < |pools| ==> Lower(pools[i].address) != Lower(pos.pool)
    ensures PositionRow(pos, delta, PoolPrices(pools).value) == Ok(None)
  {
    hide TickMath.SqrtRatioAtTick, Lower, PoolPrices;
    PoolPricesMeaning(pools, Lower(pos.pool));
    TickMath.PriceIsPositive(pos.lower);
    TickMath.PriceIsPositive(pos.upper);
  }

  lemma TruncateNegated(x: real)
    ensures Truncate(-x) == -Truncate(x)
  {
  }

  /** Should a negative liquidity be reported, the amounts are those of its absolute value, negated. */
  lemma NegatedRow(pos: Position, delta: int, prices: Prices)
    requires TicksInRange(pos) && pos.lower < pos.upper && Lower(pos.pool) in prices
    ensures PositionRow(pos, delta, prices).Ok? && PositionRow(pos, -delta, prices).Ok?
    ensures var amounts, negated := AmountsOf(PositionRow(pos, delta, prices).value), AmountsOf(PositionRow(pos, -delta, prices).value);
            negated == (-amounts.0, -amounts.1)
  {
    hide TickMath.SqrtRatioAtTick, LiquidityAmounts.GetAmountsForLiq, Lower, Truncate;
    TickMath.PriceIsPositive(pos.lower);
    TickOrder.PriceOrder(pos.lower, pos.upper);
    var lo, hi := TickMath.SqrtRatioAtTick(pos.lower).value, TickMath.SqrtRatioAtTick(pos.upper).value;
    var price := prices[Lower(pos.pool)];
    LiquidityAmounts.NegatedLiquidity(price, lo, hi, delta);
    var exact := LiquidityAmounts.Amounts(price, lo, hi, delta).value;
    TruncateNegated(exact.0);
    TruncateNegated(exact.1);
  }

  // --- The whole snapshot ----------------------------------------------------------------------

  /** The map entry of a key is one of the positions, and the entry has that key. */
  lemma EntryIsPosition(positions: seq<Position>, key: string)
    requires key in PositionMap(positions)
    ensures KeyOf(PositionMap(positions)[key]) == key && PositionMap(positions)[key] in positions
  {
    PositionMapMeaning(positions, key);
    hide PositionMap, KeyOf;
    var i: nat :| LastUnder(positions, key, i) && PositionMap(positions)[key] == positions[i];
  }

  /**
    Whatever the positions and whatever the interleaving, a fan-out that returns answers every key of
    the position map exactly once, and the reconciliation loop has room: it makes at most one row per
    position, so it writes within its arrays.
   */
  lemma RowsFit(positions: seq<Position>, prices: Prices, reqs: seq<Req>,
                states: seq<State>, actions: seq<Action>, limit: nat, workers: nat)
    requires multiset(Ids(reqs)) == multiset(PositionMap(positions).Keys)
    requires 0 < limit && Execution(states, actions, reqs, limit, workers)
    requires states[|actions|].outcome.Returned?
    ensures var m, resps := PositionMap(positions), states[|actions|].outcome.resps;
            && OneEach(resps, m.Keys)
            && (Rows(resps, m, prices).Ok? ==> |Rows(resps, m, prices).value| <= |positions|)
  {
    var m, resps := PositionMap(positions), states[|actions|].outcome.resps;
    ReturnedIsComplete(states, actions, reqs, limit, workers);
    hide Execution;
    PermutationAnswersEach(resps, m.Keys);
    PositionMapSize(positions);
    hide PositionMap;
    if Rows(resps, m, prices).Ok? {
      RowsMeaning(resps, m, prices);
    }
  }

  /**
    With addresses of 42 characters and ticks in the range of the price conversion, the snapshot
    never panics; its rows are exactly those of the answered positions that hold something, and no
    position is stored twice.
   */
  lemma SnapshotIsExact(positions: seq<Position>, prices: Prices, reqs: seq<Req>,
                        states: seq<State>, actions: seq<Action>, limit: nat, workers: nat)
    requires multiset(Ids(reqs)) == multiset(PositionMap(positions).Keys)
    requires 0 < limit && Execution(states, actions, reqs, limit, workers)
    requires states[|actions|].outcome.Returned?
    requires forall p :: p in positions ==> |p.pool| == 42 && TicksInRange(p)
    ensures var m, resps := PositionMap(positions), states[|actions|].outcome.resps;
            && Rows(resps, m, prices).Ok?
            && |Rows(resps, m, prices).value| <= |positions|
            && RowsAreThose(Rows(resps, m, prices).value, resps, m, prices)
            && DistinctRows(Rows(resps, m, prices).value)
  {
    var m, resps := PositionMap(positions), states[|actions|].outcome.resps;
    hide Execution, Ids;
    forall key | key in m ensures KeyOf(m[key]) == key && |m[key].pool| == 42 && TicksInRange(m[key]) {
      EntryIsPosition(positions, key);
    }
    RowsFit(positions, prices, reqs, states, actions, limit, workers);
    hide PositionMap, TicksInRange, KeyOf, Rows, RowsAreThose, DistinctRows;
    RowsNeverPanic(resps, m, prices);
    RowsMeaning(resps, m, prices);
    RowsDistinct(resps, m, prices);
  }

  lemma {:induction false} DistinctCount(rows: seq<Row>, row: Row)
    requires DistinctRows(rows)
    ensures multiset(rows)[row] == if row in rows then 1 else 0
  {
    if rows != [] {
      var init, last := rows[..|rows| - 1], rows[|rows| - 1];
      assert rows == init + [last];
      DistinctCount(init, row);
    }
  }

  lemma SameAnswersSameRows(rows: seq<Row>, resps: seq<Resp>, rows': seq<Row>, resps': seq<Resp>,
                            m: map<string, Position>, prices: Prices)
    requires RowsAreThose(rows, resps, m, prices) && RowsAreThose(rows', resps', m, prices)
    requires DistinctRows(rows) && DistinctRows(rows')
    requires multiset(resps) == multiset(resps')
    ensures multiset(rows) == multiset(rows')
  {
    forall r: Resp ensures r in resps <==> r in resps' {
      assert r in multiset(resps) <==> r in multiset(resps');
    }
    hide RowOf, DistinctRows;
    forall row: Row ensures row in rows <==> row in rows' {
      if row in rows {
        assert Sourced(row, resps, m, prices);
      }
      if row in rows' {
        assert Sourced(row, resps', m, prices);
      }
    }
    hide RowsAreThose;
    forall row: Row ensures multiset(rows)[row] == multiset(rows')[row] {
      DistinctCount(rows, row);
      DistinctCount(rows', row);
    }
  }

  /**
    The interleaving, the batch limit and the number of workers do not matter: two returned fan-outs
    over the same positions to which the server gave the same answers store the same rows.
   */
  lemma InterleavingIrrelevant(positions: seq<Position>, prices: Prices,
                               reqs: seq<Req>, states: seq<State>, actions: seq<Action>, limit: nat, workers: nat,
                               reqs': seq<Req>, states': seq<State>, actions': seq<Action>, limit': nat, workers': nat)
    requires forall p :: p in positions ==> |p.pool| == 42 && TicksInRange(p)
    requires multiset(Ids(reqs)) == multiset(PositionMap(positions).Keys)
    requires 0 < limit && Execution(states, actions, reqs, limit, workers)
    requires multiset(Ids(reqs')) == multiset(PositionMap(positions).Keys)
    requires 0 < limit' && Execution(states', actions', reqs', limit', workers')
    requires states[|actions|].outcome.Returned? && states'[|actions'|].outcome.Returned?
    requires states[|actions|].served == states'[|actions'|].served
    ensures var m := PositionMap(positions);
            var rows, rows' := Rows(states[|actions|].outcome.resps, m, prices), Rows(states'[|actions'|].outcome.resps, m, prices);
            rows.Ok? && rows'.Ok? && multiset(rows.value) == multiset(rows'.value)
  {
    var m := PositionMap(positions);
    var resps, resps' := states[|actions|].outcome.resps, states'[|actions'|].outcome.resps;
    hide PositionMap, Ids, TicksInRange, Rows, RowsAreThose, DistinctRows, Execution;
    ReturnedIsComplete(states, actions, reqs, limit, workers);
    ReturnedIsComplete(states', actions', reqs', limit', workers');
    SnapshotIsExact(positions, prices, reqs, states, actions, limit, workers);
    SnapshotIsExact(positions, prices, reqs', states', actions', limit', workers');
    SameAnswersSameRows(Rows(resps, m, prices).value, resps, Rows(resps', m, prices).value, resps', m, prices);
  }
}
