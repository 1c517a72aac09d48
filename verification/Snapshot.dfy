/**
  One snapshot: the active positions are indexed by key, one request is packed per key, and the
  responses are reconciled with the positions into four aligned columns.
 */
module Snapshot {
  import opened Outcomes
  import opened PositionKeys
  import TickMath
  import LiquidityAmounts
  import opened Batching
  import FanOut

  /** Ticks are big integers; one that the database leaves empty reads as zero. */
  datatype Position = Position(pool: string, id: int, lower: int, upper: int)

  datatype Pool = Pool(address: string, finalTick: int)

  datatype Row = Row(pool: string, id: int, amount0: int, amount1: int)

  datatype Option<T> = None | Some(value: T)

  datatype Table = Table(pools: seq<string>, ids: seq<int>, amount0s: seq<int>, amount1s: seq<int>)

  // --- Indexes ---------------------------------------------------------------------------------

  function KeyOf(p: Position): string
  {
    EncodeId(p.pool, p.id)
  }

  /** Every position under its key; a later position with the same key replaces an earlier one. */
  function PositionMap(positions: seq<Position>): map<string, Position>
  {
    if positions == [] then map[]
    else
      var last := positions[|positions| - 1];
      PositionMap(positions[..|positions| - 1])[KeyOf(last) := last]
  }

  method IndexPositions(positions: seq<Position>) returns (positionMap: map<string, Position>)
    ensures positionMap == PositionMap(positions)
  {
    positionMap := map[];
    for i := 0 to |positions|
      invariant positionMap == PositionMap(positions[..i])
    {
      assert positions[..i + 1][..i] == positions[..i];
      positionMap := positionMap[KeyOf(positions[i]) := positions[i]];
    }
    assert positions[..|positions|] == positions;
  }

  /** The current price of every pool under its lower-cased address. */
  function PoolPrices(pools: seq<Pool>): Outcome<map<string, nat>>
  {
    if pools == [] then Ok(map[])
    else
      var last := pools[|pools| - 1];
      var prices :- PoolPrices(pools[..|pools| - 1]);
      var price :- TickMath.SqrtRatioAtTick(last.finalTick);
      Ok(prices[Lower(last.address) := price])
  }

  method IndexPools(pools: seq<Pool>) returns (prices: Outcome<map<string, nat>>)
    ensures prices == PoolPrices(pools)
  {
    hide TickMath.SqrtRatioAtTick;
    var poolMap: map<string, nat> := map[];
    for i := 0 to |pools|
      invariant PoolPrices(pools[..i]) == Ok(poolMap)
    {
      assert pools[..i + 1][..i] == pools[..i];
      var price := TickMath.GetSqrtRatioAtTick(pools[i].finalTick);
      if price.Panic? {
        PanicStays(pools, i + 1);
        return Panic;
      }
      poolMap := poolMap[Lower(pools[i].address) := price.value];
    }
    assert pools[..|pools|] == pools;
    prices := Ok(poolMap);
  }

  lemma {:induction false} PanicStays(pools: seq<Pool>, k: nat)
    requires k <= |pools| && PoolPrices(pools[..k]).Panic?
    ensures PoolPrices(pools).Panic?
    decreases |pools| - k
  {
    if k == |pools| {
      assert pools[..k] == pools;
    } else {
      assert pools[..k + 1][..k] == pools[..k];
      PanicStays(pools, k + 1);
    }
  }

  /** Under a key stands the last position that has it, and no key is made up. */
  lemma {:induction false} PositionMapMeaning(positions: seq<Position>, key: string)
    ensures if key in PositionMap(positions)
            then exists i: nat :: LastUnder(positions, key, i) && PositionMap(positions)[key] == positions[i]
            else forall i :: 0 <= i < |positions| ==> KeyOf(positions[i]) != key
  {
    hide KeyOf;
    if positions != [] {
      var n := |positions| - 1;
      var init, last := positions[..n], positions[n];
      PositionMapMeaning(init, key);
      assert PositionMap(positions) == PositionMap(init)[KeyOf(last) := last];
      hide PositionMap;
      if KeyOf(last) == key {
        assert LastUnder(positions, key, n);
      } else if key in PositionMap(init) {
        var i: nat :| LastUnder(init, key, i) && PositionMap(init)[key] == init[i];
        LastStays(positions, key, i);
      } else {
        assert forall i :: 0 <= i < n ==> KeyOf(init[i]) == KeyOf(positions[i]);
      }
    }
  }

  lemma LastStays(positions: seq<Position>, key: string, i: nat)
    requires positions != [] && LastUnder(positions[..|positions| - 1], key, i) && KeyOf(positions[|positions| - 1]) != key
    ensures LastUnder(positions, key, i)
  {
    hide KeyOf;
    var init := positions[..|positions| - 1];
    assert forall j :: 0 <= j < |init| ==> init[j] == positions[j];
  }

  ghost predicate LastUnder(positions: seq<Position>, key: string, i: nat)
  {
    && i < |positions|
    && KeyOf(positions[i]) == key
    && forall j :: i < j < |positions| ==> KeyOf(positions[j]) != key
  }

  ghost predicate LastPool(pools: seq<Pool>, address: string, i: nat)
  {
    && i < |pools|
    && Lower(pools[i].address) == address
    && forall j :: i < j < |pools| ==> Lower(pools[j].address) != address
  }

  /**
    Under an address stands the price at the final tick of the last pool that has it, in lower case, and
    no address is made up.
   */
  lemma {:induction false} PoolPricesMeaning(pools: seq<Pool>, address: string)
    requires PoolPrices(pools).Ok?
    ensures var prices := PoolPrices(pools).value;
            if address in prices
            then exists i: nat :: LastPool(pools, address, i) && TickMath.SqrtRatioAtTick(pools[i].finalTick) == Ok(prices[address])
            else forall i :: 0 <= i < |pools| ==> Lower(pools[i].address) != address
  {
    hide TickMath.SqrtRatioAtTick, Lower;
    if pools != [] {
      var n := |pools| - 1;
      var init, last := pools[..n], pools[n];
      PoolPricesMeaning(init, address);
      var prices := PoolPrices(init).value;
      assert PoolPrices(pools).value == prices[Lower(last.address) := TickMath.SqrtRatioAtTick(last.finalTick).value];
      hide PoolPrices;
      if Lower(last.address) == address {
        assert LastPool(pools, address, n);
      } else if address in prices {
        var i: nat :| LastPool(init, address, i) && TickMath.SqrtRatioAtTick(init[i].finalTick) == Ok(prices[address]);
        LastPoolStays(pools, address, i);
      } else {
        assert forall i :: 0 <= i < n ==> init[i] == pools[i];
      }
    }
  }

  lemma LastPoolStays(pools: seq<Pool>, address: string, i: nat)
    requires pools != [] && LastPool(pools[..|pools| - 1], address, i) && Lower(pools[|pools| - 1].address) != address
    ensures LastPool(pools, address, i) && pools[i] == pools[..|pools| - 1][i]
  {
    hide Lower;
    var init := pools[..|pools| - 1];
    assert forall j :: 0 <= j < |init| ==> init[j] == pools[j];
  }

  lemma {:induction false} PositionMapSize(positions: seq<Position>)
    ensures |PositionMap(positions)| <= |positions|
  {
    if positions != [] {
      var init := positions[..|positions| - 1];
      PositionMapSize(init);
      var last := positions[|positions| - 1];
      assert PositionMap(positions).Keys == PositionMap(init).Keys + {KeyOf(last)};
    }
  }

  /** One request per key, in whatever order the map is walked. */
  method PackRpcPosData(positions: map<string, Position>) returns (req: array<Req>)
    ensures req.Length == |positions|
    ensures multiset(FanOut.Ids(req[..])) == multiset(positions.Keys)
  {
    hide FanOut.Ids;
    req := new Req[|positions|];
    var i := 0;
    var todo := positions.Keys;
    NoIds();
    while todo != {}
      invariant todo <= positions.Keys
      invariant 0 <= i <= req.Length && i + |todo| == req.Length
      invariant multiset(FanOut.Ids(req[..i])) == multiset(positions.Keys - todo)
      decreases |todo|
    {
      var k :| k in todo;
      req[i] := Req(k);
      assert req[..i + 1] == req[..i] + [Req(k)];
      OneMoreId(req[..i], k);
      assert positions.Keys - (todo - {k}) == (positions.Keys - todo) + {k};
      todo := todo - {k};
      i := i + 1;
    }
    assert req[..] == req[..i] && positions.Keys - todo == positions.Keys;
  }

  lemma NoIds()
    ensures FanOut.Ids([]) == []
  {
  }

  lemma OneMoreId(reqs: seq<Req>, k: string)
    ensures multiset(FanOut.Ids(reqs + [Req(k)])) == multiset(FanOut.Ids(reqs)) + multiset{k}
  {
    FanOut.IdsConcat(reqs, [Req(k)]);
    assert FanOut.Ids([Req(k)]) == [k];
  }

  // --- Reconciliation --------------------------------------------------------------------------

  /** big.Int.Quo of numerator and denominator: a rational truncated towards zero. */
  function Truncate(x: real): int
  {
    if x >= 0.0 then x.Floor else -((-x).Floor)
  }

  function PriceOf(prices: map<string, nat>, pool: string): LiquidityAmounts.Maybe
  {
    if pool in prices then LiquidityAmounts.Num(prices[pool]) else LiquidityAmounts.Nil
  }

  /** The row a position gets: none when it holds neither token. */
  function PositionRow(pos: Position, delta: int, prices: map<string, nat>): Outcome<Option<Row>>
  {
    var pool := Lower(pos.pool);
    var lower :- TickMath.SqrtRatioAtTick(pos.lower);
    var upper :- TickMath.SqrtRatioAtTick(pos.upper);
    var amounts :- LiquidityAmounts.GetAmountsForLiq(PriceOf(prices, pool), LiquidityAmounts.Num(lower),
                                                     LiquidityAmounts.Num(upper), LiquidityAmounts.Num(delta));
    var amount0, amount1 := Truncate(amounts.0), Truncate(amounts.1);
    Ok(if amount0 == 0 && amount1 == 0 then None else Some(Row(pool, pos.id, amount0, amount1)))
  }

  function RowOf(r: FanOut.Resp, positionMap: map<string, Position>, prices: map<string, nat>): Outcome<Option<Row>>
  {
    if r.key !in positionMap then Ok(None) else PositionRow(positionMap[r.key], r.delta, prices)
  }

  function Rows(resps: seq<FanOut.Resp>, positionMap: map<string, Position>, prices: map<string, nat>): Outcome<seq<Row>>
  {
    if resps == [] then Ok([])
    else
      var rows :- Rows(resps[..|resps| - 1], positionMap, prices);
      var row :- RowOf(resps[|resps| - 1], positionMap, prices);
      Ok(if row.None? then rows else rows + [row.value])
  }

  function Columns(rows: seq<Row>): Table
  {
    Table(seq(|rows|, i requires 0 <= i < |rows| => rows[i].pool), seq(|rows|, i requires 0 <= i < |rows| => rows[i].id),
          seq(|rows|, i requires 0 <= i < |rows| => rows[i].amount0), seq(|rows|, i requires 0 <= i < |rows| => rows[i].amount1))
  }

  lemma {:induction false} RowsPrefix(resps: seq<FanOut.Resp>, k: nat, positionMap: map<string, Position>, prices: map<string, nat>)
    requires k <= |resps|
    ensures Rows(resps, positionMap, prices).Ok? ==>
              && Rows(resps[..k], positionMap, prices).Ok?
              && |Rows(resps[..k], positionMap, prices).value| <= |Rows(resps, positionMap, prices).value|
    decreases |resps| - k
  {
    if k == |resps| {
      assert resps[..k] == resps;
    } else {
      RowsPrefix(resps, k + 1, positionMap, prices);
      assert resps[..k + 1][..k] == resps[..k];
    }
  }

  /** Entry `k` of the four columns is row `k`. */
  ghost predicate Aligned(table: Table, rows: seq<Row>)
  {
    && |table.pools| == |table.ids| == |table.amount0s| == |table.amount1s| == |rows|
    && forall k :: 0 <= k < |rows| ==> Row(table.pools[k], table.ids[k], table.amount0s[k], table.amount1s[k]) == rows[k]
  }

  lemma ColumnsAligned(rows: seq<Row>)
    ensures Aligned(Columns(rows), rows)
  {
  }

  lemma ColumnsAppend(rows: seq<Row>, row: Row)
    ensures var table := Columns(rows);
            Columns(rows + [row]) == Table(table.pools + [row.pool], table.ids + [row.id],
                                           table.amount0s + [row.amount0], table.amount1s + [row.amount1])
  {
  }

  lemma RowsStep(resps: seq<FanOut.Resp>, k: nat, positionMap: map<string, Position>, prices: map<string, nat>)
    requires k < |resps| && Rows(resps[..k], positionMap, prices).Ok?
    ensures var rows, row, next := Rows(resps[..k], positionMap, prices).value, RowOf(resps[k], positionMap, prices),
                                   Rows(resps[..k + 1], positionMap, prices);
            && next.Ok? == row.Ok?
            && (row.Ok? && row.value.None? ==> next.value == rows)
            && (row.Ok? && row.value.Some? ==> next.value == rows + [row.value.value])
  {
    assert resps[..k + 1][..k] == resps[..k];
    hide RowOf;
  }

  /** The row of one position, from the two bound prices and the two truncated amounts. */
  method ComputeRow(pos: Position, delta: int, prices: map<string, nat>) returns (row: Outcome<Option<Row>>)
    ensures row == PositionRow(pos, delta, prices)
  {
    hide TickMath.SqrtRatioAtTick, LiquidityAmounts.GetAmountsForLiq, PriceOf, Lower, Truncate;
    var poolAddr := Lower(pos.pool);
    var lowerPrice := TickMath.GetSqrtRatioAtTick(pos.lower);
    if lowerPrice.Panic? {
      return Panic;
    }
    var upperPrice := TickMath.GetSqrtRatioAtTick(pos.upper);
    if upperPrice.Panic? {
      return Panic;
    }
    var amounts := LiquidityAmounts.GetAmountsForLiq(PriceOf(prices, poolAddr), LiquidityAmounts.Num(lowerPrice.value),
                                                     LiquidityAmounts.Num(upperPrice.value), LiquidityAmounts.Num(delta));
    if amounts.Panic? {
      return Panic;
    }
    var amount0, amount1 := Truncate(amounts.value.0), Truncate(amounts.value.1);
    if amount0 == 0 && amount1 == 0 {
      return Ok(None);
    }
    return Ok(Some(Row(poolAddr, pos.id, amount0, amount1)));
  }

  /** The four preallocated arrays. */
  datatype Arrays = Arrays(pools: array<string>, ids: array<int>, amount0s: array<int>, amount1s: array<int>)
  {
    predicate Sized(n: nat)
    {
      && pools.Length == n
      && ids.Length == n
      && amount0s.Length == n
      && amount1s.Length == n
      && ids != amount0s
      && ids != amount1s
      && amount0s != amount1s
    }

    /** Up to the index the arrays are the columns of the rows. */
    ghost predicate Hold(n: nat, rows: seq<Row>)
      reads pools, ids, amount0s, amount1s
    {
      && Sized(n)
      && |rows| <= n
      && Table(pools[..|rows|], ids[..|rows|], amount0s[..|rows|], amount1s[..|rows|]) == Columns(rows)
    }
  }

  lemma HoldColumns(a: Arrays, n: nat, rows: seq<Row>)
    requires a.Hold(n, rows)
    ensures a.Sized(n) && |rows| <= n
    ensures Table(a.pools[..|rows|], a.ids[..|rows|], a.amount0s[..|rows|], a.amount1s[..|rows|]) == Columns(rows)
  {
  }

  /** Writes one row at the index of all four arrays. */
  method StoreRow(a: Arrays, i: nat, row: Row, ghost n: nat, ghost rows: seq<Row>)
    requires a.Hold(n, rows) && i == |rows| < n
    modifies a.pools, a.ids, a.amount0s, a.amount1s
    ensures a.Hold(n, rows + [row])
  {
    ColumnsAppend(rows, row);
    hide Columns;
    a.pools[i] := row.pool;
    a.ids[i] := row.id;
    a.amount0s[i] := row.amount0;
    a.amount1s[i] := row.amount1;
  }

  /**
    The reconciliation loop, writing four arrays of length `n` through one index. It panics exactly
    when a conversion panics or there are more rows than `n`, and otherwise the arrays up to the index
    are the columns of the rows.
   */
  method Reconcile(n: nat, positionMap: map<string, Position>, prices: map<string, nat>, resps: seq<FanOut.Resp>)
    returns (r: Outcome<Table>)
    ensures var rows := Rows(resps, positionMap, prices);
            r == if rows.Panic? || |rows.value| > n then Panic else Ok(Columns(rows.value))
    ensures r.Ok? ==> Aligned(r.value, Rows(resps, positionMap, prices).value)
  {
    var pools, ids := new string[n], new int[n];
    var amount0s, amount1s := new int[n], new int[n];
    var a := Arrays(pools, ids, amount0s, amount1s);
    var i := 0;
    ghost var rows: seq<Row> := [];
    assert a.Hold(n, rows) && Rows(resps[..0], positionMap, prices) == Ok(rows);
    hide Columns, PositionRow, Rows, Arrays.Hold;
    for k := 0 to |resps|
      invariant a == Arrays(pools, ids, amount0s, amount1s) && a.Hold(n, rows) && i == |rows| <= n
      invariant Rows(resps[..k], positionMap, prices) == Ok(rows)
    {
      RowsPrefix(resps, k + 1, positionMap, prices);
      RowsStep(resps, k, positionMap, prices);
      if resps[k].key !in positionMap {
        continue;
      }
      var row := ComputeRow(positionMap[resps[k].key], resps[k].delta, prices);
      if row.Panic? {
        return Panic;
      }
      if row.value.None? {
        continue;
      }
      if i >= n {
        return Panic;
      }
      StoreRow(a, i, row.value.value, n, rows);
      i, rows := i + 1, rows + [row.value.value];
    }
    assert resps[..|resps|] == resps;
    HoldColumns(a, n, rows);
    ColumnsAligned(rows);
    r := Ok(Table(a.pools[..i], a.ids[..i], a.amount0s[..i], a.amount1s[..i]));
  }
}
