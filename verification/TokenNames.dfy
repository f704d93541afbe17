/**
 * Token names for which every request works on its own tokens: no bar, not equal up to case, adds in order.
 * Bookkeeping.CaseTwinSwap, BarTwinAdd and AddConserves say what happens otherwise.
 */
module TokenNames {
  import opened Numbers
  import opened Text
  import opened Sorting
  import opened Amounts
  import opened Amm
  import opened AmmRuns
  import opened Bookkeeping
  import opened BookRuns

  predicate BarFree(t: string) {
    '|' !in t
  }

  /** Two tokens that case folding does not confuse. */
  predicate FoldApart(t: string, u: string) {
    (EqualFold(t, u) || EqualFold(u, t)) ==> t == u
  }

  predicate PlainPair(t: string, u: string) {
    BarFree(t) && BarFree(u) && FoldApart(t, u)
  }

  predicate PlainPools(b: Books) {
    forall id :: id in b.pools ==>
      PlainPair(b.pools[id].token0, b.pools[id].token1) && Le(b.pools[id].token0, b.pools[id].token1)
  }

  /** A check on the request alone. */
  predicate PlainOp(op: Op) {
    match op
    case DoSwap(_, tokenIn, tokenOut, _, _) => BarFree(tokenIn) && BarFree(tokenOut)
    case DoAdd(_, t0, t1, _, _) => PlainPair(t0, t1) && Le(t0, t1)
    case DoRemove(_, _, _) => true
  }

  /** The pool id of two bar-free tokens determines them, up to order. */
  lemma {:induction false} PoolIDIsInjective(a: string, b: string, a': string, b': string)
    requires BarFree(a) && BarFree(b) && BarFree(a') && BarFree(b')
    requires PoolID(a, b) == PoolID(a', b')
    ensures (a == a' && b == b') || (a == b' && b == a')
  {
    var (x, y) := if !Le(a, b) then (b, a) else (a, b);
    var (x', y') := if !Le(a', b') then (b', a') else (a', b');
    FirstSeparatorIsUnique(x, y, x', y', '|');
  }

  lemma {:induction false} BarFreeIsCoin(t: string)
    requires BarFree(t)
    ensures Coin(t)
  {
    forall a, c
      ensures LpKey(PoolID(a, c)) != t
    {
      assert '|' in PoolID(a, c);
    }
  }

  lemma {:induction false} PlainSwapMatches(p: PoolState, tokenIn: string, tokenOut: string, out: u64)
    requires PlainPair(p.token0, p.token1) && BarFree(tokenIn) && BarFree(tokenOut)
    requires PoolID(tokenIn, tokenOut) == PoolID(p.token0, p.token1)
    ensures SwapMatches(p, tokenIn, tokenOut, out)
  {
    hide PoolID;
    PoolIDIsInjective(tokenIn, tokenOut, p.token0, p.token1);
    EqualFoldReflexive(tokenIn);
  }

  lemma {:induction false} PlainAddMatches(b: Books, token0: string, token1: string, x0: u64, x1: u64)
    requires PoolsOk(b) && PlainPools(b) && PlainPair(token0, token1) && Le(token0, token1)
    ensures var (pool, t0, t1, a0, a1) := AddTarget(b.pools, token0, token1, x0, x1);
            && AddMatches(pool, t0, t1, a0, a1)
            && PlainPair(pool.token0, pool.token1) && Le(pool.token0, pool.token1)
  {
    hide FoldApart;
    var id := PoolID(token0, token1);
    if id in b.pools {
      assert PoolOk(id, b.pools[id]);
      PoolIDIsInjective(token0, token1, b.pools[id].token0, b.pools[id].token1);
      if token0 == b.pools[id].token1 {
        LeAntisymmetric(b.pools[id].token0, b.pools[id].token1);
      }
    }
  }

  /** Requests with such names work on their own tokens, and only pools of such names are made. */
  lemma {:induction false} PlainOpMatches(b: Books, op: Op)
    requires PoolsOk(b) && PlainPools(b) && PlainOp(op)
    ensures Matched(b, op) && PlainPools(Perform(b, op))
  {
    hide PlainPair, Le, PoolID, ParsedAmount, QuoteSwap, QuoteAdd, MinOut, AddTarget, AddMatches, SwapMatches, Funded;
    match op
    case DoSwap(_, tokenIn, tokenOut, amount, slippageBps) =>
      var r := SwapOn(b.pools, Wallet(b, op.w), tokenIn, tokenOut, amount, slippageBps);
      if r.Success? {
        var id := PoolID(tokenIn, tokenOut);
        assert PoolOk(id, b.pools[id]);
        PlainSwapMatches(b.pools[id], tokenIn, tokenOut, r.value.out);
      }
    case DoAdd(_, token0, token1, amount0, amount1) =>
      if ParsedAmount(amount0).Some? && ParsedAmount(amount1).Some? {
        PlainAddMatches(b, token0, token1, ParsedAmount(amount0).value, ParsedAmount(amount1).value);
      }
    case DoRemove(_, _, _) =>
  }

  lemma {:induction false} PlainRunMatches(b: Books, ops: seq<Op>)
    requires PoolsOk(b) && PlainPools(b) && forall i :: 0 <= i < |ops| ==> PlainOp(ops[i])
    ensures AllMatched(b, ops)
    decreases |ops|
  {
    hide PoolsOk, PlainPools, PlainOp, Matched, Perform, PoolsKept;
    if ops != [] {
      PlainOpMatches(b, ops[0]);
      OpKeepsPools(b, ops[0]);
      PlainRunMatches(Perform(b, ops[0]), ops[1..]);
    }
  }
}
