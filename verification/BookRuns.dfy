/** What every run of swaps, adds and removes, by any number of portfolios, keeps. */
module BookRuns {
  import opened Numbers
  import opened Results
  import opened Sums
  import opened Sorting
  import opened Amounts
  import opened Amm
  import opened AmmRuns
  import opened Bookkeeping

  datatype Op =
    | DoSwap(w: string, tokenIn: string, tokenOut: string, amount: string, slippageBps: int)
    | DoAdd(w: string, token0: string, token1: string, amount0: string, amount1: string)
    | DoRemove(w: string, id: string, given: u64)

  /** One request; what a refused one leaves behind is what the source leaves in its portfolio cache. */
  function Perform(b: Books, op: Op): Books {
    var m := Wallet(b, op.w);
    match op
    case DoSwap(w, tokenIn, tokenOut, amount, slippageBps) =>
      (match SwapOn(b.pools, m, tokenIn, tokenOut, amount, slippageBps)
       case Failure(_) => b
       case Success(s) => Put(b, w, s.balances, s.pool))
    case DoAdd(w, token0, token1, amount0, amount1) =>
      (match AddTo(b.pools, m, token0, token1, amount0, amount1)
       case (Failure(_), left) => b.(wallets := b.wallets[w := left])
       case (Success(a), left) => Put(b, w, left, a.pool))
    case DoRemove(w, id, given) =>
      (match RemoveFrom(b.pools, m, id, given)
       case Failure(_) => b
       case Success(r) => Put(b, w, r.balances, r.pool))
  }

  function PerformAll(b: Books, ops: seq<Op>): Books
    decreases |ops|
  {
    if ops == [] then b else PerformAll(Perform(b, ops[0]), ops[1..])
  }

  // ----- the invariant -----

  /** A stored pool is filed under the id of its two tokens and is funded. */
  predicate PoolOk(id: string, p: PoolState) {
    Filed(id, p) && Funded(p)
  }

  predicate PoolsOk(b: Books) {
    forall id :: id in b.pools ==> PoolOk(id, b.pools[id])
  }

  /** What one request keeps of the pools: none lost, and no pool's share diluted. */
  predicate PoolsKept(b: Books, after: Books) {
    forall id :: id in b.pools ==> id in after.pools && NotDiluted(b.pools[id], after.pools[id])
  }

  function SharesOf(b: Books, id: string): nat {
    if id in b.pools then b.pools[id].shares else 0
  }

  ghost function LpHeld(b: Books, id: string): nat {
    Holdings(b, LpKey(id))
  }

  /** No more LP tokens of a pool are held anywhere than it has shares; of a pool not made, none. */
  ghost predicate LpBacked(b: Books) {
    forall a, c :: LpHeld(b, PoolID(a, c)) <= SharesOf(b, PoolID(a, c))
  }

  /** A token that is no pool's LP token. */
  ghost predicate Coin(k: string) {
    forall a, c :: k != LpKey(PoolID(a, c))
  }

  /** Nothing but LP tokens ever grows. */
  ghost predicate NoneCreated(b: Books, after: Books) {
    forall k :: Coin(k) ==> Holdings(after, k) <= Holdings(b, k)
  }

  /**
   * The pool a request works on moves the very tokens the request names: a check on the request and the
   * stored pool. SwapConserves and AddConserves say that otherwise tokens are not conserved.
   */
  predicate Matched(b: Books, op: Op) {
    var m := Wallet(b, op.w);
    match op
    case DoSwap(_, tokenIn, tokenOut, amount, slippageBps) =>
      (match SwapOn(b.pools, m, tokenIn, tokenOut, amount, slippageBps)
       case Failure(_) => true
       case Success(s) => SwapMatches(b.pools[PoolID(tokenIn, tokenOut)], tokenIn, tokenOut, s.out))
    case DoAdd(_, token0, token1, amount0, amount1) =>
      (match (ParsedAmount(amount0), ParsedAmount(amount1))
       case (Some(x0), Some(x1)) =>
         var (pool, t0, t1, a0, a1) := AddTarget(b.pools, token0, token1, x0, x1);
         AddTo(b.pools, m, token0, token1, amount0, amount1).0.Success? ==> AddMatches(pool, t0, t1, a0, a1)
       case _ => true)
    case DoRemove(_, _, _) => true
  }

  predicate AllMatched(b: Books, ops: seq<Op>)
    decreases |ops|
  {
    ops == [] || (Matched(b, ops[0]) && AllMatched(Perform(b, ops[0]), ops[1..]))
  }

  lemma {:induction false} LpKeysDiffer(i: string, j: string)
    requires i != j
    ensures LpKey(i) != LpKey(j)
  {
    assert LpKey(i)[3..] == i && LpKey(j)[3..] == j;
  }

  lemma {:induction false} NoneDiluted(b: Books)
    ensures PoolsKept(b, b)
  {
    hide NotDiluted;
    forall id | id in b.pools
      ensures NotDiluted(b.pools[id], b.pools[id])
    {
      NotDilutedReflexive(b.pools[id]);
    }
  }

  /** Storing a funded, undiluted pool keeps the store in shape. */
  lemma {:induction false} PutKeepsPools(b: Books, w: string, m: Balances, p: PoolState)
    requires PoolsOk(b) && PoolOk(p.id, p)
    requires p.id in b.pools ==> NotDiluted(b.pools[p.id], p)
    ensures PoolsOk(Put(b, w, m, p)) && PoolsKept(b, Put(b, w, m, p))
  {
    hide NotDiluted, Funded, PoolID;
    NoneDiluted(b);
  }

  // ----- swaps -----

  lemma {:induction false} FundedSwap(p: PoolState, tokenIn: string, a: u64)
    requires Funded(p) && QuoteSwap(p, tokenIn, a).Success?
    ensures var q := AfterSwap(p, tokenIn, a, QuoteSwap(p, tokenIn, a).value);
            Funded(q) && NotDiluted(p, q)
  {
    hide QuoteSwap, NotDiluted;
    SwapNotDiluted(p, tokenIn, a);
  }

  lemma {:induction false} SwapKeepsPools(b: Books, op: Op)
    requires op.DoSwap? && PoolsOk(b)
    requires SwapOn(b.pools, Wallet(b, op.w), op.tokenIn, op.tokenOut, op.amount, op.slippageBps).Success?
    ensures PoolsOk(Perform(b, op)) && PoolsKept(b, Perform(b, op))
  {
    hide QuoteSwap, ParsedAmount, PoolID, MinOut, Add64, NotDiluted, Funded, EqualFold;
    var id := PoolID(op.tokenIn, op.tokenOut);
    var s := SwapOn(b.pools, Wallet(b, op.w), op.tokenIn, op.tokenOut, op.amount, op.slippageBps).value;
    assert PoolOk(id, b.pools[id]);
    FundedSwap(b.pools[id], op.tokenIn, s.amountIn);
    PutKeepsPools(b, op.w, s.balances, s.pool);
  }

  /** A swap of the pool's own tokens creates nothing, LP tokens included, and mints no shares. */
  lemma {:induction false} SwapKeepsTokens(b: Books, op: Op)
    requires op.DoSwap? && PoolsOk(b) && Matched(b, op)
    requires SwapOn(b.pools, Wallet(b, op.w), op.tokenIn, op.tokenOut, op.amount, op.slippageBps).Success?
    ensures forall k :: Holdings(Perform(b, op), k) <= Holdings(b, k)
    ensures forall id :: SharesOf(Perform(b, op), id) == SharesOf(b, id)
  {
    hide Holdings, QuoteSwap, ParsedAmount, PoolID, MinOut, Add64, Funded, EqualFold, SwapMatches;
    assert PoolOk(PoolID(op.tokenIn, op.tokenOut), b.pools[PoolID(op.tokenIn, op.tokenOut)]);
    SwapConserves(b, op.w, op.tokenIn, op.tokenOut, op.amount, op.slippageBps);
  }

  // ----- adds -----

  /** The pool an add works on is the stored one, or a new one of the same id. */
  lemma {:induction false} AddTargetFits(b: Books, token0: string, token1: string, x0: u64, x1: u64)
    requires PoolsOk(b)
    ensures var (pool, t0, t1, a0, a1) := AddTarget(b.pools, token0, token1, x0, x1);
            && pool.id == PoolID(t0, t1) == PoolID(token0, token1) && Filed(pool.id, pool)
            && (if pool.id in b.pools then b.pools[pool.id] == pool && Funded(pool) else Empty(pool))
  {
    LeTotal(token0, token1);
    var id := PoolID(token0, token1);
    if id in b.pools {
      assert PoolOk(id, b.pools[id]);
    } else if Le(token0, token1) && Le(token1, token0) {
      LeAntisymmetric(token0, token1);
    }
  }

  lemma {:induction false} FundedAdd(p: PoolState, a0: u64, a1: u64)
    requires (Funded(p) || Empty(p)) && QuoteAdd(p, a0, a1).Success?
    ensures var q := AfterAdd(p, a0, a1, QuoteAdd(p, a0, a1).value);
            Funded(q) && (Funded(p) ==> NotDiluted(p, q))
  {
    hide NotDiluted;
    var q := AfterAdd(p, a0, a1, QuoteAdd(p, a0, a1).value);
    if Funded(p) {
      hide Sqrt, MulDiv;
      AddKeepsEachSide(p, a0, a1);
      EachSideKeptIsNotDiluted(p, q);
    } else {
      FirstMintFits(a0, a1);
    }
  }

  /** What a successful add on the books comes to. */
  lemma {:induction false} AddIsDeposit(b: Books, op: Op)
    requires op.DoAdd? && PoolsOk(b)
    requires AddTo(b.pools, Wallet(b, op.w), op.token0, op.token1, op.amount0, op.amount1).0.Success?
    ensures ParsedAmount(op.amount0).Some? && ParsedAmount(op.amount1).Some?
    ensures var (pool, t0, t1, a0, a1) :=
              AddTarget(b.pools, op.token0, op.token1, ParsedAmount(op.amount0).value, ParsedAmount(op.amount1).value);
            && QuoteAdd(pool, a0, a1).Success?
            && var shares := QuoteAdd(pool, a0, a1).value;
              var d := Deposit(pool, Wallet(b, op.w), t0, t1, a0, a1, shares);
              && d.0 == Success(Added(AfterAdd(pool, a0, a1, shares), shares))
              && Perform(b, op) == Put(b, op.w, d.1, AfterAdd(pool, a0, a1, shares))
  {
    hide QuoteAdd, ParsedAmount, PoolID, AddTarget, Add64;
  }

  lemma {:induction false} AddKeepsPools(b: Books, op: Op)
    requires op.DoAdd? && PoolsOk(b)
    requires AddTo(b.pools, Wallet(b, op.w), op.token0, op.token1, op.amount0, op.amount1).0.Success?
    ensures PoolsOk(Perform(b, op)) && PoolsKept(b, Perform(b, op))
  {
    hide QuoteAdd, ParsedAmount, PoolID, AddTarget, NotDiluted, Funded, Empty, AddTo, Perform, Deposit;
    AddIsDeposit(b, op);
    var (pool, t0, t1, a0, a1) :=
      AddTarget(b.pools, op.token0, op.token1, ParsedAmount(op.amount0).value, ParsedAmount(op.amount1).value);
    AddTargetFits(b, op.token0, op.token1, ParsedAmount(op.amount0).value, ParsedAmount(op.amount1).value);
    FundedAdd(pool, a0, a1);
    var shares := QuoteAdd(pool, a0, a1).value;
    var left := Deposit(pool, Wallet(b, op.w), t0, t1, a0, a1, shares).1;
    PutKeepsPools(b, op.w, left, AfterAdd(pool, a0, a1, shares));
  }

  lemma {:induction false} EmptyHasNothing(p: PoolState)
    ensures Empty(p) ==> p.reserve0 == 0 && p.reserve1 == 0 && p.shares == 0
  {
  }

  /** An add of the pool's own tokens moves nothing but its LP token, by at most the shares it mints. */
  lemma {:induction false} AddKeepsTokens(b: Books, op: Op)
    requires op.DoAdd? && PoolsOk(b) && Matched(b, op)
    requires AddTo(b.pools, Wallet(b, op.w), op.token0, op.token1, op.amount0, op.amount1).0.Success?
    ensures var id := PoolID(op.token0, op.token1);
            && (forall k :: k != LpKey(id) ==> Holdings(Perform(b, op), k) == Holdings(b, k))
            && LpHeld(Perform(b, op), id) - SharesOf(Perform(b, op), id) <= LpHeld(b, id) - SharesOf(b, id)
            && (forall i :: i != id ==> SharesOf(Perform(b, op), i) == SharesOf(b, i))
  {
    hide Holdings, QuoteAdd, ParsedAmount, PoolID, AddTarget, Funded, Empty, AddMatches, Deposit, LpKey, AddTo, Perform;
    AddIsDeposit(b, op);
    var (pool, t0, t1, a0, a1) :=
      AddTarget(b.pools, op.token0, op.token1, ParsedAmount(op.amount0).value, ParsedAmount(op.amount1).value);
    AddTargetFits(b, op.token0, op.token1, ParsedAmount(op.amount0).value, ParsedAmount(op.amount1).value);
    EmptyHasNothing(pool);
    AddConserves(b, op.w, pool, t0, t1, a0, a1, QuoteAdd(pool, a0, a1).value);
    var after := Perform(b, op);
    forall k | k != LpKey(pool.id)
      ensures Holdings(after, k) == Holdings(b, k)
    {
      assert Conserves(b, after, k);
    }
  }

  // ----- refused adds -----

  lemma {:induction false} LeftIsLess(pools: map<string, PoolState>, m: Balances, token0: string, token1: string,
                                      amount0: string, amount1: string)
    requires AddTo(pools, m, token0, token1, amount0, amount1).0.Failure?
    ensures var left := AddTo(pools, m, token0, token1, amount0, amount1).1;
            forall k :: Bal(left, k) <= Bal(m, k) && (k != token0 && k != token1 ==> Bal(left, k) == Bal(m, k))
  {
    hide ParsedAmount, QuoteAdd, PoolID;
  }

  /** A refused add at worst loses what it had deducted. */
  lemma {:induction false} RefusedAddKeeps(b: Books, op: Op)
    requires op.DoAdd?
    requires AddTo(b.pools, Wallet(b, op.w), op.token0, op.token1, op.amount0, op.amount1).0.Failure?
    ensures Perform(b, op).pools == b.pools
    ensures forall k :: Holdings(Perform(b, op), k) <= Holdings(b, k)
  {
    hide Holdings, QuoteAdd, ParsedAmount, PoolID;
    var m := Wallet(b, op.w);
    var left := AddTo(b.pools, m, op.token0, op.token1, op.amount0, op.amount1).1;
    LeftIsLess(b.pools, m, op.token0, op.token1, op.amount0, op.amount1);
    forall k
      ensures Holdings(Perform(b, op), k) == Holdings(b, k) - Bal(m, k) + Bal(left, k)
    {
      HoldingsOfWallet(b, op.w, left, k);
    }
  }

  // ----- removes -----

  lemma {:induction false} FundedRemove(p: PoolState, burn: nat)
    requires Funded(p) && 0 < burn < p.shares
    ensures Funded(AfterRemove(p, burn)) && NotDiluted(p, AfterRemove(p, burn))
  {
    hide NotDiluted, Redeem;
    RemoveKeepsEachSide(p, burn);
    EachSideKeptIsNotDiluted(p, AfterRemove(p, burn));
  }

  lemma {:induction false} RemoveKeepsPools(b: Books, op: Op)
    requires op.DoRemove? && PoolsOk(b)
    requires RemoveFrom(b.pools, Wallet(b, op.w), op.id, op.given).Success?
    ensures PoolsOk(Perform(b, op)) && PoolsKept(b, Perform(b, op))
  {
    hide Redeem, PoolID, Add64, Low64, NotDiluted, Funded;
    var p := b.pools[op.id];
    var r := RemoveFrom(b.pools, Wallet(b, op.w), op.id, op.given).value;
    assert PoolOk(op.id, p);
    FundedRemove(p, BurnOf(p, op.given));
    PutKeepsPools(b, op.w, r.balances, r.pool);
  }

  /** A remove creates nothing, and takes at least as many LP tokens as the shares it burns. */
  lemma {:induction false} RemoveKeepsTokens(b: Books, op: Op)
    requires op.DoRemove? && PoolsOk(b)
    requires RemoveFrom(b.pools, Wallet(b, op.w), op.id, op.given).Success?
    ensures forall k :: Holdings(Perform(b, op), k) <= Holdings(b, k)
    ensures LpHeld(Perform(b, op), op.id) - SharesOf(Perform(b, op), op.id) <= LpHeld(b, op.id) - SharesOf(b, op.id)
    ensures forall i :: i != op.id ==> SharesOf(Perform(b, op), i) == SharesOf(b, i)
  {
    hide Holdings, Redeem, PoolID, Add64, Low64, Funded, LpKey;
    assert PoolOk(op.id, b.pools[op.id]);
    RemoveConserves(b, op.w, op.id, op.given);
  }

  // ----- every request -----

  /** Every request, by anyone, naming any tokens, succeeding or not, keeps pools funded and undiluted. */
  lemma {:induction false} OpKeepsPools(b: Books, op: Op)
    requires PoolsOk(b)
    ensures PoolsOk(Perform(b, op)) && PoolsKept(b, Perform(b, op))
  {
    hide SwapOn, AddTo, RemoveFrom, PoolOk, NotDiluted;
    NoneDiluted(b);
    var after := Perform(b, op);
    if after != b {
      match op
      case DoSwap(_, _, _, _, _) => SwapKeepsPools(b, op);
      case DoRemove(_, _, _) => RemoveKeepsPools(b, op);
      case DoAdd(_, _, _, _, _) =>
        if AddTo(b.pools, Wallet(b, op.w), op.token0, op.token1, op.amount0, op.amount1).0.Success? {
          AddKeepsPools(b, op);
        }
    }
  }

  /** A request that names the tokens its pool moves creates no token but LP tokens. */
  lemma {:induction false} OpCreatesNone(b: Books, op: Op)
    requires PoolsOk(b) && Matched(b, op)
    ensures NoneCreated(b, Perform(b, op))
  {
    hide Holdings, SwapOn, AddTo, RemoveFrom, PoolID, PoolOk, LpKey, Matched;
    if Perform(b, op) != b {
      match op
      case DoSwap(_, _, _, _, _) => SwapKeepsTokens(b, op);
      case DoRemove(_, _, _) => RemoveKeepsTokens(b, op);
      case DoAdd(_, _, _, _, _) =>
        if AddTo(b.pools, Wallet(b, op.w), op.token0, op.token1, op.amount0, op.amount1).0.Success? {
          AddKeepsTokens(b, op);
        } else {
          RefusedAddKeeps(b, op);
        }
    }
  }

  // ----- the LP bound -----

  /**
   * A request cannot put LP tokens into the books that no add minted: it names the tokens its pool moves,
   * or those that it puts in are no LP tokens. Reversed adds, case twins and bar twins may be among them.
   */
  ghost predicate LpSafe(b: Books, op: Op) {
    Matched(b, op) ||
    match op
    case DoSwap(_, tokenIn, tokenOut, _, _) =>
      var id := PoolID(tokenIn, tokenOut);
      id in b.pools ==> Coin(PaidToken(b.pools[id], tokenIn)) && Coin(tokenOut)
    case DoAdd(_, token0, token1, _, _) =>
      var pool := AddTarget(b.pools, token0, token1, 0, 0).0;
      Coin(pool.token0) && Coin(pool.token1)
    case DoRemove(_, _, _) => true
  }

  ghost predicate LpSafeRun(b: Books, ops: seq<Op>)
    decreases |ops|
  {
    ops == [] || (LpSafe(b, ops[0]) && LpSafeRun(Perform(b, ops[0]), ops[1..]))
  }

  /** When only one pool's LP tokens and shares grow, and the tokens by no more than the shares. */
  lemma {:induction false} OneLpMoves(b: Books, after: Books, id: string)
    requires forall a, c :: PoolID(a, c) != id ==> LpHeld(after, PoolID(a, c)) <= LpHeld(b, PoolID(a, c))
    requires LpHeld(after, id) - SharesOf(after, id) <= LpHeld(b, id) - SharesOf(b, id)
    requires forall i :: i != id ==> SharesOf(after, i) == SharesOf(b, i)
    ensures LpBacked(b) ==> LpBacked(after)
  {
    hide Holdings, PoolID, SharesOf, LpKey;
    if LpBacked(b) {
      forall a, c
        ensures LpHeld(after, PoolID(a, c)) <= SharesOf(after, PoolID(a, c))
      {
        assert LpHeld(b, PoolID(a, c)) <= SharesOf(b, PoolID(a, c));
      }
    }
  }

  lemma {:induction false} SwapKeepsLp(b: Books, op: Op)
    requires op.DoSwap? && PoolsOk(b) && LpSafe(b, op)
    requires SwapOn(b.pools, Wallet(b, op.w), op.tokenIn, op.tokenOut, op.amount, op.slippageBps).Success?
    ensures forall a, c :: LpHeld(Perform(b, op), PoolID(a, c)) <= LpHeld(b, PoolID(a, c))
    ensures forall id :: SharesOf(Perform(b, op), id) == SharesOf(b, id)
  {
    hide Holdings, QuoteSwap, ParsedAmount, PoolID, MinOut, Add64, Funded, EqualFold, Matched, Gained, LpKey;
    if Matched(b, op) {
      SwapKeepsTokens(b, op);
    } else {
      var id := PoolID(op.tokenIn, op.tokenOut);
      assert PoolOk(id, b.pools[id]);
      forall a, c
        ensures LpHeld(Perform(b, op), PoolID(a, c)) <= LpHeld(b, PoolID(a, c))
      {
        HoldingsOfSwap(b, op.w, op.tokenIn, op.tokenOut, op.amount, op.slippageBps, LpKey(PoolID(a, c)));
      }
    }
  }

  lemma {:induction false} AddKeepsLp(b: Books, op: Op)
    requires op.DoAdd? && PoolsOk(b) && LpSafe(b, op)
    requires AddTo(b.pools, Wallet(b, op.w), op.token0, op.token1, op.amount0, op.amount1).0.Success?
    ensures LpBacked(b) ==> LpBacked(Perform(b, op))
  {
    hide Holdings, QuoteAdd, ParsedAmount, PoolID, AddTarget, Funded, Empty, Deposit, AddTo, Perform, Matched, Gained,
         LpKey, LpBacked;
    var id, after := PoolID(op.token0, op.token1), Perform(b, op);
    if Matched(b, op) {
      AddKeepsTokens(b, op);
      forall a, c | PoolID(a, c) != id
        ensures LpHeld(after, PoolID(a, c)) <= LpHeld(b, PoolID(a, c))
      {
        LpKeysDiffer(PoolID(a, c), id);
      }
    } else {
      AddIsDeposit(b, op);
      var (pool, t0, t1, a0, a1) :=
        AddTarget(b.pools, op.token0, op.token1, ParsedAmount(op.amount0).value, ParsedAmount(op.amount1).value);
      AddTargetFits(b, op.token0, op.token1, ParsedAmount(op.amount0).value, ParsedAmount(op.amount1).value);
      SameTarget(b, op.token0, op.token1, ParsedAmount(op.amount0).value, ParsedAmount(op.amount1).value);
      EmptyHasNothing(pool);
      var shares := QuoteAdd(pool, a0, a1).value;
      GainedIs(Bal(Wallet(b, op.w), LpKey(id)), shares);
      forall a, c
        ensures LpHeld(after, PoolID(a, c)) <= LpHeld(b, PoolID(a, c)) + If(PoolID(a, c) == id, shares)
      {
        if PoolID(a, c) != id {
          LpKeysDiffer(PoolID(a, c), id);
        }
        HoldingsOfAdd(b, op.w, pool, t0, t1, a0, a1, shares, LpKey(PoolID(a, c)));
      }
      assert LpHeld(after, id) <= LpHeld(b, id) + shares;
    }
    OneLpMoves(b, after, id);
  }

  /** Which pool an add works on does not depend on its amounts. */
  lemma {:induction false} SameTarget(b: Books, token0: string, token1: string, x0: u64, x1: u64)
    ensures AddTarget(b.pools, token0, token1, x0, x1).0 == AddTarget(b.pools, token0, token1, 0, 0).0
  {
  }

  lemma {:induction false} OpKeepsLp(b: Books, op: Op)
    requires PoolsOk(b) && LpSafe(b, op) && LpBacked(b)
    ensures LpBacked(Perform(b, op))
  {
    hide Holdings, SwapOn, AddTo, RemoveFrom, PoolID, PoolOk, LpKey, LpSafe;
    if Perform(b, op) != b {
      match op
      case DoSwap(_, _, _, _, _) => SwapKeepsLp(b, op);
      case DoRemove(_, _, _) =>
        RemoveKeepsTokens(b, op);
        OneLpMoves(b, Perform(b, op), op.id);
      case DoAdd(_, _, _, _, _) =>
        if AddTo(b.pools, Wallet(b, op.w), op.token0, op.token1, op.amount0, op.amount1).0.Success? {
          AddKeepsLp(b, op);
        } else {
          RefusedAddKeeps(b, op);
        }
    }
  }

  /** Over any run of such requests, no more LP tokens are held over all portfolios and pools than there are shares. */
  lemma {:induction false} RunKeepsLp(b: Books, ops: seq<Op>)
    requires PoolsOk(b) && LpSafeRun(b, ops) && LpBacked(b)
    ensures LpBacked(PerformAll(b, ops))
    decreases |ops|
  {
    hide LpBacked, PoolsOk, PoolsKept, Perform, LpSafe;
    if ops != [] {
      OpKeepsPools(b, ops[0]);
      OpKeepsLp(b, ops[0]);
      RunKeepsLp(Perform(b, ops[0]), ops[1..]);
    }
  }

  /** A check on the request alone: it names no LP token where it could put one in. */
  ghost predicate CoinOp(op: Op) {
    match op
    case DoSwap(_, _, tokenOut, _, _) => Coin(tokenOut)
    case DoAdd(_, token0, token1, _, _) => Coin(token0) && Coin(token1)
    case DoRemove(_, _, _) => true
  }

  ghost predicate CoinPools(b: Books) {
    forall id :: id in b.pools ==> Coin(b.pools[id].token0) && Coin(b.pools[id].token1)
  }

  lemma {:induction false} CoinOpIsSafe(b: Books, op: Op)
    requires CoinPools(b) && CoinOp(op)
    ensures LpSafe(b, op) && CoinPools(Perform(b, op))
  {
    hide Coin, PoolID, ParsedAmount, QuoteSwap, QuoteAdd, MinOut, Add64, Matched;
  }

  /**
   * Over any run of requests that name no LP tokens, whatever else they name, reversed adds, case twins
   * and bar twins included, LP tokens stay within the shares.
   */
  lemma {:induction false} CoinRunKeepsLp(b: Books, ops: seq<Op>)
    requires PoolsOk(b) && CoinPools(b) && LpBacked(b) && forall i :: 0 <= i < |ops| ==> CoinOp(ops[i])
    ensures LpBacked(PerformAll(b, ops))
  {
    CoinRunIsSafe(b, ops);
    RunKeepsLp(b, ops);
  }

  lemma {:induction false} CoinRunIsSafe(b: Books, ops: seq<Op>)
    requires CoinPools(b) && forall i :: 0 <= i < |ops| ==> CoinOp(ops[i])
    ensures LpSafeRun(b, ops)
    decreases |ops|
  {
    hide CoinPools, CoinOp, LpSafe, Perform;
    if ops != [] {
      CoinOpIsSafe(b, ops[0]);
      CoinRunIsSafe(Perform(b, ops[0]), ops[1..]);
    }
  }

  // ----- every run -----

  /** Over any run of requests at all, every stored pool stays funded and no pool's share is diluted. */
  lemma {:induction false} RunKeepsPools(b: Books, ops: seq<Op>)
    requires PoolsOk(b)
    ensures PoolsOk(PerformAll(b, ops)) && PoolsKept(b, PerformAll(b, ops))
    decreases |ops|
  {
    hide PoolOk, NotDiluted, Perform;
    if ops == [] {
      NoneDiluted(b);
    } else {
      var next := Perform(b, ops[0]);
      OpKeepsPools(b, ops[0]);
      RunKeepsPools(next, ops[1..]);
      KeptChains(b, next, PerformAll(b, ops));
    }
  }

  lemma {:induction false} KeptChains(b: Books, c: Books, d: Books)
    requires PoolsOk(c) && PoolsKept(b, c) && PoolsKept(c, d)
    ensures PoolsKept(b, d)
  {
    hide NotDiluted;
    forall id | id in b.pools
      ensures id in d.pools && NotDiluted(b.pools[id], d.pools[id])
    {
      assert PoolOk(id, c.pools[id]);
      NotDilutedTransitive(b.pools[id], c.pools[id], d.pools[id]);
    }
  }

  /**
   * Over any run of requests, by any portfolios and whether they succeed or not, in which each request
   * names the tokens its pool moves, no token but LP tokens is ever created.
   */
  lemma {:induction false} RunCreatesNone(b: Books, ops: seq<Op>)
    requires PoolsOk(b) && AllMatched(b, ops)
    ensures NoneCreated(b, PerformAll(b, ops))
    decreases |ops|
  {
    hide Holdings, PoolsOk, PoolsKept, Perform, Matched, Coin;
    if ops != [] {
      var next := Perform(b, ops[0]);
      OpKeepsPools(b, ops[0]);
      OpCreatesNone(b, ops[0]);
      RunCreatesNone(next, ops[1..]);
    }
  }

  /** Before anyone has LP tokens, the LP bound holds of any pools of coins: of the seeded ones too. */
  lemma {:induction false} SeedsAreBacked(b: Books)
    requires CoinPools(b)
    requires forall a, c, w :: w in b.wallets ==> Bal(b.wallets[w], LpKey(PoolID(a, c))) == 0
    ensures LpBacked(b)
  {
    hide PoolID, LpKey;
    forall a, c
      ensures LpHeld(b, PoolID(a, c)) == 0
    {
      var k := LpKey(PoolID(a, c));
      TotalOfZeros(WalletsOf(b, k));
      TotalOfZeros(ReservesOf(b, k));
    }
  }
}
