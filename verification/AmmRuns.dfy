/**
 * What every run of swaps, adds and removes on one pool keeps.
 *
 * A run is any list of requests; a request the pool refuses changes nothing.
 */
module AmmRuns {
  import opened Numbers
  import opened Results
  import opened Amm

  // ----- one exact-in swap, as the reserve it leaves behind -----

  /** What is left of the paid-out reserve after one swap. */
  function LeftAfter(x: nat, y: nat, a: nat, fee: Bps): int
    requires 0 < x
  {
    y - AmountOut(x, y, a, fee)
  }

  /** The denominator of the exact-in formula. */
  function Denominator(x: nat, a: nat, fee: Bps): nat {
    x * BPS + a * (BPS - fee)
  }

  /** The reserve left behind is x * BPS * y / Denominator, rounded up. */
  lemma LeftAfterIsCeiling(x: nat, y: nat, a: nat, fee: Bps)
    requires 0 < x
    ensures 0 < Denominator(x, a, fee)
    ensures x * BPS * y <= LeftAfter(x, y, a, fee) * Denominator(x, a, fee)
    ensures (LeftAfter(x, y, a, fee) - 1) * Denominator(x, a, fee) < x * BPS * y
  {
    var g, d := a * (BPS - fee), Denominator(x, a, fee);
    var q := AmountOut(x, y, a, fee);
    MulDivFloor(g, y, d);
    assert y * d == x * BPS * y + g * y;
    assert (y - q) * d == y * d - q * d;
    assert (y - q - 1) * d == y * d - (q + 1) * d;
  }

  /** A swap pays the most that keeps the product of the reserves, counting only the input net of the fee. */
  lemma OutIsGreatest(x: nat, y: nat, a: nat, fee: Bps, out: nat)
    requires 0 < x && out <= y
    ensures out <= AmountOut(x, y, a, fee) <==> x * BPS * y <= (y - out) * Denominator(x, a, fee)
  {
    var g, d := a * (BPS - fee), Denominator(x, a, fee);
    MulDivIsGreatest(g, y, d, out);
    assert (y - out) * d == y * d - out * d;
    assert y * d == x * BPS * y + g * y;
  }

  lemma DenominatorsOfASplit(x: nat, a1: nat, a2: nat, fee: Bps)
    ensures Denominator(x, a1, fee) * Denominator(x + a1, a2, fee)
         <= (x + a1) * BPS * Denominator(x, a1 + a2, fee)
  {
    var f := BPS - fee;
    var u, v, w := (x + a1) * BPS, a1 * f, a2 * f;
    assert v <= a1 * BPS by { MulLe(f, BPS, a1); }
    var d1 := x * BPS + v;
    assert d1 <= u;
    assert d1 * (u + w) == d1 * u + d1 * w;
    assert u * (d1 + w) == u * d1 + u * w;
    MulLe(d1, u, w);
    assert (a1 + a2) * f == v + w;
  }

  /** Paying a1 and then a2 leaves the pool at least what paying a1 + a2 at once leaves. */
  lemma SplitInTwo(x: nat, y: nat, a1: nat, a2: nat, fee: Bps)
    requires 0 < x && 0 <= LeftAfter(x, y, a1, fee)
    ensures LeftAfter(x, y, a1 + a2, fee) <= LeftAfter(x + a1, LeftAfter(x, y, a1, fee), a2, fee)
  {
    hide LeftAfter, Denominator;
    var y1 := LeftAfter(x, y, a1, fee);
    var y2 := LeftAfter(x + a1, y1, a2, fee);
    var ys := LeftAfter(x, y, a1 + a2, fee);
    var d1, d2, ds := Denominator(x, a1, fee), Denominator(x + a1, a2, fee), Denominator(x, a1 + a2, fee);
    var k, u := x * BPS * y, (x + a1) * BPS;
    LeftAfterIsCeiling(x, y, a1, fee);
    LeftAfterIsCeiling(x + a1, y1, a2, fee);
    LeftAfterIsCeiling(x, y, a1 + a2, fee);
    DenominatorsOfASplit(x, a1, a2, fee);
    SplitInequality(y1, y2, ys, d1, d2, ds, k, u);
  }

  lemma SplitInequality(y1: nat, y2: int, ys: int, d1: nat, d2: nat, ds: nat, k: nat, u: nat)
    requires 0 < d1 && 0 < d2 && 0 < ds && 0 < u
    requires k <= y1 * d1 && u * y1 <= y2 * d2 && (ys - 1) * ds < k
    requires d1 * d2 <= u * ds
    ensures ys <= y2
  {
    assert 0 <= u * y1;
    if y2 < 0 {
      MulLe(y2, -1, d2);
    }
    // u * k <= u * y1 * d1 <= y2 * d2 * d1 <= y2 * u * ds
    MulLe(k, y1 * d1, u);
    assert u * (y1 * d1) == (u * y1) * d1;
    MulLe(u * y1, y2 * d2, d1);
    assert (y2 * d2) * d1 == y2 * (d1 * d2);
    MulLe(d1 * d2, u * ds, y2);
    assert y2 * (u * ds) == (y2 * ds) * u;
    assert k * u <= (y2 * ds) * u;
    MulLeCancel(k, y2 * ds, u);
    MulLtCancel(ys - 1, y2, ds);
  }

  // ----- splitting a swap -----

  function Sum(amounts: seq<u64>): nat {
    if amounts == [] then 0 else amounts[0] + Sum(amounts[1..])
  }

  /** A sequence of swaps in one direction: the total paid out if every one of them succeeds. */
  function SwapEach(p: PoolState, tokenIn: string, amounts: seq<u64>): Result<nat, AmmError>
    decreases |amounts|
  {
    if amounts == [] then Success(0)
    else
      match QuoteSwap(p, tokenIn, amounts[0])
      case Failure(e) => Failure(e)
      case Success(out) =>
        match SwapEach(AfterSwap(p, tokenIn, amounts[0], out), tokenIn, amounts[1..])
        case Failure(e) => Failure(e)
        case Success(rest) => Success(out + rest)
  }

  /** Splitting never pays: the parts together give at most the exact formula's output for the sum. */
  lemma {:induction false} SplittingNeverPays(p: PoolState, tokenIn: string, amounts: seq<u64>)
    requires SwapEach(p, tokenIn, amounts).Success?
    requires 0 < Sides(p, tokenIn).0
    ensures var (rin, rout) := Sides(p, tokenIn);
            SwapEach(p, tokenIn, amounts).value <= AmountOut(rin, rout, Sum(amounts), p.feeBps)
    decreases |amounts|
  {
    var (x, y) := Sides(p, tokenIn);
    if amounts != [] {
      var a, out := amounts[0], QuoteSwap(p, tokenIn, amounts[0]).value;
      var q := AfterSwap(p, tokenIn, a, out);
      SplittingNeverPays(q, tokenIn, amounts[1..]);
      assert Sides(q, tokenIn) == (x + a, y - out);
      SplitInTwo(x, y, a, Sum(amounts[1..]), p.feeBps);
    }
  }

  /** The same, against the swap a caller could have made instead. */
  lemma {:induction false} OneSwapBeatsItsParts(p: PoolState, tokenIn: string, amounts: seq<u64>, whole: u64)
    requires whole == Sum(amounts)
    requires SwapEach(p, tokenIn, amounts).Success? && QuoteSwap(p, tokenIn, whole).Success?
    ensures SwapEach(p, tokenIn, amounts).value <= QuoteSwap(p, tokenIn, whole).value
  {
    SplittingNeverPays(p, tokenIn, amounts);
  }

  // ----- runs of requests -----

  datatype Request =
    | SwapIn(tokenIn: string, amount: u64)
    | Add(amount0: u64, amount1: u64)
    | Remove(burn: u64)

  /** A lone trader's holdings; negative when the trader is out of pocket. */
  datatype Trader = Trader(held0: int, held1: int, lp: int)

  datatype Market = Market(pool: PoolState, trader: Trader)

  function Step(m: Market, r: Request): Market {
    var Market(p, t) := m;
    match r
    case SwapIn(tokenIn, a) =>
      (match QuoteSwap(p, tokenIn, a)
       case Failure(_) => m
       case Success(out) =>
         var p' := AfterSwap(p, tokenIn, a, out);
         if EqualFold(tokenIn, p.token0)
         then Market(p', t.(held0 := t.held0 - a, held1 := t.held1 + out))
         else Market(p', t.(held1 := t.held1 - a, held0 := t.held0 + out)))
    case Add(a0, a1) =>
      (match QuoteAdd(p, a0, a1)
       case Failure(_) => m
       case Success(mint) =>
         Market(AfterAdd(p, a0, a1, mint), Trader(t.held0 - a0, t.held1 - a1, t.lp + mint)))
    case Remove(given) =>
      var burn := BurnOf(p, given);
      if burn <= 0 then m
      else
        var (a0, a1) := Redeem(p, burn);
        Market(AfterRemove(p, burn), Trader(t.held0 + Low64(a0), t.held1 + Low64(a1), t.lp - given))
  }

  function Run(m: Market, rs: seq<Request>): Market
    decreases |rs|
  {
    if rs == [] then m else Run(Step(m, rs[0]), rs[1..])
  }

  predicate Funded(p: PoolState) {
    0 < p.shares && 0 < p.reserve0 && 0 < p.reserve1
  }

  predicate Empty(p: PoolState) {
    p.shares == 0 && p.reserve0 == 0 && p.reserve1 == 0
  }

  /** The invariant of a pool that started empty: shares never exceed the geometric mean of the reserves. */
  predicate Backed(p: PoolState) {
    p.shares * p.shares <= p.reserve0 * p.reserve1
  }

  /** Reserve product per squared share did not fall from p to q. */
  predicate NotDiluted(p: PoolState, q: PoolState) {
    p.reserve0 * p.reserve1 * (q.shares * q.shares) <= q.reserve0 * q.reserve1 * (p.shares * p.shares)
  }

  lemma NotDilutedReflexive(p: PoolState)
    ensures NotDiluted(p, p)
  {
  }

  lemma NotDilutedTransitive(p: PoolState, q: PoolState, r: PoolState)
    requires 0 < q.shares && NotDiluted(p, q) && NotDiluted(q, r)
    ensures NotDiluted(p, r)
  {
    CrossMultiply(p.reserve0 * p.reserve1, p.shares * p.shares, q.reserve0 * q.reserve1,
                  q.shares * q.shares, r.reserve0 * r.reserve1, r.shares * r.shares);
  }

  lemma CrossMultiply(k0: nat, s0: nat, k1: nat, s1: nat, k2: nat, s2: nat)
    requires 0 < s1 && k0 * s1 <= k1 * s0 && k1 * s2 <= k2 * s1
    ensures k0 * s2 <= k2 * s0
  {
    MulLe(k0 * s1, k1 * s0, s2);
    MulLe(k1 * s2, k2 * s1, s0);
    assert (k0 * s1) * s2 == (k0 * s2) * s1;
    assert (k1 * s0) * s2 == (k1 * s2) * s0;
    assert (k2 * s1) * s0 == (k2 * s0) * s1;
    MulLeCancel(k0 * s2, k2 * s0, s1);
  }

  /** A swap never lowers the product of the reserves. */
  lemma SwapKeepsProduct(x: nat, y: nat, a: nat, fee: Bps)
    requires 0 < x && 0 <= LeftAfter(x, y, a, fee)
    ensures x * y <= (x + a) * LeftAfter(x, y, a, fee)
  {
    var l, d := LeftAfter(x, y, a, fee), Denominator(x, a, fee);
    LeftAfterIsCeiling(x, y, a, fee);
    MulLe(BPS - fee, BPS, a);
    assert d <= (x + a) * BPS;
    MulLe(d, (x + a) * BPS, l);
    assert l * ((x + a) * BPS) == ((x + a) * l) * BPS;
    assert x * BPS * y == (x * y) * BPS;
    MulLeCancel(x * y, (x + a) * l, BPS);
  }

  /** Adding and removing keep each reserve's amount per share from falling. */
  predicate EachSideKept(p: PoolState, q: PoolState) {
    p.reserve0 * q.shares <= q.reserve0 * p.shares && p.reserve1 * q.shares <= q.reserve1 * p.shares
  }

  lemma EachSideKeptIsNotDiluted(p: PoolState, q: PoolState)
    requires EachSideKept(p, q)
    ensures NotDiluted(p, q)
  {
    var a, b, c, d := p.reserve0 * q.shares, q.reserve0 * p.shares, p.reserve1 * q.shares, q.reserve1 * p.shares;
    MulLe(a, b, c);
    MulLe(c, d, b);
    assert a * c == p.reserve0 * p.reserve1 * (q.shares * q.shares);
    assert b * d == q.reserve0 * q.reserve1 * (p.shares * p.shares);
  }

  lemma AddKeepsEachSide(p: PoolState, a0: u64, a1: u64)
    requires Funded(p) && QuoteAdd(p, a0, a1).Success?
    ensures EachSideKept(p, AfterAdd(p, a0, a1, QuoteAdd(p, a0, a1).value))
  {
    var m := QuoteAdd(p, a0, a1).value;
    MulDivFloor(a0, p.shares, p.reserve0);
    MulDivFloor(a1, p.shares, p.reserve1);
    MulLe(m, MulDiv(a0, p.shares, p.reserve0), p.reserve0);
    MulLe(m, MulDiv(a1, p.shares, p.reserve1), p.reserve1);
    assert p.reserve0 * (p.shares + m) == p.reserve0 * p.shares + m * p.reserve0;
    assert p.reserve1 * (p.shares + m) == p.reserve1 * p.shares + m * p.reserve1;
    assert (p.reserve0 + a0) * p.shares == p.reserve0 * p.shares + a0 * p.shares;
    assert (p.reserve1 + a1) * p.shares == p.reserve1 * p.shares + a1 * p.shares;
  }

  /** An add mints the most shares that keep both reserves' amounts per share. */
  lemma MintIsGreatest(p: PoolState, a0: u64, a1: u64, mint: nat)
    requires Funded(p)
    ensures mint <= MintFor(p, a0, a1) <==> EachSideKept(p, AfterAdd(p, a0, a1, mint))
  {
    hide MulDiv;
    MulDivIsGreatest(a0, p.shares, p.reserve0, mint);
    MulDivIsGreatest(a1, p.shares, p.reserve1, mint);
    assert p.reserve0 * (p.shares + mint) == p.reserve0 * p.shares + mint * p.reserve0;
    assert p.reserve1 * (p.shares + mint) == p.reserve1 * p.shares + mint * p.reserve1;
    assert (p.reserve0 + a0) * p.shares == p.reserve0 * p.shares + a0 * p.shares;
    assert (p.reserve1 + a1) * p.shares == p.reserve1 * p.shares + a1 * p.shares;
  }

  /** A remove redeems the most that keeps both reserves' amounts per share. */
  lemma RedeemIsGreatest(p: PoolState, burn: nat, a0: nat, a1: nat)
    requires 0 < burn < p.shares && a0 <= p.reserve0 && a1 <= p.reserve1
    ensures a0 <= Redeem(p, burn).0 && a1 <= Redeem(p, burn).1 <==>
            EachSideKept(p, p.(reserve0 := p.reserve0 - a0, reserve1 := p.reserve1 - a1, shares := p.shares - burn))
  {
    hide MulDiv;
    MulDivIsGreatest(burn, p.reserve0, p.shares, a0);
    MulDivIsGreatest(burn, p.reserve1, p.shares, a1);
    assert p.reserve0 * (p.shares - burn) == p.reserve0 * p.shares - burn * p.reserve0;
    assert p.reserve1 * (p.shares - burn) == p.reserve1 * p.shares - burn * p.reserve1;
    assert (p.reserve0 - a0) * p.shares == p.reserve0 * p.shares - a0 * p.shares;
    assert (p.reserve1 - a1) * p.shares == p.reserve1 * p.shares - a1 * p.shares;
  }

  lemma RemoveSide(r: nat, s: nat, b: nat)
    requires 0 < b < s
    ensures r * (s - b) <= (r - MulDiv(b, r, s)) * s
    ensures 0 < r ==> MulDiv(b, r, s) < r
  {
    hide MulDiv;
    MulDivFloor(b, r, s);
    var q := MulDiv(b, r, s);
    assert (r - q) * s == r * s - q * s;
    assert r * (s - b) == r * s - b * r;
    if 0 < r {
      MulLe(b + 1, s, r);
      MulLtCancel(q, r, s);
    }
  }

  lemma RemoveKeepsEachSide(p: PoolState, burn: nat)
    requires 0 < burn < p.shares
    ensures EachSideKept(p, AfterRemove(p, burn))
    ensures Funded(p) ==> Funded(AfterRemove(p, burn))
  {
    RemoveSide(p.reserve0, p.shares, burn);
    RemoveSide(p.reserve1, p.shares, burn);
  }

  /** Every request on a funded pool leaves it funded, and never dilutes a share. */
  lemma StepOnFunded(m: Market, r: Request)
    requires Funded(m.pool)
    ensures Funded(Step(m, r).pool) && NotDiluted(m.pool, Step(m, r).pool)
  {
    hide NotDiluted, EachSideKept, AmountOut, MintFor, MulDiv;
    NotDilutedReflexive(m.pool);
    var p, q := m.pool, Step(m, r).pool;
    match r
    case SwapIn(tokenIn, a) =>
      if QuoteSwap(p, tokenIn, a).Success? {
        SwapNotDiluted(p, tokenIn, a);
      }
    case Add(a0, a1) =>
      if QuoteAdd(p, a0, a1).Success? {
        AddKeepsEachSide(p, a0, a1);
        EachSideKeptIsNotDiluted(p, q);
      }
    case Remove(given) =>
      if 0 < BurnOf(p, given) {
        RemoveKeepsEachSide(p, BurnOf(p, given));
        EachSideKeptIsNotDiluted(p, q);
      }
  }

  lemma SwapNotDiluted(p: PoolState, tokenIn: string, a: u64)
    requires QuoteSwap(p, tokenIn, a).Success?
    ensures NotDiluted(p, AfterSwap(p, tokenIn, a, QuoteSwap(p, tokenIn, a).value))
  {
    hide AmountOut;
    var q := AfterSwap(p, tokenIn, a, QuoteSwap(p, tokenIn, a).value);
    var (x, y) := Sides(p, tokenIn);
    SwapKeepsProduct(x, y, a, p.feeBps);
    assert q.reserve0 * q.reserve1 == (x + a) * LeftAfter(x, y, a, p.feeBps);
    MulLe(p.reserve0 * p.reserve1, q.reserve0 * q.reserve1, p.shares * p.shares);
  }

  /** Whatever is requested, a funded pool stays funded and its reserve product per squared share never falls. */
  lemma {:induction false} RunOnFunded(m: Market, rs: seq<Request>)
    requires Funded(m.pool)
    ensures Funded(Run(m, rs).pool) && NotDiluted(m.pool, Run(m, rs).pool)
    decreases |rs|
  {
    if rs != [] {
      StepOnFunded(m, rs[0]);
      RunOnFunded(Step(m, rs[0]), rs[1..]);
      NotDilutedTransitive(m.pool, Step(m, rs[0]).pool, Run(m, rs).pool);
    }
  }

  lemma BackedSurvives(p: PoolState, q: PoolState)
    requires 0 < p.shares && Backed(p) && NotDiluted(p, q)
    ensures Backed(q)
  {
    var s, t := p.shares * p.shares, q.shares * q.shares;
    MulLe(s, p.reserve0 * p.reserve1, t);
    assert t * s <= q.reserve0 * q.reserve1 * s;
    MulLeCancel(t, q.reserve0 * q.reserve1, s);
  }

  /** The first mint is the rounded geometric mean, and fits a uint64. */
  lemma {:induction false} FirstMintFits(a0: u64, a1: u64)
    ensures Sqrt(a0 * a1) < TWO_64 && Sqrt(a0 * a1) * Sqrt(a0 * a1) <= a0 * a1
    ensures a0 != 0 && a1 != 0 ==> 0 < Sqrt(a0 * a1)
  {
    var s := Sqrt(a0 * a1);
    MulLe(a0, TWO_64 - 1, a1);
    MulLe(a1, TWO_64 - 1, TWO_64 - 1);
    if TWO_64 <= s {
      MulLe(TWO_64, s, s);
      MulLe(TWO_64, s, TWO_64);
    }
    if a0 != 0 && a1 != 0 {
      MulLe(1, a0, a1);
    }
  }

  /**
   * A pool created empty is, after any requests, either still empty or funded and backed; so a funded
   * reserve is never divided by zero, and an empty pool takes any add of two non-zero amounts.
   */
  predicate Grown(p: PoolState) {
    Empty(p) || (Funded(p) && Backed(p))
  }

  lemma StepFromEmpty(m: Market, r: Request)
    requires Grown(m.pool)
    ensures Grown(Step(m, r).pool)
    ensures Funded(m.pool) ==> Funded(Step(m, r).pool)
  {
    hide Step, NotDiluted, Backed;
    if Funded(m.pool) {
      StepOnFunded(m, r);
      BackedSurvives(m.pool, Step(m, r).pool);
    } else {
      StepOfEmpty(m, r);
    }
  }

  /** Only an add changes an empty pool, and it backs every share it mints. */
  lemma StepOfEmpty(m: Market, r: Request)
    requires Empty(m.pool)
    ensures Grown(Step(m, r).pool)
  {
    hide Sqrt, MulDiv, EqualFold;
    if r.Add? && QuoteAdd(m.pool, r.amount0, r.amount1).Success? {
      FirstAddIsBacked(m.pool, r.amount0, r.amount1);
    }
  }

  lemma FirstAddIsBacked(p: PoolState, a0: u64, a1: u64)
    requires Empty(p) && QuoteAdd(p, a0, a1).Success?
    ensures Grown(AfterAdd(p, a0, a1, QuoteAdd(p, a0, a1).value))
  {
    hide Sqrt;
    FirstMintFits(a0, a1);
    var s := Sqrt(a0 * a1);
    assert QuoteAdd(p, a0, a1) == Success(s) && 0 < s;
    assert 0 < s * s <= a0 * a1;
  }

  lemma {:induction false} RunFromEmpty(m: Market, rs: seq<Request>)
    requires Grown(m.pool)
    ensures Grown(Run(m, rs).pool)
    ensures Funded(m.pool) ==> Funded(Run(m, rs).pool)
    decreases |rs|
  {
    if rs != [] {
      StepFromEmpty(m, rs[0]);
      RunFromEmpty(Step(m, rs[0]), rs[1..]);
    }
  }

  /** On every pool grown from empty an add can fail only for zero amounts or a mint above uint64. */
  lemma {:induction false} AddNeverPanics(m: Market, rs: seq<Request>, a0: u64, a1: u64)
    requires Grown(m.pool)
    ensures var p := Run(m, rs).pool;
            match QuoteAdd(p, a0, a1)
            case Success(mint) => mint < TWO_64
            case Failure(e) => if p.shares == 0 then e == InsufficientAmounts && (a0 == 0 || a1 == 0)
                               else e == SharesOverflow
  {
    RunFromEmpty(m, rs);
    FirstMintFits(a0, a1);
  }

  // ----- no free lunch -----

  /** What a trader and the pool hold together never grows, and the pool burns no more than it is given. */
  predicate NothingCreated(m: Market, n: Market) {
    && n.trader.held0 + n.pool.reserve0 <= m.trader.held0 + m.pool.reserve0
    && n.trader.held1 + n.pool.reserve1 <= m.trader.held1 + m.pool.reserve1
    && n.trader.lp - m.trader.lp <= n.pool.shares - m.pool.shares
  }

  lemma StepCreatesNothing(m: Market, r: Request)
    ensures NothingCreated(m, Step(m, r))
  {
  }

  lemma {:induction false} RunCreatesNothing(m: Market, rs: seq<Request>)
    ensures NothingCreated(m, Run(m, rs))
    decreases |rs|
  {
    if rs != [] {
      StepCreatesNothing(m, rs[0]);
      RunCreatesNothing(Step(m, rs[0]), rs[1..]);
    }
  }

  /** With at least as many shares outstanding, an undiluted pool has at least its old product. */
  lemma ProductKept(p: PoolState, q: PoolState)
    requires Funded(p) && NotDiluted(p, q) && p.shares <= q.shares
    ensures p.reserve0 * p.reserve1 <= q.reserve0 * q.reserve1
  {
    var s, t := p.shares * p.shares, q.shares * q.shares;
    MulLe(p.shares, q.shares, p.shares);
    MulLe(p.shares, q.shares, q.shares);
    MulLe(s, t, p.reserve0 * p.reserve1);
    MulLeCancel(p.reserve0 * p.reserve1, q.reserve0 * q.reserve1, s);
  }

  /**
   * A lone trader who ends with at least the LP shares they started with has not taken a unit of one
   * token out without putting some of the other in.
   */
  lemma {:induction false} NoFreeLunch(m: Market, rs: seq<Request>)
    requires Funded(m.pool) && m.trader.lp <= Run(m, rs).trader.lp
    ensures var n := Run(m, rs);
            && (m.trader.held0 < n.trader.held0 ==> n.trader.held1 < m.trader.held1)
            && (m.trader.held1 < n.trader.held1 ==> n.trader.held0 < m.trader.held0)
  {
    var n := Run(m, rs);
    RunOnFunded(m, rs);
    RunCreatesNothing(m, rs);
    ProductKept(m.pool, n.pool);
    OneSideFallsOtherRises(m.pool.reserve0, m.pool.reserve1, n.pool.reserve0, n.pool.reserve1);
    OneSideFallsOtherRises(m.pool.reserve1, m.pool.reserve0, n.pool.reserve1, n.pool.reserve0);
  }

  lemma OneSideFallsOtherRises(x: nat, y: nat, x': nat, y': nat)
    requires 0 < y && x * y <= x' * y'
    ensures x' < x ==> y < y'
  {
    if x' < x && y' <= y {
      MulLe(y', y, x');
      MulLe(x' + 1, x, y);
    }
  }

  /** Swapping and swapping the output back returns at most the input. */
  lemma SwapAndBack(p: PoolState, tokenIn: string, back: string, a: u64)
    requires QuoteSwap(p, tokenIn, a).Success?
    requires EqualFold(tokenIn, p.token0) != EqualFold(back, p.token0)
    ensures var out := QuoteSwap(p, tokenIn, a).value;
            var r := QuoteSwap(AfterSwap(p, tokenIn, a, out), back, out);
            r.Success? ==> r.value <= a
  {
    // a swap neither reads nor moves the shares
    var owned := p.(shares := 1);
    var m := Market(owned, Trader(0, 0, 0));
    var out := QuoteSwap(p, tokenIn, a).value;
    assert QuoteSwap(owned, tokenIn, a) == Success(out);
    assert AfterSwap(owned, tokenIn, a, out) == AfterSwap(p, tokenIn, a, out).(shares := 1);
    var rs := [SwapIn(tokenIn, a), SwapIn(back, out)];
    assert Run(m, rs) == Step(Step(m, rs[0]), rs[1]) by {
      assert rs[1..] == [rs[1]];
      assert Run(Step(m, rs[0]), rs[1..]) == Run(Step(Step(m, rs[0]), rs[1]), rs[1..][1..]);
    }
    NoFreeLunch(m, rs);
  }

  /** Whatever is added, removing the shares it minted redeems at most the deposit. */
  ghost predicate RefundsAtMostTheDeposit(p: PoolState) {
    forall a0: u64, a1: u64 :: QuoteAdd(p, a0, a1).Success? ==> RefundAtMost(p, a0, a1)
  }

  predicate RefundAtMost(p: PoolState, a0: u64, a1: u64)
    requires QuoteAdd(p, a0, a1).Success?
  {
    var mint := QuoteAdd(p, a0, a1).value;
    var q := AfterAdd(p, a0, a1, mint);
    0 < BurnOf(q, mint) ==> Redeem(q, BurnOf(q, mint)).0 <= a0 && Redeem(q, BurnOf(q, mint)).1 <= a1
  }

  /** The same of what is paid out, which is cut to 64 bits. */
  ghost predicate PaysAtMostTheDeposit(p: PoolState) {
    forall a0: u64, a1: u64 :: QuoteAdd(p, a0, a1).Success? ==> PayAtMost(p, a0, a1)
  }

  predicate PayAtMost(p: PoolState, a0: u64, a1: u64)
    requires QuoteAdd(p, a0, a1).Success?
  {
    var mint := QuoteAdd(p, a0, a1).value;
    var q := AfterAdd(p, a0, a1, mint);
    0 < BurnOf(q, mint) ==>
      Low64(Redeem(q, BurnOf(q, mint)).0) <= a0 && Low64(Redeem(q, BurnOf(q, mint)).1) <= a1
  }

  /**
   * Adding and removing again never redeems more than was added exactly when the pool has shareholders or
   * nothing worth taking: reserves without shares go to whoever adds first. While reserves fit 64 bits the
   * same is true of the amounts paid out.
   */
  lemma AddThenRemove(p: PoolState)
    ensures RefundsAtMostTheDeposit(p) <==> p.shares != 0 || (p.reserve0 <= 1 && p.reserve1 <= 1)
    ensures RefundsAtMostTheDeposit(p) ==> PaysAtMostTheDeposit(p)
    ensures p.reserve0 < TWO_64 && p.reserve1 < TWO_64 ==>
              (PaysAtMostTheDeposit(p) <==> p.shares != 0 || (p.reserve0 <= 1 && p.reserve1 <= 1))
  {
    hide QuoteAdd, RefundAtMost, PayAtMost;
    if p.shares != 0 || (p.reserve0 <= 1 && p.reserve1 <= 1) {
      forall a0: u64, a1: u64 | QuoteAdd(p, a0, a1).Success?
        ensures RefundAtMost(p, a0, a1) && PayAtMost(p, a0, a1)
      {
        RefundBounded(p, a0, a1);
        PaidIsRedeemed(p, a0, a1);
      }
    } else if 1 < p.reserve0 {
      OwnerlessReserveLeaks(p, 1, 9);
    } else {
      OwnerlessReserveLeaks(p, 9, 1);
    }
  }

  lemma PaidIsRedeemed(p: PoolState, a0: u64, a1: u64)
    requires QuoteAdd(p, a0, a1).Success? && RefundAtMost(p, a0, a1)
    ensures PayAtMost(p, a0, a1)
  {
    hide QuoteAdd, MulDiv;
  }

  lemma RefundBounded(p: PoolState, a0: u64, a1: u64)
    requires p.shares != 0 || (p.reserve0 <= 1 && p.reserve1 <= 1)
    requires QuoteAdd(p, a0, a1).Success?
    ensures RefundAtMost(p, a0, a1)
  {
    var mint := QuoteAdd(p, a0, a1).value;
    var q := AfterAdd(p, a0, a1, mint);
    var burn := BurnOf(q, mint);
    if 0 < burn {
      RedeemWithinReserves(q, burn);
      RemoveKeepsEachSide(q, burn);
      if p.shares != 0 {
        AddKeepsEachSide(p, a0, a1);
        ThereAndBackOnOneSide(p.reserve0, p.shares, q.reserve0, q.shares, AfterRemove(q, burn).reserve0);
        ThereAndBackOnOneSide(p.reserve1, p.shares, q.reserve1, q.shares, AfterRemove(q, burn).reserve1);
      } else {
        RemoveSide(q.reserve0, q.shares, burn);
        RemoveSide(q.reserve1, q.shares, burn);
      }
    }
  }

  lemma ThereAndBackOnOneSide(r: nat, s: nat, r1: nat, s1: nat, r2: nat)
    requires 0 < s && 0 < s1 && r * s1 <= r1 * s && r1 * s <= r2 * s1
    ensures r <= r2
  {
    MulLeCancel(r, r2, s1);
  }

  lemma OwnerlessReserveLeaks(p: PoolState, a0: u64, a1: u64)
    requires p.shares == 0
    requires (a0 == 1 && a1 == 9 && 1 < p.reserve0) || (a0 == 9 && a1 == 1 && 1 < p.reserve1)
    ensures QuoteAdd(p, a0, a1) == Success(3) && !RefundAtMost(p, a0, a1)
    ensures p.reserve0 < TWO_64 && p.reserve1 < TWO_64 ==> !PayAtMost(p, a0, a1)
  {
    SqrtIsUnique(Sqrt(9), 3, 9);
    assert Redeem(AfterAdd(p, a0, a1, 3), 2) == (2 * (p.reserve0 + a0) / 3, 2 * (p.reserve1 + a1) / 3);
  }

  lemma SqrtIsUnique(s: nat, t: nat, n: nat)
    requires IsSqrt(s, n) && IsSqrt(t, n)
    ensures s == t
  {
    if s < t {
      MulLe(s + 1, t, s + 1);
      MulLe(s + 1, t, t);
    } else if t < s {
      MulLe(t + 1, s, t + 1);
      MulLe(t + 1, s, s);
    }
  }
}
