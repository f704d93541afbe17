/** One real request for each way in which the bookkeeping loses or creates tokens. */
module LostTokens {
  import opened Results
  import opened Sums
  import Text
  import Sorting
  import opened Amounts
  import opened Amm
  import opened AmmRuns
  import opened Bookkeeping
  import opened BookRuns
  import opened TokenNames
  import opened Conservation

  /** One pool with 10 of each token and 10 shares, and one portfolio. */
  function OnePool(t: string, u: string, m: Balances): Books {
    var p := PoolState(PoolID(t, u), t, u, 10, 10, 10, DEFAULT_FEE_BPS);
    Books(map[p.id := p], map["w" := m])
  }

  lemma SmallAmounts()
    ensures ParsedAmount("0.00000001") == Some(1) && ParsedAmount("0.00000002") == Some(2)
  {
    hide ParsedAmount;
    assert NumericPart(1) == "0.00000001" && NumericPart(2) == "0.00000002" by {
      assert Text.Repeat('0', 7) == "0000000";
    }
    ParseInvertsFormat(1);
    ParseInvertsFormat(2);
  }

  /** Adding 2 b and 1 a to the pool of a and b gives the pool 2 a and 1 b. */
  lemma {:induction false} ReversedAdd()
    ensures var b := OnePool("a", "b", map["a" := 5, "b" := 5]);
            var after := Perform(b, DoAdd("w", "b", "a", "0.00000002", "0.00000001"));
            && PoolsOk(b)
            && Holdings(after, "a") == Holdings(b, "a") + 1 && Holdings(after, "b") == Holdings(b, "b") - 1
  {
    hide ParsedAmount, Holdings;
    SmallAmounts();
    assert Sorting.Le("a", "b") && !Sorting.Le("b", "a");
    var m: Balances := map["a" := 5, "b" := 5];
    var b := OnePool("a", "b", m);
    assert PoolID("a", "b") == "a" + "|" + "b" == PoolID("b", "a");
    var p := b.pools[PoolID("a", "b")];
    assert QuoteAdd(p, 2, 1) == Success(1);
    assert AddTarget(b.pools, "b", "a", 2, 1) == (p, "b", "a", 2, 1);
    HoldingsOfAdd(b, "w", p, "b", "a", 2, 1, 1, "a");
    HoldingsOfAdd(b, "w", p, "b", "a", 2, 1, 1, "b");
  }

  /** An add of a and of b that is not there takes the a and makes no pool. */
  lemma {:induction false} LostDeposit()
    ensures var b := Books(map[], map["w" := map["a" := 1]]);
            var op := DoAdd("w", "a", "b", "0.00000001", "0.00000001");
            && PoolsOk(b) && PlainOp(op) && LosesDeposit(b, op)
            && AddTo(b.pools, Wallet(b, "w"), "a", "b", "0.00000001", "0.00000001").0 == Failure(InsufficientBalance)
            && Holdings(Perform(b, op), "a") == Holdings(b, "a") - 1
  {
    hide ParsedAmount, Holdings, Coin;
    SmallAmounts();
    assert Sorting.Le("a", "b");
    BarFreeIsCoin("a");
    var m: Balances := map["a" := 1];
    var b := Books(map[], map["w" := m]);
    SqrtIsUnique(Sqrt(1), 1, 1);
    HoldingsOfWallet(b, "w", m["a" := 0], "a");
  }

  /** Swapping 2 a for A is booked as paying in A: the A grow by 3, and 3 a are gone. */
  lemma {:induction false} CaseTwins()
    ensures var b := OnePool("A", "a", map["a" := 5]);
            var after := Perform(b, DoSwap("w", "a", "A", "0.00000002", 0));
            && PoolsOk(b)
            && Holdings(after, "A") == Holdings(b, "A") + 3 && Holdings(after, "a") == Holdings(b, "a") - 3
  {
    hide ParsedAmount, Holdings;
    SmallAmounts();
    assert Sorting.Le("A", "a") && !Sorting.Le("a", "A");
    var b := OnePool("A", "a", map["a" := 5]);
    assert PoolID("A", "a") == "A" + "|" + "a" == PoolID("a", "A");
    assert EqualFold("a", "A");
    assert QuoteSwap(b.pools[PoolID("A", "a")], "a", 2) == Success(1);
    CaseTwinSwap(b, "w", "a", "A", "0.00000002", 0);
  }

  /** Adding a and b|c to the pool of a|b and c, which has the same id, puts in a|b and c from nowhere. */
  lemma {:induction false} BarTwins()
    ensures var b := OnePool("a|b", "c", map["a" := 5, "b|c" := 5]);
            var after := Perform(b, DoAdd("w", "a", "b|c", "0.00000001", "0.00000001"));
            && PoolsOk(b)
            && Holdings(after, "a") == Holdings(b, "a") - 1 && Holdings(after, "b|c") == Holdings(b, "b|c") - 1
            && Holdings(after, "a|b") == Holdings(b, "a|b") + 1 && Holdings(after, "c") == Holdings(b, "c") + 1
  {
    hide ParsedAmount, Holdings;
    SmallAmounts();
    var m: Balances := map["a" := 5, "b|c" := 5];
    var b := OnePool("a|b", "c", m);
    BarsCollide();
    var p := b.pools[PoolID("a|b", "c")];
    assert QuoteAdd(p, 1, 1) == Success(1);
    assert AddTarget(b.pools, "a", "b|c", 1, 1) == (p, "a", "b|c", 1, 1);
    assert "a" != "b|c" && "a|b" != "c" && "a" != "a|b";
    BarTwinAdd(b, "w", p, "a", "b|c", 1, 1, 1);
  }

  // ----- LP tokens in a pool -----

  /** A pool of a and b with 11 shares, and a pool of its LP token and z that holds 10 of the 11 LP tokens. */
  function LpPool(): Books {
    var p := PoolState(PoolID("a", "b"), "a", "b", 10, 10, 11, DEFAULT_FEE_BPS);
    var q := PoolState(PoolID("lp:a|b", "z"), "lp:a|b", "z", 10, 10, 10, DEFAULT_FEE_BPS);
    Books(map[p.id := p, q.id := q], map["w" := map["lp:a|b" := 1, "z" := 5]])
  }

  lemma PoolNames()
    ensures PoolID("a", "b") == "a|b" && LpKey("a|b") == "lp:a|b"
    ensures PoolID("lp:a|b", "z") == PoolID("z", "lp:a|b") == "lp:a|b|z"
  {
    assert Sorting.Le("a", "b") && Sorting.Le("lp:a|b", "z") && !Sorting.Le("z", "lp:a|b");
    assert "a" + "|" + "b" == "a|b" && "lp:a|b" + "|" + "z" == "lp:a|b|z";
  }

  lemma {:induction false} ElevenHeld()
    ensures LpHeld(LpPool(), "a|b") == 11
  {
    PoolNames();
    var b, k := LpPool(), "lp:a|b";
    TotalUpdate(map[], "w", 1);
    assert WalletsOf(b, k) == map[]["w" := 1];
    TotalUpdate(map[], "a|b", 0);
    TotalUpdate(map["a|b" := 0], "lp:a|b|z", 10);
    assert map[]["a|b" := 0] == map["a|b" := 0];
    assert ReservesOf(b, k) == map["a|b" := 0]["lp:a|b|z" := 10];
  }

  lemma {:induction false} LpPoolIsOk()
    ensures PoolsOk(LpPool())
  {
    PoolNames();
  }

  lemma {:induction false} NoOtherLp(x: string, y: string)
    requires PoolID(x, y) != "a|b"
    ensures LpHeld(LpPool(), PoolID(x, y)) == 0
  {
    BarFreeIsCoin("a");
    BarFreeIsCoin("b");
    BarFreeIsCoin("z");
    PoolNames();
    hide PoolID, LpKey;
    LpKeysDiffer(PoolID(x, y), "a|b");
    TotalOfZeros(WalletsOf(LpPool(), LpKey(PoolID(x, y))));
    TotalOfZeros(ReservesOf(LpPool(), LpKey(PoolID(x, y))));
  }

  lemma {:induction false} LpPoolIsBacked()
    ensures LpBacked(LpPool())
  {
    PoolNames();
    ElevenHeld();
    hide PoolID, LpKey, LpHeld;
    forall x, y
      ensures LpHeld(LpPool(), PoolID(x, y)) <= SharesOf(LpPool(), PoolID(x, y))
    {
      if PoolID(x, y) != "a|b" {
        NoOtherLp(x, y);
      }
    }
  }

  /** A reversed add of that LP token: 12 LP tokens for 11 shares. */
  lemma {:induction false} LpBoundBroken()
    ensures var b := LpPool();
            var op := DoAdd("w", "z", "lp:a|b", "0.00000002", "0.00000001");
            && PoolsOk(b) && LpBacked(b) && !LpSafe(b, op) && !LpBacked(Perform(b, op))
  {
    hide ParsedAmount, Holdings, LpSafe;
    SmallAmounts();
    PoolNames();
    ElevenHeld();
    LpPoolIsOk();
    LpPoolIsBacked();
    var b := LpPool();
    var op := DoAdd("w", "z", "lp:a|b", "0.00000002", "0.00000001");
    var q := b.pools["lp:a|b|z"];
    assert QuoteAdd(q, 2, 1) == Success(1);
    assert AddTarget(b.pools, "z", "lp:a|b", 2, 1) == (q, "z", "lp:a|b", 2, 1);
    HoldingsOfAdd(b, "w", q, "z", "lp:a|b", 2, 1, 1, "lp:a|b");
    assert LpHeld(Perform(b, op), PoolID("a", "b")) == 12;
    assert SharesOf(Perform(b, op), PoolID("a", "b")) == 11;
    if LpSafe(b, op) {
      OpKeepsLp(b, op);
    }
  }
}
