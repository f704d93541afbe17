/**
 * Transactions of distinct senders, each valid alone: when do they succeed in every order?
 *
 * Not always. A credit can wrap, and then it leaves its recipient poorer than before.
 */
module Batches {
  import opened Numbers
  import opened Results
  import opened Types
  import opened Crypto
  import opened LedgerState
  import opened Sorting
  import opened Coins
  import opened Commutation

  /** What ValidateTx finds of a transaction on its own. */
  predicate Accepted(c: Scheme, st: State, tx: Tx) {
    IsCoinbase(tx) || Refusal(c, st, tx) == None
  }

  /** No account sends twice. Mints have no sender. */
  predicate OneTransferEach(txs: seq<Tx>) {
    forall i, j :: 0 <= i < j < |txs| && !IsCoinbase(txs[i]) ==> txs[i].sender != txs[j].sender
  }

  predicate NotSentBy(a: string, txs: seq<Tx>) {
    forall i :: 0 <= i < |txs| ==> IsCoinbase(txs[i]) || txs[i].sender != a
  }

  // ----- an account that only receives -----

  /** What a transaction credits to an account, as recipient and as miner. */
  function CreditOf(a: string, tx: Tx, miner: string): nat {
    (if tx.recipient == a then tx.amount else 0)
    + if !IsCoinbase(tx) && FeeIsPaid(tx, miner) && miner == a then tx.fee else 0
  }

  function Credits(a: string, txs: seq<Tx>, miner: string): nat {
    if txs == [] then 0 else CreditOf(a, txs[0], miner) + Credits(a, txs[1..], miner)
  }

  lemma CreditIs(st: State, r: string, x: u64, a: string)
    ensures Get(Credit(st, r, x), a)
         == Account(Low64(Get(st, a).balance + if r == a then x else 0), Get(st, a).nonce)
  {
    Low64Fixes(Get(st, a).balance);
  }

  lemma {:induction false} AccountAfterOne(c: Scheme, st: State, tx: Tx, miner: string, a: string)
    requires ApplyTx(c, st, tx, miner).Success? && (IsCoinbase(tx) || tx.sender != a)
    ensures Get(ApplyTx(c, st, tx, miner).value, a)
         == Account(Low64(Get(st, a).balance + CreditOf(a, tx, miner)), Get(st, a).nonce)
  {
    hide TxPayload, Credit, Low64, Cost;
    if IsCoinbase(tx) {
      CreditIs(st, tx.recipient, tx.amount, a);
    } else {
      var charged := Charge(st, tx.sender, Cost(tx));
      var paid := Credit(charged, tx.recipient, tx.amount);
      assert Get(charged, a) == Get(st, a);
      CreditIs(charged, tx.recipient, tx.amount, a);
      CreditIs(paid, miner, tx.fee, a);
      Low64Absorbs(Get(st, a).balance + if tx.recipient == a then tx.amount else 0, if miner == a then tx.fee else 0);
    }
  }

  /** After any run in which it sends nothing, an account has its nonce, and its balance and credits modulo 2^64. */
  lemma {:induction false} AccountAfter(c: Scheme, st: State, txs: seq<Tx>, miner: string, a: string)
    requires Run(c, st, Applies(txs, miner)).Success? && NotSentBy(a, txs)
    ensures Get(Run(c, st, Applies(txs, miner)).value, a)
         == Account(Low64(Get(st, a).balance + Credits(a, txs, miner)), Get(st, a).nonce)
    decreases |txs|
  {
    hide CreditOf, ApplyTx, Low64;
    var acc := Get(st, a);
    if txs == [] {
      Low64Fixes(acc.balance);
    } else {
      ApplyIsOccur(c, st, txs[0], miner);
      AccountAfterOne(c, st, txs[0], miner, a);
      assert Applies(txs, miner)[1..] == Applies(txs[1..], miner);
      AccountAfter(c, ApplyTx(c, st, txs[0], miner).value, txs[1..], miner, a);
      Low64Absorbs(acc.balance + CreditOf(a, txs[0], miner), Credits(a, txs[1..], miner));
    }
  }

  /** u's charge is covered by its sender's balance after what the others credit to it. */
  predicate CoveredAfter(st: State, some: seq<Tx>, u: Tx, miner: string) {
    Cost(u) <= Low64(Get(st, u.sender).balance + Credits(u.sender, some, miner))
  }

  /** A transfer that is valid alone is accepted after transactions of others exactly when it is still covered. */
  lemma {:induction false} AcceptedAfter(c: Scheme, st: State, some: seq<Tx>, u: Tx, miner: string)
    requires Run(c, st, Applies(some, miner)).Success? && NotSentBy(u.sender, some)
    requires !IsCoinbase(u) && Accepted(c, st, u)
    ensures Accepted(c, Run(c, st, Applies(some, miner)).value, u) <==> CoveredAfter(st, some, u, miner)
  {
    hide Run, Applies, Low64, Credits, TxPayload;
    AccountAfter(c, st, some, miner, u.sender);
  }

  lemma {:induction false} RunOneMore(c: Scheme, st: State, some: seq<Tx>, u: Tx, miner: string)
    ensures Run(c, st, Applies(some + [u], miner)).Success?
       <==> Run(c, st, Applies(some, miner)).Success? && Accepted(c, Run(c, st, Applies(some, miner)).value, u)
  {
    hide Refusal, Transferred;
    assert Applies(some + [u], miner) == Applies(some, miner) + [Apply(u, miner)];
    RunConcat(c, st, Applies(some, miner), [Apply(u, miner)]);
    if Run(c, st, Applies(some, miner)).Success? {
      RunOne(c, Run(c, st, Applies(some, miner)).value, Apply(u, miner));
    }
  }

  // ----- every order -----

  /**
   * The condition, on balances and amounts alone: no choice of the other transactions, by wrapping the
   * balance they credit, leaves a transfer uncovered.
   */
  ghost predicate Covered(st: State, txs: seq<Tx>, miner: string) {
    forall some: seq<Tx>, u: Tx ::
      multiset(some) + multiset{u} <= multiset(txs) && !IsCoinbase(u) ==> CoveredAfter(st, some, u, miner)
  }

  ghost predicate EveryOrderSucceeds(c: Scheme, st: State, txs: seq<Tx>, miner: string) {
    forall perm :: multiset(perm) == multiset(txs) ==> Run(c, st, Applies(perm, miner)).Success?
  }

  lemma {:induction false} OneTransferEachForgetsOrder(txs: seq<Tx>, perm: seq<Tx>)
    requires OneTransferEach(txs) && multiset(txs) == multiset(perm)
    ensures OneTransferEach(perm)
  {
    forall i, j | 0 <= i < j < |perm| && !IsCoinbase(perm[i])
      ensures perm[i].sender != perm[j].sender
    {
      var x, y := perm[i], perm[j];
      assert x in multiset(perm) && y in multiset(perm);
      assert x in txs && y in txs;
      if x == y {
        TwiceInMultiset(perm, i, j);
        OnceInList(txs, x);
      }
    }
  }

  lemma {:induction false} OnceInList(s: seq<Tx>, x: Tx)
    requires OneTransferEach(s) && !IsCoinbase(x)
    ensures multiset(s)[x] <= 1
  {
    if s != [] {
      OnceInList(s[1..], x);
      assert s == [s[0]] + s[1..];
      assert x == s[0] ==> x !in s[1..];
    }
  }

  /** A multiset, listed in some order. */
  ghost function Listed(m: multiset<Tx>): (s: seq<Tx>)
    ensures multiset(s) == m
    decreases |m|
  {
    if m == multiset{} then []
    else
      var x :| x in m;
      [x] + Listed(m - multiset{x})
  }

  /** Some transactions and one more can be run first. */
  lemma {:induction false} SomeFirst(txs: seq<Tx>, some: seq<Tx>, u: Tx) returns (rest: seq<Tx>)
    requires OneTransferEach(txs) && multiset(some) + multiset{u} <= multiset(txs) && !IsCoinbase(u)
    ensures multiset(some + [u] + rest) == multiset(txs) && NotSentBy(u.sender, some)
  {
    rest := Listed(multiset(txs) - multiset(some) - multiset{u});
    var perm := some + [u] + rest;
    assert multiset(perm) == multiset(some) + multiset{u} + multiset(rest);
    OneTransferEachForgetsOrder(txs, perm);
    forall i | 0 <= i < |some|
      ensures IsCoinbase(some[i]) || some[i].sender != u.sender
    {
      assert perm[i] == some[i] && perm[|some|] == u;
    }
  }

  lemma {:induction false} CoveredWhenSucceeding(c: Scheme, st: State, txs: seq<Tx>, some: seq<Tx>, u: Tx,
                                                 miner: string)
    requires OneTransferEach(txs) && (forall i :: 0 <= i < |txs| ==> Accepted(c, st, txs[i]))
    requires EveryOrderSucceeds(c, st, txs, miner)
    requires multiset(some) + multiset{u} <= multiset(txs) && !IsCoinbase(u)
    ensures CoveredAfter(st, some, u, miner)
  {
    hide Run, Accepted, CoveredAfter;
    var rest := SomeFirst(txs, some, u);
    assert Applies(some + [u] + rest, miner) == Applies(some + [u], miner) + Applies(rest, miner);
    RunConcat(c, st, Applies(some + [u], miner), Applies(rest, miner));
    RunOneMore(c, st, some, u, miner);
    assert u in multiset(txs);
    AcceptedAfter(c, st, some, u, miner);
  }

  lemma {:induction false} SucceedsWhenCovered(c: Scheme, st: State, txs: seq<Tx>, perm: seq<Tx>, k: nat, miner: string)
    requires OneTransferEach(txs) && (forall i :: 0 <= i < |txs| ==> Accepted(c, st, txs[i]))
    requires Covered(st, txs, miner) && multiset(perm) == multiset(txs) && k <= |perm|
    ensures Run(c, st, Applies(perm[..k], miner)).Success?
    decreases k
  {
    hide Refusal, CoveredAfter, Occur;
    if k != 0 {
      var some, u := perm[..k - 1], perm[k - 1];
      SucceedsWhenCovered(c, st, txs, perm, k - 1, miner);
      assert perm[..k] == some + [u];
      assert perm == some + [u] + perm[k..];
      assert u in multiset(perm);
      RunOneMore(c, st, some, u, miner);
      if !IsCoinbase(u) {
        var rest := SomeFirst(txs, some, u);
        assert CoveredAfter(st, some, u, miner);
        AcceptedAfter(c, st, some, u, miner);
      }
    }
  }

  /**
   * Transactions of which no two share a sender, each valid alone: all orders succeed exactly when every
   * transfer is covered after every choice of the others; and all orders that succeed reach one state,
   * and so one state root.
   */
  lemma {:induction false} OrderDoesNotMatter(c: Scheme, st: State, txs: seq<Tx>, miner: string)
    requires OneTransferEach(txs) && forall i :: 0 <= i < |txs| ==> Accepted(c, st, txs[i])
    ensures EveryOrderSucceeds(c, st, txs, miner) <==> Covered(st, txs, miner)
    ensures forall p, q :: multiset(p) == multiset(q) == multiset(txs)
                           && Run(c, st, Applies(p, miner)).Success? && Run(c, st, Applies(q, miner)).Success?
                           ==> Run(c, st, Applies(p, miner)) == Run(c, st, Applies(q, miner))
  {
    hide Run, Applies, Accepted, CoveredAfter;
    if EveryOrderSucceeds(c, st, txs, miner) {
      forall some: seq<Tx>, u: Tx | multiset(some) + multiset{u} <= multiset(txs) && !IsCoinbase(u)
        ensures CoveredAfter(st, some, u, miner)
      {
        CoveredWhenSucceeding(c, st, txs, some, u, miner);
      }
    }
    if Covered(st, txs, miner) {
      forall perm | multiset(perm) == multiset(txs)
        ensures Run(c, st, Applies(perm, miner)).Success?
      {
        SucceedsWhenCovered(c, st, txs, perm, |perm|, miner);
        assert perm[..|perm|] == perm;
      }
    }
    forall p, q | multiset(p) == multiset(q) == multiset(txs)
                  && Run(c, st, Applies(p, miner)).Success? && Run(c, st, Applies(q, miner)).Success?
      ensures Run(c, st, Applies(p, miner)) == Run(c, st, Applies(q, miner))
    {
      OrdersAgree(c, st, p, q, miner);
    }
  }

  // ----- under the supply bound -----

  /** A transfer the state would accept on its own, whose charge does not wrap. */
  predicate ValidAlone(c: Scheme, st: State, tx: Tx) {
    !IsCoinbase(tx) && Fits(tx) && Refusal(c, st, tx) == None
  }

  predicate DistinctSenders(txs: seq<Tx>) {
    forall i, j :: 0 <= i < j < |txs| ==> txs[i].sender != txs[j].sender
  }

  /** What the pool offers a miner: one valid transfer per sender, under the supply bound. */
  ghost predicate Batch(c: Scheme, st: State, txs: seq<Tx>) {
    && Supply(st) < TWO_64
    && DistinctSenders(txs)
    && forall i :: 0 <= i < |txs| ==> ValidAlone(c, st, txs[i])
  }

  function Costs(txs: seq<Tx>): nat {
    if txs == [] then 0 else Cost(txs[0]) + Costs(txs[1..])
  }

  /** Charges that fit cover all they credit to anyone. */
  lemma {:induction false} CreditsWithinCosts(a: string, txs: seq<Tx>, miner: string)
    requires forall i :: 0 <= i < |txs| ==> !IsCoinbase(txs[i]) && Fits(txs[i])
    ensures Credits(a, txs, miner) <= Costs(txs)
  {
    if txs != [] {
      CreditsWithinCosts(a, txs[1..], miner);
      Low64Fixes(txs[0].amount + txs[0].fee);
    }
  }

  /** The charges of distinct senders, and one more balance, are together within the supply. */
  lemma {:induction false} CostsWithinSupply(st: State, txs: seq<Tx>, a: string)
    requires DistinctSenders(txs)
    requires forall i :: 0 <= i < |txs| ==> txs[i].sender != a && Cost(txs[i]) <= Get(st, txs[i].sender).balance
    ensures Costs(txs) + Get(st, a).balance <= Supply(st)
    decreases |txs|
  {
    hide Supply, Cost;
    if txs == [] {
      BalanceAtMostSupply(st, a);
    } else {
      var emptied := st[txs[0].sender := Account(0, 0)];
      SupplyOfPut(st, txs[0].sender, Account(0, 0));
      CostsWithinSupply(emptied, txs[1..], a);
    }
  }

  /** Under the supply bound, and when charges do not wrap, every transfer stays covered. */
  lemma {:induction false} BatchIsCovered(c: Scheme, st: State, txs: seq<Tx>, miner: string)
    requires Batch(c, st, txs)
    ensures OneTransferEach(txs) && (forall i :: 0 <= i < |txs| ==> Accepted(c, st, txs[i]))
    ensures Covered(st, txs, miner)
  {
    hide Supply, Cost, Refusal, Fits;
    forall some: seq<Tx>, u: Tx | multiset(some) + multiset{u} <= multiset(txs) && !IsCoinbase(u)
      ensures CoveredAfter(st, some, u, miner)
    {
      CoveredWithinSupply(c, st, txs, some, u, miner);
    }
  }

  lemma {:induction false} SomeOfBatch(c: Scheme, st: State, txs: seq<Tx>, some: seq<Tx>, u: Tx)
    requires Batch(c, st, txs)
    requires multiset(some) + multiset{u} <= multiset(txs) && !IsCoinbase(u)
    ensures ValidAlone(c, st, u) && forall i :: 0 <= i < |some| ==> ValidAlone(c, st, some[i])
    ensures DistinctSenders(some) && forall i :: 0 <= i < |some| ==> some[i].sender != u.sender
  {
    hide Supply, ValidAlone;
    BatchHasOneEach(c, st, txs);
    var rest := SomeFirst(txs, some, u);
    var perm := some + [u] + rest;
    OneTransferEachForgetsOrder(txs, perm);
    forall t | t in multiset(txs)
      ensures ValidAlone(c, st, t) && !IsCoinbase(t)
    {
      var i :| 0 <= i < |txs| && txs[i] == t;
      assert ValidAlone(c, st, txs[i]);
      ValidIsTransfer(c, st, t);
    }
    assert u in multiset(txs);
    forall i | 0 <= i < |some|
      ensures ValidAlone(c, st, some[i]) && perm[i] == some[i] && !IsCoinbase(some[i])
    {
      assert some[i] in multiset(some);
      assert some[i] in multiset(txs);
    }
  }

  lemma BatchHasOneEach(c: Scheme, st: State, txs: seq<Tx>)
    requires Batch(c, st, txs)
    ensures OneTransferEach(txs)
  {
    hide Supply, ValidAlone;
  }

  lemma ValidIsTransfer(c: Scheme, st: State, t: Tx)
    requires ValidAlone(c, st, t)
    ensures !IsCoinbase(t) && Fits(t) && Cost(t) <= Get(st, t.sender).balance
  {
    hide TxPayload;
  }

  lemma {:induction false} CoveredWithinSupply(c: Scheme, st: State, txs: seq<Tx>, some: seq<Tx>, u: Tx, miner: string)
    requires Batch(c, st, txs)
    requires multiset(some) + multiset{u} <= multiset(txs) && !IsCoinbase(u)
    ensures CoveredAfter(st, some, u, miner)
  {
    hide Supply, Cost, Fits, Credits, Low64, ValidAlone, DistinctSenders, Costs;
    SomeOfBatch(c, st, txs, some, u);
    ValidIsTransfer(c, st, u);
    forall i | 0 <= i < |some|
      ensures !IsCoinbase(some[i]) && Fits(some[i]) && Cost(some[i]) <= Get(st, some[i].sender).balance
    {
      ValidIsTransfer(c, st, some[i]);
    }
    CreditsWithinCosts(u.sender, some, miner);
    CostsWithinSupply(st, some, u.sender);
    Low64Fixes(Get(st, u.sender).balance + Credits(u.sender, some, miner));
  }

  /** So a batch succeeds in every order. */
  lemma {:induction false} BatchSucceeds(c: Scheme, st: State, txs: seq<Tx>, miner: string)
    requires Batch(c, st, txs)
    ensures EveryOrderSucceeds(c, st, txs, miner)
  {
    hide Batch, Covered, Accepted, Run;
    BatchIsCovered(c, st, txs, miner);
    OrderDoesNotMatter(c, st, txs, miner);
  }

  /** Crediting another account never makes a sender poorer or moves its nonce. */
  lemma CreditKeepsValid(c: Scheme, st: State, tx: Tx, a: string, x: u64)
    requires ValidAlone(c, st, tx) && Get(st, a).balance + x < TWO_64
    ensures ValidAlone(c, Credit(st, a, x), tx)
  {
    hide TxPayload;
  }

  /** A transfer by someone else leaves a valid transfer valid. */
  lemma {:induction false} ValidSurvives(c: Scheme, st: State, t: Tx, u: Tx, miner: string)
    requires Supply(st) < TWO_64 && ValidAlone(c, st, t) && ValidAlone(c, st, u)
    requires t.sender != u.sender
    ensures ValidAlone(c, Transferred(st, t, miner), u)
    ensures Supply(Transferred(st, t, miner)) <= Supply(st)
  {
    hide Supply, TxPayload, Transferred, Cost, Low64;
    SupplyOfTransfer(st, t, miner);
    TransferWithinBound(st, t, miner);
    CreditsWithinCosts(u.sender, [t], miner);
    CostsWithinSupply(st, [t], u.sender);
    assert [t][1..] == [];
    Low64Fixes(Get(st, u.sender).balance + CreditOf(u.sender, t, miner));
    AccountAfterOne(c, st, t, miner, u.sender);
  }

  lemma {:induction false} BatchTail(c: Scheme, st: State, txs: seq<Tx>, miner: string)
    requires Batch(c, st, txs) && txs != []
    ensures ApplyTx(c, st, txs[0], miner) == Success(Transferred(st, txs[0], miner))
    ensures Batch(c, Transferred(st, txs[0], miner), txs[1..])
  {
    hide Supply, Transferred;
    var t := txs[0];
    SupplyOfTransfer(st, t, miner);
    TransferWithinBound(st, t, miner);
    forall i | 0 <= i < |txs[1..]|
      ensures ValidAlone(c, Transferred(st, t, miner), txs[1..][i])
    {
      ValidSurvives(c, st, t, txs[i + 1], miner);
    }
  }

  // ----- inputs that fail -----

  /**
   * Above the supply bound a credit can wrap: two mints make a state in which aa can pay 1 to bb, and bb
   * can pay 5 on, but not after it.
   */
  lemma {:induction false} OverfullSupplyBreaksBatch(c: Scheme, aa: string, bb: string, dd: string, miner: string,
                                                     s: string, s': string)
    requires aa != "" && bb != "" && aa != bb
    requires c.verify(aa, TxPayload(Tx(aa, bb, 1, 0, 0, s)), s)
    requires c.verify(bb, TxPayload(Tx(bb, dd, 5, 0, 0, s')), s')
    ensures var mints := [Tx("", aa, 1, 0, 0, ""), Tx("", bb, TWO_64 - 1, 0, 0, "")];
            var t, u := Tx(aa, bb, 1, 0, 0, s), Tx(bb, dd, 5, 0, 0, s');
            var r := Run(c, map[], Applies(mints, miner));
            && r.Success? && Supply(r.value) == TWO_64
            && Fits(t) && Fits(u) && Accepted(c, r.value, t) && Accepted(c, r.value, u)
            && Run(c, r.value, Applies([t, u], miner)) == Failure(InsufficientBalance)
  {
    hide TxPayload, Supply;
    var t, u := Tx(aa, bb, 1, 0, 0, s), Tx(bb, dd, 5, 0, 0, s');
    var mints := [Tx("", aa, 1, 0, 0, ""), Tx("", bb, TWO_64 - 1, 0, 0, "")];
    var one: State := map[aa := Account(1, 0)];
    var st: State := one[bb := Account(TWO_64 - 1, 0)];
    SupplyOfEmpty();
    SupplyOfPut(map[], aa, Account(1, 0));
    SupplyOfPut(one, bb, Account(TWO_64 - 1, 0));
    assert map[][aa := Account(1, 0)] == one;
    assert Credit(map[], aa, 1) == one && Credit(one, bb, TWO_64 - 1) == st;
    assert Applies(mints, miner)[1..] == [Apply(mints[1], miner)];
    RunOne(c, one, Apply(mints[1], miner));
    assert Get(Transferred(st, t, miner), bb).balance == 0;
    assert Applies([t, u], miner)[1..][0] == Apply(u, miner);
  }

  /**
   * Why a charge must not wrap: for every transfer whose charge does, there is a state in which it and a
   * transfer by its recipient are each valid alone, but the second is refused after the first.
   */
  lemma WrappedChargeBreaksBatch(c: Scheme, t: Tx, u: Tx, miner: string)
    requires !IsCoinbase(t) && !Fits(t) && c.verify(t.sender, TxPayload(t), t.signature)
    requires u.sender == t.recipient && !IsCoinbase(u) && u.sender != t.sender && u.sender != miner
    requires Fits(u) && 0 < Cost(u) <= TWO_64 - t.amount && c.verify(u.sender, TxPayload(u), u.signature)
    ensures var st: State := map[t.sender := Account(Cost(t), t.nonce),
                                 u.sender := Account(TWO_64 - t.amount, u.nonce)];
            && Supply(st) < TWO_64
            && Refusal(c, st, t) == None && Refusal(c, st, u) == None
            && Run(c, st, Applies([t, u], miner)) == Failure(InsufficientBalance)
  {
    hide TxPayload, Supply;
    var st: State := map[t.sender := Account(Cost(t), t.nonce), u.sender := Account(TWO_64 - t.amount, u.nonce)];
    SupplyOfEmpty();
    SupplyOfPut(map[], t.sender, st[t.sender]);
    SupplyOfPut(map[t.sender := st[t.sender]], u.sender, st[u.sender]);
    assert map[][t.sender := st[t.sender]] == map[t.sender := st[t.sender]];
    assert map[t.sender := st[t.sender]][u.sender := st[u.sender]] == st;
    var after := Transferred(st, t, miner);
    assert Get(after, u.sender).balance == 0;
    assert Applies([t, u], miner)[1..][0] == Apply(u, miner);
  }
}
