/** Conservation: what every run of ledger events does to the total of all balances. */
module Coins {
  import opened Numbers
  import opened Sums
  import opened Types
  import opened Crypto
  import opened LedgerState

  function Balances(st: State): map<string, nat> {
    map a | a in st :: st[a].balance
  }

  ghost function Supply(st: State): nat {
    Total(Balances(st))
  }

  lemma SupplyOfPut(st: State, a: string, acc: Account)
    ensures Supply(st[a := acc]) == Supply(st) - Get(st, a).balance + acc.balance
  {
    assert Balances(st[a := acc]) == Balances(st)[a := acc.balance];
    TotalUpdate(Balances(st), a, acc.balance);
  }

  lemma SupplyOfEmpty()
    ensures Supply(map[]) == 0
  {
    assert Balances(map[]) == map[];
  }

  lemma BalanceAtMostSupply(st: State, a: string)
    ensures Get(st, a).balance <= Supply(st)
  {
    AtMostTotal(Balances(st), a);
  }

  lemma SupplyOfCredit(st: State, a: string, x: u64)
    ensures Supply(Credit(st, a, x)) == Supply(st) + x - TWO_64 * Carry(Get(st, a).balance, x)
  {
    SupplyOfPut(st, a, Account(Add64(Get(st, a).balance, x), Get(st, a).nonce));
    Add64Carries(Get(st, a).balance, x);
  }

  /** Coins a transfer destroys: its fee, when the block has no miner. */
  function BurnedByTransfer(tx: Tx, miner: string): nat {
    if miner == "" then tx.fee else 0
  }

  /** How many times the two credits of a transfer wrap. */
  function CreditCarries(st: State, tx: Tx, miner: string): nat
    requires Cost(tx) <= Get(st, tx.sender).balance
  {
    var charged := Charge(st, tx.sender, Cost(tx));
    var paid := Credit(charged, tx.recipient, tx.amount);
    Carry(Get(charged, tx.recipient).balance, tx.amount)
    + if FeeIsPaid(tx, miner) then Carry(Get(paid, miner).balance, tx.fee) else 0
  }

  /**
   * The exact effect of any valid transfer on the supply, whoever its parties are. It conserves coins
   * exactly when its charge wraps as often as its credits do.
   */
  lemma SupplyOfTransfer(st: State, tx: Tx, miner: string)
    requires Cost(tx) <= Get(st, tx.sender).balance
    ensures Supply(Transferred(st, tx, miner))
         == Supply(st) - BurnedByTransfer(tx, miner)
            + TWO_64 * (Carry(tx.amount, tx.fee) - CreditCarries(st, tx, miner))
    ensures Supply(Transferred(st, tx, miner)) == Supply(st) - BurnedByTransfer(tx, miner)
       <==> Carry(tx.amount, tx.fee) == CreditCarries(st, tx, miner)
  {
    hide Add64;
    var charged := Charge(st, tx.sender, Cost(tx));
    var paid := Credit(charged, tx.recipient, tx.amount);
    Add64Carries(tx.amount, tx.fee);
    SupplyOfPut(st, tx.sender, charged[tx.sender]);
    SupplyOfCredit(charged, tx.recipient, tx.amount);
    SupplyOfCredit(paid, miner, tx.fee);
  }

  /** The two fields of a transfer that add up without wrapping. */
  predicate Fits(tx: Tx) {
    tx.amount + tx.fee < TWO_64
  }

  lemma TransferWithinBound(st: State, tx: Tx, miner: string)
    requires Cost(tx) <= Get(st, tx.sender).balance && Fits(tx) && Supply(st) < TWO_64
    ensures CreditCarries(st, tx, miner) == 0
  {
    hide Add64;
    var charged := Charge(st, tx.sender, Cost(tx));
    var paid := Credit(charged, tx.recipient, tx.amount);
    Add64Carries(tx.amount, tx.fee);
    SupplyOfPut(st, tx.sender, charged[tx.sender]);
    BalanceAtMostSupply(charged, tx.recipient);
    SupplyOfCredit(charged, tx.recipient, tx.amount);
    BalanceAtMostSupply(paid, miner);
  }

  // ----- events and runs -----

  function Issued(e: Event): nat {
    match e
    case Apply(tx, _) => if IsCoinbase(tx) then tx.amount else 0
    case Reward(miner, amount) => if miner == "" then 0 else amount
  }

  function Burned(e: Event): nat {
    match e
    case Apply(tx, miner) => if IsCoinbase(tx) then 0 else BurnedByTransfer(tx, miner)
    case Reward(_, _) => 0
  }

  function IssuedAll(es: seq<Event>): nat {
    if es == [] then 0 else Issued(es[0]) + IssuedAll(es[1..])
  }

  function BurnedAll(es: seq<Event>): nat {
    if es == [] then 0 else Burned(es[0]) + BurnedAll(es[1..])
  }

  predicate EventFits(e: Event) {
    e.Apply? && !IsCoinbase(e.tx) ==> Fits(e.tx)
  }

  lemma SupplyOfEvent(c: Scheme, st: State, e: Event)
    requires Occur(c, st, e).Success?
    ensures SameModulo64(Supply(Occur(c, st, e).value), Supply(st) + Issued(e) - Burned(e))
    ensures Supply(st) + Issued(e) < TWO_64 && EventFits(e) ==>
              Supply(Occur(c, st, e).value) == Supply(st) + Issued(e) - Burned(e)
  {
    var after := Supply(Occur(c, st, e).value);
    var want := Supply(st) + Issued(e) - Burned(e);
    if e.Apply? && !IsCoinbase(e.tx) {
      SupplyOfTransfer(st, e.tx, e.miner);
      assert after == want + TWO_64 * (Carry(e.tx.amount, e.tx.fee) - CreditCarries(st, e.tx, e.miner));
      if Supply(st) < TWO_64 && Fits(e.tx) {
        TransferWithinBound(st, e.tx, e.miner);
      }
    } else {
      var (a, x) := if e.Apply? then (e.tx.recipient, e.tx.amount) else (e.miner, e.amount);
      SupplyOfCredit(st, a, x);
      BalanceAtMostSupply(st, a);
      if Supply(Occur(c, st, e).value) == Supply(Credit(st, a, x)) {
        var carry: int := Carry(Get(st, a).balance, x);
        assert after == want + TWO_64 * (0 - carry);
      } else {
        assert after == want + TWO_64 * 0;
      }
    }
  }

  /** On every run the supply moves by what was issued less what was burned, modulo 2^64. */
  lemma {:induction false} SupplyModulo64(c: Scheme, st: State, es: seq<Event>)
    requires Run(c, st, es).Success?
    ensures SameModulo64(Supply(Run(c, st, es).value), Supply(st) + IssuedAll(es) - BurnedAll(es))
    decreases |es|
  {
    var after := Supply(Run(c, st, es).value);
    if es == [] {
      assert after == Supply(st) + TWO_64 * 0;
    } else {
      var st' := Occur(c, st, es[0]).value;
      SupplyOfEvent(c, st, es[0]);
      SupplyModulo64(c, st', es[1..]);
      var j: int :| Supply(st') == Supply(st) + Issued(es[0]) - Burned(es[0]) + TWO_64 * j;
      var k: int :| after == Supply(st') + IssuedAll(es[1..]) - BurnedAll(es[1..]) + TWO_64 * k;
      assert after == Supply(st) + IssuedAll(es) - BurnedAll(es) + TWO_64 * (j + k);
    }
  }

  /** And exactly, while no transfer's charge wraps and no more than 2^64 - 1 coins were ever issued. */
  lemma {:induction false} SupplyExact(c: Scheme, st: State, es: seq<Event>)
    requires Run(c, st, es).Success?
    requires Supply(st) + IssuedAll(es) < TWO_64
    requires forall e :: e in es ==> EventFits(e)
    ensures Supply(Run(c, st, es).value) == Supply(st) + IssuedAll(es) - BurnedAll(es)
    decreases |es|
  {
    if es != [] {
      SupplyOfEvent(c, st, es[0]);
      SupplyExact(c, Occur(c, st, es[0]).value, es[1..]);
    }
  }

  /** A charge that wraps does create coins: one signed transfer from an empty account makes 2^64 of them. */
  lemma WrappedChargeMints(c: Scheme, sender: string, recipient: string, miner: string, signature: string)
    requires sender != "" && miner != "" && sender != recipient && sender != miner && recipient != miner
    requires var tx := Tx(sender, recipient, TWO_64 - 1, 1, 0, signature);
             c.verify(sender, TxPayload(tx), signature)
    ensures var tx := Tx(sender, recipient, TWO_64 - 1, 1, 0, signature);
            && ApplyTx(c, map[], tx, miner).Success?
            && Supply(map[]) == 0 && Supply(ApplyTx(c, map[], tx, miner).value) == TWO_64
  {
    var tx := Tx(sender, recipient, TWO_64 - 1, 1, 0, signature);
    assert Cost(tx) == 0;
    SupplyOfEmpty();
    SupplyOfTransfer(map[], tx, miner);
    var charged := Charge(map[], sender, 0);
    assert Get(charged, recipient) == Account(0, 0);
    assert Get(Credit(charged, recipient, TWO_64 - 1), miner) == Account(0, 0);
  }
}
