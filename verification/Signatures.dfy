/** Who can be charged, and what exactly every account ends a run with. */
module Signatures {
  import opened Numbers
  import opened Results
  import opened Types
  import opened Crypto
  import opened LedgerState
  import opened Nonces
  import opened Batches

  /**
   * A transfer succeeds exactly when its sender's balance covers the uint64 sum of amount and fee, it
   * carries the sender's nonce, and the signature check holds of the sender, the signed text and the
   * signature; the first of these that fails is the error. A mint always succeeds.
   */
  lemma {:induction false} TransferSucceedsExactly(c: Scheme, st: State, tx: Tx, miner: string)
    ensures var r := ApplyTx(c, st, tx, miner);
            var acc := Get(st, tx.sender);
            var covered := (tx.amount + tx.fee) % TWO_64 <= acc.balance;
            var signed := c.verify(tx.sender, TxPayload(tx), tx.signature);
            && (r.Success? <==> tx.sender == "" || (covered && tx.nonce == acc.nonce && signed))
            && (tx.sender != "" ==>
                  && (r == Failure(InsufficientBalance) <==> !covered)
                  && (r == Failure(InvalidNonce) <==> covered && tx.nonce != acc.nonce)
                  && (r == Failure(InvalidSignature) <==> covered && tx.nonce == acc.nonce && !signed))
  {
    hide TxPayload, Transferred;
  }

  /** A transfer from a that the signature check accepts. */
  predicate SignedBy(c: Scheme, a: string, e: Event) {
    e.Apply? && a != "" && e.tx.sender == a && c.verify(a, TxPayload(e.tx), e.tx.signature)
  }

  // ----- accounts -----

  /** What an event credits to an account: amounts, fees to the miner, and rewards. */
  function Received(a: string, e: Event): nat {
    match e
    case Apply(tx, miner) => CreditOf(a, tx, miner)
    case Reward(miner, amount) => if miner == a && miner != "" then amount else 0
  }

  /** What an event charges an account: the amount and the fee of its transfers. */
  function Charged(a: string, e: Event): nat {
    if IsTransferOf(e, a) then e.tx.amount + e.tx.fee else 0
  }

  function ReceivedAll(a: string, es: seq<Event>): nat {
    if es == [] then 0 else Received(a, es[0]) + ReceivedAll(a, es[1..])
  }

  function ChargedAll(a: string, es: seq<Event>): nat {
    if es == [] then 0 else Charged(a, es[0]) + ChargedAll(a, es[1..])
  }

  lemma ChargeIs(st: State, sender: string, x: int, a: string)
    requires Low64(x) <= Get(st, sender).balance
    ensures Get(Charge(st, sender, Low64(x)), a).balance
         == Low64(Get(st, a).balance - if sender == a then x else 0)
  {
    var b := Get(st, a).balance;
    if sender == a {
      SubtractModulo(b, x);
    } else {
      Low64Fixes(b);
    }
  }

  lemma SubtractModulo(b: u64, x: int)
    requires Low64(x) <= b
    ensures b - Low64(x) == Low64(b - x)
  {
    var n: int := b;
    Low64Absorbs(-x, n);
  }

  lemma {:induction false} AccountAfterEvent(c: Scheme, st: State, e: Event, a: string)
    requires Occur(c, st, e).Success?
    ensures Get(Occur(c, st, e).value, a).balance == Low64(Get(st, a).balance + Received(a, e) - Charged(a, e))
  {
    hide TxPayload, Credit, Low64, Charge;
    var b := Get(st, a).balance;
    match e
    case Reward(miner, amount) =>
      Low64Fixes(b);
      CreditIs(st, miner, amount, a);
    case Apply(tx, miner) =>
      if IsCoinbase(tx) {
        CreditIs(st, tx.recipient, tx.amount, a);
      } else {
        var gone: int := if tx.sender == a then tx.amount + tx.fee else 0;
        var x, y := if tx.recipient == a then tx.amount else 0, if miner == a then tx.fee else 0;
        CostIs(tx);
        var charged := Charge(st, tx.sender, Cost(tx));
        ChargeIs(st, tx.sender, tx.amount + tx.fee, a);
        CreditIs(charged, tx.recipient, tx.amount, a);
        CreditIs(Credit(charged, tx.recipient, tx.amount), miner, tx.fee, a);
        Low64Absorbs(b - gone, x);
        Low64Absorbs(b - gone + x, y);
      }
  }

  lemma CostIs(tx: Tx)
    ensures Cost(tx) == Low64(tx.amount + tx.fee)
  {
  }

  /**
   * After any run every account has what it had, plus what it was credited, less the amounts and fees of
   * its transfers, modulo 2^64; and its nonce has risen by the number of these. It does not matter which
   * of sender, recipient and miner coincide.
   */
  lemma {:induction false} AccountAfterRun(c: Scheme, st: State, es: seq<Event>, a: string)
    requires Run(c, st, es).Success?
    ensures Get(Run(c, st, es).value, a)
         == Account(Low64(Get(st, a).balance + ReceivedAll(a, es) - ChargedAll(a, es)),
                    Low64(Get(st, a).nonce + Count(a, es)))
    decreases |es|
  {
    hide Occur, Low64, Received, Charged;
    NonceIsCount(c, st, es, a);
    var b := Get(st, a).balance;
    if es == [] {
      Low64Fixes(b);
    } else {
      AccountAfterEvent(c, st, es[0], a);
      AccountAfterRun(c, Occur(c, st, es[0]).value, es[1..], a);
      Low64Absorbs(b + Received(a, es[0]) - Charged(a, es[0]), ReceivedAll(a, es[1..]) - ChargedAll(a, es[1..]));
    }
  }

  // ----- signatures -----

  /** Every transfer in a run that succeeds is signed. */
  lemma {:induction false} TransfersAreSigned(c: Scheme, st: State, es: seq<Event>, i: nat)
    requires Run(c, st, es).Success? && i < |es| && es[i].Apply? && !IsCoinbase(es[i].tx)
    ensures SignedBy(c, es[i].tx.sender, es[i])
    decreases |es|
  {
    if i == 0 {
      TransferSucceedsExactly(c, st, es[0].tx, es[0].miner);
    } else {
      TransfersAreSigned(c, Occur(c, st, es[0]).value, es[1..], i - 1);
    }
  }

  /** An account that signed nothing in a run keeps its nonce, and is charged nothing: it is only credited. */
  lemma {:induction false} UnsignedIsUncharged(c: Scheme, st: State, es: seq<Event>, a: string)
    requires Run(c, st, es).Success? && forall i :: 0 <= i < |es| ==> !SignedBy(c, a, es[i])
    ensures Count(a, es) == 0 && ChargedAll(a, es) == 0
    ensures Get(Run(c, st, es).value, a)
         == Account(Low64(Get(st, a).balance + ReceivedAll(a, es)), Get(st, a).nonce)
  {
    hide SignedBy, Low64, Run;
    forall i | 0 <= i < |es|
      ensures !IsTransferOf(es[i], a)
    {
      if IsTransferOf(es[i], a) {
        TransfersAreSigned(c, st, es, i);
      }
    }
    NoTransferNoCharge(es, a);
    AccountAfterRun(c, st, es, a);
    Low64Fixes(Get(st, a).nonce);
  }

  lemma {:induction false} NoTransferNoCharge(es: seq<Event>, a: string)
    requires forall i :: 0 <= i < |es| ==> !IsTransferOf(es[i], a)
    ensures Count(a, es) == 0 && ChargedAll(a, es) == 0
  {
    if es != [] {
      NoTransferNoCharge(es[1..], a);
    }
  }
}
