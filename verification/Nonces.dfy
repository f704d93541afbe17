/** An account's nonce counts its transfers, so no (sender, nonce) pair is included twice. */
module Nonces {
  import opened Numbers
  import opened Types
  import opened Crypto
  import opened LedgerState

  predicate IsTransferOf(e: Event, a: string) {
    e.Apply? && e.tx.sender == a && !IsCoinbase(e.tx)
  }

  /** How many of the events are transfers sent by a. */
  function Count(a: string, es: seq<Event>): nat {
    if es == [] then 0 else (if IsTransferOf(es[0], a) then 1 else 0) + Count(a, es[1..])
  }

  lemma {:induction false} NonceOfEvent(c: Scheme, st: State, e: Event, a: string)
    requires Occur(c, st, e).Success?
    ensures Get(Occur(c, st, e).value, a).nonce == Low64(Get(st, a).nonce + Count(a, [e]))
    ensures IsTransferOf(e, a) ==> e.tx.nonce == Get(st, a).nonce
  {
    assert [e][1..] == [];
  }

  /** The nonce after a run is the nonce before it plus the transfers included, modulo 2^64. */
  lemma {:induction false} NonceIsCount(c: Scheme, st: State, es: seq<Event>, a: string)
    requires Run(c, st, es).Success?
    ensures Get(Run(c, st, es).value, a).nonce == Low64(Get(st, a).nonce + Count(a, es))
    decreases |es|
  {
    hide Occur, Low64;
    if es == [] {
      Low64Fixes(Get(st, a).nonce);
    } else {
      NonceOfEvent(c, st, es[0], a);
      NonceIsCount(c, Occur(c, st, es[0]).value, es[1..], a);
      CountHead(a, es);
      Low64Absorbs(Get(st, a).nonce + Count(a, [es[0]]), Count(a, es[1..]));
    }
  }

  lemma {:induction false} CountHead(a: string, es: seq<Event>)
    requires es != []
    ensures Count(a, es) == Count(a, [es[0]]) + Count(a, es[1..])
  {
    assert [es[0]][1..] == [];
  }

  /** The transfers of an account carry the nonces 0, 1, 2, ... in the order they were included. */
  lemma {:induction false} NonceIsPosition(c: Scheme, st: State, es: seq<Event>, i: nat, a: string)
    requires Run(c, st, es).Success? && i < |es| && IsTransferOf(es[i], a)
    ensures es[i].tx.nonce == Low64(Get(st, a).nonce + Count(a, es[..i]))
    decreases |es|
  {
    hide Occur, Low64, IsTransferOf;
    NonceOfEvent(c, st, es[0], a);
    if i == 0 {
      Low64Fixes(Get(st, a).nonce);
      assert es[..0] == [];
    } else {
      NonceIsPosition(c, Occur(c, st, es[0]).value, es[1..], i - 1, a);
      assert es[..i][1..] == es[1..][..i - 1];
      CountHead(a, es[..i]);
      Low64Absorbs(Get(st, a).nonce + Count(a, [es[0]]), Count(a, es[1..][..i - 1]));
    }
  }

  lemma {:induction false} CountGrows(a: string, es: seq<Event>, i: nat, j: nat)
    requires i < j <= |es| && IsTransferOf(es[i], a)
    ensures Count(a, es[..i]) < Count(a, es[..j]) <= j
    decreases i
  {
    CountAtMost(a, es[..j]);
    assert es[..j][1..] == es[1..][..j - 1];
    if i == 0 {
      assert es[..0] == [];
    } else {
      assert es[..i][1..] == es[1..][..i - 1];
      CountGrows(a, es[1..], i - 1, j - 1);
    }
  }

  lemma {:induction false} CountAtMost(a: string, es: seq<Event>)
    ensures Count(a, es) <= |es|
  {
    if es != [] {
      CountAtMost(a, es[1..]);
    }
  }

  /** From an empty ledger, and within 2^64 events, no transfer's (sender, nonce) is ever included again. */
  lemma {:induction false} NoReplay(c: Scheme, es: seq<Event>, i: nat, j: nat)
    requires Run(c, map[], es).Success? && |es| <= TWO_64
    requires i < j < |es| && es[i].Apply? && !IsCoinbase(es[i].tx) && IsTransferOf(es[j], es[i].tx.sender)
    ensures es[i].tx.nonce == Count(es[i].tx.sender, es[..i])
    ensures es[j].tx.nonce == Count(es[i].tx.sender, es[..j])
    ensures es[i].tx.nonce < es[j].tx.nonce
  {
    hide Occur, Run, Low64;
    var a := es[i].tx.sender;
    NonceIsPosition(c, map[], es, i, a);
    NonceIsPosition(c, map[], es, j, a);
    CountGrows(a, es, i, j);
    CountAtMost(a, es[..i]);
    CountAtMost(a, es[..j]);
    Low64Fixes(Count(a, es[..i]));
    Low64Fixes(Count(a, es[..j]));
  }
}
