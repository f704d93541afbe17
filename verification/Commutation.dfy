/** Two orders of the same transactions that both succeed always reach the same state. */
module Commutation {
  import opened Numbers
  import opened Types
  import opened Crypto
  import opened LedgerState

  // ----- a transfer as commuting shifts of single accounts -----

  datatype Shift = Shift(a: string, balance: u64, nonce: u64)

  function Move(st: State, s: Shift): State {
    var acc := Get(st, s.a);
    st[s.a := Account(Add64(acc.balance, s.balance), Add64(acc.nonce, s.nonce))]
  }

  function Moves(st: State, ss: seq<Shift>): State
    decreases |ss|
  {
    if ss == [] then st else Moves(Move(st, ss[0]), ss[1..])
  }

  function Effect(tx: Tx, miner: string): seq<Shift> {
    if IsCoinbase(tx) then [Shift(tx.recipient, tx.amount, 0)]
    else
      [Shift(tx.sender, Sub64(0, Cost(tx)), 1), Shift(tx.recipient, tx.amount, 0)]
      + if FeeIsPaid(tx, miner) then [Shift(miner, tx.fee, 0)] else []
  }

  function Effects(txs: seq<Tx>, miner: string): seq<Shift> {
    if txs == [] then [] else Effect(txs[0], miner) + Effects(txs[1..], miner)
  }

  lemma MoveTwice(st: State, s: Shift, t: Shift)
    ensures Move(Move(st, s), t) == Move(Move(st, t), s)
  {
    hide Add64;
    if s.a == t.a {
      Add64Swaps(Get(st, s.a).balance, s.balance, t.balance);
      Add64Swaps(Get(st, s.a).nonce, s.nonce, t.nonce);
    }
    assert Move(Move(st, s), t).Keys == Move(Move(st, t), s).Keys;
  }

  lemma Add64Swaps(x: u64, y: u64, z: u64)
    ensures Add64(Add64(x, y), z) == Add64(Add64(x, z), y)
  {
    Low64Absorbs(x + y, z);
    Low64Absorbs(x + z, y);
  }

  lemma {:induction false} MovesConcat(st: State, ss: seq<Shift>, ts: seq<Shift>)
    ensures Moves(st, ss + ts) == Moves(Moves(st, ss), ts)
    decreases |ss|
  {
    if ss == [] {
      assert ss + ts == ts;
    } else {
      assert (ss + ts)[1..] == ss[1..] + ts;
      MovesConcat(Move(st, ss[0]), ss[1..], ts);
    }
  }

  lemma {:induction false} MovePastMoves(st: State, s: Shift, ts: seq<Shift>)
    ensures Moves(Move(st, s), ts) == Move(Moves(st, ts), s)
    decreases |ts|
  {
    if ts != [] {
      MoveTwice(st, s, ts[0]);
      MovePastMoves(Move(st, ts[0]), s, ts[1..]);
    }
  }

  /** Two lists of shifts can be done in either order. */
  lemma {:induction false} MovesCommute(st: State, ss: seq<Shift>, ts: seq<Shift>)
    ensures Moves(Moves(st, ss), ts) == Moves(Moves(st, ts), ss)
    decreases |ss|
  {
    if ss != [] {
      MovesCommute(Move(st, ss[0]), ss[1..], ts);
      MovePastMoves(st, ss[0], ts);
    }
  }

  lemma Add64Zero(x: u64)
    ensures Add64(x, 0) == x
  {
  }

  lemma Add64Negated(x: u64, y: u64)
    requires y <= x
    ensures Add64(x, Sub64(0, y)) == x - y
  {
  }

  lemma {:induction false} TransferIsMoves(st: State, tx: Tx, miner: string)
    requires !IsCoinbase(tx) && Cost(tx) <= Get(st, tx.sender).balance
    ensures Transferred(st, tx, miner) == Moves(st, Effect(tx, miner))
  {
    hide Add64, Sub64;
    var es := Effect(tx, miner);
    var charged := Charge(st, tx.sender, Cost(tx));
    var paid := Credit(charged, tx.recipient, tx.amount);
    Add64Negated(Get(st, tx.sender).balance, Cost(tx));
    assert charged == Move(st, es[0]);
    Add64Zero(Get(charged, tx.recipient).nonce);
    assert paid == Move(charged, es[1]);
    assert es[1..][0] == es[1] && Moves(st, es) == Moves(Move(charged, es[1]), es[1..][1..]);
    if FeeIsPaid(tx, miner) {
      Add64Zero(Get(paid, miner).nonce);
      assert es[1..][1..] == [Shift(miner, tx.fee, 0)];
      assert Moves(paid, [Shift(miner, tx.fee, 0)]) == Move(paid, Shift(miner, tx.fee, 0)) by {
        assert [Shift(miner, tx.fee, 0)][1..] == [];
      }
    } else {
      assert es[1..][1..] == [];
    }
  }

  lemma {:induction false} EffectsConcat(txs: seq<Tx>, us: seq<Tx>, miner: string)
    ensures Effects(txs + us, miner) == Effects(txs, miner) + Effects(us, miner)
  {
    if txs == [] {
      assert txs + us == us;
    } else {
      assert (txs + us)[1..] == txs[1..] + us;
      EffectsConcat(txs[1..], us, miner);
    }
  }

  /** The combined effect of a list of transfers does not depend on their order. */
  lemma {:induction false} EffectsForgetOrder(st: State, txs: seq<Tx>, perm: seq<Tx>, miner: string)
    requires multiset(txs) == multiset(perm)
    ensures Moves(st, Effects(txs, miner)) == Moves(st, Effects(perm, miner))
    decreases |perm|
  {
    if perm == [] {
      assert |multiset(txs)| == 0;
    } else {
      var t := perm[0];
      assert t in multiset(txs);
      var i :| 0 <= i < |txs| && txs[i] == t;
      var rest := txs[..i] + txs[i + 1..];
      assert txs == txs[..i] + [t] + txs[i + 1..];
      assert perm == [t] + perm[1..];
      assert multiset(rest) == multiset(txs) - multiset{t} == multiset(perm[1..]);
      MoveToFront(st, txs[..i], t, txs[i + 1..], miner);
      MovesConcat(st, Effect(t, miner), Effects(rest, miner));
      MovesConcat(st, Effect(t, miner), Effects(perm[1..], miner));
      EffectsForgetOrder(Moves(st, Effect(t, miner)), rest, perm[1..], miner);
    }
  }

  lemma {:induction false} MoveToFront(st: State, before: seq<Tx>, t: Tx, after: seq<Tx>, miner: string)
    ensures Moves(st, Effects(before + [t] + after, miner))
         == Moves(st, Effect(t, miner) + Effects(before + after, miner))
  {
    hide Moves, Effect;
    var b, e, a := Effects(before, miner), Effect(t, miner), Effects(after, miner);
    EffectsConcat(before + [t], after, miner);
    EffectsConcat(before, [t], miner);
    EffectsConcat(before, after, miner);
    assert [t][1..] == [] && Effects([t], miner) == e;
    MovesConcat(st, b + e, a);
    MovesConcat(st, b, e);
    MovesCommute(st, b, e);
    MovesConcat(st, e, b);
    MovesConcat(st, e + b, a);
    assert e + b + a == e + (b + a);
  }

  // ----- runs -----

  lemma {:induction false} ApplyIsMoves(c: Scheme, st: State, tx: Tx, miner: string)
    requires ApplyTx(c, st, tx, miner).Success?
    ensures ApplyTx(c, st, tx, miner).value == Moves(st, Effect(tx, miner))
  {
    hide Transferred;
    if IsCoinbase(tx) {
      MintIsMove(st, tx.recipient, tx.amount);
    } else {
      TransferIsMoves(st, tx, miner);
    }
  }

  lemma MintIsMove(st: State, a: string, amount: u64)
    ensures Moves(st, [Shift(a, amount, 0)]) == Credit(st, a, amount)
  {
    Add64Zero(Get(st, a).nonce);
    assert [Shift(a, amount, 0)][1..] == [];
  }

  /** A list of transactions that succeeds has the sum of their effects. */
  lemma {:induction false} RunIsMoves(c: Scheme, st: State, txs: seq<Tx>, miner: string)
    requires Run(c, st, Applies(txs, miner)).Success?
    ensures Run(c, st, Applies(txs, miner)).value == Moves(st, Effects(txs, miner))
    decreases |txs|
  {
    hide Effect, ApplyTx;
    if txs != [] {
      ApplyIsOccur(c, st, txs[0], miner);
      ApplyIsMoves(c, st, txs[0], miner);
      assert Applies(txs, miner)[1..] == Applies(txs[1..], miner);
      RunIsMoves(c, ApplyTx(c, st, txs[0], miner).value, txs[1..], miner);
      MovesConcat(st, Effect(txs[0], miner), Effects(txs[1..], miner));
    }
  }

  /** Any two orders of any transactions, mints included: if both succeed, they reach one state. */
  lemma {:induction false} OrdersAgree(c: Scheme, st: State, txs: seq<Tx>, perm: seq<Tx>, miner: string)
    requires multiset(txs) == multiset(perm)
    requires Run(c, st, Applies(txs, miner)).Success? && Run(c, st, Applies(perm, miner)).Success?
    ensures Run(c, st, Applies(txs, miner)) == Run(c, st, Applies(perm, miner))
  {
    hide Run, Applies, Moves, Effects;
    RunIsMoves(c, st, txs, miner);
    RunIsMoves(c, st, perm, miner);
    EffectsForgetOrder(st, txs, perm, miner);
  }
}
