/** The transaction pool (internal/mempool/mempool.go). */
module Mempool {
  import opened Text
  import opened Decimal
  import opened Types
  import opened Crypto
  import opened Sorting

  function TxKey(tx: Tx): string {
    tx.sender + ":" + Dec(tx.nonce)
  }

  /** A key stands for one sender and one nonce, whatever characters the sender holds. */
  lemma {:induction false} TxKeyIsInjective(t: Tx, u: Tx)
    requires TxKey(t) == TxKey(u)
    ensures t.sender == u.sender && t.nonce == u.nonce
  {
    hide Dec;
    DigitsAreColonFree(Dec(t.nonce));
    DigitsAreColonFree(Dec(u.nonce));
    LastSeparatorIsUnique(t.sender, Dec(t.nonce), u.sender, Dec(u.nonce), ':');
    DecIsInjective(t.nonce, u.nonce);
  }

  /** The listing order names every pooled transaction once. */
  predicate Lists(keys: seq<string>, txs: map<string, Tx>) {
    multiset(keys) == multiset(txs.Keys)
  }

  predicate Keyed(txs: map<string, Tx>) {
    forall k :: k in txs ==> TxKey(txs[k]) == k
  }

  /** The keys of some transactions. */
  function KeysOf(txs: seq<Tx>): set<string> {
    set i | 0 <= i < |txs| :: TxKey(txs[i])
  }

  function Select(keys: seq<string>, txs: map<string, Tx>): (r: seq<Tx>)
    requires forall i :: 0 <= i < |keys| ==> keys[i] in txs
    ensures |r| == |keys|
  {
    seq(|keys|, i requires 0 <= i < |keys| => txs[keys[i]])
  }

  lemma {:induction false} ListsMembers(keys: seq<string>, txs: map<string, Tx>)
    requires Lists(keys, txs)
    ensures forall i :: 0 <= i < |keys| ==> keys[i] in txs
    ensures forall k :: k in txs ==> k in keys
    ensures Distinct(keys)
  {
    forall i | 0 <= i < |keys|
      ensures keys[i] in txs
    {
      assert keys[i] in multiset(keys);
    }
    forall k | k in txs
      ensures k in keys
    {
      assert k in multiset(keys);
    }
    forall i, j | 0 <= i < j < |keys|
      ensures keys[i] != keys[j]
    {
      if keys[i] == keys[j] {
        TwiceInMultiset(keys, i, j);
      }
    }
  }

  /** The first max transactions in listing order; all of them when there are no more. */
  ghost function FirstOf(keys: seq<string>, txs: map<string, Tx>, max: nat): (r: seq<Tx>)
    requires Lists(keys, txs)
    ensures |r| == if |keys| < max then |keys| else max
  {
    ListsMembers(keys, txs);
    Select(keys[..if |keys| < max then |keys| else max], txs)
  }

  /** Listing more transactions at the end keeps the first ones first. */
  lemma {:induction false} FirstGrows(keys: seq<string>, txs: map<string, Tx>,
                                      keys': seq<string>, txs': map<string, Tx>, max: nat)
    requires Lists(keys, txs) && Lists(keys', txs') && keys <= keys'
    requires forall k :: k in txs ==> k in txs' && txs'[k] == txs[k]
    ensures FirstOf(keys, txs, max) <= FirstOf(keys', txs', max)
  {
    hide Lists;
    ListsMembers(keys, txs);
    ListsMembers(keys', txs');
    var m := if |keys| < max then |keys| else max;
    assert forall i :: 0 <= i < m ==> FirstOf(keys', txs', max)[i] == FirstOf(keys, txs, max)[i];
  }

  class Pool {
    var txs: map<string, Tx>
    var keys: seq<string>

    ghost predicate Valid()
      reads this
    {
      Lists(keys, txs) && Keyed(txs)
    }

    constructor ()
      ensures Valid() && txs == map[] && keys == []
    {
      txs, keys := map[], [];
    }

    /** A transaction whose sender and nonce are already pooled is dropped. */
    method Add(tx: Tx)
      requires Valid()
      modifies this
      ensures Valid()
      ensures TxKey(tx) in old(txs) ==> txs == old(txs) && keys == old(keys)
      ensures TxKey(tx) !in old(txs) ==> txs == old(txs)[TxKey(tx) := tx] && keys == old(keys) + [TxKey(tx)]
    {
      var k := TxKey(tx);
      if k in txs {
        return;
      }
      assert txs.Keys + {k} == txs[k := tx].Keys;
      txs := txs[k := tx];
      keys := keys + [k];
    }

    /** The first max transactions in listing order; all of them for a max that is not positive. */
    method Pending(max: int) returns (out: seq<Tx>)
      requires Valid()
      ensures forall i :: 0 <= i < |keys| ==> keys[i] in txs
      ensures |out| == if max <= 0 || |keys| < max then |keys| else max
      ensures out == Select(keys[..|out|], txs)
    {
      ListsMembers(keys, txs);
      var m := max;
      if m <= 0 || |keys| < m {
        m := |keys|;
      }
      out := [];
      var i := 0;
      while i < m
        invariant 0 <= i <= m
        invariant out == Select(keys[..i], txs)
      {
        out := out + [txs[keys[i]]];
        i := i + 1;
      }
    }

    /** Drops the given transactions; the rest are listed anew, in no fixed order. */
    method RemoveIncluded(included: seq<Tx>)
      requires Valid()
      modifies this
      ensures Valid() && txs == old(txs) - KeysOf(included)
    {
      hide TxKey, Lists;
      var i := 0;
      while i < |included|
        invariant 0 <= i <= |included|
        invariant txs == old(txs) - KeysOf(included[..i])
        invariant keys == old(keys)
      {
        assert KeysOf(included[..i + 1]) == KeysOf(included[..i]) + {TxKey(included[i])} by {
          assert forall j :: 0 <= j < i ==> included[..i + 1][j] == included[..i][j];
          assert included[..i + 1][i] == included[i];
        }
        txs := txs - {TxKey(included[i])};
        i := i + 1;
      }
      assert included[..i] == included;
      Relist();
    }

    /** Go ranges over the pooled transactions in no fixed order. */
    method Relist()
      modifies this`keys
      ensures Lists(keys, txs)
    {
      keys := [];
      var left := txs.Keys;
      while left != {}
        invariant left <= txs.Keys
        invariant multiset(keys) + multiset(left) == multiset(txs.Keys)
        decreases left
      {
        var k :| k in left;
        assert multiset(left) == multiset(left - {k}) + multiset{k};
        left := left - {k};
        keys := keys + [k];
      }
    }
  }
}
