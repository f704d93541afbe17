/** Proof of work (internal/consensus/pow.go). */
module Consensus {
  import opened Numbers
  import opened Text
  import opened Types
  import opened Crypto

  function HashOf(c: Scheme, h: Header): string {
    c.hash(HeaderPayload(h))
  }

  predicate Wins(c: Scheme, h: Header) {
    HasPrefix(HashOf(c, h), Repeat('0', h.difficulty))
  }

  predicate ValidProof(b: Block) {
    b.hash != "" && HasPrefix(b.hash, Repeat('0', b.header.difficulty))
  }

  predicate HashMatchesHeader(c: Scheme, b: Block) {
    HashOf(c, b.header) == b.hash
  }

  /** The header after k attempts; the nonce wraps at 2^64. */
  function Attempt(h: Header, k: nat): Header {
    h.(nonce := Low64(h.nonce + k))
  }

  /** Mining ends: some attempt wins. The source loops for ever otherwise. */
  ghost predicate Minable(c: Scheme, h: Header) {
    exists k: nat :: 0 < k && Wins(c, Attempt(h, k))
  }

  /** k is the number of attempts up to and including the first that wins. */
  ghost predicate IsFirstWin(c: Scheme, h: Header, k: nat) {
    0 < k && Wins(c, Attempt(h, k)) && forall j :: 0 < j < k ==> !Wins(c, Attempt(h, j))
  }

  lemma {:induction false} FirstWinExists(c: Scheme, h: Header, k: nat, w: nat)
    requires 0 < k <= w && Wins(c, Attempt(h, w))
    requires forall j :: 0 < j < k ==> !Wins(c, Attempt(h, j))
    ensures exists f :: IsFirstWin(c, h, f)
    decreases w - k
  {
    if Wins(c, Attempt(h, k)) {
      assert IsFirstWin(c, h, k);
    } else {
      FirstWinExists(c, h, k + 1, w);
    }
  }

  ghost function Mined(c: Scheme, h: Header): (m: Header)
    requires Minable(c, h)
    ensures exists k :: IsFirstWin(c, h, k) && m == Attempt(h, k)
  {
    var w: nat :| 0 < w && Wins(c, Attempt(h, w));
    FirstWinExists(c, h, 1, w);
    var k :| IsFirstWin(c, h, k);
    Attempt(h, k)
  }

  lemma FirstWinIsUnique(c: Scheme, h: Header, j: nat, k: nat)
    requires IsFirstWin(c, h, j) && IsFirstWin(c, h, k)
    ensures j == k
  {
  }

  /** A block under construction: mining writes its nonce and hash in place. */
  class MutableBlock {
    var header: Header
    var txs: seq<Tx>
    var hash: string

    constructor (header: Header, txs: seq<Tx>, hash: string)
      ensures this.header == header && this.txs == txs && this.hash == hash
    {
      this.header, this.txs, this.hash := header, txs, hash;
    }

    function Value(): Block
      reads this
    {
      Block(header, txs, hash)
    }

    /** Stops at the first winning nonce after the starting one, and changes only the nonce and the hash. */
    method MineBlock(c: Scheme)
      requires Minable(c, header)
      modifies this`header, this`hash
      ensures header == Mined(c, old(header))
      ensures Wins(c, header) && HashMatchesHeader(c, Value())
    {
      hide HeaderPayload;
      var target := Repeat('0', header.difficulty);
      ghost var start, k := header, 0;
      ghost var w: nat :| 0 < w && Wins(c, Attempt(start, w));
      Low64Fixes(start.nonce);
      while true
        invariant header == Attempt(start, k)
        invariant forall j :: 0 < j <= k ==> !Wins(c, Attempt(start, j))
        decreases w - k
      {
        Low64Absorbs(start.nonce + k, 1);
        header := header.(nonce := Add64(header.nonce, 1));
        k := k + 1;
        assert header == Attempt(start, k);
        hash := c.hash(HeaderPayload(header));
        if HasPrefix(hash, target) {
          assert IsFirstWin(c, start, k);
          ghost var f :| IsFirstWin(c, start, f) && Mined(c, start) == Attempt(start, f);
          FirstWinIsUnique(c, start, k, f);
          return;
        }
      }
    }
  }
}
