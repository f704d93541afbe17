/**
 * The texts that are hashed and signed (internal/crypto/crypto.go).
 *
 * SHA-256 and Ed25519 are abstract: a Scheme is any hash and any signature check, and Sound is all
 * that the proofs use of the hash.
 */
module Crypto {
  import opened Text
  import opened Decimal
  import opened Types

  datatype Scheme = Scheme(hash: string -> string, verify: (string, string, string) -> bool)

  predicate ColonFree(s: string) {
    ':' !in s
  }

  ghost predicate Sound(c: Scheme) {
    && (forall x: string, y: string :: c.hash(x) == c.hash(y) ==> x == y)
    && (forall x: string :: c.hash(x) != "" && ColonFree(c.hash(x)))
  }

  function Join(fields: seq<string>): string {
    if fields == [] then ""
    else if |fields| == 1 then fields[0]
    else fields[0] + ":" + Join(fields[1..])
  }

  /** Joining with colons loses nothing when no field but the last may hold one. */
  lemma {:induction false} JoinIsInjective(f: seq<string>, g: seq<string>)
    requires |f| == |g|
    requires forall i :: 0 <= i < |f| - 1 ==> ColonFree(f[i]) && ColonFree(g[i])
    requires Join(f) == Join(g)
    ensures f == g
  {
    if 1 < |f| {
      FirstSeparatorIsUnique(f[0], Join(f[1..]), g[0], Join(g[1..]), ':');
      JoinIsInjective(f[1..], g[1..]);
      assert f == [f[0]] + f[1..] && g == [g[0]] + g[1..];
    }
  }

  function TxFields(tx: Tx): seq<string> {
    [tx.sender, tx.recipient, Dec(tx.amount), Dec(tx.fee), Dec(tx.nonce)]
  }

  function TxPayload(tx: Tx): string {
    Join(TxFields(tx))
  }

  function HeaderFields(h: Header): seq<string> {
    [Dec(h.index), BigString(h.timestamp), h.previousHash, h.stateRoot, Dec(h.difficulty), h.miner, Dec(h.nonce)]
  }

  function HeaderPayload(h: Header): string {
    Join(HeaderFields(h))
  }

  /** The miner's text may hold colons: the nonce after it is digits. */
  predicate CleanHeader(h: Header) {
    ColonFree(h.previousHash) && ColonFree(h.stateRoot)
  }

  lemma DigitsAreColonFree(s: string)
    requires AllDigits(s)
    ensures ColonFree(s) && ColonFree("-" + s) && ';' !in s
  {
  }

  lemma BigStringIsInjective(m: int, n: int)
    requires BigString(m) == BigString(n)
    ensures m == n
  {
    BigParseOfBigString(m);
    BigParseOfBigString(n);
  }

  /** Text ends in a field of digits: the digits are the number, whatever the text before holds. */
  lemma LastNumberIsUnique(a: string, m: nat, b: string, n: nat)
    requires a + ":" + Dec(m) == b + ":" + Dec(n)
    ensures a == b && m == n
  {
    hide Dec;
    DigitsAreColonFree(Dec(m));
    DigitsAreColonFree(Dec(n));
    LastSeparatorIsUnique(a, Dec(m), b, Dec(n), ':');
    DecIsInjective(m, n);
  }

  /** The fields before the miner, each colon-free, and then the miner and the nonce as one text. */
  function HeaderHead(h: Header): seq<string> {
    [Dec(h.index), BigString(h.timestamp), h.previousHash, h.stateRoot, Dec(h.difficulty),
     h.miner + ":" + Dec(h.nonce)]
  }

  lemma HeaderPayloadIsHead(h: Header)
    ensures HeaderPayload(h) == Join(HeaderHead(h))
  {
    hide Dec, BigString, Join;
    var f, g := HeaderFields(h), HeaderHead(h);
    JoinOf7(f);
    JoinOf6(g);
  }

  /** The hashed text, field by field. */
  lemma HeaderPayloadIs(h: Header)
    ensures HeaderPayload(h)
         == Dec(h.index) + ":" + (BigString(h.timestamp) + ":" + (h.previousHash + ":" + (h.stateRoot + ":"
            + (Dec(h.difficulty) + ":" + (h.miner + ":" + Dec(h.nonce))))))
  {
    hide Dec, BigString, Join;
    JoinOf7(HeaderFields(h));
  }

  /** A header with colon-free hashes is determined by its hashed text. */
  lemma HeaderPayloadIsInjective(g: Header, h: Header)
    requires CleanHeader(g) && CleanHeader(h)
    requires HeaderPayload(g) == HeaderPayload(h)
    ensures g == h
  {
    hide Dec, BigString, Join, HeaderPayload;
    HeaderHeadClean(g);
    HeaderHeadClean(h);
    HeaderPayloadIsHead(g);
    HeaderPayloadIsHead(h);
    JoinIsInjective(HeaderHead(g), HeaderHead(h));
    assert forall i :: 0 <= i < 6 ==> HeaderHead(g)[i] == HeaderHead(h)[i];
    DecIsInjective(g.index, h.index);
    BigStringIsInjective(g.timestamp, h.timestamp);
    DecIsInjective(g.difficulty, h.difficulty);
    LastNumberIsUnique(g.miner, g.nonce, h.miner, h.nonce);
  }

  lemma HeaderHeadClean(h: Header)
    requires CleanHeader(h)
    ensures forall i :: 0 <= i < 5 ==> ColonFree(HeaderHead(h)[i])
  {
    DigitsAreColonFree(Dec(h.index));
    DigitsAreColonFree(Dec(if h.timestamp < 0 then -h.timestamp else h.timestamp));
    DigitsAreColonFree(Dec(h.difficulty));
  }

  lemma TxPayloadIs(tx: Tx)
    ensures TxPayload(tx)
         == tx.sender + ":" + (tx.recipient + ":" + Dec(tx.amount) + ":" + Dec(tx.fee) + ":" + Dec(tx.nonce))
  {
    hide Dec, Join;
    JoinOf5(TxFields(tx));
  }

  /**
   * What is signed fixes every field of a transaction but the signature, for colon-free senders; a
   * recipient may hold anything, because three fields of digits follow it.
   */
  lemma TxPayloadIsInjective(t: Tx, u: Tx)
    requires ColonFree(t.sender) && ColonFree(u.sender)
    requires TxPayload(t) == TxPayload(u)
    ensures t == u.(signature := t.signature)
  {
    hide Dec, TxPayload;
    TxPayloadIs(t);
    TxPayloadIs(u);
    var x, y := t.recipient + ":" + Dec(t.amount), u.recipient + ":" + Dec(u.amount);
    var v, w := x + ":" + Dec(t.fee), y + ":" + Dec(u.fee);
    FirstSeparatorIsUnique(t.sender, v + ":" + Dec(t.nonce), u.sender, w + ":" + Dec(u.nonce), ':');
    LastNumberIsUnique(v, t.nonce, w, u.nonce);
    LastNumberIsUnique(x, t.fee, y, u.fee);
    LastNumberIsUnique(t.recipient, t.amount, u.recipient, u.amount);
  }

  /** Colons do matter: moving one between two fields leaves the hashed text as it was. */
  lemma ColonsCollide(h: Header, a: string, b: string, d: string)
    ensures HeaderPayload(h.(previousHash := a + ":" + b, stateRoot := d))
         == HeaderPayload(h.(previousHash := a, stateRoot := b + ":" + d))
  {
    hide Dec, BigString, Join;
    var f := HeaderFields(h.(previousHash := a + ":" + b, stateRoot := d));
    var g := HeaderFields(h.(previousHash := a, stateRoot := b + ":" + d));
    JoinOf7(f);
    JoinOf7(g);
    var tail := f[4] + ":" + (f[5] + ":" + f[6]);
    assert a + ":" + b + ":" + (d + ":" + tail) == a + ":" + (b + ":" + d + ":" + tail);
  }

  lemma JoinOf5(f: seq<string>)
    requires |f| == 5
    ensures Join(f) == f[0] + ":" + (f[1] + ":" + f[2] + ":" + f[3] + ":" + f[4])
  {
    assert Join(f[3..]) == f[3] + ":" + f[4] && Join(f[2..]) == f[2] + ":" + Join(f[3..]);
    assert Join(f[1..]) == f[1] + ":" + Join(f[2..]);
    assert f[1] + ":" + (f[2] + ":" + (f[3] + ":" + f[4])) == f[1] + ":" + f[2] + ":" + f[3] + ":" + f[4];
  }

  lemma JoinOf6(f: seq<string>)
    requires |f| == 6
    ensures Join(f) == f[0] + ":" + (f[1] + ":" + (f[2] + ":" + (f[3] + ":" + (f[4] + ":" + f[5]))))
  {
    assert Join(f[4..]) == f[4] + ":" + f[5] && Join(f[3..]) == f[3] + ":" + Join(f[4..]);
    assert Join(f[2..]) == f[2] + ":" + Join(f[3..]) && Join(f[1..]) == f[1] + ":" + Join(f[2..]);
  }

  lemma JoinOf7(f: seq<string>)
    requires |f| == 7
    ensures Join(f) == f[0] + ":" + (f[1] + ":" + (f[2] + ":" + (f[3] + ":" + (f[4] + ":" + (f[5] + ":" + f[6])))))
  {
    assert Join(f[5..]) == f[5] + ":" + f[6];
    assert Join(f[4..]) == f[4] + ":" + Join(f[5..]) && Join(f[3..]) == f[3] + ":" + Join(f[4..]);
    assert Join(f[2..]) == f[2] + ":" + Join(f[3..]) && Join(f[1..]) == f[1] + ":" + Join(f[2..]);
  }
}
