/**
 * Account state: applying transactions and rewards, and the state root (internal/chain/state.go).
 *
 * A block's work is a list of events. The specification runs events on a map value; class ChainState
 * is the map the source writes in place.
 */
module LedgerState {
  import opened Numbers
  import opened Results
  import opened Decimal
  import opened Types
  import opened Crypto
  import opened Sorting

  datatype TxError = InsufficientBalance | InvalidNonce | InvalidSignature

  datatype Event =
    | Apply(tx: Tx, miner: string)
    | Reward(miner: string, amount: u64)

  /** The uint64 sum a sender is charged; it wraps. */
  function Cost(tx: Tx): u64 {
    Add64(tx.amount, tx.fee)
  }

  function Credit(st: State, a: string, amount: u64): State {
    st[a := Account(Add64(Get(st, a).balance, amount), Get(st, a).nonce)]
  }

  function Charge(st: State, a: string, cost: u64): State
    requires cost <= Get(st, a).balance
  {
    st[a := Account(Get(st, a).balance - cost, Add64(Get(st, a).nonce, 1))]
  }

  /** The error a transfer meets first, if any. */
  function Refusal(c: Scheme, st: State, tx: Tx): Option<TxError> {
    if Get(st, tx.sender).balance < Cost(tx) then Some(InsufficientBalance)
    else if Get(st, tx.sender).nonce != tx.nonce then Some(InvalidNonce)
    else if !c.verify(tx.sender, TxPayload(tx), tx.signature) then Some(InvalidSignature)
    else None
  }

  predicate FeeIsPaid(tx: Tx, miner: string) {
    0 < tx.fee && miner != ""
  }

  /** A valid transfer's effect: the recipient and miner are read after the sender is written. */
  function Transferred(st: State, tx: Tx, miner: string): State
    requires Cost(tx) <= Get(st, tx.sender).balance
  {
    var paid := Credit(Charge(st, tx.sender, Cost(tx)), tx.recipient, tx.amount);
    if FeeIsPaid(tx, miner) then Credit(paid, miner, tx.fee) else paid
  }

  function ApplyTx(c: Scheme, st: State, tx: Tx, miner: string): Result<State, TxError> {
    if IsCoinbase(tx) then Success(Credit(st, tx.recipient, tx.amount))
    else
      match Refusal(c, st, tx)
      case Some(e) => Failure(e)
      case None => Success(Transferred(st, tx, miner))
  }

  function Rewarded(st: State, miner: string, reward: u64): State {
    if miner == "" || reward == 0 then st else Credit(st, miner, reward)
  }

  function Occur(c: Scheme, st: State, e: Event): Result<State, TxError> {
    match e
    case Apply(tx, miner) => ApplyTx(c, st, tx, miner)
    case Reward(miner, amount) => Success(Rewarded(st, miner, amount))
  }

  /** Running events in order, stopping at the first refusal. */
  function Run(c: Scheme, st: State, es: seq<Event>): Result<State, TxError>
    decreases |es|
  {
    if es == [] then Success(st)
    else
      match Occur(c, st, es[0])
      case Failure(e) => Failure(e)
      case Success(st') => Run(c, st', es[1..])
  }

  lemma ApplyIsOccur(c: Scheme, st: State, tx: Tx, miner: string)
    ensures Occur(c, st, Apply(tx, miner)) == ApplyTx(c, st, tx, miner)
  {
  }

  lemma {:induction false} RunOne(c: Scheme, st: State, e: Event)
    ensures Run(c, st, [e]) == Occur(c, st, e)
  {
    assert [e][1..] == [];
  }

  lemma {:induction false} RunConcat(c: Scheme, st: State, es: seq<Event>, fs: seq<Event>)
    ensures Run(c, st, es + fs) ==
            match Run(c, st, es)
            case Failure(e) => Failure(e)
            case Success(st') => Run(c, st', fs)
    decreases |es|
  {
    if es == [] {
      assert es + fs == fs;
    } else {
      assert (es + fs)[1..] == es[1..] + fs;
      match Occur(c, st, es[0])
      case Failure(_) =>
      case Success(st') => RunConcat(c, st', es[1..], fs);
    }
  }

  function Applies(txs: seq<Tx>, miner: string): (es: seq<Event>)
    ensures |es| == |txs|
  {
    seq(|txs|, i requires 0 <= i < |txs| => Apply(txs[i], miner))
  }

  /** What a block does to the state. The genesis block brings no reward. */
  function BlockEvents(b: Block, reward: u64): seq<Event> {
    Applies(b.txs, b.header.miner) + if b.header.index == 0 then [] else [Reward(b.header.miner, reward)]
  }

  // ----- the state root -----

  function Entry(a: string, acc: Account): string {
    a + ":" + (Dec(acc.balance) + ":" + (Dec(acc.nonce) + ";"))
  }

  function Listing(st: State, keys: seq<string>): string {
    if keys == [] then "" else Entry(keys[0], Get(st, keys[0])) + Listing(st, keys[1..])
  }

  /** The text the state root hashes. */
  ghost function RootText(st: State): string {
    if st == map[] then "empty" else Listing(st, SortedKeys(st.Keys))
  }

  ghost function Root(c: Scheme, st: State): string {
    c.hash(RootText(st))
  }

  /** Go ranges over a map in no fixed order. */
  method CollectAddresses(st: State) returns (addrs: seq<string>)
    ensures multiset(addrs) == multiset(st.Keys)
  {
    addrs := [];
    var left := st.Keys;
    while left != {}
      invariant left <= st.Keys
      invariant multiset(addrs) + multiset(left) == multiset(st.Keys)
      decreases left
    {
      var addr :| addr in left;
      assert multiset(left) == multiset(left - {addr}) + multiset{addr};
      left := left - {addr};
      addrs := addrs + [addr];
    }
  }

  /** The root is a function of the state alone, whatever order the addresses come in. */
  method ComputeStateRoot(c: Scheme, st: State) returns (root: string)
    ensures root == Root(c, st)
  {
    if |st| == 0 {
      return c.hash("empty");
    }
    var addrs := CollectAddresses(st);
    SortingForgetsOrder(addrs, st.Keys);
    addrs := SortStrings(addrs);
    var parts := ListAccounts(st, addrs);
    root := c.hash(parts);
  }

  method ListAccounts(st: State, addrs: seq<string>) returns (parts: string)
    ensures parts == Listing(st, addrs)
  {
    hide Entry, Get;
    parts := "";
    var i := 0;
    while i < |addrs|
      invariant 0 <= i <= |addrs|
      invariant parts + Listing(st, addrs[i..]) == Listing(st, addrs)
    {
      var acc := Get(st, addrs[i]);
      var entry := Entry(addrs[i], acc);
      assert addrs[i..][1..] == addrs[i + 1..];
      assert parts + (entry + Listing(st, addrs[i + 1..])) == parts + entry + Listing(st, addrs[i + 1..]);
      parts := parts + entry;
      i := i + 1;
    }
  }

  // ----- the map written in place -----

  class ChainState {
    var accounts: State

    constructor ()
      ensures accounts == map[]
    {
      accounts := map[];
    }

    /** A copy: later writes to either do not show in the other. */
    method Clone() returns (s: ChainState)
      ensures fresh(s) && s.accounts == accounts
    {
      s := new ChainState();
      var left := accounts.Keys;
      while left != {}
        invariant left <= accounts.Keys
        invariant s.accounts == map a | a in accounts && a !in left :: accounts[a]
        decreases left
      {
        var a :| a in left;
        s.accounts := s.accounts[a := accounts[a]];
        left := left - {a};
      }
    }

    /** Refused transactions leave the map as it was. */
    method ApplyTransaction(c: Scheme, tx: Tx, miner: string) returns (error: Option<TxError>)
      modifies this
      ensures match ApplyTx(c, old(accounts), tx, miner)
              case Failure(e) => error == Some(e) && accounts == old(accounts)
              case Success(st) => error == None && accounts == st
    {
      hide Add64, Sub64, TxPayload;
      if tx.sender == "" {
        var acc := Get(accounts, tx.recipient);
        accounts := accounts[tx.recipient := Account(Add64(acc.balance, tx.amount), acc.nonce)];
        return None;
      }
      var sender := Get(accounts, tx.sender);
      if sender.balance < Cost(tx) {
        return Some(InsufficientBalance);
      }
      if sender.nonce != tx.nonce {
        return Some(InvalidNonce);
      }
      if !c.verify(tx.sender, TxPayload(tx), tx.signature) {
        return Some(InvalidSignature);
      }
      Sub64IsExact(sender.balance, Cost(tx));
      accounts := accounts[tx.sender := Account(Sub64(sender.balance, Cost(tx)), Add64(sender.nonce, 1))];
      var recipient := Get(accounts, tx.recipient);
      accounts := accounts[tx.recipient := Account(Add64(recipient.balance, tx.amount), recipient.nonce)];
      if 0 < tx.fee && miner != "" {
        var m := Get(accounts, miner);
        accounts := accounts[miner := Account(Add64(m.balance, tx.fee), m.nonce)];
      }
      error := None;
    }

    method ApplyBlockReward(miner: string, reward: u64)
      modifies this
      ensures accounts == Rewarded(old(accounts), miner, reward)
    {
      if miner == "" || reward == 0 {
        return;
      }
      var m := Get(accounts, miner);
      accounts := accounts[miner := Account(Add64(m.balance, reward), m.nonce)];
    }
  }
}
