/** Transactions, blocks and accounts (internal/types/types.go). */
module Types {
  import opened Numbers

  datatype Tx = Tx(sender: string, recipient: string, amount: u64, fee: u64, nonce: u64, signature: string)

  datatype Header = Header(index: u64, timestamp: int, previousHash: string, stateRoot: string,
                           difficulty: u64, miner: string, nonce: u64)

  datatype Block = Block(header: Header, txs: seq<Tx>, hash: string)

  datatype Account = Account(balance: u64, nonce: u64)

  type State = map<string, Account>

  /** Reading a Go map: a missing address has the zero account. */
  function Get(st: State, a: string): Account {
    if a in st then st[a] else Account(0, 0)
  }

  /** A mint: the empty sender of coinbase and genesis transactions. */
  predicate IsCoinbase(tx: Tx) {
    tx.sender == ""
  }
}
