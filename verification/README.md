# OneX: a verified model of the node, the swap pools and the amount codecs

This project models the parts of OneX that move value and proves what they keep.

- **The node** (`Types`, `Crypto`, `LedgerState`, `StateRoot`, `Consensus`, `Storage`, `Chain`, `Mempool`,
  `Network`, `Node`, `Startup`): account state, transactions, proof of work, validate-then-commit of blocks, the
  transaction pool, the mining loop and block sync. `Protocol` puts any number of nodes together with messages that
  may be lost, repeated and reordered; `History` says what a chain made by producers is; `ProofOfWork` and `Signatures`
  say exactly which blocks and transfers are accepted; `PlainRuns` and `Forks` say
  when equal tips mean equal states; `Coins`, `Nonces`, `Commutation`, `Batches` and
  `ReachableLedgers` hold the ledger theorems.
- **The swap pools** (`Amm`, `AmmRuns`, `AmmExact`) and their **bookkeeping** across pools and portfolios (`Bookkeeping`,
  `BookRuns`, `BookMoves`, `TokenNames`, `Conservation`, `LostTokens`, `Bridge`).
- **Three smaller groups**: amount printers and parsers (`Amounts`, `AmountTexts`), the migration of legacy balance keys
  (`LegacyNames`, `Migration`) and the sliding-window rate limiter (`RateLimit`).

`Results`, `Numbers`, `Text`, `Decimal`, `Sums` and `Sorting` hold what these share.

Where the source writes fields in place, the model has a class with those fields, and each method is proved to do
what a function on values says; the theorems are about that function. Verify everything with
`dafny verify dfyconfig.toml`.

## What is assumed

- The hash is any function that is injective and gives non-empty, colon-free text (`Crypto.Sound`); the signature
  check is any predicate. No theorem uses more of SHA-256 or Ed25519, and only theorems about hashes use this much.
- Nodes of one network share one genesis block. `Startup.GenesisFounds` proves that what `NewGenesisBlock` and
  `New` make qualifies. Addresses may be any text: nothing checks a transaction's recipient.
- Theorems about whole runs speak of blocks a producer mined (`History.Known`) on chains shorter than 2^64 - 1
  blocks. `Startup.AcceptedBlockAppends` and `SkippedIndexIsAccepted` say what other blocks can do.
- A mining step ends only if some nonce wins (`Consensus.Minable`); the source loops for ever otherwise.
- The pool theorems are for a solo miner whose submissions are no mints and whose amount plus fee fits 64 bits,
  with fewer than 2^64 coins in existence. Validating and pooling a transaction is one step.
- `FeeBps` is from 0 to 10000. Tokens may have any names.
- `uint64` arithmetic wraps, and the model wraps it; `big.Int` values are unbounded.
- Writes to the stores do not fail. The clock is a parameter; the limiter's does not go back.

## What turned out false, and exactly when it holds

- Equal tip hashes do not always mean equal states. The headers agree throughout; the states agree exactly when no
  address of the one continues past an entry `address:balance:nonce;` that only the other has
  (`Protocol.EqualTipsAgree`). Addresses without `:` or without `;` never do (`PlainRuns.PlainRunsAgree`). On any
  network with hexadecimal addresses two mining steps do it, with the recipients `!` and `#` on one node and `!:1:0;#`
  on the other (`Forks.EqualTipsUnequalStates`, `Forks.AddressesInPlace`), and syncing does not mend it
  (`Forks.NothingToCatchUpOn`).
- Opening a stored chain again gives back its live state exactly when it holds nothing but its genesis block, and its
  headers exactly when also the clock shows that block's time (`Startup.RestartRestores`). Above height 0 the genesis
  block is judged against the stored tip and refused, and the node does not start.
- The index guard accepts blocks that skip indices; those with the next index are exactly the ones appended
  (`Startup.AcceptedBlockAppends`, `Startup.SkippedIndexIsAccepted`).
- A transfer's amount plus fee can wrap to a small charge, and then it creates coins (`Coins.WrappedChargeMints`;
  the exact condition is in `Coins.SupplyOfTransfer`).
- Transactions of distinct senders, each valid alone, do not always succeed in every order: a credit can wrap and leave
  its recipient poorer. Every transfer whose charge wraps can do this (`Batches.WrappedChargeBreaksBatch`), and so can
  plain payments once mints have issued 2^64 coins (`Batches.OverfullSupplyBreaksBatch`). All orders succeed exactly when
  each transfer is covered by its sender's balance after every choice of the others (`Batches.OrderDoesNotMatter`);
  orders that do succeed always agree. Under the supply bound, with charges that fit, the condition holds
  (`Batches.BatchIsCovered`).
- A tick whose transactions are refused leaves them first in the pool, so without blocks from peers no later tick mines
  anything, whatever is submitted (`Node.MiningNode.MineLoop`, `Node.MiningNode.Tick`).
- There is no fork choice: once two nodes store different headers at one index, their tips differ ever after
  (`Forks.ForkNeverHeals`).
- `HumanToBaseUnits` does not invert `atomicToHumanStr` on negative fractions (`Amounts.BaseUnitsInvertHumanString`).
- `ParseAmount` accepts amounts above 64 bits and returns their low bits, as for `184467440738`
  (`Amounts.LargeAmountIsCut`, `Amounts.ParsersAgree`).
- Adding to a pool that exists, with the tokens in the other order, credits each amount to the wrong reserve
  (`LostTokens.ReversedAdd`, `Bookkeeping.AddConserves`).
- An add whose second deduction is refused keeps the first (`LostTokens.LostDeposit`,
  `Bookkeeping.RefusedAddKeepsBalances`, `Conservation.RunConserves`).
- A pool is found by its exact id, but a swap's side is picked up to case. In a pool of two tokens that differ in case
  only, swapping the second in is booked on the first (`LostTokens.CaseTwins`, `Bookkeeping.CaseTwinSwap`,
  `Bookkeeping.SwapConserves`).
- With a bar in a token's name two pairs can share a pool id; an add by the other pair puts the pool's tokens in from
  nowhere (`LostTokens.BarTwins`, `Bookkeeping.BarsCollide`, `Bookkeeping.BarTwinAdd`). Names without bars that do not
  differ in case only, added in order, are safe in every run (`TokenNames.PlainRunMatches`).
- LP tokens can exceed a pool's shares when they are themselves in a pool and an add to that pool is reversed
  (`LostTokens.LpBoundBroken`); in runs of requests that name no LP tokens they never do, whatever else those do
  (`BookRuns.CoinRunKeepsLp`).
- The slippage guard compares two quotes of one pool copy, so up to 10000 basis points it never fires
  (`Bookkeeping.SlippageNeverFires`).
- Reserves without shares go to whoever adds first (`AmmRuns.AddThenRemove`).
- The comment in `syncFromPeers` speaks of the first peer; the code asks every higher one
  (`Network.Server.SyncFromPeers`).

## Model

| member | source | states |
|---|---|---|
| Amm.QuoteSwap | internal/bridge/amm/pool.go:57-85 | A quote succeeds only for a positive input into a funded side and stays strictly below the other reserve; "pool drained" is never its error |
| AmmExact.QuoteIsExact | internal/bridge/amm/pool.go:57-85 | A quote succeeds exactly when the token folds to one of the pool's, both reserves and the input are non-zero and 2^64 would be too much; it is then the greatest payment that keeps the product net of the fee, for either direction |
| AmmRuns.OutIsGreatest | internal/bridge/amm/pool.go:71-75 | The output is the greatest one that keeps the reserve product when only the input net of the fee is counted: both directions |
| AmmRuns.LeftAfterIsCeiling | internal/bridge/amm/pool.go:71-75 | The reserve left behind is the exact quotient rounded up |
| Amm.Pool.Swap | internal/bridge/amm/pool.go:88-106 | A swap meets its quote, moves both reserves by exactly input and output, leaves both positive; an error changes nothing and is never "pool drained" |
| AmmExact.SwapIsExact | internal/bridge/amm/pool.go:93-101 | A swap moves the whole input into the entered reserve and the payment out of the other, and nothing else |
| Amm.Sqrt | internal/bridge/amm/pool.go:115-119 | The greatest s whose square does not exceed n, as big.Int's Sqrt |
| Amm.Pool.AddLiquidity | internal/bridge/amm/pool.go:109-138 | Mints the quoted shares and adds both amounts, or fails with the source's error and changes nothing |
| AmmExact.AddIsExact | internal/bridge/amm/pool.go:109-138 | An empty pool takes any two non-zero amounts for the rounded root of their product; a funded one mints the most shares both amounts back, unless that is 2^64 or more; shares over an empty side panic |
| AmmRuns.MintIsGreatest | internal/bridge/amm/pool.go:120-130 | The mint on a funded pool is the most shares that keep both reserves' amounts per share: both directions |
| Amm.Pool.RemoveLiquidity | internal/bridge/amm/pool.go:141-159 | Succeeds exactly when something can be burnt with one share left; reserves drop by the exact redemption, the pay-out is its low 64 bits |
| AmmExact.RemoveIsExact | internal/bridge/amm/pool.go:141-159 | Fewer shares than there are burn exactly those, all or more leave one, nothing else burns; each side pays its floored part for the shares burnt |
| AmmRuns.RedeemIsGreatest | internal/bridge/amm/pool.go:150-157 | The redemption is the most that keeps both reserves' amounts per share: both directions |
| AmmRuns.SwapKeepsProduct | internal/bridge/amm/pool.go:88-106 | A swap never lowers the product of the reserves |
| AmmRuns.SplitInTwo | internal/bridge/amm/pool.go:57-106 | Paying a1 and then a2 leaves the pool at least what paying a1 + a2 leaves, floors and retained fee included |
| AmmRuns.SplittingNeverPays | internal/bridge/amm/pool.go:57-106 | Any sequence of same-direction swaps yields at most the exact-in formula's output for their sum |
| AmmRuns.OneSwapBeatsItsParts | internal/bridge/amm/pool.go:57-106 | The same against the one swap of the sum a caller could have made |
| AmmRuns.AddKeepsEachSide | internal/bridge/amm/pool.go:109-138 | A successful add on a funded pool never lowers either reserve per share |
| AmmRuns.RemoveKeepsEachSide | internal/bridge/amm/pool.go:141-159 | A remove never lowers either reserve per share, and leaves a funded pool funded |
| AmmRuns.StepOnFunded | internal/bridge/amm/pool.go:88-159 | Any request on a funded pool leaves it funded, with r0' r1' s^2 >= r0 r1 s'^2 |
| AmmRuns.RunOnFunded | internal/bridge/amm/pool.go:88-159 | The same over any run of swaps, adds and removes |
| AmmRuns.FirstMintFits | internal/bridge/amm/pool.go:115-133 | The first mint always fits uint64, its square is at most the product, and it is positive for positive amounts |
| AmmRuns.StepFromEmpty | internal/bridge/amm/pool.go:88-159 | A pool that is empty, or funded with shares^2 <= r0 r1, stays so at every request; once funded it stays funded |
| AmmRuns.RunFromEmpty | internal/bridge/amm/pool.go:88-159 | The same over any run from an empty pool |
| AmmRuns.AddNeverPanics | internal/bridge/amm/pool.go:109-138 | After any run of a pool started empty an add never divides by zero: it fails only for a zero first amount or a mint above uint64 |
| AmmRuns.RunCreatesNothing | internal/bridge/amm/pool.go:88-159 | Over any run what a lone trader and the pool hold of each token together never grows, nor do the trader's shares outgrow the pool's |
| AmmRuns.NoFreeLunch | internal/bridge/amm/pool.go:88-159 | A lone trader who ends with at least their starting shares cannot have gained one token without paying in the other |
| AmmRuns.SwapAndBack | internal/bridge/amm/pool.go:57-106 | In any pool, with shares or without, swapping the output back returns at most the input |
| AmmRuns.AddThenRemove | internal/bridge/amm/pool.go:109-159 | Removing what an add minted redeems at most the deposit for every deposit, exactly when the pool has shares or at most one unit on each side; the amounts paid, cut to 64 bits, obey the same condition while reserves fit 64 bits |
| TokenNames.PoolIDIsInjective | internal/bridge/amm/pool.go:22-27 | The pool id of two bar-free tokens determines them up to order |
| Bookkeeping.BarsCollide | internal/bridge/amm/pool.go:22-27 | With a bar in a name two different pairs have one pool id |
| Bridge.Portfolio.AddBalance | internal/bridge/portfolio.go:183-185 | Adds with uint64 wrap-around to that key only |
| Bridge.Portfolio.SubBalance | internal/bridge/portfolio.go:187-194 | Deducts exactly when the balance covers it, else changes nothing |
| Bridge.PoolStore.Get | internal/bridge/amm/store.go:74-83 | Hands out a fresh copy of the stored pool, or nothing for an unknown id |
| Bridge.PoolStore.FindPool | internal/bridge/amm/store.go:85-88 | The copy of the pool of two tokens, in either order |
| Bridge.PoolStore.Update | internal/bridge/amm/store.go:100-105 | Files the pool under its own id and touches no other |
| Bridge.Bridge.Quote | internal/bridge/onexswap.go:24-48 | Pool id, parsed amount and output, or the first error: amount, pool, quote |
| Bridge.Exchange | internal/bridge/onexswap.go:82-85 | Both portfolio writes of a swap, or none |
| Bridge.Bridge.Swap | internal/bridge/onexswap.go:51-109 | One swap on the cached portfolio and the pool store follows the run specification's step, errors included |
| BookMoves.SwapMoves | internal/bridge/onexswap.go:51-109 | When a swap succeeds, and what it does to every balance and both reserves |
| BookMoves.MinOutIs | internal/bridge/onexswap.go:70-73 | The least payment let through is the floored part of the quote that the slippage leaves |
| BookMoves.SlippageAboveFires | internal/bridge/onexswap.go:70-76 | With slippage 10001 the guard refuses a payment of 1 |
| Bridge.Bridge.PoolFor | internal/bridge/onexswap.go:134-145 | The stored pool with the amounts as given, or a new empty pool with tokens and amounts put in order |
| BookMoves.TargetNames | internal/bridge/onexswap.go:134-145 | Each amount stays with its token when a new pool puts its tokens in order; a stored pool takes them as given |
| Bridge.PayIn | internal/bridge/onexswap.go:154-161 | Two deductions, then the LP credit; a refused second deduction leaves the first made |
| Bridge.Bridge.AddLiquidity | internal/bridge/onexswap.go:122-168 | One add follows the run specification's step, partial failure included |
| BookMoves.AddMoves | internal/bridge/onexswap.go:122-163 | When an add succeeds, and that it takes exactly the first amount of the first token and the second of the second, in either order, for a new or a stored pool, and credits the shares |
| BookMoves.AddedPool | internal/bridge/onexswap.go:134-147 | A new pool holds of each token the amount given for it, the rounded root as shares, and a fee of 30; a stored pool grows by the amounts in the order given |
| Bridge.Bridge.RemoveLiquidity | internal/bridge/onexswap.go:170-199 | One remove follows the run specification's step |
| BookMoves.RemoveMoves | internal/bridge/onexswap.go:170-199 | When a remove succeeds, what it burns and pays, and what it does to every balance |
| Bookkeeping.HoldingsOfPut | internal/bridge/onexswap.go:86-87 | Saving one portfolio and one pool moves a token's total over all portfolios and pools by exactly what those two changed |
| Bookkeeping.HoldingsOfSwap | internal/bridge/onexswap.go:51-109 | The exact change of every token's total by a swap, whatever tokens it names |
| Bookkeeping.SwapConserves | internal/bridge/onexswap.go:51-109 | A swap conserves every token exactly when the tokens it names are the ones the pool moves and its credit does not wrap; the first alone means it creates none |
| Bookkeeping.CaseTwinSwap | internal/bridge/amm/pool.go:95-101 | In a pool of tokens that differ in case only, swapping the second in raises the first's total by amounts in and out and lowers the second's by them |
| Bookkeeping.SlippageNeverFires | internal/bridge/onexswap.go:65-76 | For slippage up to 10000 the minimum never exceeds the output |
| Bookkeeping.HoldingsOfAdd | internal/bridge/onexswap.go:134-163 | The exact change of every token's total by a successful add, whatever tokens it names |
| Bookkeeping.AddConserves | internal/bridge/onexswap.go:134-163 | A successful add conserves every token but the LP token exactly when the amounts it deducts are the ones the pool gains |
| Bookkeeping.BarTwinAdd | internal/bridge/onexswap.go:134-163 | An add by a pair that shares the pool's id takes its own tokens and puts the pool's in from nowhere |
| Bookkeeping.RefusedAddKeepsBalances | internal/bridge/onexswap.go:146-159 | A refused add leaves the balances as they were exactly when it was refused before a non-zero first deduction |
| Bookkeeping.RemoveConserves | internal/bridge/onexswap.go:180-195 | A remove never creates a token, conserves every other token exactly when nothing is cut to 64 bits and no credit wraps, and burns the shares given, clamp included |
| BookRuns.AddTargetFits | internal/bridge/onexswap.go:134-145 | The pool an add works on is the stored funded one, or a new empty one under the same id |
| BookRuns.SwapKeepsPools | internal/bridge/onexswap.go:51-109 | A swap naming any tokens keeps pools funded, undiluted and filed under their id |
| BookRuns.SwapKeepsTokens | internal/bridge/onexswap.go:51-109 | A swap of the pool's own tokens creates nothing, LP tokens included, and mints no shares |
| BookRuns.AddKeepsPools | internal/bridge/onexswap.go:122-168 | A successful add naming any tokens keeps pools funded, undiluted and filed under their id |
| BookRuns.AddKeepsTokens | internal/bridge/onexswap.go:122-168 | An add of the pool's own tokens moves no total but its LP token's, by at most the shares it mints |
| BookRuns.RefusedAddKeeps | internal/bridge/onexswap.go:146-159 | A refused add naming any tokens keeps every pool and creates nothing |
| BookRuns.RemoveKeepsPools | internal/bridge/onexswap.go:170-199 | A remove keeps pools funded, undiluted and filed under their id |
| BookRuns.RemoveKeepsTokens | internal/bridge/onexswap.go:170-199 | A remove creates nothing and takes at least as many LP tokens as it burns shares, the clamped burn included |
| BookRuns.OpKeepsPools | internal/bridge/onexswap.go:51-199 | Every request, naming any tokens, refused or not, keeps pools funded and undiluted |
| BookRuns.OpCreatesNone | internal/bridge/onexswap.go:51-199 | A request that names the tokens its pool moves creates no token but LP tokens |
| BookRuns.OpKeepsLp | internal/bridge/onexswap.go:51-199 | A request that names the tokens its pool moves, or puts in none that is an LP token, keeps LP tokens within shares |
| BookRuns.RunKeepsPools | internal/bridge/onexswap.go:51-199 | Over any run of any requests by any number of portfolios every pool stays funded and undiluted |
| BookRuns.RunCreatesNone | internal/bridge/onexswap.go:51-199 | Over any run of requests that name the tokens their pools move no token but LP tokens is created |
| BookRuns.RunKeepsLp | internal/bridge/onexswap.go:51-199 | Over any run of requests that each name the tokens their pool moves or put in no LP token, LP tokens over all portfolios and pools stay within the shares |
| BookRuns.CoinRunKeepsLp | internal/bridge/onexswap.go:51-199 | The same of every run in which adds name no LP token and swaps take none out: reversed adds, case twins and bar twins included |
| BookRuns.SeedsAreBacked | internal/bridge/amm/store.go:24-43 | Before anyone holds LP tokens any stored pools of coins meet the LP bound, the seeded pools included |
| TokenNames.PlainOpMatches | internal/bridge/onexswap.go:51-199 | Bar-free names that do not differ in case only, added in order, are the ones the pool moves, and only pools of such names are made |
| TokenNames.PlainRunMatches | internal/bridge/onexswap.go:51-199 | So every run of such requests meets the condition of the run theorems |
| Conservation.OpConserves | internal/bridge/onexswap.go:51-199 | With less than 2^64 of each token but LP tokens, a request that names the tokens its pool moves keeps the total of every token but LP tokens exactly when it is not an add that loses its first deposit |
| Conservation.RunConserves | internal/bridge/onexswap.go:51-199 | Over any run of such requests every token's total but LP tokens' ends as it began exactly when no add on the way lost its first deposit |
| LostTokens.ReversedAdd | internal/bridge/onexswap.go:134-163 | A real add in the other order that turns one token into the other |
| LostTokens.LostDeposit | internal/bridge/onexswap.go:150-159 | A real refused add that takes its first deposit |
| LostTokens.CaseTwins | internal/bridge/onexswap.go:51-109 | A real swap between tokens that differ in case only, and what it creates and destroys |
| LostTokens.BarTwins | internal/bridge/onexswap.go:134-163 | A real add by a pair that shares a pool's id, and what it creates |
| LostTokens.LpBoundBroken | internal/bridge/onexswap.go:134-163 | A real reversed add to a pool of an LP token, after which more LP tokens are held than there are shares |
| Amounts.FormatUint | internal/bridge/ledger.go:149-161 | Filling the buffer backwards writes the decimal of n |
| Amounts.AtomicToHumanStr | internal/ledger/evm.go:172-195 | The loops write the text HumanString specifies, "0" for no number |
| Amounts.PaddedFraction | internal/ledger/evm.go:186-194 | The padded, trimmed remainder is never empty and stands for the remainder at the given decimals |
| Amounts.ParseAmount | internal/rpc/rpc.go:193-218 | The amount denoted by a text, cut to 64 bits, or nothing for a text it refuses |
| Amounts.AmountIsScaled | internal/rpc/rpc.go:193-218 | The amount denoted is the whole and padded fraction digits read as one number |
| Amounts.HumanToBaseUnits | internal/bridge/chains/pool_live.go:66-96 | The loops return the units BaseUnits specifies, nothing for a text it refuses |
| Amounts.BaseUnitsOfPlain | internal/bridge/chains/pool_live.go:66-96 | A plain decimal text is read as its digits scaled to the decimals |
| Amounts.HumanSupplyToRaw | bsc-launcher/server/flashmirror_reload.go:148-178 | The loops write the text SupplyRaw specifies |
| Amounts.RawOfDigits | bsc-launcher/server/flashmirror_reload.go:148-178 | On digits the result is the canonical decimal of the scaled amount |
| Amounts.ParseInvertsFormat | internal/wallet/wallet.go:104-109 | ParseAmount reads back the numeric part of FormatBalance, the text before its symbol, for every uint64 |
| Amounts.BaseUnitsInvertHumanString | internal/ledger/evm.go:172-195 | HumanToBaseUnits inverts atomicToHumanStr exactly for non-negative decimals and a non-negative or whole amount |
| Amounts.ParsersAgree | internal/rpc/rpc.go:193-218 | On every text ParseAmount accepts the other two parsers give its exact value at 8 decimals; all three agree exactly when that value fits 64 bits |
| Amounts.WholeAmount | internal/rpc/rpc.go:193-218 | Every whole uint64 number of units is accepted, and the low 64 bits of its value returned |
| Amounts.LargeAmountIsCut | internal/rpc/rpc.go:193-218 | 184467440738 is accepted as 0.90448384 |
| AmountTexts.AmountAcceptsExactly | internal/rpc/rpc.go:193-218 | ParseAmount accepts exactly decimal text with a whole part below 2^64 and at most eight fraction digits, spaces around it allowed, and returns its value modulo 2^64 |
| AmountTexts.BaseUnitsReads | internal/bridge/chains/pool_live.go:66-96 | HumanToBaseUnits reads decimal text with commas and surrounding spaces at any decimals, and refuses a fraction that is too long |
| AmountTexts.SupplyReads | bsc-launcher/server/flashmirror_reload.go:148-178 | humanSupplyToRaw reads decimal text at any decimals and cuts a fraction that is too long; negative decimals give the empty text |
| AmountTexts.TrimSpaceIs | internal/rpc/rpc.go:194 | Trimming takes the spaces around a text and nothing else |
| AmountTexts.WithoutIs | internal/bridge/chains/pool_live.go:66-69 | Removing commas removes each of them and keeps the rest in order |
| AmountTexts.WithoutCommas | internal/bridge/chains/pool_live.go:66-69 | 1,000 is read as 1000 and 1,234,567.5 as 1234567.5 |
| AmountTexts.HumanStringIs | internal/ledger/evm.go:177-194 | The whole part, and if anything is left a point and its digits without a zero at their end |
| AmountTexts.FormatBalanceIs | internal/wallet/wallet.go:104-109 | Always eight fraction digits, and the symbol |
| Crypto.HeaderPayloadIsInjective | internal/crypto/crypto.go:67-70 | A header with colon-free hashes is determined by its hashed text, whatever its miner |
| Crypto.HeaderPayloadIs | internal/crypto/crypto.go:67-70 | The hashed text, field by field |
| Crypto.TxPayloadIs | internal/crypto/crypto.go:63-65 | The signed text, field by field |
| Crypto.TxPayloadIsInjective | internal/crypto/crypto.go:63-65 | The signed text determines every field but the signature, for colon-free senders and any recipients |
| Crypto.ColonsCollide | internal/crypto/crypto.go:67-70 | With colons in two fields different headers hash the same text |
| LedgerState.RunConcat | internal/chain/chain.go:175-183 | Running two lists of events is running their concatenation, stopping at the first refusal |
| StateRoot.EntriesAgreeOrOverlap | internal/chain/state.go:21-24 | Two entries that begin one text are the same, or the longer address continues past the other's whole entry |
| StateRoot.RootTextDecides | internal/chain/state.go:11-26 | Two states with one root preimage are equal exactly when no address of the one continues past an entry that only the other has |
| StateRoot.RootDecides | internal/chain/state.go:11-26 | The same of equal roots under a sound hash; addresses without : or without ; always qualify |
| StateRoot.FusedCollides | internal/chain/state.go:15-24 | Reading the first two accounts of any state as one leaves its root preimage as it was |
| StateRoot.RootTextOfTwo | internal/chain/state.go:11-26 | The preimage of a state of two accounts, and of none, letter by letter |
| LedgerState.CollectAddresses | internal/chain/state.go:15-18 | Ranging over the map lists every address once, in any order |
| Sorting.SortStrings | internal/chain/state.go:19 | A sorted permutation of its input |
| Sorting.SortingForgetsOrder | internal/chain/state.go:15-19 | Sorting gives one list whatever order the map was ranged over in |
| LedgerState.ListAccounts | internal/chain/state.go:20-24 | The loop appends the entries in list order |
| LedgerState.ComputeStateRoot | internal/chain/state.go:11-26 | The root is a function of the state alone, for every iteration order |
| LedgerState.ChainState.Clone | internal/types/types.go:80-86 | A fresh object with the same accounts |
| LedgerState.ChainState.ApplyTransaction | internal/chain/state.go:28-60 | In-place writes give the specified state, and an error leaves the map as it was |
| LedgerState.ChainState.ApplyBlockReward | internal/chain/state.go:62-69 | Credits the miner, or changes nothing without a miner or a reward |
| Signatures.TransferSucceedsExactly | internal/chain/state.go:36-45 | A transfer succeeds exactly when the balance covers the uint64 sum of amount and fee, the nonce is the sender's, and the signature check holds of sender, signed text and signature; and which error comes first |
| Signatures.AccountAfterRun | internal/chain/state.go:28-69 | After any run every account has what it had plus what it was credited less the amounts and fees of its transfers, modulo 2^64, and a nonce higher by their number |
| Signatures.TransfersAreSigned | internal/chain/state.go:43-45 | Every transfer of a run that succeeds is signed by its sender |
| Signatures.UnsignedIsUncharged | internal/chain/state.go:36-48 | An account that signed nothing in a run keeps its nonce and is only credited |
| Coins.SupplyOfTransfer | internal/chain/state.go:36-58 | The exact change of the supply by any transfer, parties coinciding included; it conserves coins exactly when its charge wraps as often as its credits |
| Coins.TransferWithinBound | internal/chain/state.go:36-58 | With fewer than 2^64 coins and a charge that fits, no credit wraps |
| Coins.SupplyOfEvent | internal/chain/state.go:28-69 | One mint, transfer or reward moves the supply by what it issues less what it burns: modulo 2^64 always, exactly within the bound |
| Coins.SupplyModulo64 | internal/chain/state.go:28-69 | Every run moves the supply by coins issued less fees burnt, modulo 2^64 |
| Coins.SupplyExact | internal/chain/state.go:28-69 | And exactly while no charge wraps and fewer than 2^64 coins were issued |
| Coins.WrappedChargeMints | internal/chain/state.go:37-52 | A charge that wraps to zero lets an empty account create 2^64 coins |
| Nonces.NonceIsCount | internal/chain/state.go:36-48 | An account's nonce moves by the number of its transfers on every run |
| Nonces.NonceIsPosition | internal/chain/state.go:40-47 | The k-th transfer of an account carries nonce k |
| Nonces.NoReplay | internal/chain/state.go:40-47 | From an empty ledger no (sender, nonce) is included twice within 2^64 events |
| Commutation.TransferIsMoves | internal/chain/state.go:46-58 | A transfer is the sum of its shifts: the charge on the sender, the amount to the recipient, the fee to the miner |
| Commutation.EffectsForgetOrder | internal/chain/state.go:28-60 | The combined effect of transfers does not depend on their order |
| Commutation.RunIsMoves | internal/chain/state.go:28-60 | Any list of transactions that succeeds, mints included, has the sum of their effects |
| Commutation.OrdersAgree | internal/chain/state.go:28-60 | Any two orders of any transactions that both succeed reach one state |
| Batches.AccountAfter | internal/chain/state.go:28-60 | An account that sends nothing in a run has its nonce, and its balance plus its credits modulo 2^64 |
| Batches.AcceptedAfter | internal/chain/state.go:36-45 | A transfer valid alone is accepted after transactions of others exactly when its charge is covered by balance plus credits modulo 2^64 |
| Batches.OrderDoesNotMatter | internal/mempool/mempool.go:48-60 | Transactions no two of which share a sender, each valid alone: all orders succeed exactly when every transfer is covered after every choice of the others, and all orders that succeed reach one state |
| Batches.BatchIsCovered | internal/mempool/mempool.go:48-60 | Below 2^64 coins, with charges that fit, that condition holds |
| Batches.WrappedChargeBreaksBatch | internal/chain/state.go:36-52 | For every transfer whose charge wraps, a state below 2^64 coins and a transfer by its recipient that is valid alone but fails after it |
| Batches.OverfullSupplyBreaksBatch | internal/chain/state.go:29-52 | Two mints, after which one of two valid payments fails after the other |
| Consensus.MutableBlock.MineBlock | internal/consensus/pow.go:10-19 | Stops at the first winning nonce after its start, changes only nonce and hash, and the hash is the header's |
| Consensus.Mined | internal/consensus/pow.go:10-19 | The header at the first winning attempt |
| ProofOfWork.MinedIsFirst | internal/consensus/pow.go:10-19 | Mining gives the header with the first nonce ahead whose payload hashes to the zeros asked for, all other fields as they were |
| Consensus.FirstWinIsUnique | internal/consensus/pow.go:12-18 | There is one first winning attempt |
| Storage.Store.PutBlock | internal/storage/storage.go:65-79 | Files the block under its index; the height only rises |
| Storage.Store.GetTip | internal/storage/storage.go:95-101 | The block at the recorded height, or nothing |
| Chain.Blockchain.ApplyAll | internal/chain/chain.go:176-180 | Runs the transactions in order and stops at the first refusal |
| Chain.Blockchain.ExecuteOn | internal/chain/chain.go:175-183 | One pass over a block: transactions, then the reward unless it is a genesis block |
| Chain.Blockchain.ApplyBlockInternal | internal/chain/chain.go:153-202 | All or nothing: a rejected block changes neither state nor store; after an accepted simulation the second pass cannot fail and reaches the checked state |
| Chain.Blockchain.ApplyBlock | internal/chain/chain.go:147-151 | The same for a block from a peer, always stored |
| ProofOfWork.AcceptedExactlyWhen | internal/chain/chain.go:153-202 | Any block at all is accepted exactly when it is in place, names the tip's hash, carries its header payload's hash with the zeros of its difficulty, and states the root its transactions and reward lead to; what is then stored, and that nothing changes otherwise |
| ProofOfWork.RefusedBecause | internal/chain/chain.go:158-187 | Which error any refused block gives |
| Chain.SimulatedIsRun | internal/chain/chain.go:118-124 | The producer's simulation is the validator's pass over the finished block |
| Chain.MinedLinks | internal/chain/chain.go:126-138 | Mining changes the nonce only, so the mined header links to the tip and passes the proof checks |
| Chain.ProducedIsAccepted | internal/chain/chain.go:109-144 | Every block a producer finishes passes applyBlockInternal at the same tip and state, with the next index |
| Chain.Blockchain.FinalizeAndMineBlock | internal/chain/chain.go:109-144 | Returns and commits the produced block, or the first refused transaction's error with nothing changed |
| ProofOfWork.ProducedIs | internal/chain/chain.go:109-144 | The produced block, field by field, or the first refused transaction's error |
| Chain.Blockchain.ValidateTx | internal/chain/chain.go:204-209 | The error a copy of the live state gives; the live state is untouched |
| Chain.Blockchain.RebuildState | internal/chain/chain.go:52-57 | The replay as written, each block judged against the tip already stored |
| Startup.NewGenesisBlock | internal/types/types.go:48-71 | One mint per allocated address, in any order, under the genesis header |
| Startup.GenesisRun | internal/chain/chain.go:35-37 | In whatever order they come, the mints give exactly the allocated balances |
| Startup.New | internal/chain/chain.go:21-50 | At height 0 a new mined genesis block and its allocation; above it the replay's outcome, and nothing stored |
| Startup.GenesisFounds | internal/chain/chain.go:28-43 | A genesis block so made founds a network whose replay is the allocation |
| Startup.RestartRestores | internal/chain/chain.go:21-57 | Opening a stored chain gives back its live state exactly for a lone genesis block, and its headers exactly when also the clock shows that block's time; longer chains fail on the index guard |
| Startup.AcceptedBlockAppends | internal/chain/chain.go:158-165 | Of all accepted blocks exactly those with the next index extend the stored chain |
| Startup.SkippedIndexIsAccepted | internal/chain/chain.go:158-173 | A well-made block that skips indices is accepted |
| History.ReplayIsPlain | internal/chain/chain.go:153-202 | Chains that write plain addresses lead to states of plain addresses |
| History.SameHashSameTip | internal/chain/chain.go:166-187 | Chains with equal tip hashes have the same length and tip header; their states are equal exactly when addresses do not overlap |
| History.Agreement | internal/chain/chain.go:153-202 | Chains with equal tip hashes have the same headers throughout; their states are equal exactly when addresses do not overlap |
| History.FollowerIsNext | internal/chain/chain.go:158-173 | Any known block whose previous hash is the tip's has the next index and passes the link and proof checks |
| History.FollowerExtends | internal/chain/chain.go:153-202 | If it also passes the state check, it makes the chain a longer valid chain |
| History.KnownBlockOffered | internal/chain/chain.go:153-202 | A node accepts a known block exactly when it follows its tip and passes the state check, and otherwise does not change |
| History.FollowerIsAccepted | internal/chain/chain.go:153-202 | A node in the state a block was built on, or with plain addresses, accepts it exactly when it follows the tip |
| Network.Server.SyncFromPeers | internal/network/network.go:132-145 | Asks exactly the higher peers, for the blocks after the own height |
| Network.Server.ServeBlocks | internal/network/network.go:204-218 | The stored blocks from an index on, up to the height or the first gap |
| Network.Server.ApplyBlocksSequential | internal/network/network.go:235-248 | Applies blocks in order, skipping absent ones, up to the first that is rejected |
| Network.RejectionStops | internal/network/network.go:235-248 | Blocks after a rejected one are not looked at |
| Network.AppliedOneMore | internal/network/network.go:235-248 | A list of which none is rejected is applied to its end |
| ProofOfWork.StoredBlocksAreProven | internal/network/network.go:185-248 | Over every run with any messages, forged ones included, every stored block above index 0 carries its header's hash with the zeros asked for, and names the hash of the block stored below it |
| ProofOfWork.GenesisIsOk | internal/chain/chain.go:28-43 | A lone genesis block starts such a run |
| Protocol.MiningExtends | internal/node/node.go:136-144 | A mined block extends the miner's chain and is one every node may receive |
| Protocol.ApplyingKnown | internal/network/network.go:235-248 | Known blocks in any order and number only ever lengthen a node's chain |
| Protocol.StepOk | internal/network/network.go:185-248 | Every mine, ask, serve or deliver step keeps every node's chain valid, equal to its replay, and append-only |
| Protocol.RunOk | internal/network/network.go:185-248 | The same over any run with lost, repeated and reordered messages |
| Protocol.LiveStateIsReplay | internal/chain/chain.go:175-196 | In every reachable network live state is the fold of the stored blocks from an empty state |
| Protocol.AppendOnly | internal/chain/chain.go:153-202 | What a node has stored at any moment stays the beginning of its chain |
| Protocol.EqualTipsAgree | internal/network/network.go:185-248 | In every reachable network nodes with equal tip hashes have identical headers, and identical states exactly when addresses do not overlap |
| PlainRuns.PlainRunsAgree | internal/network/network.go:185-248 | With plain addresses in the genesis block and in what is mined, equal tip hashes always mean equal headers and states |
| Forks.OneRootTwoStates | internal/chain/state.go:11-35 | Two lists of mints that lead from one state to different states with one root |
| Forks.EqualTipsUnequalStates | internal/chain/chain.go:109-144 | From any genesis block, two mining steps after which two nodes have one tip header and hash, and different states |
| Forks.AddressesInPlace | internal/chain/state.go:28-35 | Recipients for that run, for every state of hexadecimal addresses and every such miner or none |
| Forks.NothingToCatchUpOn | internal/network/network.go:132-218 | Nodes with the same headers have nothing to send each other, so syncing leaves unequal states unequal |
| Forks.ForkNeverHeals | internal/chain/chain.go:153-202 | Once two nodes store different headers at one index, their tip hashes differ at every later moment of every run |
| Protocol.CatchUp | internal/network/network.go:132-248 | A node whose headers begin a peer's, and whose state is what the peer's was then or is plain as that was, ends, after that peer's reply from height + 1, with exactly the peer's headers and state |
| Protocol.CatchUpInRun | internal/network/network.go:132-248 | The same for the steps ask, serve and deliver in every reachable network |
| ReachableLedgers.BalancesAddUp | internal/chain/state.go:28-69 | In every reachable network balances add up to coins issued less fees burnt: modulo 2^64 always, exactly under the bound |
| ReachableLedgers.NoncesCount | internal/chain/state.go:36-48 | In every reachable network an account's nonce counts its included transfers, which carry 0, 1, 2, ... in chain order |
| ReachableLedgers.OnlySignersPay | internal/chain/state.go:36-48 | In every reachable network every transfer on a chain is signed, every account is its credits less its charges, and one that signed nothing has nonce 0 and all its credits |
| Mempool.TxKeyIsInjective | internal/mempool/mempool.go:20-22 | A pool key stands for one sender and one nonce, whatever the sender's characters |
| Mempool.Pool.Add | internal/mempool/mempool.go:24-33 | Pools and lists a transaction whose sender and nonce are new, else changes nothing |
| Mempool.Pool.Pending | internal/mempool/mempool.go:35-46 | The first max transactions in listing order, all of them for a max that is not positive |
| Mempool.Pool.RemoveIncluded | internal/mempool/mempool.go:48-60 | Drops exactly the given transactions' keys; the rest stay listed once each, in any order |
| Node.PoolIsBatch | internal/node/node.go:63-67 | A pool of valid transactions, in any listing order, holds one per sender and succeeds as a batch |
| Node.BatchSplits | internal/node/node.go:136-137 | Taking the first part of a batch leaves the rest a batch |
| Node.BlockOfPool | internal/node/node.go:136-142 | A block of the pool's first transactions succeeds and leaves the rest of the pool valid |
| Node.MiningNode.OnTransaction | internal/node/node.go:63-67 | Pools exactly what the live state accepts, mints and wrapping charges included; transfers whose charge fits keep one valid transaction per sender; nothing frees a stuck node |
| Node.MiningNode.Tick | internal/node/node.go:136-143 | Mines the first 100 pooled transactions and removes exactly those, or, exactly when they are refused, changes nothing; with a valid pool under the supply bound it always mines and the rest stays valid |
| Node.MiningNode.MineLoop | internal/node/node.go:127-147 | The stored chain grows by exactly the blocks mined, index by index; with fitting transfers under the supply bound every tick mines a block; after a tick that failed none ever does, whatever is submitted |
| LegacyNames.OccurredBefore | internal/legacy/legacy.go:75-94 | An old name in the result of a replacement was in its input, and is not the one replaced |
| LegacyNames.ReplacementTable | internal/legacy/legacy.go:76-89 | The eleven replacements, letter by letter and in order |
| LegacyNames.ReplacedAt | internal/legacy/legacy.go:90-92 | The first occurrence of an old name becomes the new one, what is before it stays, what is after is treated alike |
| LegacyNames.NothingToReplace | internal/legacy/legacy.go:90-92 | A text without the old name stays as it is |
| LegacyNames.TokenKeyTable | internal/legacy/legacy.go:97-131 | What becomes of every chain:token key, name by name |
| LegacyNames.RewriteIsFinal | internal/legacy/legacy.go:75-94 | Rewriting leaves no legacy identifier, so rewriting again changes nothing |
| LegacyNames.NormalIsNormal | internal/legacy/legacy.go:97-131 | Normalizing any key is idempotent, and keeps whether it is a chain:token key |
| Migration.MergedAddsUp | internal/legacy/portfolio.go:16-30 | Merging adds the two amounts modulo 2^64 |
| Migration.ValueOfDecimal | internal/legacy/portfolio.go:28-29 | A decimal entry stands for its number, one too large for the largest uint64 |
| Migration.DecimalsMerge | internal/legacy/portfolio.go:27-31 | Two decimal entries merge to the decimal of their sum modulo 2^64 |
| Migration.Thirteen | internal/legacy/portfolio.go:6-25 | Entries 5 and 1 under two legacy keys and 7 under their new name sum to 13 |
| Migration.MoveKeepsSums | internal/legacy/portfolio.go:11-22 | Moving one legacy key keeps every name's sum modulo 2^64, and which names there are |
| Migration.SumOfNormal | internal/legacy/portfolio.go:6-25 | With no legacy key left a name's sum is its one entry |
| Migration.BalanceMap.MigrateBalanceKeys | internal/legacy/portfolio.go:6-25 | For every iteration order each normalized key, chain:token or not, ends with the sum of its old keys modulo 2^64, as decimal text if all entries were, and no legacy key is left |
| RateLimit.AfterAfter | bsc-launcher/server/handlers.go:657-662 | Pruning twice is pruning once at the later cutoff |
| RateLimit.AfterKeepsTheLater | bsc-launcher/server/handlers.go:657-662 | A time is kept exactly when it is later than the cutoff, and the kept ones stay in order |
| RateLimit.RefusedExactlyWhen | bsc-launcher/server/handlers.go:656-666 | A request is refused exactly when the last 60 seconds already hold perMin allowed ones |
| RateLimit.RateLimiter.Kept | bsc-launcher/server/handlers.go:657-662 | The loop keeps exactly the hits after the cutoff, in order |
| RateLimit.RateLimiter.Allow | bsc-launcher/server/handlers.go:652-669 | The pruned log decides exactly as the full history, and only allowed requests are logged |
| RateLimit.NeverAboveLimit | bsc-launcher/server/handlers.go:652-669 | No one-minute window of a history admitted request by request holds more than perMin of them |
| RateLimit.RateLimiter.NeverAbovePerMin | bsc-launcher/server/handlers.go:652-669 | Every limiter, whatever was asked of it, has let through at most perMin requests of a key in any minute |

## Left out

- HTTP handlers, JSON-RPC, JSON encodings, the user interface, mobile, extension and deploy scripts.
- Calls to live chains and to price and banking services.
- Files: stores are in-memory maps whose writes succeed.
- SHA-256, Ed25519 and the Go runtime's maps and locks: a hash, a signature check and arbitrary iteration orders stand for them.
- The chain-id check of the handshake, dialling, and relaying of transactions between nodes; `node.New` registers no block callback.
- Agreement of nodes on transaction lists: the header payload does not hold them, so nodes agree on headers and states.
- Difficulties from 2^63 on, where `strings.Repeat` panics: the model treats them as a prefix of that many zeros.
- Several miners sharing one pool, and the faucet, which pools without validating: the pool theorems are for a solo miner.
- Price impact text, market charts, the `internal/ledger` book, conversions and yields: floating point and display.
- `BridgeRoute` and `BridgeExecute`: the second leg reads an atomic amount as a decimal one, so legs do not compose.
- `EnsureWallet`, and the balance sync inside `GetPortfolio`: the wallet's portfolio is in the cache when an operation starts.
- `completeTask` and swap records: they follow a successful swap and do not touch pools.
- Reserves, shares and balances as decimal strings: they are numbers here, written and read by the same formatter; share counts come as numbers, not text.
- Token wrapping, NFTs, loans, the token registry and FlashCoin.sol.
- Case folding and text lengths outside ASCII: strings are sequences of characters.
