# Verified models of a Dogecoin indexer

The repository indexes the Dogecoin chain in two stages. The *compressor* keeps a
chain database: unspent outputs, dune (fungible token) tables, DRC-20 tables,
inscription counters and partially revealed inscriptions. It applies blocks, undoes
them from a stored resolver entry, and logs every change for consumers. *Polyphony*
turns blocks into storage actions, merges and applies them in transactions, keeps
their inverses in memory and in the store, and undoes blocks on a reorganisation. An
API reads the result page by page, and a garbage collector chooses how much history
the shared store may drop.

This project models those state machines in Dafny and proves what they are for:
undoing is the exact inverse of applying, tokens and inscriptions are conserved over
whole runs, merging and retrying do not change meaning, what is persisted reads back
as what is in memory, and every range is returned completely and in order. Where a
property does not hold of the code, the project states exactly when it does.

`dafny verify dfyconfig.toml` checks everything.

## How the model is organised

| file | content |
|---|---|
| `Prelude`, `Bytes`, `OrderedKeys` | options, machine integers, sums, distinct lists, big-endian integers, key order and range scans |
| `ChainTypes` | transactions, outputs, inscriptions, dune ids |
| `DuneLedger`, `DuneLaws`, `DuneSums`, `MintLaws` | etchings, claims, edicts of one transaction and their undo; caps, the exact condition for undo, the exact condition for conservation; which etchings are accepted and what they set, who mints and how much |
| `InscriptionParser`, `PushForms`, `InscribedScripts` | multi-transaction inscription parsing, the forms of pushes, inscriptions written and read back |
| `Decimal`, `Drc20`, `Drc20Laws` | decimal amounts, DRC-20 messages and their undo, when each message is accepted |
| `Placement`, `Inscriptions`, `InscriptionLaws`, `LiveInscriptions`, `TransferLaws` | moving inscriptions by sat offset, `index_inscriptions`, its accounting and undo, where used transfers go |
| `Utxos`, `BlockApply`, `BlockLaws`, `OutputTable`, `BlockCounts` | the output table, applying and undoing a block, undo as an exact inverse, what a block leaves in the table, its counters |
| `Conservation`, `DuneBooks`, `PartialChains` | what a block conserves |
| `KnownLimits`, `DuplicateTransfers`, `TwoTransfers` | inputs at which a law fails: an id revealed twice, a claim recorded without minting, claims that share a recorded position, sums that wrap, transfers of one id spent together |
| `Chain`, `ChainRuns`, `ChainBooks`, `ChainTerms`, `ChainLog`, `MemoryResolver` | the chain database over whole runs, the books it keeps, the terms dunes keep, its log, and the in-memory output map |
| `Indexers`, `ChainDb` | the program's loops and the database object, proved against the functions above |
| `Actions`, `ActionLaws`, `Batcher`, `Rollback`, `WorkerRuns`, `CursorRuns` | storage actions and what each leaves, merging, inverses, rollback and retry, the cursor over whole runs |
| `Metadata`, `PersistedBuffer`, `WorkerPersistence`, `Restarts`, `MirrorRuns`, `StorageWorker` | persisted rollback metadata over whole runs and restarts, and the storage worker object |
| `Reducers`, `ReducerBatches`, `ReducerStage`, `IndexRuns` | the index of unspent outputs by script and script balances: alone, merged in one batch, and over a worker's whole life |
| `Pagination` | key ranges, the batched scan, cursor pages |
| `TimbreKeys` | variable-length integers that keep their order, prefix ranges |
| `Varint`, `DuneNames` | dune varints, names and spaced names |
| `GcSafepoint` | the garbage-collection safepoint protocol |

Conventions. A counter that is absent reads as zero, and the chain database model
stores no zero; the storage worker model is byte for byte and identifies zero with
absent only where merging needs it. A panic or error is `None` or `Err`, never a
precondition. Dune and DRC-20 amounts wrap at 128 bits as in a release build; the
proofs show that DRC-20 amounts never do, and exactly when a dune's do. Hashes,
transaction ids and scripts are abstract values; block bytes, JSON, base64 and
hashing are not modelled.

What a run may assume is spelled out where it is used. Blocks come at the next
height, and an accepted block satisfies `NextBlock`, what consensus guarantees of its
transactions; everything else a block relies on is `Sane`, an invariant of every run.
Two further conditions are asked where they are needed. `BlockReversible` (no unnamed
etching past transaction 65535, every accepted claim with a positive limit and an edict
that names an output, no other claim in the recorded slot of an accepted one) is asked
of blocks that are rolled back, where the tables are to be exactly those of the
surviving blocks. `BlockNewIds` (no transaction completes an inscription whose id is
live) is asked where inscriptions are to stay unique and DRC-20 books to balance. The
first is exact (`DuneLaws.UndoIff`, `BlockLaws.UndoBlockIff`), and so is the second for
uniqueness (`KnownLimits.RevealIff`); for the DRC-20 books it is sufficient, and the
exact condition of one transaction is in `DuplicateTransfers.BackedIff`. The balance
reducer's theorems assume that no script ever holds 2^64 units.

## Model

| member | source | states |
|---|---|---|
| DuneLedger.PackIff | services/polyphony-xdg/src/dunes/dune_id.rs:19-34 | packing and unpacking are mutually inverse exactly on ids with a 64-bit height and a 16-bit index |
| DuneLedger.ClaimsIncreasing | services/compressor-xdg/src/storage/runes/updater.rs:107-116 | the claims of a transaction are sorted, without duplicates, and are exactly the claimed ids of its edicts |
| DuneLaws.EdictConserves | services/compressor-xdg/src/storage/runes/updater.rs:132-214 | what an edict hands to its output is exactly what leaves the issuance, the mintable amount or the inputs' balance it draws on |
| DuneLaws.EdictGives | services/compressor-xdg/src/storage/runes/updater.rs:132-214 | an edict adds to its own output, modulo 2^128, and to no other, all of the balance or as much of the amount as there is |
| DuneLaws.LeftoversGo | services/compressor-xdg/src/storage/runes/updater.rs:240-278 | leftovers go to the pointer's output if there is one, otherwise, also for a pointer past the last output, to the first output that is not OP_RETURN, and to no other |
| DuneLaws.MintWindowIff | services/compressor-xdg/src/storage/runes/updater.rs:324-398 | the stored bounds let a dune be minted at a height exactly if none of the absolute or relative bounds of its etching speaks against it |
| DuneSums.OutputIs | services/compressor-xdg/src/storage/runes/updater.rs:132-278 | every output ends up with all that edicts and leftovers hand it, modulo 2^128 |
| DuneSums.OutputLists | services/compressor-xdg/src/storage/runes/updater.rs:132-278 | an output lists a dune if and only if edicts or leftovers hand it some of it |
| DuneSums.TransactionConservesIff | services/compressor-xdg/src/storage/runes/updater.rs:60-278 | outputs plus burned never exceed inputs plus minted plus issued, and equal them if and only if no output is handed 2^128 or more of the dune |
| DuneSums.SmallFits | services/compressor-xdg/src/storage/runes/updater.rs:60-278 | that is so whenever inputs, minted and issued together stay below 2^128 |
| DuneLaws.ClaimTakesIff | services/compressor-xdg/src/storage/runes/updater.rs:147-171 | a claim is given something if and only if its limit is positive and an edict for it names an existing output |
| DuneLaws.CountMintsLaw | services/compressor-xdg/src/storage/runes/updater.rs:216-238 | each dune's mint count grows by one exactly if one of its claims was paid |
| DuneLaws.MintWithinLimit | services/compressor-xdg/src/storage/runes/updater.rs:463-507 | what a transaction mints of a dune is at most one limit and is counted as exactly one mint; counts never fall |
| DuneLaws.IndexKeepsInv | services/compressor-xdg/src/storage/runes/updater.rs:324-461 | name-to-id and id-to-terms stay mutually inverse, reserved names stay below their counter, and no mint count passes its cap |
| DuneLaws.EtchFresh | services/compressor-xdg/src/storage/runes/updater.rs:400-461 | an accepted etching, named or reserved, never takes the name of a live dune |
| MintLaws.EtchIff | services/compressor-xdg/src/storage/runes/updater.rs:400-461 | an etching is accepted exactly if it asks for a name that is long enough, not reserved and not taken, or for none, and then takes the next reserved one; a registered one changes the name and id tables at its own id only, and its dune has the limit and cap asked for and is open exactly within the four bounds asked for, or has none of them for a cenotaph or without terms |
| MintLaws.MintsAre | services/compressor-xdg/src/storage/runes/updater.rs:118-238 | a transaction mints of a dune the lesser of its limit, if the dune is known, within its window and below its cap, and of what the edicts that claim it for existing outputs ask; the mint count grows by one exactly if that is anything |
| MintLaws.MintsIff | services/compressor-xdg/src/storage/runes/updater.rs:463-507 | a claim mints something if and only if its dune is known, the height is not before its start and is before its end, fewer than its cap were minted, its limit is positive, and an edict claims it for an existing output |
| MintLaws.IssuedIs | services/compressor-xdg/src/storage/runes/updater.rs:65-171 | a registered etching issues what the edicts of its transaction ask of it, up to 2^128 - 1; nothing else issues |
| MintLaws.CenotaphBurns | services/compressor-xdg/src/storage/runes/updater.rs:104-246 | a cenotaph burns all that its inputs held, hands out nothing, and neither mints nor issues |
| DuneLaws.UndoIff | services/compressor-xdg/src/storage/mod.rs:789-863 | undoing a transaction's dune effects gives back the tables it found if and only if it is reversible: no unnamed etching past index 65535, every accepted claim paid, and every claim whose position agrees with an accepted one in its low 16 bits accepted too, if its id unpacks |
| DuneLaws.UndoOff | services/compressor-xdg/src/storage/mod.rs:789-863 | from tables that are already off, undo leaves them off: two wrongs never cancel |
| InscriptionParser.DecodePushDatas | services/compressor-xdg/src/storage/inscriptions/inscription.rs:157-239 | the loop over a script returns exactly the pushes that the grammar of push opcodes gives, or none |
| PushForms.WrittenReads | services/compressor-xdg/src/storage/inscriptions/inscription.rs:157-239 | pushes written in any of the forms (nothing, a small number, data with its length in the opcode, in one byte, or in two or four bytes whose low byte is the opcode) read back as their data |
| PushForms.ReadsIff | services/compressor-xdg/src/storage/inscriptions/inscription.rs:157-239 | a script reads as a list of pushes if and only if it is written as them in such forms; cut off headers or data and any other opcode never read |
| InscriptionParser.PushDataToNumber | services/compressor-xdg/src/storage/inscriptions/inscription.rs:241-259 | a push reads as its little-endian number, if it is short enough |
| InscriptionParser.ParseScripts | services/compressor-xdg/src/storage/inscriptions/inscription.rs:51-155 | the nested loops refine the one-script-at-a-time parser |
| InscriptionParser.VerdictIsStable | services/compressor-xdg/src/storage/inscriptions/inscription.rs:51-155 | a verdict other than partial never changes when scripts are added |
| InscriptionParser.ReparseIsResume | services/compressor-xdg/src/storage/inscriptions/updater.rs:132-201 | reparsing the stored transactions with a new one equals resuming the parse where it stopped |
| InscriptionParser.ParseCompleteIff | services/compressor-xdg/src/storage/inscriptions/inscription.rs:51-155 | parsing is complete with a body if and only if the scripts lay out chunks numbered downward to zero whose concatenation is that body |
| InscribedScripts.InscribedReads | services/compressor-xdg/src/storage/inscriptions/inscription.rs:51-155 | content type and chunks, numbered downward and written over any number of scripts in any forms of pushes, read back as the content type and the chunks joined; every shorter chain of those scripts reads as partial |
| Decimal.ScaledIsExact | services/compressor-xdg/src/storage/inscriptions/brc20.rs:245-302 | the scaled amount is exactly the decimal text times ten to the decimals |
| Decimal.ScaledFits | services/compressor-xdg/src/storage/inscriptions/brc20.rs:285-297 | a well-formed amount always fits in 128 bits |
| Decimal.ParseDecimalText | services/compressor-xdg/src/storage/inscriptions/brc20.rs:245-302 | the parser with its zero-padding loop accepts exactly the well-formed texts and returns the scaled amount |
| Drc20.ProcessUndone | services/compressor-xdg/src/storage/mod.rs:678-772 | undoing a deploy, mint or transfer message restores terms, supply and balances exactly |
| Drc20.MintReaches | services/compressor-xdg/src/storage/inscriptions/updater.rs:464-522 | a mint brings the supply to the lesser of maximum and sum, and credits exactly the difference to its receiver and nobody else |
| Drc20.TransferIff | services/compressor-xdg/src/storage/inscriptions/updater.rs:530-578 | a transfer is initiated exactly if its receiver holds the amount, which then leaves the balance |
| Drc20.DeployOnce | services/compressor-xdg/src/storage/inscriptions/updater.rs:423-452 | the first terms of a ticker stay, and new terms are those of its deploy message |
| Drc20Laws.DeployIff | services/compressor-xdg/src/storage/inscriptions/brc20.rs:68-163 | a deploy is valid if and only if its ticker is new and has four bytes, its decimals are digits worth at most 18 or absent, its maximum is a positive amount and its limit one too or absent; it sets just these terms |
| Drc20Laws.MintIff | services/compressor-xdg/src/storage/inscriptions/brc20.rs:171-211 | a mint is valid if and only if its ticker is deployed and not sold out, it has a receiver, and its text is a positive amount within the limit; supply and the receiver's balance grow by the amount or what is left, and nothing else changes |
| Drc20Laws.LimitHolds | services/compressor-xdg/src/storage/inscriptions/brc20.rs:184-189 | no message raises the supply of a ticker by more than its limit |
| Drc20Laws.TransferStarts | services/compressor-xdg/src/storage/inscriptions/brc20.rs:219-243 | a transfer is initiated if and only if its ticker is deployed and its text is a positive amount that its receiver holds; the amount moves from the balance into the inscription |
| Drc20Laws.OthersRefused | services/compressor-xdg/src/storage/inscriptions/updater.rs:413-586 | a message with another operation changes nothing |
| Drc20.ProcessBacked | services/compressor-xdg/src/storage/inscriptions/updater.rs:413-586 | a message keeps every ticker's supply equal to balances plus locked amounts and within its maximum, without wrap-around |
| Placement.PlaceOutputs | services/compressor-xdg/src/storage/inscriptions/updater.rs:250-281 | the loop over outputs hands each the inscriptions that lie inside it |
| Placement.PlacementLaw | services/compressor-xdg/src/storage/inscriptions/updater.rs:248-292 | sorting and placing keeps every inscription once: strictly inside one output at its own absolute sat, or left over at or past the total value |
| Placement.PlacesInOrder | services/compressor-xdg/src/storage/inscriptions/updater.rs:248-281 | read output by output, inscriptions come in the order of their sats, and those on one sat in the order in which they arrived |
| PartialChains.RevealResumes | services/compressor-xdg/src/storage/inscriptions/updater.rs:132-219 | a transaction is judged by the scripts of the whole stored chain it continues, and a completed inscription has the id of the chain's first transaction |
| PartialChains.BlockKeepsClosed | services/compressor-xdg/src/storage/inscriptions/updater.rs:132-201 | every stored chain ends at its key and all its transactions are stored under their own ids |
| LiveInscriptions.InputsArrive | services/compressor-xdg/src/storage/inscriptions/updater.rs:78-128 | an input's inscriptions enter at their own offset past the values of the inputs before it |
| LiveInscriptions.TransactionPlaces | services/compressor-xdg/src/storage/inscriptions/updater.rs:203-362 | every inscription that enters a transaction or is revealed by it is placed once at its absolute sat, or carried to the coinbase as far past the fees so far as it lies past the outputs; none is dropped or duplicated |
| BlockCounts.TransactionCounts | services/compressor-xdg/src/storage/inscriptions/updater.rs:294-362 | a completed inscription is counted once, when it is placed or lost, and until then is on its way to the coinbase; fees add to the reward, and lost sats grow, modulo 2^64, by what the coinbase leaves of it |
| BlockCounts.BlockCounts | services/compressor-xdg/src/storage/txos/mod.rs:188-331 | a block counts one inscription for each transaction that completes one, in both counters, and adds to lost sats, modulo 2^64, subsidy and fees less what its coinbase pays |
| BlockCounts.BlockQuiet | services/compressor-xdg/src/storage/txos/mod.rs:216-331 | below the first inscription height a block leaves partial inscriptions, DRC-20 tables and counters as they were |
| InscriptionLaws.TransactionUndone | services/compressor-xdg/src/storage/mod.rs:678-772 | undoing a transaction's messages last first restores the DRC-20 ledger exactly |
| InscriptionLaws.ReleasesBacked | services/compressor-xdg/src/storage/inscriptions/updater.rs:368-410 | crediting used transfers moves locked amounts back to balances, without wrap-around |
| TransferLaws.TransfersGo | services/compressor-xdg/src/storage/inscriptions/updater.rs:313-586 | a transaction of distinct ids credits every transfer it brings to the script of the output that holds its inscription's sat, or back to the script it came from past the last output, with a message naming ticker, amount, source and receiver; then the message of the completed inscription is processed for the script of the output that holds the first sat; nothing else happens to the tables |
| TransferLaws.HolderGains | services/compressor-xdg/src/storage/inscriptions/updater.rs:380-400 | each holder of a backed ticker gains exactly the transfers of that ticker sent to it, without wrapping |
| InscriptionLaws.TransactionBacked | services/compressor-xdg/src/storage/inscriptions/updater.rs:313-355 | a transaction releases exactly what its inputs had locked, locks exactly what its outputs hold, and keeps every ticker backed |
| LiveInscriptions.FoundIff | services/compressor-xdg/src/storage/inscriptions/updater.rs:132-219 | a transaction reveals an inscription if and only if none arrives on its first sat and the stored scripts of its chain with its own are complete; its id is that of the chain's first transaction |
| KnownLimits.RevealIff | services/compressor-xdg/src/storage/inscriptions/updater.rs:203-219 | a transaction keeps every live inscription in exactly one place if and only if it does not complete, on a free first sat, a stored chain whose first transaction's id is live |
| KnownLimits.RevealedTwice | services/compressor-xdg/src/storage/inscriptions/updater.rs:132-219 | a concrete chain of two pieces that two transactions, spending different outputs of the first, both complete with the same id and contents of their own |
| DuplicateTransfers.BackedIff | services/compressor-xdg/src/storage/inscriptions/updater.rs:78-410 | a transaction, whether it completes an inscription or not, keeps a ticker backed if and only if the transfers it brings equal the last transfer of each passing id, once for every time the id passes, plus the new transfer for every copy of its id after the first, less 2^128 for every balance that wraps |
| DuplicateTransfers.ReleaseIff | services/compressor-xdg/src/storage/inscriptions/updater.rs:78-128 | so for a transaction that completes none, and whose balances have room: the transfers it brings must add up to the last one of each id, once for every time the id arrives |
| TwoTransfers.SpendBothBreaks | services/compressor-xdg/src/storage/inscriptions/updater.rs:132-410 | a concrete run: a chain completed as a transfer of 1 unit and again as a transfer of 5, both backed, and the transaction that spends both outputs releases 10, so that the ticker is no longer backed |
| KnownLimits.UnpaidClaimNotUndone | services/compressor-xdg/src/storage/runes/updater.rs:118-171 | a concrete transaction whose claim names the output number one past its only output: the claim is recorded without minting, and undo does not restore the tables |
| KnownLimits.CrowdedNotUndone | services/compressor-xdg/src/storage/mod.rs:830-863 | a concrete transaction with 65537 claims, all accepted ones paid: undo takes the first claim for the recorded last one and panics |
| KnownLimits.JoinWraps | services/compressor-xdg/src/storage/runes/updater.rs:60-105 | two concrete inputs that hold 2^128 of a dune together leave the output that gets them with none |
| KnownLimits.WhatWraps | services/compressor-xdg/src/storage/runes/updater.rs:132-278 | with 2^128 - 1 held and 5 minted, one output for both is left with 4, while two outputs hold 2^128 + 4: the bound is per output, not on the total |
| Utxos.SpendIs | services/compressor-xdg/src/storage/mod.rs:441-490 | after a transaction exactly the old and new outputs less the spent ones are live, new ones with their resolved bodies |
| OutputTable.BlockHolds | services/compressor-xdg/src/storage/mod.rs:441-490 | after a block an output is unspent exactly if it was or the block creates it, and no transaction of the block spends it; older ones are stored as before, new ones with the block's height, their own value and script, and only transfers whose inscription they hold |
| OutputTable.EntryHolds | services/compressor-xdg/src/storage/mod.rs:497-520 | the stored entry holds exactly the block's inputs, those of earlier blocks as they were stored, with the counters before the block |
| OutputTable.AppliesIff | services/compressor-xdg/src/storage/txos/mod.rs:72-257 | a block is refused for a missing output exactly if some input after the coinbase is neither unspent nor created by an earlier transaction of the block other than the coinbase |
| Utxos.UnspendAllRestores | services/compressor-xdg/src/storage/mod.rs:865-886 | putting back inputs and deleting outputs, last transaction first, restores the output table, outputs made and spent in the block included |
| BlockLaws.StagedSpends | services/compressor-xdg/src/storage/txos/mod.rs:60-384 | every input of a well-formed block is resolved to the body it is live with, and the block spends exactly live outputs |
| BlockLaws.PartialsRestored | services/compressor-xdg/src/storage/mod.rs:776-788 | deleting the block's own partial entries restores the stored partial inscriptions |
| BlockLaws.UndoBlockIff | services/compressor-xdg/src/storage/mod.rs:625-891 | undoing a block gives back every table it was applied to if and only if the block is reversible; the table invariants hold in between |
| Conservation.IndexKeepsUnique | services/compressor-xdg/src/storage/inscriptions/updater.rs:588-601 | a transaction that reveals no live id leaves every live inscription in one output or on its way to the coinbase |
| Conservation.BlockKeepsBooks | services/compressor-xdg/src/storage/txos/mod.rs:180-384 | a block keeps every live inscription in one place, and every ticker backed by balances plus locked transfers and within its maximum |
| DuneBooks.BlockBalances | services/compressor-xdg/src/storage/runes/updater.rs:60-278 | over a block, live amount plus burned is at most live amount before plus claimed plus issued, and equal if and only if in every transaction the inputs' sum and each output's share stay below 2^128; they do if the right-hand side does |
| DuneBooks.BlockWithinLimit | services/compressor-xdg/src/storage/runes/updater.rs:463-507 | over a block, what is claimed of a dune is at most its limit times the mints added, and terms never change |
| Indexers.IndexRunes | services/compressor-xdg/src/storage/runes/updater.rs:35-278 | the loops over claims, edicts and leftovers compute exactly the tables, outputs and records the laws are about |
| Indexers.AcceptClaims | services/compressor-xdg/src/storage/runes/updater.rs:118-128 | the loop accepts exactly the claims that are mintable and records the low 16 bits of their positions |
| Indexers.IndexTransaction | services/compressor-xdg/src/storage/inscriptions/updater.rs:50-601 | the loops over inputs, outputs and releases compute exactly the result the laws are about |
| BlockLaws.UndoBlockOff | services/compressor-xdg/src/storage/mod.rs:625-891 | undoing any block, reversible or not, restores outputs, DRC-20 tables, partial inscriptions and counters exactly, and leaves dune tables that are at most low in mint counts or high in the reserved counter |
| BlockLaws.OffKeepsInv | services/compressor-xdg/src/storage/mod.rs:789-863 | dune tables that are off in this way still satisfy the table invariants |
| Chain.BlockSane | services/compressor-xdg/src/storage/mod.rs:352-592 | any block that consensus admits keeps names and ids mutually inverse, mints within caps, partial chains closed, dunes etched below the next height and no null output |
| Chain.BlockUndone | services/compressor-xdg/src/storage/mod.rs:625-891 | undoing a block gives back its state if and only if it is reversible, and one that is at most off otherwise |
| ChainRuns.ForwardHolds | services/compressor-xdg/src/storage/mod.rs:352-592 | applying a block extends the stored chain, its entries and tables by that block |
| ChainRuns.BackTracks | services/compressor-xdg/src/storage/mod.rs:594-914 | a rollback is accepted only for a point of the stored chain and leaves the chain up to that point; it is accepted for every such point if the blocks above are reversible |
| ChainRuns.RunTracks | services/compressor-xdg/src/storage/mod.rs:352-914 | after any run of applied and refused blocks, rollbacks and reopenings the database holds the surviving chain: loosely whatever was rolled back, exactly if that was reversible |
| ChainRuns.RunReplays | services/compressor-xdg/src/storage/mod.rs:352-914 | after any run in which only reversible blocks were rolled back, every table is as if only the surviving blocks had ever been applied |
| ChainBooks.StackBalances | services/compressor-xdg/src/storage/runes/updater.rs:60-278 | over any stored chain, irreversible blocks and rollbacks included, a dune's live amount plus burned is at most what was there, claimed and issued, and equal if and only if every transaction fits |
| ChainBooks.StackWithinLimit | services/compressor-xdg/src/storage/runes/updater.rs:463-507 | over blocks applied one on top of the other, claims stay within mints times limit |
| ChainBooks.ReachableTables | services/compressor-xdg/src/storage/mod.rs:352-914 | in every state of every run from an empty database, whatever was rolled back: all table invariants hold and each dune's books balance as far as its sums fit |
| ChainBooks.ReachableTickers | services/compressor-xdg/src/storage/mod.rs:352-914 | in every state of every run whose blocks reveal no live id: DRC-20 supply equals balances plus locked and is at most the maximum, and every live inscription is in one place |
| ChainBooks.ReachableClaims | services/compressor-xdg/src/storage/mod.rs:352-914 | in every state of every run that rolls back reversible blocks only: what was claimed of a dune is at most mints times limit, and mints are within the cap |
| ChainTerms.BlockRegisters | services/compressor-xdg/src/storage/runes/updater.rs:68-102 | a transaction of a block leaves a dune exactly if dunes are indexed at that height, its position fits in 16 bits and its etching is accepted against the tables it meets; the dune has the name it was accepted with |
| ChainTerms.ReachableTerms | services/compressor-xdg/src/storage/runes/updater.rs:324-398 | in every state of every run, irreversible rollbacks included, every dune of the tables was etched by the stored transaction that its id names, under the name asked for or a reserved one, with the limit, cap and window that this etching asked for |
| ChainTerms.ReachableWindows | services/compressor-xdg/src/storage/runes/updater.rs:463-507 | no surviving block minted a dune but at a height within the four bounds of the dune's own etching, with a positive limit |
| ChainTerms.ReachableMints | services/compressor-xdg/src/storage/runes/updater.rs:216-238 | in every run that rolls back reversible blocks only, what was claimed of a dune is at most the limit times the cap that its own etching asked for, and nothing if no surviving block etched it |
| ChainLog.FindIff | services/compressor-xdg/src/storage/mutable/mod.rs:110-125 | a position is found exactly when the first retained entry at or above the height is an Apply or Mark of the point |
| ChainLog.PruneDrops | services/compressor-xdg/src/storage/mutable/mod.rs:84-105 | pruning removes a prefix of the log and no entry at or above the height |
| ChainLog.RunLog | services/compressor-xdg/src/storage/mod.rs:525-552 | after any run in which blocks come at the next height, whatever they hold, the retained log has no gap and each entry takes the chain before it to the chain after it |
| ChainLog.CatchUp | services/compressor-xdg/src/storage/mutable/mod.rs:108-125 | from a found position nothing is missing, and following the log from a chain that ends at the point gives the server's chain |
| ChainDatabase.ReadLog | services/compressor-xdg/src/storage/mutable/mod.rs:127-183 | the stream yields the log right after its position, never across a gap, and all of it when there is none |
| ChainDatabase.PruneLog | services/compressor-xdg/src/storage/mutable/mod.rs:84-105 | the deletion loop stops at the first entry at or above the height |
| ChainDatabase.FindPosition | services/compressor-xdg/src/storage/mutable/mod.rs:110-125 | the scan finds the position that the specification of the search gives |
| ChainDatabase.ResolveAndProcess | services/compressor-xdg/src/storage/txos/mod.rs:60-384 | the fold over the block resolves and indexes every transaction, the coinbase's dunes first and its inscriptions last, or fails on a missing output |
| ChainDatabase.UpdateOutputs | services/compressor-xdg/src/storage/mod.rs:441-490 | the nested loops leave the output table of spending every transaction in order |
| ChainDatabase.UndoTransactions | services/compressor-xdg/src/storage/mod.rs:775-886 | the reversed loop over transactions undoes dunes, outputs and partials of the whole block, or fails if any part does |
| ChainDatabase.ChainDb.ApplyBlock | services/compressor-xdg/src/storage/mod.rs:352-592 | moves the database by one step of the state machine, or fails with the right error and changes nothing |
| ChainDatabase.ChainDb.constructor | services/compressor-xdg/src/storage/mod.rs:213-239 | opening takes tables, blocks and entries from disk, the last hash from the highest stored block, and starts an empty log |
| ChainDatabase.ChainDb.Rollback | services/compressor-xdg/src/storage/mod.rs:594-914 | undoes every stored block above a stored point, up to the highest, and logs it, or fails with the right error and changes nothing |
| ChainDatabase.ChainDb.FindWalSeq | services/compressor-xdg/src/storage/mutable/mod.rs:110-125 | returns the position the search finds in the stored log |
| MemoryResolver.ResolveIff | services/compressor-xdg/src/storage/txos/mod.rs:91-154 | the map and the database resolve alike exactly if no stale entry is asked for |
| MemoryResolver.ApplyMemSame | services/compressor-xdg/src/storage/txos/mod.rs:91-154 | with the map enabled a block has the same outcome as without it |
| MemoryResolver.SuccessAgrees | services/compressor-xdg/src/storage/txos/mod.rs:249-304 | an applied block leaves the map in agreement with live outputs and stored resolvers |
| MemoryResolver.RollbackAgrees | services/compressor-xdg/src/storage/mod.rs:865-886 | a rollback brings back only outputs the map agrees on, although it never touches the map |
| MemoryResolver.MemoryChangesNothing | services/compressor-xdg/src/sync/roll.rs:26-66 | over any run of applied, refused and interrupted blocks, rollbacks of whatever blocks, and reopenings, the database with the map is the database without it |
| Actions.BatchUndone | services/polyphony-xdg/src/storage/tikv.rs:1271-1448 | a batch on distinct keys is undone byte for byte by its inverses in reverse order |
| Actions.ExecutePointwise | services/polyphony-xdg/src/storage/tikv.rs:1136-1266 | on distinct keys each action has its effect on its own key and nothing else changes |
| ActionLaws.EffectsAre | services/polyphony-xdg/src/storage/tikv.rs:1136-1266 | an action panics exactly if it changes a counter of too few bytes; otherwise writes, deletions and insertions leave their value, increments wrap around at their width, and decrements stop at zero, where the key is removed or, in the variant that keeps it, holds zero; absent counters are not decremented |
| ActionLaws.InverseIs | services/polyphony-xdg/src/storage/tikv.rs:1271-1448 | the inverse of an action puts back what its key held, or deletes the key; none is kept exactly for a set of the same value, a deletion or decrement of an absent key, and an insertion of a present one |
| ActionLaws.SizeIs | services/polyphony-xdg/src/model.rs:399-411 | the size counted for an action is that of its key and of the value it writes |
| Actions.PointwiseUnique | services/polyphony-xdg/src/storage/tikv.rs:1564-1614 | the store a batch leaves does not depend on the order of its actions |
| Batcher.MergeAdds | services/polyphony-xdg/src/model.rs:284-358 | merged counter actions add up their net changes without overflow while the sum fits, and stay in their family |
| ActionLaws.MergeSameIff | services/polyphony-xdg/src/model.rs:284-358 | for any two changes of a counter and whatever it holds, merging leaves the amount of making them in turn if and only if nothing is lost on the way: no decrement below zero followed by an increment, no wrap that is not undone; two increments always merge exactly |
| Batcher.MergeComposes | services/polyphony-xdg/src/model.rs:359-395 | merging two of set, delete and insert means running one after the other |
| Batcher.ExecutorsAgree | services/polyphony-xdg/src/storage/tikv.rs:1136-1448 | the plain executor and the one that derives inverses leave the same bytes, or the same amount of a counter |
| Batcher.MergedMeansSame | services/polyphony-xdg/src/storage/tikv.rs:430-465 | executing the merged actions in any order, on either executor, gives the store of executing the list one by one, up to stored zeros; merging never panics and no sum wraps |
| Batcher.SyncBatcher.PushActions | services/polyphony-xdg/src/storage/tikv.rs:430-452 | merges a block's actions into the pending map, or reports the panic of a bad merge |
| Batcher.SyncBatcher.GetBatchActions | services/polyphony-xdg/src/storage/tikv.rs:463-465 | lists every pending action once, under distinct keys |
| Batcher.MergedBulk | services/polyphony-xdg/src/storage/tikv.rs:430-452 | merging actions never makes a batch larger than their sizes added up |
| Batcher.SyncBatcher.ShouldFlush | services/polyphony-xdg/src/storage/tikv.rs:471-488 | if it does not ask for a flush, the batch merged with the next block sends at most half the byte limit |
| Rollback.Position | services/polyphony-xdg/src/rollback/buffer.rs:69-73 | finds the newest entry for a point, if there is one |
| Rollback.RollbackBuffer.AddBlock | services/polyphony-xdg/src/rollback/buffer.rs:93-98 | pushes to the front and truncates to the size |
| Rollback.RollbackBuffer.RollbackToPoint | services/polyphony-xdg/src/rollback/buffer.rs:100-107 | drops exactly the blocks newer than the point, or refuses |
| Rollback.RetryIsSafe | services/polyphony-xdg/src/storage/tikv.rs:2193-2219 | a rollback cut off after any prefixes of its commits, any number of times, and rerun from the start reaches the store of an uninterrupted one |
| WorkerRuns.CommitIs | services/polyphony-xdg/src/storage/tikv.rs:2053-2075 | the store a block leaves depends only on its merged actions, whatever order they are applied in |
| WorkerRuns.RollbackReaches | services/polyphony-xdg/src/storage/tikv.rs:2162-2258 | rolling back to a surviving block in the buffer leaves exactly the store that block left |
| WorkerRuns.RunKeepsStore | services/polyphony-xdg/src/storage/tikv.rs:2031-2258 | after any run of mutable blocks and rollbacks, retried or not, the data store is byte for byte that of committing only the surviving blocks |
| CursorRuns.RunShows | services/polyphony-xdg/src/storage/tikv.rs:1117-1131 | after any run of blocks that each set their cursor last, and of rollbacks, retried or not, both cursor keys hold the cursor of the newest surviving block |
| WorkerRuns.FlushRetrySame | services/polyphony-xdg/src/storage/tikv.rs:1617-1705 | a staggered flush cut off anywhere before its last commit and rerun leaves the store of an uninterrupted flush |
| WorkerRuns.FlushIsBatch | services/polyphony-xdg/src/storage/tikv.rs:1617-1705 | flushing in several transactions leaves the store of one transaction |
| WorkerRuns.FlushRuns | services/polyphony-xdg/src/storage/tikv.rs:1617-1705 | a staggered flush of actions that set the cursor does not panic where one transaction does not |
| Bytes.BeOrder | crates/timbre-xbt/src/encdec/encode.rs:14-35 | big-endian integers sort as numbers |
| Bytes.BeRoundTrip | crates/timbre-xbt/src/encdec/decode.rs:23-50 | a fixed-width integer decodes to itself |
| TimbreKeys.VarRoundTrip | crates/timbre-xbt/src/encdec/decode.rs:113-136 | a variable-length integer decodes to itself whatever follows |
| TimbreKeys.VarOrder | crates/timbre-xbt/src/encdec/encode.rs:56-74 | variable-length integers sort as numbers |
| TimbreKeys.EncodeVarUInt | crates/timbre-xbt/src/encdec/encode.rs:56-74 | the search for the first non-zero byte yields the shortest encoding |
| TimbreKeys.PrefixRangeIff | crates/timbre-xbt/src/lib.rs:224-239 | the range of a prefix holds exactly the keys that start with it, prefixes of 255s included |
| TimbreKeys.PrefixKeyRange | crates/timbre-xbt/src/lib.rs:224-239 | the backward loop over trailing 255s finds the end of the range |
| Metadata.KeyRoundTrip | crates/timbre-xbt/src/rollback/mod.rs:5-11 | a metadata key decodes to itself |
| Metadata.HeightOrder | crates/timbre-xbt/src/rollback/mod.rs:5-11 | metadata keys sort by height |
| Metadata.IndexOrder | crates/timbre-xbt/src/rollback/mod.rs:5-11 | the keys of one block sort by operation index |
| Metadata.BoundIff | crates/timbre-xbt/src/rollback/mod.rs:13-29 | a key is below the bound of a height range exactly if its height is |
| Metadata.GcRepresents | services/polyphony-xdg/src/storage/tikv.rs:1489-1562 | garbage collection by byte range removes exactly the blocks below the height |
| Metadata.TrimRepresents | services/polyphony-xdg/src/storage/tikv.rs:1707-1778 | trimming by byte range removes exactly the blocks above the height |
| PersistedBuffer.ScanIs | services/polyphony-xdg/src/storage/tikv.rs:263-336 | scanning the metadata yields the blocks by height and the actions of each in order |
| PersistedBuffer.FetchedIs | services/polyphony-xdg/src/storage/tikv.rs:257-406 | the scanned records regroup into exactly the points and inverse actions that were written |
| WorkerPersistence.PersistedMatches | services/polyphony-xdg/src/storage/tikv.rs:159-169 | loading the persisted metadata gives as newest entries exactly the committed blocks in memory |
| WorkerPersistence.CommitMirrors | services/polyphony-xdg/src/storage/tikv.rs:2053-2160 | a commit with its seeding and garbage collection keeps memory and metadata in step |
| WorkerPersistence.RollbackMirrors | services/polyphony-xdg/src/storage/tikv.rs:2193-2258 | a rollback with its trim keeps memory and metadata in step |
| MirrorRuns.CursorLeavesInverse | services/polyphony-xdg/src/storage/tikv.rs:1117-1131 | a block that moves the cursor always has an inverse to persist |
| MirrorRuns.BlockStorable | services/polyphony-xdg/src/storage/tikv.rs:1450-1562 | the inverses of a block whose last actions set a new cursor can be persisted and read back, stored values being non-empty, and stay so |
| Restarts.LoadServes | services/polyphony-xdg/src/storage/tikv.rs:150-205 | a buffer loaded from the persisted blocks undoes the surviving blocks as the one in memory did |
| MirrorRuns.RunMirrors | services/polyphony-xdg/src/storage/tikv.rs:1957-2258 | over any run of blocks that move the cursor, rollbacks and restarts, the store is that of committing the surviving blocks only, and the persisted metadata reads back as the committed blocks in memory |
| MirrorRuns.FreshRun | services/polyphony-xdg/src/storage/tikv.rs:1957-2258 | so for every run of a worker that starts without metadata |
| StorageWorker.ApplyPlain | services/polyphony-xdg/src/storage/tikv.rs:1601-1612 | the loop over a batch uses each fetched value once and leaves the store of the plain executor, or panics where it does |
| StorageWorker.ApplyStaggered | services/polyphony-xdg/src/storage/tikv.rs:1617-1705 | sorting the actions and running deletes, sets and the rest in separate transactions is the flush that the retry law is about |
| StorageWorker.ApplyWithInverse | services/polyphony-xdg/src/storage/tikv.rs:1579-1600 | the loop applies the batch and collects the inverse of every action that changed anything |
| StorageWorker.ReadBuffer | services/polyphony-xdg/src/storage/tikv.rs:338-406 | the grouping loop yields the blocks that the records stand for |
| StorageWorker.DeleteRange | services/polyphony-xdg/src/storage/tikv.rs:1512-1552 | deleting key by key leaves exactly the keys outside the range |
| StorageWorker.TikvWorker.RollForwardBulk | services/polyphony-xdg/src/storage/tikv.rs:1957-2030 | takes a block in bulk mode: a full batch is sent first, staggered if it is large, and the last processed point becomes this block; otherwise the block joins the batch, which stays within its limits |
| StorageWorker.TikvWorker.RollForward | services/polyphony-xdg/src/storage/tikv.rs:2031-2160 | commits a mutable block: what bulk mode left pending is sent, then store, buffer, metadata and last point move by one step, or nothing more changes |
| StorageWorker.TikvWorker.RollBack | services/polyphony-xdg/src/storage/tikv.rs:2162-2258 | undoes the blocks after a point in store, buffer and metadata, or refuses a point that is not in the buffer |
| Reducers.IndexKeyInjective | crates/timbre-xbt/src/reducers/utxos_by_script_hash.rs:3-14 | different outputs have different index keys |
| Reducers.ChainedTxos | services/polyphony-xdg/src/reducers/mod.rs:255-278 | returns exactly the outputs that the block both produces and consumes |
| Reducers.ReduceUtxos | services/polyphony-xdg/src/reducers/utxos_by_script_hash.rs:78-110 | emits a delete or set for every input and output of the block that is not chained, in order |
| Reducers.ReduceBalances | services/polyphony-xdg/src/reducers/sat_balance_by_script_hash.rs:67-87 | emits a decrement for every input and an increment for every output, chained ones included, in order |
| Reducers.BlockKeepsIndex | services/polyphony-xdg/src/reducers/utxos_by_script_hash.rs:78-110 | skipping chained outputs, the index rows of the store are still exactly the chain's unspent outputs, whatever else the store holds |
| ReducerBatches.SplitRuns | services/polyphony-xdg/src/storage/tikv.rs:1136-1266 | a list of actions leads each class of keys to where its own actions alone lead |
| ReducerBatches.RowsSum | crates/timbre-xbt/src/reducers/utxos_by_script_hash.rs:3-14 | the amounts in the index rows of a script add up to its unspent outputs |
| ReducerBatches.BatchKeepsBoth | services/polyphony-xdg/src/storage/tikv.rs:1092-1131 | the index and balance actions of any run of valid blocks, interleaved with each other and with other actions in any way and merged into one batch, leave, on either executor, the index of exactly the unspent outputs, and each script's balance is the sum of its index rows |
| ReducerStage.ReduceBlock | services/polyphony-xdg/src/reducers/worker.rs:37-92 | a block's actions are those of the reducers in their configured order, then the two sets of its cursor |
| ReducerStage.StageKeepsBoth | services/polyphony-xdg/src/reducers/worker.rs:37-92 | for what the stage emits, in either order of the two reducers and with the cursors, index and balances agree after the batch on either executor |
| IndexRuns.BulksKeep | services/polyphony-xdg/src/storage/tikv.rs:1980-2030 | over any sequence of bulk batches, each sent in one transaction or in several that are cut off and rerun, none panics, index and balances follow the chain and no empty value is stored |
| IndexRuns.StepsKeep | services/polyphony-xdg/src/storage/tikv.rs:2031-2258 | over any run of mutable blocks, rollbacks and restarts, the index is the unspent outputs of the surviving chain, each balance the sum of its script's rows, and the metadata reads back as the blocks in memory |
| IndexRuns.LifeKeeps | services/polyphony-xdg/src/storage/tikv.rs:1957-2258 | the same for a worker's whole life: bulk batches of any length into an empty store, with the last processed point they leave, then any such run |
| IndexRuns.SeedIndexIff | services/polyphony-xdg/src/storage/tikv.rs:2007-2112 | when everything mutable is rolled back, to the point the buffer was seeded with, the index is that of the chain up to the point if and only if the rest of the last bulk batch changes no unspent output |
| IndexRuns.SeedLags | services/polyphony-xdg/src/storage/tikv.rs:2007-2112 | it is not if that batch goes on with a block that only creates an output |
| Reducers.BalancesFollow | services/polyphony-xdg/src/reducers/sat_balance_by_script_hash.rs:67-87 | the balance actions of valid blocks, one by one, keep each balance equal to the sum of the script's unspent outputs, and no running balance leaves 64 bits |
| Pagination.HeightRangeIff | crates/timbre-xbt/src/reducers/mod.rs:50-99 | a key with the given parameters is in the range exactly if its height lies between the two bounds, both included, except that an upper bound never admits the largest 64-bit height |
| Pagination.RangeHasPrefix | crates/timbre-xbt/src/reducers/mod.rs:73-99 | the range holds no key of other parameters |
| Pagination.RangeIsHeights | crates/timbre-xbt/src/reducers/mod.rs:73-99 | the rows in the range are exactly those with the parameters whose height lies between the bounds |
| Pagination.ExecuteWithFilter | services/mapi-xdg/src/polyphony.rs:440-547 | the batched scan, halving its batch on size errors, returns exactly the first `count` rows of its range that pass the filter |
| Pagination.ParseParams | services/mapi-xdg/src/util.rs:73-130 | a request is refused exactly for a bad page size or a cursor outside its height range; otherwise the cursor moves the bound the order starts from |
| Pagination.ServePage | services/mapi-xdg/src/api/addresses/txs_by_address.rs:96-128 | a page shows the first `count` rows and points at its last one exactly if another row follows |
| Pagination.PagesReturnAll | services/mapi-xdg/src/util.rs:73-130 | following cursors to the end in either order returns each row of the range exactly once and in order, and no cursor is refused |
| Pagination.FollowPages | services/mapi-xdg/src/util.rs:73-130 | a client that sends requests until there is no next cursor collects exactly the rows with the given parameters between the given heights, each once and in order, whatever the page size and however scans were split |
| Varint.FitsIn19 | services/polyphony-xdg/src/dunes/varint.rs:8-30 | every 128-bit integer fits in 19 bytes |
| Varint.RoundTrip | services/polyphony-xdg/src/dunes/varint.rs:32-52 | a varint decodes to itself whatever follows, without saturating |
| Varint.DecodeIs | services/polyphony-xdg/src/dunes/varint.rs:32-52 | any buffer decodes to what its digits stand for, or to 2^128 - 1 if that is more |
| Varint.ListRoundTrip | services/polyphony-xdg/src/dunes/dunestone.rs:225-236 | a concatenation of varints decodes to the list it was made of |
| Varint.EncodeToVec | services/polyphony-xdg/src/dunes/varint.rs:8-30 | filling the 19-byte buffer from the end yields the encoding |
| Varint.DecodeVarint | services/polyphony-xdg/src/dunes/varint.rs:32-52 | the saturating loop returns value and length of the decoding |
| Varint.ReadIntegers | services/polyphony-xdg/src/dunes/dunestone.rs:225-236 | the loop splits a payload into its integers |
| DuneNames.NameRoundTrip | services/polyphony-xdg/src/dunes/dune.rs:107-155 | every dune name, the largest with its special case included, prints and parses back to itself |
| DuneNames.TextRoundTripIff | services/polyphony-xdg/src/dunes/dune.rs:107-155 | a text parses to a dune that prints as it if and only if it is a non-empty name within range |
| DuneNames.PrintName | services/polyphony-xdg/src/dunes/dune.rs:107-131 | the loop prints the letters of the dune |
| DuneNames.ParseName | services/polyphony-xdg/src/dunes/dune.rs:133-155 | the loop parses a name with checked products and a wrapping step |
| DuneNames.SpacedRoundTripIff | services/polyphony-xdg/src/dunes/spaced_dune.rs:23-69 | a spaced name prints and parses back to itself if and only if its spacers lie below the last letter; otherwise exactly the bits above are lost |
| DuneNames.ParseSpacedName | services/polyphony-xdg/src/dunes/spaced_dune.rs:23-53 | the character loop refuses leading, double and trailing spacers and other characters; the bit of a spacer is that of a 32-bit shift |
| DuneNames.ReadFits | services/polyphony-xdg/src/dunes/spaced_dune.rs:23-53 | parsed spacers always fit in 32 bits |
| GcSafepoint.TipIs | services/tikv-gc/src/invariants/earliest_chaintip.rs:52-83 | the chain tip is the confirmed entry that all confirmed entries precede by height and timestamp |
| GcSafepoint.ChooseSafepoint | services/tikv-gc/src/worker.rs:42-76 | the safepoint is the earliest of all chain tips and the safe zone |
| GcSafepoint.TipKept | services/tikv-gc/src/worker.rs:89-101 | pruning at a safepoint keeps the chain tip |
| GcSafepoint.SafepointAdvances | services/tikv-gc/src/worker.rs:42-104 | a new safepoint is never earlier than the last one |
| GcSafepoint.RunIsSafe | services/tikv-gc/src/worker.rs:42-104 | over any interleaving of commits, rollbacks, clock ticks and collections the safepoint never moves back and never passes a chain tip or the safe zone |

## Left out

- Peer-to-peer sync, gRPC and HTTP handlers beyond the page loop, Redis and TiKV clients, pipeline stages: input and output. The stores are ordered maps with atomic transactions and exact range scans.
- Hashing, consensus encoding, JSON, UTF-8, bincode and base64: library code. A decoded Dunestone and a decoded drc-20 message are inputs of the model.
- Dunestone message fields and flags, and the minimum name length by height: table-driven decoding that would only add easy members; the minimum is a parameter.
- The subsidy schedule: the source documents that it is another chain's, so the subsidy of a height is a parameter.
- Offsets of inscriptions lost by the coinbase: they only name positions past all outputs, and nothing reads them.
- The split of an edict over all outputs: the guard before it skips such edicts, so the branch is unreachable and not modelled.
- ChainDatabase.ChainDb.ApplyBlock: a counter written as zero is a deletion, so the difference between a stored zero and an absent key, which no reader sees, is not captured.
- ChainDatabase.ChainDb.ApplyBlock: the in-memory output map is not a field of this object; it is modelled on values in `MemoryResolver`.
- StorageWorker.TikvWorker.RollForward: a restart between the commit and the Redis entry is not modelled.
- MirrorRuns.RunMirrors: speaks of blocks committed as mutable, at positive heights, as records of height 0 are not loaded; the seeded first point is stored with a placeholder and is not compared, and a bulk batch after a restart with a loaded buffer is not modelled.
- The other reducers, ordinal ranges, the command line, API types and configuration: repetitive, disabled or thin.
