# A verified model of the IOTA core API v1 database service

The service answers queries about a stopped network from two key-value stores that another
node wrote: the UTXO database and the message database. It reads a ledger through secondary
indexes, a lookup table it rebuilds itself, and a cache. This project models that query
layer in Dafny and proves that each of those shortcuts agrees with a plain scan of the
ledger or of the messages, and says exactly where it does not.

`dafny verify dfyconfig.toml` checks everything.

## The main results

1. **Index scans refine filtering.** On a well-formed database (`Ledgers.Represents`) a
   prefix scan of either index delivers, in key order, what a filtered scan of the output
   table would (`UnspentScanRefinesFilter`, `SpentScanRefinesFilter`), whatever the consumer
   and on any store (`ForEachUnspentOutput`, `ForEachSpentOutput`). Paged listings, lookups
   by ID and milestone diffs are proved on top of it. Every valid ledger has a well-formed
   database: the documented layout written out (`EveryLedgerStored`).
2. **Rebuild safety.** The lookup table of conflicting transactions is modelled as a step
   machine with crashes, restarts, growing ledgers and writes that become durable in order.
   Over every run without a cancelled scan the service answers only from the exact table
   (`RebuildSafe`), and the program's own rebuild is a run of that machine
   (`LookupTable.CreateLookupTable`, `LookupTable.New`).
3. **History.** The history of an address mentions exactly the messages a full scan finds,
   once each (`HistoryComplete`), for every order in which the program's hash map is
   enumerated (`ComputeHistory`); it is served complete in every such run
   (`ServedHistoryComplete`). Its balance changes add up to the unspent outputs of the
   address, in 64-bit arithmetic always and exactly when no message's sums overflow, and even
   when conflicts were lost (`BalancesTelescope`); over the addresses of one transaction they
   add up to outputs less inputs (`ChangesConserve`).
4. **Caching.** Over every run of JSON and CSV requests, with any page sizes and evictions,
   each cached array is the uncached history with its widest CSV page sorted
   (`RunKeepsExactly`), which gives every response exactly (`RunAnswers`, `CSVResponse`) and
   says when it is the uncached one (`ResponseExactIff`); with JSON requests only it always
   is (`CacheTransparent`). Every execution of the server is such a run (`ServeAll`).

`Transfers.StoryBalances` meets the premises that results 1 to 3 share on a concrete,
non-empty ledger, and computes what its histories add up to.

## Properties that fail, and when

- A cancelled rebuild marks its partial table as complete. Over every run, whatever is
  cancelled, crashes or grows, the service answers from a table rebuilt up to some row, and
  that table is exact if and only if no row from there on fails or belongs to a conflicting
  transaction touching an address (`AnyRunServesStopped`, `StoppedRebuildExactIff`,
  `RowRequiresEntry`); it lists the conflicts of the rows before (`StoppedRebuildLists`). The
  history of an address then mentions exactly the messages of a full scan that are not in
  conflict or come before that row, so it is complete if and only if no conflicting message
  of its full scan comes later (`HistoryUpTo`, `HistoryCompleteIff`, `AnyRunServesHistory`).
  `CancelledRunServesInexact` gives a run that goes on serving a wrong table after a restart,
  and `CancelledHistoryIncomplete` a node whose history then silently lacks a message.
- A CSV request sorts the cached array itself. Over any run a response is the uncached one
  if and only if it asks for nothing, the widest CSV page since the array was cached is from
  a single milestone, or it is a CSV page at least that wide (`ResponseExactIff`).
  `SortedCacheServesWrongPage` shows two requests of which the second gets a wrong page.
- On a consistent node a request for an address panics if and only if the first output of
  some transaction that spent from the address is missing from the store, and never fails
  otherwise (`HistoryBuildableIff`, `RunPanicsIff`); `MissingFirstOutputPanics` is such a
  node. The comment at
  pkg/server/transactions.go:57 calls that case harmless; the model follows the code, in
  which the missing message ID becomes an empty map key (pkg/server/transactions.go:240)
  that is no message ID (pkg/hornet/message_id.go:42-45).
- An output record cut off right behind its address is loaded without an error and gets an
  amount made of its message ID (`LoadableOutputs`): the second move back of the cursor
  then has distance zero, which means a move to the start.
- The early stop of the children, indexation and conflict queries admits one result more
  than the maximum (`Queries.FirstIDs`).

## How things are modelled

- *Stores* are finite maps from byte strings to byte strings. Iteration over a prefix visits
  the keys in ascending byte order. What a store returns is either a value or "key not
  found"; other storage errors are not part of the model.
- *The well-formed database.* `Ledgers.Represents(store, L)` says that a store holds exactly
  the ledger `L` in the layout documented in pkg/utxo/database_prefixes.go:14-98: every
  output is in exactly one of the two indexes, and keys and values agree.
  `Consistency.Consistent(node, L)` adds what the writing node guarantees about messages:
  metadata agrees with payloads, applied and conflicting messages are in a known milestone,
  included transactions created and spent what the ledger says, and ledger entries name the
  messages they come from. Messages that no milestone references may be stored, and messages
  and outputs may be missing (pruned).
- *Cursor and addresses.* The read cursor and address deserialization belong to the
  libraries hive.go and iota.go, which are not part of this model. The cursor is a class
  whose seek takes negative arguments as relative and all others as absolute positions;
  the only address kind is Ed25519, a type byte 0 and 32 bytes.
- *Consumers* of a scan are a decision whether to go on, made from everything handed over
  so far. What a consumer collects is then the sequence of rows it saw.
- *Loaded records* (outputs, spents, metadata, diffs) are values: a half-filled record of a
  failed load cannot be observed by any caller.
- *Messages* are datatypes with given identifiers. An absent transaction ID or essence
  stands for the failures of computing them.
- *The order of the hash map* is an arbitrary choice in each round of the loop that builds
  the items; which of several bad messages ends a failed request depends on it, a history
  does not.
- *Crashes* lose a suffix of the writes that were not flushed. While the service is down the
  ledger index may grow; that the same index means the same database is an assumption.
  A scan that ends in an error gives up and goes down.
- *The cache* is a map to arrays, so that a response and the cache share one array. Eviction
  removes any entries after any request. Requests are atomic.
- *Sorting* in place is by a library. `HistorySort.SortSlice` promises of it a sorted
  permutation, for items of different messages only; both comparators are strict total
  orders on those, which leaves no choice (`SortedPermutation`).
- *Integers* are bounded where the program's are: identifiers and indexes by their width,
  balances by 64-bit two's complement with wrap-around.

## Model

| member | source | states |
|---|---|---|
| ByteStrings.Uint32RoundTrip | pkg/utxo/milestone_diff.go:26-32 | reading four little-endian bytes inverts writing them |
| ByteStrings.TwoBytes | pkg/server/utxo.go:49 | the two bytes of a 16-bit number, low byte first |
| ByteStrings.FourBytes | pkg/utxo/milestone_diff.go:26-32 | the four bytes of a 32-bit number, low byte first |
| ByteStrings.LessIsLexicographic | pkg/server/transactions.go:283 | one byte string comes before another if and only if it is a proper prefix of it or has the smaller byte where they first differ |
| KVStores.Scan | pkg/utxo/unspent.go:83-112 | an iteration visits exactly the stored keys with the prefix, in ascending order |
| KVStores.ScanInByteOrder | pkg/utxo/unspent.go:83-112 | of two rows of an iteration the earlier one is a proper prefix of the later or has the smaller byte where they first differ |
| KVStores.ScanSize | pkg/utxo/unspent.go:83-112 | an iteration visits each key once |
| KVStores.AscendingUnique | pkg/utxo/unspent.go:83-112 | an ascending sequence of keys is determined by its elements, so a scan has only one order |
| Marshalling.ParseOutputID | pkg/utxo/marshalutils_helper.go:10-19 | returns the next 34 bytes and moves by 34, or fails and does not move |
| Marshalling.ParseHash | pkg/utxo/marshalutils_helper.go:21-39 | returns the next 32 bytes and moves by 32, or fails and does not move |
| Marshalling.ParseAddress | pkg/utxo/marshalutils_helper.go:41-71 | returns the address at the cursor or the right error; afterwards the cursor is behind the address exactly when a byte follows it, and at the start of the buffer otherwise |
| Records.LoadOutput | pkg/utxo/output.go:54-96 | on any bytes the two moving cursors yield what the layout says, including the short record and every error |
| Records.OutputIDFromIndexKey | pkg/utxo/unspent.go:22-40 | on any bytes parsing an index key yields bytes 35 to 69 or the error of the first part that is malformed |
| Records.LoadSpending | pkg/utxo/spent.go:70-112 | on any key and value the output ID, the spending transaction and the milestone, or the first error |
| Encoding.DocumentedLayout | pkg/utxo/database_prefixes.go:14-86 | the keys and values of outputs, both indexes, diffs and treasury outputs byte by byte, with the numbers of their prefixes |
| Records.OutputRoundTrip | pkg/utxo/database_prefixes.go:29-37 | loading the documented encoding of any output returns that output |
| Records.LoadableOutputs | pkg/utxo/output.go:54-96 | of all records exactly those of 66 bytes and of 74 or more with a known address type load; the first 74 bytes of a full one encode its result and the rest is ignored; the short one is loaded as if its own first eight bytes followed as the amount |
| Records.SpendingRoundTrip | pkg/utxo/database_prefixes.go:50-58 | loading the documented value of a spent row returns its spending |
| Records.IndexKeyRoundTrip | pkg/utxo/unspent.go:12-40 | parsing the index key of an output returns its ID |
| Records.IndexKeyInjective | pkg/utxo/spent.go:60-68 | two index keys are equal if and only if table, address, type and output ID are |
| Records.IndexKeyHasPrefix | pkg/utxo/unspent.go:70-81 | an index key starts with the scan prefix if and only if its output has that address and, when asked for, that type |
| Ledgers.ReadOutputRepresented | pkg/utxo/output.go:98-111 | in a well-formed database a lookup returns the output of the ledger, or "not found" exactly when it has none |
| Ledgers.ListingIsListing | pkg/utxo/unspent.go:46-118 | the reference listing holds each output of a set once, in the order of the index keys |
| Ledgers.ListingUnique | pkg/utxo/unspent.go:46-118 | there is only one such listing |
| Ledgers.FilterListing | pkg/utxo/unspent.go:70-81 | filtering a listing is listing the filtered set |
| UtxoManager.CappedHolds | pkg/utxo/unspent.go:84-86 | a limit of zero or less leaves all rows, a positive one the first so many |
| Encoding.EveryLedgerStored | pkg/utxo/database_prefixes.go:14-98 | writing any valid ledger in the documented layout gives a well-formed database of it: tables with different prefixes do not interfere |
| UtxoManager.Manager.constructor | pkg/utxo/utxo.go:21-27 | a manager of any store, which remembers no ledger index yet |
| UtxoManager.Manager.ReadLedgerIndex | pkg/utxo/utxo.go:29-40 | when an index is stored, which the first use needs, every call returns it and leaves it remembered |
| UtxoManager.Manager.ReadOutputByOutputID | pkg/utxo/output.go:98-111 | refines the lookup on any store |
| UtxoManager.Manager.LoadUnspentRow | pkg/utxo/unspent.go:91-103 | a row of the unspent index resolves to the output its key names, or to the first error |
| UtxoManager.Manager.LoadSpentRow | pkg/utxo/spent.go:114-130 | a row of the spent index resolves to its output and spending, or to the first error |
| UtxoManager.Manager.ForEachUnspentOutput | pkg/utxo/unspent.go:46-118 | on any store, for any consumer: the consumer sees exactly the wanted rows before the first bad row, the limit or its own stop, in order; a bad row's error is reported after exactly the rows before it |
| UtxoManager.Manager.ForEachSpentOutput | pkg/utxo/spent.go:132-194 | the same for the spent index |
| UtxoManager.Manager.UnspentOutputs | pkg/utxo/utxo.go:99-113 | all wanted rows, or the error of the first bad row |
| UtxoManager.Manager.SpentOutputs | pkg/utxo/utxo.go:82-97 | all wanted rows, or the error of the first bad row |
| IndexScans.UnspentScanRefinesFilter | pkg/utxo/unspent.go:46-118 | in a well-formed database no row is bad and the scan delivers the filtered scan of the unspent outputs, cut to the limit; with a type filter and no address the limit counts rows before filtering |
| IndexScans.SpentScanRefinesFilter | pkg/utxo/spent.go:132-194 | the same for the spent outputs, each row with its own spending |
| IndexScans.AddressScanComplete | pkg/utxo/unspent.go:70-81 | a scan by address lists every output of that address in the index exactly once and no other |
| OutputsApi.ReadSpentForOutput | pkg/utxo/spent.go:206-222 | the spent lookup goes through the address index and keeps the given output |
| OutputsApi.ReadSpentForOutputID | pkg/utxo/spent.go:196-204 | the same by output ID |
| OutputsApi.IndexMembership | pkg/utxo/unspent.go:42-44 | in a well-formed database an output's key is in an index exactly when the ledger says unspent or spent |
| OutputsApi.ReadSpentRepresented | pkg/utxo/spent.go:196-222 | the spent lookup by ID returns the recorded spending, or "not found" exactly for unspent and unknown outputs |
| OutputsApi.NewOutputResponse | pkg/server/utxo.go:21-53 | succeeds exactly for the types 0 and 1; the texts and numbers of the response decode to the output, and its spending is left empty |
| OutputsApi.NewSpentResponse | pkg/server/utxo.go:55-65 | the same, with the spending transaction and milestone |
| OutputsApi.OutputByID | pkg/server/utxo.go:67-103 | for every ledger the store represents the answer is the one the ledger calls for, with an empty spending for an unspent output; and when it is "not found" on any store |
| OutputsApi.LookupCoherence | pkg/server/utxo.go:67-103 | an output is reported spent exactly when the spent scan of its own address lists it, and unspent exactly when the unspent scan does |
| OutputsApi.LookupSpendingCoherence | pkg/server/utxo.go:93-102 | the reported spending is the one the spent scan of its address yields |
| OutputsApi.SplicedPage | pkg/server/utxo.go:155-179 | two limited scans under one budget give the first elements of the unspent listing followed by the spent listing; a budget of zero gives all unspent and no spent outputs |
| OutputsApi.OutputsResponse | pkg/server/utxo.go:144-189 | for every ledger the store represents the texts of the response decode, one by one, to the IDs of that page; on any store it is an error exactly when a row scanned for the page is bad |
| OutputsApi.PageDistinct | pkg/server/utxo.go:155-179 | no output is listed twice, even across the splice |
| OutputsApi.HexIDsDecode | pkg/server/utxo.go:160-175 | each text of the page decodes to the ID of the output in its place |
| OutputsApi.HexIDsDistinct | pkg/server/utxo.go:160-175 | nor is any text |
| MilestoneDiffs.LoadTreasury | pkg/utxo/treasury_output.go:37-64 | on any bytes the flag, ID and amount of the layout, or the error |
| MilestoneDiffs.ReadTreasuryOutput | pkg/utxo/treasury_output.go:66-92 | refines the lookup under one of the two flags |
| MilestoneDiffs.ReadTreasuryRepresented | pkg/utxo/treasury_output.go:66-92 | a treasury output is found exactly under the flag the ledger gives it, and carries that flag |
| MilestoneDiffs.UnspentTreasuryOutput | pkg/utxo/treasury_output.go:94-125 | returns the treasury output of the ledger if it has exactly one unspent one, and an error otherwise |
| MilestoneDiffs.LoadOutputs | pkg/utxo/milestone_diff.go:43-56 | resolves a counted list in order, up to the first failure, and moves 34 bytes per element |
| MilestoneDiffs.LoadSpents | pkg/utxo/milestone_diff.go:63-76 | the same for spent outputs, through the address index |
| MilestoneDiffs.LoadMutation | pkg/utxo/milestone_diff.go:78-111 | the treasury part: none, or the generated output from either table and the spent one from the spent table |
| MilestoneDiffs.LoadDiff | pkg/utxo/milestone_diff.go:35-118 | on any bytes the decoded diff or the first error; a success consumes 4+34n+4+34m+1 bytes and 64 more with a treasury |
| MilestoneDiffs.DiffRoundTrip | pkg/utxo/milestone_diff.go:35-118 | loading the documented encoding of a recorded diff returns its outputs and spents in order, each with its own spending, and the treasury outputs with their flags |
| MilestoneDiffs.ResolvedDiffHolds | pkg/utxo/milestone_diff.go:98-115 | member by member what the loaded diff says: its index, the created and spent outputs in order with their spendings, and which treasury output is the generated and which the spent one |
| MilestoneDiffs.MilestoneDiffByIndex | pkg/utxo/milestone_diff.go:120-134 | for every ledger the store represents the recorded diff of the milestone, or "not found" exactly when there is none |
| MessageMetadata.MetadataFactory | pkg/database/message_metadata.go:125-205 | succeeds exactly with 23 bytes and 32 more per counted parent, and then yields the fields of the layout |
| MessageMetadata.ReadParents | pkg/database/message_metadata.go:188-202 | the counted parents in order, or an error if one is cut off |
| MessageMetadata.MetadataAt | pkg/database/message_metadata.go:125-205 | which bytes of the record each member is read from |
| MessageMetadata.FlagBits | pkg/database/message_metadata.go:17-23 | the flags in numbers: bit 1 is referenced, 3 conflicting, 4 milestone, and included is bit 1 without bits 2 and 3 |
| MessageMetadata.MetadataRoundTrip | pkg/database/message_metadata.go:125-205 | decoding the encoding of any record with up to 255 parents returns that record |
| Hexadecimal.FromHexInvertsToHex | pkg/hornet/message_id.go:17-39 | reading inverts writing, on all byte strings |
| Hexadecimal.DigitsAreBase16 | pkg/hornet/message_id.go:17-19 | the digits are those of Base 16, section 8 of RFC 4648, in lower case |
| Hexadecimal.FromHexReads | pkg/hornet/message_id.go:27-31 | exactly the texts of an even number of hex digits are read |
| Hexadecimal.MessageIDFromHexExact | pkg/hornet/message_id.go:27-39 | exactly the 64-digit texts are message IDs, and writing one back lowers its case |
| Hexadecimal.MessageIDRoundTrip | pkg/hornet/message_id.go:17-39 | `MessageIDFromHex` inverts `ToHex` |
| Hexadecimal.ToHexKeepsOrder | pkg/hornet/message_id.go:17-19 | comparing hex texts orders as comparing raw bytes |
| ConflictTable.EntryKeyInjective | pkg/database/conflicting_transactions.go:52-63 | entries of different addresses or messages differ, and an entry is behind exactly its own address |
| ConflictTable.TableKeyBytes | pkg/database/conflicting_transactions.go:52-63 | an entry key is the byte 0, the address and the message ID, and the status key is the word "status" |
| ConflictTable.RowFailsIff | pkg/database/conflicting_transactions.go:83-147 | a row fails if and only if its metadata is cut off, or it is flagged as conflicting and its message is missing, has no essence, or has an unsupported input or output |
| ConflictTable.RowPlanKeys | pkg/database/conflicting_transactions.go:83-147 | a row that does not fail writes an entry for exactly the addresses its conflicting transaction touches: owners of outputs always, of inputs when known |
| ConflictTable.EntriesExact | pkg/database/conflicting_transactions.go:70-150 | the entries of a whole scan are exactly those of all conflicting messages and the addresses they touch |
| Rebuild.StatusIsNoEntry | pkg/database/conflicting_transactions.go:157-165 | no entry is ever taken for the status |
| Rebuild.GoodStatus | pkg/database/conflicting_transactions.go:29-43 | of a table that is stale or exact the status alone tells which |
| Rebuild.NextKeepsInv | pkg/database/conflicting_transactions.go:45-173 | every step of opening, deleting, scanning, marking, flushing, crashing and growing keeps the invariant |
| Rebuild.RebuildSafe | pkg/database/database.go:133-180 | in every run without a cancelled scan a status equal to the ledger index means an exact table, in memory and on disk, and the service serves only from an exact one |
| LookupTables.LookupTable.DeleteAll | pkg/database/conflicting_transactions.go:46-49 | deleting key by key, in any order, is a run of the step machine and ends with an empty table |
| LookupTables.LookupTable.SetConflictEntry | pkg/database/conflicting_transactions.go:52-63 | writes the one entry that is due next |
| LookupTables.LookupTable.SetInputEntries | pkg/database/conflicting_transactions.go:109-128 | writes the entries of the known inputs in order and fails exactly at an unsupported input |
| LookupTables.LookupTable.SetOutputEntries | pkg/database/conflicting_transactions.go:129-147 | writes the entries of the outputs in order and fails exactly at an unsupported output |
| LookupTables.LookupTable.ScanRow | pkg/database/conflicting_transactions.go:83-150 | one row of the scan: all of its entries are written, or it fails where the specification says |
| LookupTables.LookupTable.FinishTable | pkg/database/conflicting_transactions.go:157-170 | marks and flushes; the table then holds the entries of the scanned rows and the status, whether or not the scan was complete |
| LookupTables.LookupTable.CreateLookupTable | pkg/database/conflicting_transactions.go:45-173 | every execution is a run of the step machine; a success has written exactly the entries of the rows before the cancellation, or of all rows; a failure is that of the first bad row |
| LookupTables.LookupTable.New | pkg/database/database.go:133-183 | an up-to-date table is served as it is; otherwise it is rebuilt, and without cancellation the result is exact; it fails only if some row is bad |
| Queries.FirstIDs | pkg/database/conflicting_transactions.go:184-196 | the IDs of the first rows behind a prefix, in key order: of n rows all without a maximum, min(n, max+1) with one, and for a negative one still the first |
| Queries.ConflictingTransactionsMessageIDs | pkg/database/conflicting_transactions.go:176-201 | the same for an address, and all rows without a maximum |
| Queries.ChildrenMessageIDs | pkg/database/children.go:9-25 | the same for the children of a message |
| Queries.IndexMessageIDs | pkg/database/indexation.go:18-35 | the same for a padded index |
| Queries.SameIndexRows | pkg/database/indexation.go:13-15 | two indexes of up to 64 bytes address the same rows if and only if they differ only in trailing zero bytes: the same byte at each of 64 places, counting missing ones as zero |
| Queries.ConflictQueryListed | pkg/database/conflicting_transactions.go:176-201 | on a table rebuilt up to a row the query of an address lists each conflicting transaction of the earlier rows touching it once, in ascending order, and nothing else |
| Queries.ConflictQueryExact | pkg/database/conflicting_transactions.go:176-201 | on an exact table these are all the conflicting transactions touching it |
| Cancellation.StoppedRebuildExactIff | pkg/database/conflicting_transactions.go:76-78 | a rebuild stopped at a row and marked complete is exact if and only if no row from there on fails or requires an entry |
| Cancellation.StoppedRebuildLists | pkg/database/conflicting_transactions.go:76-78 | such a table lists a conflict touching an address exactly when its row comes before the stop |
| Cancellation.AnyRunServesStopped | pkg/database/database.go:133-180 | over every run with any cancelled scans, crashes, restarts and growth a status equal to the ledger index means a table rebuilt up to some row, only such tables are served, and what is served is exact under the condition above |
| Cancellation.RowRequiresEntry | pkg/database/conflicting_transactions.go:90-147 | a row requires an entry exactly when its message is a conflicting transaction touching some address |
| Cancellation.CancelledRunServesInexact | pkg/database/conflicting_transactions.go:76-78 | on every node with something to put in the table a run with one cancelled scan serves a wrong table, and again after a restart |
| Cancellation.OneConflictIsLost | pkg/database/conflicting_transactions.go:76-78 | a concrete node whose only conflict is missing from the table served in that run |
| Completeness.HistoryCompleteIff | pkg/server/transactions.go:251-259 | with a table rebuilt up to a row the history is complete if and only if no conflicting message of the address's full scan comes at that row or later |
| Completeness.AnyRunServesHistory | pkg/database/database.go:133-180 | over every run, with any cancelled scans, the history of an address served at any time is the one of a table rebuilt up to some row, and is complete under the condition above |
| Example.CancelledHistoryIncomplete | pkg/server/transactions.go:251-259 | on that node, which keeps all guarantees of its writer, the served history lacks a message of the full scan and reports no error |
| HistoryItems.SumInputs | pkg/server/transactions.go:156-176 | the 64-bit loop yields the wrapped sum over the address's inputs, or stops at the first unknown or unsupported input |
| HistoryItems.SumOutputs | pkg/server/transactions.go:178-196 | the same over the outputs |
| HistoryItems.SumFunds | pkg/server/transactions.go:119-129 | the same over the funds of a receipt |
| HistoryItems.WrapIsTwosComplement | pkg/server/transactions.go:156-207 | every 64-bit value wraps to itself, and values 2^64 apart wrap to the same one |
| HistoryItems.InputTallyIs | pkg/server/transactions.go:156-176 | the first input that cannot be read decides whether inputs have a sum, are missing or unsupported |
| HistoryItems.TransactionOutcomes | pkg/server/transactions.go:156-196 | a transaction is skipped exactly when its first input that is not readable is an unknown output, and has an item exactly when all inputs are readable and all outputs supported |
| HistoryItems.TransactionItemState | pkg/server/transactions.go:81-100 | state, milestone and conflict reason of a transaction's item in numbers, for any metadata |
| HistoryItems.ItemOutcomes | pkg/server/transactions.go:68-147 | which messages are skipped, fail or panic before their inputs are looked at |
| HistoryItems.BuildTransactionItem | pkg/server/transactions.go:156-208 | the item of a transaction, or skipped, or failed |
| HistoryItems.BuildMigrationItem | pkg/server/transactions.go:102-142 | the item of a milestone with a receipt, or failed |
| HistoryItems.GetTransactionHistoryItem | pkg/server/transactions.go:68-209 | for every message an item, a skip, an error or a panic, as specified by cases on the stored data |
| HistorySort.BeforeIsStrictOrder | pkg/server/transactions.go:276-288 | both comparators are strict total orders on items of different messages |
| HistorySort.MilestonesDecide | pkg/server/transactions.go:286-287 | of items of different milestones the newer comes first in a history and last in CSV |
| HistorySort.TieBreakIsRawOrder | pkg/server/transactions.go:281-284 | within a milestone the item comes first whose raw message ID has the smaller byte where the two first differ |
| HistorySort.SortedUnique | pkg/server/transactions.go:276-288 | sorted sequences of the same items are equal |
| HistorySort.SortSorts | pkg/server/transactions.go:276-288 | sorting items of different messages orders them |
| HistorySort.SortForgets | pkg/server/transactions.go:276-288 | sorting does not depend on the order the items came in |
| HistorySort.SortedPermutation | pkg/server/transactions.go:276-288 | a sorted permutation of items of different messages is unique |
| HistorySort.SortSlice | pkg/server/transactions.go:327-339 | sorts the first part of an array, whose items are of different messages, in place, and leaves the rest |
| History.GetSpendingMessageID | pkg/server/transactions.go:49-66 | for every ledger the store represents the message that created the output `txID ++ 00 00`, or nothing when the ledger has no such output; on any store nothing exactly when its key is missing and an error exactly when its record does not load |
| History.MessageIDByTransactionID | pkg/server/transactions.go:24-44 | for every ledger the store represents the message that created the output `txID ++ 00 00`, or "not found" exactly when the ledger has no such output; on any store "not found" exactly when its key is missing and an error exactly when its record does not load |
| History.OutputIDBytes | pkg/server/transactions.go:30-32 | output 0 of a transaction is its ID and two zero bytes, and any other index follows as two bytes, low byte first |
| History.OutputIDOfInjective | pkg/server/transactions.go:30-32 | outputs of different transactions or indexes have different IDs |
| History.CollectUnspentCreators | pkg/server/transactions.go:219-227 | the creating messages of all unspent outputs of the address |
| History.CollectSpentMessages | pkg/server/transactions.go:229-249 | the creating and the spending messages of all spent outputs, or an error if any row or lookup is bad |
| History.CollectConflicts | pkg/server/transactions.go:251-259 | exactly the messages the lookup table lists for the address |
| History.CollectMessageIDs | pkg/server/transactions.go:218-259 | the union of the three sources, or an error exactly if one of the scans has a bad row or lookup |
| History.BuildItems | pkg/server/transactions.go:261-274 | in any order of the map: one item for each message that has one, or the error or panic of a bad message |
| History.HistoryUnique | pkg/server/transactions.go:261-288 | the history made of a set of messages is one definite sequence |
| History.FreshHistoryIsHistory | pkg/server/transactions.go:261-288 | the specified history is sorted and holds exactly the items of the candidate messages |
| History.FreshDistinct | pkg/server/transactions.go:276-288 | a history is sorted and has one item per message |
| History.ComputeHistory | pkg/server/transactions.go:211-294 | every enumeration order of the map yields the one specified history, in a fresh array, exactly if it can be built; failures and panics only for their causes |
| HistoryCache.DatabaseServer.constructor | pkg/server/transactions.go:211-216 | a new server has an empty cache |
| HistoryCache.DatabaseServer.GetTransactionHistoryItems | pkg/server/transactions.go:211-294 | returns the very array in the cache, or computes and caches a fresh one; nothing is cached on failure |
| HistoryCache.DatabaseServer.Render | pkg/server/transactions.go:301-339 | a page of the cached array; the CSV form first sorts that page in the cache, and no other entry changes |
| HistoryCache.ResponseHolds | pkg/server/transactions.go:306-313 | a response read back: the page in its order, the address its text decodes to, the limit, the 32-bit count and the ledger index |
| HistoryCache.DatabaseServer.Serve | pkg/server/transactions.go:296-339 | one request with any evictions: the new cache contents as a function of the old, and when it is answered the page of what it left of the array, with the address, limit, count and ledger index |
| HistoryRuns.CacheTransparent | pkg/server/transactions.go:213-216 | in every run of JSON requests, with any page sizes and evictions, every response lists the uncached page: the first items of the history in its order |
| HistoryRuns.PagesNest | pkg/server/transactions.go:301-304 | a smaller page is a prefix of a larger one |
| HistoryRuns.RunKeepsExactly | pkg/server/transactions.go:211-294 | in every run of JSON and CSV requests with any evictions each cached array is the uncached history with the widest CSV page since it was cached sorted |
| HistoryRuns.RunAnswers | pkg/server/transactions.go:296-339 | every response of such a run: its items as a function of the uncached history and that width, the address its text decodes to, the limit, the 32-bit count and the index of the ledger; when the history cannot be built, an error or a panic for which the data holds a cause |
| HistoryRuns.UncachedPageHolds | pkg/server/transactions.go:301-339 | the page without a cache: the newest items asked for, and for CSV the same ones in ascending order |
| HistoryRuns.ResponseExactIff | pkg/server/transactions.go:301-339 | in any run a response is the uncached one if and only if it asks for nothing, the widest page sorted is from a single milestone, or it is a CSV page at least that wide |
| HistoryRuns.CSVResponse | pkg/server/transactions.go:327-339 | the items every CSV response of a run lists, in ascending order |
| HistoryRuns.AnyRunPermutes | pkg/server/transactions.go:327-339 | it follows that cached arrays stay permutations of the history, responses list its items without repetition, CSV responses in ascending order, and one covering the history is exact |
| HistoryRuns.ServeAll | pkg/server/transactions.go:211-314 | serving any requests one after the other, from an empty cache, is a run in this sense, and each answer lists the items that follow from it |
| CSVPages.AfterCSVTwice | pkg/server/transactions.go:327-339 | sorting the pages of two CSV requests one after the other is sorting the wider one |
| CSVPages.CSVPageHolds | pkg/server/transactions.go:301-339 | a CSV page holds the newest items asked for, or, when a wider page was sorted before, the oldest items of that page |
| CSVPages.ReorderedIff | pkg/server/transactions.go:327-339 | a CSV request changes later JSON pages of a history if and only if its page spans several milestones |
| CSVPages.PageExactIff | pkg/server/transactions.go:301-339 | exactly when a page served from an array with a sorted page is the page of the unsorted one, for both formats |
| Reordering.SortedCacheServesWrongPage | pkg/server/transactions.go:213-216 | on a concrete node a JSON request after a CSV request for the same two items gets them in the wrong order |
| Completeness.CandidatesListed | pkg/server/transactions.go:218-259 | with a table rebuilt up to a row the candidates are exactly the creators and spenders of the address's outputs in the ledger and the conflicting messages of earlier rows touching it |
| Completeness.CandidatesExact | pkg/server/transactions.go:218-259 | with an exact table they hold all conflicting messages touching it |
| Completeness.StoredCandidate | pkg/server/transactions.go:218-259 | a stored message is a candidate exactly when it was included, migrated or in conflict and touches the address, and, being in conflict, has a row before the table stopped |
| Completeness.AffectingItem | pkg/server/transactions.go:68-209 | a message touching the address, included, migrating or in conflict, yields an item exactly when all its inputs are known, and is skipped otherwise; the item states its IDs, state, milestone, time, conflict reason and counts, and as balance change the 64-bit wrapped sum of what it gives to the address less what its inputs hold there in the ledger |
| Completeness.HistoryBuildableIff | pkg/server/transactions.go:56-60 | on a consistent node, with a table rebuilt up to any row, building the history in any order of the messages never fails with an error, and panics if and only if some spending transaction of the address has lost its first output; otherwise it succeeds |
| Completeness.RunPanicsIff | pkg/server/transactions.go:240-263 | in every run of requests a response is then never an error, and a panic if and only if such a first output is missing |
| Example.MissingFirstOutputPanics | pkg/server/transactions.go:240-263 | on a concrete consistent node with an exact table the empty key of a missing message is a candidate, and building the history panics in every order |
| Completeness.HistoryUpTo | pkg/server/transactions.go:211-294 | with a table rebuilt up to a row the history mentions exactly the messages a full scan finds that are not in conflict or have an earlier row, each once, in order, with the item that message alone determines |
| Completeness.HistoryComplete | pkg/server/transactions.go:211-294 | with an exact table these are all the messages a full scan finds |
| Completeness.ServedHistoryComplete | pkg/database/database.go:133-180 | whenever the service answers, in any run without a cancelled scan, the history of every address is complete |
| Conservation.OutputsSum | pkg/server/transactions.go:179-196 | over all addresses the output sums add up to the total of the outputs |
| Conservation.InputsSum | pkg/server/transactions.go:156-177 | over all addresses the input sums add up to the total of the inputs |
| Conservation.ChangeIsItsItem | pkg/server/transactions.go:207 | the change of an address is the one its history item states |
| Conservation.ChangesConserve | pkg/server/transactions.go:156-207 | with totals below 2^63 no address wraps around and the changes add up to outputs less inputs |
| Balances.CreatedByTransaction | pkg/server/transactions.go:179-196 | the outputs of an included transaction to an address are, in amount, the ledger's outputs of that message and address |
| Balances.TakenByTransaction | pkg/server/transactions.go:156-177 | its inputs from an address are the ledger's outputs it spent there |
| Balances.CreatedByMigration | pkg/server/transactions.go:119-140 | the funds of a receipt are the ledger's outputs of that milestone message |
| Balances.AppliedChange | pkg/server/transactions.go:156-207 | the balance change of an included or migrated message is, wrapped to 64 bits, what it added to the ledger at the address less what it took, and exactly that when its two sums are below 2^63 |
| Balances.BalancesTelescope | pkg/server/transactions.go:211-294 | with the past of an address stored, and any table that was rebuilt up to some row, the changes of its included and migrated items add up modulo 2^64 to its outputs in the unspent index, and exactly when no message's sums reach 2^63 |
| Transfers.StoryConsistent | pkg/utxo/database_prefixes.go:14-98 | the guarantees of the writer hold of a concrete ledger with a spent and an unspent output |
| Transfers.StoryBalances | pkg/server/transactions.go:211-294 | on that ledger the histories add up to nothing for the first owner and to everything for the second |
| Reordering.StoryHistory | pkg/server/transactions.go:261-288 | and the history of the first owner is exactly its two items, the newer one first |

## Left out

- HTTP routing, parameters, content negotiation and address texts in bech32; the address, the page size and the filters of a request are inputs, and an address's text is the hex form the program compares.
- The CSV text itself, its time stamps and its flag for a reached limit; only the sort of the shared array is modelled.
- Other response members with a constant value (the address type), and the JSON text of an output, which is the output itself here.
- The database engines, realms, health and network checks, and the read-only and read-write reopening in `New`; the step machine keeps what they do to the table.
- Storage errors other than a missing key, and a write that fails while the process goes on.
- The clock of the scan: whether the context is found done before a row is an arbitrary function of the row.
- Logging, metrics and the counters that serve only them.
- The 2Q replacement policy of the cache: any entries may be evicted at any time.
- Concurrency of requests: each is one atomic step.
- iota.go and hive.go: signatures, hashing, message parsing, address deserialization and the cursor are stated, not verified.
- Balances, dust, receipts, milestone lookup, snapshot information and `LatestSyncState`: further prefix scans and codecs of the same kind.
- `MessageIDs.ToHex`: element by element the conversion that is modelled.
- The order in which fields of a loaded record are assigned: records are values, so a record left half filled by an error is not captured.
