/** Consistent nodes that are served a wrong history or none: after a cancelled rebuild, and without a first output. */
module Example {
  import opened ByteStrings
  import opened KVStores
  import opened Marshalling
  import opened Records
  import opened Ledgers
  import opened UtxoManager
  import opened MessageMetadata
  import opened Tangle
  import opened ConflictTable
  import opened Rebuild
  import opened Queries
  import opened HistoryItems
  import opened History
  import opened Consistency
  import opened Completeness
  import opened Cancellation
  import opened Encoding
  import opened OutputsApi

  const EMPTY_LEDGER := Ledger(map[], map[], map[], map[], 1)

  lemma OneConflictRepresented(id: MessageID, owner: Address)
    ensures Represents(OneConflict(id, owner).utxo, EMPTY_LEDGER)
  {
    var L, store := EMPTY_LEDGER, OneConflict(id, owner).utxo;
    forall k | k in store ensures k[0] == PREFIX_LEDGER_INDEX && |k| == 1 {
    }
    hide LE;
    assert KeysUnder(store, [PREFIX_UNSPENT]) == {} && KeysUnder(store, [PREFIX_SPENT]) == {} && KeysUnder(store, [PREFIX_TREASURY]) == {};
    assert forall o: OutputID :: |OutputKey(o)| == 35;
    assert forall i: uint32 :: |DiffKey(i)| == 5;
  }

  lemma OneConflictMetadata(id: MessageID, owner: Address)
    ensures MetadataOf(OneConflict(id, owner), id) == Ok(ConflictingMetadata(id))
  {
    MetadataRoundTrip(ConflictingMetadata(id));
    hide EncodeMetadata, DecodeMetadata;
  }

  lemma OneConflictMessage(id: MessageID, owner: Address)
    ensures var node := OneConflict(id, owner);
            && ConflictingTx(node, id) && !IncludedTx(node, id) && !Migration(node, id)
            && MessageOk(node, id)
            && GivesTo(node, id, owner)
  {
    var node := OneConflict(id, owner);
    OneConflictMetadata(id, owner);
    hide MetadataOf, EncodeMetadata, LE;
    assert OutputAddress(Outputs(node.messages[id])[0]) == Some(owner);
  }

  /** The node with a single conflicting transaction keeps all the guarantees of its writer. */
  lemma OneConflictConsistent(id: MessageID, owner: Address)
    ensures Consistent(OneConflict(id, owner), EMPTY_LEDGER)
    ensures InFullScan(OneConflict(id, owner), EMPTY_LEDGER, id, owner)
    ensures FirstOutputsKnown(EMPTY_LEDGER, owner)
  {
    OneConflictRepresented(id, owner);
    OneConflictMessage(id, owner);
    hide EncodeMetadata, Represents, MessageOk, ConflictingTx, IncludedTx, Migration, GivesTo, LE;
  }

  /**
   After its rebuild was cancelled, the node serves a history of the owner that lacks the
   conflicting transaction a full scan finds, and reports no error.
   */
  lemma CancelledHistoryIncomplete(id: MessageID, owner: Address)
    ensures var node := OneConflict(id, owner);
            && ValidNode(node)
            && InFullScan(node, EMPTY_LEDGER, id, owner)
            && var table := Current(CancelledRun(node)[7]);
               Buildable(node, table, owner) && FreshHistory(node, table, owner) == []
  {
    hide *;
    var node := OneConflict(id, owner);
    OneConflictIsLost(id, owner);
    OneConflictConsistent(id, owner);
    ServedAtTheEnd(node);
    OneConflictRepresented(id, owner);
    EmptyHistory(node, Current(CancelledRun(node)[7]), owner);
  }

  lemma ServedAtTheEnd(node: Node)
    requires ValidNode(node)
    ensures |CancelledRun(node)| == 8 && CancelledRun(node)[7].tables != []
    ensures Current(CancelledRun(node)[7]).Keys == {STATUS_KEY}
  {
    hide LE, LedgerIndex, ValidNode;
  }

  lemma EmptyHistory(node: Node, table: Table, a: Address)
    requires Represents(node.utxo, EMPTY_LEDGER) && table.Keys == {STATUS_KEY}
    ensures Buildable(node, table, a) && FreshHistory(node, table, a) == []
  {
    hide *;
    NoCandidates(node, table, a);
    FreshHistoryIsHistory(node, table, a);
    NoItems(node, a, FreshHistory(node, table, a));
  }

  lemma NoItems(node: Node, a: Address, s: seq<HistoryItem>)
    requires IsHistory(node, a, {}, s)
    ensures s == []
  {
    hide HistoryItemOf;
    SomeMember(s);
  }

  lemma SomeMember<T>(s: seq<T>)
    ensures s == [] || exists x :: x in s
  {
    if s != [] {
      assert s[0] in s;
    }
  }

  /** No address has the first byte of the status key. */
  lemma StatusIsUnderNoAddress(table: Table, a: Address)
    requires table.Keys == {STATUS_KEY}
    ensures Scan(table, AddressBytes(a)) == []
  {
    var keys := Scan(table, AddressBytes(a));
    assert !(AddressBytes(a) <= STATUS_KEY);
    SomeMember(keys);
  }

  lemma NoCandidates(node: Node, table: Table, a: Address)
    requires Represents(node.utxo, EMPTY_LEDGER) && table.Keys == {STATUS_KEY}
    ensures Buildable(node, table, a)
    ensures CandidateKeys(node.utxo, table, a) == {}
  {
    hide Represents, UnspentAt, SpentAt, Scan;
    var L := EMPTY_LEDGER;
    StatusIsUnderNoAddress(table, a);
    UnspentAtRepresented(node.utxo, L, a);
    SpentAtRepresented(node.utxo, L, a);
    ScannableRepresented(node.utxo, L, a);
    SomeMember(UnspentAt(node.utxo, a));
    SomeMember(SpentAt(node.utxo, a));
  }

  // ----- a missing first output -----

  /** One output, spent by a transaction that left no output, and no messages. */
  function PrunedLedger(o: Output, target: TransactionID): Ledger {
    Ledger(map[o.outputID := o], map[o.outputID := Spending(target, 1)], map[], map[], 1)
  }

  ghost function PrunedNode(o: Output, target: TransactionID): Node {
    PrunedLedgerValid(o, target);
    Node(StoreOf(PrunedLedger(o, target)), map[], map[], map[])
  }

  lemma PrunedLedgerValid(o: Output, target: TransactionID)
    ensures ValidLedger(PrunedLedger(o, target)) && PrunedLedger(o, target).index == 1
  {
  }

  lemma PrunedParts(o: Output, target: TransactionID)
    ensures ValidLedger(PrunedLedger(o, target))
    ensures var node := PrunedNode(o, target);
            node.utxo == StoreOf(PrunedLedger(o, target)) && node.messages == map[] && node.metadata == map[]
  {
    hide StoreOf;
  }

  lemma PrunedStored(o: Output, target: TransactionID)
    ensures var node, L := PrunedNode(o, target), PrunedLedger(o, target);
            Represents(node.utxo, L) && ValidNode(node) && LedgerIndexOf(node.utxo) == 1
  {
    hide *;
    PrunedLedgerValid(o, target);
    PrunedParts(o, target);
    EveryLedgerStored(PrunedLedger(o, target));
    LedgerIndexRepresented(PrunedNode(o, target).utxo, PrunedLedger(o, target));
    ValidNodeParts(PrunedNode(o, target));
  }

  lemma PrunedEntries(node: Node, o: Output, target: TransactionID)
    requires node.messages == map[] && OutputIDOf(target, 0) != o.outputID
    ensures var L := PrunedLedger(o, target);
            && (forall id | id in L.outputs :: OriginOk(node, L, id))
            && (forall id | id in L.spendings :: SpenderOk(node, L, id))
            && ValidLedger(L) && !FirstOutputsKnown(L, o.address)
  {
    hide OutputIDOf;
    assert o.outputID in PrunedLedger(o, target).spendings;
  }

  lemma PrunedConsistent(o: Output, target: TransactionID)
    requires OutputIDOf(target, 0) != o.outputID
    ensures Consistent(PrunedNode(o, target), PrunedLedger(o, target))
  {
    hide *;
    PrunedParts(o, target);
    PrunedStored(o, target);
    PrunedEntries(PrunedNode(o, target), o, target);
    ConsistentParts(PrunedNode(o, target), PrunedLedger(o, target));
  }

  lemma NoRowsExact(node: Node, index: uint32)
    requires ValidNode(node) && node.metadata == map[] && LedgerIndexOf(node.utxo) == index
    ensures Exact(node, map[STATUS_KEY := LE(index, 4)])
  {
    SomeMember(Rows(node));
    hide LE, LedgerIndexOf, HasLedgerIndex;
    assert Rows(node) == [];
    assert AllEntries(node) == {};
  }

  /**
   On that node, which keeps all guarantees of its writer, the history of the owner cannot be
   built: its scans all succeed and no message fails, but the missing message ID is among the
   candidates, and it is no message ID. Whatever the order of the candidates, building panics.
   */
  lemma MissingFirstOutputPanics(o: Output, target: TransactionID)
    requires OutputIDOf(target, 0) != o.outputID
    ensures var node, table := PrunedNode(o, target), map[STATUS_KEY := LE(1, 4)];
            && Consistent(node, PrunedLedger(o, target)) && Exact(node, table)
            && Scannable(node.utxo, o.address) && HoldsIDs(table, AddressBytes(o.address))
            && !Buildable(node, table, o.address)
            && [] in CandidateKeys(node.utxo, table, o.address)
            && (forall key: Bytes :: key in CandidateKeys(node.utxo, table, o.address) && |key| == 32 ==>
                  !HistoryItemOf(node, o.address, key).Failed?)
            && !CanFail(node, table, o.address) && CanPanic(node, table, o.address)
            && forall r :: Builds(node, o.address, CandidateKeys(node.utxo, table, o.address), r) ==> r.BuildPanicked?
  {
    hide *;
    var node, L, table := PrunedNode(o, target), PrunedLedger(o, target), map[STATUS_KEY := LE(1, 4)];
    PrunedConsistent(o, target);
    PrunedStored(o, target);
    PrunedParts(o, target);
    NoRowsExact(node, 1);
    PrunedEntries(node, o, target);
    ExactIsRebuilt(node, table);
    HistoryBuildableIff(node, L, table, |Rows(node)|, o.address);
    CandidatesExact(node, L, table, o.address, []);
    PrunedSpender(o, target);
  }

  lemma PrunedSpender(o: Output, target: TransactionID)
    requires OutputIDOf(target, 0) != o.outputID && ValidLedger(PrunedLedger(o, target))
    ensures SpentFrom(PrunedLedger(o, target), [], o.address)
  {
    hide ValidLedger, OutputIDOf;
    var L := PrunedLedger(o, target);
    assert o.outputID in L.spendings && MapKey(MessageOfFirst(L, L.spendings[o.outputID].targetTransactionID)) == [];
  }
}
