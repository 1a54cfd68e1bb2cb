/**
 What the node that writes the databases guarantees about messages and the ledger, and the
 definition of a history by a full scan of the messages.
 */
module Consistency {
  import opened ByteStrings
  import opened KVStores
  import opened Marshalling
  import opened Records
  import opened Ledgers
  import opened MessageMetadata
  import opened Tangle
  import opened HistoryItems
  import opened History

  // ----- kinds of messages -----

  ghost predicate HasMetadata(node: Node, id: MessageID) {
    id in node.messages && MetadataOf(node, id).Ok?
  }

  ghost function Meta(node: Node, id: MessageID): Metadata
    requires HasMetadata(node, id)
  {
    MetadataOf(node, id).value
  }

  ghost predicate IncludedTx(node: Node, id: MessageID) {
    HasMetadata(node, id) && Meta(node, id).IsIncludedTxInLedger() && node.messages[id].Transaction?
  }

  ghost predicate ConflictingTx(node: Node, id: MessageID) {
    HasMetadata(node, id) && Meta(node, id).IsConflictingTx() && node.messages[id].Transaction?
  }

  /** A confirmed milestone whose receipt moved funds from the legacy network. */
  ghost predicate Migration(node: Node, id: MessageID) {
    && HasMetadata(node, id) && Meta(node, id).IsReferenced() && Meta(node, id).IsMilestone()
    && node.messages[id].Milestone?
    && node.messages[id].receipt.Some?
    && node.messages[id].receipt.value.treasuryInput.Some?
  }

  function Funds(p: Payload): seq<Fund> {
    if p.Milestone? && p.receipt.Some? then p.receipt.value.funds else []
  }

  function Inputs(p: Payload): seq<TxInput> {
    if EssenceOf(p).Some? then EssenceOf(p).value.inputs else []
  }

  function Outputs(p: Payload): seq<TxOutput> {
    if EssenceOf(p).Some? then EssenceOf(p).value.outputs else []
  }

  // ----- what the writer guarantees -----

  /** The transaction can be read: it has an ID, an essence, and only known kinds of inputs and outputs. */
  ghost predicate ReadableTx(p: Payload) {
    && p.Transaction? && p.txID.Some? && p.essence.Some?
    && (forall i | 0 <= i < |Inputs(p)| :: Inputs(p)[i].UTXOInput?)
    && (forall i | 0 <= i < |Outputs(p)| :: !Outputs(p)[i].UnsupportedOutput?)
  }

  /** Stored metadata is decodable and agrees with itself and with the payload. */
  ghost predicate MessageOk(node: Node, id: MessageID) {
    && HasMetadata(node, id)
    && (IncludedTx(node, id) || ConflictingTx(node, id) || Migration(node, id) ==> ReferencedBy(Meta(node, id)) in node.milestones)
    && (Meta(node, id).conflict != CONFLICT_NONE <==> Meta(node, id).IsConflictingTx())
    && (Meta(node, id).IsConflictingTx() || Meta(node, id).IsIncludedTxInLedger() ==> ReadableTx(node.messages[id]))
  }

  ghost predicate Creates(o: Output, id: MessageID, address: Address, amount: uint64) {
    o.messageID == id && o.address == address && o.amount == amount
  }

  /** An included transaction put all its outputs into the ledger, and spent what it took. */
  ghost predicate IncludedOk(node: Node, L: Ledger, id: MessageID)
    requires IncludedTx(node, id) && ReadableTx(node.messages[id])
  {
    var p := node.messages[id];
    && 0 < |Outputs(p)| <= 0x1_0000
    && (forall i | 0 <= i < |Outputs(p)| ::
          && OutputIDOf(p.txID.value, i) in L.outputs
          && Creates(L.outputs[OutputIDOf(p.txID.value, i)], id, Outputs(p)[i].address, Outputs(p)[i].amount))
    && (forall i | 0 <= i < |Inputs(p)| && Inputs(p)[i].outputID in L.outputs ::
          && Inputs(p)[i].outputID in L.spendings
          && L.spendings[Inputs(p)[i].outputID].targetTransactionID == p.txID.value)
    && (forall i, j | 0 <= i < j < |Inputs(p)| :: Inputs(p)[i] != Inputs(p)[j])
  }

  ghost predicate MigrationOk(node: Node, L: Ledger, id: MessageID)
    requires Migration(node, id)
  {
    var p := node.messages[id];
    && |Funds(p)| <= 0x1_0000
    && (forall i | 0 <= i < |Funds(p)| ::
          && OutputIDOf(p.milestoneID, i) in L.outputs
          && Creates(L.outputs[OutputIDOf(p.milestoneID, i)], id, Funds(p)[i].address, Funds(p)[i].deposit))
  }

  /** Output `id` of the ledger is one that its message created, when the message is stored. */
  ghost predicate OriginOk(node: Node, L: Ledger, id: OutputID)
    requires id in L.outputs
  {
    var m := L.outputs[id].messageID;
    m in node.messages ==>
      || (IncludedTx(node, m) && node.messages[m].txID.Some?
          && exists i :: 0 <= i < |Outputs(node.messages[m])| && id == OutputIDOf(node.messages[m].txID.value, i))
      || (Migration(node, m)
          && exists i :: 0 <= i < |Funds(node.messages[m])| && id == OutputIDOf(node.messages[m].milestoneID, i))
  }

  /** The message found through the first output of a spending transaction is that transaction. */
  ghost predicate SpenderOk(node: Node, L: Ledger, id: OutputID)
    requires id in L.spendings
  {
    var target := L.spendings[id].targetTransactionID;
    OutputIDOf(target, 0) in L.outputs ==>
      var m := L.outputs[OutputIDOf(target, 0)].messageID;
      m in node.messages ==>
        IncludedTx(node, m) && node.messages[m].txID == Some(target) && UTXOInput(id) in Inputs(node.messages[m])
  }

  /** The guarantees of the node that wrote the databases. */
  ghost predicate Consistent(node: Node, L: Ledger) {
    && ValidNode(node)
    && Represents(node.utxo, L)
    && (forall id :: id in node.messages ==> MessageOk(node, id))
    && (forall id | id in node.messages && IncludedTx(node, id) :: ReadableTx(node.messages[id]) && IncludedOk(node, L, id))
    && (forall id | id in node.messages && Migration(node, id) :: MigrationOk(node, L, id))
    && (forall id :: id in L.outputs ==> OriginOk(node, L, id))
    && (forall id :: id in L.spendings ==> SpenderOk(node, L, id))
  }

  lemma ConsistentParts(node: Node, L: Ledger)
    requires ValidNode(node) && Represents(node.utxo, L)
    requires forall id | id in node.messages :: MessageOk(node, id) && !Migration(node, id)
    requires forall id | id in node.messages :: IncludedTx(node, id) && ReadableTx(node.messages[id]) && IncludedOk(node, L, id)
    requires forall id | id in L.outputs :: OriginOk(node, L, id)
    requires forall id | id in L.spendings :: SpenderOk(node, L, id)
    ensures Consistent(node, L)
  {
    hide ValidNode, Represents, MessageOk, Migration, IncludedTx, ReadableTx, IncludedOk, OriginOk, SpenderOk;
  }

  // ----- the history by a full scan of the messages -----

  ghost predicate TakesFrom(node: Node, L: Ledger, id: MessageID, address: Address)
    requires id in node.messages
  {
    exists i :: 0 <= i < |Inputs(node.messages[id])| && Inputs(node.messages[id])[i].UTXOInput?
                && Inputs(node.messages[id])[i].outputID in L.outputs
                && L.outputs[Inputs(node.messages[id])[i].outputID].address == address
  }

  ghost predicate GivesTo(node: Node, id: MessageID, address: Address)
    requires id in node.messages
  {
    exists i :: 0 <= i < |Outputs(node.messages[id])| && OutputAddress(Outputs(node.messages[id])[i]) == Some(address)
  }

  ghost predicate MigratesTo(node: Node, id: MessageID, address: Address)
    requires id in node.messages
  {
    exists i :: 0 <= i < |Funds(node.messages[id])| && Funds(node.messages[id])[i].address == address
  }

  ghost predicate AllInputsKnown(node: Node, L: Ledger, id: MessageID)
    requires id in node.messages
  {
    forall i | 0 <= i < |Inputs(node.messages[id])| ::
      Inputs(node.messages[id])[i].UTXOInput? && Inputs(node.messages[id])[i].outputID in L.outputs
  }

  /** A stored message touching the address that was included, migrated funds or conflicted. */
  ghost predicate Affects(node: Node, L: Ledger, id: MessageID, address: Address) {
    && id in node.messages
    && (|| (IncludedTx(node, id) && (TakesFrom(node, L, id, address) || GivesTo(node, id, address)))
        || (ConflictingTx(node, id) && (TakesFrom(node, L, id, address) || GivesTo(node, id, address)))
        || (Migration(node, id) && MigratesTo(node, id, address)))
  }

  /** The messages of the history of an address, found without any index. */
  ghost predicate InFullScan(node: Node, L: Ledger, id: MessageID, address: Address) {
    Affects(node, L, id, address) && AllInputsKnown(node, L, id)
  }

  /** Every transaction that spent an output of the address still has its first output stored. */
  ghost predicate FirstOutputsKnown(L: Ledger, address: Address)
    requires ValidLedger(L)
  {
    forall id | id in L.spendings && L.outputs[id].address == address ::
      OutputIDOf(L.spendings[id].targetTransactionID, 0) in L.outputs
  }
}
