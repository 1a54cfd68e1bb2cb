/** Messages as far as the ledger is concerned, and the two databases of a node. */
module Tangle {
  import opened ByteStrings
  import opened KVStores
  import opened Marshalling
  import opened Ledgers
  import opened UtxoManager
  import opened MessageMetadata

  datatype TxInput = UTXOInput(outputID: OutputID) | UnsupportedInput

  datatype TxOutput =
    | SigLockedSingle(address: Address, amount: uint64)
    | SigLockedDustAllowance(address: Address, amount: uint64)
    | UnsupportedOutput

  datatype Essence = Essence(inputs: seq<TxInput>, outputs: seq<TxOutput>)

  datatype Fund = Fund(address: Address, deposit: uint64)

  datatype Receipt = Receipt(treasuryInput: Option<Hash>, funds: seq<Fund>)

  /** The ID of a transaction is absent when it cannot be computed, the essence when it has another kind. */
  datatype Payload =
    | Transaction(txID: Option<TransactionID>, essence: Option<Essence>)
    | Milestone(milestoneID: Hash, receipt: Option<Receipt>)
    | OtherPayload

  type int64 = x: int | -0x8000_0000_0000_0000 <= x < 0x8000_0000_0000_0000

  datatype Node = Node(
    utxo: Store,
    messages: map<MessageID, Payload>,
    metadata: Store,
    milestones: map<uint32, int64>)

  /** Every metadata key is a message ID, and the ledger index is stored. */
  ghost predicate ValidNode(node: Node) {
    && HasLedgerIndex(node.utxo)
    && forall key :: key in node.metadata ==> |key| == 32
  }

  lemma ValidNodeParts(node: Node)
    requires HasLedgerIndex(node.utxo) && forall key :: key in node.metadata ==> |key| == 32
    ensures ValidNode(node)
  {
  }

  lemma IndexStored(node: Node)
    requires ValidNode(node)
    ensures HasLedgerIndex(node.utxo)
  {
  }

  function LedgerIndex(node: Node): uint32
    requires ValidNode(node)
  {
    LedgerIndexOf(node.utxo)
  }

  function EssenceOf(p: Payload): Option<Essence> {
    if p.Transaction? then p.essence else None
  }

  ghost function MetadataOf(node: Node, id: MessageID): Result<Metadata> {
    var data :- Get(node.metadata, id);
    DecodeMetadata(id, data)
  }

  /** The address an input takes from, when the output it refers to is known. */
  function InputAddress(store: Store, input: TxInput): Option<Address> {
    match input
    case UnsupportedInput => None
    case UTXOInput(id) =>
      match ReadOutput(store, id)
      case Err(_) => None
      case Ok(o) => Some(o.address)
  }

  function OutputAddress(output: TxOutput): Option<Address> {
    if output.UnsupportedOutput? then None else Some(output.address)
  }

  /** A transaction touches an address as the owner of an output or of a known input. */
  ghost predicate Touches(store: Store, e: Essence, address: Address) {
    || (exists i :: 0 <= i < |e.inputs| && InputAddress(store, e.inputs[i]) == Some(address))
    || (exists i :: 0 <= i < |e.outputs| && OutputAddress(e.outputs[i]) == Some(address))
  }

  /** Whether the message is a conflicting transaction that touches the address. */
  ghost predicate ConflictTouches(node: Node, id: MessageID, address: Address) {
    && MetadataOf(node, id).Ok?
    && MetadataOf(node, id).value.IsConflictingTx()
    && id in node.messages
    && EssenceOf(node.messages[id]).Some?
    && Touches(node.utxo, EssenceOf(node.messages[id]).value, address)
  }
}
