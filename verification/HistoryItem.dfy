/** One item of a transaction history: what a message changed for an address. */
module HistoryItems {
  import opened ByteStrings
  import opened KVStores
  import opened Marshalling
  import opened Ledgers
  import opened MessageMetadata
  import opened Tangle
  import opened Hexadecimal

  datatype InclusionState = NoTransaction | Included | Conflicting | Migrated

  datatype HistoryItem = HistoryItem(
    messageID: Bytes,
    transactionID: Bytes,
    referencedByMilestoneIndex: uint32,
    milestoneTimestampReferenced: int64,
    ledgerInclusionState: InclusionState,
    conflictReason: Option<byte>,
    inputsCount: nat,
    outputsCount: nat,
    addressBalanceChange: int64)

  /** A message is skipped when the node does not have all of its history. */
  datatype ItemOutcome = Item(item: HistoryItem) | Skipped | Failed | Panicked

  // ----- 64-bit signed arithmetic -----

  const TWO_TO_THE_63 := 0x8000_0000_0000_0000
  const TWO_TO_THE_64 := 0x1_0000_0000_0000_0000

  /** Two's complement wrap-around: the conversion from uint64 and every sum. */
  function Wrap64(x: int): int64 {
    (x + TWO_TO_THE_63) % TWO_TO_THE_64 - TWO_TO_THE_63
  }

  /** Every 64-bit value is its own wrap, and values 2^64 apart wrap to the same one. */
  lemma WrapIsTwosComplement(x: int)
    ensures -0x8000_0000_0000_0000 <= x < 0x8000_0000_0000_0000 ==> Wrap64(x) == x
    ensures Wrap64(x + 0x1_0000_0000_0000_0000) == Wrap64(x)
  {
  }

  lemma WrapPeriodic(x: int, k: int)
    ensures Wrap64(x + k * TWO_TO_THE_64) == Wrap64(x)
  {
  }

  lemma WrapsTo(x: int) returns (k: int)
    ensures Wrap64(x) == x + k * TWO_TO_THE_64
  {
    k := -((x + TWO_TO_THE_63) / TWO_TO_THE_64);
  }

  lemma WrapSum(x: int, y: int)
    ensures Wrap64(Wrap64(x) + Wrap64(y)) == Wrap64(x + y)
    ensures Wrap64(Wrap64(x) - Wrap64(y)) == Wrap64(x - y)
  {
    var k := WrapsTo(x);
    var m := WrapsTo(y);
    WrapPeriodic(x + y, k + m);
    WrapPeriodic(x - y, k - m);
  }

  /** No wrap-around exactly when the value fits. */
  lemma WrapExact(x: int)
    ensures Wrap64(x) == x <==> -TWO_TO_THE_63 <= x < TWO_TO_THE_63
  {
  }

  // ----- balances -----

  /** The sum over a list of inputs, unless one of them ends the item first. */
  datatype Tally = Total(amount: nat) | MissingInput | Unsupported

  function TallyInputs(store: Store, inputs: seq<TxInput>, address: Address): Tally {
    if inputs == [] then
      Total(0)
    else
      var front := TallyInputs(store, inputs[..|inputs| - 1], address);
      if !front.Total? then front
      else
        match inputs[|inputs| - 1]
        case UnsupportedInput => Unsupported
        case UTXOInput(id) =>
          match ReadOutput(store, id)
          case Err(_) => MissingInput
          case Ok(o) => if o.address == address then Total(front.amount + o.amount) else front
  }

  function TallyOutputs(outputs: seq<TxOutput>, address: Address): Tally {
    if outputs == [] then
      Total(0)
    else
      var front := TallyOutputs(outputs[..|outputs| - 1], address);
      var last := outputs[|outputs| - 1];
      if !front.Total? then front
      else if last.UnsupportedOutput? then Unsupported
      else if last.address == address then Total(front.amount + last.amount)
      else front
  }

  function TallyFunds(funds: seq<Fund>, address: Address): nat {
    if funds == [] then
      0
    else
      var last := funds[|funds| - 1];
      TallyFunds(funds[..|funds| - 1], address) + if last.address == address then last.deposit else 0
  }

  lemma {:induction false} InputTallyEnds(store: Store, inputs: seq<TxInput>, address: Address, i: nat)
    requires i <= |inputs| && !TallyInputs(store, inputs[..i], address).Total?
    ensures TallyInputs(store, inputs, address) == TallyInputs(store, inputs[..i], address)
    decreases |inputs|
  {
    if i == |inputs| {
      assert inputs[..i] == inputs;
    } else {
      assert inputs[..|inputs| - 1][..i] == inputs[..i];
      InputTallyEnds(store, inputs[..|inputs| - 1], address, i);
    }
  }

  lemma {:induction false} OutputTallyEnds(outputs: seq<TxOutput>, address: Address, i: nat)
    requires i <= |outputs| && !TallyOutputs(outputs[..i], address).Total?
    ensures TallyOutputs(outputs, address) == TallyOutputs(outputs[..i], address)
    decreases |outputs|
  {
    if i == |outputs| {
      assert outputs[..i] == outputs;
    } else {
      assert outputs[..|outputs| - 1][..i] == outputs[..i];
      OutputTallyEnds(outputs[..|outputs| - 1], address, i);
    }
  }

  /** Addresses are compared by their texts. */
  predicate SameAddress(a: Address, b: Address)
    ensures SameAddress(a, b) <==> a == b
  {
    if ToHex(a) == ToHex(b) then
      ToHexInjective(a, b);
      true
    else
      false
  }

  method SumInputs(store: Store, inputs: seq<TxInput>, address: Address) returns (t: Tally, sum: int64)
    ensures t == TallyInputs(store, inputs, address)
    ensures t.Total? ==> sum == Wrap64(t.amount)
  {
    hide ReadOutput, Wrap64, SameAddress;
    sum := 0;
    var total: nat := 0;
    assert Wrap64(0) == 0 by { WrapExact(0); }
    for i := 0 to |inputs|
      invariant TallyInputs(store, inputs[..i], address) == Total(total)
      invariant sum == Wrap64(total)
    {
      assert inputs[..i + 1][..i] == inputs[..i];
      if inputs[i].UnsupportedInput? {
        InputTallyEnds(store, inputs, address, i + 1);
        return Unsupported, sum;
      }
      var output := ReadOutput(store, inputs[i].outputID);
      if output.Err? {
        InputTallyEnds(store, inputs, address, i + 1);
        return MissingInput, sum;
      }
      if !SameAddress(output.value.address, address) {
        continue;
      }
      WrapSum(total, output.value.amount);
      sum := Wrap64(sum as int + Wrap64(output.value.amount) as int);
      total := total + output.value.amount;
    }
    assert inputs[..|inputs|] == inputs;
    t := Total(total);
  }

  method SumOutputs(outputs: seq<TxOutput>, address: Address) returns (t: Tally, sum: int64)
    ensures t == TallyOutputs(outputs, address)
    ensures t.Total? ==> sum == Wrap64(t.amount)
  {
    hide Wrap64, SameAddress;
    sum := 0;
    var total: nat := 0;
    assert Wrap64(0) == 0 by { WrapExact(0); }
    for i := 0 to |outputs|
      invariant TallyOutputs(outputs[..i], address) == Total(total)
      invariant sum == Wrap64(total)
    {
      assert outputs[..i + 1][..i] == outputs[..i];
      if outputs[i].UnsupportedOutput? {
        OutputTallyEnds(outputs, address, i + 1);
        return Unsupported, sum;
      }
      if !SameAddress(outputs[i].address, address) {
        continue;
      }
      WrapSum(total, outputs[i].amount);
      sum := Wrap64(sum as int + Wrap64(outputs[i].amount) as int);
      total := total + outputs[i].amount;
    }
    assert outputs[..|outputs|] == outputs;
    t := Total(total);
  }

  method SumFunds(funds: seq<Fund>, address: Address) returns (sum: int64)
    ensures sum == Wrap64(TallyFunds(funds, address))
  {
    hide Wrap64, SameAddress;
    sum := 0;
    assert Wrap64(0) == 0 by { WrapExact(0); }
    for i := 0 to |funds|
      invariant sum == Wrap64(TallyFunds(funds[..i], address))
    {
      assert funds[..i + 1][..i] == funds[..i];
      if !SameAddress(funds[i].address, address) {
        continue;
      }
      WrapSum(TallyFunds(funds[..i], address), funds[i].deposit);
      sum := Wrap64(sum as int + Wrap64(funds[i].deposit) as int);
    }
    assert funds[..|funds|] == funds;
  }

  // ----- items -----

  function StateOf(m: Metadata): InclusionState {
    if m.conflict != CONFLICT_NONE then Conflicting
    else if m.IsIncludedTxInLedger() then Included
    else NoTransaction
  }

  function ReferencedBy(m: Metadata): uint32 {
    if m.IsReferenced() then m.referencedIndex else 0
  }

  function ConflictReason(m: Metadata): Option<byte> {
    if m.conflict != CONFLICT_NONE then Some(m.conflict) else None
  }

  function MigrationItem(node: Node, address: Address, m: Metadata, timestamp: int64, p: Payload): ItemOutcome {
    if !p.Milestone? || p.receipt.None? || p.receipt.value.treasuryInput.None? then
      Failed
    else
      var receipt := p.receipt.value;
      Item(HistoryItem(ToHex(m.messageID), ToHex(receipt.treasuryInput.value), ReferencedBy(m), timestamp, Migrated,
                       ConflictReason(m), 1, |receipt.funds|, Wrap64(TallyFunds(receipt.funds, address))))
  }

  function TransactionItem(node: Node, address: Address, m: Metadata, timestamp: int64, txID: TransactionID, e: Essence): ItemOutcome {
    match TallyInputs(node.utxo, e.inputs, address)
    case Unsupported => Failed
    case MissingInput => Skipped
    case Total(ins) =>
      match TallyOutputs(e.outputs, address)
      case Total(outs) =>
        Item(HistoryItem(ToHex(m.messageID), ToHex(txID), ReferencedBy(m), timestamp, StateOf(m),
                         ConflictReason(m), |e.inputs|, |e.outputs|, Wrap64(outs - ins)))
      case _ => Failed
  }

  function HistoryItemOf(node: Node, address: Address, id: MessageID): ItemOutcome {
    if id !in node.messages then Skipped
    else if id !in node.metadata then Failed
    else
      match DecodeMetadata(id, node.metadata[id])
      case Err(_) => Panicked
      case Ok(m) =>
        if ReferencedBy(m) !in node.milestones then Failed
        else
          var timestamp := node.milestones[ReferencedBy(m)];
          match node.messages[id]
          case Transaction(txID, essence) =>
            if txID.None? || essence.None? then Failed
            else TransactionItem(node, address, m, timestamp, txID.value, essence.value)
          case p => MigrationItem(node, address, m, timestamp, p)
  }

  /** State, milestone and conflict reason of a transaction's item, in numbers, whatever the node holds. */
  lemma TransactionItemState(node: Node, address: Address, m: Metadata, timestamp: int64, txID: TransactionID, e: Essence)
    requires TransactionItem(node, address, m, timestamp, txID, e).Item?
    ensures var x, flags := TransactionItem(node, address, m, timestamp, txID, e).item, m.flags as int;
            && x.ledgerInclusionState == (if m.conflict != 0 then Conflicting
                                          else if flags / 2 % 2 == 1 && flags / 4 % 2 == 0 && flags / 8 % 2 == 0 then Included
                                          else NoTransaction)
            && x.referencedByMilestoneIndex == (if flags / 2 % 2 == 1 then m.referencedIndex else 0)
            && x.conflictReason == (if m.conflict != 0 then Some(m.conflict) else None)
  {
    FlagBits(m);
    hide TallyInputs, TallyOutputs, Wrap64, ToHex;
  }

  /** The milestone a stored message is dated by, read off its metadata. */
  function DatedBy(data: Bytes): uint32
    requires Decodable(data)
  {
    if data[0] as int / 2 % 2 == 1 then DecodeUint32(data[5..9]) else 0
  }

  lemma DatedByIs(id: MessageID, data: Bytes)
    requires Decodable(data)
    ensures DecodeMetadata(id, data).Ok? && ReferencedBy(DecodeMetadata(id, data).value) == DatedBy(data)
  {
    FlagBits(DecodeMetadata(id, data).value);
    hide DecodeUint32, HashesAt, ToInt32;
  }

  /** Which messages are skipped, fail or panic before their inputs and outputs are looked at. */
  lemma ItemOutcomes(node: Node, address: Address, id: MessageID)
    ensures id !in node.messages ==> HistoryItemOf(node, address, id).Skipped?
    ensures id in node.messages && id !in node.metadata ==> HistoryItemOf(node, address, id).Failed?
    ensures HistoryItemOf(node, address, id).Panicked? <==> id in node.messages && id in node.metadata && !Decodable(node.metadata[id])
    ensures id in node.messages && id in node.metadata && Decodable(node.metadata[id]) ==>
              var p, r := node.messages[id], HistoryItemOf(node, address, id);
              && (DatedBy(node.metadata[id]) !in node.milestones ==> r.Failed?)
              && (p.Transaction? && (p.txID.None? || p.essence.None?) ==> r.Failed?)
              && (!p.Transaction? && DatedBy(node.metadata[id]) in node.milestones ==>
                    if p.Milestone? && p.receipt.Some? && p.receipt.value.treasuryInput.Some? then r.Item? else r.Failed?)
  {
    if id in node.metadata && Decodable(node.metadata[id]) {
      DatedByIs(id, node.metadata[id]);
    }
    hide TallyInputs, TallyOutputs, TallyFunds, Wrap64, ToHex, ReferencedBy, DatedBy, HashesAt, DecodeUint32, ToInt32;
  }

  /** All inputs before the `i`-th are of the known kind and their outputs can be read. */
  ghost predicate ReadableTo(store: Store, inputs: seq<TxInput>, i: nat)
    requires i <= |inputs|
  {
    forall j | 0 <= j < i :: inputs[j].UTXOInput? && ReadOutput(store, inputs[j].outputID).Ok?
  }

  lemma {:induction false} ReadableInputsTotal(store: Store, inputs: seq<TxInput>, address: Address)
    ensures TallyInputs(store, inputs, address).Total? <==> ReadableTo(store, inputs, |inputs|)
  {
    hide ReadOutput;
    if inputs != [] {
      var front := inputs[..|inputs| - 1];
      ReadableInputsTotal(store, front, address);
      assert forall i | 0 <= i < |front| :: front[i] == inputs[i];
    }
  }

  lemma StopsAt(store: Store, inputs: seq<TxInput>, address: Address, i: nat)
    requires i < |inputs| && ReadableTo(store, inputs, i)
    requires inputs[i].UnsupportedInput? || ReadOutput(store, inputs[i].outputID).Err?
    ensures TallyInputs(store, inputs, address) == if inputs[i].UnsupportedInput? then Unsupported else MissingInput
  {
    hide ReadOutput;
    ReadableInputsTotal(store, inputs[..i], address);
    assert inputs[..i + 1][..i] == inputs[..i];
    InputTallyEnds(store, inputs, address, i + 1);
  }

  lemma FirstStop(store: Store, inputs: seq<TxInput>) returns (i: nat)
    requires !ReadableTo(store, inputs, |inputs|)
    ensures i < |inputs| && ReadableTo(store, inputs, i)
    ensures inputs[i].UnsupportedInput? || ReadOutput(store, inputs[i].outputID).Err?
  {
    hide ReadOutput;
    i := 0;
    while inputs[i].UTXOInput? && ReadOutput(store, inputs[i].outputID).Ok?
      invariant i < |inputs| && ReadableTo(store, inputs, i)
      decreases |inputs| - i
    {
      i := i + 1;
    }
  }

  /** The first input that is not readable decides what a list of inputs comes to. */
  lemma InputTallyIs(store: Store, inputs: seq<TxInput>, address: Address)
    ensures TallyInputs(store, inputs, address).Total? <==> ReadableTo(store, inputs, |inputs|)
    ensures TallyInputs(store, inputs, address).Unsupported? <==>
            exists i :: 0 <= i < |inputs| && inputs[i].UnsupportedInput? && ReadableTo(store, inputs, i)
    ensures TallyInputs(store, inputs, address).MissingInput? <==>
            exists i :: 0 <= i < |inputs| && inputs[i].UTXOInput? && ReadOutput(store, inputs[i].outputID).Err? && ReadableTo(store, inputs, i)
  {
    ReadableInputsTotal(store, inputs, address);
    hide ReadOutput, ReadableTo, TallyInputs;
    forall i | 0 <= i < |inputs| && ReadableTo(store, inputs, i) && (inputs[i].UnsupportedInput? || ReadOutput(store, inputs[i].outputID).Err?)
      ensures TallyInputs(store, inputs, address) == if inputs[i].UnsupportedInput? then Unsupported else MissingInput
    {
      StopsAt(store, inputs, address, i);
    }
    if !ReadableTo(store, inputs, |inputs|) {
      var i := FirstStop(store, inputs);
    }
  }

  lemma {:induction false} OutputTallyIs(outputs: seq<TxOutput>, address: Address)
    ensures !TallyOutputs(outputs, address).MissingInput?
    ensures TallyOutputs(outputs, address).Unsupported? <==> exists i :: 0 <= i < |outputs| && outputs[i].UnsupportedOutput?
  {
    if outputs != [] {
      OutputTallyIs(outputs[..|outputs| - 1], address);
      assert forall i | 0 <= i < |outputs| - 1 :: outputs[..|outputs| - 1][i] == outputs[i];
    }
  }

  /** A transaction is skipped for a first input that cannot be read, and fails for one, or an output, of another kind. */
  lemma TransactionOutcomes(node: Node, address: Address, m: Metadata, timestamp: int64, txID: TransactionID, e: Essence)
    ensures var r := TransactionItem(node, address, m, timestamp, txID, e);
            && !r.Panicked?
            && (r.Skipped? <==> exists i :: 0 <= i < |e.inputs| && e.inputs[i].UTXOInput?
                                            && ReadOutput(node.utxo, e.inputs[i].outputID).Err? && ReadableTo(node.utxo, e.inputs, i))
            && (r.Item? <==> ReadableTo(node.utxo, e.inputs, |e.inputs|) && forall i | 0 <= i < |e.outputs| :: !e.outputs[i].UnsupportedOutput?)
  {
    InputTallyIs(node.utxo, e.inputs, address);
    OutputTallyIs(e.outputs, address);
    hide TallyInputs, TallyOutputs, ReadOutput, ReadableTo, Wrap64, ToHex;
  }

  method BuildMigrationItem(node: Node, address: Address, m: Metadata, timestamp: int64, payload: Payload) returns (r: ItemOutcome)
    ensures r == MigrationItem(node, address, m, timestamp, payload)
  {
    hide TallyFunds, Wrap64, ToHex, ReferencedBy, ConflictReason;
    if !payload.Milestone? || payload.receipt.None? || payload.receipt.value.treasuryInput.None? {
      return Failed;
    }
    // funds that came from the legacy network
    var receipt := payload.receipt.value;
    var addressBalanceOutputs := SumFunds(receipt.funds, address);
    r := Item(HistoryItem(ToHex(m.messageID), ToHex(receipt.treasuryInput.value), ReferencedBy(m), timestamp, Migrated,
                          ConflictReason(m), 1, |receipt.funds|, addressBalanceOutputs));
  }

  method BuildTransactionItem(node: Node, address: Address, m: Metadata, timestamp: int64, txID: TransactionID, e: Essence)
    returns (r: ItemOutcome)
    ensures r == TransactionItem(node, address, m, timestamp, txID, e)
  {
    hide TallyInputs, TallyOutputs, Wrap64, ToHex, ReferencedBy, ConflictReason, StateOf;
    var ins, addressBalanceInputs := SumInputs(node.utxo, e.inputs, address);
    if !ins.Total? {
      return if ins == MissingInput then Skipped else Failed;
    }
    var outs, addressBalanceOutputs := SumOutputs(e.outputs, address);
    if !outs.Total? {
      return Failed;
    }
    WrapSum(outs.amount, ins.amount);
    var change: int := addressBalanceOutputs as int - addressBalanceInputs as int;
    r := Item(HistoryItem(ToHex(m.messageID), ToHex(txID), ReferencedBy(m), timestamp, StateOf(m), ConflictReason(m),
                          |e.inputs|, |e.outputs|, Wrap64(change)));
  }

  method GetTransactionHistoryItem(node: Node, address: Address, id: MessageID) returns (r: ItemOutcome)
    ensures r == HistoryItemOf(node, address, id)
  {
    hide MigrationItem, TransactionItem, DecodeMetadata, ReferencedBy;
    if id !in node.messages {
      return Skipped;
    }
    if id !in node.metadata {
      return Failed;
    }
    assert id[..32] == id;
    var meta := MetadataFactory(id, node.metadata[id]);
    if meta.Err? {
      return Panicked;
    }
    var m := meta.value;
    if ReferencedBy(m) !in node.milestones {
      return Failed;
    }
    var timestamp := node.milestones[ReferencedBy(m)];
    var payload := node.messages[id];
    if !payload.Transaction? {
      r := BuildMigrationItem(node, address, m, timestamp, payload);
      return;
    }
    if payload.txID.None? || payload.essence.None? {
      return Failed;
    }
    r := BuildTransactionItem(node, address, m, timestamp, payload.txID.value, payload.essence.value);
  }

  /** An item names its message, and no two messages share an item. */
  lemma ItemMessage(node: Node, address: Address, id: MessageID)
    requires HistoryItemOf(node, address, id).Item?
    ensures HistoryItemOf(node, address, id).item.messageID == ToHex(id)
  {
    hide DecodeMetadata, TallyInputs, TallyOutputs, TallyFunds, Wrap64, ToHex;
    DecodedMessage(id, node.metadata[id]);
  }

  lemma DecodedMessage(id: MessageID, data: Bytes)
    ensures DecodeMetadata(id, data).Ok? ==> DecodeMetadata(id, data).value.messageID == id
  {
  }
}
