/** The history found through the indexes and the lookup table is the one a full scan finds. */
module Completeness {
  import opened ByteStrings
  import opened KVStores
  import opened Marshalling
  import opened Records
  import opened Ledgers
  import opened UtxoManager
  import opened IndexScans
  import opened MessageMetadata
  import opened Tangle
  import opened Hexadecimal
  import opened ConflictTable
  import opened Rebuild
  import opened Cancellation
  import opened Queries
  import opened HistoryItems
  import opened HistorySort
  import opened History
  import opened HistoryCache
  import opened CSVPages
  import opened HistoryRuns
  import opened Consistency

  // ----- the scans of a well-formed database -----

  lemma UnspentAtRepresented(store: Store, L: Ledger, a: Address)
    requires Represents(store, L)
    ensures AllOk(UnspentRows(store, AtAddress(a)))
    ensures forall i | 0 <= i < |UnspentAt(store, a)| ::
              var o := UnspentAt(store, a)[i]; o.outputID in UnspentIDs(L) && o == L.outputs[o.outputID] && o.address == a
    ensures forall id | id in UnspentIDs(L) && L.outputs[id].address == a ::
              exists i :: 0 <= i < |UnspentAt(store, a)| && UnspentAt(store, a)[i].outputID == id
  {
    hide UnspentRows, FilteredScan, RepresentsOutputs, RepresentsIndexes, RepresentsMilestones, Filter;
    UnspentScanRefinesFilter(store, L, AtAddress(a));
    AddressScanComplete(L, PREFIX_UNSPENT, UnspentIDs(L), a);
    var s := FilteredScan(L, PREFIX_UNSPENT, UnspentIDs(L), AtAddress(a));
    assert UnspentAt(store, a) == s;
    forall id | id in UnspentIDs(L) && L.outputs[id].address == a
      ensures exists i :: 0 <= i < |UnspentAt(store, a)| && UnspentAt(store, a)[i].outputID == id
    {
      var i :| 0 <= i < |s| && s[i].outputID == id;
      assert UnspentAt(store, a)[i] == s[i];
    }
  }

  lemma SpentAtRepresented(store: Store, L: Ledger, a: Address)
    requires Represents(store, L)
    ensures AllOk(SpentRows(store, AtAddress(a)))
    ensures forall i | 0 <= i < |SpentAt(store, a)| ::
              var s := SpentAt(store, a)[i];
              s.output.outputID in L.spendings && s.output == L.outputs[s.output.outputID] && s.output.address == a
              && s.spending == L.spendings[s.output.outputID]
    ensures forall id | id in L.spendings && L.outputs[id].address == a ::
              exists i :: 0 <= i < |SpentAt(store, a)| && SpentAt(store, a)[i].output.outputID == id
  {
    hide SpentRows, FilteredScan, RepresentsOutputs, RepresentsIndexes, RepresentsMilestones, Filter;
    SpentScanRefinesFilter(store, L, AtAddress(a));
    AddressScanComplete(L, PREFIX_SPENT, SpentIDs(L), a);
    var s := FilteredScan(L, PREFIX_SPENT, SpentIDs(L), AtAddress(a));
    forall id | id in L.spendings && L.outputs[id].address == a
      ensures exists i :: 0 <= i < |SpentAt(store, a)| && SpentAt(store, a)[i].output.outputID == id
    {
      var i :| 0 <= i < |s| && s[i].outputID == id;
      assert SpentAt(store, a)[i].output == s[i];
    }
  }

  lemma ScannableRepresented(store: Store, L: Ledger, a: Address)
    requires Represents(store, L)
    ensures Scannable(store, a)
  {
    hide UnspentRows, SpentRows, UnspentAt, SpentAt, MessageOfTransaction, RepresentsOutputs, RepresentsIndexes, RepresentsMilestones;
    UnspentAtRepresented(store, L, a);
    SpentAtRepresented(store, L, a);
    forall i | 0 <= i < |SpentAt(store, a)|
      ensures MessageOfTransaction(store, SpentAt(store, a)[i].spending.targetTransactionID).Ok?
    {
      MessageOfTransactionRepresented(store, L, SpentAt(store, a)[i].spending.targetTransactionID);
    }
  }

  // ----- the candidates, in terms of the ledger -----

  ghost predicate CreatedFor(L: Ledger, key: Bytes, a: Address) {
    exists id :: id in L.outputs && L.outputs[id].address == a && L.outputs[id].messageID == key
  }

  ghost predicate SpentFrom(L: Ledger, key: Bytes, a: Address)
    requires ValidLedger(L)
  {
    exists id :: id in L.spendings && L.outputs[id].address == a && MapKey(MessageOfFirst(L, L.spendings[id].targetTransactionID)) == key
  }

  ghost predicate ConflictKey(node: Node, key: Bytes, a: Address) {
    |key| == 32 && ConflictTouches(node, key, a)
  }

  lemma CreatorKeys(store: Store, L: Ledger, a: Address, key: Bytes)
    requires Represents(store, L)
    ensures Scannable(store, a)
    ensures key in CreatorsOf(UnspentAt(store, a)) + KeySet(CreatingKeys(SpentAt(store, a))) <==> CreatedFor(L, key, a)
  {
    hide UnspentRows, SpentRows, UnspentAt, SpentAt, MessageOfTransaction, RepresentsOutputs, RepresentsIndexes,
         RepresentsMilestones, Scannable;
    ScannableRepresented(store, L, a);
    UnspentAtRepresented(store, L, a);
    SpentAtRepresented(store, L, a);
    var us, ss := UnspentAt(store, a), SpentAt(store, a);
    if key in CreatorsOf(us) {
      var i :| 0 <= i < |us| && us[i].messageID == key;
      assert L.outputs[us[i].outputID].messageID == key;
    }
    if key in KeySet(CreatingKeys(ss)) {
      var i :| 0 <= i < |ss| && CreatingKeys(ss)[i] == key;
      assert L.outputs[ss[i].output.outputID].messageID == key;
    }
    if CreatedFor(L, key, a) {
      var id :| id in L.outputs && L.outputs[id].address == a && L.outputs[id].messageID == key;
      if id in L.spendings {
        var i :| 0 <= i < |ss| && ss[i].output.outputID == id;
        assert CreatingKeys(ss)[i] == key;
      } else {
        var i :| 0 <= i < |us| && us[i].outputID == id;
        assert us[i].messageID == key;
      }
    }
  }

  lemma SpenderKeys(store: Store, L: Ledger, a: Address, key: Bytes)
    requires Represents(store, L)
    ensures Scannable(store, a)
    ensures key in KeySet(SpendingKeys(store, SpentAt(store, a))) <==> SpentFrom(L, key, a)
  {
    hide UnspentRows, SpentRows, SpentAt, MessageOfTransaction, RepresentsOutputs, RepresentsIndexes, RepresentsMilestones, MessageOfFirst;
    ScannableRepresented(store, L, a);
    SpentAtRepresented(store, L, a);
    var ss := SpentAt(store, a);
    forall i | 0 <= i < |ss|
      ensures SpendingKeys(store, ss)[i] == MapKey(MessageOfFirst(L, L.spendings[ss[i].output.outputID].targetTransactionID))
    {
      MessageOfTransactionRepresented(store, L, ss[i].spending.targetTransactionID);
    }
    if key in KeySet(SpendingKeys(store, ss)) {
      var i :| 0 <= i < |ss| && SpendingKeys(store, ss)[i] == key;
      assert ss[i].output.outputID in L.spendings;
    }
    if SpentFrom(L, key, a) {
      var id :| id in L.spendings && L.outputs[id].address == a && MapKey(MessageOfFirst(L, L.spendings[id].targetTransactionID)) == key;
      var i :| 0 <= i < |ss| && ss[i].output.outputID == id;
      assert SpendingKeys(store, ss)[i] == key;
    }
  }

  lemma ConflictKeysListed(node: Node, table: Table, n: nat, a: Address, key: Bytes)
    requires ValidNode(node) && RebuiltUpTo(node, table, n)
    ensures HoldsIDs(table, AddressBytes(a))
    ensures key in ConflictKeys(table, a) <==> ConflictKey(node, key, a) && ScannedBefore(node, n, key)
  {
    hide RebuiltUpTo, ValidNode, IDsUnder, ConflictTouches, HoldsIDs, AddressBytes, ScannedBefore;
    ConflictQueryListed(node, table, n, a);
    var ids := IDsUnder(table, AddressBytes(a));
    if key in ConflictKeys(table, a) {
      var i :| 0 <= i < |ids| && ids[i] == key;
      assert ids[i] in ids;
    }
    if ConflictKey(node, key, a) && ScannedBefore(node, n, key) {
      var id: MessageID := key;
      assert id in ids;
      var i :| 0 <= i < |ids| && ids[i] == id;
    }
  }

  /** The candidates found through a table that was rebuilt up to a row. */
  lemma CandidatesListed(node: Node, L: Ledger, table: Table, n: nat, a: Address, key: Bytes)
    requires ValidNode(node) && Represents(node.utxo, L) && RebuiltUpTo(node, table, n)
    ensures Scannable(node.utxo, a) && HoldsIDs(table, AddressBytes(a))
    ensures key in CandidateKeys(node.utxo, table, a) <==>
            CreatedFor(L, key, a) || SpentFrom(L, key, a) || (ConflictKey(node, key, a) && ScannedBefore(node, n, key))
  {
    CreatorKeys(node.utxo, L, a, key);
    SpenderKeys(node.utxo, L, a, key);
    ConflictKeysListed(node, table, n, a, key);
    hide RebuiltUpTo, Represents, CreatedFor, SpentFrom, ConflictKey, ConflictKeys, KeySet, CreatorsOf, HoldsIDs, Scannable, ScannedBefore;
  }

  lemma CandidatesExact(node: Node, L: Ledger, table: Table, a: Address, key: Bytes)
    requires ValidNode(node) && Represents(node.utxo, L) && Exact(node, table)
    ensures Scannable(node.utxo, a) && HoldsIDs(table, AddressBytes(a))
    ensures key in CandidateKeys(node.utxo, table, a) <==> CreatedFor(L, key, a) || SpentFrom(L, key, a) || ConflictKey(node, key, a)
  {
    ExactIsRebuilt(node, table);
    if ConflictKey(node, key, a) {
      RowOfMessage(node, key);
    }
    hide *;
    CandidatesListed(node, L, table, |Rows(node)|, a, key);
  }

  // ----- candidates that are stored are the affecting messages -----

  lemma InputAddressKnown(node: Node, L: Ledger, input: TxInput, a: Address)
    requires Represents(node.utxo, L)
    ensures InputAddress(node.utxo, input) == Some(a) <==>
            input.UTXOInput? && input.outputID in L.outputs && L.outputs[input.outputID].address == a
  {
    if input.UTXOInput? {
      ReadOutputRepresented(node.utxo, L, input.outputID);
    }
  }

  lemma TouchesIffTakesOrGives(node: Node, L: Ledger, id: MessageID, a: Address)
    requires Represents(node.utxo, L) && id in node.messages && EssenceOf(node.messages[id]).Some?
    ensures Touches(node.utxo, EssenceOf(node.messages[id]).value, a) <==> TakesFrom(node, L, id, a) || GivesTo(node, id, a)
  {
    var p := node.messages[id];
    var e := EssenceOf(p).value;
    hide Represents, InputAddress, OutputAddress;
    assert Inputs(p) == e.inputs && Outputs(p) == e.outputs;
    if i :| 0 <= i < |e.inputs| && InputAddress(node.utxo, e.inputs[i]) == Some(a) {
      InputAddressKnown(node, L, e.inputs[i], a);
      assert Inputs(p)[i].UTXOInput?;
    }
    if i :| 0 <= i < |e.outputs| && OutputAddress(e.outputs[i]) == Some(a) {
      assert OutputAddress(Outputs(p)[i]) == Some(a);
    }
    if i :| 0 <= i < |Inputs(p)| && Inputs(p)[i].UTXOInput? && Inputs(p)[i].outputID in L.outputs
            && L.outputs[Inputs(p)[i].outputID].address == a {
      InputAddressKnown(node, L, e.inputs[i], a);
    }
    if i :| 0 <= i < |Outputs(p)| && OutputAddress(Outputs(p)[i]) == Some(a) {
      assert OutputAddress(e.outputs[i]) == Some(a);
    }
  }

  // What consistency says of one message, one output, one spending.

  lemma ConsistentIsValid(node: Node, L: Ledger)
    requires Consistent(node, L)
    ensures ValidNode(node) && Represents(node.utxo, L) && ValidLedger(L)
    ensures L.spendings.Keys <= L.outputs.Keys
  {
    hide RepresentsOutputs, RepresentsIndexes, RepresentsMilestones;
  }

  lemma ConsistentMessage(node: Node, L: Ledger, id: MessageID)
    requires Consistent(node, L) && id in node.messages
    ensures MessageOk(node, id)
    ensures IncludedTx(node, id) ==> ReadableTx(node.messages[id]) && IncludedOk(node, L, id)
    ensures Migration(node, id) ==> MigrationOk(node, L, id)
  {
    hide Represents, MessageOk, IncludedTx, Migration, ReadableTx, IncludedOk, MigrationOk, OriginOk, SpenderOk;
  }

  lemma ConsistentOutput(node: Node, L: Ledger, id: OutputID)
    requires Consistent(node, L)
    ensures id in L.outputs ==> OriginOk(node, L, id)
    ensures id in L.spendings ==> SpenderOk(node, L, id)
  {
    hide Represents, MessageOk, IncludedTx, Migration, ReadableTx, IncludedOk, MigrationOk, OriginOk, SpenderOk;
  }

  lemma ConflictKeyAffects(node: Node, L: Ledger, id: MessageID, a: Address)
    requires Consistent(node, L) && id in node.messages
    ensures ConflictKey(node, id, a) <==> ConflictingTx(node, id) && (TakesFrom(node, L, id, a) || GivesTo(node, id, a))
  {
    hide Consistent, Represents, Touches, TakesFrom, GivesTo, DecodeMetadata;
    ConsistentIsValid(node, L);
    ConsistentMessage(node, L, id);
    if EssenceOf(node.messages[id]).Some? {
      TouchesIffTakesOrGives(node, L, id, a);
    }
  }

  lemma CreatedForAffects(node: Node, L: Ledger, id: MessageID, a: Address)
    requires Consistent(node, L) && id in node.messages && CreatedFor(L, id, a)
    ensures Affects(node, L, id, a) && !ConflictingTx(node, id)
  {
    hide Consistent, Represents, MessageOk, SpenderOk, OutputIDOf, TakesFrom, HasMetadata;
    var o :| o in L.outputs && L.outputs[o].address == a && L.outputs[o].messageID == id;
    var p := node.messages[id];
    ConsistentOutput(node, L, o);
    ConsistentMessage(node, L, id);
    if IncludedTx(node, id) && p.txID.Some? && exists i :: 0 <= i < |Outputs(p)| && o == OutputIDOf(p.txID.value, i) {
      var i :| 0 <= i < |Outputs(p)| && o == OutputIDOf(p.txID.value, i);
      assert Creates(L.outputs[o], id, Outputs(p)[i].address, Outputs(p)[i].amount);
      assert OutputAddress(Outputs(p)[i]) == Some(a);
      assert GivesTo(node, id, a);
    } else {
      var i :| 0 <= i < |Funds(p)| && o == OutputIDOf(p.milestoneID, i);
      assert Creates(L.outputs[o], id, Funds(p)[i].address, Funds(p)[i].deposit);
      assert MigratesTo(node, id, a);
    }
  }

  lemma SpentFromAffects(node: Node, L: Ledger, id: MessageID, a: Address)
    requires Consistent(node, L) && id in node.messages && ValidLedger(L) && SpentFrom(L, id, a)
    ensures Affects(node, L, id, a) && !ConflictingTx(node, id)
  {
    hide Consistent, Represents, MessageOk, OriginOk, OutputIDOf, GivesTo, HasMetadata;
    ConsistentIsValid(node, L);
    var o :| o in L.spendings && L.outputs[o].address == a && MapKey(MessageOfFirst(L, L.spendings[o].targetTransactionID)) == id;
    ConsistentOutput(node, L, o);
    var inputs := Inputs(node.messages[id]);
    var i :| 0 <= i < |inputs| && inputs[i] == UTXOInput(o);
    assert TakesFrom(node, L, id, a);
  }

  lemma AffectsIsCandidate(node: Node, L: Ledger, id: MessageID, a: Address)
    requires Consistent(node, L) && Affects(node, L, id, a)
    ensures ValidLedger(L)
    ensures if ConflictingTx(node, id) then ConflictKey(node, id, a) else CreatedFor(L, id, a) || SpentFrom(L, id, a)
  {
    hide Consistent, Represents, MessageOk, OriginOk, SpenderOk, OutputIDOf, HasMetadata, ConflictKey;
    ConsistentIsValid(node, L);
    ConsistentMessage(node, L, id);
    var p := node.messages[id];
    if IncludedTx(node, id) && GivesTo(node, id, a) {
      var i :| 0 <= i < |Outputs(p)| && OutputAddress(Outputs(p)[i]) == Some(a);
      assert Creates(L.outputs[OutputIDOf(p.txID.value, i)], id, a, Outputs(p)[i].amount);
    } else if IncludedTx(node, id) && TakesFrom(node, L, id, a) {
      var i :| 0 <= i < |Inputs(p)| && Inputs(p)[i].UTXOInput? && Inputs(p)[i].outputID in L.outputs
               && L.outputs[Inputs(p)[i].outputID].address == a;
      assert Creates(L.outputs[OutputIDOf(p.txID.value, 0)], id, Outputs(p)[0].address, Outputs(p)[0].amount);
      assert MapKey(MessageOfFirst(L, L.spendings[Inputs(p)[i].outputID].targetTransactionID)) == id;
    } else if Migration(node, id) && MigratesTo(node, id, a) {
      var i :| 0 <= i < |Funds(p)| && Funds(p)[i].address == a;
      assert Creates(L.outputs[OutputIDOf(p.milestoneID, i)], id, a, Funds(p)[i].deposit);
    } else {
      ConflictKeyAffects(node, L, id, a);
    }
  }

  // ----- what a message yields -----

  /** The amounts of an address's outputs that a list of inputs takes from the ledger. */
  function TakenFrom(L: Ledger, inputs: seq<TxInput>, a: Address): nat {
    if inputs == [] then
      0
    else
      var last := inputs[|inputs| - 1];
      TakenFrom(L, inputs[..|inputs| - 1], a)
      + if last.UTXOInput? && last.outputID in L.outputs && L.outputs[last.outputID].address == a then L.outputs[last.outputID].amount else 0
  }

  /** The amounts a list of outputs gives to an address. */
  function GivenTo(outputs: seq<TxOutput>, a: Address): nat {
    if outputs == [] then
      0
    else
      var last := outputs[|outputs| - 1];
      GivenTo(outputs[..|outputs| - 1], a) + if OutputAddress(last) == Some(a) then last.amount else 0
  }

  lemma KnownInput(store: Store, L: Ledger, input: TxInput)
    requires Represents(store, L) && input.UTXOInput?
    ensures ReadOutput(store, input.outputID) == if input.outputID in L.outputs then Ok(L.outputs[input.outputID]) else Err(KeyNotFound)
  {
    ReadOutputRepresented(store, L, input.outputID);
  }

  lemma {:induction false} InputsTally(store: Store, L: Ledger, inputs: seq<TxInput>, a: Address)
    requires Represents(store, L) && forall i | 0 <= i < |inputs| :: inputs[i].UTXOInput?
    ensures !TallyInputs(store, inputs, a).Unsupported?
    ensures TallyInputs(store, inputs, a).Total? <==> forall i | 0 <= i < |inputs| :: inputs[i].outputID in L.outputs
    ensures TallyInputs(store, inputs, a).Total? ==> TallyInputs(store, inputs, a).amount == TakenFrom(L, inputs, a)
  {
    hide Represents, ReadOutput;
    if inputs != [] {
      var front, last := inputs[..|inputs| - 1], inputs[|inputs| - 1];
      InputsTally(store, L, front, a);
      KnownInput(store, L, last);
      assert forall i | 0 <= i < |front| :: front[i] == inputs[i];
    }
  }

  lemma {:induction false} OutputsTally(outputs: seq<TxOutput>, a: Address)
    requires forall i | 0 <= i < |outputs| :: !outputs[i].UnsupportedOutput?
    ensures TallyOutputs(outputs, a) == Total(GivenTo(outputs, a))
  {
    if outputs != [] {
      OutputsTally(outputs[..|outputs| - 1], a);
    }
  }

  function StateOfMessage(migration: bool, included: bool): InclusionState {
    if migration then Migrated else if included then Included else Conflicting
  }

  /** What an item has to say about its message, in terms of the message and the ledger. */
  ghost predicate DescribesMessage(node: Node, L: Ledger, id: MessageID, a: Address, x: HistoryItem)
    requires HasMetadata(node, id)
  {
    var p, m := node.messages[id], Meta(node, id);
    && x.messageID == ToHex(id)
    && x.ledgerInclusionState == StateOfMessage(Migration(node, id), IncludedTx(node, id))
    && (m.IsReferenced() ==> x.referencedByMilestoneIndex == m.referencedIndex)
    && x.referencedByMilestoneIndex in node.milestones
    && x.milestoneTimestampReferenced == node.milestones[x.referencedByMilestoneIndex]
    && (x.conflictReason == if m.IsConflictingTx() then Some(m.conflict) else None)
    && if Migration(node, id) then
         && x.transactionID == ToHex(p.receipt.value.treasuryInput.value)
         && x.inputsCount == 1 && x.outputsCount == |Funds(p)|
         && x.addressBalanceChange == Wrap64(TallyFunds(Funds(p), a))
       else
         && p.Transaction? && p.txID.Some? && x.transactionID == ToHex(p.txID.value)
         && x.inputsCount == |Inputs(p)| && x.outputsCount == |Outputs(p)|
         && x.addressBalanceChange == Wrap64(GivenTo(Outputs(p), a) - TakenFrom(L, Inputs(p), a))
  }

  /**
   A message that affects an address has an item exactly when all its inputs are known;
   otherwise it is skipped. The item describes the message, in conflict or not.
   */
  lemma AffectingItem(node: Node, L: Ledger, id: MessageID, a: Address)
    requires Consistent(node, L) && Affects(node, L, id, a)
    ensures if AllInputsKnown(node, L, id)
            then HistoryItemOf(node, a, id).Item? && DescribesMessage(node, L, id, a, HistoryItemOf(node, a, id).item)
            else HistoryItemOf(node, a, id).Skipped?
  {
    hide Consistent, Represents, IncludedOk, MigrationOk, TakesFrom, GivesTo, MigratesTo, TallyInputs, TallyOutputs, TallyFunds,
         ToHex, DecodeMetadata, Wrap64, TakenFrom, GivenTo;
    ConsistentIsValid(node, L);
    ConsistentMessage(node, L, id);
    DecodedMessage(id, node.metadata[id]);
    var p := node.messages[id];
    if p.Transaction? {
      InputsTally(node.utxo, L, Inputs(p), a);
      OutputsTally(Outputs(p), a);
    }
  }

  /** A stored message is a candidate exactly when it affects the address and, being in conflict, has a row before the stop. */
  lemma StoredCandidate(node: Node, L: Ledger, table: Table, n: nat, a: Address, id: MessageID)
    requires Consistent(node, L) && RebuiltUpTo(node, table, n) && id in node.messages
    ensures Scannable(node.utxo, a) && HoldsIDs(table, AddressBytes(a))
    ensures id in CandidateKeys(node.utxo, table, a) <==>
            Affects(node, L, id, a) && (ConflictingTx(node, id) ==> ScannedBefore(node, n, id))
  {
    hide Consistent, Represents, RebuiltUpTo, Affects, CreatedFor, SpentFrom, ConflictKey, Scannable, HoldsIDs, CandidateKeys,
         MessageOk, OriginOk, SpenderOk, IncludedOk, MigrationOk, ScannedBefore, ConflictingTx;
    ConsistentIsValid(node, L);
    CandidatesListed(node, L, table, n, a, id);
    if CreatedFor(L, id, a) {
      CreatedForAffects(node, L, id, a);
    } else if SpentFrom(L, id, a) {
      SpentFromAffects(node, L, id, a);
    } else if ConflictKey(node, id, a) {
      ConflictAffects(node, L, id, a);
    }
    if Affects(node, L, id, a) {
      AffectsIsCandidate(node, L, id, a);
    }
  }

  lemma ConflictAffects(node: Node, L: Ledger, id: MessageID, a: Address)
    requires Consistent(node, L) && id in node.messages && ConflictKey(node, id, a)
    ensures Affects(node, L, id, a)
  {
    ConflictKeyAffects(node, L, id, a);
    hide ConflictKey, TakesFrom, GivesTo;
  }

  /** Which candidates are good: all but the empty key of a spender whose first output is gone. */
  lemma CandidateGood(node: Node, L: Ledger, table: Table, n: nat, a: Address, key: Bytes)
    requires Consistent(node, L) && RebuiltUpTo(node, table, n)
    requires Scannable(node.utxo, a) && HoldsIDs(table, AddressBytes(a)) && key in CandidateKeys(node.utxo, table, a)
    ensures GoodKey(node, a, key) <==> |key| == 32
    ensures |key| == 32 ==> !HistoryItemOf(node, a, key).Failed? && !HistoryItemOf(node, a, key).Panicked?
  {
    hide Consistent, RebuiltUpTo, Scannable, HoldsIDs, CandidateKeys, Affects, AllInputsKnown, ScannedBefore, ConflictingTx, DescribesMessage;
    if |key| == 32 && key in node.messages {
      StoredCandidate(node, L, table, n, a, key);
      AffectingItem(node, L, key, a);
    }
  }

  lemma EmptyKey(node: Node, L: Ledger, table: Table, n: nat, a: Address)
    requires Consistent(node, L) && RebuiltUpTo(node, table, n) && ValidLedger(L)
    requires Scannable(node.utxo, a) && HoldsIDs(table, AddressBytes(a))
    ensures (forall key: Bytes :: key in CandidateKeys(node.utxo, table, a) ==> |key| == 32) <==> FirstOutputsKnown(L, a)
  {
    hide Consistent, RebuiltUpTo, Scannable, HoldsIDs, CandidateKeys, OutputIDOf, ConflictTouches, ScannedBefore;
    ConsistentIsValid(node, L);
    if !FirstOutputsKnown(L, a) {
      var id :| id in L.spendings && L.outputs[id].address == a && OutputIDOf(L.spendings[id].targetTransactionID, 0) !in L.outputs;
      assert MapKey(MessageOfFirst(L, L.spendings[id].targetTransactionID)) == [];
      assert SpentFrom(L, [], a);
      CandidatesListed(node, L, table, n, a, []);
    } else {
      forall key: Bytes | key in CandidateKeys(node.utxo, table, a) ensures |key| == 32 {
        CandidatesListed(node, L, table, n, a, key);
      }
    }
  }

  lemma BuildableUpTo(node: Node, L: Ledger, table: Table, n: nat, a: Address)
    requires Consistent(node, L) && RebuiltUpTo(node, table, n)
    ensures HoldsIDs(table, AddressBytes(a)) && Scannable(node.utxo, a) && ValidLedger(L)
    ensures forall key: Bytes :: key in CandidateKeys(node.utxo, table, a) ==> (GoodKey(node, a, key) <==> |key| == 32)
    ensures forall key: Bytes :: key in CandidateKeys(node.utxo, table, a) && |key| == 32 ==>
              !HistoryItemOf(node, a, key).Failed? && !HistoryItemOf(node, a, key).Panicked?
    ensures Buildable(node, table, a) <==> FirstOutputsKnown(L, a)
  {
    hide Consistent, RebuiltUpTo, Scannable, HoldsIDs, CandidateKeys, FirstOutputsKnown, HistoryItemOf, GoodKey, ScannedBefore;
    ConsistentIsValid(node, L);
    CandidatesListed(node, L, table, n, a, []);
    EmptyKey(node, L, table, n, a);
    forall key: Bytes | key in CandidateKeys(node.utxo, table, a)
      ensures GoodKey(node, a, key) <==> |key| == 32
      ensures |key| == 32 ==> !HistoryItemOf(node, a, key).Failed? && !HistoryItemOf(node, a, key).Panicked?
    {
      CandidateGood(node, L, table, n, a, key);
    }
  }

  /**
   On a consistent node with a table that was rebuilt up to any row, exact or not, building
   the history never fails with an error, whatever the order of the messages, and it panics
   if and only if the first output of some spending transaction is missing.
   */
  lemma HistoryBuildableIff(node: Node, L: Ledger, table: Table, n: nat, a: Address)
    requires Consistent(node, L) && RebuiltUpTo(node, table, n)
    ensures HoldsIDs(table, AddressBytes(a)) && Scannable(node.utxo, a) && ValidLedger(L)
    ensures forall key: Bytes :: key in CandidateKeys(node.utxo, table, a) && |key| == 32 ==> !HistoryItemOf(node, a, key).Failed?
    ensures Buildable(node, table, a) <==> FirstOutputsKnown(L, a)
    ensures !CanFail(node, table, a)
    ensures CanPanic(node, table, a) <==> !FirstOutputsKnown(L, a)
    ensures forall r :: Builds(node, a, CandidateKeys(node.utxo, table, a), r) ==>
              !r.BuildFailed? && (r.BuildPanicked? <==> !FirstOutputsKnown(L, a))
  {
    hide Consistent, RebuiltUpTo, Scannable, HoldsIDs, CandidateKeys, FirstOutputsKnown, HistoryItemOf, GoodKey, DistinctMessages, HasItem;
    BuildableUpTo(node, L, table, n, a);
  }

  /** The history has an item of a message. */
  ghost predicate Mentions(s: seq<HistoryItem>, id: MessageID) {
    exists i :: 0 <= i < |s| && s[i].messageID == ToHex(id)
  }

  lemma MentionsIff(node: Node, table: Table, a: Address, id: MessageID)
    requires Buildable(node, table, a)
    ensures Mentions(FreshHistory(node, table, a), id) <==>
            id in CandidateKeys(node.utxo, table, a) && HistoryItemOf(node, a, id).Item?
  {
    hide Scannable, HoldsIDs, GoodKey, CandidateKeys, FreshHistory, HistoryItemOf, ToHex, Sorted;
    FreshHistoryIsHistory(node, table, a);
    var s, keys := FreshHistory(node, table, a), CandidateKeys(node.utxo, table, a);
    if Mentions(s, id) {
      var i :| 0 <= i < |s| && s[i].messageID == ToHex(id);
      assert s[i] in s;
      var other: MessageID :| other in keys && HistoryItemOf(node, a, other) == Item(s[i]);
      ItemMessage(node, a, other);
      ToHexInjective(other, id);
    }
    if id in keys && HistoryItemOf(node, a, id).Item? {
      var x := HistoryItemOf(node, a, id).item;
      assert HasItem(node, a, keys, x);
      ItemMessage(node, a, id);
      var i :| 0 <= i < |s| && s[i] == x;
    }
  }

  /** A message of the full scan that a table rebuilt up to row `n` gives away. */
  ghost predicate FoundUpTo(node: Node, L: Ledger, n: nat, id: MessageID, a: Address) {
    InFullScan(node, L, id, a) && (ConflictingTx(node, id) ==> ScannedBefore(node, n, id))
  }

  /** A conflicting message of the full scan of an address comes at row `n` or later. */
  ghost predicate MissedFrom(node: Node, L: Ledger, n: nat, a: Address) {
    exists i, id: MessageID :: n <= i < |Rows(node)| && Rows(node)[i] == id && ConflictingTx(node, id) && InFullScan(node, L, id, a)
  }

  /** The history mentions exactly the messages of a full scan. */
  ghost predicate Complete(node: Node, L: Ledger, s: seq<HistoryItem>, a: Address) {
    forall id: MessageID :: Mentions(s, id) <==> InFullScan(node, L, id, a)
  }

  /**
   With a table rebuilt up to row `n` the history of an address mentions exactly the messages
   of a full scan that are not in conflict or have an earlier row. It mentions each of them
   once, with the item that message alone determines.
   */
  lemma HistoryUpTo(node: Node, L: Ledger, table: Table, n: nat, a: Address)
    requires Consistent(node, L) && RebuiltUpTo(node, table, n) && ValidLedger(L) && FirstOutputsKnown(L, a)
    ensures Buildable(node, table, a)
    ensures DistinctMessages(FreshHistory(node, table, a)) && Sorted(NewestFirst, FreshHistory(node, table, a))
    ensures forall id: MessageID :: Mentions(FreshHistory(node, table, a), id) <==> FoundUpTo(node, L, n, id, a)
    ensures forall x :: x in FreshHistory(node, table, a) <==>
              exists id: MessageID :: FoundUpTo(node, L, n, id, a) && HistoryItemOf(node, a, id) == Item(x)
  {
    hide Consistent, RebuiltUpTo, FirstOutputsKnown, Buildable, FreshHistory, HistoryItemOf, Mentions, ToHex, Sorted, DistinctMessages,
         FoundUpTo, CandidateKeys;
    BuildableUpTo(node, L, table, n, a);
    FreshDistinct(node, table, a);
    forall id: MessageID
      ensures id in CandidateKeys(node.utxo, table, a) && HistoryItemOf(node, a, id).Item? <==> FoundUpTo(node, L, n, id, a)
      ensures Mentions(FreshHistory(node, table, a), id) <==> FoundUpTo(node, L, n, id, a)
    {
      MentionsIff(node, table, a, id);
      ItemIffFound(node, L, table, n, a, id);
    }
    FreshHistoryIsHistory(node, table, a);
  }

  lemma ItemIffFound(node: Node, L: Ledger, table: Table, n: nat, a: Address, id: MessageID)
    requires Consistent(node, L) && RebuiltUpTo(node, table, n) && Buildable(node, table, a)
    ensures id in CandidateKeys(node.utxo, table, a) && HistoryItemOf(node, a, id).Item? <==> FoundUpTo(node, L, n, id, a)
  {
    hide Consistent, RebuiltUpTo, AllInputsKnown, Affects, Buildable, CandidateKeys, ConflictingTx, ScannedBefore, DescribesMessage;
    if id in node.messages {
      StoredCandidate(node, L, table, n, a, id);
      if Affects(node, L, id, a) {
        AffectingItem(node, L, id, a);
      }
    } else {
      AffectsStored(node, L, id, a);
    }
  }

  lemma MissedIff(node: Node, L: Ledger, n: nat, a: Address)
    ensures (forall id: MessageID :: FoundUpTo(node, L, n, id, a) <==> InFullScan(node, L, id, a)) <==> !MissedFrom(node, L, n, a)
  {
    hide InFullScan, Rows;
    if MissedFrom(node, L, n, a) {
      var i, id: MessageID :| n <= i < |Rows(node)| && Rows(node)[i] == id && ConflictingTx(node, id) && InFullScan(node, L, id, a);
      RowsDistinct(node, i);
      assert !FoundUpTo(node, L, n, id, a);
    }
    forall id: MessageID | InFullScan(node, L, id, a) && ConflictingTx(node, id) && !ScannedBefore(node, n, id)
      ensures MissedFrom(node, L, n, a)
    {
      RowOfMessage(node, id);
      var i :| 0 <= i < |Rows(node)| && Rows(node)[i] == id;
    }
  }

  lemma RowsDistinct(node: Node, i: nat)
    requires i < |Rows(node)|
    ensures !ScannedBefore(node, i, Rows(node)[i])
  {
    hide Rows;
    forall j | 0 <= j < i ensures Rows(node)[j] != Rows(node)[i] {
      if Rows(node)[j] == Rows(node)[i] {
        AscendingDistinct(Rows(node), i, j);
      }
    }
  }

  /**
   With a table rebuilt up to row `n` the history is complete if and only if no conflicting
   message of the full scan comes at row `n` or later.
   */
  lemma HistoryCompleteIff(node: Node, L: Ledger, table: Table, n: nat, a: Address)
    requires Consistent(node, L) && RebuiltUpTo(node, table, n) && ValidLedger(L) && FirstOutputsKnown(L, a)
    ensures Buildable(node, table, a)
    ensures Complete(node, L, FreshHistory(node, table, a), a) <==> !MissedFrom(node, L, n, a)
  {
    hide Consistent, RebuiltUpTo, FirstOutputsKnown, Buildable, FreshHistory, Mentions, FoundUpTo, InFullScan, MissedFrom, ValidLedger;
    HistoryUpTo(node, L, table, n, a);
    MissedIff(node, L, n, a);
    var h := FreshHistory(node, table, a);
    if Complete(node, L, h, a) {
      forall id: MessageID ensures FoundUpTo(node, L, n, id, a) <==> InFullScan(node, L, id, a) {
        assert Mentions(h, id) <==> FoundUpTo(node, L, n, id, a);
      }
    }
  }

  /**
   With an exact table the history of an address mentions exactly the messages a full scan
   finds: stored, included, conflicting or migrating, touching the address, with all inputs
   known. It mentions each of them once, with the item that message alone determines.
   */
  lemma HistoryComplete(node: Node, L: Ledger, table: Table, a: Address)
    requires Consistent(node, L) && Exact(node, table) && ValidLedger(L) && FirstOutputsKnown(L, a)
    ensures Buildable(node, table, a)
    ensures DistinctMessages(FreshHistory(node, table, a)) && Sorted(NewestFirst, FreshHistory(node, table, a))
    ensures Complete(node, L, FreshHistory(node, table, a), a)
    ensures forall x :: x in FreshHistory(node, table, a) <==>
              exists id: MessageID :: InFullScan(node, L, id, a) && HistoryItemOf(node, a, id) == Item(x)
  {
    hide *;
    ConsistentIsValid(node, L);
    ExactIsRebuilt(node, table);
    HistoryUpTo(node, L, table, |Rows(node)|, a);
    HistoryCompleteIff(node, L, table, |Rows(node)|, a);
    NothingMissed(node, L, a);
    MissedIff(node, L, |Rows(node)|, a);
  }

  lemma NothingMissed(node: Node, L: Ledger, a: Address)
    ensures !MissedFrom(node, L, |Rows(node)|, a)
  {
  }

  lemma AffectsStored(node: Node, L: Ledger, id: MessageID, a: Address)
    ensures Affects(node, L, id, a) ==> id in node.messages
    ensures HistoryItemOf(node, a, id).Item? ==> id in node.messages
  {
  }

  /**
   From the first start on: whenever the service answers in a run without a cancelled scan,
   the history of every address is complete.
   */
  lemma ServedHistoryComplete(trace: seq<State>, n: nat, L: Ledger, a: Address)
    requires Run(trace, false) && n < |trace| && trace[n].phase.Serving?
    requires WellFormed(trace[0]) && trace[0].phase.Down? && |trace[0].tables| == 1 && Good(trace[0].node, trace[0].tables[0])
    requires Consistent(trace[n].node, L) && ValidLedger(L) && FirstOutputsKnown(L, a)
    ensures WellFormed(trace[n])
    ensures var node, table := trace[n].node, Current(trace[n]);
            Buildable(node, table, a) && Complete(node, L, FreshHistory(node, table, a), a)
  {
    hide Run, Consistent, ValidLedger, FirstOutputsKnown, Good, Exact, Buildable, FreshHistory, Complete;
    RebuildSafe(trace, n);
    HistoryComplete(trace[n].node, L, Current(trace[n]), a);
  }

  /**
   And in any run, whatever scans were cancelled: the table that is served was rebuilt up to
   some row, and the history of an address is complete if and only if no conflicting message
   of its full scan comes at that row or later.
   */
  lemma AnyRunServesHistory(trace: seq<State>, n: nat, L: Ledger, a: Address)
    requires Run(trace, true) && n < |trace| && trace[n].phase.Serving?
    requires WellFormed(trace[0]) && trace[0].phase.Down? && |trace[0].tables| == 1
    requires StaleOrStopped(trace[0].node, trace[0].tables[0])
    requires Consistent(trace[n].node, L) && ValidLedger(L) && FirstOutputsKnown(L, a)
    ensures WellFormed(trace[n])
    ensures var node, table := trace[n].node, Current(trace[n]);
            && Buildable(node, table, a)
            && exists m: nat :: RebuiltUpTo(node, table, m)
                 && (forall id: MessageID :: Mentions(FreshHistory(node, table, a), id) <==> FoundUpTo(node, L, m, id, a))
                 && (Complete(node, L, FreshHistory(node, table, a), a) <==> !MissedFrom(node, L, m, a))
  {
    hide *;
    AnyRunServesStopped(trace, n);
    ServedNodeValid(trace[n]);
    var node, table := trace[n].node, Current(trace[n]);
    var m := StoppedAt(node, table);
    HistoryUpTo(node, L, table, m, a);
    HistoryCompleteIff(node, L, table, m, a);
  }

  lemma ServedNodeValid(s: State)
    requires WellFormed(s)
    ensures ValidNode(s.node) && s.tables != []
  {
  }

  lemma StoppedAt(node: Node, table: Table) returns (m: nat)
    requires ValidNode(node) && Stopped(node, table)
    ensures RebuiltUpTo(node, table, m)
  {
    m :| RebuiltUpTo(node, table, m);
  }

  /** Every request of a run on a consistent node is answered with a page, or panics for a missing first output. */
  lemma RunPanicsIff(node: Node, L: Ledger, table: Table, m: nat, log: seq<Exchange>, n: nat)
    requires Consistent(node, L) && RebuiltUpTo(node, table, m) && ValidLedger(L)
    requires HasLedgerIndex(node.utxo) && ServedRun(node, table, log) && n < |log|
    ensures log[n].response != ServerError
    ensures log[n].response == ServerPanic <==> !FirstOutputsKnown(L, log[n].request.address)
  {
    hide Consistent, RebuiltUpTo, ServedRun, FirstOutputsKnown, Buildable, FreshHistory, CanFail, CanPanic, PageAfter, Widest, ToHex, HasLedgerIndex,
         LedgerIndexOf, CandidateKeys, Scannable, HoldsIDs;
    HistoryBuildableIff(node, L, table, m, log[n].request.address);
    RunAnswers(node, table, log, n);
  }
}
