/** The balance changes of a whole history add up to what the unspent index holds for the address. */
module Balances {
  import opened KVStores
  import opened Marshalling
  import opened Ledgers
  import opened MessageMetadata
  import opened Tangle
  import opened Hexadecimal
  import opened ConflictTable
  import opened Rebuild
  import opened Cancellation
  import opened HistoryItems
  import opened HistorySort
  import opened History
  import opened Consistency
  import opened Completeness

  // ----- sums over the ledger -----

  /** The total amount of a set of outputs. */
  ghost function LedgerSum(L: Ledger, ids: set<OutputID>): nat
    requires ids <= L.outputs.Keys
  {
    if ids == {} then
      0
    else
      var id :| id in ids;
      L.outputs[id].amount + LedgerSum(L, ids - {id})
  }

  lemma {:induction false} LedgerSumWith(L: Ledger, ids: set<OutputID>, x: OutputID)
    requires ids <= L.outputs.Keys && x in L.outputs && x !in ids
    ensures LedgerSum(L, ids + {x}) == LedgerSum(L, ids) + L.outputs[x].amount
    decreases ids
  {
    var more := ids + {x};
    var id :| id in more && LedgerSum(L, more) == L.outputs[id].amount + LedgerSum(L, more - {id});
    if id == x {
      assert more - {x} == ids;
    } else {
      LedgerSumWith(L, ids - {id}, x);
      assert more - {id} == (ids - {id}) + {x};
      LedgerSumWith(L, ids - {id}, id);
      assert (ids - {id}) + {id} == ids;
    }
  }

  lemma {:induction false} LedgerSumUnion(L: Ledger, a: set<OutputID>, b: set<OutputID>)
    requires a <= L.outputs.Keys && b <= L.outputs.Keys && a !! b
    ensures LedgerSum(L, a + b) == LedgerSum(L, a) + LedgerSum(L, b)
    decreases b
  {
    if b == {} {
      assert a + b == a;
    } else {
      var x :| x in b;
      LedgerSumUnion(L, a, b - {x});
      LedgerSumWith(L, a + (b - {x}), x);
      LedgerSumWith(L, b - {x}, x);
      assert a + (b - {x}) + {x} == a + b && (b - {x}) + {x} == b;
    }
  }

  // ----- the outputs a message created and took, at one address -----

  ghost function CreatedAt(L: Ledger, messages: set<MessageID>, a: Address): (ids: set<OutputID>)
    ensures ids <= L.outputs.Keys
  {
    set id | id in L.outputs && L.outputs[id].address == a && L.outputs[id].messageID in messages
  }

  ghost function TakenAt(L: Ledger, messages: set<MessageID>, a: Address): (ids: set<OutputID>)
    requires ValidLedger(L)
    ensures ids <= L.outputs.Keys
  {
    set id | id in L.spendings && L.outputs[id].address == a && MessageOfFirst(L, L.spendings[id].targetTransactionID).Some?
             && MessageOfFirst(L, L.spendings[id].targetTransactionID).value in messages
  }

  ghost function NewOutputs(txID: TransactionID, outputs: seq<TxOutput>, a: Address, n: nat): set<OutputID>
    requires n <= |outputs|
  {
    set i | 0 <= i < n && OutputAddress(outputs[i]) == Some(a) :: OutputIDOf(txID, i)
  }

  lemma NextNewOutput(txID: TransactionID, outputs: seq<TxOutput>, a: Address, n: nat)
    requires n < |outputs| <= 0x1_0000
    ensures if OutputAddress(outputs[n]) == Some(a)
            then NewOutputs(txID, outputs, a, n + 1) == NewOutputs(txID, outputs, a, n) + {OutputIDOf(txID, n)}
                 && OutputIDOf(txID, n) !in NewOutputs(txID, outputs, a, n)
            else NewOutputs(txID, outputs, a, n + 1) == NewOutputs(txID, outputs, a, n)
  {
    hide OutputIDOf, OutputAddress;
    var before, next := NewOutputs(txID, outputs, a, n), NewOutputs(txID, outputs, a, n + 1);
    if OutputIDOf(txID, n) in before {
      var i :| 0 <= i < n && OutputAddress(outputs[i]) == Some(a) && OutputIDOf(txID, i) == OutputIDOf(txID, n);
      OutputIDOfInjective(txID, i, txID, n);
    }
    forall id ensures id in next <==> id in before || (OutputAddress(outputs[n]) == Some(a) && id == OutputIDOf(txID, n)) {
      if id in next {
        var i :| 0 <= i < n + 1 && OutputAddress(outputs[i]) == Some(a) && OutputIDOf(txID, i) == id;
        assert i < n || i == n;
      }
      if id in before {
        var i :| 0 <= i < n && OutputAddress(outputs[i]) == Some(a) && OutputIDOf(txID, i) == id;
        assert i < n + 1;
      }
    }
  }

  lemma {:induction false} OutputsInLedger(L: Ledger, id: MessageID, txID: TransactionID, outputs: seq<TxOutput>, a: Address, n: nat)
    requires n <= |outputs| <= 0x1_0000
    requires forall i | 0 <= i < |outputs| ::
               && !outputs[i].UnsupportedOutput?
               && OutputIDOf(txID, i) in L.outputs
               && Creates(L.outputs[OutputIDOf(txID, i)], id, outputs[i].address, outputs[i].amount)
    ensures NewOutputs(txID, outputs, a, n) <= L.outputs.Keys
    ensures TallyOutputs(outputs[..n], a) == Total(LedgerSum(L, NewOutputs(txID, outputs, a, n)))
  {
    hide OutputIDOf;
    if n == 0 {
      assert NewOutputs(txID, outputs, a, 0) == {};
    } else {
      OutputsInLedger(L, id, txID, outputs, a, n - 1);
      NextNewOutput(txID, outputs, a, n - 1);
      assert outputs[..n][..n - 1] == outputs[..n - 1];
      assert Creates(L.outputs[OutputIDOf(txID, n - 1)], id, outputs[n - 1].address, outputs[n - 1].amount);
      hide NewOutputs, LedgerSum;
      if OutputAddress(outputs[n - 1]) == Some(a) {
        LedgerSumWith(L, NewOutputs(txID, outputs, a, n - 1), OutputIDOf(txID, n - 1));
      }
    }
  }

  /** The funds of a receipt, as outputs. */
  ghost function AsOutputs(funds: seq<Fund>): (outputs: seq<TxOutput>)
    ensures |outputs| == |funds|
    ensures forall i | 0 <= i < |funds| :: outputs[i] == SigLockedSingle(funds[i].address, funds[i].deposit)
  {
    seq(|funds|, i requires 0 <= i < |funds| => SigLockedSingle(funds[i].address, funds[i].deposit))
  }

  lemma {:induction false} FundsTally(funds: seq<Fund>, a: Address)
    ensures TallyOutputs(AsOutputs(funds), a) == Total(TallyFunds(funds, a))
  {
    if funds != [] {
      FundsTally(funds[..|funds| - 1], a);
      assert AsOutputs(funds)[..|funds| - 1] == AsOutputs(funds[..|funds| - 1]);
    }
  }

  ghost function TakenInputs(L: Ledger, inputs: seq<TxInput>, a: Address, n: nat): set<OutputID>
    requires n <= |inputs| && KnownInputs(L, inputs)
  {
    set i | 0 <= i < n && L.outputs[inputs[i].outputID].address == a :: inputs[i].outputID
  }

  ghost predicate KnownInputs(L: Ledger, inputs: seq<TxInput>) {
    forall i | 0 <= i < |inputs| :: inputs[i].UTXOInput? && inputs[i].outputID in L.outputs
  }

  lemma NextTakenInput(L: Ledger, inputs: seq<TxInput>, a: Address, n: nat)
    requires n < |inputs| && KnownInputs(L, inputs)
    requires forall i, j | 0 <= i < j < |inputs| :: inputs[i] != inputs[j]
    ensures if L.outputs[inputs[n].outputID].address == a
            then TakenInputs(L, inputs, a, n + 1) == TakenInputs(L, inputs, a, n) + {inputs[n].outputID}
                 && inputs[n].outputID !in TakenInputs(L, inputs, a, n)
            else TakenInputs(L, inputs, a, n + 1) == TakenInputs(L, inputs, a, n)
  {
    var before, next := TakenInputs(L, inputs, a, n), TakenInputs(L, inputs, a, n + 1);
    forall i | 0 <= i < n ensures inputs[i].outputID != inputs[n].outputID {
      assert inputs[i] != inputs[n];
    }
    forall id ensures id in next <==> id in before || (L.outputs[inputs[n].outputID].address == a && id == inputs[n].outputID) {
      if id in next {
        var i :| 0 <= i < n + 1 && L.outputs[inputs[i].outputID].address == a && inputs[i].outputID == id;
        assert i < n || i == n;
      }
      if id in before {
        var i :| 0 <= i < n && L.outputs[inputs[i].outputID].address == a && inputs[i].outputID == id;
        assert i < n + 1;
      }
    }
  }

  lemma {:induction false} InputsInLedger(store: Store, L: Ledger, inputs: seq<TxInput>, a: Address, n: nat)
    requires Represents(store, L) && n <= |inputs| && KnownInputs(L, inputs)
    requires forall i, j | 0 <= i < j < |inputs| :: inputs[i] != inputs[j]
    ensures TakenInputs(L, inputs, a, n) <= L.outputs.Keys
    ensures TallyInputs(store, inputs[..n], a) == Total(LedgerSum(L, TakenInputs(L, inputs, a, n)))
  {
    hide Represents, ReadOutput, TakenInputs, LedgerSum;
    if n == 0 {
      NothingTaken(L, inputs, a);
    } else {
      InputsInLedger(store, L, inputs, a, n - 1);
      NextTakenInput(L, inputs, a, n - 1);
      assert inputs[..n][..n - 1] == inputs[..n - 1];
      ReadOutputRepresented(store, L, inputs[n - 1].outputID);
      hide KnownInputs;
      if L.outputs[inputs[n - 1].outputID].address == a {
        LedgerSumWith(L, TakenInputs(L, inputs, a, n - 1), inputs[n - 1].outputID);
      }
    }
  }

  lemma NothingTaken(L: Ledger, inputs: seq<TxInput>, a: Address)
    requires KnownInputs(L, inputs)
    ensures TakenInputs(L, inputs, a, 0) == {} && LedgerSum(L, {}) == 0
  {
  }

  // ----- one message -----

  lemma CreatedByTransaction(node: Node, L: Ledger, id: MessageID, a: Address)
    requires Consistent(node, L) && IncludedTx(node, id)
    ensures ReadableTx(node.messages[id])
    ensures TallyOutputs(Outputs(node.messages[id]), a) == Total(LedgerSum(L, CreatedAt(L, {id}, a)))
  {
    hide Consistent, Represents, MessageOk, SpenderOk, OutputIDOf, MetadataOf, MigrationOk, TallyOutputs, LedgerSum;
    ConsistentMessage(node, L, id);
    var p := node.messages[id];
    var ids := NewOutputs(p.txID.value, Outputs(p), a, |Outputs(p)|);
    OutputsInLedger(L, id, p.txID.value, Outputs(p), a, |Outputs(p)|);
    assert Outputs(p)[..|Outputs(p)|] == Outputs(p);
    forall o | o in CreatedAt(L, {id}, a) ensures o in ids {
      ConsistentOutput(node, L, o);
      var i :| 0 <= i < |Outputs(p)| && o == OutputIDOf(p.txID.value, i);
      assert Creates(L.outputs[o], id, Outputs(p)[i].address, Outputs(p)[i].amount);
    }
    forall o | o in ids ensures o in CreatedAt(L, {id}, a) {
      var i :| 0 <= i < |Outputs(p)| && OutputAddress(Outputs(p)[i]) == Some(a) && o == OutputIDOf(p.txID.value, i);
      assert Creates(L.outputs[o], id, Outputs(p)[i].address, Outputs(p)[i].amount);
    }
    assert ids == CreatedAt(L, {id}, a);
  }

  lemma TakenByTransaction(node: Node, L: Ledger, id: MessageID, a: Address)
    requires Consistent(node, L) && IncludedTx(node, id) && AllInputsKnown(node, L, id)
    ensures ValidLedger(L)
    ensures TallyInputs(node.utxo, Inputs(node.messages[id]), a) == Total(LedgerSum(L, TakenAt(L, {id}, a)))
  {
    hide Consistent, Represents, MessageOk, OriginOk, OutputIDOf, MetadataOf, MigrationOk, TallyInputs, LedgerSum;
    ConsistentIsValid(node, L);
    ConsistentMessage(node, L, id);
    var p := node.messages[id];
    var ids := TakenInputs(L, Inputs(p), a, |Inputs(p)|);
    InputsInLedger(node.utxo, L, Inputs(p), a, |Inputs(p)|);
    assert Inputs(p)[..|Inputs(p)|] == Inputs(p);
    forall o | o in TakenAt(L, {id}, a) ensures o in ids {
      ConsistentOutput(node, L, o);
      var i :| 0 <= i < |Inputs(p)| && Inputs(p)[i] == UTXOInput(o);
    }
    forall o | o in ids ensures o in TakenAt(L, {id}, a) {
      var i :| 0 <= i < |Inputs(p)| && L.outputs[Inputs(p)[i].outputID].address == a && Inputs(p)[i].outputID == o;
      assert Creates(L.outputs[OutputIDOf(p.txID.value, 0)], id, Outputs(p)[0].address, Outputs(p)[0].amount);
    }
    assert ids == TakenAt(L, {id}, a);
  }

  lemma CreatedByMigration(node: Node, L: Ledger, id: MessageID, a: Address)
    requires Consistent(node, L) && Migration(node, id)
    ensures TallyFunds(Funds(node.messages[id]), a) == LedgerSum(L, CreatedAt(L, {id}, a))
  {
    hide Consistent, Represents, MessageOk, SpenderOk, OutputIDOf, MetadataOf, IncludedOk, TallyOutputs, TallyFunds, LedgerSum;
    ConsistentMessage(node, L, id);
    var p := node.messages[id];
    var outputs := AsOutputs(Funds(p));
    FundsTally(Funds(p), a);
    forall i | 0 <= i < |outputs| ensures OutputIDOf(p.milestoneID, i) in L.outputs
      && Creates(L.outputs[OutputIDOf(p.milestoneID, i)], id, outputs[i].address, outputs[i].amount)
    {
      assert Creates(L.outputs[OutputIDOf(p.milestoneID, i)], id, Funds(p)[i].address, Funds(p)[i].deposit);
    }
    var ids := NewOutputs(p.milestoneID, outputs, a, |outputs|);
    OutputsInLedger(L, id, p.milestoneID, outputs, a, |outputs|);
    assert outputs[..|outputs|] == outputs;
    forall o | o in CreatedAt(L, {id}, a) ensures o in ids {
      ConsistentOutput(node, L, o);
      var i :| 0 <= i < |Funds(p)| && o == OutputIDOf(p.milestoneID, i);
      assert Creates(L.outputs[o], id, outputs[i].address, outputs[i].amount);
    }
    forall o | o in ids ensures o in CreatedAt(L, {id}, a) {
      var i :| 0 <= i < |outputs| && OutputAddress(outputs[i]) == Some(a) && o == OutputIDOf(p.milestoneID, i);
      assert Creates(L.outputs[o], id, outputs[i].address, outputs[i].amount);
    }
    assert ids == CreatedAt(L, {id}, a);
  }

  lemma MigrationTakesNothing(node: Node, L: Ledger, id: MessageID, a: Address)
    requires Consistent(node, L) && Migration(node, id)
    ensures ValidLedger(L) && TakenAt(L, {id}, a) == {}
  {
    hide Consistent, Represents, MessageOk, OriginOk, OutputIDOf, MetadataOf;
    ConsistentIsValid(node, L);
    forall o ensures o !in TakenAt(L, {id}, a) {
      if o in L.spendings {
        ConsistentOutput(node, L, o);
      }
    }
  }

  /** Included transactions and migrations are the messages that changed the ledger. */
  ghost predicate Applied(node: Node, id: MessageID) {
    IncludedTx(node, id) || Migration(node, id)
  }

  /** The sums of a message at an address are each below 2^63. */
  ghost predicate SumsFit(L: Ledger, id: MessageID, a: Address)
    requires ValidLedger(L)
  {
    LedgerSum(L, CreatedAt(L, {id}, a)) < TWO_TO_THE_63 && LedgerSum(L, TakenAt(L, {id}, a)) < TWO_TO_THE_63
  }

  /**
   The item of an applied message changes the balance by what it created less what it took,
   wrapped to 64 bits, which changes nothing when the two sums fit.
   */
  lemma AppliedChange(node: Node, L: Ledger, id: MessageID, a: Address)
    requires Consistent(node, L) && ValidLedger(L) && Applied(node, id) && InFullScan(node, L, id, a)
    ensures HistoryItemOf(node, a, id).Item?
    ensures var change := LedgerSum(L, CreatedAt(L, {id}, a)) - LedgerSum(L, TakenAt(L, {id}, a));
            && HistoryItemOf(node, a, id).item.addressBalanceChange == Wrap64(change)
            && (SumsFit(L, id, a) ==> Wrap64(change) == change)
  {
    hide Consistent, MessageOk, HasMetadata, Affects, AllInputsKnown, TallyInputs, TallyOutputs, TallyFunds, LedgerSum,
         CreatedAt, TakenAt, Wrap64, DecodeMetadata, ToHex, DescribesMessage;
    AffectingItem(node, L, id, a);
    AffectsStored(node, L, id, a);
    var created, taken := LedgerSum(L, CreatedAt(L, {id}, a)), LedgerSum(L, TakenAt(L, {id}, a));
    WrapExact(created as int - taken as int);
    if IncludedTx(node, id) {
      CreatedByTransaction(node, L, id, a);
      TakenByTransaction(node, L, id, a);
    } else {
      CreatedByMigration(node, L, id, a);
      MigrationTakesNothing(node, L, id, a);
      assert taken == 0 by { EmptySum(L); }
    }
  }

  lemma EmptySum(L: Ledger)
    ensures LedgerSum(L, {}) == 0
  {
  }

  // ----- a whole history -----

  /** What the applied items of a history add up to. */
  ghost function AppliedSum(s: seq<HistoryItem>): int {
    if s == [] then
      0
    else
      var last := s[|s| - 1];
      AppliedSum(s[..|s| - 1])
      + if last.ledgerInclusionState == Included || last.ledgerInclusionState == Migrated then last.addressBalanceChange else 0
  }

  ghost function AppliedIn(node: Node, ids: seq<MessageID>): set<MessageID> {
    set i | 0 <= i < |ids| && Applied(node, ids[i]) :: ids[i]
  }

  /** The messages of the items of a history, in its order. */
  ghost predicate ItemsOfMessages(node: Node, L: Ledger, a: Address, s: seq<HistoryItem>, ids: seq<MessageID>) {
    && |ids| == |s|
    && (forall i | 0 <= i < |s| :: InFullScan(node, L, ids[i], a) && HistoryItemOf(node, a, ids[i]) == Item(s[i]))
    && (forall i, j | 0 <= i < j < |s| :: ids[i] != ids[j])
  }

  lemma CreatedSplit(L: Ledger, messages: set<MessageID>, id: MessageID, a: Address)
    requires ValidLedger(L) && id !in messages
    ensures LedgerSum(L, CreatedAt(L, messages + {id}, a)) == LedgerSum(L, CreatedAt(L, messages, a)) + LedgerSum(L, CreatedAt(L, {id}, a))
    ensures LedgerSum(L, TakenAt(L, messages + {id}, a)) == LedgerSum(L, TakenAt(L, messages, a)) + LedgerSum(L, TakenAt(L, {id}, a))
  {
    hide MessageOfFirst;
    assert CreatedAt(L, messages + {id}, a) == CreatedAt(L, messages, a) + CreatedAt(L, {id}, a);
    assert TakenAt(L, messages + {id}, a) == TakenAt(L, messages, a) + TakenAt(L, {id}, a);
    LedgerSumUnion(L, CreatedAt(L, messages, a), CreatedAt(L, {id}, a));
    LedgerSumUnion(L, TakenAt(L, messages, a), TakenAt(L, {id}, a));
  }

  lemma AppliedNext(node: Node, ids: seq<MessageID>, n: nat)
    requires n < |ids| && forall i, j | 0 <= i < j < |ids| :: ids[i] != ids[j]
    ensures if Applied(node, ids[n])
            then AppliedIn(node, ids[..n + 1]) == AppliedIn(node, ids[..n]) + {ids[n]} && ids[n] !in AppliedIn(node, ids[..n])
            else AppliedIn(node, ids[..n + 1]) == AppliedIn(node, ids[..n])
  {
    hide Applied;
    var before, next := AppliedIn(node, ids[..n]), AppliedIn(node, ids[..n + 1]);
    forall id ensures id in next <==> id in before || (Applied(node, ids[n]) && id == ids[n]) {
      if id in next {
        var i :| 0 <= i < n + 1 && Applied(node, ids[..n + 1][i]) && ids[..n + 1][i] == id;
        assert i < n ==> ids[..n][i] == id;
      }
      if id in before {
        var i :| 0 <= i < n && Applied(node, ids[..n][i]) && ids[..n][i] == id;
        assert ids[..n + 1][i] == id;
      }
      assert ids[..n + 1][n] == ids[n];
    }
  }

  lemma ItemState(node: Node, L: Ledger, id: MessageID, a: Address)
    requires Consistent(node, L) && InFullScan(node, L, id, a)
    ensures HistoryItemOf(node, a, id).Item?
    ensures var state := HistoryItemOf(node, a, id).item.ledgerInclusionState;
            Applied(node, id) <==> state == Included || state == Migrated
  {
    hide Consistent, HistoryItemOf, HasMetadata, TakesFrom, GivesTo, MigratesTo, AllInputsKnown, DecodeMetadata;
    AffectingItem(node, L, id, a);
  }

  /** What a set of messages created at an address, less what they took. */
  ghost function NetOf(L: Ledger, messages: set<MessageID>, a: Address): int
    requires ValidLedger(L)
  {
    LedgerSum(L, CreatedAt(L, messages, a)) as int - LedgerSum(L, TakenAt(L, messages, a)) as int
  }

  ghost predicate AllSumsFit(node: Node, L: Ledger, a: Address)
    requires ValidLedger(L)
  {
    forall id: MessageID :: Applied(node, id) ==> SumsFit(L, id, a)
  }

  /** Equal in 64-bit arithmetic, and equal when nothing overflows. */
  ghost predicate AddsUp(sum: int, net: int, exact: bool) {
    Wrap64(sum) == Wrap64(net) && (exact ==> sum == net)
  }

  lemma AddsUpNext(sum: int, net: int, exact: bool, change: int, more: int)
    requires AddsUp(sum, net, exact) && change == Wrap64(more) && (exact ==> Wrap64(more) == more)
    ensures AddsUp(sum + change, net + more, exact)
  {
    WrapSum(sum, change);
    WrapSum(net, more);
    WrapExact(change);
    hide Wrap64;
  }

  lemma NetNext(node: Node, L: Ledger, a: Address, ids: seq<MessageID>, n: nat)
    requires ValidLedger(L) && n < |ids| && forall i, j | 0 <= i < j < |ids| :: ids[i] != ids[j]
    ensures NetOf(L, AppliedIn(node, ids[..n + 1]), a) ==
            NetOf(L, AppliedIn(node, ids[..n]), a) + if Applied(node, ids[n]) then NetOf(L, {ids[n]}, a) else 0
  {
    AppliedNext(node, ids, n);
    hide ValidLedger, Applied, CreatedAt, TakenAt, LedgerSum, AppliedIn;
    if Applied(node, ids[n]) {
      CreatedSplit(L, AppliedIn(node, ids[..n]), ids[n], a);
    }
  }

  lemma SumNext(s: seq<HistoryItem>, n: nat)
    requires n < |s|
    ensures AppliedSum(s[..n + 1]) == AppliedSum(s[..n]) +
            if s[n].ledgerInclusionState == Included || s[n].ledgerInclusionState == Migrated then s[n].addressBalanceChange else 0
  {
    assert s[..n + 1][..n] == s[..n];
  }

  lemma {:induction false} PrefixSum(node: Node, L: Ledger, a: Address, s: seq<HistoryItem>, ids: seq<MessageID>, n: nat)
    requires Consistent(node, L) && ValidLedger(L) && ItemsOfMessages(node, L, a, s, ids) && n <= |s|
    ensures AddsUp(AppliedSum(s[..n]), NetOf(L, AppliedIn(node, ids[..n]), a), AllSumsFit(node, L, a))
  {
    hide Consistent, ValidLedger, InFullScan, HistoryItemOf, Applied, CreatedAt, TakenAt, LedgerSum, SumsFit, AppliedIn, Wrap64, AddsUp,
         AppliedSum;
    if n == 0 {
      NothingApplied(node, L, ids, a);
      assert AddsUp(0, 0, AllSumsFit(node, L, a)) by { NothingAddsUp(AllSumsFit(node, L, a)); }
      assert AppliedSum(s[..0]) == 0 by { NothingSummed(s); }
    } else {
      PrefixSum(node, L, a, s, ids, n - 1);
      NetNext(node, L, a, ids, n - 1);
      SumNext(s, n - 1);
      ItemState(node, L, ids[n - 1], a);
      if Applied(node, ids[n - 1]) {
        AppliedChange(node, L, ids[n - 1], a);
        AddsUpNext(AppliedSum(s[..n - 1]), NetOf(L, AppliedIn(node, ids[..n - 1]), a), AllSumsFit(node, L, a),
                   s[n - 1].addressBalanceChange, NetOf(L, {ids[n - 1]}, a));
      }
    }
  }

  lemma NothingAddsUp(exact: bool)
    ensures AddsUp(0, 0, exact)
  {
  }

  lemma NothingSummed(s: seq<HistoryItem>)
    ensures AppliedSum(s[..0]) == 0
  {
  }

  lemma PrefixSumAll(node: Node, L: Ledger, a: Address, s: seq<HistoryItem>, ids: seq<MessageID>)
    requires Consistent(node, L) && ValidLedger(L) && ItemsOfMessages(node, L, a, s, ids)
    ensures AddsUp(AppliedSum(s), NetOf(L, AppliedIn(node, ids), a), AllSumsFit(node, L, a))
  {
    hide *;
    assert s[..|s|] == s;
    assert |ids| == |s| by { SameCount(node, L, a, s, ids); }
    assert ids[..|s|] == ids;
    PrefixSum(node, L, a, s, ids, |s|);
  }

  lemma SameCount(node: Node, L: Ledger, a: Address, s: seq<HistoryItem>, ids: seq<MessageID>)
    requires ItemsOfMessages(node, L, a, s, ids)
    ensures |ids| == |s|
  {
  }

  lemma NothingApplied(node: Node, L: Ledger, ids: seq<MessageID>, a: Address)
    requires ValidLedger(L)
    ensures LedgerSum(L, CreatedAt(L, AppliedIn(node, ids[..0]), a)) == 0
    ensures LedgerSum(L, TakenAt(L, AppliedIn(node, ids[..0]), a)) == 0
  {
    assert AppliedIn(node, ids[..0]) == {};
    assert CreatedAt(L, {}, a) == {} && TakenAt(L, {}, a) == {};
  }

  ghost function OutputsAt(L: Ledger, ids: set<OutputID>, a: Address): (at: set<OutputID>)
    requires ids <= L.outputs.Keys
    ensures at <= L.outputs.Keys
  {
    set id | id in ids && L.outputs[id].address == a
  }

  /**
   Nothing of the address's past is gone: the messages that created its outputs and those
   that spent them are stored, and so is every output those messages took.
   */
  ghost predicate WholePast(node: Node, L: Ledger, a: Address)
    requires ValidLedger(L)
  {
    && (forall id | id in L.outputs && L.outputs[id].address == a ::
          L.outputs[id].messageID in node.messages && AllInputsKnown(node, L, L.outputs[id].messageID))
    && (forall id | id in L.spendings && L.outputs[id].address == a ::
          && MessageOfFirst(L, L.spendings[id].targetTransactionID).Some?
          && MessageOfFirst(L, L.spendings[id].targetTransactionID).value in node.messages
          && AllInputsKnown(node, L, MessageOfFirst(L, L.spendings[id].targetTransactionID).value))
  }

  lemma CreatorInScan(node: Node, L: Ledger, a: Address, o: OutputID)
    requires Consistent(node, L) && ValidLedger(L) && WholePast(node, L, a) && o in L.outputs && L.outputs[o].address == a
    ensures InFullScan(node, L, L.outputs[o].messageID, a) && Applied(node, L.outputs[o].messageID)
  {
    hide Consistent, ValidLedger, AllInputsKnown, HasMetadata, OutputIDOf, Affects;
    var id := L.outputs[o].messageID;
    assert CreatedFor(L, id, a);
    CreatedForAffects(node, L, id, a);
    ConsistentOutput(node, L, o);
  }

  lemma SpenderInScan(node: Node, L: Ledger, a: Address, o: OutputID)
    requires Consistent(node, L) && ValidLedger(L) && WholePast(node, L, a) && o in L.spendings && L.outputs[o].address == a
    ensures MessageOfFirst(L, L.spendings[o].targetTransactionID).Some?
    ensures var id := MessageOfFirst(L, L.spendings[o].targetTransactionID).value; InFullScan(node, L, id, a) && Applied(node, id)
  {
    hide Consistent, ValidLedger, AllInputsKnown, HasMetadata, OutputIDOf, Affects;
    var id := MessageOfFirst(L, L.spendings[o].targetTransactionID).value;
    assert SpentFrom(L, id, a);
    SpentFromAffects(node, L, id, a);
    ConsistentOutput(node, L, o);
  }

  /** With the whole past stored the applied messages of the history account for every output of the address. */
  lemma AppliedCoverAll(node: Node, L: Ledger, a: Address, applied: set<MessageID>)
    requires Consistent(node, L) && ValidLedger(L) && WholePast(node, L, a)
    requires forall id: MessageID :: InFullScan(node, L, id, a) && Applied(node, id) ==> id in applied
    ensures CreatedAt(L, applied, a) == OutputsAt(L, L.outputs.Keys, a)
    ensures TakenAt(L, applied, a) == OutputsAt(L, SpentIDs(L), a)
  {
    hide Consistent, InFullScan, Applied, WholePast, MessageOfFirst;
    forall o | o in L.outputs && L.outputs[o].address == a ensures o in CreatedAt(L, applied, a) {
      CreatorInScan(node, L, a, o);
    }
    forall o | o in L.spendings && L.outputs[o].address == a ensures o in TakenAt(L, applied, a) {
      SpenderInScan(node, L, a, o);
    }
  }

  lemma MessagesFor(node: Node, L: Ledger, n: nat, a: Address, s: seq<HistoryItem>) returns (ids: seq<MessageID>)
    requires forall x :: x in s ==> exists id: MessageID :: FoundUpTo(node, L, n, id, a) && HistoryItemOf(node, a, id) == Item(x)
    requires DistinctMessages(s)
    ensures ItemsOfMessages(node, L, a, s, ids)
  {
    hide InFullScan, HistoryItemOf, ScannedBefore, ConflictingTx;
    ids := [];
    while |ids| < |s|
      invariant |ids| <= |s|
      invariant forall i | 0 <= i < |ids| :: InFullScan(node, L, ids[i], a) && HistoryItemOf(node, a, ids[i]) == Item(s[i])
    {
      var x := s[|ids|];
      assert x in s;
      var id: MessageID :| FoundUpTo(node, L, n, id, a) && HistoryItemOf(node, a, id) == Item(x);
      ids := ids + [id];
    }
  }

  lemma MentionedMessage(node: Node, L: Ledger, a: Address, s: seq<HistoryItem>, ids: seq<MessageID>, id: MessageID)
    requires ItemsOfMessages(node, L, a, s, ids) && Mentions(s, id)
    ensures id in ids
  {
    hide InFullScan, HistoryItemOf, ToHex;
    var i :| 0 <= i < |s| && s[i].messageID == ToHex(id);
    ItemMessage(node, a, ids[i]);
    ToHexInjective(ids[i], id);
  }

  lemma AppliedFound(node: Node, L: Ledger, n: nat, id: MessageID, a: Address)
    requires InFullScan(node, L, id, a) && Applied(node, id)
    ensures FoundUpTo(node, L, n, id, a)
  {
    hide InFullScan, MetadataOf;
  }

  lemma MessagesOfHistory(node: Node, L: Ledger, table: Table, n: nat, a: Address) returns (ids: seq<MessageID>)
    requires Consistent(node, L) && RebuiltUpTo(node, table, n) && ValidLedger(L) && FirstOutputsKnown(L, a)
    ensures Buildable(node, table, a)
    ensures ItemsOfMessages(node, L, a, FreshHistory(node, table, a), ids)
    ensures forall id: MessageID :: InFullScan(node, L, id, a) && Applied(node, id) ==> id in ids
  {
    hide *;
    HistoryUpTo(node, L, table, n, a);
    ids := MessagesFor(node, L, n, a, FreshHistory(node, table, a));
    forall id: MessageID | InFullScan(node, L, id, a) && Applied(node, id) ensures id in ids {
      AppliedFound(node, L, n, id, a);
      MentionedMessage(node, L, a, FreshHistory(node, table, a), ids, id);
    }
  }

  lemma NetOfAll(node: Node, L: Ledger, a: Address, applied: set<MessageID>)
    requires Consistent(node, L) && ValidLedger(L) && WholePast(node, L, a)
    requires forall id: MessageID :: InFullScan(node, L, id, a) && Applied(node, id) ==> id in applied
    ensures NetOf(L, applied, a) == LedgerSum(L, OutputsAt(L, UnspentIDs(L), a))
  {
    hide Consistent, WholePast, LedgerSum, Applied, InFullScan, CreatedAt, TakenAt;
    AppliedCoverAll(node, L, a, applied);
    assert OutputsAt(L, L.outputs.Keys, a) == OutputsAt(L, UnspentIDs(L), a) + OutputsAt(L, SpentIDs(L), a);
    LedgerSumUnion(L, OutputsAt(L, UnspentIDs(L), a), OutputsAt(L, SpentIDs(L), a));
  }

  /**
   Balances telescope: with the whole past of an address stored, the balance changes of the
   included and migrated items of its history add up, in 64-bit arithmetic, to the total
   amount of its outputs in the unspent index, and exactly so when the sums of each message
   fit. Conflicts that a cancelled rebuild has lost do not matter.
   */
  lemma BalancesTelescope(node: Node, L: Ledger, table: Table, n: nat, a: Address)
    requires Consistent(node, L) && RebuiltUpTo(node, table, n) && ValidLedger(L) && WholePast(node, L, a)
    ensures Buildable(node, table, a)
    ensures Wrap64(AppliedSum(FreshHistory(node, table, a))) == Wrap64(LedgerSum(L, OutputsAt(L, UnspentIDs(L), a)))
    ensures AllSumsFit(node, L, a) ==> AppliedSum(FreshHistory(node, table, a)) == LedgerSum(L, OutputsAt(L, UnspentIDs(L), a))
  {
    hide Consistent, RebuiltUpTo, WholePast, AllSumsFit, FreshHistory, Buildable, AppliedSum, LedgerSum, Applied, InFullScan, HistoryItemOf,
         AppliedIn, NetOf, Wrap64, ItemsOfMessages, OutputsAt;
    PastKnowsFirstOutputs(node, L, a);
    var ids := MessagesOfHistory(node, L, table, n, a);
    PrefixSumAll(node, L, a, FreshHistory(node, table, a), ids);
    AppliedAreIn(node, ids);
    NetOfAll(node, L, a, AppliedIn(node, ids));
  }

  lemma AppliedAreIn(node: Node, ids: seq<MessageID>)
    ensures forall id: MessageID :: id in ids && Applied(node, id) ==> id in AppliedIn(node, ids)
  {
    hide Applied;
  }

  lemma PastKnowsFirstOutputs(node: Node, L: Ledger, a: Address)
    requires ValidLedger(L) && WholePast(node, L, a)
    ensures FirstOutputsKnown(L, a)
  {
    hide OutputIDOf, AllInputsKnown;
  }
}
