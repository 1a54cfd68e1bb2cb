/** Over all the addresses of a transaction the balance changes add up to what it created less what it took. */
module Conservation {
  import opened KVStores
  import opened Marshalling
  import opened Ledgers
  import opened Tangle
  import opened HistoryItems

  ghost function SumOver(addresses: set<Address>, f: Address -> int): int {
    if addresses == {} then
      0
    else
      var a :| a in addresses;
      f(a) + SumOver(addresses - {a}, f)
  }

  lemma {:induction false} SumOverSame(addresses: set<Address>, f: Address -> int, g: Address -> int)
    requires forall a :: a in addresses ==> f(a) == g(a)
    ensures SumOver(addresses, f) == SumOver(addresses, g)
    decreases addresses
  {
    if addresses != {} {
      var a :| a in addresses && SumOver(addresses, f) == f(a) + SumOver(addresses - {a}, f)
               && SumOver(addresses, g) == g(a) + SumOver(addresses - {a}, g);
      SumOverSame(addresses - {a}, f, g);
    }
  }

  /** Changing the summand at one address changes the sum by as much. */
  lemma {:induction false} SumOverPoint(addresses: set<Address>, f: Address -> int, g: Address -> int, x: Address, d: int)
    requires x in addresses
    requires forall a :: a in addresses ==> g(a) == f(a) + if a == x then d else 0
    ensures SumOver(addresses, g) == SumOver(addresses, f) + d
    decreases addresses
  {
    var a :| a in addresses && SumOver(addresses, f) == f(a) + SumOver(addresses - {a}, f)
             && SumOver(addresses, g) == g(a) + SumOver(addresses - {a}, g);
    if a == x {
      SumOverSame(addresses - {a}, f, g);
    } else {
      SumOverPoint(addresses - {a}, f, g, x, d);
    }
  }

  lemma {:induction false} SumOverMinus(addresses: set<Address>, f: Address -> int, g: Address -> int, h: Address -> int)
    requires forall a :: a in addresses ==> h(a) == f(a) - g(a)
    ensures SumOver(addresses, h) == SumOver(addresses, f) - SumOver(addresses, g)
    decreases addresses
  {
    if addresses != {} {
      var a :| a in addresses && SumOver(addresses, f) == f(a) + SumOver(addresses - {a}, f)
               && SumOver(addresses, g) == g(a) + SumOver(addresses - {a}, g)
               && SumOver(addresses, h) == h(a) + SumOver(addresses - {a}, h);
      SumOverMinus(addresses - {a}, f, g, h);
    }
  }

  lemma {:induction false} SumOverZero(addresses: set<Address>, f: Address -> int)
    requires forall a :: a in addresses ==> f(a) == 0
    ensures SumOver(addresses, f) == 0
    decreases addresses
  {
    if addresses != {} {
      var a :| a in addresses && SumOver(addresses, f) == f(a) + SumOver(addresses - {a}, f);
      SumOverZero(addresses - {a}, f);
    }
  }

  function AmountOf(t: Tally): nat {
    if t.Total? then t.amount else 0
  }

  function OutputsTo(outputs: seq<TxOutput>): Address -> int {
    (a: Address) => AmountOf(TallyOutputs(outputs, a))
  }

  function InputsFrom(store: Store, inputs: seq<TxInput>): Address -> int {
    (a: Address) => AmountOf(TallyInputs(store, inputs, a))
  }

  ghost predicate AllSupported(outputs: seq<TxOutput>) {
    forall i | 0 <= i < |outputs| :: !outputs[i].UnsupportedOutput?
  }

  ghost predicate AllKnown(store: Store, inputs: seq<TxInput>) {
    forall i | 0 <= i < |inputs| :: inputs[i].UTXOInput? && ReadOutput(store, inputs[i].outputID).Ok?
  }

  function TotalOut(outputs: seq<TxOutput>): nat {
    if outputs == [] then 0
    else
      var last := outputs[|outputs| - 1];
      TotalOut(outputs[..|outputs| - 1]) + if last.UnsupportedOutput? then 0 else last.amount
  }

  ghost function TotalIn(store: Store, inputs: seq<TxInput>): nat
    requires AllKnown(store, inputs)
  {
    if inputs == [] then 0
    else TotalIn(store, inputs[..|inputs| - 1]) + ReadOutput(store, inputs[|inputs| - 1].outputID).value.amount
  }

  lemma {:induction false} OutputsSum(outputs: seq<TxOutput>, addresses: set<Address>)
    requires AllSupported(outputs) && forall i | 0 <= i < |outputs| :: outputs[i].address in addresses
    ensures SumOver(addresses, OutputsTo(outputs)) == TotalOut(outputs)
    ensures forall a :: TallyOutputs(outputs, a).Total? && TallyOutputs(outputs, a).amount <= TotalOut(outputs)
  {
    if outputs == [] {
      SumOverZero(addresses, OutputsTo(outputs));
    } else {
      var front, last := outputs[..|outputs| - 1], outputs[|outputs| - 1];
      OutputsSum(front, addresses);
      SumOverPoint(addresses, OutputsTo(front), OutputsTo(outputs), last.address, last.amount);
    }
  }

  lemma {:induction false} InputsSum(store: Store, inputs: seq<TxInput>, addresses: set<Address>)
    requires AllKnown(store, inputs)
    requires forall i | 0 <= i < |inputs| :: ReadOutput(store, inputs[i].outputID).value.address in addresses
    ensures SumOver(addresses, InputsFrom(store, inputs)) == TotalIn(store, inputs)
    ensures forall a :: TallyInputs(store, inputs, a).Total? && TallyInputs(store, inputs, a).amount <= TotalIn(store, inputs)
  {
    hide ReadOutput;
    if inputs == [] {
      SumOverZero(addresses, InputsFrom(store, inputs));
    } else {
      var front, last := inputs[..|inputs| - 1], inputs[|inputs| - 1];
      InputsSum(store, front, addresses);
      var o := ReadOutput(store, last.outputID).value;
      SumOverPoint(addresses, InputsFrom(store, front), InputsFrom(store, inputs), o.address, o.amount);
    }
  }

  /** The balance change of each address, as the items of the transaction state it. */
  function Change(node: Node, e: Essence): Address -> int {
    (a: Address) => Wrap64(AmountOf(TallyOutputs(e.outputs, a)) - AmountOf(TallyInputs(node.utxo, e.inputs, a)))
  }

  lemma ChangeIsItsItem(node: Node, id: MessageID, e: Essence, a: Address)
    requires id in node.messages && EssenceOf(node.messages[id]) == Some(e) && HistoryItemOf(node, a, id).Item?
    ensures HistoryItemOf(node, a, id).item.addressBalanceChange == Change(node, e)(a)
  {
    hide Wrap64, TallyInputs, TallyOutputs, TallyFunds;
  }

  /**
   Conservation: with all inputs known, and the totals below 2^63, no address wraps around
   and the changes over all addresses add up to the outputs less the inputs.
   */
  lemma ChangesConserve(node: Node, e: Essence, addresses: set<Address>)
    requires AllKnown(node.utxo, e.inputs) && AllSupported(e.outputs)
    requires forall i | 0 <= i < |e.outputs| :: e.outputs[i].address in addresses
    requires forall i | 0 <= i < |e.inputs| :: ReadOutput(node.utxo, e.inputs[i].outputID).value.address in addresses
    requires TotalOut(e.outputs) < TWO_TO_THE_63 && TotalIn(node.utxo, e.inputs) < TWO_TO_THE_63
    ensures SumOver(addresses, Change(node, e)) == TotalOut(e.outputs) - TotalIn(node.utxo, e.inputs)
    ensures forall a :: Change(node, e)(a) == OutputsTo(e.outputs)(a) - InputsFrom(node.utxo, e.inputs)(a)
  {
    hide ReadOutput, TallyInputs, TallyOutputs, TotalOut, TotalIn, Wrap64;
    OutputsSum(e.outputs, addresses);
    InputsSum(node.utxo, e.inputs, addresses);
    forall a ensures Change(node, e)(a) == OutputsTo(e.outputs)(a) - InputsFrom(node.utxo, e.inputs)(a) {
      WrapExact(OutputsTo(e.outputs)(a) - InputsFrom(node.utxo, e.inputs)(a));
    }
    SumOverMinus(addresses, OutputsTo(e.outputs), InputsFrom(node.utxo, e.inputs), Change(node, e));
  }
}
