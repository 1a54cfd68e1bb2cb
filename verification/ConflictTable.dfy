/**
 The lookup table of conflicting transactions: what a rebuild writes for each message, and
 what the table then answers.
 */
module ConflictTable {
  import opened ByteStrings
  import opened KVStores
  import opened Marshalling
  import opened MessageMetadata
  import opened Tangle

  /** The bytes of "status". */
  const STATUS_KEY: Bytes := [115, 116, 97, 116, 117, 115]

  function EntryKey(address: Address, id: MessageID): (key: Bytes)
    ensures |key| == 65
  {
    AddressBytes(address) + id
  }

  /** The two kinds of keys of the table, byte by byte. */
  lemma TableKeyBytes(address: Address, id: MessageID)
    ensures EntryKey(address, id) == [0] + address + id
    ensures |STATUS_KEY| == 6 && forall i | 0 <= i < 6 :: STATUS_KEY[i] as int == "status"[i] as int
  {
    assert AddressBytes(address) == [0] + address;
  }

  lemma EntryKeyInjective(a: Address, id: MessageID, a': Address, id': MessageID)
    ensures EntryKey(a, id) == EntryKey(a', id') <==> a == a' && id == id'
    ensures EntryKey(a, id)[33..] == id
    ensures AddressBytes(a') <= EntryKey(a, id) <==> a == a'
  {
    var k, k' := EntryKey(a, id), EntryKey(a', id');
    assert k[1..33] == a && k'[1..33] == a' && k[33..] == id && k'[33..] == id';
    assert AddressBytes(a')[1..] == a' && AddressBytes(a)[1..] == a;
    assert k[..33] == AddressBytes(a);
    assert AddressBytes(a') <= k <==> AddressBytes(a') == k[..33];
  }

  /** The entries to write for one message, in order, and whether the scan then ends in an error. */
  datatype Plan = Plan(keys: seq<Bytes>, failed: bool)

  function PlanInputs(store: Store, id: MessageID, inputs: seq<TxInput>): Plan {
    if inputs == [] then
      Plan([], false)
    else
      var p := PlanInputs(store, id, inputs[..|inputs| - 1]);
      var last := inputs[|inputs| - 1];
      if p.failed then p
      else if last.UnsupportedInput? then Plan(p.keys, true)
      else
        match InputAddress(store, last)
        case None => p
        case Some(a) => Plan(p.keys + [EntryKey(a, id)], false)
  }

  function PlanOutputs(id: MessageID, outputs: seq<TxOutput>): Plan {
    if outputs == [] then
      Plan([], false)
    else
      var p := PlanOutputs(id, outputs[..|outputs| - 1]);
      var last := outputs[|outputs| - 1];
      if p.failed then p
      else if last.UnsupportedOutput? then Plan(p.keys, true)
      else Plan(p.keys + [EntryKey(last.address, id)], false)
  }

  function PlanEssence(store: Store, id: MessageID, e: Essence): Plan {
    var p := PlanInputs(store, id, e.inputs);
    if p.failed then p
    else
      var q := PlanOutputs(id, e.outputs);
      Plan(p.keys + q.keys, q.failed)
  }

  function PlanRow(node: Node, id: MessageID): Plan
    requires id in node.metadata
  {
    match DecodeMetadata(id, node.metadata[id])
    case Err(_) => Plan([], true)
    case Ok(m) =>
      if !m.IsConflictingTx() then Plan([], false)
      else if id !in node.messages then Plan([], true)
      else
        match EssenceOf(node.messages[id])
        case None => Plan([], true)
        case Some(e) => PlanEssence(node.utxo, id, e)
  }

  lemma {:induction false} InputPlanFails(store: Store, id: MessageID, inputs: seq<TxInput>)
    ensures PlanInputs(store, id, inputs).failed <==> exists i :: 0 <= i < |inputs| && inputs[i].UnsupportedInput?
  {
    if inputs != [] {
      hide InputAddress, EntryKey;
      InputPlanFails(store, id, inputs[..|inputs| - 1]);
      assert forall i | 0 <= i < |inputs| - 1 :: inputs[..|inputs| - 1][i] == inputs[i];
    }
  }

  lemma {:induction false} OutputPlanFails(id: MessageID, outputs: seq<TxOutput>)
    ensures PlanOutputs(id, outputs).failed <==> exists i :: 0 <= i < |outputs| && outputs[i].UnsupportedOutput?
  {
    if outputs != [] {
      hide EntryKey;
      OutputPlanFails(id, outputs[..|outputs| - 1]);
      assert forall i | 0 <= i < |outputs| - 1 :: outputs[..|outputs| - 1][i] == outputs[i];
    }
  }

  /**
   A row fails if and only if its metadata is cut off, or it is marked as conflicting and its
   message is not stored, has no essence, or has an unsupported input or output.
   */
  lemma RowFailsIff(node: Node, id: MessageID)
    requires id in node.metadata
    ensures var data := node.metadata[id];
            PlanRow(node, id).failed <==>
            || |data| < 23 || |data| < 23 + 32 * data[22] as int
            || (data[0] as int / 8 % 2 == 1
                && (|| id !in node.messages
                    || EssenceOf(node.messages[id]).None?
                    || (exists i :: 0 <= i < |EssenceOf(node.messages[id]).value.inputs|
                                    && EssenceOf(node.messages[id]).value.inputs[i].UnsupportedInput?)
                    || (exists i :: 0 <= i < |EssenceOf(node.messages[id]).value.outputs|
                                    && EssenceOf(node.messages[id]).value.outputs[i].UnsupportedOutput?)))
  {
    var data := node.metadata[id];
    if Decodable(data) {
      FlagBits(DecodeMetadata(id, data).value);
      assert DecodeMetadata(id, data).value.flags == data[0];
    }
    hide HashesAt, DecodeUint32, ToInt32, PlanInputs, PlanOutputs, Metadata.HasBit;
    if id in node.messages && EssenceOf(node.messages[id]).Some? {
      InputPlanFails(node.utxo, id, EssenceOf(node.messages[id]).value.inputs);
      OutputPlanFails(id, EssenceOf(node.messages[id]).value.outputs);
    }
  }

  /** The metadata rows in the order the scan visits them. */
  function Rows(node: Node): (rows: seq<Bytes>)
    ensures Ascending(rows)
    ensures forall k :: k in rows <==> k in node.metadata
    ensures forall i | 0 <= i < |rows| :: rows[i] in node.metadata
  {
    var rows := Scan(node.metadata, []);
    assert forall i | 0 <= i < |rows| :: rows[i] in rows;
    rows
  }

  ghost function RowPlan(node: Node, i: nat): Plan
    requires ValidNode(node) && i < |Rows(node)|
  {
    PlanRow(node, Rows(node)[i])
  }

  ghost predicate NoRowFails(node: Node, n: nat)
    requires ValidNode(node) && n <= |Rows(node)|
  {
    forall i | 0 <= i < n :: !RowPlan(node, i).failed
  }

  ghost function Elements(keys: seq<Bytes>): set<Bytes> {
    set k | k in keys
  }

  /** The entries of the first `n` rows. */
  ghost function Entries(node: Node, n: nat): set<Bytes>
    requires ValidNode(node) && n <= |Rows(node)|
  {
    if n == 0 then {} else Entries(node, n - 1) + Elements(RowPlan(node, n - 1).keys)
  }

  ghost function AllEntries(node: Node): set<Bytes>
    requires ValidNode(node)
  {
    Entries(node, |Rows(node)|)
  }

  type Table = map<Bytes, Bytes>

  /** The table holds exactly these entries, and this status when there is one. */
  ghost predicate IsTable(table: Table, entries: set<Bytes>, status: Option<uint32>) {
    && table.Keys == entries + (if status.Some? then {STATUS_KEY} else {})
    && (forall k :: k in entries ==> table[k] == [])
    && (status.Some? ==> table[STATUS_KEY] == LE(status.value, 4))
  }

  // ----- entries are exactly what the conflicting messages require -----

  lemma {:induction false} InputPlanKeys(store: Store, id: MessageID, inputs: seq<TxInput>, k: Bytes)
    requires !PlanInputs(store, id, inputs).failed
    ensures k in PlanInputs(store, id, inputs).keys <==>
            exists i :: 0 <= i < |inputs| && InputAddress(store, inputs[i]).Some? && k == EntryKey(InputAddress(store, inputs[i]).value, id)
  {
    if inputs != [] {
      var front, last := inputs[..|inputs| - 1], inputs[|inputs| - 1];
      InputPlanKeys(store, id, front, k);
      hide EntryKey, InputAddress;
      assert forall i | 0 <= i < |front| :: front[i] == inputs[i];
      if k in PlanInputs(store, id, inputs).keys {
        if k in PlanInputs(store, id, front).keys {
          var i :| 0 <= i < |front| && InputAddress(store, front[i]).Some? && k == EntryKey(InputAddress(store, front[i]).value, id);
          assert inputs[i] == front[i];
        }
      }
    }
  }

  lemma {:induction false} OutputPlanKeys(id: MessageID, outputs: seq<TxOutput>, k: Bytes)
    requires !PlanOutputs(id, outputs).failed
    ensures k in PlanOutputs(id, outputs).keys <==>
            exists i :: 0 <= i < |outputs| && OutputAddress(outputs[i]).Some? && k == EntryKey(OutputAddress(outputs[i]).value, id)
  {
    if outputs != [] {
      var front, last := outputs[..|outputs| - 1], outputs[|outputs| - 1];
      OutputPlanKeys(id, front, k);
      hide EntryKey;
      assert forall i | 0 <= i < |front| :: front[i] == outputs[i];
      if k in PlanOutputs(id, outputs).keys {
        if k in PlanOutputs(id, front).keys {
          var i :| 0 <= i < |front| && OutputAddress(front[i]).Some? && k == EntryKey(OutputAddress(front[i]).value, id);
          assert outputs[i] == front[i];
        }
      }
    }
  }

  lemma EssencePlanKeys(store: Store, id: MessageID, e: Essence, k: Bytes)
    requires !PlanEssence(store, id, e).failed
    ensures k in PlanEssence(store, id, e).keys <==> exists a :: k == EntryKey(a, id) && Touches(store, e, a)
  {
    InputPlanKeys(store, id, e.inputs, k);
    OutputPlanKeys(id, e.outputs, k);
    hide EntryKey, InputAddress, OutputAddress, PlanInputs, PlanOutputs;
    if k in PlanInputs(store, id, e.inputs).keys {
      var i :| 0 <= i < |e.inputs| && InputAddress(store, e.inputs[i]).Some? && k == EntryKey(InputAddress(store, e.inputs[i]).value, id);
      assert Touches(store, e, InputAddress(store, e.inputs[i]).value);
    } else if k in PlanOutputs(id, e.outputs).keys {
      var i :| 0 <= i < |e.outputs| && OutputAddress(e.outputs[i]).Some? && k == EntryKey(OutputAddress(e.outputs[i]).value, id);
      assert Touches(store, e, OutputAddress(e.outputs[i]).value);
    }
    if a :| k == EntryKey(a, id) && Touches(store, e, a) {
      if i :| 0 <= i < |e.inputs| && InputAddress(store, e.inputs[i]) == Some(a) {
        assert k in PlanInputs(store, id, e.inputs).keys;
      } else {
        var i :| 0 <= i < |e.outputs| && OutputAddress(e.outputs[i]) == Some(a);
        assert k in PlanOutputs(id, e.outputs).keys;
      }
    }
  }

  lemma RowPlanKeys(node: Node, id: MessageID, k: Bytes)
    requires id in node.metadata && !PlanRow(node, id).failed
    ensures k in PlanRow(node, id).keys <==> exists a :: k == EntryKey(a, id) && ConflictTouches(node, id, a)
  {
    var m := DecodeMetadata(id, node.metadata[id]).value;
    hide EntryKey, DecodeMetadata, PlanEssence, Touches;
    if m.IsConflictingTx() {
      var e := EssenceOf(node.messages[id]).value;
      EssencePlanKeys(node.utxo, id, e, k);
      forall a ensures ConflictTouches(node, id, a) <==> Touches(node.utxo, e, a) {
      }
    }
  }

  lemma EntriesNext(node: Node, n: nat, k: Bytes)
    requires ValidNode(node) && n < |Rows(node)|
    ensures k in Entries(node, n + 1) <==> k in Entries(node, n) || k in RowPlan(node, n).keys
  {
    hide RowPlan, Rows;
  }

  lemma {:induction false} EntryRow(node: Node, n: nat, k: Bytes)
    requires ValidNode(node) && n <= |Rows(node)|
    ensures k in Entries(node, n) <==> exists i :: 0 <= i < n && k in RowPlan(node, i).keys
  {
    hide RowPlan, Rows, ValidNode;
    if n != 0 {
      EntryRow(node, n - 1, k);
      EntriesNext(node, n - 1, k);
      hide Entries;
      if k in Entries(node, n - 1) {
        var i :| 0 <= i < n - 1 && k in RowPlan(node, i).keys;
      }
    }
  }

  /** A completed scan requires exactly one entry per conflicting message and address it touches. */
  lemma EntriesExact(node: Node, a: Address, id: MessageID)
    requires ValidNode(node) && NoRowFails(node, |Rows(node)|)
    ensures EntryKey(a, id) in AllEntries(node) <==> ConflictTouches(node, id, a)
  {
    var k := EntryKey(a, id);
    EntryRow(node, |Rows(node)|, k);
    hide Entries, EntryKey, PlanRow, ConflictTouches;
    if k in AllEntries(node) {
      var i :| 0 <= i < |Rows(node)| && k in RowPlan(node, i).keys;
      RowPlanKeys(node, Rows(node)[i], k);
      var b :| k == EntryKey(b, Rows(node)[i]) && ConflictTouches(node, Rows(node)[i], b);
      EntryKeyInjective(a, id, b, Rows(node)[i]);
    }
    if ConflictTouches(node, id, a) {
      ConflictStored(node, id, a);
      assert id in Rows(node);
      var i :| 0 <= i < |Rows(node)| && Rows(node)[i] == id;
      assert !RowPlan(node, i).failed;
      RowPlanKeys(node, id, k);
    }
  }

  lemma ConflictStored(node: Node, id: MessageID, a: Address)
    requires ConflictTouches(node, id, a)
    ensures id in node.metadata && id in node.messages
  {
  }

  /** Whatever is in the table besides the status is an entry key of a message. */
  lemma EntryShape(node: Node, k: Bytes)
    requires ValidNode(node) && NoRowFails(node, |Rows(node)|) && k in AllEntries(node)
    ensures exists a, id :: k == EntryKey(a, id) && ConflictTouches(node, id, a)
  {
    EntryRow(node, |Rows(node)|, k);
    hide Entries, EntryKey, PlanRow, ConflictTouches;
    var i :| 0 <= i < |Rows(node)| && k in RowPlan(node, i).keys;
    RowPlanKeys(node, Rows(node)[i], k);
    var b :| k == EntryKey(b, Rows(node)[i]) && ConflictTouches(node, Rows(node)[i], b);
  }
}
