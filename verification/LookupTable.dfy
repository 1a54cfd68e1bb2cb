/**
 The rebuild of the lookup table as the program does it, key by key, and the queries on the
 finished table. The ghost trace ties every execution to a run of the step machine.
 */
module LookupTables {
  import opened ByteStrings
  import opened KVStores
  import opened Marshalling
  import opened Ledgers
  import opened MessageMetadata
  import opened Tangle
  import opened ConflictTable
  import opened Rebuild

  ghost function Last(trace: seq<State>): State
    requires trace != []
  {
    trace[|trace| - 1]
  }

  lemma {:induction false} InputPlanPrefix(store: Store, id: MessageID, inputs: seq<TxInput>, i: nat)
    requires i <= |inputs|
    ensures PlanInputs(store, id, inputs[..i]).keys <= PlanInputs(store, id, inputs).keys
    ensures PlanInputs(store, id, inputs[..i]).failed ==> PlanInputs(store, id, inputs) == PlanInputs(store, id, inputs[..i])
    decreases |inputs|
  {
    hide EntryKey, InputAddress;
    if i < |inputs| {
      var front := inputs[..|inputs| - 1];
      InputPlanPrefix(store, id, front, i);
      assert front[..i] == inputs[..i];
    } else {
      assert inputs[..i] == inputs;
    }
  }

  lemma {:induction false} OutputPlanPrefix(id: MessageID, outputs: seq<TxOutput>, i: nat)
    requires i <= |outputs|
    ensures PlanOutputs(id, outputs[..i]).keys <= PlanOutputs(id, outputs).keys
    ensures PlanOutputs(id, outputs[..i]).failed ==> PlanOutputs(id, outputs) == PlanOutputs(id, outputs[..i])
    decreases |outputs|
  {
    hide EntryKey;
    if i < |outputs| {
      var front := outputs[..|outputs| - 1];
      OutputPlanPrefix(id, front, i);
      assert front[..i] == outputs[..i];
    } else {
      assert outputs[..i] == outputs;
    }
  }

  /** The entries of the inputs from the `i`-th on. */
  ghost function RemainingInputs(store: Store, id: MessageID, inputs: seq<TxInput>, i: nat): seq<Bytes>
    requires i <= |inputs|
  {
    InputPlanPrefix(store, id, inputs, i);
    PlanInputs(store, id, inputs).keys[|PlanInputs(store, id, inputs[..i]).keys|..]
  }

  lemma InputStep(store: Store, id: MessageID, inputs: seq<TxInput>, i: nat)
    requires i < |inputs| && !PlanInputs(store, id, inputs[..i]).failed
    ensures inputs[i].UnsupportedInput? ==> PlanInputs(store, id, inputs).failed && RemainingInputs(store, id, inputs, i) == []
    ensures inputs[i].UTXOInput? ==>
              && !PlanInputs(store, id, inputs[..i + 1]).failed
              && RemainingInputs(store, id, inputs, i) ==
                 (match InputAddress(store, inputs[i]) case None => [] case Some(a) => [EntryKey(a, id)])
                 + RemainingInputs(store, id, inputs, i + 1)
  {
    hide EntryKey, InputAddress;
    InputPlanPrefix(store, id, inputs, i);
    InputPlanPrefix(store, id, inputs, i + 1);
    assert inputs[..i + 1][..i] == inputs[..i];
  }

  lemma InputEnds(store: Store, id: MessageID, inputs: seq<TxInput>)
    ensures !PlanInputs(store, id, inputs[..0]).failed
    ensures RemainingInputs(store, id, inputs, 0) == PlanInputs(store, id, inputs).keys
    ensures PlanInputs(store, id, inputs[..|inputs|]) == PlanInputs(store, id, inputs)
    ensures RemainingInputs(store, id, inputs, |inputs|) == []
  {
    assert inputs[..|inputs|] == inputs;
  }

  ghost function RemainingOutputs(id: MessageID, outputs: seq<TxOutput>, i: nat): seq<Bytes>
    requires i <= |outputs|
  {
    OutputPlanPrefix(id, outputs, i);
    PlanOutputs(id, outputs).keys[|PlanOutputs(id, outputs[..i]).keys|..]
  }

  lemma OutputStep(id: MessageID, outputs: seq<TxOutput>, i: nat)
    requires i < |outputs| && !PlanOutputs(id, outputs[..i]).failed
    ensures outputs[i].UnsupportedOutput? ==> PlanOutputs(id, outputs).failed && RemainingOutputs(id, outputs, i) == []
    ensures !outputs[i].UnsupportedOutput? ==>
              && !PlanOutputs(id, outputs[..i + 1]).failed
              && RemainingOutputs(id, outputs, i) == [EntryKey(outputs[i].address, id)] + RemainingOutputs(id, outputs, i + 1)
  {
    hide EntryKey;
    OutputPlanPrefix(id, outputs, i);
    OutputPlanPrefix(id, outputs, i + 1);
    assert outputs[..i + 1][..i] == outputs[..i];
  }

  lemma OutputEnds(id: MessageID, outputs: seq<TxOutput>)
    ensures !PlanOutputs(id, outputs[..0]).failed
    ensures RemainingOutputs(id, outputs, 0) == PlanOutputs(id, outputs).keys
    ensures PlanOutputs(id, outputs[..|outputs|]) == PlanOutputs(id, outputs)
    ensures RemainingOutputs(id, outputs, |outputs|) == []
  {
    assert outputs[..|outputs|] == outputs;
  }

  lemma RowsAreIDs(node: Node)
    requires ValidNode(node)
    ensures forall i | 0 <= i < |Rows(node)| :: |Rows(node)[i]| == 32
  {
  }

  lemma RunMayCancel(trace: seq<State>)
    requires Run(trace, false)
    ensures Run(trace, true)
  {
    hide Next, CancelNext;
  }

  lemma DeleteStep(s: State, k: Bytes)
    requires WellFormed(s) && s.phase.Deleting? && k in Current(s)
    ensures Next(s, Written(s, Current(s) - {k}, Deleting))
  {
    assert DeleteOne(s, Written(s, Current(s) - {k}, Deleting));
  }

  lemma DeletedStep(s: State)
    requires WellFormed(s) && s.phase.Deleting? && Current(s) == map[]
    ensures Next(s, Moved(s, Scanning(0, [], false)))
  {
    assert EndDelete(s, Moved(s, Scanning(0, [], false)));
  }

  class LookupTable {
    const node: Node
    var table: Table
    ghost var trace: seq<State>
    ghost var cancelled: bool

    ghost predicate Valid()
      reads this
    {
      && ValidNode(node)
      && trace != []
      && Run(trace, cancelled)
      && Last(trace).node == node
      && Last(trace).tables != []
      && Current(Last(trace)) == table
    }

    ghost function Phase(): Phase
      requires Valid()
      reads this
    {
      Last(trace).phase
    }

    /** During a scan the table and the entries still to write make up the rows begun so far. */
    ghost predicate Keeping()
      requires Valid()
      reads this
    {
      Phase().Scanning? && Phase().begun <= |Rows(node)| && Partial(node, table, Phase().begun, Phase().todo)
    }

    constructor (node: Node, table: Table)
      requires ValidNode(node)
      ensures Valid() && this.node == node && this.table == table && !cancelled
      ensures trace == [State(node, [table], Down)]
    {
      this.node := node;
      this.table := table;
      trace := [State(node, [table], Down)];
      cancelled := false;
    }

    ghost method Record(s: State)
      requires ValidNode(node) && Run(trace, cancelled)
      requires Next(Last(trace), s) || (cancelled && CancelNext(Last(trace), s))
      requires s.node == node && s.tables != [] && Current(s) == table
      modifies this`trace
      ensures Valid() && trace == old(trace) + [s]
    {
      hide Next, CancelNext;
      var t := trace + [s];
      forall i | 0 <= i < |t| - 1 ensures Next(t[i], t[i + 1]) || (cancelled && CancelNext(t[i], t[i + 1])) {
        if i < |trace| - 1 {
          assert t[i] == trace[i] && t[i + 1] == trace[i + 1];
        }
      }
      trace := t;
    }

    /** Deletes the old table, one key after the other in any order. */
    method DeleteAll()
      requires Valid() && Phase().Deleting?
      modifies this`table, this`trace
      ensures Valid() && old(trace) <= trace
      ensures Phase() == Scanning(0, [], false) && Keeping()
    {
      hide Run, ValidNode, Rows, RowPlan, Next, CancelNext;
      while table.Keys != {}
        invariant Valid() && Phase().Deleting? && old(trace) <= trace
        decreases |table|
      {
        var k :| k in table;
        ghost var s := Last(trace);
        table := table - {k};
        DeleteStep(s, k);
        Record(Written(s, table, Deleting));
      }
      DeletedStep(Last(trace));
      Record(Moved(Last(trace), Scanning(0, [], false)));
      assert Elements([]) == {};
    }

    method SetConflictEntry(address: Address, id: MessageID)
      requires Valid() && Keeping() && Phase().todo != [] && Phase().todo[0] == EntryKey(address, id)
      modifies this`table, this`trace
      ensures Valid() && old(trace) <= trace && Keeping()
      ensures Phase() == old(Phase()).(todo := old(Phase()).todo[1..])
    {
      ghost var s := Last(trace);
      PartialNext(node, table, s.phase.begun, s.phase.todo);
      hide Run, EntryKey, Partial, Rows, ValidNode;
      table := table[EntryKey(address, id) := []];
      assert SetEntry(s, Written(s, table, s.phase.(todo := s.phase.todo[1..])));
      Record(Written(s, table, s.phase.(todo := s.phase.todo[1..])));
    }

    method SetInputEntries(id: MessageID, inputs: seq<TxInput>, ghost rest: seq<Bytes>) returns (failed: bool)
      requires Valid() && Keeping() && Phase().todo == PlanInputs(node.utxo, id, inputs).keys + rest
      modifies this`table, this`trace
      ensures Valid() && old(trace) <= trace && Keeping()
      ensures Phase() == old(Phase()).(todo := rest) && failed == PlanInputs(node.utxo, id, inputs).failed
    {
      hide Run, EntryKey, Partial, Rows, ValidNode, PlanInputs, RemainingInputs, InputAddress;
      InputEnds(node.utxo, id, inputs);
      for i := 0 to |inputs|
        invariant Valid() && old(trace) <= trace && Keeping()
        invariant !PlanInputs(node.utxo, id, inputs[..i]).failed
        invariant Phase() == old(Phase()).(todo := RemainingInputs(node.utxo, id, inputs, i) + rest)
      {
        InputStep(node.utxo, id, inputs, i);
        match inputs[i] {
          case UnsupportedInput =>
            return true;
          case UTXOInput(outputID) =>
            var address := ReadKnownOutput(outputID);
            if address.Some? {
              SetConflictEntry(address.value, id);
            }
        }
      }
      failed := false;
    }

    method ReadKnownOutput(outputID: OutputID) returns (address: Option<Address>)
      ensures address == InputAddress(node.utxo, UTXOInput(outputID))
    {
      var output := ReadOutput(node.utxo, outputID);
      address := if output.Ok? then Some(output.value.address) else None;
    }

    method SetOutputEntries(id: MessageID, outputs: seq<TxOutput>) returns (failed: bool)
      requires Valid() && Keeping() && Phase().todo == PlanOutputs(id, outputs).keys
      modifies this`table, this`trace
      ensures Valid() && old(trace) <= trace && Keeping()
      ensures Phase() == old(Phase()).(todo := []) && failed == PlanOutputs(id, outputs).failed
    {
      hide Run, EntryKey, Partial, Rows, ValidNode, PlanOutputs, RemainingOutputs;
      OutputEnds(id, outputs);
      for i := 0 to |outputs|
        invariant Valid() && old(trace) <= trace && Keeping()
        invariant !PlanOutputs(id, outputs[..i]).failed
        invariant Phase() == old(Phase()).(todo := RemainingOutputs(id, outputs, i))
      {
        OutputStep(id, outputs, i);
        match outputs[i] {
          case UnsupportedOutput =>
            return true;
          case SigLockedSingle(address, _) =>
            SetConflictEntry(address, id);
          case SigLockedDustAllowance(address, _) =>
            SetConflictEntry(address, id);
        }
      }
      failed := false;
    }

    ghost method StartRow(n: nat)
      requires Valid() && Keeping() && n < |Rows(node)| && Phase() == Scanning(n, [], false)
      modifies this`trace
      ensures Valid() && old(trace) <= trace && Keeping()
      ensures Phase() == Scanning(n + 1, RowPlan(node, n).keys, RowPlan(node, n).failed)
    {
      hide Run, Rows, RowPlan, ValidNode;
      var plan := RowPlan(node, n);
      assert BeginRow(Last(trace), Moved(Last(trace), Scanning(n + 1, plan.keys, plan.failed)));
      Record(Moved(Last(trace), Scanning(n + 1, plan.keys, plan.failed)));
      assert Elements([]) == {};
    }

    /** One row of the metadata scan. */
    method ScanRow(id: MessageID, ghost n: nat) returns (failed: bool)
      requires Valid() && Keeping() && n < |Rows(node)| && Rows(node)[n] == id && Phase() == Scanning(n, [], false)
      modifies this`table, this`trace
      ensures Valid() && old(trace) <= trace && Keeping()
      ensures failed == RowPlan(node, n).failed && Phase() == Scanning(n + 1, [], failed)
    {
      hide Run, Rows, PlanInputs, PlanOutputs, DecodeMetadata, Partial, Next, CancelNext, Metadata.HasBit;
      ghost var plan := RowPlan(node, n);
      StartRow(n);
      assert plan == PlanRow(node, id);
      assert id[..32] == id;

      var meta := MetadataFactory(id, node.metadata[id]);
      if meta.Err? {
        return true;
      }
      // other messages write nothing
      if !meta.value.IsConflictingTx() {
        return false;
      }
      if id !in node.messages {
        return true;
      }
      var essence := EssenceOf(node.messages[id]);
      if essence.None? {
        return true;
      }
      ghost var p := PlanInputs(node.utxo, id, essence.value.inputs);
      ghost var q := PlanOutputs(id, essence.value.outputs);
      assert plan == PlanEssence(node.utxo, id, essence.value);
      assert p.failed ==> plan.keys == p.keys + [];
      failed := SetInputEntries(id, essence.value.inputs, if p.failed then [] else q.keys);
      if failed {
        return;
      }
      failed := SetOutputEntries(id, essence.value.outputs);
    }

    /** Marks the table with the ledger index and flushes it. */
    method FinishTable(ghost scanned: nat)
      requires Valid() && Keeping() && Phase() == Scanning(scanned, [], false)
      requires cancelled <==> scanned < |Rows(node)|
      modifies this`table, this`trace
      ensures Valid() && old(trace) <= trace && Phase().Serving?
      ensures IsTable(table, Entries(node, scanned), Some(LedgerIndex(node)))
    {
      hide Run, Rows, ValidNode, LedgerIndex, IsTable, Partial;
      MarkedTable(node, table, scanned);
      ghost var s := Last(trace);
      assert if cancelled then Cancel(s, Moved(s, Marking(scanned))) else EndScan(s, Moved(s, Marking(scanned)));
      Record(Moved(s, Marking(scanned)));
      s := Last(trace);
      table := table[STATUS_KEY := LE(LedgerIndex(node), 4)];
      assert Mark(s, Written(s, table, Flushing));
      Record(Written(s, table, Flushing));
      s := Last(trace);
      assert Flush(s, State(node, [table], Serving));
      Record(State(node, [table], Serving));
    }

    ghost method GiveUp()
      requires Valid()
      modifies this`trace
      ensures Valid() && old(trace) <= trace && Phase().Down?
    {
      hide Run, ValidNode;
      ghost var s := Last(trace);
      assert s.tables[|s.tables| - 1] == table && GoDown(s, State(node, [table], Down));
      Record(State(node, [table], Down));
    }

    /**
     The rebuild. `ctxDone(i)` says whether the context is found done before row `i`; the scan
     then stops but the table is marked as complete all the same.
     */
    method CreateLookupTable(ctxDone: nat -> bool) returns (ok: bool, ghost scanned: nat)
      requires Valid() && Phase().Deleting? && !cancelled
      modifies this
      ensures Valid() && old(trace) <= trace
      ensures if ok then Phase().Serving? else Phase().Down?
      ensures scanned <= |Rows(node)|
      ensures ok ==> RebuiltUpTo(node, table, scanned)
      ensures ok ==> forall i | 0 <= i < scanned :: !ctxDone(i)
      ensures ok ==> if cancelled then scanned < |Rows(node)| && ctxDone(scanned) else scanned == |Rows(node)|
      ensures !ok ==> scanned < |Rows(node)| && RowPlan(node, scanned).failed && !cancelled
    {
      hide Run, Next, CancelNext, RowPlan, Partial, ValidNode, LedgerIndex, IsTable, Entries;
      DeleteAll();
      RowsAreIDs(node);
      var rows := Rows(node);
      scanned := 0;
      var i := 0;
      while i < |rows|
        invariant 0 <= i == scanned <= |rows| && Valid() && old(trace) <= trace && !cancelled
        invariant Keeping() && Phase() == Scanning(i, [], false)
        invariant NoRowFails(node, i)
        invariant forall j | 0 <= j < i :: !ctxDone(j)
      {
        if ctxDone(i) {
          RunMayCancel(trace);
          cancelled := true;
          break;
        }
        var failed := ScanRow(rows[i], i);
        if failed {
          GiveUp();
          return false, scanned;
        }
        i := i + 1;
        scanned := scanned + 1;
      }
      FinishTable(scanned);
      ok := true;
    }

    /**
     Opening the database: the stored status decides whether the table is rebuilt first.
     A status shorter than four bytes makes the program panic.
     */
    method New(ctxDone: nat -> bool) returns (ok: bool)
      requires Valid() && !cancelled && Phase().Down? && |trace| == 1 && Last(trace).tables == [table]
      requires STATUS_KEY in table ==> |table[STATUS_KEY]| >= 4
      modifies this
      ensures Valid() && old(trace) <= trace
      ensures if ok then Phase().Serving? else Phase().Down?
      ensures old(StatusOf(table)) == Some(LedgerIndex(node)) ==> ok && !cancelled && table == old(table)
      ensures old(StatusOf(table)) != Some(LedgerIndex(node)) && ok ==>
                exists n: nat :: RebuiltUpTo(node, table, n) && (cancelled <==> n < |Rows(node)|) && (cancelled ==> ctxDone(n))
      ensures !ok ==> !NoRowFails(node, |Rows(node)|) && !cancelled
      ensures ok && old(Good(node, table)) && !cancelled ==> Exact(node, table)
      ensures (forall i :: !ctxDone(i)) ==> !cancelled
    {
      hide RowPlan, RebuiltUpTo, IsTable;
      ghost var s := Last(trace);
      var upToDate := StatusOf(table) == Some(LedgerIndex(node));
      assert Open(s, Moved(s, if upToDate then Serving else Deleting));
      Record(Moved(s, if upToDate then Serving else Deleting));
      if upToDate {
        ok := true;
      } else {
        ghost var scanned;
        ok, scanned := CreateLookupTable(ctxDone);
        assert ok ==> RebuiltUpTo(node, table, scanned);
      }
      if old(Good(node, table)) && ok && !cancelled {
        RebuildSafe(trace, |trace| - 1);
      }
    }
  }
}
