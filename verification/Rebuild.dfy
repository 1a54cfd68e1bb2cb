/**
 Keeping the lookup table up to date across starts, crashes and interrupted rebuilds, as a
 step machine over single key writes.
 */
module Rebuild {
  import opened ByteStrings
  import opened KVStores
  import opened Marshalling
  import opened MessageMetadata
  import opened Tangle
  import opened ConflictTable

  datatype Phase =
    | Down
    | Deleting
    | Scanning(begun: nat, todo: seq<Bytes>, failing: bool)
    | Marking(scanned: nat)
    | Flushing
    | Serving

  /**
   `tables` are the contents of the table after each write that may not be on disk yet,
   oldest first: writes become durable in order, and a crash falls back to any of them.
   */
  datatype State = State(node: Node, tables: seq<Table>, phase: Phase)

  ghost predicate WellFormed(s: State) {
    ValidNode(s.node) && s.tables != []
  }

  function Current(s: State): Table
    requires s.tables != []
  {
    s.tables[|s.tables| - 1]
  }

  function Written(s: State, t: Table, phase: Phase): State {
    State(s.node, s.tables + [t], phase)
  }

  function Moved(s: State, phase: Phase): State {
    s.(phase := phase)
  }

  /** What the status says, when it is long enough to be read. */
  function StatusOf(t: Table): Option<uint32> {
    if STATUS_KEY in t && |t[STATUS_KEY]| >= 4 then Some(DecodeUint32(t[STATUS_KEY][..4])) else None
  }

  // ----- steps -----

  ghost predicate Open(s: State, s': State)
    requires WellFormed(s)
  {
    && s.phase.Down?
    && s' == Moved(s, if StatusOf(Current(s)) == Some(LedgerIndex(s.node)) then Serving else Deleting)
  }

  ghost predicate DeleteOne(s: State, s': State)
    requires WellFormed(s)
  {
    && s.phase.Deleting?
    && exists k :: k in Current(s) && s' == Written(s, Current(s) - {k}, Deleting)
  }

  ghost predicate EndDelete(s: State, s': State)
    requires WellFormed(s)
  {
    s.phase.Deleting? && Current(s) == map[] && s' == Moved(s, Scanning(0, [], false))
  }

  ghost predicate BeginRow(s: State, s': State)
    requires WellFormed(s)
  {
    && s.phase.Scanning? && s.phase.todo == [] && !s.phase.failing
    && s.phase.begun < |Rows(s.node)|
    && var plan := RowPlan(s.node, s.phase.begun);
       s' == Moved(s, Scanning(s.phase.begun + 1, plan.keys, plan.failed))
  }

  ghost predicate SetEntry(s: State, s': State)
    requires WellFormed(s)
  {
    && s.phase.Scanning? && s.phase.todo != []
    && s' == Written(s, Current(s)[s.phase.todo[0] := []], s.phase.(todo := s.phase.todo[1..]))
  }

  ghost predicate EndScan(s: State, s': State)
    requires WellFormed(s)
  {
    && s.phase.Scanning? && s.phase.todo == [] && !s.phase.failing
    && s.phase.begun == |Rows(s.node)|
    && s' == Moved(s, Marking(s.phase.begun))
  }

  /** The scan stops early without reporting an error, so the rebuild goes on as if it were complete. */
  ghost predicate Cancel(s: State, s': State)
    requires WellFormed(s)
  {
    && s.phase.Scanning? && s.phase.todo == [] && !s.phase.failing
    && s.phase.begun < |Rows(s.node)|
    && s' == Moved(s, Marking(s.phase.begun))
  }

  ghost predicate Mark(s: State, s': State)
    requires WellFormed(s)
  {
    s.phase.Marking? && s' == Written(s, Current(s)[STATUS_KEY := LE(LedgerIndex(s.node), 4)], Flushing)
  }

  ghost predicate Flush(s: State, s': State)
    requires WellFormed(s)
  {
    s.phase.Flushing? && s' == State(s.node, [Current(s)], Serving)
  }

  ghost predicate Persist(s: State, s': State)
    requires WellFormed(s)
  {
    |s.tables| > 1 && s' == s.(tables := s.tables[1..])
  }

  /** A crash, an orderly stop, or giving up after an error. */
  ghost predicate GoDown(s: State, s': State)
    requires WellFormed(s)
  {
    exists i :: 0 <= i < |s.tables| && s' == State(s.node, [s.tables[i]], Down)
  }

  /** While the service is down the node may extend the database; the ledger index grows with it. */
  ghost predicate Advance(s: State, s': State)
    requires WellFormed(s)
  {
    && s.phase.Down? && ValidNode(s'.node)
    && LedgerIndex(s.node) < LedgerIndex(s'.node)
    && s' == s.(node := s'.node)
  }

  ghost predicate Next(s: State, s': State) {
    && WellFormed(s)
    && (|| Open(s, s') || DeleteOne(s, s') || EndDelete(s, s') || BeginRow(s, s') || SetEntry(s, s') || EndScan(s, s')
        || Mark(s, s') || Flush(s, s') || Persist(s, s') || GoDown(s, s') || Advance(s, s'))
  }

  ghost predicate CancelNext(s: State, s': State) {
    WellFormed(s) && Cancel(s, s')
  }

  ghost predicate Run(trace: seq<State>, cancelled: bool) {
    && trace != []
    && forall i | 0 <= i < |trace| - 1 :: Next(trace[i], trace[i + 1]) || (cancelled && CancelNext(trace[i], trace[i + 1]))
  }

  // ----- safety -----

  /** The table is exactly the one the node requires, and is marked with its ledger index. */
  ghost predicate Exact(node: Node, t: Table)
    requires ValidNode(node)
  {
    && NoRowFails(node, |Rows(node)|)
    && IsTable(t, AllEntries(node), Some(LedgerIndex(node)))
  }

  /** The table holds the entries of the first `n` rows, none of which failed, and is marked as complete. */
  ghost predicate RebuiltUpTo(node: Node, t: Table, n: nat)
    requires ValidNode(node)
  {
    && n <= |Rows(node)|
    && NoRowFails(node, n)
    && IsTable(t, Entries(node, n), Some(LedgerIndex(node)))
  }

  ghost predicate Stale(node: Node, t: Table)
    requires ValidNode(node)
  {
    STATUS_KEY in t ==> |t[STATUS_KEY]| == 4 && DecodeUint32(t[STATUS_KEY]) < LedgerIndex(node)
  }

  /** A table that can be trusted to say itself whether it is up to date. */
  ghost predicate Good(node: Node, t: Table)
    requires ValidNode(node)
  {
    Stale(node, t) || Exact(node, t)
  }

  ghost predicate AllStale(node: Node, tables: seq<Table>)
    requires ValidNode(node)
  {
    forall i | 0 <= i < |tables| :: Stale(node, tables[i])
  }

  ghost predicate AllGood(node: Node, tables: seq<Table>)
    requires ValidNode(node)
  {
    forall i | 0 <= i < |tables| :: Good(node, tables[i])
  }

  ghost predicate Partial(node: Node, t: Table, n: nat, todo: seq<Bytes>)
    requires ValidNode(node) && n <= |Rows(node)|
  {
    && STATUS_KEY !in t
    && t.Keys + Elements(todo) == Entries(node, n)
    && forall k :: k in t ==> t[k] == []
  }

  ghost predicate Inv(s: State) {
    && WellFormed(s)
    && match s.phase
       case Down => |s.tables| == 1 && Good(s.node, s.tables[0])
       case Deleting => AllStale(s.node, s.tables)
       case Scanning(n, todo, failing) =>
         && AllStale(s.node, s.tables)
         && n <= |Rows(s.node)|
         && (failing ==> n > 0)
         && NoRowFails(s.node, if failing then n - 1 else n)
         && Partial(s.node, Current(s), n, todo)
       case Marking(n) =>
         && AllStale(s.node, s.tables)
         && n == |Rows(s.node)|
         && NoRowFails(s.node, n)
         && Partial(s.node, Current(s), n, [])
       case Flushing => AllGood(s.node, s.tables) && Exact(s.node, Current(s))
       case Serving => AllGood(s.node, s.tables) && Exact(s.node, Current(s))
  }

  lemma StatusLE(t: Table, index: uint32)
    requires STATUS_KEY in t && t[STATUS_KEY] == LE(index, 4)
    ensures StatusOf(t) == Some(index)
  {
    Uint32RoundTrip(index);
    assert LE(index, 4)[..4] == LE(index, 4);
  }

  /** The status alone decides: up to date exactly when exact. */
  lemma GoodStatus(node: Node, t: Table)
    requires ValidNode(node) && Good(node, t)
    ensures StatusOf(t) == Some(LedgerIndex(node)) <==> Exact(node, t)
  {
    hide NoRowFails, AllEntries;
    if Exact(node, t) {
      StatusLE(t, LedgerIndex(node));
    } else if STATUS_KEY in t {
      assert t[STATUS_KEY][..4] == t[STATUS_KEY];
    }
  }

  lemma OpenKeepsInv(s: State, s': State)
    requires Inv(s) && Open(s, s')
    ensures Inv(s')
  {
    hide Exact, ValidNode, LedgerIndex, StatusOf;
    GoodStatus(s.node, Current(s));
  }

  lemma DeleteKeepsInv(s: State, s': State)
    requires Inv(s) && (DeleteOne(s, s') || EndDelete(s, s'))
    ensures Inv(s')
  {
    hide Rows, RowPlan, ValidNode, LedgerIndex;
    if DeleteOne(s, s') {
      var k :| k in Current(s) && s' == Written(s, Current(s) - {k}, Deleting);
      assert Stale(s.node, Current(s) - {k});
    }
  }

  lemma BeginRowKeepsInv(s: State, s': State)
    requires Inv(s) && BeginRow(s, s')
    ensures Inv(s')
  {
    hide ValidNode, LedgerIndex, Rows, RowPlan, Stale;
    var n := s.phase.begun;
    assert Elements([]) == {};
    assert Partial(s.node, Current(s'), n + 1, s'.phase.todo);
  }

  lemma {:induction false} InputPlanLengths(store: Store, id: MessageID, inputs: seq<TxInput>)
    ensures forall k :: k in PlanInputs(store, id, inputs).keys ==> |k| == 65
  {
    if inputs != [] {
      InputPlanLengths(store, id, inputs[..|inputs| - 1]);
      hide InputAddress;
    }
  }

  lemma {:induction false} OutputPlanLengths(id: MessageID, outputs: seq<TxOutput>)
    ensures forall k :: k in PlanOutputs(id, outputs).keys ==> |k| == 65
  {
    if outputs != [] {
      OutputPlanLengths(id, outputs[..|outputs| - 1]);
    }
  }

  lemma RowPlanLengths(node: Node, id: MessageID)
    requires id in node.metadata
    ensures forall k :: k in PlanRow(node, id).keys ==> |k| == 65
  {
    hide DecodeMetadata, PlanInputs, PlanOutputs;
    if id in node.messages && EssenceOf(node.messages[id]).Some? {
      var e := EssenceOf(node.messages[id]).value;
      InputPlanLengths(node.utxo, id, e.inputs);
      OutputPlanLengths(id, e.outputs);
    }
  }

  /** No entry is ever taken for the status. */
  lemma StatusIsNoEntry(node: Node, n: nat)
    requires ValidNode(node) && n <= |Rows(node)|
    ensures STATUS_KEY !in Entries(node, n)
  {
    EntryRow(node, n, STATUS_KEY);
    hide Entries, PlanRow;
    if STATUS_KEY in Entries(node, n) {
      var i :| 0 <= i < n && STATUS_KEY in RowPlan(node, i).keys;
      RowPlanLengths(node, Rows(node)[i]);
    }
  }

  lemma WrittenStale(s: State, t: Table, phase: Phase)
    requires WellFormed(s) && AllStale(s.node, s.tables) && STATUS_KEY !in t
    ensures AllStale(s.node, Written(s, t, phase).tables)
  {
    hide ValidNode, LedgerIndex;
  }

  lemma PartialNext(node: Node, t: Table, n: nat, todo: seq<Bytes>)
    requires ValidNode(node) && n <= |Rows(node)| && Partial(node, t, n, todo) && todo != []
    ensures Partial(node, t[todo[0] := []], n, todo[1..])
  {
    hide ValidNode, Rows;
    StatusIsNoEntry(node, n);
    hide Entries;
    assert todo == [todo[0]] + todo[1..];
    assert Elements(todo) == {todo[0]} + Elements(todo[1..]);
    assert todo[0] in Elements(todo);
  }

  lemma SetEntryKeepsInv(s: State, s': State)
    requires Inv(s) && SetEntry(s, s')
    ensures Inv(s')
  {
    hide ValidNode, LedgerIndex, Rows, Entries, NoRowFails, Stale, AllStale, Partial;
    var n, todo := s.phase.begun, s.phase.todo;
    PartialNext(s.node, Current(s), n, todo);
    PartialUnmarked(s.node, Current(s'), n, todo[1..]);
    WrittenStale(s, Current(s'), s'.phase);
  }

  lemma PartialUnmarked(node: Node, t: Table, n: nat, todo: seq<Bytes>)
    requires ValidNode(node) && n <= |Rows(node)| && Partial(node, t, n, todo)
    ensures STATUS_KEY !in t
  {
  }

  lemma MarkedTable(node: Node, t: Table, n: nat)
    requires ValidNode(node) && n <= |Rows(node)| && Partial(node, t, n, [])
    ensures IsTable(t[STATUS_KEY := LE(LedgerIndex(node), 4)], Entries(node, n), Some(LedgerIndex(node)))
  {
    hide ValidNode, LedgerIndex, Rows, Entries;
    StatusIsNoEntry(node, n);
    assert Elements([]) == {};
  }

  lemma MarkedExact(node: Node, t: Table)
    requires ValidNode(node) && NoRowFails(node, |Rows(node)|) && Partial(node, t, |Rows(node)|, [])
    ensures Exact(node, t[STATUS_KEY := LE(LedgerIndex(node), 4)])
  {
    hide ValidNode, LedgerIndex, Rows, Entries, NoRowFails, IsTable, LE;
    MarkedTable(node, t, |Rows(node)|);
  }

  lemma MarkKeepsInv(s: State, s': State)
    requires Inv(s) && Mark(s, s')
    ensures Inv(s')
  {
    hide ValidNode, LedgerIndex, Rows, Entries, NoRowFails, Stale, Partial, Exact;
    MarkedExact(s.node, Current(s));
  }

  lemma EndsKeepInv(s: State, s': State)
    requires Inv(s) && (EndScan(s, s') || Flush(s, s') || Persist(s, s'))
    ensures Inv(s')
  {
    hide ValidNode, LedgerIndex, Rows, NoRowFails, Stale, Partial, Exact;
    if Persist(s, s') {
      assert forall i | 0 <= i < |s'.tables| :: s'.tables[i] == s.tables[i + 1];
    }
  }

  lemma AnyTableGood(s: State, i: nat)
    requires Inv(s) && i < |s.tables|
    ensures Good(s.node, s.tables[i])
  {
    hide ValidNode, LedgerIndex, Rows, NoRowFails, Stale, Partial, Exact;
  }

  lemma GoDownKeepsInv(s: State, s': State)
    requires Inv(s) && GoDown(s, s')
    ensures Inv(s')
  {
    hide ValidNode, Good;
    var i :| 0 <= i < |s.tables| && s' == State(s.node, [s.tables[i]], Down);
    AnyTableGood(s, i);
  }

  lemma AdvanceKeepsInv(s: State, s': State)
    requires Inv(s) && Advance(s, s')
    ensures Inv(s')
  {
    hide ValidNode, LedgerIndex, Exact;
    if Exact(s.node, s.tables[0]) {
      ExactStatus(s.node, s.tables[0]);
    }
  }

  lemma ExactStatus(node: Node, t: Table)
    requires ValidNode(node) && Exact(node, t)
    ensures STATUS_KEY in t && |t[STATUS_KEY]| == 4 && DecodeUint32(t[STATUS_KEY]) == LedgerIndex(node)
  {
    hide ValidNode, LedgerIndex, NoRowFails, Entries;
    Uint32RoundTrip(LedgerIndex(node));
  }

  lemma NextKeepsInv(s: State, s': State)
    requires Inv(s) && Next(s, s')
    ensures Inv(s')
  {
    hide Inv, WellFormed, Open, DeleteOne, EndDelete, BeginRow, SetEntry, EndScan, Mark, Flush, Persist, GoDown, Advance;
    if Open(s, s') {
      OpenKeepsInv(s, s');
    } else if DeleteOne(s, s') || EndDelete(s, s') {
      DeleteKeepsInv(s, s');
    } else if BeginRow(s, s') {
      BeginRowKeepsInv(s, s');
    } else if SetEntry(s, s') {
      SetEntryKeepsInv(s, s');
    } else if Mark(s, s') {
      MarkKeepsInv(s, s');
    } else if EndScan(s, s') || Flush(s, s') || Persist(s, s') {
      EndsKeepInv(s, s');
    } else if GoDown(s, s') {
      GoDownKeepsInv(s, s');
    } else {
      AdvanceKeepsInv(s, s');
    }
  }

  lemma {:induction false} RunKeepsInv(trace: seq<State>, n: nat)
    requires Run(trace, false) && Inv(trace[0]) && n < |trace|
    ensures Inv(trace[n])
  {
    hide Inv, Next, CancelNext;
    if n != 0 {
      RunKeepsInv(trace, n - 1);
      assert Next(trace[n - 1], trace[(n - 1) + 1]);
      NextKeepsInv(trace[n - 1], trace[n]);
    }
  }

  /**
   Over every run without a cancelled scan, whatever crashes, restarts and partial
   deletions it holds: a status equal to the ledger index means an exact table, and the
   service only ever answers from an exact table.
   */
  lemma RebuildSafe(trace: seq<State>, n: nat)
    requires Run(trace, false) && n < |trace|
    requires WellFormed(trace[0]) && trace[0].phase.Down? && |trace[0].tables| == 1 && Good(trace[0].node, trace[0].tables[0])
    ensures WellFormed(trace[n])
    ensures forall t :: t in trace[n].tables && StatusOf(t) == Some(LedgerIndex(trace[n].node)) ==> Exact(trace[n].node, t)
    ensures trace[n].phase.Serving? ==> Exact(trace[n].node, Current(trace[n]))
  {
    RunKeepsInv(trace, n);
    var s := trace[n];
    forall t | t in s.tables && StatusOf(t) == Some(LedgerIndex(s.node)) ensures Exact(s.node, t) {
      var i :| 0 <= i < |s.tables| && s.tables[i] == t;
      AnyTableGood(s, i);
      GoodStatus(s.node, t);
    }
  }
}
