/** What a cancelled rebuild leaves behind, and exactly when that is still the right table. */
module Cancellation {
  import opened ByteStrings
  import opened KVStores
  import opened Marshalling
  import opened Records
  import opened MessageMetadata
  import opened Tangle
  import opened ConflictTable
  import opened Rebuild

  lemma PlanKeyEndsInID(node: Node, i: nat, k: Bytes)
    requires ValidNode(node) && i < |Rows(node)| && !RowPlan(node, i).failed && k in RowPlan(node, i).keys
    ensures |k| == 65 && k[33..] == Rows(node)[i]
  {
    var id := Rows(node)[i];
    RowPlanKeys(node, id, k);
    hide ConflictTouches, PlanRow;
    var a :| k == EntryKey(a, id) && ConflictTouches(node, id, a);
    EntryKeyInjective(a, id, a, id);
  }

  lemma EntriesGrow(node: Node, n: nat, k: Bytes)
    requires ValidNode(node) && n <= |Rows(node)| && k in Entries(node, n)
    ensures k in AllEntries(node)
  {
    EntryRow(node, n, k);
    EntryRow(node, |Rows(node)|, k);
    hide Rows, RowPlan, Entries, ValidNode;
    var i :| 0 <= i < n && k in RowPlan(node, i).keys;
  }

  /** Rows of different messages never share an entry. */
  lemma LaterEntry(node: Node, n: nat, i: nat, k: Bytes)
    requires ValidNode(node) && n <= i < |Rows(node)| && NoRowFails(node, |Rows(node)|)
    requires k in RowPlan(node, i).keys
    ensures k in AllEntries(node) && k !in Entries(node, n)
  {
    EntryRow(node, |Rows(node)|, k);
    EntryRow(node, n, k);
    hide RowPlan, Entries, ValidNode;
    if k in Entries(node, n) {
      var j :| 0 <= j < n && k in RowPlan(node, j).keys;
      PlanKeyEndsInID(node, i, k);
      PlanKeyEndsInID(node, j, k);
      AscendingDistinct(Rows(node), i, j);
    }
  }

  lemma StoppedTable(node: Node, t: Table, n: nat)
    requires ValidNode(node) && n <= |Rows(node)| && NoRowFails(node, |Rows(node)|)
    requires IsTable(t, Entries(node, n), Some(LedgerIndex(node)))
    ensures Exact(node, t) <==> Entries(node, n) == AllEntries(node)
  {
    StatusIsNoEntry(node, n);
    StatusIsNoEntry(node, |Rows(node)|);
    hide LedgerIndex, Rows, Entries, ValidNode, NoRowFails;
    if Exact(node, t) {
      SameWithout(Entries(node, n), AllEntries(node), STATUS_KEY);
    }
  }

  lemma SameWithout(a: set<Bytes>, b: set<Bytes>, k: Bytes)
    requires k !in a && k !in b && a + {k} == b + {k}
    ensures a == b
  {
    forall x ensures x in a <==> x in b {
      assert x in a + {k} <==> x in b + {k};
    }
  }

  /**
   A rebuild that stopped before row `n` and was marked complete is exact if and only if
   none of the rows from `n` on fails or requires an entry.
   */
  lemma StoppedRebuildExactIff(node: Node, t: Table, n: nat)
    requires ValidNode(node) && RebuiltUpTo(node, t, n)
    ensures Exact(node, t) <==> forall i | n <= i < |Rows(node)| :: RowPlan(node, i) == Plan([], false)
  {
    if NoRowFails(node, |Rows(node)|) {
      StoppedTable(node, t, n);
      hide LedgerIndex, Rows, RowPlan, ValidNode, Exact, IsTable;
      if i :| n <= i < |Rows(node)| && RowPlan(node, i).keys != [] {
        LaterEntry(node, n, i, RowPlan(node, i).keys[0]);
      } else {
        NothingLater(node, n);
      }
    } else {
      hide LedgerIndex, Rows, RowPlan, ValidNode, IsTable;
    }
  }

  lemma NothingLater(node: Node, n: nat)
    requires ValidNode(node) && n <= |Rows(node)|
    requires forall i | n <= i < |Rows(node)| :: RowPlan(node, i).keys == []
    ensures Entries(node, n) == AllEntries(node)
  {
    hide LedgerIndex, Rows, RowPlan, ValidNode, Entries;
    forall k ensures k in Entries(node, n) <==> k in AllEntries(node) {
      EntryRow(node, |Rows(node)|, k);
      EntryRow(node, n, k);
      if k in Entries(node, n) {
        EntriesGrow(node, n, k);
      }
    }
  }

  /** A row requires an entry exactly when its message is a conflicting transaction that touches some address. */
  lemma RowRequiresEntry(node: Node, i: nat)
    requires ValidNode(node) && i < |Rows(node)| && !RowPlan(node, i).failed
    ensures RowPlan(node, i).keys != [] <==> exists a :: ConflictTouches(node, Rows(node)[i], a)
  {
    var id, keys := Rows(node)[i], RowPlan(node, i).keys;
    if keys != [] {
      RowPlanKeys(node, id, keys[0]);
    }
    if a :| ConflictTouches(node, id, a) {
      RowPlanKeys(node, id, EntryKey(a, id));
    }
  }

  lemma EntryOfRow(node: Node, i: nat, a: Address, id: MessageID)
    requires ValidNode(node) && i < |Rows(node)| && !RowPlan(node, i).failed
    ensures EntryKey(a, id) in RowPlan(node, i).keys <==> Rows(node)[i] == id && ConflictTouches(node, id, a)
  {
    var k, row := EntryKey(a, id), Rows(node)[i];
    RowPlanKeys(node, row, k);
    EntryKeyInjective(a, id, a, id);
    if k in RowPlan(node, i).keys {
      PlanKeyEndsInID(node, i, k);
      hide ConflictTouches, PlanRow, EntryKey, Rows;
      var b :| k == EntryKey(b, row) && ConflictTouches(node, row, b);
      EntryKeyInjective(a, id, b, row);
    }
  }

  lemma MarkedHolds(node: Node, t: Table, n: nat, k: Bytes)
    requires ValidNode(node) && RebuiltUpTo(node, t, n) && |k| == 65
    ensures k in t <==> exists i :: 0 <= i < n && k in RowPlan(node, i).keys
  {
    EntryRow(node, n, k);
    hide ValidNode, Rows, RowPlan, Entries, NoRowFails, LedgerIndex;
  }

  /** The message has one of the first `n` rows. */
  ghost predicate ScannedBefore(node: Node, n: nat, id: Bytes) {
    exists i :: 0 <= i < n && i < |Rows(node)| && Rows(node)[i] == id
  }

  /** Of the conflicts touching an address the table lists exactly those of the rows before it stopped. */
  lemma StoppedRebuildLists(node: Node, t: Table, n: nat, a: Address, id: MessageID)
    requires ValidNode(node) && RebuiltUpTo(node, t, n)
    ensures EntryKey(a, id) in t <==> ConflictTouches(node, id, a) && ScannedBefore(node, n, id)
  {
    MarkedHolds(node, t, n, EntryKey(a, id));
    hide Rows, RowPlan, ConflictTouches, IsTable, EntryKey, ValidNode, Entries;
    forall i | 0 <= i < n
      ensures EntryKey(a, id) in RowPlan(node, i).keys <==> Rows(node)[i] == id && ConflictTouches(node, id, a)
    {
      EntryOfRow(node, i, a, id);
    }
  }

  /** An exact table is one that was rebuilt up to the end. */
  lemma ExactIsRebuilt(node: Node, t: Table)
    requires ValidNode(node) && Exact(node, t)
    ensures RebuiltUpTo(node, t, |Rows(node)|)
  {
    hide ValidNode, Rows, Entries, NoRowFails, IsTable;
  }

  /** Every message with metadata has a row. */
  lemma RowOfMessage(node: Node, id: Bytes)
    requires id in node.metadata
    ensures ScannedBefore(node, |Rows(node)|, id)
  {
    assert id in Rows(node);
  }

  // ----- runs with cancelled scans -----

  ghost predicate Stopped(node: Node, t: Table)
    requires ValidNode(node)
  {
    exists n: nat :: RebuiltUpTo(node, t, n)
  }

  ghost predicate StaleOrStopped(node: Node, t: Table)
    requires ValidNode(node)
  {
    Stale(node, t) || Stopped(node, t)
  }

  ghost predicate AllStaleOrStopped(node: Node, tables: seq<Table>)
    requires ValidNode(node)
  {
    forall i | 0 <= i < |tables| :: StaleOrStopped(node, tables[i])
  }

  /** The invariant of runs that may be cancelled: it differs once a scan is over. */
  ghost predicate AnyInv(s: State) {
    && WellFormed(s)
    && match s.phase
       case Down => |s.tables| == 1 && StaleOrStopped(s.node, s.tables[0])
       case Deleting => Inv(s)
       case Scanning(_, _, _) => Inv(s)
       case Marking(n) =>
         && AllStale(s.node, s.tables)
         && n <= |Rows(s.node)|
         && NoRowFails(s.node, n)
         && Partial(s.node, Current(s), n, [])
       case Flushing => AllStaleOrStopped(s.node, s.tables) && Stopped(s.node, Current(s))
       case Serving => AllStaleOrStopped(s.node, s.tables) && Stopped(s.node, Current(s))
  }

  lemma StoppedStatus(node: Node, t: Table)
    requires ValidNode(node) && StaleOrStopped(node, t)
    ensures StatusOf(t) == Some(LedgerIndex(node)) <==> Stopped(node, t)
    ensures Stopped(node, t) ==> STATUS_KEY in t && |t[STATUS_KEY]| == 4 && DecodeUint32(t[STATUS_KEY]) == LedgerIndex(node)
    ensures !Stopped(node, t) ==> Stale(node, t)
  {
    hide ValidNode, LedgerIndex, NoRowFails, Rows, Entries, DecodeUint32, LE;
    if Stopped(node, t) {
      StatusLE(t, LedgerIndex(node));
      Uint32RoundTrip(LedgerIndex(node));
    } else if STATUS_KEY in t {
      assert t[STATUS_KEY][..4] == t[STATUS_KEY];
    }
  }

  lemma AnyTableStaleOrStopped(s: State, i: nat)
    requires AnyInv(s) && i < |s.tables|
    ensures StaleOrStopped(s.node, s.tables[i])
  {
    hide ValidNode, LedgerIndex, Rows, NoRowFails, Stale, Partial, Stopped;
  }

  lemma OpenKeepsAnyInv(s: State, s': State)
    requires AnyInv(s) && Open(s, s')
    ensures AnyInv(s')
  {
    hide Stopped, Stale, ValidNode, LedgerIndex, StatusOf;
    StoppedStatus(s.node, Current(s));
  }

  lemma ScanKeepsAnyInv(s: State, s': State)
    requires AnyInv(s)
    requires DeleteOne(s, s') || EndDelete(s, s') || BeginRow(s, s') || SetEntry(s, s')
    ensures AnyInv(s')
  {
    assert (s.phase.Deleting? || s.phase.Scanning?) && (s'.phase.Deleting? || s'.phase.Scanning?);
    hide Inv, DeleteOne, EndDelete, BeginRow, SetEntry, WellFormed;
    if DeleteOne(s, s') || EndDelete(s, s') {
      DeleteKeepsInv(s, s');
    } else if BeginRow(s, s') {
      BeginRowKeepsInv(s, s');
    } else {
      SetEntryKeepsInv(s, s');
    }
    InvWellFormed(s');
  }

  lemma InvWellFormed(s: State)
    requires Inv(s)
    ensures WellFormed(s)
  {
  }

  lemma MarkStops(node: Node, t: Table, n: nat)
    requires ValidNode(node) && n <= |Rows(node)| && NoRowFails(node, n) && Partial(node, t, n, [])
    ensures Stopped(node, t[STATUS_KEY := LE(LedgerIndex(node), 4)])
  {
    MarkedTable(node, t, n);
    hide ValidNode, LedgerIndex, Rows, Entries, NoRowFails, IsTable, LE;
    assert RebuiltUpTo(node, t[STATUS_KEY := LE(LedgerIndex(node), 4)], n);
  }

  lemma MarkKeepsAnyInv(s: State, s': State)
    requires AnyInv(s) && Mark(s, s')
    ensures AnyInv(s')
  {
    hide ValidNode, LedgerIndex, Rows, Entries, NoRowFails, Stale, Partial, Stopped;
    MarkStops(s.node, Current(s), s.phase.scanned);
  }

  lemma EndsKeepAnyInv(s: State, s': State)
    requires AnyInv(s) && (EndScan(s, s') || Cancel(s, s') || Flush(s, s') || Persist(s, s'))
    ensures AnyInv(s')
  {
    hide ValidNode, LedgerIndex, Rows, NoRowFails, Stale, Partial, Stopped;
    if Persist(s, s') {
      assert forall i | 0 <= i < |s'.tables| :: s'.tables[i] == s.tables[i + 1];
    }
  }

  lemma DownKeepsAnyInv(s: State, s': State)
    requires AnyInv(s) && (GoDown(s, s') || Advance(s, s'))
    ensures AnyInv(s')
  {
    hide ValidNode, LedgerIndex, Stopped, Inv;
    if GoDown(s, s') {
      var i :| 0 <= i < |s.tables| && s' == State(s.node, [s.tables[i]], Down);
      AnyTableStaleOrStopped(s, i);
    } else {
      StoppedStatus(s.node, s.tables[0]);
    }
  }

  lemma StepKeepsAnyInv(s: State, s': State)
    requires AnyInv(s) && (Next(s, s') || CancelNext(s, s'))
    ensures AnyInv(s')
  {
    hide AnyInv, WellFormed, Open, DeleteOne, EndDelete, BeginRow, SetEntry, EndScan, Cancel, Mark, Flush, Persist, GoDown, Advance;
    if CancelNext(s, s') {
      EndsKeepAnyInv(s, s');
    } else if Open(s, s') {
      OpenKeepsAnyInv(s, s');
    } else if DeleteOne(s, s') || EndDelete(s, s') || BeginRow(s, s') || SetEntry(s, s') {
      ScanKeepsAnyInv(s, s');
    } else if Mark(s, s') {
      MarkKeepsAnyInv(s, s');
    } else if EndScan(s, s') || Flush(s, s') || Persist(s, s') {
      EndsKeepAnyInv(s, s');
    } else {
      DownKeepsAnyInv(s, s');
    }
  }

  lemma {:induction false} RunKeepsAnyInv(trace: seq<State>, n: nat)
    requires Run(trace, true) && AnyInv(trace[0]) && n < |trace|
    ensures AnyInv(trace[n])
  {
    hide AnyInv, Next, CancelNext;
    if n != 0 {
      RunKeepsAnyInv(trace, n - 1);
      assert Next(trace[n - 1], trace[(n - 1) + 1]) || CancelNext(trace[n - 1], trace[(n - 1) + 1]);
      StepKeepsAnyInv(trace[n - 1], trace[n]);
    }
  }

  /**
   Over every run, with any cancelled scans, crashes and restarts: a status equal to the
   ledger index means a table rebuilt up to some row, and only such tables are served. What
   is served is exact if and only if no row from there on fails or requires an entry.
   */
  lemma AnyRunServesStopped(trace: seq<State>, n: nat)
    requires Run(trace, true) && n < |trace|
    requires WellFormed(trace[0]) && trace[0].phase.Down? && |trace[0].tables| == 1
    requires StaleOrStopped(trace[0].node, trace[0].tables[0])
    ensures WellFormed(trace[n])
    ensures forall t :: t in trace[n].tables && StatusOf(t) == Some(LedgerIndex(trace[n].node)) ==> Stopped(trace[n].node, t)
    ensures trace[n].phase.Serving? ==>
              var node, t := trace[n].node, Current(trace[n]);
              && Stopped(node, t)
              && forall m: nat :: RebuiltUpTo(node, t, m) ==>
                   (Exact(node, t) <==> forall i | m <= i < |Rows(node)| :: RowPlan(node, i) == Plan([], false))
  {
    hide Next, CancelNext, LedgerIndex, Rows, RowPlan, Exact, RebuiltUpTo, Stale, StatusOf;
    RunKeepsAnyInv(trace, n);
    var s := trace[n];
    forall t | t in s.tables && StatusOf(t) == Some(LedgerIndex(s.node)) ensures Stopped(s.node, t) {
      var i :| 0 <= i < |s.tables| && s.tables[i] == t;
      AnyTableStaleOrStopped(s, i);
      StoppedStatus(s.node, t);
    }
    if s.phase.Serving? {
      forall m: nat | RebuiltUpTo(s.node, Current(s), m)
        ensures Exact(s.node, Current(s)) <==> forall i | m <= i < |Rows(s.node)| :: RowPlan(s.node, i) == Plan([], false)
      {
        StoppedRebuildExactIff(s.node, Current(s), m);
      }
    }
  }

  ghost function MarkedEmpty(node: Node): Table
    requires ValidNode(node)
  {
    map[STATUS_KEY := LE(LedgerIndex(node), 4)]
  }

  /** First start on an empty table, cancelled before its first row, then a restart. */
  ghost function CancelledRun(node: Node): seq<State>
    requires ValidNode(node)
  {
    [ State(node, [map[]], Down),
      State(node, [map[]], Deleting),
      State(node, [map[]], Scanning(0, [], false)),
      State(node, [map[]], Marking(0)),
      State(node, [map[], MarkedEmpty(node)], Flushing),
      State(node, [MarkedEmpty(node)], Serving),
      State(node, [MarkedEmpty(node)], Down),
      State(node, [MarkedEmpty(node)], Serving) ]
  }

  lemma CancelledRunSteps(node: Node)
    requires ValidNode(node) && Rows(node) != []
    ensures Run(CancelledRun(node), true)
  {
    CancelledRunStops(node);
    CancelledRunRestarts(node);
    hide Next, CancelNext, ValidNode, Rows;
  }

  /** Up to the cancellation. */
  lemma CancelledRunStops(node: Node)
    requires ValidNode(node) && Rows(node) != []
    ensures var r := CancelledRun(node); Next(r[0], r[1]) && Next(r[1], r[2]) && CancelNext(r[2], r[3])
  {
    hide Rows, RowPlan, ValidNode, LedgerIndex, MarkedEmpty, DecodeUint32, LE;
    var r := CancelledRun(node);
    assert Open(r[0], r[1]) && EndDelete(r[1], r[2]) && Cancel(r[2], r[3]);
  }

  /** From the marking on. */
  lemma CancelledRunRestarts(node: Node)
    requires ValidNode(node)
    ensures var r := CancelledRun(node);
            Next(r[3], r[4]) && Next(r[4], r[5]) && Next(r[5], r[6]) && Next(r[6], r[7])
  {
    MarkedEmptyIs(node);
    StatusLE(MarkedEmpty(node), LedgerIndex(node));
    hide Rows, RowPlan, ValidNode, LedgerIndex, MarkedEmpty, StatusOf, LE;
    var r := CancelledRun(node);
    assert Mark(r[3], r[4]) by {
      assert r[4].tables == r[3].tables + [MarkedEmpty(node)];
    }
    assert Flush(r[4], r[5]);
    assert GoDown(r[5], r[6]) by {
      assert r[5].tables[0] == MarkedEmpty(node);
    }
    assert Open(r[6], r[7]);
  }

  lemma MarkedEmptyIs(node: Node)
    requires ValidNode(node)
    ensures MarkedEmpty(node) == map[][STATUS_KEY := LE(LedgerIndex(node), 4)]
  {
  }

  /**
   On every node with something to put in the table there is a run with one cancelled scan
   that serves a table missing all of it, and serves it again after a restart.
   */
  lemma CancelledRunServesInexact(node: Node)
    requires ValidNode(node) && AllEntries(node) != {}
    ensures var r := CancelledRun(node);
            && Run(r, true)
            && r[0] == State(node, [map[]], Down) && Good(node, map[])
            && r[5].phase.Serving? && !Exact(node, Current(r[5]))
            && r[7].phase.Serving? && !Exact(node, Current(r[7]))
  {
    MarkedEmptyInexact(node);
    hide Run, Rows, ValidNode, Exact, MarkedEmpty, LedgerIndex;
    CancelledRunSteps(node);
  }

  lemma MarkedEmptyInexact(node: Node)
    requires ValidNode(node) && AllEntries(node) != {}
    ensures Rows(node) != [] && !Exact(node, MarkedEmpty(node))
  {
    StatusIsNoEntry(node, |Rows(node)|);
    assert Entries(node, 0) == {};
    hide Rows, Entries, ValidNode, LedgerIndex;
    assert MarkedEmpty(node).Keys == {STATUS_KEY};
  }

  // ----- a concrete node -----

  function ConflictingMetadata(id: MessageID): Metadata {
    Metadata(id, 11, 0, 1, 1, 0, 0, 0, [])
  }

  /** One referenced, conflicting transaction with a single output. */
  function OneConflict(id: MessageID, owner: Address): Node {
    Node(map[[PREFIX_LEDGER_INDEX] := LE(1, 4)],
         map[id := Transaction(Some(id), Some(Essence([], [SigLockedSingle(owner, 1)])))],
         map[id := EncodeMetadata(ConflictingMetadata(id))],
         map[1 := 0])
  }

  /** Its conflict is missing from the table that the cancelled run goes on serving. */
  lemma OneConflictIsLost(id: MessageID, owner: Address)
    ensures var node := OneConflict(id, owner);
            && ValidNode(node) && AllEntries(node) != {}
            && ConflictTouches(node, id, owner)
            && EntryKey(owner, id) !in Current(CancelledRun(node)[7])
  {
    var node := OneConflict(id, owner);
    OneConflictTouches(id, owner);
    OneConflictPlan(id, owner);
    hide EncodeMetadata, ConflictTouches, PlanRow, Entries, CancelledRun;
    assert id in Rows(node);
    var i :| 0 <= i < |Rows(node)| && Rows(node)[i] == id;
    assert EntryKey(owner, id) in RowPlan(node, i).keys;
    EntryRow(node, |Rows(node)|, EntryKey(owner, id));
    LastServed(node, EntryKey(owner, id));
  }

  lemma LastServed(node: Node, k: Bytes)
    requires ValidNode(node) && |k| == 65
    ensures k !in Current(CancelledRun(node)[7])
  {
    hide ValidNode, LedgerIndex;
  }

  lemma OneConflictTouches(id: MessageID, owner: Address)
    ensures ConflictTouches(OneConflict(id, owner), id, owner)
  {
    MetadataRoundTrip(ConflictingMetadata(id));
    hide EncodeMetadata, DecodeMetadata;
    var e := Essence([], [SigLockedSingle(owner, 1)]);
    assert OutputAddress(e.outputs[0]) == Some(owner);
  }

  lemma OneConflictPlan(id: MessageID, owner: Address)
    ensures PlanRow(OneConflict(id, owner), id) == Plan([EntryKey(owner, id)], false)
  {
    MetadataRoundTrip(ConflictingMetadata(id));
    hide EncodeMetadata, DecodeMetadata, EntryKey;
    var e := Essence([], [SigLockedSingle(owner, 1)]);
    assert e.outputs[..0] == [];
    assert PlanOutputs(id, e.outputs) == Plan([] + [EntryKey(owner, id)], false);
  }
}
