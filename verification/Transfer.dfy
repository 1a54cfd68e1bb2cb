/** A node whose ledger is not empty: funds given to one address and passed on to another. */
module Transfers {
  import opened ByteStrings
  import opened KVStores
  import opened Marshalling
  import opened Records
  import opened Ledgers
  import opened UtxoManager
  import opened OutputsApi
  import opened MessageMetadata
  import opened Tangle
  import opened ConflictTable
  import opened Rebuild
  import opened Cancellation
  import opened History
  import opened Consistency
  import opened Balances
  import opened Encoding

  /**
   Transaction `t1` in message `m1` gives five tokens to `a` in milestone 1; `t2` in `m2`
   passes them on to `b` in milestone 2.
   */
  datatype Story = Story(m1: MessageID, m2: MessageID, t1: TransactionID, t2: TransactionID, a: Address, b: Address) {
    ghost predicate Valid() {
      m1 != m2 && t1 != t2 && a != b
    }

    function First(): Output {
      Output(OutputIDOf(t1, 0), m1, 0, a, 5)
    }

    function Second(): Output {
      Output(OutputIDOf(t2, 0), m2, 0, b, 5)
    }

    function Ledger(): Ledger {
      Ledgers.Ledger(map[First().outputID := First(), Second().outputID := Second()],
                     map[First().outputID := Spending(t2, 2)], map[], map[], 2)
    }

    function IncludedMetadata(id: MessageID): Metadata {
      Metadata(id, 3, 0, if id == m1 then 1 else 2, 0, 0, 0, 0, [])
    }

    function Messages(): map<MessageID, Payload> {
      map[m1 := Transaction(Some(t1), Some(Essence([], [SigLockedSingle(a, 5)]))),
          m2 := Transaction(Some(t2), Some(Essence([UTXOInput(First().outputID)], [SigLockedSingle(b, 5)])))]
    }

    ghost function Node(): Node
      requires Valid()
    {
      StoryLedgerValid(this);
      Tangle.Node(StoreOf(Ledger()), Messages(),
                  map[m1 := EncodeMetadata(IncludedMetadata(m1)), m2 := EncodeMetadata(IncludedMetadata(m2))],
                  map[1 := 0, 2 := 10])
    }
  }

  lemma StoryLedgerValid(s: Story)
    requires s.Valid()
    ensures ValidLedger(s.Ledger())
    ensures s.First().outputID != s.Second().outputID
    ensures s.Ledger().outputs[s.First().outputID] == s.First() && s.Ledger().outputs[s.Second().outputID] == s.Second()
  {
    OutputIDOfInjective(s.t1, 0, s.t2, 0);
    hide OutputIDOf;
  }

  lemma StoryNodeParts(s: Story)
    requires s.Valid()
    ensures ValidLedger(s.Ledger())
    ensures s.Node().utxo == StoreOf(s.Ledger()) && s.Node().messages == s.Messages()
    ensures forall key :: key in s.Node().metadata ==> |key| == 32
  {
    hide StoreOf, EncodeMetadata, OutputIDOf;
    StoryLedgerValid(s);
  }

  lemma StoryNodeValid(s: Story)
    requires s.Valid()
    ensures ValidNode(s.Node()) && Represents(s.Node().utxo, s.Ledger())
  {
    StoryNodeParts(s);
    hide *;
    EveryLedgerStored(s.Ledger());
    LedgerIndexRepresented(s.Node().utxo, s.Ledger());
    ValidNodeParts(s.Node());
  }

  lemma StoryMessage(s: Story, id: MessageID)
    requires s.Valid() && id in {s.m1, s.m2}
    ensures var node := s.Node();
            && id in node.messages
            && MetadataOf(node, id) == Ok(s.IncludedMetadata(id))
            && IncludedTx(node, id) && !ConflictingTx(node, id) && !Migration(node, id)
            && MessageOk(node, id) && ReadableTx(node.messages[id])
  {
    hide StoreOf, OutputIDOf, EncodeMetadata, DecodeMetadata;
    MetadataRoundTrip(s.IncludedMetadata(id));
  }

  /** Each message put its output into the ledger, and the second one spent what it took. */
  lemma StoryIncluded(s: Story, id: MessageID)
    requires s.Valid() && id in {s.m1, s.m2}
    ensures IncludedTx(s.Node(), id) && ReadableTx(s.Node().messages[id]) && IncludedOk(s.Node(), s.Ledger(), id)
  {
    hide *;
    StoryMessage(s, id);
    StoryNodeParts(s);
    StoryIncludedLedger(s, s.Node(), id);
  }

  lemma StoryIncludedLedger(s: Story, node: Node, id: MessageID)
    requires s.Valid() && id in {s.m1, s.m2} && node.messages == s.Messages()
    requires IncludedTx(node, id) && ReadableTx(node.messages[id])
    ensures IncludedOk(node, s.Ledger(), id)
  {
    hide OutputIDOf, IncludedTx, ReadableTx;
    StoryLedgerValid(s);
    hide ValidLedger;
    assert |Outputs(s.Messages()[id])| == 1 && |Inputs(s.Messages()[id])| <= 1;
  }

  lemma StoryOrigins(s: Story, node: Node, id: OutputID)
    requires s.Valid() && id in s.Ledger().outputs && node.messages == s.Messages()
    requires IncludedTx(node, s.m1) && IncludedTx(node, s.m2)
    ensures OriginOk(node, s.Ledger(), id)
  {
    hide OutputIDOf, IncludedTx, Migration;
    StoryLedgerValid(s);
    hide ValidLedger;
    assert |Outputs(s.Messages()[s.m1])| == 1 && |Outputs(s.Messages()[s.m2])| == 1;
  }

  lemma StorySpenders(s: Story, node: Node, id: OutputID)
    requires s.Valid() && id in s.Ledger().spendings && node.messages == s.Messages()
    requires IncludedTx(node, s.m2)
    ensures SpenderOk(node, s.Ledger(), id)
  {
    hide OutputIDOf, IncludedTx;
    StoryLedgerValid(s);
    hide ValidLedger;
    assert Inputs(s.Messages()[s.m2])[0] == UTXOInput(s.First().outputID);
  }

  lemma StoryMessages(s: Story, id: MessageID)
    ensures id in s.Messages() <==> id in {s.m1, s.m2}
  {
  }

  /** The guarantees of the writer hold of a ledger with a spent and an unspent output. */
  lemma StoryConsistent(s: Story)
    requires s.Valid()
    ensures Consistent(s.Node(), s.Ledger())
  {
    hide *;
    var node, L := s.Node(), s.Ledger();
    StoryNodeValid(s);
    StoryNodeParts(s);
    StoryMessage(s, s.m1);
    StoryMessage(s, s.m2);
    forall id | id in node.messages
      ensures MessageOk(node, id) && !Migration(node, id)
      ensures IncludedTx(node, id) && ReadableTx(node.messages[id]) && IncludedOk(node, L, id)
    {
      StoryMessages(s, id);
      StoryMessage(s, id);
      StoryIncluded(s, id);
    }
    forall id | id in L.outputs ensures OriginOk(node, L, id) {
      StoryOrigins(s, node, id);
    }
    forall id | id in L.spendings ensures SpenderOk(node, L, id) {
      StorySpenders(s, node, id);
    }
    ConsistentParts(node, L);
  }

  // ----- what its histories add up to -----

  /** With nothing in conflict the exact table holds its status alone. */
  ghost function StoryTable(): Table {
    map[STATUS_KEY := LE(2, 4)]
  }

  lemma StoryRowPlan(s: Story, i: nat)
    requires s.Valid() && ValidNode(s.Node()) && i < |Rows(s.Node())|
    ensures RowPlan(s.Node(), i) == Plan([], false)
  {
    assert Rows(s.Node())[i] in Rows(s.Node());
    hide *;
    StoryMetadataKeys(s, Rows(s.Node())[i]);
    StoryMessage(s, Rows(s.Node())[i]);
    NoConflictPlan(s.Node(), i);
  }

  lemma NoConflictPlan(node: Node, i: nat)
    requires ValidNode(node) && i < |Rows(node)| && IncludedTx(node, Rows(node)[i]) && !ConflictingTx(node, Rows(node)[i])
    ensures RowPlan(node, i) == Plan([], false)
  {
    hide Rows, ValidNode, DecodeMetadata;
  }

  lemma StoryMetadataKeys(s: Story, key: Bytes)
    requires s.Valid()
    ensures key in s.Node().metadata ==> key in {s.m1, s.m2}
  {
    hide StoreOf, EncodeMetadata, OutputIDOf;
  }

  lemma {:induction false} StoryEntries(s: Story, n: nat)
    requires s.Valid() && ValidNode(s.Node()) && n <= |Rows(s.Node())|
    ensures Entries(s.Node(), n) == {} && NoRowFails(s.Node(), n)
  {
    hide Story.Node, ValidNode, Rows, RowPlan;
    forall i | 0 <= i < n ensures RowPlan(s.Node(), i) == Plan([], false) {
      StoryRowPlan(s, i);
    }
    if n != 0 {
      StoryEntries(s, n - 1);
      assert Elements([]) == {};
    }
  }

  lemma StoryTableExact(s: Story)
    requires s.Valid()
    ensures ValidNode(s.Node()) && Exact(s.Node(), StoryTable())
  {
    hide *;
    StoryNodeValid(s);
    LedgerIndexRepresented(s.Node().utxo, s.Ledger());
    StoryEntries(s, |Rows(s.Node())|);
    assert s.Ledger().index == 2 by { StoryIndex(s); }
    EmptyTableExact(s.Node());
  }

  lemma StoryIndex(s: Story)
    ensures s.Ledger().index == 2
  {
  }

  lemma EmptyTableExact(node: Node)
    requires ValidNode(node) && LedgerIndexOf(node.utxo) == 2
    requires Entries(node, |Rows(node)|) == {} && NoRowFails(node, |Rows(node)|)
    ensures Exact(node, StoryTable())
  {
    hide ValidNode, Rows, Entries, NoRowFails, LE, LedgerIndexOf;
  }

  lemma StoryPast(s: Story, x: Address)
    requires s.Valid()
    ensures ValidLedger(s.Ledger()) && WholePast(s.Node(), s.Ledger(), x)
  {
    StoryNodeParts(s);
    StoryLedgerValid(s);
    StoryPastParts(s, s.Node(), x);
  }

  lemma StoryPastParts(s: Story, node: Node, x: Address)
    requires s.Valid() && ValidLedger(s.Ledger()) && node.messages == s.Messages()
    ensures WholePast(node, s.Ledger(), x)
  {
    StoryLedgerValid(s);
    hide ValidLedger, OutputIDOf;
    assert AllInputsKnown(node, s.Ledger(), s.m1);
    assert AllInputsKnown(node, s.Ledger(), s.m2);
    assert MessageOfFirst(s.Ledger(), s.t2) == Some(s.m2);
  }

  lemma {:induction false} SmallSum(L: Ledger, ids: set<OutputID>)
    requires ids <= L.outputs.Keys && forall id :: id in L.outputs ==> L.outputs[id].amount <= 5
    ensures LedgerSum(L, ids) <= 5 * |ids|
    decreases ids
  {
    if ids != {} {
      var id :| id in ids && LedgerSum(L, ids) == L.outputs[id].amount + LedgerSum(L, ids - {id});
      SmallSum(L, ids - {id});
    }
  }

  lemma StorySumsFit(s: Story, id: MessageID, x: Address)
    requires s.Valid() && ValidLedger(s.Ledger())
    ensures SumsFit(s.Ledger(), id, x)
  {
    var L := s.Ledger();
    StoryLedgerValid(s);
    hide ValidLedger, OutputIDOf, MessageOfFirst;
    var created, taken, both := CreatedAt(L, {id}, x), TakenAt(L, {id}, x), {s.First().outputID, s.Second().outputID};
    SmallSum(L, created);
    SmallSum(L, taken);
    SubsetSize(created, both);
    SubsetSize(taken, both);
  }

  lemma StoryAllSumsFit(s: Story, x: Address)
    requires s.Valid() && ValidLedger(s.Ledger())
    ensures AllSumsFit(s.Node(), s.Ledger(), x)
  {
    hide SumsFit, Applied, ValidLedger, Story.Ledger, Story.Node;
    forall id: MessageID ensures SumsFit(s.Ledger(), id, x) {
      StorySumsFit(s, id, x);
    }
  }

  lemma {:induction false} SubsetSize<T>(a: set<T>, b: set<T>)
    requires a <= b
    ensures |a| <= |b|
  {
    if x :| x in a {
      SubsetSize(a - {x}, b - {x});
    }
  }

  /** The funds left the first address and are all at the second one. */
  lemma StoryBalances(s: Story)
    requires s.Valid()
    ensures var node, table := s.Node(), StoryTable();
            && ValidNode(node) && Exact(node, table)
            && Buildable(node, table, s.a) && AppliedSum(FreshHistory(node, table, s.a)) == 0
            && Buildable(node, table, s.b) && AppliedSum(FreshHistory(node, table, s.b)) == 5
  {
    StoryUnspent(s);
    hide *;
    var node, L, table := s.Node(), s.Ledger(), StoryTable();
    StoryConsistent(s);
    StoryTableExact(s);
    StoryPast(s, s.a);
    StoryPast(s, s.b);
    StoryAllSumsFit(s, s.a);
    StoryAllSumsFit(s, s.b);
    ExactIsRebuilt(node, table);
    BalancesTelescope(node, L, table, |Rows(node)|, s.a);
    BalancesTelescope(node, L, table, |Rows(node)|, s.b);
  }

  lemma StoryUnspent(s: Story)
    requires s.Valid()
    ensures UnspentIDs(s.Ledger()) <= s.Ledger().outputs.Keys
    ensures LedgerSum(s.Ledger(), OutputsAt(s.Ledger(), UnspentIDs(s.Ledger()), s.a)) == 0
    ensures LedgerSum(s.Ledger(), OutputsAt(s.Ledger(), UnspentIDs(s.Ledger()), s.b)) == 5
  {
    var L := s.Ledger();
    StoryLedgerValid(s);
    hide ValidLedger, OutputIDOf;
    assert OutputsAt(L, UnspentIDs(L), s.a) == {};
    assert OutputsAt(L, UnspentIDs(L), s.b) == {} + {s.Second().outputID};
    LedgerSumWith(L, {}, s.Second().outputID);
  }
}
