/** A CSV request, and the wrong page that a JSON request is then served. */
module Reordering {
  import opened KVStores
  import opened Marshalling
  import opened Ledgers
  import opened UtxoManager
  import opened Tangle
  import opened Hexadecimal
  import opened ConflictTable
  import opened Rebuild
  import opened HistoryItems
  import opened HistorySort
  import opened History
  import opened HistoryCache
  import opened HistoryRuns
  import opened Consistency
  import opened Completeness
  import opened Balances
  import opened Transfers

  /** Two requests for the first two items of an address, the first one for CSV. */
  ghost function CSVThenJSON(node: Node, table: Table, a: Address): seq<Exchange>
    requires HasLedgerIndex(node.utxo) && Buildable(node, table, a)
  {
    var left := AfterCSV(FreshHistory(node, table, a), 2);
    var csv, json := Request(a, 2, CSV), Request(a, 2, JSON);
    [ Exchange(csv, ResponseFor(node, csv, FirstPage(left, 2)), map[ToHex(a) := left]),
      Exchange(json, ResponseFor(node, json, FirstPage(left, 2)), map[ToHex(a) := left]) ]
  }

  lemma CSVThenJSONRuns(node: Node, table: Table, a: Address)
    requires HasLedgerIndex(node.utxo) && Buildable(node, table, a)
    ensures ServedRun(node, table, CSVThenJSON(node, table, a))
    ensures Widest(CSVThenJSON(node, table, a), 1, a) == 2
  {
    hide ToHex, Buildable, FreshHistory, AfterCSV, FirstPage, HasLedgerIndex, ResponseFor;
    var left := AfterCSV(FreshHistory(node, table, a), 2);
    assert map[][ToHex(a) := left] == map[ToHex(a) := left];
    assert map[ToHex(a) := left][ToHex(a) := left] == map[ToHex(a) := left];
  }

  /** The item of a message of the story in the history of the first owner. */
  ghost function StoryItem(s: Story, id: MessageID): HistoryItem
    requires s.Valid() && HistoryItemOf(s.Node(), s.a, id).Item?
  {
    HistoryItemOf(s.Node(), s.a, id).item
  }

  lemma StoryItems(s: Story)
    requires s.Valid()
    ensures InFullScan(s.Node(), s.Ledger(), s.m1, s.a) && InFullScan(s.Node(), s.Ledger(), s.m2, s.a)
    ensures HistoryItemOf(s.Node(), s.a, s.m1).Item? && HistoryItemOf(s.Node(), s.a, s.m2).Item?
    ensures StoryItem(s, s.m1).referencedByMilestoneIndex == 1 && StoryItem(s, s.m2).referencedByMilestoneIndex == 2
    ensures StoryItem(s, s.m1).ledgerInclusionState == Included && StoryItem(s, s.m2).ledgerInclusionState == Included
  {
    hide *;
    StoryConsistent(s);
    StoryPast(s, s.a);
    StoryFirst(s);
    CreatorInScan(s.Node(), s.Ledger(), s.a, s.First().outputID);
    SpenderInScan(s.Node(), s.Ledger(), s.a, s.First().outputID);
    StoryItemIndex(s, s.m1);
    StoryItemIndex(s, s.m2);
  }

  lemma StoryFirst(s: Story)
    requires s.Valid() && ValidLedger(s.Ledger())
    ensures var L, id := s.Ledger(), s.First().outputID;
            && id in L.outputs && id in L.spendings && L.outputs[id].address == s.a && L.outputs[id].messageID == s.m1
            && MessageOfFirst(L, L.spendings[id].targetTransactionID) == Some(s.m2)
  {
    StoryLedgerValid(s);
    hide ValidLedger, OutputIDOf;
  }

  lemma StoryItemIndex(s: Story, id: MessageID)
    requires s.Valid() && Consistent(s.Node(), s.Ledger()) && InFullScan(s.Node(), s.Ledger(), id, s.a) && id in {s.m1, s.m2}
    ensures HistoryItemOf(s.Node(), s.a, id).Item?
    ensures id == s.m1 ==> StoryItem(s, id).referencedByMilestoneIndex == 1
    ensures id == s.m2 ==> StoryItem(s, id).referencedByMilestoneIndex == 2
    ensures StoryItem(s, id).ledgerInclusionState == Included
  {
    hide Consistent, Story.Node, HistoryItemOf, Affects, AllInputsKnown, OutputIDOf, MessageOk, ReadableTx, Wrap64, ToHex, MetadataOf;
    StoryMessage(s, id);
    AffectingItem(s.Node(), s.Ledger(), id, s.a);
    assert s.IncludedMetadata(id).IsReferenced();
  }

  /** The history of the first owner: passing the tokens on, then receiving them. */
  lemma StoryHistory(s: Story)
    requires s.Valid()
    ensures HistoryItemOf(s.Node(), s.a, s.m1).Item? && HistoryItemOf(s.Node(), s.a, s.m2).Item?
    ensures var node, table := s.Node(), StoryTable();
            && ValidNode(node) && Exact(node, table) && Buildable(node, table, s.a)
            && FreshHistory(node, table, s.a) == [StoryItem(s, s.m2), StoryItem(s, s.m1)]
            && StoryItem(s, s.m1).ledgerInclusionState == Included && StoryItem(s, s.m2).ledgerInclusionState == Included
  {
    hide *;
    var node, L, table := s.Node(), s.Ledger(), StoryTable();
    StoryConsistent(s);
    StoryTableExact(s);
    StoryPast(s, s.a);
    PastKnowsFirstOutputs(node, L, s.a);
    HistoryComplete(node, L, table, s.a);
    StoryItems(s);
    var h, items := FreshHistory(node, table, s.a), [StoryItem(s, s.m2), StoryItem(s, s.m1)];
    forall x ensures x in h <==> x in items {
      if x in h {
        var id: MessageID :| InFullScan(node, L, id, s.a) && HistoryItemOf(node, s.a, id) == Item(x);
        InScanStored(node, L, id, s.a);
        StoryNodeParts(s);
        StoryMessages(s, id);
        ItemIs(s, id);
      }
      ItemIs(s, s.m1);
      ItemIs(s, s.m2);
    }
    TwoSorted(items[0], items[1]);
    SortedUnique(NewestFirst, h, items);
  }

  lemma ItemIs(s: Story, id: MessageID)
    requires s.Valid() && HistoryItemOf(s.Node(), s.a, id).Item?
    ensures HistoryItemOf(s.Node(), s.a, id) == Item(StoryItem(s, id))
  {
    hide HistoryItemOf, Story.Node;
  }

  lemma InScanStored(node: Node, L: Ledger, id: MessageID, a: Address)
    requires InFullScan(node, L, id, a)
    ensures id in node.messages
  {
  }

  lemma TwoSorted(x: HistoryItem, y: HistoryItem)
    requires x.referencedByMilestoneIndex > y.referencedByMilestoneIndex
    ensures Sorted(NewestFirst, [x, y]) && Sorted(OldestFirst, [y, x])
  {
  }

  /**
   After a CSV request for the two items of the first owner, a JSON request for the same
   items is served the same page, oldest first, although without a cache it is the reverse.
   */
  lemma SortedCacheServesWrongPage(s: Story)
    requires s.Valid()
    ensures HistoryItemOf(s.Node(), s.a, s.m1).Item? && HistoryItemOf(s.Node(), s.a, s.m2).Item?
    ensures var node, table := s.Node(), StoryTable();
            && ValidNode(node) && Exact(node, table) && Buildable(node, table, s.a)
            && var log, json := CSVThenJSON(node, table, s.a), Request(s.a, 2, JSON);
               && ServedRun(node, table, log) && log[1].request == json
               && UncachedPage(node, table, json) == [StoryItem(s, s.m2), StoryItem(s, s.m1)]
               && log[1].response.Served? && log[1].response.response.history == [StoryItem(s, s.m1), StoryItem(s, s.m2)]
               && StoryItem(s, s.m1) != StoryItem(s, s.m2)
  {
    StoryNodeValid(s);
    hide *;
    var node, table := s.Node(), StoryTable();
    StoryHistory(s);
    StoryItems(s);
    IndexStored(node);
    CSVThenJSONRuns(node, table, s.a);
    FreshDistinct(node, table, s.a);
    SwappedPage(node, table, s.a, StoryItem(s, s.m2), StoryItem(s, s.m1));
  }

  lemma SwappedPage(node: Node, table: Table, a: Address, x: HistoryItem, y: HistoryItem)
    requires HasLedgerIndex(node.utxo) && Buildable(node, table, a) && FreshHistory(node, table, a) == [x, y]
    requires DistinctMessages([x, y]) && x.referencedByMilestoneIndex > y.referencedByMilestoneIndex
    ensures var log, json := CSVThenJSON(node, table, a), Request(a, 2, JSON);
            && |log| == 2 && log[1].request == json
            && UncachedPage(node, table, json) == [x, y]
            && log[1].response.Served? && log[1].response.response.history == [y, x]
            && x != y
  {
    hide Buildable, FreshHistory, HasLedgerIndex, ToHex, Sort, Sorted, DistinctMessages;
    TwoSorted(x, y);
    assert multiset([x, y]) == multiset([y, x]);
    SortedPermutation(OldestFirst, [x, y], [y, x]);
    assert [x, y][..2] == [x, y] && [x, y][2..] == [];
    assert [y, x] + [] == [y, x] && [y, x][..2] == [y, x];
  }
}
