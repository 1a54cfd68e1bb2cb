/** Every ledger has a database: the documented layout, written out record by record. */
module Encoding {
  import opened ByteStrings
  import opened KVStores
  import opened Marshalling
  import opened Records
  import opened Ledgers
  import opened MilestoneDiffs

  /** The documented keys and values, with the numbers of their prefixes. */
  lemma DocumentedLayout(o: Output, s: Spending, index: uint32, treasury: Hash)
    ensures OutputKey(o.outputID) == [1] + o.outputID
    ensures OutputValue(o) == o.messageID + [o.outputType] + [0] + o.address + LE(o.amount, 8)
    ensures IndexKey(PREFIX_UNSPENT, o) == [2] + [0] + o.address + [o.outputType] + o.outputID
    ensures IndexKey(PREFIX_SPENT, o) == [3] + [0] + o.address + [o.outputType] + o.outputID
    ensures SpendingValue(s) == s.targetTransactionID + LE(s.confirmationIndex, 4)
    ensures DiffKey(index) == [4] + LE(index, 4)
    ensures TreasuryKey(treasury, false) == [6, 0] + treasury && TreasuryKey(treasury, true) == [6, 1] + treasury
    ensures PREFIX_LEDGER_INDEX == 0
  {
    hide LE;
  }

  ghost function OutputRows(L: Ledger): Store {
    assert forall id: OutputID :: OutputKey(id)[1..] == id;
    map id: OutputID | id in L.outputs :: OutputKey(id) := OutputValue(L.outputs[id])
  }

  ghost function UnspentRowsOf(L: Ledger): Store {
    map key | key in IndexKeys(L, PREFIX_UNSPENT, UnspentIDs(L)) :: []
  }

  ghost function SpentRowsOf(L: Ledger): Store
    requires ValidLedger(L)
  {
    IndexKeysNameOutputs(PREFIX_SPENT);
    map id: OutputID | id in L.spendings :: IndexKey(PREFIX_SPENT, L.outputs[id]) := SpendingValue(L.spendings[id])
  }

  lemma IndexKeysNameOutputs(tag: byte)
    ensures forall o {:trigger IndexKey(tag, o)} :: IndexKey(tag, o)[0] == tag && IndexKey(tag, o)[35..69] == o.outputID
  {
    hide IndexKey;
    forall o ensures IndexKey(tag, o)[0] == tag && IndexKey(tag, o)[35..69] == o.outputID {
      IndexKeyParts(tag, o);
    }
  }

  ghost function DiffRows(L: Ledger): Store {
    DiffKeysNameIndexes();
    map i: uint32 | i in L.diffs :: DiffKey(i) := DiffValue(L.diffs[i])
  }

  lemma DiffKeysNameIndexes()
    ensures forall i: uint32 {:trigger DiffKey(i)} ::
              |DiffKey(i)| == 5 && DiffKey(i)[0] == PREFIX_MILESTONE_DIFF && DecodeUint32(DiffKey(i)[1..]) == i
  {
    hide LE, DecodeUint32;
    forall i: uint32 ensures |DiffKey(i)| == 5 && DecodeUint32(DiffKey(i)[1..]) == i {
      DiffKeyIndex(i);
    }
  }

  ghost function TreasuryRows(L: Ledger): Store {
    TreasuryKeysNameIDs();
    map id: Hash | id in L.treasuries :: TreasuryKey(id, L.treasuries[id].spent) := LE(L.treasuries[id].amount, 8)
  }

  lemma TreasuryKeysNameIDs()
    ensures forall id: Hash, spent: bool {:trigger TreasuryKey(id, spent)} ::
              |TreasuryKey(id, spent)| == 34 && TreasuryKey(id, spent)[0] == PREFIX_TREASURY && TreasuryKey(id, spent)[2..] == id
  {
  }

  function IndexRow(L: Ledger): Store {
    map[[PREFIX_LEDGER_INDEX] := LE(L.index, 4)]
  }

  /** The database of a ledger. */
  ghost function StoreOf(L: Ledger): Store
    requires ValidLedger(L)
  {
    OutputRows(L) + UnspentRowsOf(L) + SpentRowsOf(L) + DiffRows(L) + TreasuryRows(L) + IndexRow(L)
  }

  ghost predicate Tagged(rows: Store, tag: byte) {
    forall k :: k in rows ==> k != [] && k[0] == tag
  }

  lemma OutputRowsTagged(L: Ledger)
    ensures Tagged(OutputRows(L), PREFIX_OUTPUT)
  {
    hide OutputValue;
  }

  lemma IndexRowsTagged(L: Ledger)
    requires ValidLedger(L)
    ensures Tagged(UnspentRowsOf(L), PREFIX_UNSPENT) && Tagged(SpentRowsOf(L), PREFIX_SPENT)
  {
    IndexKeysNameOutputs(PREFIX_UNSPENT);
    IndexKeysNameOutputs(PREFIX_SPENT);
    hide IndexKey, SpendingValue;
  }

  lemma DiffRowsTagged(L: Ledger)
    ensures Tagged(DiffRows(L), PREFIX_MILESTONE_DIFF)
  {
    hide DiffValue, LE, DecodeUint32;
    forall k | k in DiffRows(L) ensures k != [] && k[0] == PREFIX_MILESTONE_DIFF {
      var i: uint32 :| i in L.diffs && k == DiffKey(i);
    }
  }

  lemma TreasuryRowsTagged(L: Ledger)
    ensures Tagged(TreasuryRows(L), PREFIX_TREASURY)
  {
    hide LE;
    forall k | k in TreasuryRows(L) ensures k != [] && k[0] == PREFIX_TREASURY {
      var id: Hash :| id in L.treasuries && k == TreasuryKey(id, L.treasuries[id].spent);
    }
  }

  /** `k` has the same value, or none, in both. */
  ghost predicate SameAt(s: Store, t: Store, k: Bytes) {
    (k in s <==> k in t) && (k in s ==> s[k] == t[k])
  }

  lemma AtTag(outputs: Store, unspent: Store, spent: Store, diffs: Store, treasuries: Store, index: Store, k: Bytes)
    requires Tagged(outputs, PREFIX_OUTPUT) && Tagged(unspent, PREFIX_UNSPENT) && Tagged(spent, PREFIX_SPENT)
    requires Tagged(diffs, PREFIX_MILESTONE_DIFF) && Tagged(treasuries, PREFIX_TREASURY) && Tagged(index, PREFIX_LEDGER_INDEX)
    requires k != []
    ensures var s := outputs + unspent + spent + diffs + treasuries + index;
            && (k[0] == PREFIX_OUTPUT ==> SameAt(s, outputs, k))
            && (k[0] == PREFIX_UNSPENT ==> SameAt(s, unspent, k))
            && (k[0] == PREFIX_SPENT ==> SameAt(s, spent, k))
            && (k[0] == PREFIX_MILESTONE_DIFF ==> SameAt(s, diffs, k))
            && (k[0] == PREFIX_TREASURY ==> SameAt(s, treasuries, k))
            && (k[0] == PREFIX_LEDGER_INDEX ==> SameAt(s, index, k))
  {
  }

  /** Tables of different prefixes keep out of each other's way. */
  lemma RowByTag(L: Ledger, k: Bytes)
    requires ValidLedger(L) && k != []
    ensures k[0] == PREFIX_OUTPUT ==> SameAt(StoreOf(L), OutputRows(L), k)
    ensures k[0] == PREFIX_UNSPENT ==> SameAt(StoreOf(L), UnspentRowsOf(L), k)
    ensures k[0] == PREFIX_SPENT ==> SameAt(StoreOf(L), SpentRowsOf(L), k)
    ensures k[0] == PREFIX_MILESTONE_DIFF ==> SameAt(StoreOf(L), DiffRows(L), k)
    ensures k[0] == PREFIX_TREASURY ==> SameAt(StoreOf(L), TreasuryRows(L), k)
    ensures k[0] == PREFIX_LEDGER_INDEX ==> SameAt(StoreOf(L), IndexRow(L), k)
  {
    hide OutputRows, UnspentRowsOf, SpentRowsOf, DiffRows, TreasuryRows, LE, SameAt;
    OutputRowsTagged(L);
    IndexRowsTagged(L);
    DiffRowsTagged(L);
    TreasuryRowsTagged(L);
    AtTag(OutputRows(L), UnspentRowsOf(L), SpentRowsOf(L), DiffRows(L), TreasuryRows(L), IndexRow(L), k);
  }

  /** The rows under a one-byte prefix are those of its table. */
  lemma RowsUnder(L: Ledger, tag: byte, rows: Store)
    requires ValidLedger(L) && Tagged(rows, tag)
    requires forall k :: k != [] && k[0] == tag ==> SameAt(StoreOf(L), rows, k)
    ensures KeysUnder(StoreOf(L), [tag]) == rows.Keys
  {
    hide StoreOf;
    forall k ensures k in KeysUnder(StoreOf(L), [tag]) <==> k in rows {
      assert [tag] <= k <==> k != [] && k[0] == tag;
    }
  }

  lemma OutputsStored(L: Ledger)
    requires ValidLedger(L)
    ensures RepresentsOutputs(StoreOf(L), L)
  {
    hide StoreOf, OutputValue;
    forall id: OutputID
      ensures id in L.outputs <==> OutputKey(id) in StoreOf(L)
      ensures id in L.outputs ==> StoreOf(L)[OutputKey(id)] == OutputValue(L.outputs[id])
    {
      RowByTag(L, OutputKey(id));
      assert forall other: OutputID :: OutputKey(other)[1..] == other;
    }
  }

  lemma IndexesStored(L: Ledger)
    requires ValidLedger(L)
    ensures RepresentsIndexes(StoreOf(L), L)
  {
    hide StoreOf, IndexKey, SpendingValue, SameAt;
    IndexRowsTagged(L);
    forall k | k != []
      ensures k[0] == PREFIX_UNSPENT ==> SameAt(StoreOf(L), UnspentRowsOf(L), k)
      ensures k[0] == PREFIX_SPENT ==> SameAt(StoreOf(L), SpentRowsOf(L), k)
    {
      RowByTag(L, k);
    }
    RowsUnder(L, PREFIX_UNSPENT, UnspentRowsOf(L));
    RowsUnder(L, PREFIX_SPENT, SpentRowsOf(L));
    forall id | id in L.spendings
      ensures var key := IndexKey(PREFIX_SPENT, L.outputs[id]); key in StoreOf(L) && StoreOf(L)[key] == SpendingValue(L.spendings[id])
    {
      SpendingStored(L, id);
    }
  }

  lemma SpendingStored(L: Ledger, id: OutputID)
    requires ValidLedger(L) && id in L.spendings
    ensures var key := IndexKey(PREFIX_SPENT, L.outputs[id]); key in StoreOf(L) && StoreOf(L)[key] == SpendingValue(L.spendings[id])
  {
    IndexKeysNameOutputs(PREFIX_SPENT);
    RowByTag(L, IndexKey(PREFIX_SPENT, L.outputs[id]));
    hide StoreOf, IndexKey, SpendingValue;
  }

  lemma DiffRowAt(L: Ledger, i: uint32)
    ensures i in L.diffs <==> DiffKey(i) in DiffRows(L)
    ensures i in L.diffs ==> DiffRows(L)[DiffKey(i)] == DiffValue(L.diffs[i])
  {
    DiffKeysNameIndexes();
    hide DiffKey, DiffValue, DecodeUint32;
  }

  lemma DiffStored(L: Ledger, i: uint32)
    requires ValidLedger(L)
    ensures i in L.diffs <==> DiffKey(i) in StoreOf(L)
    ensures i in L.diffs ==> StoreOf(L)[DiffKey(i)] == DiffValue(L.diffs[i])
  {
    DiffRowAt(L, i);
    DiffKeyIndex(i);
    assert DiffKey(i)[0] == PREFIX_MILESTONE_DIFF;
    hide *;
    RowByTag(L, DiffKey(i));
    assert SameAt(StoreOf(L), DiffRows(L), DiffKey(i));
    SameAtMeans(StoreOf(L), DiffRows(L), DiffKey(i));
  }

  lemma SameAtMeans(s: Store, t: Store, k: Bytes)
    requires SameAt(s, t, k)
    ensures (k in s <==> k in t) && (k in s ==> s[k] == t[k])
  {
  }

  lemma TreasuryRowAt(L: Ledger, id: Hash)
    requires id in L.treasuries
    ensures var key := TreasuryKey(id, L.treasuries[id].spent); key in TreasuryRows(L) && TreasuryRows(L)[key] == LE(L.treasuries[id].amount, 8)
  {
    TreasuryKeysNameIDs();
    hide TreasuryKey, LE;
  }

  lemma TreasuryStored(L: Ledger, id: Hash)
    requires ValidLedger(L) && id in L.treasuries
    ensures var key := TreasuryKey(id, L.treasuries[id].spent); key in StoreOf(L) && StoreOf(L)[key] == LE(L.treasuries[id].amount, 8)
  {
    var key := TreasuryKey(id, L.treasuries[id].spent);
    assert key != [] && key[0] == PREFIX_TREASURY;
    hide *;
    TreasuryRowAt(L, id);
    RowByTag(L, key);
    SameAtMeans(StoreOf(L), TreasuryRows(L), key);
  }

  lemma TreasuryRowKeys(L: Ledger)
    ensures TreasuryRows(L).Keys == TreasuryKeys(L)
  {
    hide TreasuryKey, LE;
  }

  lemma TreasuriesStored(L: Ledger)
    requires ValidLedger(L)
    ensures RepresentsTreasuries(StoreOf(L), L)
  {
    assert KeysUnder(StoreOf(L), [PREFIX_TREASURY]) == TreasuryKeys(L) by {
      hide *;
      TreasuryRowKeys(L);
      TreasuryRowsTagged(L);
      forall k | k != [] && k[0] == PREFIX_TREASURY ensures SameAt(StoreOf(L), TreasuryRows(L), k) {
        RowByTag(L, k);
      }
      RowsUnder(L, PREFIX_TREASURY, TreasuryRows(L));
    }
    hide StoreOf, TreasuryKey, TreasuryKeys, LE, KeysUnder;
    forall id | id in L.treasuries
      ensures var key := TreasuryKey(id, L.treasuries[id].spent); key in StoreOf(L) && StoreOf(L)[key] == LE(L.treasuries[id].amount, 8)
    {
      TreasuryStored(L, id);
    }
  }

  lemma DiffsStored(L: Ledger)
    requires ValidLedger(L)
    ensures RepresentsDiffs(StoreOf(L), L)
  {
    hide StoreOf, DiffKey, DiffValue;
    forall i: uint32
      ensures i in L.diffs <==> DiffKey(i) in StoreOf(L)
      ensures i in L.diffs ==> StoreOf(L)[DiffKey(i)] == DiffValue(L.diffs[i])
    {
      DiffStored(L, i);
    }
  }

  lemma MilestonesStored(L: Ledger)
    requires ValidLedger(L)
    ensures RepresentsMilestones(StoreOf(L), L)
  {
    TreasuriesStored(L);
    DiffsStored(L);
    hide StoreOf, RepresentsDiffs, RepresentsTreasuries, LE;
    RowByTag(L, [PREFIX_LEDGER_INDEX]);
    assert [PREFIX_LEDGER_INDEX] in IndexRow(L);
  }

  /** Writing a valid ledger in the documented layout gives a well-formed database of that ledger. */
  lemma EveryLedgerStored(L: Ledger)
    requires ValidLedger(L)
    ensures Represents(StoreOf(L), L)
  {
    OutputsStored(L);
    IndexesStored(L);
    MilestonesStored(L);
    hide StoreOf;
  }
}
