/** Collecting the messages of an address and building its history, without a cache. */
module History {
  import opened ByteStrings
  import opened KVStores
  import opened Marshalling
  import opened Records
  import opened Ledgers
  import opened UtxoManager
  import opened OutputsApi
  import opened Tangle
  import opened Hexadecimal
  import opened ConflictTable
  import opened Queries
  import opened HistoryItems
  import opened HistorySort

  /** Output `index` of a transaction. */
  function OutputIDOf(txID: TransactionID, index: nat): OutputID {
    txID + LE(index, 2)
  }

  /** The index follows the transaction ID as two bytes, the low one first. */
  lemma OutputIDBytes(txID: TransactionID, index: nat)
    requires index < 0x1_0000
    ensures OutputIDOf(txID, index) == txID + [(index % 256) as byte, (index / 256) as byte]
    ensures OutputIDOf(txID, 0) == txID + [0, 0]
  {
    TwoBytes(index);
    TwoBytes(0);
  }

  lemma OutputIDOfInjective(t: TransactionID, i: nat, t': TransactionID, i': nat)
    requires i < 0x1_0000 && i' < 0x1_0000
    ensures OutputIDOf(t, i) == OutputIDOf(t', i') <==> t == t' && i == i'
  {
    var a, b := OutputIDOf(t, i), OutputIDOf(t', i');
    assert a[..32] == t && b[..32] == t' && a[32..] == LE(i, 2) && b[32..] == LE(i', 2);
    Pow256Widths();
    FromLEInvertsLE(i, 2);
    FromLEInvertsLE(i', 2);
  }

  // ----- which message a transaction is in -----

  /** Found through the first output of the transaction; nothing when that output is not stored. */
  function MessageOfTransaction(store: Store, txID: TransactionID): Result<Option<MessageID>> {
    match ReadOutput(store, OutputIDOf(txID, 0))
    case Ok(o) => Ok(Some(o.messageID))
    case Err(e) => if e == KeyNotFound then Ok(None) else Err(e)
  }

  /** The same in terms of the ledger. */
  function MessageOfFirst(L: Ledger, txID: TransactionID): Option<MessageID> {
    if OutputIDOf(txID, 0) in L.outputs then Some(L.outputs[OutputIDOf(txID, 0)].messageID) else None
  }

  lemma MessageOfTransactionRepresented(store: Store, L: Ledger, txID: TransactionID)
    requires Represents(store, L)
    ensures MessageOfTransaction(store, txID) == Ok(MessageOfFirst(L, txID))
  {
    ReadOutputRepresented(store, L, OutputIDOf(txID, 0));
  }

  method GetSpendingMessageID(u: Manager, txID: TransactionID) returns (r: Result<Option<MessageID>>)
    ensures forall L | Represents(u.utxoStorage, L) ::
              r == Ok(if txID + [0, 0] in L.outputs then Some(L.outputs[txID + [0, 0]].messageID) else None)
    ensures r == Ok(None) <==> OutputKey(txID + [0, 0]) !in u.utxoStorage
    ensures r.Err? <==> OutputKey(txID + [0, 0]) in u.utxoStorage && ReadOutput(u.utxoStorage, txID + [0, 0]).Err?
    ensures r == MessageOfTransaction(u.utxoStorage, txID)
  {
    OutputIDBytes(txID, 0);
    forall L | Represents(u.utxoStorage, L) ensures MessageOfTransaction(u.utxoStorage, txID) == Ok(MessageOfFirst(L, txID)) {
      MessageOfTransactionRepresented(u.utxoStorage, L, txID);
    }
    hide Represents, OutputIDOf;
    var output := u.ReadOutputByOutputID(OutputIDOf(txID, 0));
    match output {
      case Ok(o) => r := Ok(Some(o.messageID));
      case Err(e) => r := if e == KeyNotFound then Ok(None) else Err(e);
    }
  }

  /** The message of a transaction is the one that created its first output; it is unknown exactly when that output is. */
  method MessageIDByTransactionID(u: Manager, txID: TransactionID) returns (r: ApiResult<MessageID>)
    ensures forall L | Represents(u.utxoStorage, L) ::
              r == if txID + [0, 0] in L.outputs then Success(L.outputs[txID + [0, 0]].messageID) else NotFound
    ensures r.NotFound? <==> OutputKey(txID + [0, 0]) !in u.utxoStorage
    ensures r.InternalError? <==> OutputKey(txID + [0, 0]) in u.utxoStorage && ReadOutput(u.utxoStorage, txID + [0, 0]).Err?
  {
    OutputIDBytes(txID, 0);
    forall L | Represents(u.utxoStorage, L)
      ensures ReadOutput(u.utxoStorage, OutputIDOf(txID, 0)) ==
              if OutputIDOf(txID, 0) in L.outputs then Ok(L.outputs[OutputIDOf(txID, 0)]) else Err(KeyNotFound)
    {
      ReadOutputRepresented(u.utxoStorage, L, OutputIDOf(txID, 0));
    }
    hide Represents, OutputIDOf, OutputKey;
    var output := u.ReadOutputByOutputID(OutputIDOf(txID, 0));
    match output {
      case Ok(o) => r := Success(o.messageID);
      case Err(e) => r := if e == KeyNotFound then NotFound else InternalError;
    }
  }

  /** A missing message ID becomes the empty map key. */
  function MapKey(id: Option<MessageID>): Bytes {
    if id.Some? then id.value else []
  }

  // ----- the candidates -----

  function AtAddress(address: Address): IterateOptions {
    IterateOptions(Some(address), 0, None)
  }

  ghost predicate Scannable(store: Store, address: Address) {
    && AllOk(UnspentRows(store, AtAddress(address)))
    && AllOk(SpentRows(store, AtAddress(address)))
    && forall i | 0 <= i < |SpentAt(store, address)| ::
         MessageOfTransaction(store, SpentAt(store, address)[i].spending.targetTransactionID).Ok?
  }

  ghost function UnspentAt(store: Store, address: Address): seq<Output>
    requires AllOk(UnspentRows(store, AtAddress(address)))
  {
    Filter(WantedOutput(AtAddress(address)), Values(UnspentRows(store, AtAddress(address))))
  }

  ghost function SpentAt(store: Store, address: Address): seq<Spent>
    requires AllOk(SpentRows(store, AtAddress(address)))
  {
    Filter(WantedSpent(AtAddress(address)), Values(SpentRows(store, AtAddress(address))))
  }

  ghost function CreatorsOf(outputs: seq<Output>): set<Bytes> {
    set i | 0 <= i < |outputs| :: outputs[i].messageID
  }

  ghost predicate SpendersFound(store: Store, spents: seq<Spent>) {
    forall i | 0 <= i < |spents| :: MessageOfTransaction(store, spents[i].spending.targetTransactionID).Ok?
  }

  ghost function CreatingKeys(spents: seq<Spent>): (keys: seq<Bytes>)
    ensures |keys| == |spents|
  {
    seq(|spents|, i requires 0 <= i < |spents| => spents[i].output.messageID)
  }

  ghost function SpendingKeys(store: Store, spents: seq<Spent>): (keys: seq<Bytes>)
    requires SpendersFound(store, spents)
    ensures |keys| == |spents|
  {
    seq(|spents|, i requires 0 <= i < |spents| => MapKey(MessageOfTransaction(store, spents[i].spending.targetTransactionID).value))
  }

  /** The creating and the spending messages of spent outputs. */
  ghost function MessagesOf(store: Store, spents: seq<Spent>): set<Bytes>
    requires SpendersFound(store, spents)
  {
    KeySet(CreatingKeys(spents)) + KeySet(SpendingKeys(store, spents))
  }

  ghost function ConflictKeys(table: Table, address: Address): set<Bytes>
    requires HoldsIDs(table, AddressBytes(address))
  {
    set i | 0 <= i < |IDsUnder(table, AddressBytes(address))| :: IDsUnder(table, AddressBytes(address))[i]
  }

  ghost function CandidateKeys(store: Store, table: Table, address: Address): set<Bytes>
    requires Scannable(store, address) && HoldsIDs(table, AddressBytes(address))
  {
    CreatorsOf(UnspentAt(store, address)) + MessagesOf(store, SpentAt(store, address)) + ConflictKeys(table, address)
  }

  lemma WantsAllSpents(address: Address, spents: seq<Spent>)
    ensures Filter(WantedSpent(AtAddress(address)), spents) == spents
  {
    FilterAll(WantedSpent(AtAddress(address)), spents);
  }

  method CollectUnspentCreators(u: Manager, address: Address) returns (r: Result<set<Bytes>>)
    ensures AllOk(UnspentRows(u.utxoStorage, AtAddress(address))) ==> r == Ok(CreatorsOf(UnspentAt(u.utxoStorage, address)))
    ensures !AllOk(UnspentRows(u.utxoStorage, AtAddress(address))) ==> r.Err?
  {
    var outputs := u.UnspentOutputs(AtAddress(address));
    if outputs.Err? {
      return Err(outputs.error);
    }
    hide *;
    var keys: set<Bytes> := {};
    for i := 0 to |outputs.value|
      invariant keys == CreatorsOf(outputs.value[..i])
    {
      CreatorsNext(outputs.value, i);
      keys := keys + {outputs.value[i].messageID};
    }
    CreatorsNone(outputs.value);
    assert outputs.value[..|outputs.value|] == outputs.value;
    r := Ok(keys);
  }

  lemma CreatorsNext(outputs: seq<Output>, i: nat)
    requires i < |outputs|
    ensures CreatorsOf(outputs[..i + 1]) == CreatorsOf(outputs[..i]) + {outputs[i].messageID}
  {
    var front, more := outputs[..i], outputs[..i + 1];
    forall k ensures k in CreatorsOf(more) <==> k in CreatorsOf(front) + {outputs[i].messageID} {
      if k in CreatorsOf(more) {
        var j :| 0 <= j < |more| && more[j].messageID == k;
        assert j < i ==> front[j] == more[j];
      }
      if k in CreatorsOf(front) {
        var j :| 0 <= j < |front| && front[j].messageID == k;
        assert more[j] == front[j];
      }
      assert more[i] == outputs[i];
    }
  }

  lemma CreatorsNone(outputs: seq<Output>)
    ensures CreatorsOf(outputs[..0]) == {}
  {
  }

  ghost function KeySet(keys: seq<Bytes>): set<Bytes> {
    set i | 0 <= i < |keys| :: keys[i]
  }

  lemma KeySetNext(keys: seq<Bytes>, k: Bytes)
    ensures KeySet(keys + [k]) == KeySet(keys) + {k}
  {
    forall x ensures x in KeySet(keys + [k]) <==> x in KeySet(keys) + {k} {
      if x in KeySet(keys) {
        var i :| 0 <= i < |keys| && keys[i] == x;
        assert (keys + [k])[i] == x;
      }
      assert (keys + [k])[|keys|] == k;
    }
  }

  lemma MessagesNext(store: Store, spents: seq<Spent>, i: nat)
    requires i < |spents| && SpendersFound(store, spents[..i])
    requires MessageOfTransaction(store, spents[i].spending.targetTransactionID).Ok?
    ensures SpendersFound(store, spents[..i + 1])
    ensures MessagesOf(store, spents[..i + 1]) ==
            MessagesOf(store, spents[..i])
            + {spents[i].output.messageID, MapKey(MessageOfTransaction(store, spents[i].spending.targetTransactionID).value)}
  {
    hide MessageOfTransaction, MapKey, KeySet;
    assert spents[..i + 1] == spents[..i] + [spents[i]];
    assert CreatingKeys(spents[..i + 1]) == CreatingKeys(spents[..i]) + [spents[i].output.messageID];
    assert SpendingKeys(store, spents[..i + 1]) ==
      SpendingKeys(store, spents[..i]) + [MapKey(MessageOfTransaction(store, spents[i].spending.targetTransactionID).value)];
    KeySetNext(CreatingKeys(spents[..i]), spents[i].output.messageID);
    KeySetNext(SpendingKeys(store, spents[..i]), MapKey(MessageOfTransaction(store, spents[i].spending.targetTransactionID).value));
  }

  /** The scan stops at the first output whose spending message cannot be looked up. */
  function LookupGoesOn(store: Store): seq<Spent> -> bool {
    (seen: seq<Spent>) => seen == [] || MessageOfTransaction(store, seen[|seen| - 1].spending.targetTransactionID).Ok?
  }

  method CollectSpentMessages(u: Manager, address: Address) returns (r: Result<set<Bytes>>)
    ensures var store := u.utxoStorage;
            if AllOk(SpentRows(store, AtAddress(address))) && SpendersFound(store, SpentAt(store, address))
            then r == Ok(MessagesOf(store, SpentAt(store, address)))
            else r.Err?
  {
    ghost var store := u.utxoStorage;
    var seen, err := u.ForEachSpentOutput(AtAddress(address), LookupGoesOn(u.utxoStorage));
    ghost var n: nat :| Delivered(SpentRows(store, AtAddress(address)), WantedSpent(AtAddress(address)), LookupGoesOn(store), seen, err, n);
    SeenSpents(store, address, seen, err, n);
    if err.Some? {
      return Err(err.value);
    }
    hide *;
    var keys: set<Bytes> := {};
    MessagesNone(store, seen);
    for i := 0 to |seen|
      invariant SpendersFound(store, seen[..i])
      invariant keys == MessagesOf(store, seen[..i])
    {
      var spending := GetSpendingMessageID(u, seen[i].spending.targetTransactionID);
      if spending.Err? {
        SpenderMissing(store, seen, i);
        return Err(spending.error);
      }
      MessagesNext(store, seen, i);
      keys := keys + {seen[i].output.messageID, MapKey(spending.value)};
    }
    assert seen[..|seen|] == seen;
    r := Ok(keys);
  }

  lemma MessagesNone(store: Store, spents: seq<Spent>)
    ensures SpendersFound(store, spents[..0]) && MessagesOf(store, spents[..0]) == {}
  {
  }

  lemma SpenderMissing(store: Store, spents: seq<Spent>, i: nat)
    requires i < |spents| && MessageOfTransaction(store, spents[i].spending.targetTransactionID).Err?
    ensures !SpendersFound(store, spents)
  {
  }

  lemma PrefixOfSpents(rows: seq<Result<Spent>>, address: Address, n: nat)
    requires n <= |rows| && AllOk(rows)
    ensures |Filter(WantedSpent(AtAddress(address)), Values(rows))| == |rows|
    ensures Values(rows[..n]) == Filter(WantedSpent(AtAddress(address)), Values(rows))[..n]
  {
    WantsAllSpents(address, Values(rows));
  }

  /** What the consumer was handed, when all of it could be looked up, is the whole scan. */
  lemma SeenSpents(store: Store, address: Address, seen: seq<Spent>, err: Option<Error>, n: nat)
    requires Delivered(SpentRows(store, AtAddress(address)), WantedSpent(AtAddress(address)), LookupGoesOn(store), seen, err, n)
    ensures err.Some? ==> !AllOk(SpentRows(store, AtAddress(address)))
    ensures err.None? && SpendersFound(store, seen) ==>
              AllOk(SpentRows(store, AtAddress(address))) && seen == SpentAt(store, address)
    ensures err.None? && !SpendersFound(store, seen) && AllOk(SpentRows(store, AtAddress(address))) ==>
              !SpendersFound(store, SpentAt(store, address))
  {
    var rows := SpentRows(store, AtAddress(address));
    hide SpentRows, MessageOfTransaction, WantedSpent, Filter, Values;
    if err.None? && SpendersFound(store, seen) {
      assert LookupGoesOn(store)(seen);
      assert rows[..n] == rows;
    } else if err.None? && AllOk(rows) {
      WantsAllSpents(address, Values(rows[..n]));
      PrefixOfSpents(rows, address, n);
      assert seen == SpentAt(store, address)[..n];
      SpenderMissingInPrefix(store, SpentAt(store, address), n);
    }
  }

  lemma SpenderMissingInPrefix(store: Store, spents: seq<Spent>, n: nat)
    requires n <= |spents| && !SpendersFound(store, spents[..n])
    ensures !SpendersFound(store, spents)
  {
    hide MessageOfTransaction;
    var i :| 0 <= i < n && MessageOfTransaction(store, spents[..n][i].spending.targetTransactionID).Err?;
    assert spents[..n][i] == spents[i];
  }

  method CollectConflicts(table: Table, address: Address) returns (keys: set<Bytes>)
    requires HoldsIDs(table, AddressBytes(address))
    ensures keys == ConflictKeys(table, address)
  {
    hide IDsUnder, HoldsIDs, AddressBytes, Scan;
    var ids := ConflictingTransactionsMessageIDs(table, address, None);
    ScanSize(table, AddressBytes(address));
    assert ids == IDsUnder(table, AddressBytes(address));
    keys := {};
    for i := 0 to |ids|
      invariant forall k :: k in keys <==> exists j :: 0 <= j < i && ids[j] == k
    {
      keys := keys + {ids[i]};
    }
  }

  method CollectMessageIDs(u: Manager, table: Table, address: Address) returns (r: Result<set<Bytes>>)
    requires HoldsIDs(table, AddressBytes(address))
    ensures Scannable(u.utxoStorage, address) ==> r == Ok(CandidateKeys(u.utxoStorage, table, address))
    ensures !Scannable(u.utxoStorage, address) ==> r.Err?
  {
    hide UnspentRows, SpentRows, AllOk, UnspentAt, SpentAt, MessageOfTransaction, CreatorsOf, MessagesOf, ConflictKeys, HoldsIDs;
    var unspent := CollectUnspentCreators(u, address);
    if unspent.Err? {
      return unspent;
    }
    var spent := CollectSpentMessages(u, address);
    if spent.Err? {
      return spent;
    }
    var conflicts := CollectConflicts(table, address);
    r := Ok(unspent.value + spent.value + conflicts);
  }

  // ----- the items -----

  ghost predicate GoodKey(node: Node, address: Address, key: Bytes) {
    |key| == 32 && (HistoryItemOf(node, address, key).Item? || HistoryItemOf(node, address, key).Skipped?)
  }

  ghost predicate HasItem(node: Node, address: Address, keys: set<Bytes>, x: HistoryItem) {
    exists id: MessageID :: id in keys && HistoryItemOf(node, address, id) == Item(x)
  }

  /** The history made from a set of messages: the items of those that have one, newest first. */
  ghost predicate IsHistory(node: Node, address: Address, keys: set<Bytes>, s: seq<HistoryItem>) {
    && Sorted(NewestFirst, s)
    && forall x :: x in s <==> HasItem(node, address, keys, x)
  }

  /** Building is done, or ended on a bad message, whichever the map order reached first. */
  datatype BuildResult = Built(items: seq<HistoryItem>) | BuildFailed | BuildPanicked

  ghost predicate Builds(node: Node, address: Address, keys: set<Bytes>, r: BuildResult) {
    match r
    case Built(items) =>
      && (forall key: Bytes :: key in keys ==> GoodKey(node, address, key))
      && DistinctMessages(items)
      && (forall x :: x in items <==> HasItem(node, address, keys, x))
    case BuildFailed => exists key: Bytes :: key in keys && |key| == 32 && HistoryItemOf(node, address, key).Failed?
    case BuildPanicked => exists key: Bytes :: key in keys && (|key| != 32 || HistoryItemOf(node, address, key).Panicked?)
  }

  lemma AnotherItem(node: Node, address: Address, keys: set<Bytes>, items: seq<HistoryItem>,
                    id: MessageID, outcome: ItemOutcome, items': seq<HistoryItem>)
    requires Builds(node, address, keys, Built(items)) && id !in keys
    requires outcome == HistoryItemOf(node, address, id)
    requires if outcome.Item? then items' == items + [outcome.item] else outcome.Skipped? && items' == items
    ensures Builds(node, address, keys + {id}, Built(items'))
  {
    hide HistoryItemOf;
    if outcome.Item? {
      ItemMessage(node, address, id);
      forall i | 0 <= i < |items| ensures items[i].messageID != outcome.item.messageID {
        assert items[i] in items;
        var other: MessageID :| other in keys && HistoryItemOf(node, address, other) == Item(items[i]);
        ItemMessage(node, address, other);
        if ToHex(other) == ToHex(id) {
          ToHexInjective(other, id);
        }
      }
    }
    forall x ensures x in items' <==> HasItem(node, address, keys + {id}, x) {
      if x in items {
        var other: MessageID :| other in keys && HistoryItemOf(node, address, other) == Item(x);
        assert other in keys + {id};
      }
      if HasItem(node, address, keys + {id}, x) {
        assert exists other: MessageID :: other in keys + {id} && HistoryItemOf(node, address, other) == Item(x);
        var other: MessageID :| other in keys + {id} && HistoryItemOf(node, address, other) == Item(x);
        assert other in keys || other == id;
      }
    }
  }

  /** Goes through the message IDs in whatever order the map yields them. */
  method BuildItems(node: Node, address: Address, keys: set<Bytes>) returns (r: BuildResult)
    ensures Builds(node, address, keys, r)
  {
    hide HistoryItemOf;
    var items := [];
    var todo := keys;
    NothingBuilt(node, address);
    while todo != {}
      invariant todo <= keys && Builds(node, address, keys - todo, Built(items))
      decreases todo
    {
      var key: Bytes :| key in todo;
      assert key in keys;
      if |key| != 32 {
        return BuildPanicked;
      }
      var outcome := GetTransactionHistoryItem(node, address, key);
      match outcome {
        case Failed => return BuildFailed;
        case Panicked => return BuildPanicked;
        case Skipped =>
          AnotherItem(node, address, keys - todo, items, key, outcome, items);
        case Item(item) =>
          AnotherItem(node, address, keys - todo, items, key, outcome, items + [item]);
          items := items + [item];
      }
      assert keys - (todo - {key}) == (keys - todo) + {key};
      todo := todo - {key};
    }
    assert keys - {} == keys;
    r := Built(items);
  }

  lemma NothingBuilt(node: Node, address: Address)
    ensures Builds(node, address, {}, Built([]))
  {
  }

  // ----- the uncached history -----

  /** The history can be built: every row is good and every candidate yields an item or is skipped. */
  ghost predicate Buildable(node: Node, table: Table, address: Address) {
    && HoldsIDs(table, AddressBytes(address))
    && Scannable(node.utxo, address)
    && forall key: Bytes :: key in CandidateKeys(node.utxo, table, address) ==> GoodKey(node, address, key)
  }

  ghost function ItemsOf(node: Node, address: Address, keys: seq<Bytes>): seq<HistoryItem>
    requires forall i | 0 <= i < |keys| :: GoodKey(node, address, keys[i])
  {
    if keys == [] then
      []
    else
      var front := ItemsOf(node, address, keys[..|keys| - 1]);
      assert GoodKey(node, address, keys[|keys| - 1]);
      match HistoryItemOf(node, address, keys[|keys| - 1])
      case Item(item) => front + [item]
      case _ => front
  }

  ghost function FreshHistory(node: Node, table: Table, address: Address): seq<HistoryItem>
    requires Buildable(node, table, address)
  {
    var keys := SortKeys(CandidateKeys(node.utxo, table, address));
    assert forall i | 0 <= i < |keys| :: keys[i] in keys;
    Sort(NewestFirst, ItemsOf(node, address, keys))
  }

  lemma {:induction false} ItemsOfBuilds(node: Node, address: Address, keys: seq<Bytes>)
    requires forall i | 0 <= i < |keys| :: GoodKey(node, address, keys[i])
    requires forall i, j | 0 <= i < j < |keys| :: keys[i] != keys[j]
    ensures Builds(node, address, Elements(keys), Built(ItemsOf(node, address, keys)))
  {
    hide HistoryItemOf, Builds;
    if keys == [] {
      NothingBuilt(node, address);
      assert Elements(keys) == {};
    } else {
      var front, last := keys[..|keys| - 1], keys[|keys| - 1];
      ItemsOfBuilds(node, address, front);
      assert keys == front + [last];
      assert last !in front;
      AnotherItem(node, address, Elements(front), ItemsOf(node, address, front), last, HistoryItemOf(node, address, last),
                  ItemsOf(node, address, keys));
      assert Elements(keys) == Elements(front) + {last};
    }
  }

  lemma SortedBuildIsHistory(node: Node, address: Address, keys: set<Bytes>, items: seq<HistoryItem>)
    requires Builds(node, address, keys, Built(items))
    ensures IsHistory(node, address, keys, Sort(NewestFirst, items))
  {
    SortSorts(NewestFirst, items);
    hide HasItem;
    forall x ensures x in Sort(NewestFirst, items) <==> x in items {
      SameMembers(Sort(NewestFirst, items), items, x);
    }
  }

  /** The history of a set of messages is one definite sequence. */
  lemma HistoryUnique(node: Node, address: Address, keys: set<Bytes>, s: seq<HistoryItem>, t: seq<HistoryItem>)
    requires IsHistory(node, address, keys, s) && IsHistory(node, address, keys, t)
    ensures s == t
  {
    SortedUnique(NewestFirst, s, t);
  }

  lemma FreshHistoryIsHistory(node: Node, table: Table, address: Address)
    requires Buildable(node, table, address)
    ensures IsHistory(node, address, CandidateKeys(node.utxo, table, address), FreshHistory(node, table, address))
  {
    var all := CandidateKeys(node.utxo, table, address);
    hide CandidateKeys, GoodKey, Builds, IsHistory, Scannable, HoldsIDs;
    var keys := SortKeys(all);
    assert forall i | 0 <= i < |keys| :: keys[i] in keys;
    forall i, j | 0 <= i < j < |keys| ensures keys[i] != keys[j] {
      if keys[i] == keys[j] {
        AscendingDistinct(keys, i, j);
      }
    }
    ItemsOfBuilds(node, address, keys);
    assert Elements(keys) == all;
    SortedBuildIsHistory(node, address, all, ItemsOf(node, address, keys));
  }

  /** A history is sorted and has one item per message. */
  lemma FreshDistinct(node: Node, table: Table, address: Address)
    requires Buildable(node, table, address)
    ensures DistinctMessages(FreshHistory(node, table, address)) && Sorted(NewestFirst, FreshHistory(node, table, address))
  {
    var s := FreshHistory(node, table, address);
    FreshHistoryIsHistory(node, table, address);
    SortedDistinct(NewestFirst, s);
    hide Buildable, FreshHistory, Before, HistoryItemOf, CandidateKeys;
    forall i, j | 0 <= i < j < |s| ensures s[i].messageID != s[j].messageID {
      assert s[i] in s && s[j] in s;
      var keys := CandidateKeys(node.utxo, table, address);
      assert HasItem(node, address, keys, s[i]) && HasItem(node, address, keys, s[j]);
      var x: MessageID :| x in keys && HistoryItemOf(node, address, x) == Item(s[i]);
      var y: MessageID :| y in keys && HistoryItemOf(node, address, y) == Item(s[j]);
      ItemMessage(node, address, x);
      ItemMessage(node, address, y);
      if ToHex(x) == ToHex(y) {
        ToHexInjective(x, y);
      }
    }
  }

  /** What can make a request fail with an error. */
  ghost predicate CanFail(node: Node, table: Table, address: Address) {
    && HoldsIDs(table, AddressBytes(address))
    && (Scannable(node.utxo, address) ==>
          exists key: Bytes :: key in CandidateKeys(node.utxo, table, address) && |key| == 32 && HistoryItemOf(node, address, key).Failed?)
  }

  /** What can make it panic. */
  ghost predicate CanPanic(node: Node, table: Table, address: Address) {
    && HoldsIDs(table, AddressBytes(address))
    && Scannable(node.utxo, address)
    && exists key: Bytes :: key in CandidateKeys(node.utxo, table, address) && (|key| != 32 || HistoryItemOf(node, address, key).Panicked?)
  }

  datatype HistoryOutcome = HistoryOk(items: array<HistoryItem>) | HistoryFailed | HistoryPanicked

  /**
   The history of an address, computed from the two indexes and the lookup table. Which of
   several bad messages decides a failure depends on the map order; the history does not.
   */
  method ComputeHistory(node: Node, u: Manager, table: Table, address: Address) returns (r: HistoryOutcome)
    requires u.utxoStorage == node.utxo && HoldsIDs(table, AddressBytes(address))
    ensures r.HistoryOk? <==> Buildable(node, table, address)
    ensures r.HistoryOk? ==> fresh(r.items) && r.items[..] == FreshHistory(node, table, address)
    ensures r.HistoryFailed? ==> CanFail(node, table, address)
    ensures r.HistoryPanicked? ==> CanPanic(node, table, address)
  {
    hide CandidateKeys, Scannable, HoldsIDs, HistoryItemOf, FreshHistory, HasItem, IsHistory;
    var keys := CollectMessageIDs(u, table, address);
    if keys.Err? {
      return HistoryFailed;
    }
    var built := BuildItems(node, address, keys.value);
    match built {
      case BuildFailed => return HistoryFailed;
      case BuildPanicked => return HistoryPanicked;
      case Built(items) =>
        var a := SortedArray(items);
        SortedBuildIsHistory(node, address, keys.value, items);
        FreshHistoryIsHistory(node, table, address);
        HistoryUnique(node, address, keys.value, a[..], FreshHistory(node, table, address));
        r := HistoryOk(a);
    }
  }

  method SortedArray(items: seq<HistoryItem>) returns (a: array<HistoryItem>)
    requires DistinctMessages(items)
    ensures fresh(a) && a[..] == Sort(NewestFirst, items)
  {
    a := new HistoryItem[|items|](i requires 0 <= i < |items| => items[i]);
    assert a[..] == items;
    assert a[..a.Length] == a[..];
    SortSlice(a, a.Length, NewestFirst);
    assert a[..a.Length] == a[..];
    SortedPermutation(NewestFirst, items, a[..]);
  }
}
