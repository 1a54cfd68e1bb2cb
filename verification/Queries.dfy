/** Queries that list the message IDs stored behind a key prefix, with their early stop. */
module Queries {
  import opened ByteStrings
  import opened KVStores
  import opened Marshalling
  import opened Tangle
  import opened ConflictTable
  import opened Rebuild
  import opened Cancellation

  /** Every key behind the prefix holds a message ID; a shorter key makes the query panic. */
  predicate HoldsIDs(store: Store, prefix: Bytes) {
    forall k :: k in store && prefix <= k ==> |k| >= |prefix| + 32
  }

  function IDsUnder(store: Store, prefix: Bytes): (ids: seq<MessageID>)
    requires HoldsIDs(store, prefix)
    ensures |ids| == |Scan(store, prefix)|
  {
    var keys := Scan(store, prefix);
    assert forall i | 0 <= i < |keys| :: keys[i] in keys;
    seq(|keys|, i requires 0 <= i < |keys| => keys[i][|prefix|..|prefix| + 32])
  }

  lemma IDOfKey(store: Store, prefix: Bytes, i: nat)
    requires HoldsIDs(store, prefix) && i < |Scan(store, prefix)|
    ensures var key := Scan(store, prefix)[i];
            key in store && prefix <= key && |key| >= |prefix| + 32 && IDsUnder(store, prefix)[i] == key[|prefix|..|prefix| + 32]
  {
    assert Scan(store, prefix)[i] in Scan(store, prefix);
  }

  /** The early stop admits one more row than was asked for. */
  method FirstIDs(store: Store, prefix: Bytes, maxResults: Option<int>) returns (ids: seq<MessageID>)
    requires HoldsIDs(store, prefix)
    ensures ids <= IDsUnder(store, prefix)
    ensures var n := |set k | k in store && prefix <= k|;
            |ids| == match maxResults
                     case None => n
                     case Some(m) => if m >= 0 then (if n <= m then n else m + 1) else if n == 0 then 0 else 1
  {
    hide Scan, IDsUnder, HoldsIDs;
    ScanSize(store, prefix);
    var keys := Scan(store, prefix);
    ghost var all := IDsUnder(store, prefix);
    ids := [];
    var iterations := 0;
    while iterations < |keys|
      invariant 0 <= iterations <= |keys| && (maxResults.Some? && iterations > 0 ==> iterations <= maxResults.value)
      invariant ids == all[..iterations]
    {
      IDOfKey(store, prefix, iterations);
      var key := keys[iterations];
      iterations := iterations + 1;
      ids := ids + [key[|prefix|..|prefix| + 32]];
      assert ids == all[..iterations];
      if maxResults.Some? && !(iterations <= maxResults.value) {
        return;
      }
    }
  }

  method ConflictingTransactionsMessageIDs(table: Table, address: Address, maxResults: Option<int>) returns (ids: seq<MessageID>)
    requires HoldsIDs(table, AddressBytes(address))
    ensures ids <= IDsUnder(table, AddressBytes(address))
    ensures var n := |set k | k in table && AddressBytes(address) <= k|;
            |ids| == match maxResults
                     case None => n
                     case Some(m) => if m >= 0 then (if n <= m then n else m + 1) else if n == 0 then 0 else 1
  {
    ids := FirstIDs(table, AddressBytes(address), maxResults);
  }

  method ChildrenMessageIDs(children: Store, id: MessageID, maxResults: int) returns (ids: seq<MessageID>)
    requires HoldsIDs(children, id)
    ensures ids <= IDsUnder(children, id)
    ensures var n := |set k | k in children && id <= k|;
            |ids| == if maxResults >= 0 then (if n <= maxResults then n else maxResults + 1) else if n == 0 then 0 else 1
  {
    ids := FirstIDs(children, id, Some(maxResults));
  }

  // ----- what the conflict table answers -----

  lemma TableKeyUnderAddress(node: Node, table: Table, n: nat, address: Address, k: Bytes)
    requires ValidNode(node) && RebuiltUpTo(node, table, n)
    requires k in table && AddressBytes(address) <= k
    ensures exists id: MessageID :: k == EntryKey(address, id) && ConflictTouches(node, id, address) && ScannedBefore(node, n, id)
  {
    assert k[0] == AddressBytes(address)[0] == 0;
    assert k != STATUS_KEY;
    EntryRow(node, n, k);
    hide ConflictTouches, Rows, LedgerIndex, Entries, PlanRow, EntryKey, ValidNode;
    var i :| 0 <= i < n && k in RowPlan(node, i).keys;
    var id := Rows(node)[i];
    RowPlanKeys(node, id, k);
    var a :| k == EntryKey(a, id) && ConflictTouches(node, id, a);
    EntryKeyInjective(a, id, address, id);
  }

  lemma RowOfTable(node: Node, table: Table, n: nat, address: Address, i: nat)
    requires ValidNode(node) && RebuiltUpTo(node, table, n) && HoldsIDs(table, AddressBytes(address))
    requires i < |Scan(table, AddressBytes(address))|
    ensures var id := IDsUnder(table, AddressBytes(address))[i];
            Scan(table, AddressBytes(address))[i] == EntryKey(address, id) && ConflictTouches(node, id, address) && ScannedBefore(node, n, id)
  {
    hide *;
    IDOfKey(table, AddressBytes(address), i);
    var key := Scan(table, AddressBytes(address))[i];
    TableKeyUnderAddress(node, table, n, address, key);
    var id: MessageID :| key == EntryKey(address, id) && ConflictTouches(node, id, address) && ScannedBefore(node, n, id);
    EntryKeyInjective(address, id, address, id);
    assert key[33..65] == key[33..];
  }

  lemma TableHoldsIDs(node: Node, table: Table, n: nat, address: Address)
    requires ValidNode(node) && RebuiltUpTo(node, table, n)
    ensures HoldsIDs(table, AddressBytes(address))
  {
    hide RebuiltUpTo, ConflictTouches, ValidNode, ScannedBefore;
    forall k | k in table && AddressBytes(address) <= k ensures |k| >= 65 {
      TableKeyUnderAddress(node, table, n, address, k);
    }
  }

  lemma ConflictListed(node: Node, table: Table, n: nat, address: Address, id: MessageID)
    requires ValidNode(node) && RebuiltUpTo(node, table, n) && HoldsIDs(table, AddressBytes(address))
    requires ConflictTouches(node, id, address) && ScannedBefore(node, n, id)
    ensures id in IDsUnder(table, AddressBytes(address))
  {
    hide ConflictTouches, ValidNode, RebuiltUpTo, ScannedBefore;
    StoppedRebuildLists(node, table, n, address, id);
    EntryKeyInjective(address, id, address, id);
    var keys := Scan(table, AddressBytes(address));
    var key := EntryKey(address, id);
    assert key in keys;
    hide Scan, EntryKey;
    var i :| 0 <= i < |keys| && keys[i] == key;
    assert key[33..65] == key[33..];
    assert IDsUnder(table, AddressBytes(address))[i] == id;
  }

  /**
   Asking a table that was rebuilt up to a row for an address lists each conflicting
   transaction of the rows before it that touches the address exactly once, in ascending
   order, and never mistakes the status for an entry.
   */
  lemma ConflictQueryListed(node: Node, table: Table, n: nat, address: Address)
    requires ValidNode(node) && RebuiltUpTo(node, table, n)
    ensures HoldsIDs(table, AddressBytes(address))
    ensures Ascending(IDsUnder(table, AddressBytes(address)))
    ensures forall id: MessageID :: id in IDsUnder(table, AddressBytes(address)) <==>
              ConflictTouches(node, id, address) && ScannedBefore(node, n, id)
  {
    TableHoldsIDs(node, table, n, address);
    var keys, ids := Scan(table, AddressBytes(address)), IDsUnder(table, AddressBytes(address));
    assert Ascending(keys) && |keys| == |ids|;
    hide ConflictTouches, Less, RebuiltUpTo, ValidNode, IDsUnder, Scan, ScannedBefore;
    forall i, j | 0 <= i < j < |ids| ensures Less(ids[i], ids[j]) {
      RowOfTable(node, table, n, address, i);
      RowOfTable(node, table, n, address, j);
      LessAfterPrefix(AddressBytes(address), ids[i], ids[j]);
    }
    forall id: MessageID | ConflictTouches(node, id, address) && ScannedBefore(node, n, id) ensures id in ids {
      ConflictListed(node, table, n, address, id);
    }
    forall id: MessageID | id in ids ensures ConflictTouches(node, id, address) && ScannedBefore(node, n, id) {
      var i :| 0 <= i < |ids| && ids[i] == id;
      RowOfTable(node, table, n, address, i);
    }
  }

  /** On an exact table these are all the conflicting transactions that touch the address. */
  lemma ConflictQueryExact(node: Node, table: Table, address: Address)
    requires ValidNode(node) && Exact(node, table)
    ensures HoldsIDs(table, AddressBytes(address))
    ensures Ascending(IDsUnder(table, AddressBytes(address)))
    ensures forall id: MessageID :: id in IDsUnder(table, AddressBytes(address)) <==> ConflictTouches(node, id, address)
  {
    hide *;
    ExactIsRebuilt(node, table);
    ConflictQueryListed(node, table, |Rows(node)|, address);
    forall id: MessageID | ConflictTouches(node, id, address) ensures ScannedBefore(node, |Rows(node)|, id) {
      ConflictStored(node, id, address);
      RowOfMessage(node, id);
    }
  }

  // ----- indexation -----

  const INDEXATION_INDEX_LENGTH := 64

  function Zeros(n: nat): (z: Bytes)
    ensures |z| == n
  {
    if n == 0 then [] else [0] + Zeros(n - 1)
  }

  function PadIndexationIndex(index: Bytes): (padded: Bytes)
    requires |index| <= INDEXATION_INDEX_LENGTH
    ensures |padded| == INDEXATION_INDEX_LENGTH
  {
    index + Zeros(INDEXATION_INDEX_LENGTH - |index|)
  }

  function WithoutTrailingZeros(b: Bytes): Bytes {
    if b != [] && b[|b| - 1] == 0 then WithoutTrailingZeros(b[..|b| - 1]) else b
  }

  lemma {:induction false} TrimPadded(b: Bytes, n: nat)
    ensures WithoutTrailingZeros(b + Zeros(n)) == WithoutTrailingZeros(b)
    decreases n
  {
    if n == 0 {
      assert b + [] == b;
    } else {
      assert b + Zeros(n) == (b + [0]) + Zeros(n - 1);
      TrimPadded(b + [0], n - 1);
      assert (b + [0])[..|b|] == b;
    }
  }

  lemma {:induction false} TrimmedIsPrefix(b: Bytes)
    ensures |WithoutTrailingZeros(b)| <= |b|
    ensures WithoutTrailingZeros(b) + Zeros(|b| - |WithoutTrailingZeros(b)|) == b
  {
    if b != [] && b[|b| - 1] == 0 {
      var front := b[..|b| - 1];
      TrimmedIsPrefix(front);
      var n := |front| - |WithoutTrailingZeros(front)|;
      ZerosJoin(n, 1);
      assert Zeros(1) == [0] + Zeros(0);
      assert b == front + [0];
      assert WithoutTrailingZeros(front) + (Zeros(n) + [0]) == b;
    } else {
      assert b + [] == b;
    }
  }

  lemma {:induction false} ZerosJoin(m: nat, n: nat)
    ensures Zeros(m) + Zeros(n) == Zeros(m + n)
  {
    if m == 0 {
      assert [] + Zeros(n) == Zeros(n);
    } else {
      ZerosJoin(m - 1, n);
      assert Zeros(m) + Zeros(n) == [0] + (Zeros(m - 1) + Zeros(n));
    }
  }

  /** Padding depends only on what is left without trailing zeros. */
  lemma PadTrimmed(b: Bytes)
    requires |b| <= INDEXATION_INDEX_LENGTH
    ensures |WithoutTrailingZeros(b)| <= |b|
    ensures PadIndexationIndex(b) == PadIndexationIndex(WithoutTrailingZeros(b))
  {
    TrimmedIsPrefix(b);
    hide WithoutTrailingZeros, Zeros;
    var t := WithoutTrailingZeros(b);
    ZerosJoin(|b| - |t|, INDEXATION_INDEX_LENGTH - |b|);
    assert t + (Zeros(|b| - |t|) + Zeros(INDEXATION_INDEX_LENGTH - |b|)) == (t + Zeros(|b| - |t|)) + Zeros(INDEXATION_INDEX_LENGTH - |b|);
  }

  lemma TrimPad(b: Bytes)
    requires |b| <= INDEXATION_INDEX_LENGTH
    ensures WithoutTrailingZeros(PadIndexationIndex(b)) == WithoutTrailingZeros(b)
  {
    hide *;
    PaddedIs(b, INDEXATION_INDEX_LENGTH - |b|);
    TrimPadded(b, INDEXATION_INDEX_LENGTH - |b|);
  }

  lemma PaddedIs(b: Bytes, n: nat)
    requires |b| <= INDEXATION_INDEX_LENGTH && n == INDEXATION_INDEX_LENGTH - |b|
    ensures PadIndexationIndex(b) == b + Zeros(n)
  {
    hide Zeros;
  }

  lemma {:induction false} ZeroAt(n: nat, i: nat)
    requires i < n
    ensures Zeros(n)[i] == 0
  {
    if i > 0 {
      ZeroAt(n - 1, i - 1);
    }
  }

  lemma PaddedAt(b: Bytes, i: nat)
    requires |b| <= INDEXATION_INDEX_LENGTH && i < 64
    ensures |PadIndexationIndex(b)| == 64 && PadIndexationIndex(b)[i] == if i < |b| then b[i] else 0
  {
    hide Zeros;
    if i >= |b| {
      ZeroAt(INDEXATION_INDEX_LENGTH - |b|, i - |b|);
    }
  }

  lemma SamePadding(a: Bytes, b: Bytes)
    requires |a| <= INDEXATION_INDEX_LENGTH && |b| <= INDEXATION_INDEX_LENGTH
    ensures PadIndexationIndex(a) == PadIndexationIndex(b) <==>
            forall i | 0 <= i < 64 :: (if i < |a| then a[i] else 0) == (if i < |b| then b[i] else 0)
  {
    hide *;
    PaddedAt(a, 0);
    PaddedAt(b, 0);
    forall i | 0 <= i < 64
      ensures PadIndexationIndex(a)[i] == (if i < |a| then a[i] else 0)
      ensures PadIndexationIndex(b)[i] == (if i < |b| then b[i] else 0)
    {
      PaddedAt(a, i);
      PaddedAt(b, i);
    }
  }

  /** Two queries address the same rows exactly when they differ only in trailing zero bytes. */
  lemma SameIndexRows(a: Bytes, b: Bytes)
    requires |a| <= INDEXATION_INDEX_LENGTH && |b| <= INDEXATION_INDEX_LENGTH
    ensures PadIndexationIndex(a) == PadIndexationIndex(b) <==> WithoutTrailingZeros(a) == WithoutTrailingZeros(b)
    ensures PadIndexationIndex(a) == PadIndexationIndex(b) <==>
            forall i | 0 <= i < 64 :: (if i < |a| then a[i] else 0) == (if i < |b| then b[i] else 0)
  {
    hide *;
    SamePadding(a, b);
    TrimPad(a);
    TrimPad(b);
    PadTrimmed(a);
    PadTrimmed(b);
  }

  /** A longer index makes the padding panic. */
  method IndexMessageIDs(indexation: Store, index: Bytes, maxResults: int) returns (ids: seq<MessageID>)
    requires |index| <= INDEXATION_INDEX_LENGTH
    requires HoldsIDs(indexation, PadIndexationIndex(index))
    ensures ids <= IDsUnder(indexation, PadIndexationIndex(index))
    ensures var n := |set k | k in indexation && PadIndexationIndex(index) <= k|;
            |ids| == if maxResults >= 0 then (if n <= maxResults then n else maxResults + 1) else if n == 0 then 0 else 1
  {
    ids := FirstIDs(indexation, PadIndexationIndex(index), Some(maxResults));
  }
}
