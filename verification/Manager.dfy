/**
 The UTXO manager: scans over the unspent and the spent index, and lookups.
 A consumer is the decision whether to go on, made from everything handed to it so far.
 */
module UtxoManager {
  import opened ByteStrings
  import opened KVStores
  import opened Marshalling
  import opened Records
  import opened Ledgers

  datatype IterateOptions = IterateOptions(
    address: Option<Address>,
    maxResultCount: int,
    filterOutputType: Option<byte>)

  // ----- what a scan delivers, for any store -----

  /** A limit of zero or less means no limit. */
  function Capped<T>(rows: seq<T>, max: int): seq<T> {
    if 0 < max < |rows| then rows[..max] else rows
  }

  /** What a limit leaves: everything when it is not positive, else the first so many rows. */
  lemma CappedHolds<T>(rows: seq<T>, max: int)
    ensures max <= 0 ==> Capped(rows, max) == rows
    ensures max > 0 ==> Capped(rows, max) <= rows && |Capped(rows, max)| == if |rows| < max then |rows| else max
  {
  }

  function UnspentRow(store: Store, key: Bytes): Result<Output> {
    var id :- DecodeIndexKey(key);
    ReadOutput(store, id)
  }

  function SpentRow(store: Store, key: Bytes): Result<Spent>
    requires key in store
  {
    var id :- DecodeIndexKey(key);
    var spending :- DecodeSpending(store[key]);
    var output :- ReadOutput(store, id);
    Ok(Spent(output, spending))
  }

  function ScannedKeys(store: Store, tag: byte, opt: IterateOptions): (keys: seq<Bytes>)
    ensures forall i | 0 <= i < |keys| :: keys[i] in store
  {
    var keys := Scan(store, IndexPrefix(tag, opt.address, opt.filterOutputType));
    assert forall i | 0 <= i < |keys| :: keys[i] in keys;
    Capped(keys, opt.maxResultCount)
  }

  function UnspentRows(store: Store, opt: IterateOptions): (rows: seq<Result<Output>>) {
    var keys := ScannedKeys(store, PREFIX_UNSPENT, opt);
    seq(|keys|, i requires 0 <= i < |keys| => UnspentRow(store, keys[i]))
  }

  function SpentRows(store: Store, opt: IterateOptions): (rows: seq<Result<Spent>>) {
    var keys := ScannedKeys(store, PREFIX_SPENT, opt);
    seq(|keys|, i requires 0 <= i < |keys| => SpentRow(store, keys[i]))
  }

  predicate PassesTypeFilter(opt: IterateOptions, outputType: byte) {
    opt.address.None? && opt.filterOutputType.Some? ==> outputType == opt.filterOutputType.value
  }

  function WantedOutput(opt: IterateOptions): Output -> bool {
    (o: Output) => PassesTypeFilter(opt, o.outputType)
  }

  function WantedSpent(opt: IterateOptions): Spent -> bool {
    (s: Spent) => PassesTypeFilter(opt, s.output.outputType)
  }

  ghost predicate AllOk<T>(rows: seq<Result<T>>) {
    forall i | 0 <= i < |rows| :: rows[i].Ok?
  }

  ghost function Values<T>(rows: seq<Result<T>>): (s: seq<T>)
    requires AllOk(rows)
    ensures |s| == |rows|
  {
    seq(|rows|, i requires 0 <= i < |rows| => rows[i].value)
  }

  /**
   The first `n` rows were processed, all of them good: the consumer saw exactly the wanted
   ones in order and agreed to go on after each but possibly the last. Either the next row
   is bad and its error is reported, or the rows ran out, or the consumer stopped the scan.
   */
  ghost predicate Delivered<T>(rows: seq<Result<T>>, wanted: T -> bool, keepGoing: seq<T> -> bool,
                               seen: seq<T>, err: Option<Error>, n: nat)
  {
    && n <= |rows|
    && AllOk(rows[..n])
    && seen == Filter(wanted, Values(rows[..n]))
    && (forall j | 0 < j < |seen| :: keepGoing(seen[..j]))
    && match err
       case Some(e) => n < |rows| && rows[n] == Err(e) && (seen == [] || keepGoing(seen))
       case None => n == |rows| || (0 < n && wanted(rows[n - 1].value) && !keepGoing(seen))
  }

  /** The same for some number of processed rows. */
  ghost predicate Delivers<T>(rows: seq<Result<T>>, wanted: T -> bool, keepGoing: seq<T> -> bool, seen: seq<T>, err: Option<Error>) {
    exists n: nat :: Delivered(rows, wanted, keepGoing, seen, err, n)
  }

  /** A collected scan: every wanted row, or the error of the first bad row. */
  ghost predicate Collected<T>(rows: seq<Result<T>>, wanted: T -> bool, r: Result<seq<T>>) {
    if AllOk(rows) then
      r == Ok(Filter(wanted, Values(rows)))
    else
      exists n :: 0 <= n < |rows| && AllOk(rows[..n]) && rows[n].Err? && r == Err(rows[n].error)
  }

  lemma FilterNext<T>(rows: seq<Result<T>>, wanted: T -> bool, n: nat)
    requires n < |rows| && AllOk(rows[..n + 1])
    ensures AllOk(rows[..n])
    ensures Filter(wanted, Values(rows[..n + 1])) ==
            Filter(wanted, Values(rows[..n])) + if wanted(rows[n].value) then [rows[n].value] else []
  {
    assert forall i | 0 <= i < n :: rows[..n][i] == rows[..n + 1][i];
    assert Values(rows[..n + 1])[..n] == Values(rows[..n]);
  }

  /** The scan is still going after `n` rows. */
  ghost predicate Delivering<T>(rows: seq<Result<T>>, wanted: T -> bool, keepGoing: seq<T> -> bool, seen: seq<T>, n: nat) {
    && n <= |rows|
    && AllOk(rows[..n])
    && seen == Filter(wanted, Values(rows[..n]))
    && (forall j | 0 < j <= |seen| :: keepGoing(seen[..j]))
  }

  lemma UnspentRowsOfKeys(store: Store, opt: IterateOptions)
    ensures var keys, rows := Scan(store, IndexPrefix(PREFIX_UNSPENT, opt.address, opt.filterOutputType)), UnspentRows(store, opt);
            |rows| == |Capped(keys, opt.maxResultCount)| && forall i | 0 <= i < |rows| :: rows[i] == UnspentRow(store, keys[i])
  {
    hide Scan, IndexPrefix, UnspentRow;
  }

  lemma SpentRowsOfKeys(store: Store, opt: IterateOptions)
    ensures var keys, rows := Scan(store, IndexPrefix(PREFIX_SPENT, opt.address, opt.filterOutputType)), SpentRows(store, opt);
            |rows| == |Capped(keys, opt.maxResultCount)| && forall i | 0 <= i < |rows| :: keys[i] in store && rows[i] == SpentRow(store, keys[i])
  {
    var keys := Scan(store, IndexPrefix(PREFIX_SPENT, opt.address, opt.filterOutputType));
    assert forall i | 0 <= i < |keys| :: keys[i] in keys;
    hide Scan, IndexPrefix, SpentRow;
  }

  lemma DeliverStart<T>(rows: seq<Result<T>>, wanted: T -> bool, keepGoing: seq<T> -> bool)
    ensures Delivering(rows, wanted, keepGoing, [], 0)
  {
  }

  lemma DeliverNext<T>(rows: seq<Result<T>>, wanted: T -> bool, keepGoing: seq<T> -> bool, seen: seq<T>, n: nat, seen': seq<T>)
    requires Delivering(rows, wanted, keepGoing, seen, n)
    requires n < |rows| && rows[n].Ok?
    requires seen' == seen + if wanted(rows[n].value) then [rows[n].value] else []
    ensures if wanted(rows[n].value) && !keepGoing(seen') then Delivers(rows, wanted, keepGoing, seen', None)
            else Delivering(rows, wanted, keepGoing, seen', n + 1)
  {
    assert rows[..n + 1] == rows[..n] + [rows[n]];
    FilterNext(rows, wanted, n);
    assert forall j | 0 < j <= |seen| :: seen'[..j] == seen[..j];
    assert seen' == seen'[..|seen'|];
    if wanted(rows[n].value) && !keepGoing(seen') {
      assert Delivered(rows, wanted, keepGoing, seen', None, n + 1);
    }
  }

  lemma DeliverEnd<T>(rows: seq<Result<T>>, wanted: T -> bool, keepGoing: seq<T> -> bool, seen: seq<T>, n: nat)
    requires Delivering(rows, wanted, keepGoing, seen, n)
    requires n < |rows| ==> rows[n].Err?
    ensures Delivers(rows, wanted, keepGoing, seen, if n < |rows| then Some(rows[n].error) else None)
  {
    assert seen == seen[..|seen|];
    assert Delivered(rows, wanted, keepGoing, seen, if n < |rows| then Some(rows[n].error) else None, n);
  }

  ghost predicate HasLedgerIndex(store: Store) {
    [PREFIX_LEDGER_INDEX] in store && |store[[PREFIX_LEDGER_INDEX]]| >= 4
  }

  function LedgerIndexOf(store: Store): uint32
    requires HasLedgerIndex(store)
  {
    DecodeUint32(store[[PREFIX_LEDGER_INDEX]][..4])
  }

  class Manager {
    const utxoStorage: Store
    var ledgerIndex: Option<uint32>

    ghost predicate Valid()
      reads this
    {
      ledgerIndex.Some? ==> HasLedgerIndex(utxoStorage) && ledgerIndex.value == LedgerIndexOf(utxoStorage)
    }

    constructor (store: Store)
      ensures Valid() && utxoStorage == store && ledgerIndex == None
    {
      utxoStorage := store;
      ledgerIndex := None;
    }

    /** Read once, then remembered. Without a stored index the first use panics. */
    method ReadLedgerIndex() returns (index: uint32)
      requires Valid() && HasLedgerIndex(utxoStorage)
      modifies this
      ensures Valid() && index == LedgerIndexOf(utxoStorage)
      ensures ledgerIndex == Some(index)
    {
      if ledgerIndex.None? {
        ledgerIndex := Some(DecodeUint32(utxoStorage[[PREFIX_LEDGER_INDEX]][..4]));
      }
      index := ledgerIndex.value;
    }

    method ReadOutputByOutputID(id: OutputID) returns (r: Result<Output>)
      ensures r == ReadOutput(utxoStorage, id)
    {
      var value :- Get(utxoStorage, OutputKey(id));
      r := LoadOutput(OutputKey(id), value);
    }

    method LoadUnspentRow(key: Bytes) returns (r: Result<Output>)
      ensures r == UnspentRow(utxoStorage, key)
    {
      var id :- OutputIDFromIndexKey(key);
      r := ReadOutputByOutputID(id);
    }

    method LoadSpentRow(key: Bytes) returns (r: Result<Spent>)
      requires key in utxoStorage
      ensures r == SpentRow(utxoStorage, key)
    {
      var row :- LoadSpending(key, utxoStorage[key]);
      var output :- ReadOutputByOutputID(row.0);
      r := Ok(Spent(output, row.1));
    }

    method ForEachUnspentOutput(opt: IterateOptions, keepGoing: seq<Output> -> bool)
      returns (seen: seq<Output>, err: Option<Error>)
      ensures Delivers(UnspentRows(utxoStorage, opt), WantedOutput(opt), keepGoing, seen, err)
    {
      hide UnspentRows, UnspentRow, Scan, IndexPrefix, Delivering, Delivers;
      var keys := Scan(utxoStorage, IndexPrefix(PREFIX_UNSPENT, opt.address, opt.filterOutputType));
      assert forall i | 0 <= i < |keys| :: keys[i] in keys;
      ghost var rows := UnspentRows(utxoStorage, opt);
      ghost var wanted := WantedOutput(opt);
      UnspentRowsOfKeys(utxoStorage, opt);
      DeliverStart(rows, wanted, keepGoing);
      seen, err := [], None;
      var i := 0;
      while i < |keys|
        invariant 0 <= i <= |rows| && err.None?
        invariant Delivering(rows, wanted, keepGoing, seen, i)
      {
        if opt.maxResultCount > 0 && i >= opt.maxResultCount {
          break;
        }
        var loaded := LoadUnspentRow(keys[i]);
        if loaded.Err? {
          DeliverEnd(rows, wanted, keepGoing, seen, i);
          err := Some(loaded.error);
          return;
        }
        ghost var before := seen;
        var output := loaded.value;
        i := i + 1;
        if PassesTypeFilter(opt, output.outputType) {
          seen := seen + [output];
        }
        DeliverNext(rows, wanted, keepGoing, before, i - 1, seen);
        if PassesTypeFilter(opt, output.outputType) && !keepGoing(seen) {
          return;
        }
      }
      DeliverEnd(rows, wanted, keepGoing, seen, i);
    }

    method ForEachSpentOutput(opt: IterateOptions, keepGoing: seq<Spent> -> bool)
      returns (seen: seq<Spent>, err: Option<Error>)
      ensures Delivers(SpentRows(utxoStorage, opt), WantedSpent(opt), keepGoing, seen, err)
    {
      hide SpentRows, SpentRow, Scan, IndexPrefix, Delivering, Delivers;
      var keys := Scan(utxoStorage, IndexPrefix(PREFIX_SPENT, opt.address, opt.filterOutputType));
      assert forall i | 0 <= i < |keys| :: keys[i] in keys;
      ghost var rows := SpentRows(utxoStorage, opt);
      ghost var wanted := WantedSpent(opt);
      SpentRowsOfKeys(utxoStorage, opt);
      DeliverStart(rows, wanted, keepGoing);
      seen, err := [], None;
      var i := 0;
      while i < |keys|
        invariant 0 <= i <= |rows| && err.None?
        invariant Delivering(rows, wanted, keepGoing, seen, i)
      {
        if opt.maxResultCount > 0 && i >= opt.maxResultCount {
          break;
        }
        var loaded := LoadSpentRow(keys[i]);
        if loaded.Err? {
          DeliverEnd(rows, wanted, keepGoing, seen, i);
          err := Some(loaded.error);
          return;
        }
        ghost var before := seen;
        var spent := loaded.value;
        i := i + 1;
        if PassesTypeFilter(opt, spent.output.outputType) {
          seen := seen + [spent];
        }
        DeliverNext(rows, wanted, keepGoing, before, i - 1, seen);
        if PassesTypeFilter(opt, spent.output.outputType) && !keepGoing(seen) {
          return;
        }
      }
      DeliverEnd(rows, wanted, keepGoing, seen, i);
    }

    method UnspentOutputs(opt: IterateOptions) returns (r: Result<seq<Output>>)
      ensures Collected(UnspentRows(utxoStorage, opt), WantedOutput(opt), r)
    {
      var outputs, err := ForEachUnspentOutput(opt, _ => true);
      assert UnspentRows(utxoStorage, opt)[..|UnspentRows(utxoStorage, opt)|] == UnspentRows(utxoStorage, opt);
      r := if err.Some? then Err(err.value) else Ok(outputs);
    }

    method SpentOutputs(opt: IterateOptions) returns (r: Result<seq<Spent>>)
      ensures Collected(SpentRows(utxoStorage, opt), WantedSpent(opt), r)
    {
      var spents, err := ForEachSpentOutput(opt, _ => true);
      assert SpentRows(utxoStorage, opt)[..|SpentRows(utxoStorage, opt)|] == SpentRows(utxoStorage, opt);
      r := if err.Some? then Err(err.value) else Ok(spents);
    }
  }
}
