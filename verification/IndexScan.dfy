/**
 Index scans over a well-formed database agree with a filtered scan of the output table.
 */
module IndexScans {
  import opened ByteStrings
  import opened KVStores
  import opened Marshalling
  import opened Records
  import opened Ledgers
  import opened UtxoManager

  predicate InPrefix(opt: IterateOptions, o: Output) {
    match opt.address
    case None => true
    case Some(a) => o.address == a && (opt.filterOutputType.Some? ==> o.outputType == opt.filterOutputType.value)
  }

  predicate Matches(opt: IterateOptions, o: Output) {
    && (opt.address.Some? ==> o.address == opt.address.value)
    && (opt.filterOutputType.Some? ==> o.outputType == opt.filterOutputType.value)
  }

  function UnderPrefix(opt: IterateOptions): Output -> bool {
    (o: Output) => InPrefix(opt, o)
  }

  function Matching(opt: IterateOptions): Output -> bool {
    (o: Output) => Matches(opt, o)
  }

  /** The outputs whose index keys a scan reaches, in index order. */
  ghost function PrefixListing(L: Ledger, tag: byte, ids: set<OutputID>, opt: IterateOptions): seq<Output>
    requires ValidLedger(L) && ids <= L.outputs.Keys
  {
    Capped(Listing(L, tag, Kept(L, ids, UnderPrefix(opt))), opt.maxResultCount)
  }

  /**
   The filtered scan of the output table. With a type filter but no address the limit
   counts rows before they are filtered.
   */
  ghost function FilteredScan(L: Ledger, tag: byte, ids: set<OutputID>, opt: IterateOptions): seq<Output>
    requires ValidLedger(L) && ids <= L.outputs.Keys
  {
    var all := Listing(L, tag, ids);
    var matching := Matching(opt);
    if opt.address.None? && opt.filterOutputType.Some? then
      Filter(matching, Capped(all, opt.maxResultCount))
    else
      Capped(Filter(matching, all), opt.maxResultCount)
  }

  lemma IndexKeyInPrefix(tag: byte, o: Output, opt: IterateOptions)
    ensures IndexPrefix(tag, opt.address, opt.filterOutputType) <= IndexKey(tag, o) <==> InPrefix(opt, o)
  {
    if opt.address.Some? {
      IndexKeyHasPrefix(tag, o, opt.address.value, opt.filterOutputType);
    }
  }

  lemma KeysUnderPrefix(store: Store, L: Ledger, tag: byte, ids: set<OutputID>, opt: IterateOptions)
    requires ValidLedger(L) && ids <= L.outputs.Keys
    requires KeysUnder(store, [tag]) == IndexKeys(L, tag, ids)
    ensures KeysUnder(store, IndexPrefix(tag, opt.address, opt.filterOutputType)) ==
            IndexKeys(L, tag, Kept(L, ids, UnderPrefix(opt)))
  {
    var p := IndexPrefix(tag, opt.address, opt.filterOutputType);
    var kept := Kept(L, ids, UnderPrefix(opt));
    hide IndexKey, InPrefix;
    forall k | k in KeysUnder(store, p) ensures k in IndexKeys(L, tag, kept) {
      assert [tag] <= p <= k;
      assert k in KeysUnder(store, [tag]);
      var id :| id in ids && k == IndexKey(tag, L.outputs[id]);
      IndexKeyInPrefix(tag, L.outputs[id], opt);
      assert id in kept;
    }
    forall k | k in IndexKeys(L, tag, kept) ensures k in KeysUnder(store, p) {
      var id :| id in kept && k == IndexKey(tag, L.outputs[id]);
      IndexKeyInPrefix(tag, L.outputs[id], opt);
      assert k in IndexKeys(L, tag, ids);
      assert k in KeysUnder(store, [tag]);
    }
  }

  /** The rows a scan visits are the index keys of the listing, in its order. */
  lemma ScanVisitsListing(store: Store, L: Ledger, tag: byte, ids: set<OutputID>, opt: IterateOptions)
    requires ValidLedger(L) && ids <= L.outputs.Keys
    requires KeysUnder(store, [tag]) == IndexKeys(L, tag, ids)
    ensures var keys := ScannedKeys(store, tag, opt);
            var s := PrefixListing(L, tag, ids, opt);
            && |keys| == |s|
            && (forall i | 0 <= i < |s| :: keys[i] == IndexKey(tag, s[i]))
            && (forall i | 0 <= i < |s| :: s[i].outputID in ids && s[i] == L.outputs[s[i].outputID])
  {
    KeysUnderPrefix(store, L, tag, ids, opt);
    ListingKeys(L, tag, Kept(L, ids, UnderPrefix(opt)));
    hide IndexKey, InPrefix, IndexKeys, Listing;
  }

  /** With an address, or with no filter at all, filtering by prefix is filtering by `Matches`. */
  lemma PrefixOrFilter(L: Ledger, tag: byte, ids: set<OutputID>, opt: IterateOptions, passes: Output -> bool)
    requires ValidLedger(L) && ids <= L.outputs.Keys
    requires forall o :: passes(o) == PassesTypeFilter(opt, o.outputType)
    ensures Filter(passes, PrefixListing(L, tag, ids, opt))
            == FilteredScan(L, tag, ids, opt)
  {
    var matching := Matching(opt);
    var inPrefix := Kept(L, ids, UnderPrefix(opt));
    var s := Listing(L, tag, inPrefix);
    var c := Capped(s, opt.maxResultCount);
    if opt.address.None? && opt.filterOutputType.Some? {
      assert inPrefix == ids;
      SameFilter(passes, matching, c);
    } else {
      assert inPrefix == Kept(L, ids, matching);
      FilterListing(L, tag, ids, matching);
      FilterAll(passes, c);
    }
  }

  lemma {:induction false} SameFilter<T>(p: T -> bool, q: T -> bool, s: seq<T>)
    requires forall x :: x in s ==> p(x) == q(x)
    ensures Filter(p, s) == Filter(q, s)
  {
    if s != [] {
      SameFilter(p, q, s[..|s| - 1]);
    }
  }

  lemma UnspentRowAt(store: Store, L: Ledger, opt: IterateOptions, i: nat)
    requires Represents(store, L)
    requires i < |UnspentRows(store, opt)|
    ensures var s := PrefixListing(L, PREFIX_UNSPENT, UnspentIDs(L), opt);
            i < |s| && UnspentRows(store, opt)[i] == Ok(s[i])
  {
    hide IndexKey, Scan, PrefixListing, DecodeIndexKey, ReadOutput;
    ScanVisitsListing(store, L, PREFIX_UNSPENT, UnspentIDs(L), opt);
    var key, o := ScannedKeys(store, PREFIX_UNSPENT, opt)[i], PrefixListing(L, PREFIX_UNSPENT, UnspentIDs(L), opt)[i];
    assert UnspentRows(store, opt)[i] == UnspentRow(store, key);
    IndexKeyRoundTrip(PREFIX_UNSPENT, o);
    ReadOutputRepresented(store, L, o.outputID);
  }

  lemma UnspentRowsCount(store: Store, L: Ledger, opt: IterateOptions)
    requires Represents(store, L)
    ensures |UnspentRows(store, opt)| == |PrefixListing(L, PREFIX_UNSPENT, UnspentIDs(L), opt)|
  {
    ScanVisitsListing(store, L, PREFIX_UNSPENT, UnspentIDs(L), opt);
    hide UnspentRow, IndexKey, Scan, PrefixListing, ScannedKeys;
  }

  /**
   Over a well-formed database no row is bad, and the unspent scan delivers exactly what the
   filtered scan of the output table restricted to unspent outputs gives, in key order.
   */
  lemma UnspentScanRefinesFilter(store: Store, L: Ledger, opt: IterateOptions)
    requires Represents(store, L)
    ensures AllOk(UnspentRows(store, opt))
    ensures Filter(WantedOutput(opt), Values(UnspentRows(store, opt)))
            == FilteredScan(L, PREFIX_UNSPENT, UnspentIDs(L), opt)
  {
    PrefixOrFilter(L, PREFIX_UNSPENT, UnspentIDs(L), opt, WantedOutput(opt));
    hide UnspentRow, IndexKey, Scan, PrefixListing, UnspentRows, Represents, FilteredScan, Filter, Kept;
    var s := PrefixListing(L, PREFIX_UNSPENT, UnspentIDs(L), opt);
    UnspentRowsCount(store, L, opt);
    forall i | 0 <= i < |UnspentRows(store, opt)| ensures UnspentRows(store, opt)[i] == Ok(s[i]) {
      UnspentRowAt(store, L, opt, i);
    }
    assert Values(UnspentRows(store, opt)) == s;
  }

  /** The outputs of a listing together with their own spendings. */
  ghost predicate CarriesSpendings(L: Ledger, outputs: seq<Output>, spents: seq<Spent>) {
    && |outputs| == |spents|
    && forall i | 0 <= i < |outputs| ::
         outputs[i].outputID in L.spendings && spents[i] == Spent(outputs[i], L.spendings[outputs[i].outputID])
  }

  lemma SpentRowRepresented(store: Store, L: Ledger, key: Bytes, o: Output)
    requires Represents(store, L) && o.outputID in L.spendings && o == L.outputs[o.outputID]
    requires key == IndexKey(PREFIX_SPENT, o)
    ensures key in store && SpentRow(store, key) == Ok(Spent(o, L.spendings[o.outputID]))
  {
    IndexKeyRoundTrip(PREFIX_SPENT, o);
    ReadOutputRepresented(store, L, o.outputID);
    SpendingRoundTrip(L.spendings[o.outputID]);
    hide IndexKey, DecodeIndexKey, DecodeSpending, ReadOutput, SpendingValue, DecodeOutput;
  }

  lemma SpentRowAt(store: Store, L: Ledger, opt: IterateOptions, i: nat)
    requires Represents(store, L)
    requires i < |SpentRows(store, opt)|
    ensures var s := PrefixListing(L, PREFIX_SPENT, SpentIDs(L), opt);
            i < |s| && s[i].outputID in L.spendings && SpentRows(store, opt)[i] == Ok(Spent(s[i], L.spendings[s[i].outputID]))
  {
    hide SpentRow, IndexKey, Scan, PrefixListing;
    ScanVisitsListing(store, L, PREFIX_SPENT, SpentIDs(L), opt);
    var key, o := ScannedKeys(store, PREFIX_SPENT, opt)[i], PrefixListing(L, PREFIX_SPENT, SpentIDs(L), opt)[i];
    assert SpentRows(store, opt)[i] == SpentRow(store, key);
    hide *;
    SpentRowRepresented(store, L, key, o);
  }

  lemma SpentRowsCount(store: Store, L: Ledger, opt: IterateOptions)
    requires Represents(store, L)
    ensures |SpentRows(store, opt)| == |PrefixListing(L, PREFIX_SPENT, SpentIDs(L), opt)|
  {
    ScanVisitsListing(store, L, PREFIX_SPENT, SpentIDs(L), opt);
    hide SpentRow, IndexKey, Scan, PrefixListing, ScannedKeys;
  }

  lemma SpentRowsRepresented(store: Store, L: Ledger, opt: IterateOptions)
    requires Represents(store, L)
    ensures AllOk(SpentRows(store, opt))
    ensures CarriesSpendings(L, PrefixListing(L, PREFIX_SPENT, SpentIDs(L), opt), Values(SpentRows(store, opt)))
  {
    hide SpentRow, IndexKey, Scan, PrefixListing, SpentRows;
    SpentRowsCount(store, L, opt);
    forall i | 0 <= i < |SpentRows(store, opt)|
      ensures var s := PrefixListing(L, PREFIX_SPENT, SpentIDs(L), opt);
              s[i].outputID in L.spendings && SpentRows(store, opt)[i] == Ok(Spent(s[i], L.spendings[s[i].outputID]))
    {
      SpentRowAt(store, L, opt, i);
    }
  }

  lemma {:induction false} FilterCarriesSpendings(L: Ledger, opt: IterateOptions, s: seq<Output>, t: seq<Spent>)
    requires CarriesSpendings(L, s, t)
    ensures CarriesSpendings(L, Filter(WantedOutput(opt), s), Filter(WantedSpent(opt), t))
  {
    if s != [] {
      FilterCarriesSpendings(L, opt, s[..|s| - 1], t[..|t| - 1]);
    }
  }

  /** The same for the spent index; each row also carries the spending of its own output. */
  lemma SpentScanRefinesFilter(store: Store, L: Ledger, opt: IterateOptions)
    requires Represents(store, L)
    ensures AllOk(SpentRows(store, opt))
    ensures CarriesSpendings(L, FilteredScan(L, PREFIX_SPENT, SpentIDs(L), opt),
                             Filter(WantedSpent(opt), Values(SpentRows(store, opt))))
  {
    SpentRowsRepresented(store, L, opt);
    PrefixOrFilter(L, PREFIX_SPENT, SpentIDs(L), opt, WantedOutput(opt));
    FilterCarriesSpendings(L, opt, PrefixListing(L, PREFIX_SPENT, SpentIDs(L), opt), Values(SpentRows(store, opt)));
  }

  /** A scan by address, without a limit, lists every matching output exactly once. */
  lemma AddressScanComplete(L: Ledger, tag: byte, ids: set<OutputID>, address: Address)
    requires ValidLedger(L) && ids <= L.outputs.Keys
    ensures var s := FilteredScan(L, tag, ids, IterateOptions(Some(address), 0, None));
            && (forall i | 0 <= i < |s| :: s[i].outputID in ids && s[i] == L.outputs[s[i].outputID] && s[i].address == address)
            && (forall id | id in ids && L.outputs[id].address == address :: exists i :: 0 <= i < |s| && s[i].outputID == id)
            && (forall i, j | 0 <= i < j < |s| :: s[i].outputID != s[j].outputID)
  {
    var opt := IterateOptions(Some(address), 0, None);
    var kept := Kept(L, ids, Matching(opt));
    AddressScanIsListing(L, tag, ids, address);
    var s := FilteredScan(L, tag, ids, opt);
    assert forall id | id in kept :: id in ids && L.outputs[id].address == address;
    assert forall id | id in ids && L.outputs[id].address == address :: id in kept;
    hide IndexKey, Less, FilteredScan, Kept;
    forall i, j | 0 <= i < j < |s| ensures s[i].outputID != s[j].outputID {
      ListingDistinct(L, tag, kept, s, i, j);
    }
  }

  lemma AddressScanIsListing(L: Ledger, tag: byte, ids: set<OutputID>, address: Address)
    requires ValidLedger(L) && ids <= L.outputs.Keys
    ensures var opt := IterateOptions(Some(address), 0, None);
            IsListing(L, tag, Kept(L, ids, Matching(opt)), FilteredScan(L, tag, ids, opt))
  {
    var opt := IterateOptions(Some(address), 0, None);
    assert Kept(L, ids, Matching(opt)) <= ids;
    hide IsListing, Listing, Filter, Kept, IndexKey, Less;
    FilterListing(L, tag, ids, Matching(opt));
    ListingIsListing(L, tag, Kept(L, ids, Matching(opt)));
  }
}
