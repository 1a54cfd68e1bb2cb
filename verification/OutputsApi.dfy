/** Output lookup by ID, and the paged listing of the outputs of an address. */
module OutputsApi {
  import opened ByteStrings
  import opened KVStores
  import opened Marshalling
  import opened Records
  import opened Ledgers
  import opened UtxoManager
  import opened IndexScans
  import opened Hexadecimal

  datatype ApiResult<+T> = Success(value: T) | NotFound | InternalError

  lemma RepresentsValid(store: Store, L: Ledger)
    requires Represents(store, L)
    ensures ValidLedger(L)
  {
  }

  // ----- spent lookups -----

  function SpentFor(store: Store, o: Output): Result<Spent> {
    var value :- Get(store, IndexKey(PREFIX_SPENT, o));
    var spending :- DecodeSpending(value);
    Ok(Spent(o, spending))
  }

  function ReadSpent(store: Store, id: OutputID): Result<Spent> {
    var o :- ReadOutput(store, id);
    SpentFor(store, o)
  }

  method ReadSpentForOutput(u: Manager, o: Output) returns (r: Result<Spent>)
    ensures r == SpentFor(u.utxoStorage, o)
  {
    var key := IndexKey(PREFIX_SPENT, o);
    IndexKeyRoundTrip(PREFIX_SPENT, o);
    var value :- Get(u.utxoStorage, key);
    var row :- LoadSpending(key, value);
    r := Ok(Spent(o, row.1));
  }

  method ReadSpentForOutputID(u: Manager, id: OutputID) returns (r: Result<Spent>)
    ensures r == ReadSpent(u.utxoStorage, id)
  {
    var o :- u.ReadOutputByOutputID(id);
    r := ReadSpentForOutput(u, o);
  }

  method IsOutputUnspent(u: Manager, o: Output) returns (unspent: bool)
    ensures unspent <==> IndexKey(PREFIX_UNSPENT, o) in u.utxoStorage
  {
    unspent := IndexKey(PREFIX_UNSPENT, o) in u.utxoStorage;
  }

  /** In a well-formed database the key of an output is in an index exactly when its ID belongs there. */
  lemma IndexMembership(store: Store, L: Ledger, o: Output)
    requires Represents(store, L) && o.outputID in L.outputs && o == L.outputs[o.outputID]
    ensures IndexKey(PREFIX_UNSPENT, o) in store <==> o.outputID in UnspentIDs(L)
    ensures IndexKey(PREFIX_SPENT, o) in store <==> o.outputID in SpentIDs(L)
  {
    IndexMembershipIn(store, L, PREFIX_UNSPENT, UnspentIDs(L), o);
    IndexMembershipIn(store, L, PREFIX_SPENT, SpentIDs(L), o);
  }

  lemma IndexMembershipIn(store: Store, L: Ledger, tag: byte, ids: set<OutputID>, o: Output)
    requires ValidLedger(L) && ids <= L.outputs.Keys
    requires KeysUnder(store, [tag]) == IndexKeys(L, tag, ids)
    requires o.outputID in L.outputs && o == L.outputs[o.outputID]
    ensures IndexKey(tag, o) in store <==> o.outputID in ids
  {
    var key := IndexKey(tag, o);
    assert [tag] <= key;
    if key in store {
      assert key in KeysUnder(store, [tag]);
      var id :| id in ids && key == IndexKey(tag, L.outputs[id]);
      IndexKeyInjective(tag, o, tag, L.outputs[id]);
    }
    if o.outputID in ids {
      assert key in IndexKeys(L, tag, ids);
    }
  }

  /** The spent lookup by ID is the spending recorded for that output, reached through the address index. */
  lemma ReadSpentRepresented(store: Store, L: Ledger, id: OutputID)
    requires Represents(store, L)
    ensures ReadSpent(store, id) == if id in L.spendings then Ok(Spent(L.outputs[id], L.spendings[id])) else Err(KeyNotFound)
  {
    ReadOutputRepresented(store, L, id);
    if id in L.outputs {
      IndexMembership(store, L, L.outputs[id]);
      if id in L.spendings {
        SpendingRoundTrip(L.spendings[id]);
      }
    }
  }

  // ----- output by ID -----

  const OUTPUT_SIG_LOCKED_SINGLE: byte := 0
  const OUTPUT_SIG_LOCKED_DUST_ALLOWANCE: byte := 1

  datatype RawOutput = SigLockedSingleOutput(address: Address, amount: uint64)
                     | SigLockedDustAllowanceOutput(address: Address, amount: uint64)

  datatype OutputResponse = OutputResponse(
    messageID: Bytes,
    transactionID: Bytes,
    outputIndex: nat,
    spent: bool,
    milestoneIndexSpent: uint32,
    transactionIDSpent: Bytes,
    ledgerIndex: uint32,
    rawOutput: RawOutput)

  method NewOutputResponse(o: Output, ledgerIndex: uint32) returns (r: ApiResult<OutputResponse>)
    ensures r.Success? <==> o.outputType == 0 || o.outputType == 1
    ensures r != NotFound
    ensures r.Success? ==> DescribesOutput(r.value, o, ledgerIndex) && DescribesUnspent(r.value)
  {
    var raw;
    if o.outputType == OUTPUT_SIG_LOCKED_SINGLE {
      raw := SigLockedSingleOutput(o.address, o.amount);
    } else if o.outputType == OUTPUT_SIG_LOCKED_DUST_ALLOWANCE {
      raw := SigLockedDustAllowanceOutput(o.address, o.amount);
    } else {
      return InternalError;
    }
    FromHexInvertsToHex(o.messageID);
    FromHexInvertsToHex(o.outputID[..32]);
    LEInvertsFromLE(o.outputID[32..34]);
    assert o.outputID[32..34] == o.outputID[32..];
    r := Success(OutputResponse(ToHex(o.messageID), ToHex(o.outputID[..32]), FromLE(o.outputID[32..34]),
                                false, 0, [], ledgerIndex, raw));
  }

  method NewSpentResponse(s: Spent, ledgerIndex: uint32) returns (r: ApiResult<OutputResponse>)
    ensures r.Success? <==> s.output.outputType == 0 || s.output.outputType == 1
    ensures r != NotFound
    ensures r.Success? ==> DescribesOutput(r.value, s.output, ledgerIndex) && DescribesSpending(r.value, s.spending)
  {
    r := NewOutputResponse(s.output, ledgerIndex);
    if r.Success? {
      FromHexInvertsToHex(s.spending.targetTransactionID);
      r := Success(r.value.(
        spent := true,
        milestoneIndexSpent := s.spending.confirmationIndex,
        transactionIDSpent := ToHex(s.spending.targetTransactionID)));
    }
  }

  /** The response carries the identity and the content of the output. */
  ghost predicate DescribesOutput(r: OutputResponse, o: Output, ledgerIndex: uint32) {
    && FromHex(r.messageID) == Ok(o.messageID)
    && FromHex(r.transactionID) == Ok(o.outputID[..32])
    && LE(r.outputIndex, 2) == o.outputID[32..]
    && r.ledgerIndex == ledgerIndex
    && r.rawOutput.address == o.address
    && r.rawOutput.amount == o.amount
    && (r.rawOutput.SigLockedSingleOutput? <==> o.outputType == 0)
  }

  ghost predicate DescribesUnspent(r: OutputResponse) {
    !r.spent && r.milestoneIndexSpent == 0 && r.transactionIDSpent == []
  }

  ghost predicate DescribesSpending(r: OutputResponse, s: Spending) {
    && r.spent
    && r.milestoneIndexSpent == s.confirmationIndex
    && FromHex(r.transactionIDSpent) == Ok(s.targetTransactionID)
  }

  /** The answer the ledger calls for. */
  ghost predicate AnswersLookup(r: ApiResult<OutputResponse>, L: Ledger, id: OutputID) {
    if id !in L.outputs then
      r == NotFound
    else if L.outputs[id].outputType != 0 && L.outputs[id].outputType != 1 then
      r == InternalError
    else
      && r.Success?
      && DescribesOutput(r.value, L.outputs[id], L.index)
      && (r.value.spent <==> id in SpentIDs(L))
      && (if id in L.spendings then DescribesSpending(r.value, L.spendings[id]) else DescribesUnspent(r.value))
  }

  lemma LedgerIndexRepresented(store: Store, L: Ledger)
    requires Represents(store, L)
    ensures HasLedgerIndex(store) && LedgerIndexOf(store) == L.index
  {
    Uint32RoundTrip(L.index);
    assert LE(L.index, 4)[..4] == LE(L.index, 4);
  }

  method OutputByID(u: Manager, id: OutputID) returns (r: ApiResult<OutputResponse>)
    requires u.Valid() && HasLedgerIndex(u.utxoStorage)
    modifies u
    ensures u.Valid()
    ensures forall L | Represents(u.utxoStorage, L) :: AnswersLookup(r, L, id)
    ensures r.NotFound? <==>
              || ReadOutput(u.utxoStorage, id) == Err(KeyNotFound)
              || (ReadOutput(u.utxoStorage, id).Ok?
                  && IndexKey(PREFIX_UNSPENT, ReadOutput(u.utxoStorage, id).value) !in u.utxoStorage
                  && IndexKey(PREFIX_SPENT, ReadOutput(u.utxoStorage, id).value) !in u.utxoStorage)
  {
    var ledgerIndex := u.ReadLedgerIndex();
    var output := u.ReadOutputByOutputID(id);
    if output.Err? {
      forall L | Represents(u.utxoStorage, L) ensures output == Err(KeyNotFound) && id !in L.outputs {
        ReadOutputRepresented(u.utxoStorage, L, id);
      }
      return if output.error == KeyNotFound then NotFound else InternalError;
    }
    forall L | Represents(u.utxoStorage, L)
      ensures id in L.outputs && output.value == L.outputs[id] && ledgerIndex == L.index
      ensures id in L.spendings ==> SpentFor(u.utxoStorage, output.value) == Ok(Spent(output.value, L.spendings[id]))
      ensures IndexKey(PREFIX_UNSPENT, output.value) in u.utxoStorage <==> id !in L.spendings
    {
      LookupFacts(u.utxoStorage, L, id);
    }
    var unspent := IsOutputUnspent(u, output.value);
    hide RepresentsOutputs, RepresentsIndexes, RepresentsMilestones, IndexKey, FromHex, LE;
    if unspent {
      r := NewOutputResponse(output.value, ledgerIndex);
      return;
    }
    var spent := ReadSpentForOutput(u, output.value);
    if spent.Err? {
      return if spent.error == KeyNotFound then NotFound else InternalError;
    }
    r := NewSpentResponse(spent.value, ledgerIndex);
  }

  lemma LookupFacts(store: Store, L: Ledger, id: OutputID)
    requires Represents(store, L) && ReadOutput(store, id).Ok?
    ensures id in L.outputs && ReadOutput(store, id) == Ok(L.outputs[id])
    ensures HasLedgerIndex(store) && LedgerIndexOf(store) == L.index
    ensures id in L.spendings ==> SpentFor(store, L.outputs[id]) == Ok(Spent(L.outputs[id], L.spendings[id]))
    ensures IndexKey(PREFIX_UNSPENT, L.outputs[id]) in store <==> id !in L.spendings
  {
    ReadOutputRepresented(store, L, id);
    LedgerIndexRepresented(store, L);
    IndexMembership(store, L, L.outputs[id]);
    ReadSpentRepresented(store, L, id);
  }

  ghost predicate Lists(s: seq<Output>, id: OutputID) {
    exists i :: 0 <= i < |s| && s[i].outputID == id
  }

  /**
   The lookup agrees with the scans: a stored output is reported spent exactly when the
   spent scan of its own address lists it, and unspent exactly when the unspent scan does.
   */
  lemma LookupCoherence(r: ApiResult<OutputResponse>, L: Ledger, id: OutputID)
    requires ValidLedger(L) && AnswersLookup(r, L, id) && r.Success?
    ensures var opt := IterateOptions(Some(r.value.rawOutput.address), 0, None);
            && (r.value.spent <==> Lists(FilteredScan(L, PREFIX_SPENT, SpentIDs(L), opt), id))
            && (!r.value.spent <==> Lists(FilteredScan(L, PREFIX_UNSPENT, UnspentIDs(L), opt), id))
  {
    AddressScanComplete(L, PREFIX_SPENT, SpentIDs(L), r.value.rawOutput.address);
    AddressScanComplete(L, PREFIX_UNSPENT, UnspentIDs(L), r.value.rawOutput.address);
    hide FilteredScan, DescribesOutput, DescribesSpending;
  }

  /** The spending that is reported is the one the spent scan of the output's address yields for it. */
  lemma LookupSpendingCoherence(store: Store, L: Ledger, r: ApiResult<OutputResponse>, id: OutputID, i: nat)
    requires Represents(store, L) && AnswersLookup(r, L, id) && r.Success?
    requires i < |SpentRows(store, IterateOptions(Some(r.value.rawOutput.address), 0, None))|
    ensures var row := SpentRows(store, IterateOptions(Some(r.value.rawOutput.address), 0, None))[i];
            row.Ok? && (row.value.output.outputID == id ==> DescribesSpending(r.value, row.value.spending))
  {
    SpentRowAt(store, L, IterateOptions(Some(r.value.rawOutput.address), 0, None), i);
    hide SpentRows, PrefixListing, DescribesOutput, DescribesSpending, Represents;
  }

  // ----- paged listing -----

  datatype AddressOutputsResponse = AddressOutputsResponse(
    address: Bytes,
    maxResults: nat,
    count: nat,
    outputIDs: seq<Bytes>,
    ledgerIndex: uint32)

  function HexIDs(outputs: seq<Output>): (ids: seq<Bytes>)
    ensures |ids| == |outputs|
  {
    seq(|outputs|, i requires 0 <= i < |outputs| => ToHex(outputs[i].outputID))
  }

  /** The outputs the page is cut from; a page size of zero means no limit, and then no spent outputs. */
  ghost function Page(L: Ledger, address: Address, includeSpent: bool, filterType: Option<byte>, maxResults: nat): seq<Output>
    requires ValidLedger(L)
  {
    var opt := IterateOptions(Some(address), 0, filterType);
    var unspent := FilteredScan(L, PREFIX_UNSPENT, UnspentIDs(L), opt);
    var spent := if includeSpent then FilteredScan(L, PREFIX_SPENT, SpentIDs(L), opt) else [];
    FirstOf(unspent, spent, maxResults)
  }

  function FirstOf<T>(s: seq<T>, t: seq<T>, max: nat): seq<T> {
    if max == 0 then s
    else if max < |s + t| then (s + t)[..max]
    else s + t
  }

  lemma FirstOfSplices<T>(s: seq<T>, t: seq<T>, max: nat)
    ensures FirstOf(s, t, max) ==
            Capped(s, max) + if max - |Capped(s, max)| > 0 then Capped(t, max - |Capped(s, max)|) else []
  {
  }

  lemma LimitedScan(L: Ledger, tag: byte, ids: set<OutputID>, address: Address, max: int, filterType: Option<byte>)
    requires ValidLedger(L) && ids <= L.outputs.Keys
    ensures FilteredScan(L, tag, ids, IterateOptions(Some(address), max, filterType)) ==
            Capped(FilteredScan(L, tag, ids, IterateOptions(Some(address), 0, filterType)), max)
  {
    var opt, opt' := IterateOptions(Some(address), max, filterType), IterateOptions(Some(address), 0, filterType);
    SameFilter(Matching(opt), Matching(opt'), Listing(L, tag, ids));
  }

  lemma SplicedPage(L: Ledger, address: Address, includeSpent: bool, filterType: Option<byte>, maxResults: nat)
    requires ValidLedger(L)
    ensures var unspent := FilteredScan(L, PREFIX_UNSPENT, UnspentIDs(L), IterateOptions(Some(address), maxResults, filterType));
            var left := maxResults - |unspent|;
            Page(L, address, includeSpent, filterType, maxResults) ==
            unspent +
            if includeSpent && left > 0 then
              FilteredScan(L, PREFIX_SPENT, SpentIDs(L), IterateOptions(Some(address), left, filterType))
            else []
  {
    hide FilteredScan, FirstOf;
    var opt := IterateOptions(Some(address), 0, filterType);
    var all := FilteredScan(L, PREFIX_UNSPENT, UnspentIDs(L), opt);
    var spent := if includeSpent then FilteredScan(L, PREFIX_SPENT, SpentIDs(L), opt) else [];
    LimitedScan(L, PREFIX_UNSPENT, UnspentIDs(L), address, maxResults, filterType);
    LimitedScan(L, PREFIX_SPENT, SpentIDs(L), address, maxResults - |Capped(all, maxResults)|, filterType);
    FirstOfSplices(all, spent, maxResults);
  }

  lemma SplicedIDs(L: Ledger, address: Address, includeSpent: bool, filterType: Option<byte>, maxResults: nat)
    requires ValidLedger(L)
    ensures var unspent := HexIDs(FilteredScan(L, PREFIX_UNSPENT, UnspentIDs(L), IterateOptions(Some(address), maxResults, filterType)));
            var left := maxResults - |unspent|;
            HexIDs(Page(L, address, includeSpent, filterType, maxResults)) ==
            unspent +
            if includeSpent && left > 0 then
              HexIDs(FilteredScan(L, PREFIX_SPENT, SpentIDs(L), IterateOptions(Some(address), left, filterType)))
            else []
  {
    hide FilteredScan, Page, ToHex;
    SplicedPage(L, address, includeSpent, filterType, maxResults);
  }

  /** Every row that is scanned for a page is good. */
  ghost predicate PageRowsOk(store: Store, opt: IterateOptions, includeSpent: bool, maxResults: uint32) {
    var unspent := UnspentRows(store, opt.(maxResultCount := maxResults));
    && AllOk(unspent)
    && (includeSpent && maxResults - |unspent| > 0 ==> AllOk(SpentRows(store, opt.(maxResultCount := maxResults - |unspent|))))
  }

  lemma AllHexIDsDecode(s: seq<Output>)
    ensures |HexIDs(s)| == |s| && forall i | 0 <= i < |s| :: FromHex(HexIDs(s)[i]) == Ok(s[i].outputID)
  {
    hide HexIDs, FromHex;
    forall i | 0 <= i < |s| ensures FromHex(HexIDs(s)[i]) == Ok(s[i].outputID) {
      HexIDsDecode(s, i);
    }
  }

  method OutputsResponse(u: Manager, address: Address, includeSpent: bool, filterType: Option<byte>, maxResults: uint32)
    returns (r: ApiResult<AddressOutputsResponse>)
    requires u.Valid() && HasLedgerIndex(u.utxoStorage)
    modifies u
    ensures u.Valid()
    ensures !r.NotFound?
    ensures r.InternalError? <==> !PageRowsOk(u.utxoStorage, IterateOptions(Some(address), 0, filterType), includeSpent, maxResults)
    ensures forall L | Represents(u.utxoStorage, L) ::
              && r.Success?
              && r.value.outputIDs == HexIDs(Page(L, address, includeSpent, filterType, maxResults))
              && r.value.ledgerIndex == L.index
              && var page := Page(L, address, includeSpent, filterType, maxResults);
                 |r.value.outputIDs| == |page| && forall i | 0 <= i < |page| :: FromHex(r.value.outputIDs[i]) == Ok(page[i].outputID)
    ensures r.Success? ==>
              && FromHex(r.value.address) == Ok(address)
              && r.value.maxResults == maxResults
              && r.value.count == |r.value.outputIDs| % 0x1_0000_0000
  {
    var ledgerIndex := u.ReadLedgerIndex();
    forall L | Represents(u.utxoStorage, L) ensures ledgerIndex == L.index {
      LedgerIndexRepresented(u.utxoStorage, L);
    }
    FromHexInvertsToHex(address);
    hide *;

    var outputIDs := PagedIDs(u, IterateOptions(Some(address), 0, filterType), includeSpent, maxResults);
    if outputIDs.Err? {
      return InternalError;
    }
    var ids := outputIDs.value;
    forall L | Represents(u.utxoStorage, L)
      ensures ValidLedger(L)
      ensures var page := Page(L, address, includeSpent, filterType, maxResults);
              |ids| == |page| && forall i | 0 <= i < |page| :: FromHex(ids[i]) == Ok(page[i].outputID)
    {
      RepresentsValid(u.utxoStorage, L);
      AllHexIDsDecode(Page(L, address, includeSpent, filterType, maxResults));
    }
    r := Success(AddressOutputsResponse(ToHex(address), maxResults, |ids| % 0x1_0000_0000, ids, ledgerIndex));
  }

  /** Splices two limited scans under one budget. */
  method PagedIDs(u: Manager, opt: IterateOptions, includeSpent: bool, maxResults: uint32) returns (r: Result<seq<Bytes>>)
    requires opt.address.Some? && opt.maxResultCount == 0
    ensures r.Ok? <==> PageRowsOk(u.utxoStorage, opt, includeSpent, maxResults)
    ensures forall L | Represents(u.utxoStorage, L) ::
              r == Ok(HexIDs(Page(L, opt.address.value, includeSpent, opt.filterOutputType, maxResults)))
  {
    hide *;
    PageRows(u.utxoStorage, opt, includeSpent, maxResults);
    forall L | Represents(u.utxoStorage, L) ensures ValidLedger(L) {
      RepresentsValid(u.utxoStorage, L);
    }
    r := UnspentIDsUpTo(u, opt.(maxResultCount := maxResults));
    if r.Err? {
      return;
    }
    var outputIDs, left := r.value, maxResults - |r.value|;
    var spentIDs := [];
    if includeSpent && left > 0 {
      r := SpentIDsUpTo(u, opt.(maxResultCount := left));
      if r.Err? {
        return;
      }
      spentIDs := r.value;
    }
    forall L | Represents(u.utxoStorage, L)
      ensures outputIDs + spentIDs == HexIDs(Page(L, opt.address.value, includeSpent, opt.filterOutputType, maxResults))
    {
      SplicedIDs(L, opt.address.value, includeSpent, opt.filterOutputType, maxResults);
    }
    r := Ok(outputIDs + spentIDs);
  }

  lemma PageRows(store: Store, opt: IterateOptions, includeSpent: bool, maxResults: uint32)
    ensures PageRowsOk(store, opt, includeSpent, maxResults) <==>
            var unspent := UnspentRows(store, opt.(maxResultCount := maxResults));
            && AllOk(unspent)
            && (includeSpent && maxResults - |unspent| > 0 ==> AllOk(SpentRows(store, opt.(maxResultCount := maxResults - |unspent|))))
  {
  }

  lemma AllWanted(store: Store, opt: IterateOptions)
    requires opt.address.Some? && AllOk(UnspentRows(store, opt))
    ensures |Filter(WantedOutput(opt), Values(UnspentRows(store, opt)))| == |UnspentRows(store, opt)|
  {
    hide UnspentRows;
    FilterAll(WantedOutput(opt), Values(UnspentRows(store, opt)));
  }

  method UnspentIDsUpTo(u: Manager, opt: IterateOptions) returns (r: Result<seq<Bytes>>)
    requires opt.address.Some?
    ensures r.Ok? <==> AllOk(UnspentRows(u.utxoStorage, opt))
    ensures r.Ok? ==> |r.value| == |UnspentRows(u.utxoStorage, opt)|
    ensures forall L | Represents(u.utxoStorage, L) :: r == Ok(HexIDs(FilteredScan(L, PREFIX_UNSPENT, UnspentIDs(L), opt)))
  {
    var outputs := u.UnspentOutputs(opt);
    ghost var store := u.utxoStorage;
    if outputs.Ok? {
      AllWanted(store, opt);
    }
    forall L | Represents(store, L) ensures outputs == Ok(FilteredScan(L, PREFIX_UNSPENT, UnspentIDs(L), opt)) {
      UnspentScanRefinesFilter(store, L, opt);
    }
    if outputs.Err? {
      return Err(outputs.error);
    }
    hide *;
    var ids := [];
    for i := 0 to |outputs.value|
      invariant ids == HexIDs(outputs.value[..i])
    {
      HexIDsNext(outputs.value, i);
      ids := ids + [ToHex(outputs.value[i].outputID)];
    }
    assert outputs.value[..|outputs.value|] == outputs.value;
    r := Ok(ids);
  }

  method SpentIDsUpTo(u: Manager, opt: IterateOptions) returns (r: Result<seq<Bytes>>)
    ensures r.Ok? <==> AllOk(SpentRows(u.utxoStorage, opt))
    ensures forall L | Represents(u.utxoStorage, L) :: r == Ok(HexIDs(FilteredScan(L, PREFIX_SPENT, SpentIDs(L), opt)))
  {
    var spents := u.SpentOutputs(opt);
    ghost var store := u.utxoStorage;
    forall L | Represents(store, L)
      ensures spents.Ok? && OutputsOf(spents.value) == FilteredScan(L, PREFIX_SPENT, SpentIDs(L), opt)
    {
      SpentScanRefinesFilter(store, L, opt);
    }
    if spents.Err? {
      return Err(spents.error);
    }
    ghost var outputs := OutputsOf(spents.value);
    assert forall i | 0 <= i < |outputs| :: outputs[i] == spents.value[i].output;
    hide *;
    var ids := [];
    for i := 0 to |spents.value|
      invariant ids == HexIDs(outputs[..i])
    {
      HexIDsNext(outputs, i);
      ids := ids + [ToHex(spents.value[i].output.outputID)];
    }
    assert outputs[..|outputs|] == outputs;
    r := Ok(ids);
  }

  ghost function OutputsOf(spents: seq<Spent>): (outputs: seq<Output>)
    ensures |outputs| == |spents|
  {
    seq(|spents|, i requires 0 <= i < |spents| => spents[i].output)
  }

  lemma HexIDsNext(outputs: seq<Output>, i: nat)
    requires i < |outputs|
    ensures HexIDs(outputs[..i]) + [ToHex(outputs[i].outputID)] == HexIDs(outputs[..i + 1])
    ensures HexIDs(outputs[..0]) == []
  {
  }

  ghost predicate DistinctIDs(s: seq<Output>) {
    forall i, j | 0 <= i < j < |s| :: s[i].outputID != s[j].outputID
  }

  lemma ListingsDisjoint(L: Ledger, ids: set<OutputID>, s: seq<Output>, ids': set<OutputID>, t: seq<Output>)
    requires ids !! ids'
    requires IsListing(L, PREFIX_UNSPENT, ids, s) && IsListing(L, PREFIX_SPENT, ids', t)
    ensures DistinctIDs(s + t)
  {
    forall i, j | 0 <= i < j < |s + t| ensures (s + t)[i].outputID != (s + t)[j].outputID {
      if j < |s| {
        ListingDistinct(L, PREFIX_UNSPENT, ids, s, i, j);
      } else if |s| <= i {
        ListingDistinct(L, PREFIX_SPENT, ids', t, i - |s|, j - |s|);
      } else {
        hide IndexKey, Less;
        assert (s + t)[i] == s[i] && (s + t)[j] == t[j - |s|];
      }
    }
  }

  lemma ListingAloneDistinct(L: Ledger, tag: byte, ids: set<OutputID>, s: seq<Output>)
    requires IsListing(L, tag, ids, s)
    ensures DistinctIDs(s)
  {
    forall i, j | 0 <= i < j < |s| ensures s[i].outputID != s[j].outputID {
      ListingDistinct(L, tag, ids, s, i, j);
    }
  }

  /** No output is listed twice, even across the splice. */
  lemma PageDistinct(L: Ledger, address: Address, includeSpent: bool, filterType: Option<byte>, maxResults: nat)
    requires ValidLedger(L)
    ensures DistinctIDs(Page(L, address, includeSpent, filterType, maxResults))
  {
    hide *;
    var opt := IterateOptions(Some(address), 0, filterType);
    ScansDistinct(L, opt);
    PageIsFirstOf(L, address, includeSpent, filterType, maxResults);
    FirstOfDistinct(FilteredScan(L, PREFIX_UNSPENT, UnspentIDs(L), opt),
                    if includeSpent then FilteredScan(L, PREFIX_SPENT, SpentIDs(L), opt) else [], maxResults);
  }

  lemma PageIsFirstOf(L: Ledger, address: Address, includeSpent: bool, filterType: Option<byte>, maxResults: nat)
    requires ValidLedger(L)
    ensures UnspentIDs(L) <= L.outputs.Keys && SpentIDs(L) <= L.outputs.Keys
    ensures var opt := IterateOptions(Some(address), 0, filterType);
            Page(L, address, includeSpent, filterType, maxResults) ==
            FirstOf(FilteredScan(L, PREFIX_UNSPENT, UnspentIDs(L), opt),
                    if includeSpent then FilteredScan(L, PREFIX_SPENT, SpentIDs(L), opt) else [], maxResults)
  {
    hide FilteredScan, FirstOf;
  }

  lemma ScansDistinct(L: Ledger, opt: IterateOptions)
    requires ValidLedger(L) && opt.address.Some? && opt.maxResultCount == 0
    ensures UnspentIDs(L) <= L.outputs.Keys && SpentIDs(L) <= L.outputs.Keys
    ensures DistinctIDs(FilteredScan(L, PREFIX_UNSPENT, UnspentIDs(L), opt) + FilteredScan(L, PREFIX_SPENT, SpentIDs(L), opt))
    ensures DistinctIDs(FilteredScan(L, PREFIX_UNSPENT, UnspentIDs(L), opt) + [])
  {
    var unspent, spent := FilteredScan(L, PREFIX_UNSPENT, UnspentIDs(L), opt), FilteredScan(L, PREFIX_SPENT, SpentIDs(L), opt);
    var kept, kept' := Kept(L, UnspentIDs(L), Matching(opt)), Kept(L, SpentIDs(L), Matching(opt));
    assert kept !! kept';
    hide FilteredScan, IsListing, Kept, DistinctIDs;
    FilteredScanIsListing(L, PREFIX_UNSPENT, UnspentIDs(L), opt);
    FilteredScanIsListing(L, PREFIX_SPENT, SpentIDs(L), opt);
    ListingsDisjoint(L, kept, unspent, kept', spent);
    ListingAloneDistinct(L, PREFIX_UNSPENT, kept, unspent);
    assert unspent + [] == unspent;
  }

  lemma FirstOfDistinct(s: seq<Output>, t: seq<Output>, max: nat)
    requires DistinctIDs(s + t)
    ensures DistinctIDs(FirstOf(s, t, max))
  {
    var page := FirstOf(s, t, max);
    assert forall i | 0 <= i < |page| :: page[i] == (s + t)[i];
  }

  /** The texts stand for the output IDs, one by one. */
  lemma HexIDsDecode(s: seq<Output>, i: nat)
    requires i < |s|
    ensures FromHex(HexIDs(s)[i]) == Ok(s[i].outputID)
  {
    FromHexInvertsToHex(s[i].outputID);
  }

  /** Distinct outputs have distinct texts. */
  lemma HexIDsDistinct(s: seq<Output>, i: nat, j: nat)
    requires DistinctIDs(s) && i < j < |s|
    ensures HexIDs(s)[i] != HexIDs(s)[j]
  {
    if HexIDs(s)[i] == HexIDs(s)[j] {
      ToHexInjective(s[i].outputID, s[j].outputID);
    }
  }

  lemma FilteredScanIsListing(L: Ledger, tag: byte, ids: set<OutputID>, opt: IterateOptions)
    requires ValidLedger(L) && ids <= L.outputs.Keys && opt.address.Some? && opt.maxResultCount == 0
    ensures IsListing(L, tag, Kept(L, ids, Matching(opt)), FilteredScan(L, tag, ids, opt))
  {
    FilterListing(L, tag, ids, Matching(opt));
    ListingIsListing(L, tag, Kept(L, ids, Matching(opt)));
  }
}
