/**
 The cached transaction history. A response shares its array with the cache, and the CSV
 form sorts that array in place.
 */
module HistoryCache {
  import opened ByteStrings
  import opened Marshalling
  import opened Ledgers
  import opened UtxoManager
  import opened OutputsApi
  import opened KVStores
  import opened Tangle
  import opened Hexadecimal
  import opened ConflictTable
  import opened Queries
  import opened HistoryItems
  import opened HistorySort
  import opened History

  // ----- what requests do to the contents of the cache -----

  type Contents = map<Bytes, seq<HistoryItem>>

  datatype Format = JSON | CSV

  datatype Request = Request(address: Address, maxResults: uint32, format: Format)

  datatype HistoryResponse = HistoryResponse(
    address: Bytes,
    maxResults: uint32,
    count: nat,
    history: seq<HistoryItem>,
    ledgerIndex: uint32)

  datatype Response = Served(response: HistoryResponse) | ServerError | ServerPanic

  function PageSize(maxResults: nat, length: nat): (n: nat)
    ensures n <= length
  {
    if length > maxResults then maxResults else length
  }

  /** The first page of a history. */
  function FirstPage(s: seq<HistoryItem>, maxResults: nat): seq<HistoryItem> {
    s[..PageSize(maxResults, |s|)]
  }

  /** What a CSV request leaves of the array it was served from. */
  function AfterCSV(s: seq<HistoryItem>, maxResults: nat): seq<HistoryItem> {
    var n := PageSize(maxResults, |s|);
    Sort(OldestFirst, s[..n]) + s[n..]
  }

  function ResponseFor(node: Node, req: Request, page: seq<HistoryItem>): Response
    requires HasLedgerIndex(node.utxo)
  {
    Served(HistoryResponse(ToHex(req.address), req.maxResults, |page| % 0x1_0000_0000, page, LedgerIndexOf(node.utxo)))
  }

  lemma ResponseIs(node: Node, req: Request, page: seq<HistoryItem>)
    requires HasLedgerIndex(node.utxo)
    ensures ResponseFor(node, req, page) ==
            Served(HistoryResponse(ToHex(req.address), req.maxResults, |page| % 0x1_0000_0000, page, LedgerIndexOf(node.utxo)))
  {
  }

  /** What the response holds, read back. */
  lemma ResponseHolds(node: Node, req: Request, page: seq<HistoryItem>)
    requires HasLedgerIndex(node.utxo)
    ensures var resp := ResponseFor(node, req, page);
            && resp.Served?
            && resp.response.history == page
            && FromHex(resp.response.address) == Ok(req.address)
            && resp.response.maxResults == req.maxResults
            && resp.response.count == |page| % 0x1_0000_0000
            && resp.response.ledgerIndex == LedgerIndexOf(node.utxo)
    ensures forall L | Represents(node.utxo, L) :: ResponseFor(node, req, page).response.ledgerIndex == L.index
  {
    FromHexInvertsToHex(req.address);
    forall L | Represents(node.utxo, L) ensures LedgerIndexOf(node.utxo) == L.index {
      LedgerIndexRepresented(node.utxo, L);
    }
    hide ToHex, FromHex, LedgerIndexOf, HasLedgerIndex, Represents;
  }

  /** The array a request is served from: the cached one, or a freshly computed one. */
  ghost function Source(node: Node, table: Table, c: Contents, address: Address): seq<HistoryItem>
    requires ToHex(address) in c || Buildable(node, table, address)
  {
    if ToHex(address) in c then c[ToHex(address)] else FreshHistory(node, table, address)
  }

  /** That array after the request. */
  ghost function Left(node: Node, table: Table, c: Contents, req: Request): seq<HistoryItem>
    requires ToHex(req.address) in c || Buildable(node, table, req.address)
  {
    var s := Source(node, table, c, req.address);
    if req.format.CSV? then AfterCSV(s, req.maxResults) else s
  }

  /** `c` with some entries evicted. */
  ghost predicate EvictedFrom(c': Contents, c: Contents) {
    forall k :: k in c' ==> k in c && c'[k] == c[k]
  }

  /** One request, from the contents before to the contents after, with any evictions on the way. */
  ghost predicate Serves(node: Node, table: Table, c: Contents, req: Request, c': Contents, resp: Response)
    requires HasLedgerIndex(node.utxo)
  {
    if ToHex(req.address) in c || Buildable(node, table, req.address) then
      && EvictedFrom(c', c[ToHex(req.address) := Left(node, table, c, req)])
      && resp == ResponseFor(node, req, FirstPage(Left(node, table, c, req), req.maxResults))
    else
      EvictedFrom(c', c) && AnswersError(node, table, req.address, resp)
  }

  /** An error or a panic, for a cause. */
  ghost predicate AnswersError(node: Node, table: Table, address: Address, resp: Response) {
    (resp == ServerError && CanFail(node, table, address)) || (resp == ServerPanic && CanPanic(node, table, address))
  }

  lemma ServesNothing(node: Node, table: Table, c: Contents, req: Request, resp: Response)
    requires HasLedgerIndex(node.utxo) && !(ToHex(req.address) in c || Buildable(node, table, req.address))
    requires AnswersError(node, table, req.address, resp)
    ensures Serves(node, table, c, req, c, resp)
  {
    hide ToHex, Buildable, AnswersError;
  }

  lemma ServesPage(node: Node, table: Table, c: Contents, req: Request, c': Contents, c'': Contents, page: seq<HistoryItem>)
    requires HasLedgerIndex(node.utxo) && (ToHex(req.address) in c || Buildable(node, table, req.address))
    requires var s := Source(node, table, c, req.address);
             var left := if req.format.CSV? then AfterCSV(s, req.maxResults) else s;
             c' == c[ToHex(req.address) := s][ToHex(req.address) := left] && page == FirstPage(left, req.maxResults)
    requires EvictedFrom(c'', c')
    ensures page == FirstPage(Left(node, table, c, req), req.maxResults)
    ensures Serves(node, table, c, req, c'', ResponseFor(node, req, page))
  {
    hide ToHex, Buildable, Source, AfterCSV, FirstPage, EvictedFrom;
    assert c' == c[ToHex(req.address) := Left(node, table, c, req)];
  }

  // ----- the server -----

  class DatabaseServer {
    const node: Node
    const table: Table
    const utxoManager: Manager
    var txHistoryCache: map<Bytes, array<HistoryItem>>

    ghost predicate Valid()
      reads this, utxoManager, txHistoryCache.Values
    {
      && ValidNode(node)
      && utxoManager.utxoStorage == node.utxo
      && utxoManager.Valid()
      && (forall address: Address :: HoldsIDs(table, AddressBytes(address)))
      && NoSharing()
      && OneItemEach()
    }

    /** No cached array has two items of the same message. */
    ghost predicate OneItemEach()
      reads this, txHistoryCache.Values
    {
      forall k :: k in txHistoryCache ==> DistinctMessages(txHistoryCache[k][..])
    }

    /** No array is cached for two addresses. */
    ghost predicate NoSharing()
      reads this
    {
      forall k, k' :: k in txHistoryCache && k' in txHistoryCache && k != k' ==> txHistoryCache[k] != txHistoryCache[k']
    }

    ghost function CacheContents(): Contents
      reads this, txHistoryCache.Values
    {
      map k | k in txHistoryCache :: txHistoryCache[k][..]
    }

    constructor (node: Node, table: Table, utxoManager: Manager)
      requires ValidNode(node) && utxoManager.utxoStorage == node.utxo && utxoManager.Valid()
      requires forall address: Address :: HoldsIDs(table, AddressBytes(address))
      ensures Valid() && this.node == node && this.table == table && this.utxoManager == utxoManager
      ensures CacheContents() == map[]
    {
      this.node := node;
      this.table := table;
      this.utxoManager := utxoManager;
      txHistoryCache := map[];
    }

    /** The cache may drop any entries at any time. */
    method Evict()
      requires Valid()
      modifies this`txHistoryCache
      ensures Valid() && EvictedFrom(CacheContents(), old(CacheContents()))
      ensures txHistoryCache.Values <= old(txHistoryCache.Values)
    {
      var victims: set<Bytes> := *;
      txHistoryCache := map k | k in txHistoryCache && k !in victims :: txHistoryCache[k];
    }

    method GetTransactionHistoryItems(address: Address) returns (r: HistoryOutcome)
      requires Valid()
      modifies this`txHistoryCache
      ensures Valid()
      ensures r.HistoryOk? <==> ToHex(address) in old(txHistoryCache) || Buildable(node, table, address)
      ensures !r.HistoryOk? ==> txHistoryCache == old(txHistoryCache)
      ensures r.HistoryFailed? ==> CanFail(node, table, address)
      ensures r.HistoryPanicked? ==> CanPanic(node, table, address)
      ensures r.HistoryOk? ==>
                && (ToHex(address) in old(txHistoryCache) ==> r.items == old(txHistoryCache)[ToHex(address)])
                && (ToHex(address) !in old(txHistoryCache) ==> fresh(r.items))
                && r.items[..] == Source(node, table, old(CacheContents()), address)
                && txHistoryCache == old(txHistoryCache)[ToHex(address) := r.items]
                && CacheContents() == old(CacheContents())[ToHex(address) := Source(node, table, old(CacheContents()), address)]
    {
      hide ToHex, ValidNode, HoldsIDs, Buildable, FreshHistory, DistinctMessages, Sorted, CanFail, CanPanic;
      var key := ToHex(address);
      // hand out the cached array itself
      if key in txHistoryCache {
        r := HistoryOk(txHistoryCache[key]);
        assert CacheContents()[key] == r.items[..];
        return;
      }
      r := ComputeHistory(node, utxoManager, table, address);
      if r.HistoryOk? {
        FreshDistinct(node, table, address);
        // from here on the cache and the response share the array
        txHistoryCache := txHistoryCache[key := r.items];
      }
    }

    /** Renders one page of a cached array; the CSV form first sorts the page, in the array itself. */
    method Render(req: Request, a: array<HistoryItem>) returns (page: seq<HistoryItem>)
      requires Valid() && ToHex(req.address) in txHistoryCache && txHistoryCache[ToHex(req.address)] == a
      modifies a
      ensures Valid()
      ensures var left := if req.format.CSV? then AfterCSV(old(a[..]), req.maxResults) else old(a[..]);
              page == FirstPage(left, req.maxResults) && CacheContents() == old(CacheContents())[ToHex(req.address) := left]
    {
      hide ToHex, Sort, ValidNode, HoldsIDs, DistinctMessages, Sorted;
      var count := if a.Length > req.maxResults then req.maxResults else a.Length;
      ghost var before := a[..];
      assert a[..count] == before[..count] && a[count..] == before[count..];
      if req.format == CSV {
        assert before == before[..count] + before[count..];
        FirstDistinct(before, count);
        SortSlice(a, count, OldestFirst);
        SortedPermutation(OldestFirst, before[..count], a[..count]);
        assert a[..] == a[..count] + a[count..];
        PermutationDistinct(a[..], before);
      }
      page := a[..count];
      assert page == FirstPage(a[..], req.maxResults);
      assert forall k | k in txHistoryCache && k != ToHex(req.address) :: txHistoryCache[k][..] == old(txHistoryCache[k][..]);
    }

    method Serve(req: Request) returns (resp: Response)
      requires Valid()
      modifies this`txHistoryCache, utxoManager, txHistoryCache.Values
      ensures Valid()
      ensures Serves(node, table, old(CacheContents()), req, CacheContents(), resp)
      ensures fresh(txHistoryCache.Values - old(txHistoryCache.Values))
      ensures resp.Served? <==> ToHex(req.address) in old(txHistoryCache) || Buildable(node, table, req.address)
      ensures resp.Served? ==>
                && resp.response.history == FirstPage(Left(node, table, old(CacheContents()), req), req.maxResults)
                && FromHex(resp.response.address) == Ok(req.address)
                && resp.response.maxResults == req.maxResults
                && resp.response.count == |resp.response.history| % 0x1_0000_0000
                && resp.response.ledgerIndex == LedgerIndexOf(node.utxo)
    {
      hide ToHex, FromHex, ResponseFor, ValidNode, HoldsIDs, HasLedgerIndex, AfterCSV, FirstPage, Buildable, FreshHistory, Serves, Source, Left, EvictedFrom,
           NoSharing, OneItemEach, CanFail, CanPanic, Represents, LedgerIndexOf;
      IndexStored(node);
      ghost var c := CacheContents();
      var items := GetTransactionHistoryItems(req.address);
      if !items.HistoryOk? {
        resp := if items.HistoryFailed? then ServerError else ServerPanic;
        ServesNothing(node, table, c, req, resp);
        return;
      }
      var ledgerIndex := utxoManager.ReadLedgerIndex();
      var page := Render(req, items.items);
      resp := Served(HistoryResponse(ToHex(req.address), req.maxResults, |page| % 0x1_0000_0000, page, ledgerIndex));
      assert resp == ResponseFor(node, req, page) by { ResponseIs(node, req, page); }
      ghost var c' := CacheContents();
      Evict();
      ServesPage(node, table, c, req, c', CacheContents(), page);
      ResponseHolds(node, req, page);
    }
  }
}
