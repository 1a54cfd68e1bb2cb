/** What whole runs of history requests answer, with any evictions in between. */
module HistoryRuns {
  import opened ByteStrings
  import opened Marshalling
  import opened KVStores
  import opened Ledgers
  import opened UtxoManager
  import opened Tangle
  import opened Hexadecimal
  import opened ConflictTable
  import opened HistoryItems
  import opened HistorySort
  import opened History
  import opened HistoryCache
  import opened CSVPages

  /** A request with its response and the contents of the cache after it. */
  datatype Exchange = Exchange(request: Request, response: Response, after: Contents)

  function CacheBefore(log: seq<Exchange>, n: nat): Contents
    requires n <= |log|
  {
    if n == 0 then map[] else log[n - 1].after
  }

  /** A run of requests that starts with an empty cache. */
  ghost predicate ServedRun(node: Node, table: Table, log: seq<Exchange>)
    requires HasLedgerIndex(node.utxo)
  {
    forall i | 0 <= i < |log| :: Serves(node, table, CacheBefore(log, i), log[i].request, log[i].after, log[i].response)
  }

  /** The page computed without a cache. */
  ghost function UncachedPage(node: Node, table: Table, req: Request): seq<HistoryItem>
    requires Buildable(node, table, req.address)
  {
    var history := FreshHistory(node, table, req.address);
    FirstPage(if req.format.CSV? then AfterCSV(history, req.maxResults) else history, req.maxResults)
  }

  /** A smaller page is a prefix of a larger one. */
  lemma PagesNest(node: Node, table: Table, address: Address, m: uint32, n: uint32)
    requires Buildable(node, table, address) && m <= n
    ensures UncachedPage(node, table, Request(address, m, JSON)) <= UncachedPage(node, table, Request(address, n, JSON))
  {
    hide Buildable, FreshHistory, Sort;
  }

  // ----- what a run leaves in the cache -----

  function Widened(width: nat, req: Request, address: Address): nat {
    if req.address == address && req.format.CSV? then Max(width, req.maxResults) else width
  }

  /** The largest page that CSV requests have sorted in the array of an address since it entered the cache. */
  function Widest(log: seq<Exchange>, n: nat, address: Address): nat
    requires n <= |log|
  {
    if n == 0 || ToHex(address) !in CacheBefore(log, n) then 0
    else Widened(Widest(log, n - 1, address), log[n - 1].request, address)
  }

  /** Every cached array is the uncached history with one page of it sorted: the widest one. */
  ghost predicate CachedExactly(node: Node, table: Table, log: seq<Exchange>, n: nat)
    requires n <= |log|
  {
    forall a: Address :: ToHex(a) in CacheBefore(log, n) ==>
      Buildable(node, table, a) && CacheBefore(log, n)[ToHex(a)] == AfterCSV(FreshHistory(node, table, a), Widest(log, n, a))
  }

  /** What a request leaves of the array it is served from. */
  lemma LeftExact(node: Node, table: Table, c: Contents, req: Request, width: nat)
    requires ToHex(req.address) in c || Buildable(node, table, req.address)
    requires ToHex(req.address) in c ==>
               Buildable(node, table, req.address) && c[ToHex(req.address)] == AfterCSV(FreshHistory(node, table, req.address), width)
    requires ToHex(req.address) !in c ==> width == 0
    ensures Buildable(node, table, req.address)
    ensures Left(node, table, c, req) == AfterCSV(FreshHistory(node, table, req.address), Widened(width, req, req.address))
  {
    hide ToHex, Buildable, FreshHistory, AfterCSV, DistinctMessages, Sorted;
    var h := FreshHistory(node, table, req.address);
    NothingSorted(h);
    FreshDistinct(node, table, req.address);
    AfterCSVTwice(h, width, req.maxResults);
  }

  lemma SourceExact(node: Node, table: Table, log: seq<Exchange>, n: nat)
    requires n < |log| && CachedExactly(node, table, log, n)
    requires ToHex(log[n].request.address) in CacheBefore(log, n) || Buildable(node, table, log[n].request.address)
    ensures Buildable(node, table, log[n].request.address)
    ensures var req, h := log[n].request, FreshHistory(node, table, log[n].request.address);
            Left(node, table, CacheBefore(log, n), req) == AfterCSV(h, Widened(Widest(log, n, req.address), req, req.address))
  {
    hide ToHex, Buildable, FreshHistory, AfterCSV, Left, Widened;
    LeftExact(node, table, CacheBefore(log, n), log[n].request, Widest(log, n, log[n].request.address));
  }

  lemma CachedOther(node: Node, table: Table, log: seq<Exchange>, n: nat, a: Address)
    requires HasLedgerIndex(node.utxo) && n < |log| && CachedExactly(node, table, log, n)
    requires Serves(node, table, CacheBefore(log, n), log[n].request, log[n].after, log[n].response)
    requires ToHex(a) in log[n].after && a != log[n].request.address
    ensures Buildable(node, table, a) && log[n].after[ToHex(a)] == AfterCSV(FreshHistory(node, table, a), Widest(log, n + 1, a))
  {
    hide ToHex, Buildable, FreshHistory, AfterCSV, FirstPage, ResponseFor, HasLedgerIndex, Left, Widest;
    if ToHex(a) == ToHex(log[n].request.address) {
      ToHexInjective(a, log[n].request.address);
    }
    assert ToHex(a) in CacheBefore(log, n) && log[n].after[ToHex(a)] == CacheBefore(log, n)[ToHex(a)];
    WidestNext(log, n, a);
  }

  lemma WidestNext(log: seq<Exchange>, n: nat, a: Address)
    requires n < |log| && ToHex(a) in log[n].after
    ensures Widest(log, n + 1, a) == Widened(Widest(log, n, a), log[n].request, a)
  {
    hide ToHex;
  }

  lemma CachedServed(node: Node, table: Table, log: seq<Exchange>, n: nat)
    requires HasLedgerIndex(node.utxo) && n < |log| && CachedExactly(node, table, log, n)
    requires Serves(node, table, CacheBefore(log, n), log[n].request, log[n].after, log[n].response)
    requires ToHex(log[n].request.address) in log[n].after
    ensures var a := log[n].request.address;
            Buildable(node, table, a) && log[n].after[ToHex(a)] == AfterCSV(FreshHistory(node, table, a), Widest(log, n + 1, a))
  {
    hide ToHex, Buildable, FreshHistory, AfterCSV, FirstPage, ResponseFor, HasLedgerIndex, Left, Widest, Widened, CachedExactly;
    WidestNext(log, n, log[n].request.address);
    SourceExact(node, table, log, n);
  }

  lemma ServesKeepsExactly(node: Node, table: Table, log: seq<Exchange>, n: nat)
    requires HasLedgerIndex(node.utxo) && n < |log| && CachedExactly(node, table, log, n)
    requires Serves(node, table, CacheBefore(log, n), log[n].request, log[n].after, log[n].response)
    ensures CachedExactly(node, table, log, n + 1)
  {
    hide ToHex, Buildable, FreshHistory, AfterCSV, Serves, HasLedgerIndex, Widest;
    forall a: Address | ToHex(a) in log[n].after
      ensures Buildable(node, table, a) && log[n].after[ToHex(a)] == AfterCSV(FreshHistory(node, table, a), Widest(log, n + 1, a))
    {
      if a == log[n].request.address {
        CachedServed(node, table, log, n);
      } else {
        CachedOther(node, table, log, n, a);
      }
    }
  }

  /**
   Over every run of JSON and CSV requests with any evictions each cached array is the
   uncached history with its widest CSV page sorted.
   */
  lemma {:induction false} RunKeepsExactly(node: Node, table: Table, log: seq<Exchange>, n: nat)
    requires HasLedgerIndex(node.utxo) && ServedRun(node, table, log) && n <= |log|
    ensures CachedExactly(node, table, log, n)
  {
    hide Serves, HasLedgerIndex, Buildable, FreshHistory, AfterCSV, Widest, ToHex;
    if n != 0 {
      RunKeepsExactly(node, table, log, n - 1);
      hide CachedExactly;
      ServesKeepsExactly(node, table, log, n - 1);
    }
  }

  /** Every response of a run, exactly. */
  lemma RunAnswers(node: Node, table: Table, log: seq<Exchange>, n: nat)
    requires HasLedgerIndex(node.utxo) && ServedRun(node, table, log) && n < |log|
    ensures var req := log[n].request;
            if Buildable(node, table, req.address)
            then
              var resp := log[n].response;
              && resp.Served?
              && resp.response.history == PageAfter(FreshHistory(node, table, req.address), Widest(log, n, req.address), req)
              && FromHex(resp.response.address) == Ok(req.address)
              && resp.response.maxResults == req.maxResults
              && resp.response.count == |resp.response.history| % 0x1_0000_0000
              && forall L | Represents(node.utxo, L) :: resp.response.ledgerIndex == L.index
            else AnswersError(node, table, req.address, log[n].response)
  {
    var req, c := log[n].request, CacheBefore(log, n);
    RunKeepsExactly(node, table, log, n);
    assert Serves(node, table, c, req, log[n].after, log[n].response);
    hide ServedRun, ToHex, FromHex, Buildable, FreshHistory, AfterCSV, FirstPage, ResponseFor, HasLedgerIndex, Left, Represents;
    if ToHex(req.address) in c || Buildable(node, table, req.address) {
      SourceExact(node, table, log, n);
      ResponseHolds(node, req, FirstPage(Left(node, table, c, req), req.maxResults));
    }
  }

  lemma UncachedIsUnsorted(node: Node, table: Table, req: Request)
    requires Buildable(node, table, req.address)
    ensures UncachedPage(node, table, req) == PageAfter(FreshHistory(node, table, req.address), 0, req)
  {
    NothingSorted(FreshHistory(node, table, req.address));
    hide Buildable, FreshHistory, AfterCSV;
  }

  /** The page without a cache: the newest items, and for CSV in ascending order. */
  lemma UncachedPageHolds(node: Node, table: Table, req: Request)
    requires Buildable(node, table, req.address)
    ensures var h := FreshHistory(node, table, req.address);
            var newest := if req.maxResults < |h| then h[..req.maxResults] else h;
            && (req.format.JSON? ==> UncachedPage(node, table, req) == newest)
            && (req.format.CSV? ==> Sorted(OldestFirst, UncachedPage(node, table, req)) && multiset(UncachedPage(node, table, req)) == multiset(newest))
  {
    var h := FreshHistory(node, table, req.address);
    FreshDistinct(node, table, req.address);
    hide Buildable, FreshHistory, Sort, Sorted, DistinctMessages;
    var n := PageSize(req.maxResults, |h|);
    assert n == |h| ==> h[..n] == h;
    FirstDistinct(h, n);
    SortSorts(OldestFirst, h[..n]);
    assert (Sort(OldestFirst, h[..n]) + h[n..])[..n] == Sort(OldestFirst, h[..n]);
  }

  /**
   In any run a request is answered as without a cache if and only if it asks for nothing,
   the widest page sorted in the cached array is from a single milestone, or it is a CSV
   request at least as wide as that page.
   */
  lemma ResponseExactIff(node: Node, table: Table, log: seq<Exchange>, n: nat)
    requires HasLedgerIndex(node.utxo) && ServedRun(node, table, log) && n < |log| && Buildable(node, table, log[n].request.address)
    ensures var req := log[n].request;
            && log[n].response.Served?
            && (log[n].response.response.history == UncachedPage(node, table, req) <==>
                KeepsPage(FreshHistory(node, table, req.address), Widest(log, n, req.address), req))
  {
    var req := log[n].request;
    var h, width := FreshHistory(node, table, req.address), Widest(log, n, req.address);
    RunAnswers(node, table, log, n);
    hide *;
    FreshDistinct(node, table, req.address);
    PageExactIff(h, width, req);
    UncachedIsUnsorted(node, table, req);
  }

  lemma PageAfterIsPage(h: seq<HistoryItem>, width: nat, req: Request)
    requires DistinctMessages(h)
    ensures PageOf(h, req, PageAfter(h, width, req))
  {
    hide AfterCSV, PageOf, FirstPage, DistinctMessages;
    AfterCSVPermutes(h, width);
    if req.format.CSV? {
      AfterCSVTwice(h, width, req.maxResults);
      PermutedCSVPage(h, AfterCSV(h, width), req);
    } else {
      PermutedPage(h, AfterCSV(h, width), req);
    }
  }

  /** The content of every CSV page of a run: the items of the page, or the oldest of a wider page sorted before. */
  lemma CSVResponse(node: Node, table: Table, log: seq<Exchange>, n: nat)
    requires HasLedgerIndex(node.utxo) && ServedRun(node, table, log) && n < |log| && Buildable(node, table, log[n].request.address)
    requires log[n].request.format.CSV?
    ensures var req := log[n].request;
            var h, width := FreshHistory(node, table, req.address), Widest(log, n, req.address);
            && log[n].response.Served?
            && Sorted(OldestFirst, log[n].response.response.history)
            && log[n].response.response.history ==
               if req.maxResults >= PageSize(width, |h|) then Sort(OldestFirst, h[..PageSize(req.maxResults, |h|)])
               else Sort(OldestFirst, h[..PageSize(width, |h|)])[..req.maxResults]
  {
    var req := log[n].request;
    RunAnswers(node, table, log, n);
    hide ServedRun, Buildable, FreshHistory, Widest, AfterCSV, Sort, HasLedgerIndex, FromHex, Represents, Sorted, DistinctMessages;
    FreshDistinct(node, table, req.address);
    PageAfterIsPage(FreshHistory(node, table, req.address), Widest(log, n, req.address), req);
    CSVPageHolds(FreshHistory(node, table, req.address), Widest(log, n, req.address), req.maxResults);
  }

  // ----- JSON-only runs -----

  lemma {:induction false} NothingSortedYet(log: seq<Exchange>, n: nat, address: Address)
    requires n <= |log| && forall i | 0 <= i < n :: log[i].request.format.JSON?
    ensures Widest(log, n, address) == 0
  {
    if n != 0 {
      NothingSortedYet(log, n - 1, address);
    }
  }

  /** Without CSV requests the cache is invisible: every response is the uncached one. */
  lemma CacheTransparent(node: Node, table: Table, log: seq<Exchange>, n: nat)
    requires HasLedgerIndex(node.utxo) && ServedRun(node, table, log) && n < |log|
    requires forall i | 0 <= i <= n :: log[i].request.format.JSON?
    ensures var req := log[n].request;
            if Buildable(node, table, req.address)
            then
              var h := FreshHistory(node, table, req.address);
              && log[n].response.Served?
              && log[n].response.response.history == UncachedPage(node, table, req)
              && log[n].response.response.history == if req.maxResults < |h| then h[..req.maxResults] else h
            else AnswersError(node, table, req.address, log[n].response)
  {
    var req := log[n].request;
    RunAnswers(node, table, log, n);
    NothingSortedYet(log, n, req.address);
    hide Buildable, FreshHistory, UncachedPage, PageAfter, AnswersError, HasLedgerIndex, ServedRun, FromHex, Represents;
    if Buildable(node, table, req.address) {
      UncachedIsUnsorted(node, table, req);
      UncachedPageHolds(node, table, req);
    }
  }

  // ----- runs with CSV requests -----

  /** Every cached array is a permutation of the uncached history. */
  ghost predicate Permuted(node: Node, table: Table, c: Contents) {
    forall a: Address :: ToHex(a) in c ==> Buildable(node, table, a) && multiset(c[ToHex(a)]) == multiset(FreshHistory(node, table, a))
  }

  lemma ExactIsPermuted(node: Node, table: Table, log: seq<Exchange>, n: nat)
    requires n < |log| && CachedExactly(node, table, log, n + 1)
    ensures Permuted(node, table, log[n].after)
  {
    hide ToHex, Buildable, FreshHistory, AfterCSV, Widest;
    forall a: Address | ToHex(a) in log[n].after
      ensures Buildable(node, table, a) && multiset(log[n].after[ToHex(a)]) == multiset(FreshHistory(node, table, a))
    {
      AfterCSVPermutes(FreshHistory(node, table, a), Widest(log, n + 1, a));
    }
  }

  /**
   With JSON and CSV requests in any order, every cached array stays a permutation of the
   history, every page holds items of the history without repetition, every CSV page is in
   ascending order, and one that covers the whole history is exact.
   */
  lemma AnyRunPermutes(node: Node, table: Table, log: seq<Exchange>, n: nat)
    requires HasLedgerIndex(node.utxo) && ServedRun(node, table, log) && n < |log|
    ensures Permuted(node, table, log[n].after)
    ensures var req, resp := log[n].request, log[n].response;
            if Buildable(node, table, req.address)
            then
              && resp.Served?
              && PageOf(FreshHistory(node, table, req.address), req, resp.response.history)
              && (req.format.CSV? ==> Sorted(OldestFirst, resp.response.history))
            else AnswersError(node, table, req.address, resp)
  {
    hide *;
    var req := log[n].request;
    RunKeepsExactly(node, table, log, n + 1);
    ExactIsPermuted(node, table, log, n);
    RunAnswers(node, table, log, n);
    if Buildable(node, table, req.address) {
      FreshDistinct(node, table, req.address);
      PageAfterIsPage(FreshHistory(node, table, req.address), Widest(log, n, req.address), req);
      PageOfSorted(FreshHistory(node, table, req.address), req, log[n].response.response.history);
    }
  }

  lemma PageOfSorted(h: seq<HistoryItem>, req: Request, page: seq<HistoryItem>)
    requires PageOf(h, req, page)
    ensures req.format.CSV? ==> Sorted(OldestFirst, page)
  {
    hide Sorted, DistinctMessages, Sort;
  }

  // ----- executions of the server -----

  /** Serving any requests one after the other is a run. */
  method ServeAll(server: DatabaseServer, requests: seq<Request>) returns (responses: seq<Response>, ghost log: seq<Exchange>)
    requires server.Valid() && server.txHistoryCache == map[]
    modifies server`txHistoryCache, server.utxoManager
    ensures server.Valid()
    ensures HasLedgerIndex(server.node.utxo) && ServedRun(server.node, server.table, log)
    ensures |responses| == |log| == |requests|
    ensures forall i | 0 <= i < |log| :: log[i].request == requests[i] && log[i].response == responses[i]
    ensures forall i | 0 <= i < |responses| && Buildable(server.node, server.table, requests[i].address) ::
              && responses[i].Served?
              && FromHex(responses[i].response.address) == Ok(requests[i].address)
              && responses[i].response.history ==
                 PageAfter(FreshHistory(server.node, server.table, requests[i].address), Widest(log, i, requests[i].address), requests[i])
  {
    hide *;
    NothingServed(server);
    responses, log := [], [];
    EmptyRun(server.node, server.table, log);
    for i := 0 to |requests|
      invariant server.Valid() && fresh(server.txHistoryCache.Values)
      invariant |responses| == |log| == i
      invariant ServedRun(server.node, server.table, log) && server.CacheContents() == CacheBefore(log, i)
      invariant forall j | 0 <= j < i :: log[j].request == requests[j] && log[j].response == responses[j]
    {
      var response;
      response, log := ServeNext(server, requests[i], log);
      responses := responses + [response];
    }
    forall i | 0 <= i < |responses| && Buildable(server.node, server.table, requests[i].address)
      ensures responses[i].Served? && FromHex(responses[i].response.address) == Ok(requests[i].address)
      ensures responses[i].response.history ==
              PageAfter(FreshHistory(server.node, server.table, requests[i].address), Widest(log, i, requests[i].address), requests[i])
    {
      RunAnswers(server.node, server.table, log, i);
    }
  }

  method ServeNext(server: DatabaseServer, req: Request, ghost log: seq<Exchange>) returns (response: Response, ghost log': seq<Exchange>)
    requires server.Valid() && HasLedgerIndex(server.node.utxo)
    requires ServedRun(server.node, server.table, log) && server.CacheContents() == CacheBefore(log, |log|)
    modifies server`txHistoryCache, server.utxoManager, server.txHistoryCache.Values
    ensures server.Valid() && fresh(server.txHistoryCache.Values - old(server.txHistoryCache.Values))
    ensures log' == log + [Exchange(req, response, server.CacheContents())]
    ensures ServedRun(server.node, server.table, log') && server.CacheContents() == CacheBefore(log', |log'|)
  {
    hide *;
    response := server.Serve(req);
    log' := log + [Exchange(req, response, server.CacheContents())];
    AnotherExchange(server.node, server.table, log, log');
  }

  lemma EmptyRun(node: Node, table: Table, log: seq<Exchange>)
    requires HasLedgerIndex(node.utxo) && log == []
    ensures ServedRun(node, table, log) && CacheBefore(log, 0) == map[]
  {
  }

  lemma NothingServed(server: DatabaseServer)
    requires server.Valid() && server.txHistoryCache == map[]
    ensures HasLedgerIndex(server.node.utxo)
    ensures server.CacheContents() == map[] && server.txHistoryCache.Values == {}
  {
    IndexStored(server.node);
    hide HasLedgerIndex, ValidNode;
  }

  lemma AnotherExchange(node: Node, table: Table, log: seq<Exchange>, log': seq<Exchange>)
    requires HasLedgerIndex(node.utxo) && ServedRun(node, table, log) && |log'| == |log| + 1 && log' == log + [log'[|log|]]
    requires var x := log'[|log|]; Serves(node, table, CacheBefore(log, |log|), x.request, x.after, x.response)
    ensures ServedRun(node, table, log') && CacheBefore(log', |log'|) == log'[|log|].after
  {
    hide Serves, HasLedgerIndex;
    forall i | 0 <= i < |log'| ensures Serves(node, table, CacheBefore(log', i), log'[i].request, log'[i].after, log'[i].response) {
      assert i < |log| ==> log'[i] == log[i];
      assert CacheBefore(log', i) == CacheBefore(log, i);
    }
  }
}
