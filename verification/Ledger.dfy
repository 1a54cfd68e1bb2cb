/**
 The ledger that a UTXO database stands for, and the one well-formedness predicate of the
 database: every output is in exactly one of the two indexes, and keys and values agree.
 */
module Ledgers {
  import opened ByteStrings
  import opened KVStores
  import opened Marshalling
  import opened Records

  /** A treasury output, stored under the ID of the milestone that generated it. */
  datatype Treasury = Treasury(amount: uint64, spent: bool)

  /** What a milestone changed, as the identifiers stored in its record. */
  datatype Diff = Diff(
    created: seq<OutputID>,
    consumed: seq<OutputID>,
    treasury: Option<TreasuryMutation>)

  datatype TreasuryMutation = TreasuryMutation(generated: Hash, spent: Hash)

  datatype Ledger = Ledger(
    outputs: map<OutputID, Output>,
    spendings: map<OutputID, Spending>,
    treasuries: map<Hash, Treasury>,
    diffs: map<uint32, Diff>,
    index: uint32)

  function SpentIDs(L: Ledger): set<OutputID> {
    L.spendings.Keys
  }

  function UnspentIDs(L: Ledger): set<OutputID> {
    L.outputs.Keys - L.spendings.Keys
  }

  ghost predicate ValidDiff(L: Ledger, d: Diff) {
    && |d.created| < 0x1_0000_0000
    && |d.consumed| < 0x1_0000_0000
    && (forall id :: id in d.created ==> id in L.outputs)
    && (forall id :: id in d.consumed ==> id in L.spendings)
    && (d.treasury.Some? ==>
          && d.treasury.value.generated in L.treasuries
          && d.treasury.value.spent in L.treasuries
          && L.treasuries[d.treasury.value.spent].spent)
  }

  ghost predicate ValidLedger(L: Ledger) {
    && (forall id :: id in L.outputs ==> L.outputs[id].outputID == id)
    && L.spendings.Keys <= L.outputs.Keys
    && (forall i :: i in L.diffs ==> ValidDiff(L, L.diffs[i]))
  }

  function TreasuryKey(id: Hash, spent: bool): Bytes {
    [PREFIX_TREASURY, if spent then 1 else 0] + id
  }

  function DiffKey(index: uint32): Bytes {
    [PREFIX_MILESTONE_DIFF] + LE(index, 4)
  }

  function JoinIDs(ids: seq<OutputID>): (b: Bytes)
    ensures |b| == 34 * |ids|
  {
    if ids == [] then [] else ids[0] + JoinIDs(ids[1..])
  }

  function DiffValue(d: Diff): Bytes {
    LE(|d.created|, 4) + JoinIDs(d.created) + LE(|d.consumed|, 4) + JoinIDs(d.consumed) +
    match d.treasury
    case None => [0]
    case Some(t) => [1] + t.generated + t.spent
  }

  ghost function IndexKeys(L: Ledger, tag: byte, ids: set<OutputID>): set<Bytes>
    requires ids <= L.outputs.Keys
  {
    set id | id in ids :: IndexKey(tag, L.outputs[id])
  }

  ghost function KeysUnder(store: Store, prefix: Bytes): set<Bytes> {
    set k | k in store && prefix <= k
  }

  ghost predicate RepresentsOutputs(store: Store, L: Ledger) {
    && (forall id: OutputID :: id in L.outputs <==> OutputKey(id) in store)
    && (forall id :: id in L.outputs ==> store[OutputKey(id)] == OutputValue(L.outputs[id]))
  }

  ghost predicate RepresentsIndexes(store: Store, L: Ledger)
    requires ValidLedger(L)
  {
    && KeysUnder(store, [PREFIX_UNSPENT]) == IndexKeys(L, PREFIX_UNSPENT, UnspentIDs(L))
    && KeysUnder(store, [PREFIX_SPENT]) == IndexKeys(L, PREFIX_SPENT, SpentIDs(L))
    && (forall id :: id in L.spendings ==>
          var key := IndexKey(PREFIX_SPENT, L.outputs[id]);
          key in store && store[key] == SpendingValue(L.spendings[id]))
  }

  ghost function TreasuryKeys(L: Ledger): set<Bytes> {
    set id | id in L.treasuries :: TreasuryKey(id, L.treasuries[id].spent)
  }

  ghost predicate RepresentsDiffs(store: Store, L: Ledger) {
    && (forall i: uint32 :: i in L.diffs <==> DiffKey(i) in store)
    && (forall i :: i in L.diffs ==> store[DiffKey(i)] == DiffValue(L.diffs[i]))
  }

  ghost predicate RepresentsTreasuries(store: Store, L: Ledger) {
    && KeysUnder(store, [PREFIX_TREASURY]) == TreasuryKeys(L)
    && (forall id :: id in L.treasuries ==>
          var key := TreasuryKey(id, L.treasuries[id].spent);
          key in store && store[key] == LE(L.treasuries[id].amount, 8))
  }

  ghost predicate RepresentsMilestones(store: Store, L: Ledger) {
    && RepresentsDiffs(store, L)
    && RepresentsTreasuries(store, L)
    && [PREFIX_LEDGER_INDEX] in store
    && store[[PREFIX_LEDGER_INDEX]] == LE(L.index, 4)
  }

  /** The well-formedness of a UTXO database, and the ledger it stands for. */
  ghost predicate Represents(store: Store, L: Ledger) {
    && ValidLedger(L)
    && RepresentsOutputs(store, L)
    && RepresentsIndexes(store, L)
    && RepresentsMilestones(store, L)
  }

  // ----- lookups by output ID -----

  function ReadOutput(store: Store, id: OutputID): Result<Output> {
    var value :- Get(store, OutputKey(id));
    DecodeOutput(OutputKey(id), value)
  }

  lemma ReadOutputRepresented(store: Store, L: Ledger, id: OutputID)
    requires Represents(store, L)
    ensures ReadOutput(store, id) == if id in L.outputs then Ok(L.outputs[id]) else Err(KeyNotFound)
  {
    if id in L.outputs {
      OutputRoundTrip(L.outputs[id]);
    }
  }

  // ----- listings: the outputs of a set of IDs in index order -----

  ghost predicate IsListing(L: Ledger, tag: byte, ids: set<OutputID>, s: seq<Output>) {
    && (forall i | 0 <= i < |s| :: s[i].outputID in ids && s[i].outputID in L.outputs && s[i] == L.outputs[s[i].outputID])
    && (forall id | id in ids :: exists i :: 0 <= i < |s| && s[i].outputID == id)
    && (forall i, j | 0 <= i < j < |s| :: Less(IndexKey(tag, s[i]), IndexKey(tag, s[j])))
  }

  lemma ListingDistinct(L: Ledger, tag: byte, ids: set<OutputID>, s: seq<Output>, i: nat, j: nat)
    requires IsListing(L, tag, ids, s) && i < j < |s|
    ensures s[i].outputID != s[j].outputID
  {
    if s[i].outputID == s[j].outputID {
      LessIrreflexive(IndexKey(tag, s[i]));
    }
  }

  ghost function OutputsOfKeys(L: Ledger, keys: seq<Bytes>): (s: seq<Output>)
    requires forall k :: k in keys ==> |k| == 69 && k[35..69] in L.outputs
    ensures |s| == |keys|
    ensures forall i | 0 <= i < |keys| :: s[i] == L.outputs[keys[i][35..69]]
  {
    seq(|keys|, i requires 0 <= i < |keys| => L.outputs[keys[i][35..69]])
  }

  lemma IndexKeysShape(L: Ledger, tag: byte, ids: set<OutputID>, k: Bytes)
    requires ValidLedger(L) && ids <= L.outputs.Keys && k in IndexKeys(L, tag, ids)
    ensures |k| == 69 && k[35..69] in ids && k == IndexKey(tag, L.outputs[k[35..69]])
  {
    var id :| id in ids && k == IndexKey(tag, L.outputs[id]);
    IndexKeyParts(tag, L.outputs[id]);
  }

  lemma SortedIndexKeysShape(L: Ledger, tag: byte, ids: set<OutputID>)
    requires ValidLedger(L) && ids <= L.outputs.Keys
    ensures forall k | k in SortKeys(IndexKeys(L, tag, ids)) ::
              |k| == 69 && k[35..69] in ids && k == IndexKey(tag, L.outputs[k[35..69]])
  {
    forall k | k in SortKeys(IndexKeys(L, tag, ids))
      ensures |k| == 69 && k[35..69] in ids && k == IndexKey(tag, L.outputs[k[35..69]])
    {
      IndexKeysShape(L, tag, ids, k);
    }
  }

  /** The full scan of the output table, restricted to `ids` and put in index order. */
  ghost function Listing(L: Ledger, tag: byte, ids: set<OutputID>): seq<Output>
    requires ValidLedger(L) && ids <= L.outputs.Keys
  {
    SortedIndexKeysShape(L, tag, ids);
    OutputsOfKeys(L, SortKeys(IndexKeys(L, tag, ids)))
  }

  lemma ListingKeys(L: Ledger, tag: byte, ids: set<OutputID>)
    requires ValidLedger(L) && ids <= L.outputs.Keys
    ensures var keys, s := SortKeys(IndexKeys(L, tag, ids)), Listing(L, tag, ids);
            && |s| == |keys|
            && (forall i | 0 <= i < |s| :: IndexKey(tag, s[i]) == keys[i])
            && (forall i | 0 <= i < |s| :: s[i].outputID in ids && s[i] == L.outputs[s[i].outputID])
  {
    SortedIndexKeysShape(L, tag, ids);
    var keys, s := SortKeys(IndexKeys(L, tag, ids)), Listing(L, tag, ids);
    hide IndexKeys, IndexKey, Listing;
    forall i | 0 <= i < |s|
      ensures IndexKey(tag, s[i]) == keys[i] && s[i].outputID in ids && s[i] == L.outputs[s[i].outputID]
    {
      assert keys[i] in keys;
    }
  }

  lemma ListingIsListing(L: Ledger, tag: byte, ids: set<OutputID>)
    requires ValidLedger(L) && ids <= L.outputs.Keys
    ensures IsListing(L, tag, ids, Listing(L, tag, ids))
  {
    var keys, s := SortKeys(IndexKeys(L, tag, ids)), Listing(L, tag, ids);
    ListingKeys(L, tag, ids);
    forall id | id in ids ensures exists i :: 0 <= i < |s| && s[i].outputID == id {
      var k := IndexKey(tag, L.outputs[id]);
      assert k in keys;
      var i :| 0 <= i < |keys| && keys[i] == k;
      IndexKeyInjective(tag, L.outputs[id], tag, s[i]);
    }
    hide Listing, IndexKey, Less;
  }

  /** A listing is determined by its set of IDs. */
  lemma ListingUnique(L: Ledger, tag: byte, ids: set<OutputID>, s: seq<Output>, t: seq<Output>)
    requires IsListing(L, tag, ids, s) && IsListing(L, tag, ids, t)
    ensures s == t
  {
    var ks := seq(|s|, i requires 0 <= i < |s| => IndexKey(tag, s[i]));
    var kt := seq(|t|, i requires 0 <= i < |t| => IndexKey(tag, t[i]));
    forall k | k in ks ensures k in kt {
      var i :| 0 <= i < |ks| && ks[i] == k;
      var j :| 0 <= j < |t| && t[j].outputID == s[i].outputID;
      assert kt[j] == k;
    }
    forall k | k in kt ensures k in ks {
      var i :| 0 <= i < |kt| && kt[i] == k;
      var j :| 0 <= j < |s| && s[j].outputID == t[i].outputID;
      assert ks[j] == k;
    }
    AscendingUnique(ks, kt);
    forall i | 0 <= i < |s| ensures s[i] == t[i] {
      assert ks[i] == kt[i];
      IndexKeyInjective(tag, s[i], tag, t[i]);
    }
  }

  function Filter<T>(wanted: T -> bool, s: seq<T>): seq<T> {
    if s == [] then
      []
    else
      var last := s[|s| - 1];
      Filter(wanted, s[..|s| - 1]) + if wanted(last) then [last] else []
  }

  lemma {:induction false} FilterMembers<T>(wanted: T -> bool, s: seq<T>)
    ensures forall i | 0 <= i < |Filter(wanted, s)| :: Filter(wanted, s)[i] in s && wanted(Filter(wanted, s)[i])
    ensures forall i | 0 <= i < |s| && wanted(s[i]) :: s[i] in Filter(wanted, s)
  {
    if s != [] {
      var front := s[..|s| - 1];
      FilterMembers(wanted, front);
      assert s == front + [s[|s| - 1]];
      var f, g := Filter(wanted, front), Filter(wanted, s);
      forall i | 0 <= i < |g| ensures g[i] in s && wanted(g[i]) {
        if i < |f| {
          assert f[i] in front && f[i] in s;
        } else {
          assert g[i] == s[|s| - 1];
        }
      }
    }
  }

  lemma {:induction false} FilterAll<T>(wanted: T -> bool, s: seq<T>)
    requires forall x :: x in s ==> wanted(x)
    ensures Filter(wanted, s) == s
  {
    if s != [] {
      FilterAll(wanted, s[..|s| - 1]);
      assert s == s[..|s| - 1] + [s[|s| - 1]];
    }
  }

  ghost predicate Ordered<T>(before: (T, T) -> bool, s: seq<T>) {
    forall i, j | 0 <= i < j < |s| :: before(s[i], s[j])
  }

  lemma {:induction false} FilterKeepsOrder<T>(before: (T, T) -> bool, wanted: T -> bool, s: seq<T>)
    requires Ordered(before, s)
    ensures Ordered(before, Filter(wanted, s))
  {
    if s != [] {
      var front := s[..|s| - 1];
      FilterKeepsOrder(before, wanted, front);
      FilterMembers(wanted, front);
      var f := Filter(wanted, front);
      forall i | 0 <= i < |f| ensures before(f[i], s[|s| - 1]) {
        assert f[i] in front;
        var j :| 0 <= j < |front| && front[j] == f[i];
        assert s[j] == f[i];
      }
    }
  }

  lemma FilterKeepsIndexOrder(L: Ledger, tag: byte, ids: set<OutputID>, wanted: Output -> bool, s: seq<Output>)
    requires IsListing(L, tag, ids, s)
    ensures var f := Filter(wanted, s);
            forall i, j | 0 <= i < j < |f| :: Less(IndexKey(tag, f[i]), IndexKey(tag, f[j]))
  {
    hide IndexKey, Less;
    var before := (a: Output, b: Output) => Less(IndexKey(tag, a), IndexKey(tag, b));
    FilterKeepsOrder(before, wanted, s);
    var f := Filter(wanted, s);
    forall i, j | 0 <= i < j < |f| ensures Less(IndexKey(tag, f[i]), IndexKey(tag, f[j])) {
      assert before(f[i], f[j]);
    }
  }

  ghost function Kept(L: Ledger, ids: set<OutputID>, wanted: Output -> bool): set<OutputID>
    requires ids <= L.outputs.Keys
  {
    set id | id in ids && wanted(L.outputs[id])
  }

  lemma FilterIsListing(L: Ledger, tag: byte, ids: set<OutputID>, wanted: Output -> bool, s: seq<Output>)
    requires ids <= L.outputs.Keys && IsListing(L, tag, ids, s)
    ensures IsListing(L, tag, Kept(L, ids, wanted), Filter(wanted, s))
  {
    FilterMembers(wanted, s);
    FilterKeepsIndexOrder(L, tag, ids, wanted, s);
    hide IndexKey, Less;
    var f, kept := Filter(wanted, s), Kept(L, ids, wanted);
    forall id | id in kept ensures exists i :: 0 <= i < |f| && f[i].outputID == id {
      var i :| 0 <= i < |s| && s[i].outputID == id;
      assert s[i] in f;
    }
  }

  /** Filtering a listing is listing the filtered set. */
  lemma FilterListing(L: Ledger, tag: byte, ids: set<OutputID>, wanted: Output -> bool)
    requires ValidLedger(L) && ids <= L.outputs.Keys
    ensures Filter(wanted, Listing(L, tag, ids)) == Listing(L, tag, Kept(L, ids, wanted))
  {
    ListingIsListing(L, tag, ids);
    ListingIsListing(L, tag, Kept(L, ids, wanted));
    FilterIsListing(L, tag, ids, wanted, Listing(L, tag, ids));
    hide *;
    ListingUnique(L, tag, Kept(L, ids, wanted), Filter(wanted, Listing(L, tag, ids)), Listing(L, tag, Kept(L, ids, wanted)));
  }
}
