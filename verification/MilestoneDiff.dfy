/** Treasury outputs, and the decoding of milestone diffs through the other tables. */
module MilestoneDiffs {
  import opened ByteStrings
  import opened KVStores
  import opened Marshalling
  import opened Records
  import opened Ledgers
  import opened UtxoManager
  import opened OutputsApi

  datatype TreasuryOutput = TreasuryOutput(milestoneID: Hash, amount: uint64, spent: bool)

  datatype MilestoneDiff = MilestoneDiff(
    index: uint32,
    outputs: seq<Output>,
    spents: seq<Spent>,
    treasuryOutput: Option<TreasuryOutput>,
    spentTreasuryOutput: Option<TreasuryOutput>)

  // ----- treasury outputs -----

  function DecodeTreasury(key: Bytes, value: Bytes): Result<TreasuryOutput> {
    if |key| < 34 || |value| < 8 then Err(ParseFailed)
    else Ok(TreasuryOutput(key[2..34], DecodeUint64(value[..8]), key[1] == 1))
  }

  method LoadTreasury(key: Bytes, value: Bytes) returns (r: Result<TreasuryOutput>)
    ensures r == DecodeTreasury(key, value)
  {
    var keyExt := new MarshalUtil(key);
    var _ :- keyExt.ReadByte();
    var spent :- keyExt.ReadBool();
    var milestoneID :- ParseHash(keyExt);

    var val := new MarshalUtil(value);
    var amount :- val.ReadUint64();

    r := Ok(TreasuryOutput(milestoneID, amount, spent));
  }

  function ReadTreasury(store: Store, id: Hash, spent: bool): Result<TreasuryOutput> {
    var value :- Get(store, TreasuryKey(id, spent));
    DecodeTreasury(TreasuryKey(id, spent), value)
  }

  method ReadTreasuryOutput(u: Manager, id: Hash, spent: bool) returns (r: Result<TreasuryOutput>)
    ensures r == ReadTreasury(u.utxoStorage, id, spent)
  {
    var key := TreasuryKey(id, spent);
    var value :- Get(u.utxoStorage, key);
    r := LoadTreasury(key, value);
  }

  lemma TreasuryKeyInjective(id: Hash, spent: bool, id': Hash, spent': bool)
    requires TreasuryKey(id, spent) == TreasuryKey(id', spent')
    ensures id == id' && spent == spent'
  {
    assert TreasuryKey(id, spent)[2..] == id && TreasuryKey(id', spent')[2..] == id';
    assert TreasuryKey(id, spent)[1] == TreasuryKey(id', spent')[1];
  }

  /** A treasury output is found under one of the two flags: the one its record carries. */
  lemma ReadTreasuryRepresented(store: Store, L: Ledger, id: Hash, spent: bool)
    requires Represents(store, L)
    ensures ReadTreasury(store, id, spent) ==
            if id in L.treasuries && L.treasuries[id].spent == spent then Ok(TreasuryOutput(id, L.treasuries[id].amount, spent))
            else Err(KeyNotFound)
  {
    var key := TreasuryKey(id, spent);
    assert [PREFIX_TREASURY] <= key;
    var keys := set h | h in L.treasuries :: TreasuryKey(h, L.treasuries[h].spent);
    assert KeysUnder(store, [PREFIX_TREASURY]) == keys;
    if id in L.treasuries && L.treasuries[id].spent == spent {
      assert key in keys;
      Uint64RoundTrip(L.treasuries[id].amount);
      assert store[key] == LE(L.treasuries[id].amount, 8);
      assert store[key][..8] == store[key];
      assert key[2..34] == id;
    } else if key in store {
      assert key in KeysUnder(store, [PREFIX_TREASURY]);
      var h :| h in L.treasuries && key == TreasuryKey(h, L.treasuries[h].spent);
      TreasuryKeyInjective(id, spent, h, L.treasuries[h].spent);
    }
  }

  // ----- the unspent treasury output -----

  ghost function UnspentTreasuries(L: Ledger): set<Hash> {
    set id | id in L.treasuries && !L.treasuries[id].spent
  }

  lemma UnspentTreasuryRow(store: Store, L: Ledger, key: Bytes)
    requires Represents(store, L)
    requires key in store && [PREFIX_TREASURY, 0] <= key
    ensures |key| == 34
    ensures key[2..] in UnspentTreasuries(L) && key == TreasuryKey(key[2..], false)
    ensures DecodeTreasury(key, store[key]) == Ok(TreasuryOutput(key[2..], L.treasuries[key[2..]].amount, false))
  {
    assert [PREFIX_TREASURY] <= key;
    assert key in KeysUnder(store, [PREFIX_TREASURY]);
    var id :| id in L.treasuries && key == TreasuryKey(id, L.treasuries[id].spent);
    assert key[1] == 0 && key[2..] == id;
    ReadTreasuryRepresented(store, L, id, false);
  }

  lemma UnspentTreasuryKeys(store: Store, L: Ledger)
    requires Represents(store, L)
    ensures forall id: Hash :: id in UnspentTreasuries(L) <==> TreasuryKey(id, false) in Scan(store, [PREFIX_TREASURY, 0])
  {
    hide Scan, DecodeTreasury;
    forall id: Hash ensures id in UnspentTreasuries(L) <==> TreasuryKey(id, false) in Scan(store, [PREFIX_TREASURY, 0]) {
      var key := TreasuryKey(id, false);
      assert key[2..] == id && [PREFIX_TREASURY, 0] <= key;
      if id in UnspentTreasuries(L) {
        ReadTreasuryRepresented(store, L, id, false);
      }
      if key in Scan(store, [PREFIX_TREASURY, 0]) {
        UnspentTreasuryRow(store, L, key);
      }
    }
  }

  /** The ledger has one unspent treasury output, and this is it; or the answer is an error and it has none or several. */
  ghost predicate AnswersUnspentTreasury(L: Ledger, r: Result<TreasuryOutput>) {
    match r
    case Ok(t) => UnspentTreasuries(L) == {t.milestoneID} && t == TreasuryOutput(t.milestoneID, L.treasuries[t.milestoneID].amount, false)
    case Err(e) => e == InvalidTreasuryState && forall id :: UnspentTreasuries(L) != {id}
  }

  lemma TreasuryAnswer(store: Store, L: Ledger, keys: seq<Bytes>)
    requires Represents(store, L) && keys == Scan(store, [PREFIX_TREASURY, 0])
    ensures forall i | 0 <= i < |keys| :: keys[i] in store && DecodeTreasury(keys[i], store[keys[i]]).Ok?
    ensures AnswersUnspentTreasury(L, if |keys| == 1 then DecodeTreasury(keys[0], store[keys[0]]) else Err(InvalidTreasuryState))
  {
    hide Represents, DecodeTreasury, Scan;
    assert forall i | 0 <= i < |keys| :: keys[i] in keys;
    UnspentTreasuryKeys(store, L);
    forall i | 0 <= i < |keys|
      ensures |keys[i]| == 34 && keys[i] == TreasuryKey(keys[i][2..], false) && keys[i][2..] in UnspentTreasuries(L)
      ensures DecodeTreasury(keys[i], store[keys[i]]) == Ok(TreasuryOutput(keys[i][2..], L.treasuries[keys[i][2..]].amount, false))
    {
      UnspentTreasuryRow(store, L, keys[i]);
    }
    if |keys| > 1 && keys[0] == keys[1] {
      AscendingDistinct(keys, 0, 1);
    }
  }

  method UnspentTreasuryOutput(u: Manager) returns (r: Result<TreasuryOutput>)
    ensures forall L | Represents(u.utxoStorage, L) :: AnswersUnspentTreasury(L, r)
  {
    var keys := Scan(u.utxoStorage, [PREFIX_TREASURY, 0]);
    assert forall i | 0 <= i < |keys| :: keys[i] in keys;
    forall L | Represents(u.utxoStorage, L)
      ensures forall i | 0 <= i < |keys| :: DecodeTreasury(keys[i], u.utxoStorage[keys[i]]).Ok?
      ensures AnswersUnspentTreasury(L, if |keys| == 1 then DecodeTreasury(keys[0], u.utxoStorage[keys[0]]) else Err(InvalidTreasuryState))
    {
      TreasuryAnswer(u.utxoStorage, L, keys);
    }
    hide Represents, Scan, DecodeTreasury, AnswersUnspentTreasury;
    var unspentTreasuryOutput := Err(InvalidTreasuryState);
    var i := 0;
    while i < |keys|
      invariant 0 <= i <= |keys|
      invariant i > 0 ==> unspentTreasuryOutput == DecodeTreasury(keys[i - 1], u.utxoStorage[keys[i - 1]]) && unspentTreasuryOutput.Ok?
    {
      unspentTreasuryOutput := LoadTreasury(keys[i], u.utxoStorage[keys[i]]);
      if unspentTreasuryOutput.Err? {
        return unspentTreasuryOutput;
      }
      i := i + 1;
    }
    // there is not exactly one
    if i != 1 {
      return Err(InvalidTreasuryState);
    }
    r := unspentTreasuryOutput;
  }

  // ----- milestone diffs -----

  /** The first `count` output IDs at `pos`, each resolved; the first failure ends the list. */
  function ResolveIDs<T>(resolve: OutputID -> Result<T>, b: Bytes, pos: nat, count: nat): (r: Result<seq<T>>)
    ensures r.Ok? ==> |r.value| == count
  {
    if count == 0 then
      Ok([])
    else
      var front :- ResolveIDs(resolve, b, pos, count - 1);
      var at := pos + 34 * (count - 1);
      if at + 34 > |b| then
        Err(ParseFailed)
      else
        var last :- resolve(b[at..at + 34]);
        Ok(front + [last])
  }

  lemma {:induction false} ResolveIDsFails<T>(resolve: OutputID -> Result<T>, b: Bytes, pos: nat, count: nat, more: nat)
    requires ResolveIDs(resolve, b, pos, count).Err?
    ensures ResolveIDs(resolve, b, pos, count + more) == Err(ResolveIDs(resolve, b, pos, count).error)
  {
    if more != 0 {
      ResolveIDsFails(resolve, b, pos, count, more - 1);
    }
  }

  lemma ResolveNext<T>(resolve: OutputID -> Result<T>, b: Bytes, pos: nat, i: nat, count: nat, values: seq<T>)
    requires i < count && ResolveIDs(resolve, b, pos, i) == Ok(values)
    ensures pos + 34 * i + 34 > |b| ==> ResolveIDs(resolve, b, pos, count) == Err(ParseFailed)
    ensures pos + 34 * i + 34 <= |b| ==>
              match resolve(b[pos + 34 * i..pos + 34 * i + 34])
              case Err(e) => ResolveIDs(resolve, b, pos, count) == Err(e)
              case Ok(v) => ResolveIDs(resolve, b, pos, i + 1) == Ok(values + [v])
  {
    if ResolveIDs(resolve, b, pos, i + 1).Err? {
      ResolveIDsFails(resolve, b, pos, i + 1, count - i - 1);
    }
  }

  function OutputResolver(store: Store): OutputID -> Result<Output> {
    (id: OutputID) => ReadOutput(store, id)
  }

  function SpentResolver(store: Store): OutputID -> Result<Spent> {
    (id: OutputID) => ReadSpent(store, id)
  }

  lemma ResolveNone<T>(resolve: OutputID -> Result<T>, b: Bytes, pos: nat)
    ensures ResolveIDs(resolve, b, pos, 0) == Ok([])
  {
  }

  lemma NextOutput(store: Store, b: Bytes, pos: nat, i: nat, count: nat, values: seq<Output>)
    requires i < count && ResolveIDs(OutputResolver(store), b, pos, i) == Ok(values)
    ensures pos + 34 * i + 34 > |b| ==> ResolveIDs(OutputResolver(store), b, pos, count) == Err(ParseFailed)
    ensures pos + 34 * i + 34 <= |b| ==>
              match ReadOutput(store, b[pos + 34 * i..pos + 34 * i + 34])
              case Err(e) => ResolveIDs(OutputResolver(store), b, pos, count) == Err(e)
              case Ok(v) => ResolveIDs(OutputResolver(store), b, pos, i + 1) == Ok(values + [v])
  {
    hide ReadOutput, ResolveIDs;
    ResolveNext(OutputResolver(store), b, pos, i, count, values);
  }

  lemma NextSpent(store: Store, b: Bytes, pos: nat, i: nat, count: nat, values: seq<Spent>)
    requires i < count && ResolveIDs(SpentResolver(store), b, pos, i) == Ok(values)
    ensures pos + 34 * i + 34 > |b| ==> ResolveIDs(SpentResolver(store), b, pos, count) == Err(ParseFailed)
    ensures pos + 34 * i + 34 <= |b| ==>
              match ReadSpent(store, b[pos + 34 * i..pos + 34 * i + 34])
              case Err(e) => ResolveIDs(SpentResolver(store), b, pos, count) == Err(e)
              case Ok(v) => ResolveIDs(SpentResolver(store), b, pos, i + 1) == Ok(values + [v])
  {
    hide ReadSpent, ResolveIDs;
    ResolveNext(SpentResolver(store), b, pos, i, count, values);
  }

  function ReadEitherTreasury(store: Store, id: Hash): Result<TreasuryOutput> {
    if ReadTreasury(store, id, false).Ok? then ReadTreasury(store, id, false) else ReadTreasury(store, id, true)
  }

  /** The treasury part of a diff, which starts at `pos`. */
  function DecodeMutation(store: Store, b: Bytes, pos: nat): Result<Mutation> {
    if pos >= |b| then Err(ParseFailed)
    else if b[pos] != 1 then Ok(None)
    else if pos + 33 > |b| then Err(ParseFailed)
    else
      var generated :- ReadEitherTreasury(store, b[pos + 1..pos + 33]);
      if pos + 65 > |b| then Err(ParseFailed)
      else
        var spent :- ReadTreasury(store, b[pos + 33..pos + 65], true);
        Ok(Some((generated, spent)))
  }

  datatype DiffLists = DiffLists(outputs: seq<Output>, spents: seq<Spent>)

  type Mutation = Option<(TreasuryOutput, TreasuryOutput)>

  function AssembledDiff(index: uint32, lists: DiffLists, mutation: Mutation): MilestoneDiff {
    MilestoneDiff(index, lists.outputs, lists.spents,
                  if mutation.Some? then Some(mutation.value.0) else None,
                  if mutation.Some? then Some(mutation.value.1) else None)
  }

  function DecodeLists(store: Store, b: Bytes): Result<DiffLists> {
    if |b| < 4 then Err(ParseFailed)
    else
      var outputCount := DecodeUint32(b[..4]);
      var outputs :- ResolveIDs(OutputResolver(store), b, 4, outputCount);
      var p := 4 + 34 * outputCount;
      if p + 4 > |b| then Err(ParseFailed)
      else
        var spentCount := DecodeUint32(b[p..p + 4]);
        var spents :- ResolveIDs(SpentResolver(store), b, p + 4, spentCount);
        Ok(DiffLists(outputs, spents))
  }

  function DecodeDiff(store: Store, key: Bytes, b: Bytes): Result<MilestoneDiff>
    requires |key| == 5
  {
    var lists :- DecodeLists(store, b);
    var mutation :- DecodeMutation(store, b, 8 + 34 * |lists.outputs| + 34 * |lists.spents|);
    Ok(AssembledDiff(DecodeUint32(key[1..]), lists, mutation))
  }

  method LoadOutputs(u: Manager, ms: MarshalUtil, count: uint32) returns (r: Result<seq<Output>>)
    requires ms.Valid()
    modifies ms
    ensures ms.Valid()
    ensures r == ResolveIDs(OutputResolver(u.utxoStorage), ms.bytes, old(ms.offset), count)
    ensures r.Ok? ==> ms.offset == old(ms.offset) + 34 * count
  {
    hide *;
    var outputs: seq<Output> := [];
    ghost var resolve := OutputResolver(u.utxoStorage);
    ghost var start := ms.offset;
    ResolveNone(resolve, ms.bytes, start);
    for i := 0 to count
      invariant ms.Valid() && ms.offset == start + 34 * i
      invariant ResolveIDs(resolve, ms.bytes, start, i) == Ok(outputs)
    {
      NextOutput(u.utxoStorage, ms.bytes, start, i, count, outputs);
      var outputID := ParseOutputID(ms);
      if outputID.Err? {
        return Err(outputID.error);
      }
      var output := u.ReadOutputByOutputID(outputID.value);
      if output.Err? {
        return Err(output.error);
      }
      outputs := outputs + [output.value];
    }
    r := Ok(outputs);
  }

  method LoadSpents(u: Manager, ms: MarshalUtil, count: uint32) returns (r: Result<seq<Spent>>)
    requires ms.Valid()
    modifies ms
    ensures ms.Valid()
    ensures r == ResolveIDs(SpentResolver(u.utxoStorage), ms.bytes, old(ms.offset), count)
    ensures r.Ok? ==> ms.offset == old(ms.offset) + 34 * count
  {
    hide *;
    var spents: seq<Spent> := [];
    ghost var resolve := SpentResolver(u.utxoStorage);
    ghost var start := ms.offset;
    ResolveNone(resolve, ms.bytes, start);
    for i := 0 to count
      invariant ms.Valid() && ms.offset == start + 34 * i
      invariant ResolveIDs(resolve, ms.bytes, start, i) == Ok(spents)
    {
      NextSpent(u.utxoStorage, ms.bytes, start, i, count, spents);
      var outputID := ParseOutputID(ms);
      if outputID.Err? {
        return Err(outputID.error);
      }
      var spent := ReadSpentForOutputID(u, outputID.value);
      if spent.Err? {
        return Err(spent.error);
      }
      spents := spents + [spent.value];
    }
    r := Ok(spents);
  }

  method LoadMutation(u: Manager, ms: MarshalUtil) returns (r: Result<Mutation>)
    requires ms.Valid()
    modifies ms
    ensures ms.Valid()
    ensures r == DecodeMutation(u.utxoStorage, ms.bytes, old(ms.offset))
    ensures r.Ok? ==> ms.offset == old(ms.offset) + if r.value.Some? then 65 else 1
  {
    var hasTreasury :- ms.ReadBool();
    if !hasTreasury {
      return Ok(None);
    }
    var generatedID :- ParseHash(ms);

    // the generated output may have been spent since
    var generated := ReadTreasuryOutput(u, generatedID, false);
    if generated.Err? {
      generated := ReadTreasuryOutput(u, generatedID, true);
      if generated.Err? {
        return Err(generated.error);
      }
    }
    var spentID :- ParseHash(ms);
    var spent :- ReadTreasuryOutput(u, spentID, true);
    r := Ok(Some((generated.value, spent)));
  }

  method LoadLists(u: Manager, ms: MarshalUtil) returns (r: Result<DiffLists>)
    requires ms.Valid() && ms.offset == 0
    modifies ms
    ensures ms.Valid()
    ensures r == DecodeLists(u.utxoStorage, ms.bytes)
    ensures r.Ok? ==> ms.offset == 8 + 34 * |r.value.outputs| + 34 * |r.value.spents|
  {
    hide ResolveIDs, OutputResolver, SpentResolver, DecodeUint32;
    var outputCount :- ms.ReadUint32();
    var outputs :- LoadOutputs(u, ms, outputCount);
    var spentCount :- ms.ReadUint32();
    var spents :- LoadSpents(u, ms, spentCount);
    r := Ok(DiffLists(outputs, spents));
  }

  method LoadDiff(u: Manager, key: Bytes, value: Bytes) returns (r: Result<MilestoneDiff>, ghost consumed: nat)
    requires |key| == 5
    ensures r == DecodeDiff(u.utxoStorage, key, value)
    ensures r.Ok? ==>
              consumed == 4 + 34 * |r.value.outputs| + 4 + 34 * |r.value.spents| + 1 + if r.value.treasuryOutput.Some? then 64 else 0
    ensures r.Ok? ==> consumed <= |value|
  {
    hide DecodeLists, DecodeMutation, DecodeUint32;
    consumed := 0;
    var ms := new MarshalUtil(value);
    var lists := LoadLists(u, ms);
    if lists.Err? {
      return Err(lists.error), consumed;
    }
    var mutation := LoadMutation(u, ms);
    if mutation.Err? {
      return Err(mutation.error), consumed;
    }
    consumed := ms.offset;
    r := Ok(AssembledDiff(DecodeUint32(key[1..]), lists.value, mutation.value));
  }

  // ----- decoding inverts the documented layout -----

  lemma {:induction false} JoinedID(ids: seq<OutputID>, i: nat)
    requires i < |ids|
    ensures JoinIDs(ids)[34 * i..34 * i + 34] == ids[i]
  {
    if i != 0 {
      JoinedID(ids[1..], i - 1);
      var rest := JoinIDs(ids[1..]);
      assert JoinIDs(ids) == ids[0] + rest;
      assert JoinIDs(ids)[34 * i..34 * i + 34] == rest[34 * (i - 1)..34 * (i - 1) + 34];
    }
  }

  lemma SliceOfSlice(b: Bytes, pos: nat, n: nat, i: nat, j: nat)
    requires i <= j <= n && pos + n <= |b|
    ensures b[pos..pos + n][i..j] == b[pos + i..pos + j]
  {
    var s, t := b[pos..pos + n][i..j], b[pos + i..pos + j];
    assert |s| == |t|;
    assert forall k | 0 <= k < |s| :: s[k] == t[k];
  }

  lemma {:induction false} ResolveJoined<T>(resolve: OutputID -> Result<T>, b: Bytes, pos: nat, ids: seq<OutputID>, values: seq<T>, count: nat)
    requires pos + 34 * |ids| <= |b| && b[pos..pos + 34 * |ids|] == JoinIDs(ids)
    requires count <= |ids| == |values|
    requires forall i | 0 <= i < |ids| :: resolve(ids[i]) == Ok(values[i])
    ensures ResolveIDs(resolve, b, pos, count) == Ok(values[..count])
  {
    if count != 0 {
      ResolveJoined(resolve, b, pos, ids, values, count - 1);
      var at := pos + 34 * (count - 1);
      JoinedID(ids, count - 1);
      SliceOfSlice(b, pos, 34 * |ids|, 34 * (count - 1), 34 * (count - 1) + 34);
      assert values[..count] == values[..count - 1] + [values[count - 1]];
    }
  }

  ghost function ResolvedOutputs(L: Ledger, ids: seq<OutputID>): (s: seq<Output>)
    requires forall id :: id in ids ==> id in L.outputs
    ensures |s| == |ids| && forall i | 0 <= i < |ids| :: s[i] == L.outputs[ids[i]]
  {
    seq(|ids|, i requires 0 <= i < |ids| => L.outputs[ids[i]])
  }

  ghost function ResolvedSpents(L: Ledger, ids: seq<OutputID>): (s: seq<Spent>)
    requires ValidLedger(L) && forall id :: id in ids ==> id in L.spendings
    ensures |s| == |ids| && forall i | 0 <= i < |ids| :: ids[i] in L.outputs && s[i] == Spent(L.outputs[ids[i]], L.spendings[ids[i]])
  {
    seq(|ids|, i requires 0 <= i < |ids| => Spent(L.outputs[ids[i]], L.spendings[ids[i]]))
  }

  ghost function ResolvedTreasury(L: Ledger, id: Hash): TreasuryOutput
    requires id in L.treasuries
  {
    TreasuryOutput(id, L.treasuries[id].amount, L.treasuries[id].spent)
  }

  ghost function ResolvedLists(L: Ledger, d: Diff): DiffLists
    requires ValidLedger(L) && ValidDiff(L, d)
  {
    DiffLists(ResolvedOutputs(L, d.created), ResolvedSpents(L, d.consumed))
  }

  ghost function ResolvedMutation(L: Ledger, d: Diff): Mutation
    requires ValidDiff(L, d)
  {
    match d.treasury
    case None => None
    case Some(t) => Some((ResolvedTreasury(L, t.generated), ResolvedTreasury(L, t.spent)))
  }

  /** The diff of a milestone as the ledger has it, in the order it was recorded. */
  ghost function ResolvedDiff(L: Ledger, index: uint32): MilestoneDiff
    requires ValidLedger(L) && index in L.diffs
  {
    var d := L.diffs[index];
    AssembledDiff(index, ResolvedLists(L, d), ResolvedMutation(L, d))
  }

  /** What that diff says, member by member. */
  lemma ResolvedDiffHolds(L: Ledger, index: uint32)
    requires ValidLedger(L) && index in L.diffs
    ensures var d, r := L.diffs[index], ResolvedDiff(L, index);
            && r.index == index
            && |r.outputs| == |d.created| && (forall i | 0 <= i < |d.created| :: r.outputs[i] == L.outputs[d.created[i]])
            && |r.spents| == |d.consumed|
            && (forall i | 0 <= i < |d.consumed| ::
                  r.spents[i].output == L.outputs[d.consumed[i]] && r.spents[i].spending == L.spendings[d.consumed[i]])
            && (r.treasuryOutput.Some? <==> d.treasury.Some?) && (r.spentTreasuryOutput.Some? <==> d.treasury.Some?)
            && (d.treasury.Some? ==>
                  var t := d.treasury.value;
                  && r.treasuryOutput.value.milestoneID == t.generated && r.spentTreasuryOutput.value.milestoneID == t.spent
                  && r.treasuryOutput.value.amount == L.treasuries[t.generated].amount
                  && r.spentTreasuryOutput.value.amount == L.treasuries[t.spent].amount
                  && r.treasuryOutput.value.spent == L.treasuries[t.generated].spent && r.spentTreasuryOutput.value.spent)
  {
  }

  lemma DiffValueParts(d: Diff)
    requires |d.created| < 0x1_0000_0000 && |d.consumed| < 0x1_0000_0000
    ensures var b, n, m := DiffValue(d), |d.created|, |d.consumed|;
            && |b| == 4 + 34 * n + 4 + 34 * m + 1 + (if d.treasury.Some? then 64 else 0)
            && b[..4] == LE(n, 4)
            && b[4..4 + 34 * n] == JoinIDs(d.created)
            && b[4 + 34 * n..8 + 34 * n] == LE(m, 4)
            && b[8 + 34 * n..8 + 34 * n + 34 * m] == JoinIDs(d.consumed)
  {
    var n, m := |d.created|, |d.consumed|;
    var c, s := JoinIDs(d.created), JoinIDs(d.consumed);
    var t: Bytes := match d.treasury case None => [0] case Some(t) => [1] + t.generated + t.spent;
    assert DiffValue(d) == LE(n, 4) + c + LE(m, 4) + s + t;
    hide *;
    FourParts(LE(n, 4), c, LE(m, 4), s, t);
  }

  lemma FourParts(a: Bytes, c: Bytes, m: Bytes, s: Bytes, t: Bytes)
    ensures var b := a + c + m + s + t;
            && b[..|a|] == a
            && b[|a|..|a| + |c|] == c
            && b[|a| + |c|..|a| + |c| + |m|] == m
            && b[|a| + |c| + |m|..|a| + |c| + |m| + |s|] == s
            && b[|a| + |c| + |m| + |s|..] == t
  {
  }

  lemma MutationRoundTrip(store: Store, L: Ledger, d: Diff, b: Bytes, pos: nat)
    requires Represents(store, L) && ValidDiff(L, d) && pos <= |b|
    requires b[pos..] == match d.treasury case None => [0] case Some(t) => [1] + t.generated + t.spent
    ensures DecodeMutation(store, b, pos) == Ok(ResolvedMutation(L, d))
  {
    assert b[pos] == b[pos..][0];
    if d.treasury.Some? {
      var t := d.treasury.value;
      assert b[pos + 1..pos + 33] == b[pos..][1..33] == t.generated;
      assert b[pos + 33..pos + 65] == b[pos..][33..65] == t.spent;
      ReadTreasuryRepresented(store, L, t.generated, false);
      ReadTreasuryRepresented(store, L, t.generated, true);
      ReadTreasuryRepresented(store, L, t.spent, true);
    }
  }

  lemma DiffTail(d: Diff)
    requires |d.created| < 0x1_0000_0000 && |d.consumed| < 0x1_0000_0000
    ensures |DiffValue(d)| >= 8 + 34 * |d.created| + 34 * |d.consumed|
    ensures DiffValue(d)[8 + 34 * |d.created| + 34 * |d.consumed|..] ==
            match d.treasury case None => [0] case Some(t) => [1] + t.generated + t.spent
  {
    var t: Bytes := match d.treasury case None => [0] case Some(t) => [1] + t.generated + t.spent;
    FourParts(LE(|d.created|, 4), JoinIDs(d.created), LE(|d.consumed|, 4), JoinIDs(d.consumed), t);
  }

  lemma OutputsRoundTrip(store: Store, L: Ledger, ids: seq<OutputID>, b: Bytes, pos: nat)
    requires Represents(store, L) && forall id :: id in ids ==> id in L.outputs
    requires pos + 34 * |ids| <= |b| && b[pos..pos + 34 * |ids|] == JoinIDs(ids)
    ensures ResolveIDs(OutputResolver(store), b, pos, |ids|) == Ok(ResolvedOutputs(L, ids))
  {
    var resolve, values := OutputResolver(store), ResolvedOutputs(L, ids);
    forall i | 0 <= i < |ids| ensures resolve(ids[i]) == Ok(values[i]) {
      ReadOutputRepresented(store, L, ids[i]);
    }
    ResolveJoined(resolve, b, pos, ids, values, |ids|);
    assert values[..|ids|] == values;
  }

  lemma SpentsRoundTrip(store: Store, L: Ledger, ids: seq<OutputID>, b: Bytes, pos: nat)
    requires Represents(store, L) && forall id :: id in ids ==> id in L.spendings
    requires pos + 34 * |ids| <= |b| && b[pos..pos + 34 * |ids|] == JoinIDs(ids)
    ensures ResolveIDs(SpentResolver(store), b, pos, |ids|) == Ok(ResolvedSpents(L, ids))
  {
    var resolve, values := SpentResolver(store), ResolvedSpents(L, ids);
    hide ReadSpent, IndexKey;
    forall i | 0 <= i < |ids| ensures resolve(ids[i]) == Ok(values[i]) {
      ReadSpentRepresented(store, L, ids[i]);
    }
    ResolveJoined(resolve, b, pos, ids, values, |ids|);
    assert values[..|ids|] == values;
  }

  lemma ListsFrom(store: Store, b: Bytes, n: uint32, m: uint32, outputs: seq<Output>, spents: seq<Spent>)
    requires 8 + 34 * n <= |b|
    requires DecodeUint32(b[..4]) == n && DecodeUint32(b[4 + 34 * n..8 + 34 * n]) == m
    requires ResolveIDs(OutputResolver(store), b, 4, n) == Ok(outputs)
    requires ResolveIDs(SpentResolver(store), b, 8 + 34 * n, m) == Ok(spents)
    ensures DecodeLists(store, b) == Ok(DiffLists(outputs, spents))
  {
    hide ResolveIDs, DecodeUint32, OutputResolver, SpentResolver;
  }

  lemma RecordedDiff(store: Store, L: Ledger, index: uint32)
    requires Represents(store, L) && index in L.diffs
    ensures var d := L.diffs[index];
            && ValidLedger(L) && ValidDiff(L, d)
            && |d.created| < 0x1_0000_0000 && |d.consumed| < 0x1_0000_0000
            && |ResolvedLists(L, d).outputs| == |d.created| && |ResolvedLists(L, d).spents| == |d.consumed|
            && ResolvedDiff(L, index) == AssembledDiff(index, ResolvedLists(L, d), ResolvedMutation(L, d))
  {
    hide RepresentsOutputs, RepresentsIndexes, RepresentsMilestones, ResolvedMutation, AssembledDiff;
  }

  lemma DecodeDiffFrom(store: Store, key: Bytes, b: Bytes, lists: DiffLists, mutation: Mutation)
    requires |key| == 5 && DecodeLists(store, b) == Ok(lists)
    requires DecodeMutation(store, b, 8 + 34 * |lists.outputs| + 34 * |lists.spents|) == Ok(mutation)
    ensures DecodeDiff(store, key, b) ==
            Ok(AssembledDiff(DecodeUint32(key[1..]), lists, mutation))
  {
    hide DecodeLists, DecodeMutation, DecodeUint32;
  }

  lemma DiffKeyIndex(index: uint32)
    ensures |DiffKey(index)| == 5 && DecodeUint32(DiffKey(index)[1..]) == index
  {
    assert DiffKey(index)[1..] == LE(index, 4);
    Uint32RoundTrip(index);
  }

  lemma ListsRoundTrip(store: Store, L: Ledger, d: Diff)
    requires Represents(store, L) && ValidDiff(L, d)
    ensures DecodeLists(store, DiffValue(d)) == Ok(ResolvedLists(L, d))
  {
    hide Represents, DiffValue, JoinIDs, DecodeUint32, ResolveIDs, OutputResolver, SpentResolver, DecodeLists, LE;
    RepresentsValid(store, L);
    var b, n, m := DiffValue(d), |d.created|, |d.consumed|;
    assert |b| >= 8 + 34 * n + 34 * m by { DiffValueParts(d); }
    assert DecodeUint32(b[..4]) == n by { DiffValueParts(d); Uint32RoundTrip(n); }
    assert DecodeUint32(b[4 + 34 * n..8 + 34 * n]) == m by { DiffValueParts(d); Uint32RoundTrip(m); }
    assert ResolveIDs(OutputResolver(store), b, 4, n) == Ok(ResolvedOutputs(L, d.created)) by {
      DiffValueParts(d);
      OutputsRoundTrip(store, L, d.created, b, 4);
    }
    assert ResolveIDs(SpentResolver(store), b, 8 + 34 * n, m) == Ok(ResolvedSpents(L, d.consumed)) by {
      DiffValueParts(d);
      SpentsRoundTrip(store, L, d.consumed, b, 8 + 34 * n);
    }
    ListsFrom(store, b, n, m, ResolvedOutputs(L, d.created), ResolvedSpents(L, d.consumed));
  }

  /** Loading the diff of a milestone returns what the ledger recorded, whatever the counts. */
  lemma DiffRoundTrip(store: Store, L: Ledger, index: uint32)
    requires Represents(store, L) && index in L.diffs
    ensures DecodeDiff(store, DiffKey(index), DiffValue(L.diffs[index])) == Ok(ResolvedDiff(L, index))
  {
    hide *;
    RecordedDiff(store, L, index);
    var d := L.diffs[index];
    var at := 8 + 34 * |d.created| + 34 * |d.consumed|;
    ListsRoundTrip(store, L, d);
    assert DecodeMutation(store, DiffValue(d), at) == Ok(ResolvedMutation(L, d)) by {
      DiffTail(d);
      MutationRoundTrip(store, L, d, DiffValue(d), at);
    }
    DiffKeyIndex(index);
    DecodeDiffFrom(store, DiffKey(index), DiffValue(d), ResolvedLists(L, d), ResolvedMutation(L, d));
  }

  method MilestoneDiffByIndex(u: Manager, index: uint32) returns (r: Result<MilestoneDiff>)
    ensures forall L | Represents(u.utxoStorage, L) ::
              r == if index in L.diffs then Ok(ResolvedDiff(L, index)) else Err(KeyNotFound)
    ensures r.Ok? ==> DiffKey(index) in u.utxoStorage && r == DecodeDiff(u.utxoStorage, DiffKey(index), u.utxoStorage[DiffKey(index)])
  {
    var key := DiffKey(index);
    forall L | Represents(u.utxoStorage, L) && index in L.diffs
      ensures DecodeDiff(u.utxoStorage, key, u.utxoStorage[key]) == Ok(ResolvedDiff(L, index))
    {
      DiffRoundTrip(u.utxoStorage, L, index);
    }
    if key !in u.utxoStorage {
      return Err(KeyNotFound);
    }
    ghost var consumed;
    r, consumed := LoadDiff(u, key, u.utxoStorage[key]);
  }
}
