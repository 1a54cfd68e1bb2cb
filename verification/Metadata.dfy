/** Message metadata: its flags and its decoding. */
module MessageMetadata {
  import opened ByteStrings
  import opened KVStores
  import opened Marshalling

  const METADATA_REFERENCED := 1
  const METADATA_NO_TX := 2
  const METADATA_CONFLICTING_TX := 3
  const METADATA_MILESTONE := 4

  const CONFLICT_NONE: byte := 0

  type int32 = x: int | -0x8000_0000 <= x < 0x8000_0000

  /** The conversion from uint32 to int32 keeps the bits. */
  function ToInt32(n: uint32): int32 {
    if n < 0x8000_0000 then n else n - 0x1_0000_0000
  }

  function FromInt32(n: int32): uint32 {
    if n >= 0 then n else n + 0x1_0000_0000
  }

  function Pow2(bit: nat): (power: nat)
    requires bit < 8
    ensures power > 0
  {
    if bit == 0 then 1 else if bit == 1 then 2 else if bit == 2 then 4 else if bit == 3 then 8
    else if bit == 4 then 16 else if bit == 5 then 32 else if bit == 6 then 64 else 128
  }

  datatype Metadata = Metadata(
    messageID: MessageID,
    flags: byte,
    solidificationTimestamp: int32,
    referencedIndex: uint32,
    conflict: byte,
    youngestConeRootIndex: uint32,
    oldestConeRootIndex: uint32,
    coneRootCalculationIndex: uint32,
    parents: seq<MessageID>)
  {
    predicate HasBit(bit: nat)
      requires bit < 8
    {
      flags as int / Pow2(bit) % 2 == 1
    }

    predicate IsReferenced() {
      HasBit(METADATA_REFERENCED)
    }

    predicate IsConflictingTx() {
      HasBit(METADATA_CONFLICTING_TX)
    }

    predicate IsMilestone() {
      HasBit(METADATA_MILESTONE)
    }

    predicate IsIncludedTxInLedger() {
      HasBit(METADATA_REFERENCED) && !HasBit(METADATA_NO_TX) && !HasBit(METADATA_CONFLICTING_TX)
    }
  }

  /** The flags in numbers: bit 1 is referenced, 2 no transaction, 3 conflicting, 4 milestone. */
  lemma FlagBits(m: Metadata)
    ensures m.IsReferenced() <==> m.flags as int / 2 % 2 == 1
    ensures m.IsConflictingTx() <==> m.flags as int / 8 % 2 == 1
    ensures m.IsMilestone() <==> m.flags as int / 16 % 2 == 1
    ensures m.IsIncludedTxInLedger() <==> m.flags as int / 2 % 2 == 1 && m.flags as int / 4 % 2 == 0 && m.flags as int / 8 % 2 == 0
  {
  }

  // ----- the documented layout -----

  function JoinHashes(hashes: seq<Hash>): (b: Bytes)
    ensures |b| == 32 * |hashes|
  {
    if hashes == [] then [] else hashes[0] + JoinHashes(hashes[1..])
  }

  function MetadataHead(m: Metadata): (b: Bytes)
    requires |m.parents| < 256
    ensures |b| == 23
  {
    [m.flags] + LE(FromInt32(m.solidificationTimestamp), 4) + LE(m.referencedIndex, 4) + [m.conflict]
    + LE(m.youngestConeRootIndex, 4) + LE(m.oldestConeRootIndex, 4) + LE(m.coneRootCalculationIndex, 4)
    + [|m.parents| as byte]
  }

  function EncodeMetadata(m: Metadata): Bytes
    requires |m.parents| < 256
  {
    MetadataHead(m) + JoinHashes(m.parents)
  }

  // ----- decoding, for any bytes -----

  predicate Decodable(b: Bytes) {
    |b| >= 23 && |b| >= 23 + 32 * b[22] as int
  }

  function DecodeMetadata(id: MessageID, b: Bytes): Result<Metadata> {
    if !Decodable(b) then
      Err(ParseFailed)
    else
      Ok(Metadata(id, b[0], ToInt32(DecodeUint32(b[1..5])), DecodeUint32(b[5..9]), b[9],
                  DecodeUint32(b[10..14]), DecodeUint32(b[14..18]), DecodeUint32(b[18..22]),
                  HashesAt(b, 23, b[22] as nat)))
  }

  /** Where each member of the record is. */
  lemma MetadataAt(id: MessageID, b: Bytes)
    requires DecodeMetadata(id, b).Ok?
    ensures var m := DecodeMetadata(id, b).value;
            && m.messageID == id && m.flags == b[0] && m.conflict == b[9]
            && m.solidificationTimestamp % 0x1_0000_0000 == DecodeUint32(b[1..5])
            && m.referencedIndex == DecodeUint32(b[5..9])
            && m.youngestConeRootIndex == DecodeUint32(b[10..14])
            && m.oldestConeRootIndex == DecodeUint32(b[14..18])
            && m.coneRootCalculationIndex == DecodeUint32(b[18..22])
            && |m.parents| == b[22] as int && forall i | 0 <= i < |m.parents| :: m.parents[i] == b[23 + 32 * i..23 + 32 * i + 32]
  {
    hide DecodeUint32;
  }

  function HashesAt(b: Bytes, pos: nat, count: nat): (hashes: seq<Hash>)
    requires pos + 32 * count <= |b|
    ensures |hashes| == count
  {
    seq(count, i requires 0 <= i < count => b[pos + 32 * i..pos + 32 * i + 32])
  }

  /** The key must hold a message ID: a shorter one makes the decoder panic. */
  method MetadataFactory(key: Bytes, data: Bytes) returns (r: Result<Metadata>)
    requires |key| >= 32
    ensures r.Ok? <==> |data| >= 23 && |data| >= 23 + 32 * data[22] as int
    ensures r == DecodeMetadata(key[..32], data)
  {
    var ms := new MarshalUtil(data);
    hide DecodeUint32, ToInt32;
    var flags :- ms.ReadByte();
    var solidificationTimestamp :- ms.ReadUint32();
    var referencedIndex :- ms.ReadUint32();
    var conflict :- ms.ReadByte();
    var youngestConeRootIndex :- ms.ReadUint32();
    var oldestConeRootIndex :- ms.ReadUint32();
    var coneRootCalculationIndex :- ms.ReadUint32();
    var parentsCount :- ms.ReadByte();
    var parents :- ReadParents(ms, parentsCount as nat);
    r := Ok(Metadata(key[..32], flags, ToInt32(solidificationTimestamp), referencedIndex, conflict,
                     youngestConeRootIndex, oldestConeRootIndex, coneRootCalculationIndex, parents));
  }

  method ReadParents(ms: MarshalUtil, count: nat) returns (r: Result<seq<MessageID>>)
    requires ms.Valid()
    modifies ms
    ensures ms.Valid()
    ensures r == if old(ms.offset) + 32 * count <= |ms.bytes| then Ok(HashesAt(ms.bytes, old(ms.offset), count)) else Err(ParseFailed)
  {
    var parents := [];
    ghost var start := ms.offset;
    for i := 0 to count
      invariant ms.Valid() && ms.offset == start + 32 * i
      invariant parents == HashesAt(ms.bytes, start, i)
    {
      var parent :- ParseHash(ms);
      parents := parents + [parent];
    }
    r := Ok(parents);
  }

  // ----- decoding inverts the layout -----

  lemma {:induction false} JoinedHash(hashes: seq<Hash>, i: nat)
    requires i < |hashes|
    ensures JoinHashes(hashes)[32 * i..32 * i + 32] == hashes[i]
  {
    if i != 0 {
      JoinedHash(hashes[1..], i - 1);
      var rest := JoinHashes(hashes[1..]);
      assert JoinHashes(hashes) == hashes[0] + rest;
      assert JoinHashes(hashes)[32 * i..32 * i + 32] == rest[32 * (i - 1)..32 * (i - 1) + 32];
    }
  }

  lemma HeadParts(m: Metadata)
    requires |m.parents| < 256
    ensures var b := MetadataHead(m);
            && b[0] == m.flags
            && b[1..5] == LE(FromInt32(m.solidificationTimestamp), 4)
            && b[5..9] == LE(m.referencedIndex, 4)
            && b[9] == m.conflict
            && b[10..14] == LE(m.youngestConeRootIndex, 4)
            && b[14..18] == LE(m.oldestConeRootIndex, 4)
            && b[18..22] == LE(m.coneRootCalculationIndex, 4)
            && b[22] == |m.parents| as byte
  {
    hide LE;
  }

  lemma HeadSlice(head: Bytes, tail: Bytes, i: nat, j: nat)
    requires i <= j <= |head|
    ensures (head + tail)[i..j] == head[i..j]
  {
  }

  /** Every record of the documented layout, with up to 255 parents, is decoded to itself. */
  lemma MetadataRoundTrip(m: Metadata)
    requires |m.parents| < 256
    ensures DecodeMetadata(m.messageID, EncodeMetadata(m)) == Ok(m)
  {
    var head, tail := MetadataHead(m), JoinHashes(m.parents);
    var b := head + tail;
    assert b[0] == head[0] && b[9] == head[9] && b[22] == head[22];
    HeadParts(m);
    HeadSlice(head, tail, 1, 5);
    HeadSlice(head, tail, 5, 9);
    HeadSlice(head, tail, 10, 14);
    HeadSlice(head, tail, 14, 18);
    HeadSlice(head, tail, 18, 22);
    Uint32RoundTrip(FromInt32(m.solidificationTimestamp));
    Uint32RoundTrip(m.referencedIndex);
    Uint32RoundTrip(m.youngestConeRootIndex);
    Uint32RoundTrip(m.oldestConeRootIndex);
    Uint32RoundTrip(m.coneRootCalculationIndex);
    forall i | 0 <= i < |m.parents| ensures b[23 + 32 * i..23 + 32 * i + 32] == m.parents[i] {
      JoinedHash(m.parents, i);
      assert b[23 + 32 * i..23 + 32 * i + 32] == tail[32 * i..32 * i + 32];
    }
    hide MetadataHead, JoinHashes, LE, DecodeUint32;
    assert HashesAt(b, 23, |m.parents|) == m.parents;
  }
}
