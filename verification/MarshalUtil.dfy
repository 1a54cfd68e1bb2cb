/**
 The read cursor over a byte buffer and the identifiers parsed with it.
 The cursor itself belongs to a library; its seek takes a negative argument as a
 distance back and any other argument as an absolute position.
 */
module Marshalling {
  import opened ByteStrings
  import opened KVStores

  type Hash = b: Bytes | |b| == 32 witness seq(32, _ => 0)
  type MessageID = Hash
  type TransactionID = Hash
  type OutputID = b: Bytes | |b| == 34 witness seq(34, _ => 0)

  /** An Ed25519 address, the only address kind the network knows. */
  type Address = Hash

  const ADDRESS_TYPE_ED25519: byte := 0

  function AddressBytes(address: Address): (b: Bytes)
    ensures |b| == 33
  {
    [ADDRESS_TYPE_ED25519] + address
  }

  class MarshalUtil {
    const bytes: Bytes
    var offset: nat

    ghost predicate Valid()
      reads this
    {
      offset <= |bytes|
    }

    constructor (bytes: Bytes)
      ensures Valid() && this.bytes == bytes && offset == 0
    {
      this.bytes := bytes;
      offset := 0;
    }

    method ReadBytes(n: nat) returns (r: Result<Bytes>)
      requires Valid()
      modifies this
      ensures Valid()
      ensures r == if old(offset) + n <= |bytes| then Ok(bytes[old(offset)..old(offset) + n]) else Err(ParseFailed)
      ensures offset == old(offset) + if r.Ok? then n else 0
    {
      if offset + n > |bytes| {
        return Err(ParseFailed);
      }
      r := Ok(bytes[offset..offset + n]);
      offset := offset + n;
    }

    method ReadByte() returns (r: Result<byte>)
      requires Valid()
      modifies this
      ensures Valid()
      ensures r == if old(offset) < |bytes| then Ok(bytes[old(offset)]) else Err(ParseFailed)
      ensures offset == old(offset) + if r.Ok? then 1 else 0
    {
      var b :- ReadBytes(1);
      r := Ok(b[0]);
    }

    method ReadBool() returns (r: Result<bool>)
      requires Valid()
      modifies this
      ensures Valid()
      ensures r == if old(offset) < |bytes| then Ok(bytes[old(offset)] == 1) else Err(ParseFailed)
      ensures offset == old(offset) + if r.Ok? then 1 else 0
    {
      var b :- ReadByte();
      r := Ok(b == 1);
    }

    method ReadUint32() returns (r: Result<uint32>)
      requires Valid()
      modifies this
      ensures Valid()
      ensures r == if old(offset) + 4 <= |bytes| then Ok(DecodeUint32(bytes[old(offset)..old(offset) + 4])) else Err(ParseFailed)
      ensures offset == old(offset) + if r.Ok? then 4 else 0
    {
      var b :- ReadBytes(4);
      r := Ok(DecodeUint32(b));
    }

    method ReadUint64() returns (r: Result<uint64>)
      requires Valid()
      modifies this
      ensures Valid()
      ensures r == if old(offset) + 8 <= |bytes| then Ok(DecodeUint64(bytes[old(offset)..old(offset) + 8])) else Err(ParseFailed)
      ensures offset == old(offset) + if r.Ok? then 8 else 0
    {
      var b :- ReadBytes(8);
      r := Ok(DecodeUint64(b));
    }

    method ReadRemainingBytes() returns (b: Bytes)
      requires Valid()
      modifies this
      ensures Valid() && b == bytes[old(offset)..] && offset == |bytes|
    {
      b := bytes[offset..];
      offset := |bytes|;
    }

    method ReadSeek(position: int)
      requires Valid() && 0 <= offset + position && position <= |bytes|
      modifies this
      ensures Valid()
      ensures offset == if position < 0 then old(offset) + position else position
    {
      offset := if position < 0 then offset + position else position;
    }
  }

  method ParseOutputID(ms: MarshalUtil) returns (r: Result<OutputID>)
    requires ms.Valid()
    modifies ms
    ensures ms.Valid()
    ensures r == if old(ms.offset) + 34 <= |ms.bytes| then Ok(ms.bytes[old(ms.offset)..old(ms.offset) + 34]) else Err(ParseFailed)
    ensures ms.offset == old(ms.offset) + if r.Ok? then 34 else 0
  {
    var b :- ms.ReadBytes(34);
    r := Ok(b);
  }

  /** Used for transaction IDs and for message IDs. */
  method ParseHash(ms: MarshalUtil) returns (r: Result<Hash>)
    requires ms.Valid()
    modifies ms
    ensures ms.Valid()
    ensures r == if old(ms.offset) + 32 <= |ms.bytes| then Ok(ms.bytes[old(ms.offset)..old(ms.offset) + 32]) else Err(ParseFailed)
    ensures ms.offset == old(ms.offset) + if r.Ok? then 32 else 0
  {
    var b :- ms.ReadBytes(32);
    r := Ok(b);
  }

  /** The address serialized at `pos`, read from whatever follows `pos`. */
  function AddressAt(b: Bytes, pos: nat): Result<Address>
    requires pos <= |b|
  {
    if pos == |b| then Err(ParseFailed)
    else if b[pos] != ADDRESS_TYPE_ED25519 then Err(UnknownAddressType)
    else if |b| - pos < 33 then Err(ParseFailed)
    else Ok(b[pos + 1..pos + 33])
  }

  method DeserializeAddress(data: Bytes) returns (r: Result<(Address, nat)>)
    requires data != []
    ensures r.Ok? <==> |data| >= 33 && data[0] == ADDRESS_TYPE_ED25519
    ensures r.Ok? ==> r.value == (data[1..33], 33)
    ensures r.Err? ==> r.error == ParseFailed
  {
    if |data| < 33 || data[0] != ADDRESS_TYPE_ED25519 {
      return Err(ParseFailed);
    }
    r := Ok((data[1..33], 33));
  }

  /**
   On success the cursor ends exactly behind the address if and only if something
   follows it: with nothing left over the second move back has distance zero,
   which the seek takes as a move to the start of the buffer.
   */
  method ParseAddress(ms: MarshalUtil) returns (r: Result<Address>)
    requires ms.Valid()
    modifies ms
    ensures ms.Valid()
    ensures r == AddressAt(ms.bytes, old(ms.offset))
    ensures r.Ok? ==> ms.offset == if old(ms.offset) + 33 < |ms.bytes| then old(ms.offset) + 33 else 0
  {
    var addrType :- ms.ReadByte();

    // the type byte is part of the address
    ms.ReadSeek(-1);

    if addrType != ADDRESS_TYPE_ED25519 {
      return Err(UnknownAddressType);
    }

    var pre := ms.offset;
    var rest := ms.ReadRemainingBytes();
    assert |rest| >= 33 ==> rest[1..33] == ms.bytes[pre + 1..pre + 33];
    var deserialized :- DeserializeAddress(rest);
    var post := ms.offset;

    // give back what follows the address
    var bytesReadTooFar: int := post - pre - deserialized.1;
    ms.ReadSeek(-bytesReadTooFar);

    r := Ok(deserialized.0);
  }
}
