/** The stored records of the UTXO database: keys, values and how they are loaded. */
module Records {
  import opened ByteStrings
  import opened KVStores
  import opened Marshalling

  const PREFIX_LEDGER_INDEX: byte := 0
  const PREFIX_OUTPUT: byte := 1
  const PREFIX_UNSPENT: byte := 2
  const PREFIX_SPENT: byte := 3
  const PREFIX_MILESTONE_DIFF: byte := 4
  const PREFIX_TREASURY: byte := 6

  datatype Output = Output(
    outputID: OutputID,
    messageID: MessageID,
    outputType: byte,
    address: Address,
    amount: uint64)

  datatype Spending = Spending(targetTransactionID: TransactionID, confirmationIndex: uint32)

  datatype Spent = Spent(output: Output, spending: Spending)

  // ----- the documented layout -----

  function OutputKey(id: OutputID): Bytes {
    [PREFIX_OUTPUT] + id
  }

  function OutputValue(o: Output): Bytes {
    o.messageID + [o.outputType] + AddressBytes(o.address) + LE(o.amount, 8)
  }

  /** The key of an output in the unspent or in the spent index. */
  function IndexKey(tag: byte, o: Output): (key: Bytes)
    ensures |key| == 69
  {
    [tag] + AddressBytes(o.address) + [o.outputType] + o.outputID
  }

  function SpendingValue(s: Spending): Bytes {
    s.targetTransactionID + LE(s.confirmationIndex, 4)
  }

  // ----- what loading yields, for any bytes -----

  function DecodeOutput(key: Bytes, value: Bytes): Result<Output> {
    if |key| < 35 || |value| < 34 then Err(ParseFailed)
    else if value[33] != ADDRESS_TYPE_ED25519 then Err(UnknownAddressType)
    else if |value| == 66 then
      Ok(Output(key[1..35], value[..32], value[32], value[34..66], DecodeUint64(value[..8])))
    else if |value| < 74 then Err(ParseFailed)
    else
      Ok(Output(key[1..35], value[..32], value[32], value[34..66], DecodeUint64(value[66..74])))
  }

  function DecodeIndexKey(key: Bytes): Result<OutputID> {
    if |key| < 2 then Err(ParseFailed)
    else if key[1] != ADDRESS_TYPE_ED25519 then Err(UnknownAddressType)
    else if |key| < 69 then Err(ParseFailed)
    else Ok(key[35..69])
  }

  function DecodeSpending(value: Bytes): Result<Spending> {
    if |value| < 36 then Err(ParseFailed)
    else Ok(Spending(value[..32], DecodeUint32(value[32..36])))
  }

  // ----- loading -----

  method LoadOutput(key: Bytes, value: Bytes) returns (r: Result<Output>)
    ensures r == DecodeOutput(key, value)
  {
    var keyUtil := new MarshalUtil(key);
    var _ :- keyUtil.ReadByte();
    var outputID :- ParseOutputID(keyUtil);

    var valueUtil := new MarshalUtil(value);
    var messageID :- ParseHash(valueUtil);
    var outputType :- valueUtil.ReadByte();
    var address :- ParseAddress(valueUtil);
    var amount :- valueUtil.ReadUint64();

    r := Ok(Output(outputID, messageID, outputType, address, amount));
  }

  method OutputIDFromIndexKey(key: Bytes) returns (r: Result<OutputID>)
    ensures r == DecodeIndexKey(key)
  {
    var ms := new MarshalUtil(key);
    var _ :- ms.ReadByte();
    var _ :- ParseAddress(ms);
    var outputType := ms.ReadByte();
    match outputType {
      case Err(e) => r := Err(e);
      case Ok(_) => r := ParseOutputID(ms);
    }
  }

  /** Loading a row of the spent index; the output itself is resolved separately. */
  method LoadSpending(key: Bytes, value: Bytes) returns (r: Result<(OutputID, Spending)>)
    ensures r == (match DecodeIndexKey(key)
                  case Err(e) => Err(e)
                  case Ok(id) =>
                    match DecodeSpending(value)
                    case Err(e) => Err(e)
                    case Ok(s) => Ok((id, s)))
  {
    var outputID :- OutputIDFromIndexKey(key);

    var valueUtil := new MarshalUtil(value);
    var target :- ParseHash(valueUtil);
    var index :- valueUtil.ReadUint32();

    r := Ok((outputID, Spending(target, index)));
  }

  // ----- properties of the layout -----

  lemma OutputRoundTrip(o: Output)
    ensures DecodeOutput(OutputKey(o.outputID), OutputValue(o)) == Ok(o)
  {
    var v := OutputValue(o);
    assert OutputKey(o.outputID)[1..35] == o.outputID;
    assert v[..32] == o.messageID && v[34..66] == o.address && v[66..74] == LE(o.amount, 8);
    Uint64RoundTrip(o.amount);
  }

  /**
   A record is loaded only if it starts with the encoding of what it yields, and what
   follows that is ignored. The one shorter record that loads stops behind the address: its
   amount is read back from the start of the record, out of the message ID.
   */
  lemma LoadableOutputs(key: Bytes, value: Bytes)
    requires |key| == 35 && key[0] == PREFIX_OUTPUT
    ensures DecodeOutput(key, value).Ok? <==> (|value| == 66 || |value| >= 74) && value[33] == ADDRESS_TYPE_ED25519
    ensures DecodeOutput(key, value).Ok? ==> key == OutputKey(DecodeOutput(key, value).value.outputID)
    ensures DecodeOutput(key, value).Ok? && |value| >= 74 ==> value[..74] == OutputValue(DecodeOutput(key, value).value)
    ensures DecodeOutput(key, value).Ok? && |value| == 66 ==>
              var o := DecodeOutput(key, value).value;
              OutputValue(o) == value + value[..8]
  {
    if DecodeOutput(key, value).Ok? {
      assert key == [key[0]] + key[1..35];
      var address: Bytes := [value[33]] + value[34..66];
      assert value[..66] == value[..32] + [value[32]] + address;
      if |value| >= 74 {
        LEInvertsFromLE(value[66..74]);
        DecodeUint64IsFromLE(value[66..74]);
        assert value[..74] == value[..66] + value[66..74];
      } else {
        LEInvertsFromLE(value[..8]);
        DecodeUint64IsFromLE(value[..8]);
        assert value[..66] == value;
      }
    }
  }

  lemma SpendingRoundTrip(s: Spending)
    ensures DecodeSpending(SpendingValue(s)) == Ok(s)
  {
    var v := SpendingValue(s);
    assert v[..32] == s.targetTransactionID && v[32..36] == LE(s.confirmationIndex, 4);
    Uint32RoundTrip(s.confirmationIndex);
  }

  lemma IndexKeyParts(tag: byte, o: Output)
    ensures var key := IndexKey(tag, o);
            key[0] == tag && key[1..34] == AddressBytes(o.address) && key[34] == o.outputType && key[35..69] == o.outputID
  {
  }

  /** Decoding an index key returns the output ID it was built from. */
  lemma IndexKeyRoundTrip(tag: byte, o: Output)
    ensures DecodeIndexKey(IndexKey(tag, o)) == Ok(o.outputID)
  {
    IndexKeyParts(tag, o);
    assert IndexKey(tag, o)[1] == AddressBytes(o.address)[0];
  }

  lemma IndexKeyInjective(tag: byte, o: Output, tag': byte, o': Output)
    ensures IndexKey(tag, o) == IndexKey(tag', o') <==>
            tag == tag' && o.address == o'.address && o.outputType == o'.outputType && o.outputID == o'.outputID
  {
    IndexKeyParts(tag, o);
    IndexKeyParts(tag', o');
    assert AddressBytes(o.address)[1..] == o.address && AddressBytes(o'.address)[1..] == o'.address;
  }

  /** The prefix an index scan uses. */
  function IndexPrefix(tag: byte, address: Option<Address>, outputType: Option<byte>): Bytes {
    match address
    case None => [tag]
    case Some(a) =>
      match outputType
      case None => [tag] + AddressBytes(a)
      case Some(t) => [tag] + AddressBytes(a) + [t]
  }

  /** A scan by prefix reaches exactly the keys with that address and, when given, that type. */
  lemma IndexKeyHasPrefix(tag: byte, o: Output, address: Address, outputType: Option<byte>)
    ensures IndexPrefix(tag, Some(address), outputType) <= IndexKey(tag, o) <==>
            o.address == address && (outputType.Some? ==> o.outputType == outputType.value)
  {
    IndexKeyParts(tag, o);
    var key := IndexKey(tag, o);
    var p := [tag] + AddressBytes(address);
    assert p <= key <==> p == key[..34];
    assert key[..34] == [tag] + key[1..34];
    assert p == key[..34] <==> AddressBytes(address) == AddressBytes(o.address) by {
      assert p[1..] == AddressBytes(address) && key[..34][1..] == key[1..34];
    }
    assert AddressBytes(address)[1..] == address && AddressBytes(o.address)[1..] == o.address;
    if outputType.Some? {
      var q := p + [outputType.value];
      assert q <= key <==> q == key[..35];
      assert key[..35] == key[..34] + [key[34]];
      assert q[..34] == p && q[34] == outputType.value;
      assert key[..35][..34] == key[..34];
    }
  }
}
