/** Lower-case Base 16 text of identifiers: section 8 of RFC 4648. */
module Hexadecimal {
  import opened ByteStrings
  import opened KVStores
  import opened Marshalling

  function Digit(n: byte): byte
    requires n < 16
  {
    if n < 10 then 48 + n else 87 + n
  }

  function DigitValue(c: byte): Option<byte> {
    if 48 <= c <= 57 then Some(c - 48)
    else if 97 <= c <= 102 then Some(c - 87)
    else if 65 <= c <= 70 then Some(c - 55)
    else None
  }

  function ToHex(b: Bytes): (s: Bytes)
    ensures |s| == 2 * |b|
  {
    if b == [] then [] else [Digit(b[0] / 16), Digit(b[0] % 16)] + ToHex(b[1..])
  }

  function FromHex(s: Bytes): Result<Bytes> {
    if s == [] then Ok([])
    else if |s| == 1 then Err(ParseFailed)
    else
      match (DigitValue(s[0]), DigitValue(s[1]))
      case (Some(hi), Some(lo)) =>
        var rest :- FromHex(s[2..]);
        Ok([16 * hi + lo] + rest)
      case _ => Err(ParseFailed)
  }

  function MessageIDFromHex(s: Bytes): Result<MessageID> {
    var b :- FromHex(s);
    if |b| == 32 then Ok(b) else Err(ParseFailed)
  }

  lemma DigitsAreBase16(n: byte)
    requires n < 16
    ensures Digit(n) as int == "0123456789abcdef"[n] as int
  {
  }

  lemma DigitRoundTrip(n: byte)
    requires n < 16
    ensures DigitValue(Digit(n)) == Some(n)
  {
  }

  lemma {:induction false} FromHexInvertsToHex(b: Bytes)
    ensures FromHex(ToHex(b)) == Ok(b)
  {
    if b != [] {
      DigitRoundTrip(b[0] / 16);
      DigitRoundTrip(b[0] % 16);
      FromHexInvertsToHex(b[1..]);
      assert ToHex(b)[2..] == ToHex(b[1..]);
      assert b == [b[0]] + b[1..];
    }
  }

  lemma ToHexInjective(a: Bytes, b: Bytes)
    requires ToHex(a) == ToHex(b)
    ensures a == b
  {
    FromHexInvertsToHex(a);
    FromHexInvertsToHex(b);
  }

  /** Reading an upper-case digit loses only its case. */
  function Lower(c: byte): byte {
    if 65 <= c <= 70 then c + 32 else c
  }

  function LowerAll(s: Bytes): (t: Bytes)
    ensures |t| == |s|
  {
    if s == [] then [] else [Lower(s[0])] + LowerAll(s[1..])
  }

  predicate IsHexText(s: Bytes) {
    |s| % 2 == 0 && forall i | 0 <= i < |s| :: DigitValue(s[i]).Some?
  }

  /** Exactly the texts of an even number of hex digits are read. */
  lemma {:induction false} FromHexReads(s: Bytes)
    ensures FromHex(s).Ok? <==> IsHexText(s)
    ensures FromHex(s).Ok? ==> |s| == 2 * |FromHex(s).value|
  {
    if |s| >= 2 {
      var t := s[2..];
      FromHexReads(t);
      assert forall i | 0 <= i < |t| :: t[i] == s[i + 2];
      assert forall i | 2 <= i < |s| :: s[i] == t[i - 2];
    }
  }

  lemma DigitLowers(c: byte)
    requires DigitValue(c).Some?
    ensures DigitValue(c).value < 16 && Digit(DigitValue(c).value) == Lower(c)
  {
  }

  lemma PairOfDigits(hi: byte, lo: byte)
    requires hi < 16 && lo < 16
    ensures (16 * hi + lo) / 16 == hi && (16 * hi + lo) % 16 == lo
  {
  }

  /** Writing back what was read lowers the case of its letters. */
  lemma {:induction false} ToHexLowers(s: Bytes)
    requires FromHex(s).Ok?
    ensures ToHex(FromHex(s).value) == LowerAll(s)
  {
    if |s| >= 2 {
      var b := FromHex(s).value;
      ToHexLowers(s[2..]);
      DigitLowers(s[0]);
      DigitLowers(s[1]);
      hide DigitValue, Digit, Lower;
      PairOfDigits(DigitValue(s[0]).value, DigitValue(s[1]).value);
      assert b[0] == 16 * DigitValue(s[0]).value + DigitValue(s[1]).value && b[1..] == FromHex(s[2..]).value;
      assert s[1..][1..] == s[2..];
      assert LowerAll(s) == [Lower(s[0])] + ([Lower(s[1])] + LowerAll(s[2..]));
    }
  }

  lemma MessageIDFromHexExact(s: Bytes)
    ensures MessageIDFromHex(s).Ok? <==> |s| == 64 && IsHexText(s)
    ensures MessageIDFromHex(s).Ok? ==> ToHex(MessageIDFromHex(s).value) == LowerAll(s)
  {
    FromHexReads(s);
    if FromHex(s).Ok? {
      ToHexLowers(s);
    }
  }

  lemma MessageIDRoundTrip(id: MessageID)
    ensures MessageIDFromHex(ToHex(id)) == Ok(id)
  {
    FromHexInvertsToHex(id);
  }

  lemma DigitsOrdered(m: byte, n: byte)
    ensures Digit(m / 16) < Digit(n / 16) || (m / 16 == n / 16 && Digit(m % 16) < Digit(n % 16)) <==> m < n
    ensures Digit(m / 16) == Digit(n / 16) && Digit(m % 16) == Digit(n % 16) <==> m == n
  {
  }

  /** Hex text sorts as the bytes it stands for. */
  lemma {:induction false} ToHexKeepsOrder(a: Bytes, b: Bytes)
    ensures Less(ToHex(a), ToHex(b)) <==> Less(a, b)
  {
    if a != [] && b != [] {
      DigitsOrdered(a[0], b[0]);
      ToHexKeepsOrder(a[1..], b[1..]);
      var s, t := ToHex(a), ToHex(b);
      assert s[1..][1..] == ToHex(a[1..]) && t[1..][1..] == ToHex(b[1..]);
      assert s[1..][0] == Digit(a[0] % 16) && t[1..][0] == Digit(b[0] % 16);
    }
  }
}
