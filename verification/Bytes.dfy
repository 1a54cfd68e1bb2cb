/** Byte strings: the lexicographic order of keys and strings, and little-endian integers. */
module ByteStrings {

  newtype byte = x: int | 0 <= x < 256

  type Bytes = seq<byte>

  type uint32 = x: nat | x < 0x1_0000_0000
  type uint64 = x: nat | x < 0x1_0000_0000_0000_0000

  /** The order of `bytes.Compare` and `strings.Compare`. */
  predicate Less(a: Bytes, b: Bytes) {
    && b != []
    && (a == [] || a[0] < b[0] || (a[0] == b[0] && Less(a[1..], b[1..])))
  }

  lemma {:induction false} LessIrreflexive(a: Bytes)
    ensures !Less(a, a)
  {
    if a != [] {
      LessIrreflexive(a[1..]);
    }
  }

  lemma {:induction false} LessTransitive(a: Bytes, b: Bytes, c: Bytes)
    requires Less(a, b) && Less(b, c)
    ensures Less(a, c)
  {
    if a != [] && a[0] == b[0] == c[0] {
      LessTransitive(a[1..], b[1..], c[1..]);
    }
  }

  lemma {:induction false} LessTotal(a: Bytes, b: Bytes)
    ensures Less(a, b) || a == b || Less(b, a)
  {
    if a != [] && b != [] && a[0] == b[0] {
      LessTotal(a[1..], b[1..]);
      assert a == [a[0]] + a[1..] && b == [b[0]] + b[1..];
    }
  }

  lemma LessAsymmetric(a: Bytes, b: Bytes)
    requires Less(a, b)
    ensures !Less(b, a) && a != b
  {
  }

  lemma SameStart(a: Bytes, b: Bytes)
    requires a != [] && b != []
    ensures forall i | 0 < i <= |a| && i <= |b| && a[..i] == b[..i] :: a[0] == b[0]
  {
    forall i | 0 < i <= |a| && i <= |b| && a[..i] == b[..i] ensures a[0] == b[0] {
      assert a[..i][0] == a[0] && b[..i][0] == b[0];
    }
  }

  /** `i` is the first place where the strings differ, and `a` has the smaller byte there. */
  ghost predicate SmallerAt(a: Bytes, b: Bytes, i: nat) {
    i < |a| && i < |b| && a[..i] == b[..i] && a[i] < b[i]
  }

  lemma SmallerInTail(a: Bytes, b: Bytes, i: nat)
    requires a != [] && b != [] && a[0] == b[0]
    ensures SmallerAt(a[1..], b[1..], i) <==> SmallerAt(a, b, i + 1)
  {
    if i < |a| - 1 && i < |b| - 1 {
      assert a[..i + 1] == [a[0]] + a[1..][..i] && b[..i + 1] == [b[0]] + b[1..][..i];
      assert a[1..][..i] == a[..i + 1][1..] && b[1..][..i] == b[..i + 1][1..];
    }
  }

  lemma PrefixOfTail(a: Bytes, b: Bytes)
    requires a != [] && b != [] && a[0] == b[0] && |a| <= |b|
    ensures a == b[..|a|] <==> a[1..] == b[1..][..|a| - 1]
  {
    assert a == [a[0]] + a[1..] && b[..|a|] == [b[0]] + b[1..][..|a| - 1];
    assert a[1..] == a[1..|a|] && b[1..][..|a| - 1] == b[..|a|][1..];
  }

  /** The shorter of two strings that agree comes first, otherwise the first byte in which they differ decides. */
  lemma {:induction false} LessIsLexicographic(a: Bytes, b: Bytes)
    ensures Less(a, b) <==>
            || (|a| < |b| && a == b[..|a|])
            || exists i :: 0 <= i < |a| && i < |b| && a[..i] == b[..i] && a[i] < b[i]
  {
    LessIsSmaller(a, b);
    if i: nat :| SmallerAt(a, b, i) {
      assert a[..i] == b[..i];
    }
    forall i | 0 <= i < |a| && i < |b| && a[..i] == b[..i] && a[i] < b[i] ensures exists k: nat :: SmallerAt(a, b, k) {
      assert SmallerAt(a, b, i);
    }
  }

  lemma {:induction false} LessIsSmaller(a: Bytes, b: Bytes)
    ensures Less(a, b) <==> (|a| < |b| && a == b[..|a|]) || exists i: nat :: SmallerAt(a, b, i)
  {
    if a != [] && b != [] {
      SameStart(a, b);
      if a[0] == b[0] {
        LessIsSmaller(a[1..], b[1..]);
        if |a| < |b| {
          PrefixOfTail(a, b);
        }
        forall i: nat ensures SmallerAt(a[1..], b[1..], i) <==> SmallerAt(a, b, i + 1) {
          SmallerInTail(a, b, i);
        }
        hide SmallerAt;
        if i: nat :| SmallerAt(a, b, i) {
          NotAtStart(a, b, i);
          assert SmallerAt(a[1..], b[1..], i - 1);
        }
      } else {
        assert a[..0] == b[..0];
        assert a[0] < b[0] ==> SmallerAt(a, b, 0);
      }
    }
  }

  lemma NotAtStart(a: Bytes, b: Bytes, i: nat)
    requires a != [] && b != [] && a[0] == b[0] && SmallerAt(a, b, i)
    ensures i > 0
  {
  }

  /** A common prefix does not change the order. */
  lemma {:induction false} LessAfterPrefix(p: Bytes, a: Bytes, b: Bytes)
    ensures Less(p + a, p + b) <==> Less(a, b)
  {
    if p == [] {
      assert p + a == a && p + b == b;
    } else {
      assert (p + a)[1..] == p[1..] + a && (p + b)[1..] == p[1..] + b;
      LessAfterPrefix(p[1..], a, b);
    }
  }

  function Pow256(k: nat): nat {
    if k == 0 then 1 else 256 * Pow256(k - 1)
  }

  /** The `k` low bytes of `n`, least significant first. */
  function LE(n: nat, k: nat): (b: Bytes)
    ensures |b| == k
  {
    if k == 0 then [] else [(n % 256) as byte] + LE(n / 256, k - 1)
  }

  lemma TwoBytes(n: nat)
    requires n < 0x1_0000
    ensures LE(n, 2) == [(n % 256) as byte, (n / 256) as byte]
  {
    assert LE(n / 256, 1) == [(n / 256) as byte] + LE(0, 0);
  }

  lemma FourBytes(n: uint32)
    ensures LE(n, 4) == [(n % 256) as byte, (n / 0x100 % 256) as byte, (n / 0x1_0000 % 256) as byte, (n / 0x100_0000) as byte]
  {
    var n1 := n / 256;
    var n2 := n1 / 256;
    var n3 := n2 / 256;
    assert n1 == n / 0x100 && n2 == n / 0x1_0000 && n3 == n / 0x100_0000 < 256;
    assert LE(n3, 1) == [(n3 % 256) as byte] + LE(n3 / 256, 0);
    assert LE(n2, 2) == [(n2 % 256) as byte] + LE(n3, 1);
    assert LE(n1, 3) == [(n1 % 256) as byte] + LE(n2, 2);
  }

  function FromLE(b: Bytes): (n: nat)
    ensures n < Pow256(|b|)
  {
    if b == [] then 0 else b[0] as nat + 256 * FromLE(b[1..])
  }

  lemma {:induction false} FromLEInvertsLE(n: nat, k: nat)
    requires n < Pow256(k)
    ensures FromLE(LE(n, k)) == n
  {
    if k != 0 {
      FromLEInvertsLE(n / 256, k - 1);
      assert LE(n, k)[1..] == LE(n / 256, k - 1);
    }
  }

  lemma FromLEStep(b: Bytes)
    requires b != []
    ensures FromLE(b) == b[0] as nat + 256 * FromLE(b[1..])
  {
  }

  lemma LowByte(low: byte, rest: nat)
    ensures (low as nat + 256 * rest) % 256 == low as nat && (low as nat + 256 * rest) / 256 == rest
  {
  }

  lemma {:induction false} LEInvertsFromLE(b: Bytes)
    ensures LE(FromLE(b), |b|) == b
  {
    if b != [] {
      LEInvertsFromLE(b[1..]);
      LowByte(b[0], FromLE(b[1..]));
      hide FromLE;
      assert FromLE(b) == b[0] as nat + 256 * FromLE(b[1..]) by { FromLEStep(b); }
      assert b == [b[0]] + b[1..];
    }
  }

  lemma Pow256Widths()
    ensures Pow256(2) == 0x1_0000
    ensures Pow256(4) == 0x1_0000_0000
    ensures Pow256(8) == 0x1_0000_0000_0000_0000
  {
  }

  function DecodeUint32(b: Bytes): (n: uint32)
    requires |b| == 4
  {
    b[0] as nat + 0x100 * b[1] as nat + 0x1_0000 * b[2] as nat + 0x100_0000 * b[3] as nat
  }

  function DecodeUint64(b: Bytes): (n: uint64)
    requires |b| == 8
  {
    DecodeUint32(b[..4]) + 0x1_0000_0000 * DecodeUint32(b[4..])
  }

  lemma DecodeUint32IsFromLE(b: Bytes)
    requires |b| == 4
    ensures DecodeUint32(b) == FromLE(b)
  {
    var b1 := b[1..];
    var b2 := b1[1..];
    var b3 := b2[1..];
    assert b1[0] == b[1] && b2[0] == b[2] && b3[0] == b[3] && b3[1..] == [];
    assert FromLE(b3) == b3[0] as nat + 256 * FromLE([]);
    assert FromLE(b2) == b2[0] as nat + 256 * FromLE(b3);
    assert FromLE(b1) == b1[0] as nat + 256 * FromLE(b2);
  }

  lemma DecodeUint64IsFromLE(b: Bytes)
    requires |b| == 8
    ensures DecodeUint64(b) == FromLE(b)
  {
    var b1 := b[1..];
    var b2 := b1[1..];
    var b3 := b2[1..];
    var front := b[..4];
    DecodeUint32IsFromLE(b[4..]);
    assert b3[1..] == b[4..];
    assert FromLE(b3) == b3[0] as nat + 256 * FromLE(b[4..]);
    assert FromLE(b2) == b2[0] as nat + 256 * FromLE(b3);
    assert FromLE(b1) == b1[0] as nat + 256 * FromLE(b2);
    assert front[0] == b[0] && front[1] == b1[0] && front[2] == b2[0] && front[3] == b3[0];
  }

  lemma Uint32RoundTrip(n: uint32)
    ensures DecodeUint32(LE(n, 4)) == n
  {
    Pow256Widths();
    FromLEInvertsLE(n, 4);
    DecodeUint32IsFromLE(LE(n, 4));
  }

  lemma Uint64RoundTrip(n: uint64)
    ensures DecodeUint64(LE(n, 8)) == n
  {
    Pow256Widths();
    FromLEInvertsLE(n, 8);
    DecodeUint64IsFromLE(LE(n, 8));
  }
}
