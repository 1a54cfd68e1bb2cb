/**
 The key-value store: a finite map from keys to values, whose prefix iteration
 visits keys in ascending byte order.
 */
module KVStores {
  import opened ByteStrings

  type Store = map<Bytes, Bytes>

  datatype Option<+T> = None | Some(value: T)

  datatype Error =
    | KeyNotFound
    | ParseFailed
    | UnknownAddressType
    | InvalidTreasuryState

  datatype Result<+T> = Ok(value: T) | Err(error: Error) {
    predicate IsFailure() {
      Err?
    }

    function PropagateFailure<U>(): Result<U>
      requires Err?
    {
      Err(error)
    }

    function Extract(): T
      requires Ok?
    {
      value
    }
  }

  function Get(store: Store, key: Bytes): Result<Bytes> {
    if key in store then Ok(store[key]) else Err(KeyNotFound)
  }

  ghost predicate Ascending(s: seq<Bytes>) {
    forall i, j :: 0 <= i < j < |s| ==> Less(s[i], s[j])
  }

  predicate IsLeast(k: Bytes, ks: set<Bytes>) {
    k in ks && forall j :: j in ks ==> j == k || Less(k, j)
  }

  lemma {:induction false} LeastExists(ks: set<Bytes>)
    requires ks != {}
    ensures exists k :: IsLeast(k, ks)
    decreases |ks|
  {
    var k :| k in ks;
    var rest := ks - {k};
    assert ks == rest + {k};
    if rest == {} {
      assert IsLeast(k, ks);
    } else {
      LeastExists(rest);
      var m :| IsLeast(m, rest);
      LessTotal(k, m);
      if Less(k, m) {
        forall j | j in ks ensures j == k || Less(k, j) {
          if j != k && j != m {
            LessTransitive(k, m, j);
          }
        }
        assert IsLeast(k, ks);
      } else {
        assert IsLeast(m, ks);
      }
    }
  }

  lemma LeastUnique(k: Bytes, j: Bytes, ks: set<Bytes>)
    requires IsLeast(k, ks) && IsLeast(j, ks)
    ensures k == j
  {
    if k != j {
      LessAsymmetric(k, j);
    }
  }

  function Least(ks: set<Bytes>): (k: Bytes)
    requires ks != {}
    ensures IsLeast(k, ks)
  {
    LeastExists(ks);
    assert forall k, j | IsLeast(k, ks) && IsLeast(j, ks) :: k == j by {
      forall k, j | IsLeast(k, ks) && IsLeast(j, ks) ensures k == j {
        LeastUnique(k, j, ks);
      }
    }
    var k :| k in ks && IsLeast(k, ks);
    k
  }

  /** The elements of a set of keys in ascending order. */
  function SortKeys(ks: set<Bytes>): (s: seq<Bytes>)
    ensures Ascending(s)
    ensures forall k :: k in s <==> k in ks
  {
    if ks == {} then
      []
    else
      var k := Least(ks);
      [k] + SortKeys(ks - {k})
  }

  /** The keys that an iteration over `prefix` visits, in the order it visits them. */
  function Scan(store: Store, prefix: Bytes): (rows: seq<Bytes>)
    ensures Ascending(rows)
    ensures forall k :: k in rows <==> k in store && prefix <= k
  {
    SortKeys(set k | k in store && prefix <= k)
  }

  lemma {:induction false} SortKeysSize(ks: set<Bytes>)
    ensures |SortKeys(ks)| == |ks|
    decreases |ks|
  {
    if ks != {} {
      SortKeysSize(ks - {Least(ks)});
    }
  }

  /** An iteration visits each key once. */
  lemma ScanSize(store: Store, prefix: Bytes)
    ensures |Scan(store, prefix)| == |set k | k in store && prefix <= k|
  {
    SortKeysSize(set k | k in store && prefix <= k);
  }

  /** Of two rows the earlier one has the key that comes first in byte order. */
  lemma ScanInByteOrder(store: Store, prefix: Bytes, i: nat, j: nat)
    requires i < j < |Scan(store, prefix)|
    ensures var a, b := Scan(store, prefix)[i], Scan(store, prefix)[j];
            || (|a| < |b| && a == b[..|a|])
            || exists n :: 0 <= n < |a| && n < |b| && a[..n] == b[..n] && a[n] < b[n]
  {
    LessIsLexicographic(Scan(store, prefix)[i], Scan(store, prefix)[j]);
  }

  lemma AscendingDistinct(s: seq<Bytes>, i: nat, j: nat)
    requires Ascending(s) && i < |s| && j < |s| && s[i] == s[j]
    ensures i == j
  {
    if i < j {
      LessIrreflexive(s[i]);
    } else if j < i {
      LessIrreflexive(s[i]);
    }
  }

  /** An ascending sequence is determined by its elements. */
  lemma {:induction false} AscendingUnique(s: seq<Bytes>, t: seq<Bytes>)
    requires Ascending(s) && Ascending(t)
    requires forall k :: k in s <==> k in t
    ensures s == t
  {
    if s == [] {
      assert forall i :: 0 <= i < |t| ==> t[i] in t;
    } else {
      assert s[0] in t;
      assert t[0] in s;
      if s[0] != t[0] {
        LessAsymmetric(s[0], t[0]);
      }
      forall k ensures k in s[1..] <==> k in t[1..] {
        TailMembers(s, k);
        TailMembers(t, k);
      }
      AscendingUnique(s[1..], t[1..]);
      assert s == [s[0]] + s[1..] && t == [t[0]] + t[1..];
    }
  }

  lemma TailMembers(s: seq<Bytes>, k: Bytes)
    requires Ascending(s) && s != []
    ensures k in s[1..] <==> k in s && k != s[0]
  {
    if k in s && k != s[0] {
      var i :| 0 <= i < |s| && s[i] == k;
      assert s[1..][i - 1] == k;
    }
    if k in s[1..] {
      var i :| 0 <= i < |s| - 1 && s[1..][i] == k;
      assert Less(s[0], s[i + 1]);
      LessIrreflexive(k);
    }
  }
}
