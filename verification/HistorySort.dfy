/** The two orders of history items, and sorting by them in place. */
module HistorySort {
  import opened ByteStrings
  import opened Marshalling
  import opened Hexadecimal
  import opened HistoryItems

  datatype Order = NewestFirst | OldestFirst

  /** By milestone index, and by message ID among items of the same milestone. */
  predicate Before(order: Order, a: HistoryItem, b: HistoryItem) {
    if a.referencedByMilestoneIndex == b.referencedByMilestoneIndex then Less(a.messageID, b.messageID)
    else if order.NewestFirst? then a.referencedByMilestoneIndex > b.referencedByMilestoneIndex
    else a.referencedByMilestoneIndex < b.referencedByMilestoneIndex
  }

  /** Both comparators are strict total orders on items of different messages. */
  lemma BeforeIsStrictOrder(order: Order, a: HistoryItem, b: HistoryItem, c: HistoryItem)
    ensures !Before(order, a, a)
    ensures Before(order, a, b) && Before(order, b, c) ==> Before(order, a, c)
    ensures Before(order, a, b) ==> !Before(order, b, a)
    ensures a.messageID != b.messageID ==> Before(order, a, b) || Before(order, b, a)
  {
    LessIrreflexive(a.messageID);
    LessTotal(a.messageID, b.messageID);
    if Less(a.messageID, b.messageID) {
      LessAsymmetric(a.messageID, b.messageID);
      if Less(b.messageID, c.messageID) {
        LessTransitive(a.messageID, b.messageID, c.messageID);
      }
    }
  }

  /** Among items of one milestone the order is that of the bytes of the raw message IDs, for both comparators. */
  lemma TieBreakIsRawOrder(order: Order, a: HistoryItem, b: HistoryItem, x: MessageID, y: MessageID)
    requires a.messageID == ToHex(x) && b.messageID == ToHex(y)
    requires a.referencedByMilestoneIndex == b.referencedByMilestoneIndex
    ensures Before(order, a, b) <==> Less(x, y)
    ensures Before(order, a, b) <==> exists i :: 0 <= i < 32 && x[..i] == y[..i] && x[i] < y[i]
  {
    ToHexKeepsOrder(x, y);
    LessIsLexicographic(x, y);
  }

  /** Among items of different milestones the two orders are opposite. */
  lemma MilestonesDecide(a: HistoryItem, b: HistoryItem)
    requires a.referencedByMilestoneIndex > b.referencedByMilestoneIndex
    ensures Before(NewestFirst, a, b) && !Before(NewestFirst, b, a)
    ensures Before(OldestFirst, b, a) && !Before(OldestFirst, a, b)
  {
  }

  ghost predicate Sorted(order: Order, s: seq<HistoryItem>) {
    forall i, j | 0 <= i < j < |s| :: Before(order, s[i], s[j])
  }

  ghost predicate DistinctMessages(s: seq<HistoryItem>) {
    forall i, j | 0 <= i < j < |s| :: s[i].messageID != s[j].messageID
  }

  /** Sorting leaves no choice: whatever order the items came in, the result is the same. */
  lemma {:induction false} SortedUnique(order: Order, s: seq<HistoryItem>, t: seq<HistoryItem>)
    requires Sorted(order, s) && Sorted(order, t)
    requires forall x :: x in s <==> x in t
    ensures s == t
  {
    hide Before;
    if s == [] {
      assert forall i :: 0 <= i < |t| ==> t[i] in t;
    } else {
      assert s[0] in t && t[0] in s;
      BeforeIsStrictOrder(order, s[0], t[0], s[0]);
      assert s[0] == t[0];
      forall x ensures x in s[1..] <==> x in t[1..] {
        SortedTail(order, s, x);
        SortedTail(order, t, x);
      }
      SortedUnique(order, s[1..], t[1..]);
      assert s == [s[0]] + s[1..] && t == [t[0]] + t[1..];
    }
  }

  lemma SortedTail(order: Order, s: seq<HistoryItem>, x: HistoryItem)
    requires Sorted(order, s) && s != []
    ensures x in s[1..] <==> x in s && x != s[0]
  {
    hide Before;
    if x in s && x != s[0] {
      var i :| 0 <= i < |s| && s[i] == x;
      assert s[1..][i - 1] == x;
    }
    if x in s[1..] {
      var i :| 0 <= i < |s| - 1 && s[1..][i] == x;
      assert Before(order, s[0], s[i + 1]);
      BeforeIsStrictOrder(order, x, x, x);
    }
  }

  lemma SortedDistinct(order: Order, s: seq<HistoryItem>)
    requires Sorted(order, s)
    ensures forall i, j | 0 <= i < j < |s| :: s[i] != s[j]
  {
    hide Before;
    forall i, j | 0 <= i < j < |s| ensures s[i] != s[j] {
      BeforeIsStrictOrder(order, s[i], s[j], s[j]);
    }
  }

  // ----- what sorting yields -----

  function Insert(order: Order, x: HistoryItem, s: seq<HistoryItem>): (t: seq<HistoryItem>)
    ensures |t| == |s| + 1
    ensures multiset(t) == multiset(s) + multiset{x}
  {
    if s == [] || Before(order, x, s[0]) then
      [x] + s
    else
      assert s == [s[0]] + s[1..];
      [s[0]] + Insert(order, x, s[1..])
  }

  function Sort(order: Order, s: seq<HistoryItem>): (t: seq<HistoryItem>)
    ensures |t| == |s|
    ensures multiset(t) == multiset(s)
  {
    if s == [] then
      []
    else
      assert s == [s[0]] + s[1..];
      Insert(order, s[0], Sort(order, s[1..]))
  }

  lemma SameMembers(s: seq<HistoryItem>, t: seq<HistoryItem>, x: HistoryItem)
    requires multiset(s) == multiset(t)
    ensures x in s <==> x in t
  {
    assert x in s <==> x in multiset(s);
    assert x in t <==> x in multiset(t);
  }

  lemma InsertMember(order: Order, x: HistoryItem, s: seq<HistoryItem>, y: HistoryItem)
    requires y in Insert(order, x, s)
    ensures y == x || y in s
  {
    assert y in multiset(Insert(order, x, s));
    assert y in s <==> y in multiset(s);
  }

  lemma {:induction false} InsertSorted(order: Order, x: HistoryItem, s: seq<HistoryItem>)
    requires Sorted(order, s)
    requires forall y :: y in s ==> y.messageID != x.messageID
    ensures Sorted(order, Insert(order, x, s))
  {
    if s != [] {
      hide Before;
      BeforeIsStrictOrder(order, x, s[0], x);
      if Before(order, x, s[0]) {
        forall j | 0 < j < |s| ensures Before(order, x, s[j]) {
          BeforeIsStrictOrder(order, x, s[0], s[j]);
        }
      } else {
        var t := Insert(order, x, s[1..]);
        InsertSorted(order, x, s[1..]);
        forall j | 0 <= j < |t| ensures Before(order, s[0], t[j]) {
          InsertMember(order, x, s[1..], t[j]);
          if t[j] != x {
            var k :| 0 <= k < |s| - 1 && s[1..][k] == t[j];
            assert Before(order, s[0], s[k + 1]);
          }
        }
      }
    }
  }

  lemma {:induction false} SortSorts(order: Order, s: seq<HistoryItem>)
    requires DistinctMessages(s)
    ensures Sorted(order, Sort(order, s))
  {
    if s != [] {
      var rest := Sort(order, s[1..]);
      SortSorts(order, s[1..]);
      forall y | y in rest ensures y.messageID != s[0].messageID {
        SameMembers(rest, s[1..], y);
        var k :| 0 <= k < |s| - 1 && s[1..][k] == y;
        assert s[k + 1] == y;
      }
      InsertSorted(order, s[0], rest);
    }
  }

  lemma {:induction false} SortOfSorted(order: Order, s: seq<HistoryItem>)
    requires Sorted(order, s)
    ensures Sort(order, s) == s
  {
    if s != [] {
      SortOfSorted(order, s[1..]);
      assert s == [s[0]] + s[1..];
      if |s| > 1 {
        assert Before(order, s[0], s[1]);
      }
    }
  }

  /** Sorting forgets the order it starts from. */
  lemma SortForgets(order: Order, s: seq<HistoryItem>, t: seq<HistoryItem>)
    requires multiset(s) == multiset(t) && DistinctMessages(s) && DistinctMessages(t)
    ensures Sort(order, s) == Sort(order, t)
  {
    SortSorts(order, s);
    SortSorts(order, t);
    forall x ensures x in Sort(order, s) <==> x in Sort(order, t) {
      SameMembers(Sort(order, s), Sort(order, t), x);
    }
    SortedUnique(order, Sort(order, s), Sort(order, t));
  }

  lemma {:induction false} DistinctOnce(s: seq<HistoryItem>, x: HistoryItem)
    requires DistinctMessages(s)
    ensures multiset(s)[x] <= 1
  {
    if s != [] {
      DistinctOnce(s[1..], x);
      assert s == [s[0]] + s[1..];
      forall i | 0 <= i < |s| - 1 ensures s[1..][i] != s[0] {
        assert s[i + 1].messageID != s[0].messageID;
      }
      assert x in s[1..] <==> x in multiset(s[1..]);
    }
  }

  lemma TwiceIn(s: seq<HistoryItem>, i: nat, j: nat)
    requires i < j < |s| && s[i] == s[j]
    ensures multiset(s)[s[i]] >= 2
  {
    assert s == s[..i] + [s[i]] + s[i + 1..j] + [s[j]] + s[j + 1..];
  }

  lemma FirstDistinct(s: seq<HistoryItem>, n: nat)
    requires DistinctMessages(s) && n <= |s|
    ensures DistinctMessages(s[..n])
  {
  }

  lemma PermutationDistinct(s: seq<HistoryItem>, t: seq<HistoryItem>)
    requires DistinctMessages(t) && multiset(s) == multiset(t)
    ensures DistinctMessages(s)
  {
    forall i, j | 0 <= i < j < |s| ensures s[i].messageID != s[j].messageID {
      SameMembers(s, t, s[i]);
      SameMembers(s, t, s[j]);
      var k :| 0 <= k < |t| && t[k] == s[i];
      var m :| 0 <= m < |t| && t[m] == s[j];
      if k == m {
        TwiceIn(s, i, j);
        DistinctOnce(t, s[i]);
      }
    }
  }

  /** A sorted permutation of items of different messages is the one that `Sort` yields. */
  lemma SortedPermutation(order: Order, s: seq<HistoryItem>, t: seq<HistoryItem>)
    requires DistinctMessages(s) && Sorted(order, t) && multiset(s) == multiset(t)
    ensures t == Sort(order, s)
  {
    SortSorts(order, s);
    forall x ensures x in t <==> x in Sort(order, s) {
      SameMembers(t, Sort(order, s), x);
    }
    SortedUnique(order, t, Sort(order, s));
  }

  /**
   Sorts the first `n` elements of a slice in place. Nothing is promised of items of the same
   message, which an unstable sort may leave in any order; `SortedPermutation` says that on
   different messages the contract leaves no choice.
   */
  method SortSlice(a: array<HistoryItem>, n: nat, order: Order)
    requires n <= a.Length && DistinctMessages(a[..n])
    modifies a
    ensures Sorted(order, a[..n]) && multiset(a[..n]) == multiset(old(a[..n]))
    ensures a[n..] == old(a[n..])
  {
    var sorted := Sort(order, a[..n]);
    SortSorts(order, a[..n]);
    Overwrite(a, sorted);
  }

  method Overwrite(a: array<HistoryItem>, s: seq<HistoryItem>)
    requires |s| <= a.Length
    modifies a
    ensures a[..|s|] == s && a[|s|..] == old(a[|s|..])
  {
    for i := 0 to |s|
      invariant a[..i] == s[..i]
      invariant a[|s|..] == old(a[|s|..])
    {
      a[i] := s[i];
    }
  }
}
