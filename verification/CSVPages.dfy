/** What sorting pages of a history in place does to the pages served later. */
module CSVPages {
  import opened HistoryItems
  import opened HistorySort
  import opened HistoryCache

  lemma AfterCSVPermutes(s: seq<HistoryItem>, max: nat)
    ensures multiset(AfterCSV(s, max)) == multiset(s)
  {
    var n := PageSize(max, |s|);
    assert s == s[..n] + s[n..];
  }

  lemma SameLength(s: seq<HistoryItem>, t: seq<HistoryItem>)
    requires multiset(s) == multiset(t)
    ensures |s| == |t|
  {
    assert |multiset(s)| == |s| && |multiset(t)| == |t|;
  }

  /** What a page of any permutation of the history still is. */
  ghost predicate PageOf(history: seq<HistoryItem>, req: Request, page: seq<HistoryItem>) {
    && |page| == PageSize(req.maxResults, |history|)
    && DistinctMessages(page)
    && (forall x :: x in page ==> x in history)
    && (req.format.CSV? ==> Sorted(OldestFirst, page))
    && (req.format.CSV? && req.maxResults >= |history| ==> page == Sort(OldestFirst, history))
  }

  lemma PrefixMembers(history: seq<HistoryItem>, s: seq<HistoryItem>, n: nat)
    requires DistinctMessages(history) && multiset(s) == multiset(history) && n <= |s|
    ensures DistinctMessages(s[..n]) && forall x :: x in s[..n] ==> x in history
  {
    PermutationDistinct(s, history);
    forall x | x in s[..n] ensures x in history {
      var i :| 0 <= i < n && s[..n][i] == x;
      assert s[i] == x;
      SameMembers(s, history, x);
    }
  }

  lemma PermutedPage(history: seq<HistoryItem>, s: seq<HistoryItem>, req: Request)
    requires DistinctMessages(history) && multiset(s) == multiset(history) && req.format.JSON?
    ensures PageOf(history, req, FirstPage(s, req.maxResults))
  {
    hide Sorted, DistinctMessages;
    SameLength(s, history);
    PrefixMembers(history, s, PageSize(req.maxResults, |s|));
  }

  lemma PermutedCSVPage(history: seq<HistoryItem>, s: seq<HistoryItem>, req: Request)
    requires DistinctMessages(history) && multiset(s) == multiset(history) && req.format.CSV?
    ensures PageOf(history, req, FirstPage(AfterCSV(s, req.maxResults), req.maxResults))
  {
    hide Sorted, DistinctMessages, Sort;
    SameLength(s, history);
    var n := PageSize(req.maxResults, |s|);
    AfterCSVPermutes(s, req.maxResults);
    PrefixMembers(history, AfterCSV(s, req.maxResults), n);
    PrefixMembers(history, s, n);
    SortSorts(OldestFirst, s[..n]);
    assert FirstPage(AfterCSV(s, req.maxResults), req.maxResults) == Sort(OldestFirst, s[..n]);
    if req.maxResults >= |history| {
      assert s[..n] == s;
      SortForgets(OldestFirst, s, history);
    }
  }

  // ----- when sorting a page changes a later one -----

  lemma SameMilestone(s: seq<HistoryItem>)
    requires Sorted(NewestFirst, s) && s != []
    requires s[0].referencedByMilestoneIndex == s[|s| - 1].referencedByMilestoneIndex
    ensures Sorted(OldestFirst, s)
  {
    forall i | 0 <= i < |s| ensures s[i].referencedByMilestoneIndex == s[0].referencedByMilestoneIndex {
      assert i > 0 ==> Before(NewestFirst, s[0], s[i]);
      assert i < |s| - 1 ==> Before(NewestFirst, s[i], s[|s| - 1]);
    }
    forall i, j | 0 <= i < j < |s| ensures Before(OldestFirst, s[i], s[j]) {
      assert Before(NewestFirst, s[i], s[j]);
    }
  }

  lemma OldestComesFirst(s: seq<HistoryItem>)
    requires Sorted(NewestFirst, s) && DistinctMessages(s) && |s| > 1
    requires s[0].referencedByMilestoneIndex != s[|s| - 1].referencedByMilestoneIndex
    ensures Sort(OldestFirst, s)[0] != s[0]
  {
    var t, last := Sort(OldestFirst, s), s[|s| - 1];
    assert Before(NewestFirst, s[0], last);
    SortSorts(OldestFirst, s);
    SameMembers(t, s, last);
    var i :| 0 <= i < |t| && t[i] == last;
    if i != 0 {
      assert Before(OldestFirst, t[0], t[i]);
    }
  }

  /** The items a CSV page is made of all belong to one milestone. */
  predicate OneMilestonePage(s: seq<HistoryItem>, max: nat) {
    var n := PageSize(max, |s|);
    n <= 1 || s[0].referencedByMilestoneIndex == s[n - 1].referencedByMilestoneIndex
  }

  lemma FirstOfPage(s: seq<HistoryItem>, n: nat)
    requires n <= |s|
    ensures Sorted(NewestFirst, s) ==> Sorted(NewestFirst, s[..n])
    ensures DistinctMessages(s) ==> DistinctMessages(s[..n])
  {
    hide Before;
  }

  lemma ShortSorted(s: seq<HistoryItem>)
    requires |s| <= 1
    ensures Sorted(OldestFirst, s)
  {
  }

  lemma NotReordered(s: seq<HistoryItem>, max: nat)
    requires Sorted(NewestFirst, s) && OneMilestonePage(s, max)
    ensures AfterCSV(s, max) == s
  {
    hide Before, Sort, Sorted;
    var n := PageSize(max, |s|);
    FirstOfPage(s, n);
    if n > 1 {
      SameMilestone(s[..n]);
    } else {
      ShortSorted(s[..n]);
    }
    SortOfSorted(OldestFirst, s[..n]);
    assert s[..n] + s[n..] == s;
  }

  lemma Reordered(s: seq<HistoryItem>, max: nat)
    requires Sorted(NewestFirst, s) && DistinctMessages(s) && !OneMilestonePage(s, max)
    ensures s != [] && AfterCSV(s, max)[0] != s[0]
  {
    var n := PageSize(max, |s|);
    FirstOfPage(s, n);
    hide Before, Sort, Sorted, DistinctMessages;
    OldestComesFirst(s[..n]);
  }

  lemma ReorderedIff(s: seq<HistoryItem>, max: nat, later: nat)
    requires Sorted(NewestFirst, s) && DistinctMessages(s) && s != [] && later > 0
    ensures FirstPage(AfterCSV(s, max), later) == FirstPage(s, later) <==> OneMilestonePage(s, max)
  {
    hide Before, Sort, Sorted, DistinctMessages, OneMilestonePage;
    if OneMilestonePage(s, max) {
      NotReordered(s, max);
    } else {
      Reordered(s, max);
      hide AfterCSV;
      AfterCSVPermutes(s, max);
      SameLength(AfterCSV(s, max), s);
      assert FirstPage(AfterCSV(s, max), later)[0] == AfterCSV(s, max)[0] && FirstPage(s, later)[0] == s[0];
    }
  }

  // ----- sorting pages again and again -----

  function Max(m: nat, n: nat): nat {
    if m > n then m else n
  }

  /** A prefix of a sorted page is not changed by sorting it. */
  lemma SortedAlready(h: seq<HistoryItem>, k: nat, j: nat)
    requires DistinctMessages(h) && j <= k <= |h|
    ensures Sort(OldestFirst, Sort(OldestFirst, h[..k])[..j]) == Sort(OldestFirst, h[..k])[..j]
  {
    FirstDistinct(h, k);
    SortSorts(OldestFirst, h[..k]);
    PrefixSorted(OldestFirst, Sort(OldestFirst, h[..k]), j);
    SortOfSorted(OldestFirst, Sort(OldestFirst, h[..k])[..j]);
  }

  /** Sorting one page after another is sorting the larger one. */
  lemma AfterCSVTwice(h: seq<HistoryItem>, n: nat, m: nat)
    requires DistinctMessages(h)
    ensures AfterCSV(AfterCSV(h, n), m) == AfterCSV(h, Max(n, m))
  {
    hide Sort, DistinctMessages;
    var k, j, s := PageSize(n, |h|), PageSize(m, |h|), AfterCSV(h, n);
    if j <= k {
      SortedAlready(h, k, j);
      assert |s| == |h| && s[..j] == Sort(OldestFirst, h[..k])[..j];
      assert s[..j] + s[j..] == s;
    } else {
      SortedWider(h, k, j);
      assert |s| == |h| && s[..j] == Sort(OldestFirst, h[..k]) + h[k..j];
      assert s[j..] == h[j..];
    }
  }

  lemma SortedWider(h: seq<HistoryItem>, k: nat, j: nat)
    requires DistinctMessages(h) && k <= j <= |h|
    ensures Sort(OldestFirst, Sort(OldestFirst, h[..k]) + h[k..j]) == Sort(OldestFirst, h[..j])
  {
    hide Sort;
    var s := Sort(OldestFirst, h[..k]) + h[k..j];
    assert h[..j] == h[..k] + h[k..j];
    FirstDistinct(h, j);
    hide DistinctMessages;
    PermutationDistinct(s, h[..j]);
    SortForgets(OldestFirst, s, h[..j]);
  }

  lemma PrefixSorted(order: Order, s: seq<HistoryItem>, n: nat)
    requires Sorted(order, s) && n <= |s|
    ensures Sorted(order, s[..n])
  {
    hide Before;
  }

  /** What a CSV page holds, whatever page was sorted before. */
  lemma CSVPageHolds(h: seq<HistoryItem>, width: nat, max: nat)
    requires DistinctMessages(h)
    ensures FirstPage(AfterCSV(h, Max(width, max)), max) ==
            if max >= PageSize(width, |h|) then Sort(OldestFirst, h[..PageSize(max, |h|)])
            else Sort(OldestFirst, h[..PageSize(width, |h|)])[..max]
  {
    hide Sort, Sorted, DistinctMessages;
    var k, j := PageSize(width, |h|), PageSize(max, |h|);
    if max >= k {
      assert PageSize(Max(width, max), |h|) == j;
      assert AfterCSV(h, Max(width, max)) == Sort(OldestFirst, h[..j]) + h[j..];
    } else {
      assert AfterCSV(h, Max(width, max)) == Sort(OldestFirst, h[..k]) + h[k..];
    }
  }

  lemma LastLeftOut(h: seq<HistoryItem>, k: nat, j: nat)
    requires DistinctMessages(h) && j < k <= |h|
    ensures h[k - 1] !in h[..j]
  {
    forall i | 0 <= i < j ensures h[..j][i] != h[k - 1] {
      assert h[i].messageID != h[k - 1].messageID;
    }
  }

  lemma EarlierToo(order: Order, s: seq<HistoryItem>, j: nat, x: HistoryItem, y: HistoryItem)
    requires Sorted(order, s) && j <= |s| && y in s[..j] && x in s && Before(order, x, y)
    ensures x in s[..j]
  {
    hide Before;
    var p :| 0 <= p < j && s[..j][p] == y;
    var q :| 0 <= q < |s| && s[q] == x;
    BeforeIsStrictOrder(order, x, y, x);
    if q < j {
      assert s[..j][q] == x;
    }
  }

  /** A page that is narrower than the sorted one takes its oldest items, not its newest. */
  lemma NarrowerPageDiffers(h: seq<HistoryItem>, k: nat, j: nat)
    requires Sorted(NewestFirst, h) && DistinctMessages(h) && 0 < j < k <= |h|
    requires h[0].referencedByMilestoneIndex != h[k - 1].referencedByMilestoneIndex
    ensures Sort(OldestFirst, h[..k])[..j] != Sort(OldestFirst, h[..j])
  {
    var all, page := Sort(OldestFirst, h[..k]), Sort(OldestFirst, h[..j]);
    assert Before(NewestFirst, h[0], h[k - 1]);
    FirstDistinct(h, k);
    SortSorts(OldestFirst, h[..k]);
    assert h[..j][0] == h[0] && h[..k][k - 1] == h[k - 1];
    SameMembers(page, h[..j], h[0]);
    SameMembers(page, h[..j], h[k - 1]);
    SameMembers(all, h[..k], h[k - 1]);
    LastLeftOut(h, k, j);
    if all[..j] == page {
      EarlierToo(OldestFirst, all, j, h[k - 1], h[0]);
    }
  }

  /** Whether a request is answered as without a cache when a page of `width` was sorted before. */
  predicate KeepsPage(h: seq<HistoryItem>, width: nat, req: Request) {
    || req.maxResults == 0
    || OneMilestonePage(h, width)
    || (req.format.CSV? && req.maxResults >= PageSize(width, |h|))
  }

  /** The page of a request from an array in which a page of `width` was sorted before. */
  function PageAfter(h: seq<HistoryItem>, width: nat, req: Request): seq<HistoryItem> {
    FirstPage(AfterCSV(h, if req.format.CSV? then Max(width, req.maxResults) else width), req.maxResults)
  }

  lemma NarrowerOneMilestone(h: seq<HistoryItem>, n: nat, m: nat)
    requires Sorted(NewestFirst, h) && OneMilestonePage(h, n) && m <= n
    ensures OneMilestonePage(h, m)
  {
    var k, j := PageSize(n, |h|), PageSize(m, |h|);
    if 1 < j < k {
      assert Before(NewestFirst, h[0], h[j - 1]) && Before(NewestFirst, h[j - 1], h[k - 1]);
    }
  }

  lemma NothingSorted(h: seq<HistoryItem>)
    ensures AfterCSV(h, 0) == h
  {
  }

  lemma CSVPageExactIff(h: seq<HistoryItem>, width: nat, req: Request)
    requires Sorted(NewestFirst, h) && DistinctMessages(h) && req.format.CSV?
    ensures PageAfter(h, width, req) == PageAfter(h, 0, req) <==> KeepsPage(h, width, req)
  {
    hide Before, Sort, Sorted, DistinctMessages;
    var max, k := req.maxResults, PageSize(width, |h|);
    CSVPageHolds(h, width, max);
    CSVPageHolds(h, 0, max);
    if 0 < max < k {
      if OneMilestonePage(h, width) {
        NarrowerOneMilestone(h, width, max);
        NotReordered(h, width);
        NotReordered(h, max);
        hide AfterCSV;
      } else {
        NarrowerPageDiffers(h, k, max);
      }
    }
  }

  /** Exactly when an earlier CSV page is noticed. */
  lemma PageExactIff(h: seq<HistoryItem>, width: nat, req: Request)
    requires Sorted(NewestFirst, h) && DistinctMessages(h)
    ensures PageAfter(h, width, req) == PageAfter(h, 0, req) <==> KeepsPage(h, width, req)
  {
    hide Before, Sort, Sorted, DistinctMessages, AfterCSV, OneMilestonePage;
    NothingSorted(h);
    if req.format.CSV? {
      CSVPageExactIff(h, width, req);
    } else if req.maxResults > 0 {
      if h == [] {
        EmptyPages(width);
      } else {
        ReorderedIff(h, width, req.maxResults);
      }
    }
  }

  lemma EmptyPages(width: nat)
    ensures AfterCSV([], width) == [] && OneMilestonePage([], width)
  {
  }
}
