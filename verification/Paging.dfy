/** Cursor paging: pages of a listing, each below the id that ended the page before. */
module Paging {
  import opened ByteStrings
  import opened Wrappers
  import opened StableSorting

  predicate Passes(id: Bytes, before: Option<Bytes>) {
    before.None? || LexLess(id, before.value)
  }

  /** The elements strictly below the cursor, in their order. */
  function Below<T>(id: T -> Bytes, s: seq<T>, before: Option<Bytes>): seq<T> {
    if s == [] then []
    else if Passes(id(s[0]), before) then [s[0]] + Below(id, s[1..], before)
    else Below(id, s[1..], before)
  }

  function Take<T>(s: seq<T>, k: nat): seq<T> {
    if k < |s| then s[..k] else s
  }

  function Drop<T>(s: seq<T>, k: nat): seq<T> {
    if k < |s| then s[k..] else []
  }

  /** One page of `s`: what lies below the cursor, in listing order, cut at `k`. */
  function Page<T>(leq: (T, T) -> bool, id: T -> Bytes, s: seq<T>, before: Option<Bytes>, k: nat): seq<T> {
    Take(Sort(leq, Below(id, s, before)), k)
  }

  lemma {:induction false} BelowMembers<T>(id: T -> Bytes, s: seq<T>, before: Option<Bytes>)
    ensures forall x :: x in Below(id, s, before) <==> x in s && Passes(id(x), before)
    ensures |Below(id, s, before)| <= |s|
  {
    if s == [] {
    } else {
      BelowMembers(id, s[1..], before);
      assert s == [s[0]] + s[1..];
    }
  }

  lemma {:induction false} BelowNone<T>(id: T -> Bytes, s: seq<T>)
    ensures Below(id, s, None) == s
  {
    if s == [] {
    } else {
      BelowNone(id, s[1..]);
    }
  }

  /** A lower cursor lets through no more, and not the element it is the id of. */
  lemma {:induction false} BelowShrinks<T>(id: T -> Bytes, s: seq<T>, before: Option<Bytes>, x: T)
    requires Passes(id(x), before)
    ensures |Below(id, s, Some(id(x)))| <= |Below(id, s, before)|
    ensures x in s ==> |Below(id, s, Some(id(x)))| < |Below(id, s, before)|
  {
    if s == [] {
    } else {
      BelowShrinks(id, s[1..], before, x);
      LexTotal(id(x), id(x));
      if LexLess(id(s[0]), id(x)) && before.Some? {
        LexTransitive(id(s[0]), id(x), before.value);
      }
    }
  }

  /** All pages, each asked for with the last id of the one before, until an empty page. */
  ghost function Chain<T>(leq: (T, T) -> bool, id: T -> Bytes, s: seq<T>, before: Option<Bytes>, k: nat): seq<seq<T>>
    requires k >= 1
    decreases |Below(id, s, before)|
  {
    var page := Page(leq, id, s, before, k);
    if page == [] then []
    else
      PageMembers(leq, id, s, before, k);
      var last := page[|page| - 1];
      BelowShrinks(id, s, before, last);
      [page] + Chain(leq, id, s, Some(id(last)), k)
  }

  lemma PageMembers<T>(leq: (T, T) -> bool, id: T -> Bytes, s: seq<T>, before: Option<Bytes>, k: nat)
    ensures forall x :: x in Page(leq, id, s, before, k) ==> x in s && Passes(id(x), before)
  {
    var below := Below(id, s, before);
    SortPermutes(leq, below);
    BelowMembers(id, s, before);
    forall x | x in Page(leq, id, s, before, k) ensures x in s && Passes(id(x), before) {
      assert x in Sort(leq, below);
      assert x in multiset(Sort(leq, below));
      assert x in below;
    }
  }

  ghost function Concat<T>(pages: seq<seq<T>>): seq<T> {
    if pages == [] then [] else pages[0] + Concat(pages[1..])
  }

  /** Consecutive full pages of `s`, the last possibly shorter. */
  ghost function Split<T>(s: seq<T>, k: nat): seq<seq<T>>
    requires k >= 1
    decreases |s|
  {
    if s == [] then [] else [Take(s, k)] + Split(Drop(s, k), k)
  }

  lemma SplitUnfolds<T>(s: seq<T>, k: nat)
    requires k >= 1 && s != []
    ensures Split(s, k) == [Take(s, k)] + Split(Drop(s, k), k)
  {
  }

  lemma TakeAndDrop<T>(s: seq<T>, k: nat)
    requires k >= 1 && s != []
    ensures s == Take(s, k) + Drop(s, k) && 1 <= |Take(s, k)| <= k && |Drop(s, k)| < |s|
    ensures |Take(s, k)| < k ==> Drop(s, k) == []
  {
  }

  lemma ConcatCons<T>(page: seq<T>, pages: seq<seq<T>>)
    ensures Concat([page] + pages) == page + Concat(pages)
  {
    assert ([page] + pages)[1..] == pages;
  }

  lemma {:induction false} SplitConcat<T>(s: seq<T>, k: nat)
    requires k >= 1
    ensures Concat(Split(s, k)) == s
    decreases |s|
  {
    if s == [] {
    } else {
      TakeAndDrop(s, k);
      SplitConcat(Drop(s, k), k);
      SplitUnfolds(s, k);
      ConcatCons(Take(s, k), Split(Drop(s, k), k));
    }
  }

  /** None is empty or too long, and all but the last are full. */
  ghost predicate FullPages<T>(pages: seq<seq<T>>, k: nat) {
    && (forall i :: 0 <= i < |pages| ==> 1 <= |pages[i]| <= k)
    && (forall i :: 0 <= i < |pages| - 1 ==> |pages[i]| == k)
  }

  lemma FullPagesCons<T>(page: seq<T>, pages: seq<seq<T>>, k: nat)
    requires FullPages(pages, k) && 1 <= |page| <= k && (pages != [] ==> |page| == k)
    ensures FullPages([page] + pages, k)
  {
    var all := [page] + pages;
    forall i | 1 <= i < |all| ensures all[i] == pages[i - 1] {
    }
  }

  lemma {:induction false} SplitSizes<T>(s: seq<T>, k: nat)
    requires k >= 1
    ensures FullPages(Split(s, k), k)
    decreases |s|
  {
    if s == [] {
    } else {
      TakeAndDrop(s, k);
      SplitSizes(Drop(s, k), k);
      SplitUnfolds(s, k);
      FullPagesCons(Take(s, k), Split(Drop(s, k), k), k);
    }
  }

  /** Rounding up: one more page for up to `k` more elements. */
  lemma CeilingStep(n: nat, k: nat)
    requires n >= 1 && k >= 1
    ensures (n + k - 1) / k == 1 + ((if k < n then n - k else 0) + k - 1) / k
  {
    if k < n {
      var m := n - k + k - 1;
      assert k * (m / k + 1) == k * (m / k) + k;
      ModUnique(n + k - 1, k, m / k + 1, m % k);
    } else {
      assert k * 1 == k;
      ModUnique(n + k - 1, k, 1, n - 1);
      ModUnique(k - 1, k, 0, k - 1);
    }
  }

  lemma {:induction false} SplitCount<T>(s: seq<T>, k: nat)
    requires k >= 1
    ensures |Split(s, k)| == (|s| + k - 1) / k
    decreases |s|
  {
    if s == [] {
      ModUnique(k - 1, k, 0, k - 1);
    } else {
      TakeAndDrop(s, k);
      SplitCount(Drop(s, k), k);
      SplitUnfolds(s, k);
      CeilingStep(|s|, k);
    }
  }

  /** `pages` are all of `s` in order, each but the last of exactly `k`, none empty. */
  ghost predicate PagesOf<T>(pages: seq<seq<T>>, s: seq<T>, k: nat)
    requires k >= 1
  {
    && Concat(pages) == s
    && |pages| == (|s| + k - 1) / k
    && FullPages(pages, k)
  }

  lemma SplitIsPages<T>(s: seq<T>, k: nat)
    requires k >= 1
    ensures PagesOf(Split(s, k), s, k)
  {
    SplitConcat(s, k);
    SplitSizes(s, k);
    SplitCount(s, k);
  }

  ghost predicate Descending<T>(id: T -> Bytes, s: seq<T>) {
    forall i, j :: 0 <= i < j < |s| ==> LexLess(id(s[j]), id(s[i]))
  }

  ghost predicate DistinctIds<T>(id: T -> Bytes, s: seq<T>) {
    forall i, j :: 0 <= i < j < |s| ==> id(s[i]) != id(s[j])
  }

  lemma {:induction false} BelowInsert<T(!new)>(leq: (T, T) -> bool, id: T -> Bytes, x: T, s: seq<T>, before: Option<Bytes>)
    requires TotalPreorder(leq) && Sorted(leq, s)
    ensures Below(id, Insert(leq, x, s), before)
         == if Passes(id(x), before) then Insert(leq, x, Below(id, s, before)) else Below(id, s, before)
  {
    if s == [] || leq(x, s[0]) {
      assert ([x] + s)[1..] == s;
      var below := Below(id, s, before);
      if below != [] {
        BelowMembers(id, s, before);
        assert below[0] in s;
        var i :| 0 <= i < |s| && s[i] == below[0];
        assert leq(s[0], s[i]) || i == 0;
        assert leq(x, below[0]);
      }
    } else {
      BelowInsert(leq, id, x, s[1..], before);
      assert ([s[0]] + Insert(leq, x, s[1..]))[1..] == Insert(leq, x, s[1..]);
      if Passes(id(s[0]), before) {
        var below := Below(id, s[1..], before);
        assert ([s[0]] + below)[1..] == below;
      } else if Passes(id(x), before) {
        assert Below(id, s, before) == Below(id, s[1..], before);
      }
    }
  }

  /** Filtering by the cursor and sorting the listing can be exchanged. */
  lemma {:induction false} BelowSort<T(!new)>(leq: (T, T) -> bool, id: T -> Bytes, s: seq<T>, before: Option<Bytes>)
    requires TotalPreorder(leq)
    ensures Below(id, Sort(leq, s), before) == Sort(leq, Below(id, s, before))
  {
    if s == [] {
    } else {
      SortSorts(leq, s[1..]);
      BelowInsert(leq, id, s[0], Sort(leq, s[1..]), before);
      BelowSort(leq, id, s[1..], before);
      var below := Below(id, s[1..], before);
      assert ([s[0]] + below)[1..] == below;
    }
  }

  /** In a descending list the cursor cuts off a suffix. */
  lemma {:induction false} BelowSuffix<T>(id: T -> Bytes, d: seq<T>, j: nat)
    requires Descending(id, d) && j < |d|
    ensures Below(id, d, Some(id(d[j]))) == d[j + 1..]
  {
    if j == 0 {
      LexTotal(id(d[0]), id(d[0]));
      BelowAll(id, d[1..], id(d[0]));
    } else {
      LexTotal(id(d[0]), id(d[j]));
      BelowSuffix(id, d[1..], j - 1);
    }
  }

  lemma {:induction false} BelowAll<T>(id: T -> Bytes, d: seq<T>, c: Bytes)
    requires forall i :: 0 <= i < |d| ==> LexLess(id(d[i]), c)
    ensures Below(id, d, Some(c)) == d
  {
    if d == [] {
    } else {
      BelowAll(id, d[1..], c);
    }
  }

  /** The pages of `s` are cut from the listing `d`. */
  ghost predicate PagesCut<T>(leq: (T, T) -> bool, id: T -> Bytes, s: seq<T>, d: seq<T>, k: nat) {
    forall before: Option<Bytes> :: Page(leq, id, s, before, k) == Take(Below(id, d, before), k)
  }

  /** A cursor from the listing `d` leaves what comes after it. */
  ghost predicate CursorsCut<T>(id: T -> Bytes, d: seq<T>) {
    forall i {:trigger Below(id, d, Some(id(d[i])))} :: 0 <= i < |d| ==> Below(id, d, Some(id(d[i]))) == d[i + 1..]
  }

  lemma DescendingCuts<T>(id: T -> Bytes, d: seq<T>)
    requires Descending(id, d)
    ensures CursorsCut(id, d)
  {
    forall i | 0 <= i < |d| ensures Below(id, d, Some(id(d[i]))) == d[i + 1..] {
      BelowSuffix(id, d, i);
    }
  }

  lemma SortCutsPages<T(!new)>(leq: (T, T) -> bool, id: T -> Bytes, s: seq<T>, k: nat)
    requires TotalPreorder(leq)
    ensures PagesCut(leq, id, s, Sort(leq, s), k)
  {
    forall before: Option<Bytes> ensures Page(leq, id, s, before, k) == Take(Below(id, Sort(leq, s), before), k) {
      BelowSort(leq, id, s, before);
    }
  }

  /** Where the page that starts at `j` ends. */
  ghost function PageEnd(j: nat, k: nat, size: nat): nat {
    if j + k < size then j + k else size
  }

  lemma PageOfSuffix<T>(d: seq<T>, j: nat, k: nat)
    requires j < |d| && k >= 1
    ensures var page, m := Take(d[j..], k), PageEnd(j, k, |d|);
      page != [] && page[|page| - 1] == d[m - 1] && Drop(d[j..], k) == d[m..]
  {
  }

  lemma ChainStep<T>(leq: (T, T) -> bool, id: T -> Bytes, s: seq<T>, before: Option<Bytes>, k: nat, page: seq<T>)
    requires k >= 1 && page == Page(leq, id, s, before, k)
    ensures Chain(leq, id, s, before, k) ==
      if page == [] then [] else [page] + Chain(leq, id, s, Some(id(page[|page| - 1])), k)
  {
  }

  lemma SplitStep<T>(d: seq<T>, j: nat, k: nat)
    requires k >= 1 && j < |d|
    ensures Split(d[j..], k) == [Take(d[j..], k)] + Split(d[PageEnd(j, k, |d|)..], k)
  {
    PageOfSuffix(d, j, k);
  }

  lemma {:induction false} ChainOfSuffix<T>(
    leq: (T, T) -> bool, id: T -> Bytes, s: seq<T>, d: seq<T>, before: Option<Bytes>, k: nat, j: nat)
    requires k >= 1 && PagesCut(leq, id, s, d, k) && CursorsCut(id, d)
    requires j <= |d| && Below(id, d, before) == d[j..]
    ensures Chain(leq, id, s, before, k) == Split(d[j..], k)
    decreases |d| - j
  {
    if j == |d| {
      ChainEnds(leq, id, s, d, before, k);
    } else {
      var m := PageEnd(j, k, |d|);
      assert Below(id, d, Some(id(d[m - 1]))) == d[m..];
      ChainOfSuffix(leq, id, s, d, Some(id(d[m - 1])), k, m);
      ChainGoesOn(leq, id, s, d, before, k, j);
      SplitStep(d, j, k);
    }
  }

  lemma ChainEnds<T>(leq: (T, T) -> bool, id: T -> Bytes, s: seq<T>, d: seq<T>, before: Option<Bytes>, k: nat)
    requires k >= 1 && PagesCut(leq, id, s, d, k) && Below(id, d, before) == d[|d|..]
    ensures Chain(leq, id, s, before, k) == Split(d[|d|..], k)
  {
    assert d[|d|..] == [] && Page(leq, id, s, before, k) == [];
  }

  lemma ChainGoesOn<T>(leq: (T, T) -> bool, id: T -> Bytes, s: seq<T>, d: seq<T>, before: Option<Bytes>, k: nat, j: nat)
    requires k >= 1 && PagesCut(leq, id, s, d, k) && j < |d| && Below(id, d, before) == d[j..]
    ensures Chain(leq, id, s, before, k) == [Take(d[j..], k)] + Chain(leq, id, s, Some(id(d[PageEnd(j, k, |d|) - 1])), k)
  {
    assert Page(leq, id, s, before, k) == Take(d[j..], k);
    PageOfSuffix(d, j, k);
    ChainStep(leq, id, s, before, k, Take(d[j..], k));
  }

  /** From any cursor that cuts off a suffix, the chain is that suffix split into pages. */
  lemma ChainIsSplit<T(!new)>(
    leq: (T, T) -> bool, id: T -> Bytes, s: seq<T>, before: Option<Bytes>, k: nat, j: nat)
    requires k >= 1 && TotalPreorder(leq) && Descending(id, Sort(leq, s))
    requires j <= |Sort(leq, s)| && Below(id, Sort(leq, s), before) == Sort(leq, s)[j..]
    ensures Chain(leq, id, s, before, k) == Split(Sort(leq, s)[j..], k)
  {
    SortCutsPages(leq, id, s, k);
    DescendingCuts(id, Sort(leq, s));
    ChainOfSuffix(leq, id, s, Sort(leq, s), before, k, j);
  }

  lemma {:induction false} ChainMembers<T>(leq: (T, T) -> bool, id: T -> Bytes, s: seq<T>, before: Option<Bytes>, k: nat)
    requires k >= 1
    ensures forall x :: x in Concat(Chain(leq, id, s, before, k)) ==> Passes(id(x), before)
    decreases |Below(id, s, before)|
  {
    var page := Page(leq, id, s, before, k);
    if page == [] {
    } else {
      PageMembers(leq, id, s, before, k);
      var last := page[|page| - 1];
      BelowShrinks(id, s, before, last);
      ChainMembers(leq, id, s, Some(id(last)), k);
      var rest := Chain(leq, id, s, Some(id(last)), k);
      assert ([page] + rest)[1..] == rest;
      forall x | x in Concat(rest) ensures Passes(id(x), before) {
        if before.Some? {
          LexTransitive(id(x), id(last), before.value);
        }
      }
    }
  }

  lemma {:induction false} AdjacentDescends<T>(id: T -> Bytes, d: seq<T>, i: nat, j: nat)
    requires forall a :: 0 <= a < |d| - 1 ==> LexLess(id(d[a + 1]), id(d[a]))
    requires i < j < |d|
    ensures LexLess(id(d[j]), id(d[i]))
    decreases j
  {
    assert LexLess(id(d[j - 1 + 1]), id(d[j - 1]));
    if i == j - 1 {
    } else {
      AdjacentDescends(id, d, i, j - 1);
      LexTransitive(id(d[j]), id(d[j - 1]), id(d[i]));
    }
  }

  /** At an ascent the next element is on no page: too late for the first, too high for the rest. */
  lemma AscentLosesElement<T>(leq: (T, T) -> bool, id: T -> Bytes, s: seq<T>, i: nat)
    requires i + 1 < |Sort(leq, s)| && DistinctIds(id, Sort(leq, s))
    requires LexLess(id(Sort(leq, s)[i]), id(Sort(leq, s)[i + 1]))
    ensures Sort(leq, s)[i + 1] !in Concat(Chain(leq, id, s, None, i + 1))
  {
    var d, k := Sort(leq, s), i + 1;
    BelowNone(id, s);
    var page := Page(leq, id, s, None, k);
    assert page == d[..k] && page[|page| - 1] == d[i];
    PageMembers(leq, id, s, None, k);
    BelowShrinks(id, s, None, d[i]);
    var rest := Chain(leq, id, s, Some(id(d[i])), k);
    ChainStep(leq, id, s, None, k, page);
    ConcatCons(page, rest);
    ChainMembers(leq, id, s, Some(id(d[i])), k);
    LexTotal(id(d[i]), id(d[i + 1]));
    forall a | 0 <= a < k ensures d[a] != d[k] {
      assert id(d[a]) != id(d[k]);
    }
  }

  /** Every chain of pages, whatever the page size, lists every element once in listing order
      exactly when the listing order is descending in the ids used as cursors. */
  lemma PagingCompleteIff<T(!new)>(leq: (T, T) -> bool, id: T -> Bytes, s: seq<T>)
    requires TotalPreorder(leq) && DistinctIds(id, Sort(leq, s))
    ensures Descending(id, Sort(leq, s))
       <==> forall k: nat {:trigger Chain(leq, id, s, None, k)} :: k >= 1 ==> Concat(Chain(leq, id, s, None, k)) == Sort(leq, s)
  {
    var d := Sort(leq, s);
    if Descending(id, d) {
      forall k: nat | k >= 1 ensures Concat(Chain(leq, id, s, None, k)) == d {
        BelowNone(id, d);
        ChainIsSplit(leq, id, s, None, k, 0);
        SplitConcat(d, k);
      }
    } else {
      var a, b :| 0 <= a < b < |d| && !LexLess(id(d[b]), id(d[a]));
      if forall i :: 0 <= i < |d| - 1 ==> LexLess(id(d[i + 1]), id(d[i])) {
        AdjacentDescends(id, d, a, b);
      }
      var i :| 0 <= i < |d| - 1 && !LexLess(id(d[i + 1]), id(d[i]));
      LexTotal(id(d[i]), id(d[i + 1]));
      AscentLosesElement(leq, id, s, i);
      assert Concat(Chain(leq, id, s, None, i + 1)) != d;
    }
  }
}
