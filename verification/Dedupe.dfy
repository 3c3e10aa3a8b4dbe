/** The bounded least-recently-used cache of sector ids, and what it guarantees a loop that
    processes an id only when the cache has not seen it. */
module Dedupe {
  import opened ByteStrings
  import opened Paging

  function WithoutId(s: seq<Id16>, x: Id16): seq<Id16> {
    if s == [] then []
    else if s[0] == x then WithoutId(s[1..], x)
    else [s[0]] + WithoutId(s[1..], x)
  }

  /** The ids of a history of marks, each once, most recently marked first. */
  ghost function Recent(history: seq<Id16>): seq<Id16> {
    if history == [] then [] else
      var x := history[|history| - 1];
      [x] + WithoutId(Recent(history[..|history| - 1]), x)
  }

  /** The ids marked since `x` was last marked. */
  ghost function Since(history: seq<Id16>, x: Id16): set<Id16> {
    if history == [] || history[|history| - 1] == x then {}
    else Since(history[..|history| - 1], x) + {history[|history| - 1]}
  }

  ghost function Elems(s: seq<Id16>): set<Id16> {
    set x | x in s
  }

  ghost predicate Distinct(s: seq<Id16>) {
    forall i, j :: 0 <= i < j < |s| ==> s[i] != s[j]
  }

  ghost predicate InWindow(history: seq<Id16>, capacity: nat, x: Id16) {
    x in Take(Recent(history), capacity)
  }

  lemma {:induction false} WithoutMembers(s: seq<Id16>, x: Id16)
    ensures forall y :: y in WithoutId(s, x) <==> y in s && y != x
    ensures |WithoutId(s, x)| <= |s| && (x !in s ==> WithoutId(s, x) == s)
    ensures x in s ==> |WithoutId(s, x)| < |s|
    ensures Distinct(s) ==> Distinct(WithoutId(s, x)) && |WithoutId(s, x)| >= |s| - 1
  {
    if s == [] {
    } else {
      WithoutMembers(s[1..], x);
      assert s == [s[0]] + s[1..];
      var t := WithoutId(s[1..], x);
      if Distinct(s) {
        assert s[0] !in s[1..];
        assert s[0] !in t;
      }
    }
  }

  lemma {:induction false} RecentMembers(history: seq<Id16>)
    ensures forall y :: y in Recent(history) <==> y in history
    ensures Distinct(Recent(history))
  {
    if history == [] {
    } else {
      var n := |history| - 1;
      RecentMembers(history[..n]);
      WithoutMembers(Recent(history[..n]), history[n]);
      assert history == history[..n] + [history[n]];
    }
  }

  lemma {:induction false} DistinctSize(s: seq<Id16>)
    requires Distinct(s)
    ensures |Elems(s)| == |s|
  {
    if s == [] {
    } else {
      var n := |s| - 1;
      DistinctSize(s[..n]);
      assert forall i :: 0 <= i < n ==> s[..n][i] == s[i] && s[i] != s[n];
      assert s[n] !in s[..n];
      assert s == s[..n] + [s[n]];
      assert Elems(s) == Elems(s[..n]) + {s[n]};
    }
  }

  lemma ElemsAppend(a: seq<Id16>, b: seq<Id16>)
    ensures Elems(a + b) == Elems(a) + Elems(b)
  {
  }

  lemma {:induction false} WithoutKeepsFront(s: seq<Id16>, p: nat, y: Id16) returns (q: nat)
    requires Distinct(s) && p < |s| && s[p] != y
    ensures q < |WithoutId(s, y)| && WithoutId(s, y)[q] == s[p]
    ensures Elems(WithoutId(s, y)[..q]) == Elems(s[..p]) - {y}
  {
    var t := s[1..];
    if p == 0 {
      q := 0;
    } else {
      q := WithoutKeepsFront(t, p - 1, y);
      assert s[..p] == [s[0]] + t[..p - 1];
      ElemsAppend([s[0]], t[..p - 1]);
      var w := WithoutId(t, y);
      if s[0] != y {
        assert ([s[0]] + w)[..q + 1] == [s[0]] + w[..q];
        ElemsAppend([s[0]], w[..q]);
        q := q + 1;
      }
    }
  }

  /** In the recency list, what stands before `x` is what was marked since. */
  lemma {:induction false} Position(history: seq<Id16>, x: Id16) returns (p: nat)
    requires x in history
    ensures p < |Recent(history)| && Recent(history)[p] == x && Elems(Recent(history)[..p]) == Since(history, x)
  {
    var n := |history| - 1;
    var y := history[n];
    if y == x {
      p := 0;
    } else {
      assert x in history[..n];
      p := Position(history[..n], x);
      RecentMembers(history[..n]);
      var r := Recent(history[..n]);
      var q := WithoutKeepsFront(r, p, y);
      p := q + 1;
      assert ([y] + WithoutId(r, y))[..q + 1] == [y] + WithoutId(r, y)[..q];
      ElemsAppend([y], WithoutId(r, y)[..q]);
      assert Elems([y]) == {y};
    }
  }

  /** An id is in the window exactly when fewer than `capacity` other ids were marked since. */
  lemma WindowIff(history: seq<Id16>, capacity: nat, x: Id16)
    ensures InWindow(history, capacity, x) <==> x in history && |Since(history, x)| < capacity
  {
    var r := Recent(history);
    RecentMembers(history);
    if x in history {
      var p := Position(history, x);
      assert Distinct(r[..p]);
      DistinctSize(r[..p]);
      if InWindow(history, capacity, x) {
        var i :| 0 <= i < |Take(r, capacity)| && Take(r, capacity)[i] == x;
        assert r[i] == x;
        assert i == p;
      }
      if p < capacity {
        assert Take(r, capacity)[p] == x;
      }
    } else {
      assert forall y :: y in Take(r, capacity) ==> y in r;
    }
  }

  class DedupeCache {
    var order: seq<Id16>
    const capacity: nat
    ghost var history: seq<Id16>

    /** The cache is the front of the recency list of everything ever marked. */
    ghost predicate Valid()
      reads this
    {
      capacity > 0 && order == Take(Recent(history), capacity)
    }

    constructor (capacity: nat)
      requires capacity > 0
      ensures Valid() && this.capacity == capacity && history == []
    {
      this.capacity := capacity;
      order, history := [], [];
    }

    method Seen(id: Id16) returns (seen: bool)
      requires Valid()
      ensures seen <==> InWindow(history, capacity, id)
      ensures seen <==> id in history && |Since(history, id)| < capacity
    {
      WindowIff(history, capacity, id);
      seen := id in order;
    }

    /** Inserts or promotes an id, evicting the least recently used one at capacity. */
    method Mark(id: Id16)
      requires Valid()
      modifies this
      ensures Valid() && history == old(history) + [id]
    {
      MarkIsRecent(history, capacity, id);
      if id in order {
        order := [id] + WithoutId(order, id);
      } else if |order| == capacity {
        order := [id] + order[..|order| - 1];
      } else {
        order := [id] + order;
      }
      history := history + [id];
    }

    method Len() returns (n: nat)
      requires Valid()
      ensures n == |order| <= capacity
      ensures n == if |Elems(history)| < capacity then |Elems(history)| else capacity
    {
      RecentMembers(history);
      DistinctSize(Recent(history));
      assert Elems(Recent(history)) == Elems(history);
      n := |order|;
    }
  }

  lemma {:induction false} WithoutTake(s: seq<Id16>, x: Id16, k: nat)
    requires Distinct(s) && k <= |s|
    ensures x in s[..k] ==> k > 0 && WithoutId(s[..k], x) == Take(WithoutId(s, x), k - 1)
    ensures x !in s[..k] ==> s[..k] <= WithoutId(s, x)
  {
    WithoutMembers(s, x);
    if k == 0 {
    } else {
      var t := s[1..];
      assert s[..k] == [s[0]] + t[..k - 1];
      assert s[..k][1..] == t[..k - 1];
      if s[0] == x {
        assert x !in t[..k - 1];
        WithoutMembers(t, x);
        WithoutMembers(t[..k - 1], x);
      } else {
        WithoutTake(t, x, k - 1);
      }
    }
  }

  /** Promoting in the bounded list is promoting in the full recency list and cutting it. */
  lemma MarkIsRecent(history: seq<Id16>, capacity: nat, x: Id16)
    requires capacity > 0
    ensures var order := Take(Recent(history), capacity);
      Take(Recent(history + [x]), capacity) ==
        if x in order then [x] + WithoutId(order, x)
        else if |order| == capacity then [x] + order[..|order| - 1]
        else [x] + order
  {
    assert (history + [x])[..|history|] == history;
    RecentMembers(history);
    PromoteCut(Recent(history), capacity, x);
  }

  lemma PromoteCut(r: seq<Id16>, capacity: nat, x: Id16)
    requires capacity > 0 && Distinct(r)
    ensures var order := Take(r, capacity);
      Take([x] + WithoutId(r, x), capacity) ==
        if x in order then [x] + WithoutId(order, x)
        else if |order| == capacity then [x] + order[..|order| - 1]
        else [x] + order
  {
    var w, k := WithoutId(r, x), capacity - 1;
    WithoutMembers(r, x);
    assert Take([x] + w, capacity) == [x] + Take(w, k);
    if capacity < |r| {
      WithoutTake(r, x, capacity);
      if x !in r[..capacity] {
        assert w[..k] == w[..capacity][..k] == r[..capacity][..k];
      }
    }
  }

  /** The ids a loop processes, with `history` marked before it: those the cache has not seen when
      they arrive, each marked at once. */
  ghost function Accepted(history: seq<Id16>, stream: seq<Id16>, capacity: nat): seq<Id16> {
    if stream == [] then [] else
      var before, x := Accepted(history, stream[..|stream| - 1], capacity), stream[|stream| - 1];
      if InWindow(history + before, capacity, x) then before else before + [x]
  }

  /** Everything marked by the end of the stream. */
  ghost function Marked(history: seq<Id16>, stream: seq<Id16>, capacity: nat): seq<Id16> {
    history + Accepted(history, stream, capacity)
  }

  lemma {:induction false} AcceptedFresh(history: seq<Id16>, stream: seq<Id16>, capacity: nat, j: nat)
    requires |history| <= j < |Marked(history, stream, capacity)|
    ensures var h := Marked(history, stream, capacity); !InWindow(h[..j], capacity, h[j])
  {
    var n := |stream| - 1;
    var before, h := Marked(history, stream[..n], capacity), Marked(history, stream, capacity);
    if j < |before| {
      AcceptedFresh(history, stream[..n], capacity, j);
      assert h[..j] == before[..j] && h[j] == before[j];
    } else {
      assert h[..j] == before && h[j] == stream[n];
    }
  }

  lemma {:induction false} MarkedElems(history: seq<Id16>, stream: seq<Id16>, capacity: nat)
    requires capacity > 0
    ensures Elems(Marked(history, stream, capacity)) == Elems(history) + Elems(stream)
  {
    if stream == [] {
      assert history + [] == history;
    } else {
      var n := |stream| - 1;
      MarkedElems(history, stream[..n], capacity);
      var before := Marked(history, stream[..n], capacity);
      WindowMember(before, capacity, stream[n]);
      ElemsAppend(before, [stream[n]]);
      assert history + (Accepted(history, stream[..n], capacity) + [stream[n]]) == before + [stream[n]];
      assert stream == stream[..n] + [stream[n]];
      ElemsAppend(stream[..n], [stream[n]]);
    }
  }

  lemma WindowMember(history: seq<Id16>, capacity: nat, x: Id16)
    ensures InWindow(history, capacity, x) ==> x in history && Elems(history) == Elems(history) + {x}
  {
    WindowIff(history, capacity, x);
  }

  lemma {:induction false} SinceBound(h: seq<Id16>, x: Id16, i: nat)
    requires i < |h| && h[i] == x
    ensures Since(h, x) <= Elems(h[i + 1..]) - {x}
  {
    var n := |h| - 1;
    if h[n] == x {
    } else {
      SinceBound(h[..n], x, i);
      assert h[i + 1..] == h[..n][i + 1..] + [h[n]];
    }
  }

  /** Between a processing of an id and the mark of it before, by this loop or earlier, at least
      `capacity` distinct other ids were marked. */
  lemma ReprocessedOnlyAfterWindow(history: seq<Id16>, stream: seq<Id16>, capacity: nat, i: nat, j: nat)
    requires capacity > 0 && i < j && |history| <= j < |Marked(history, stream, capacity)|
    requires Marked(history, stream, capacity)[i] == Marked(history, stream, capacity)[j]
    ensures var h := Marked(history, stream, capacity);
      |Elems(h[i + 1..j]) - {h[i]}| >= capacity
  {
    var h := Marked(history, stream, capacity);
    var x := h[i];
    AcceptedFresh(history, stream, capacity, j);
    WindowIff(h[..j], capacity, x);
    SinceBound(h[..j], x, i);
    assert h[..j][i + 1..] == h[i + 1..j];
    SubsetSize(Since(h[..j], x), Elems(h[i + 1..j]) - {x});
  }

  lemma SubsetSize(a: set<Id16>, b: set<Id16>)
    requires a <= b
    ensures |a| <= |b|
  {
    assert b == a + (b - a);
  }

  lemma FewOthers(all: set<Id16>, part: set<Id16>, x: Id16, capacity: nat)
    requires part <= all && x in all && |all| <= capacity
    ensures |part - {x}| < capacity
  {
    SubsetSize(part - {x}, all - {x});
  }

  lemma SliceElems(h: seq<Id16>, i: nat, j: nat)
    requires i <= j <= |h|
    ensures Elems(h[i..j]) <= Elems(h)
  {
  }

  lemma NeverTwice(history: seq<Id16>, stream: seq<Id16>, capacity: nat, i: nat, j: nat)
    requires capacity > 0 && |Elems(history) + Elems(stream)| <= capacity
    requires i < j && |history| <= j < |Marked(history, stream, capacity)|
    ensures Marked(history, stream, capacity)[i] != Marked(history, stream, capacity)[j]
  {
    var h := Marked(history, stream, capacity);
    MarkedElems(history, stream, capacity);
    SliceElems(h, i + 1, j);
    assert h[i] in Elems(h);
    FewOthers(Elems(h), Elems(h[i + 1..j]), h[i], capacity);
    if h[i] == h[j] {
      ReprocessedOnlyAfterWindow(history, stream, capacity, i, j);
    }
  }

  /** With at most `capacity` distinct ids marked before or in the stream, each that was not marked
      before is processed exactly once, however it is repeated or reordered, and no other is. */
  lemma SmallStreamsExactlyOnce(history: seq<Id16>, stream: seq<Id16>, capacity: nat)
    requires capacity > 0 && |Elems(history) + Elems(stream)| <= capacity
    ensures Distinct(Accepted(history, stream, capacity))
    ensures Elems(Accepted(history, stream, capacity)) == Elems(stream) - Elems(history)
  {
    var a, h := Accepted(history, stream, capacity), Marked(history, stream, capacity);
    forall i, j | 0 <= i < j && |history| <= j < |h| ensures h[i] != h[j] {
      NeverTwice(history, stream, capacity, i, j);
    }
    NewAtTheEnd(history, a);
    MarkedElems(history, stream, capacity);
    ElemsAppend(history, a);
  }

  lemma NewAtTheEnd(front: seq<Id16>, more: seq<Id16>)
    requires forall i, j :: 0 <= i < j && |front| <= j < |front + more| ==> (front + more)[i] != (front + more)[j]
    ensures Distinct(more) && Elems(more) !! Elems(front)
  {
    var h := front + more;
    forall i, j | 0 <= i < j < |more| ensures more[i] != more[j] {
      assert h[|front| + i] == more[i] && h[|front| + j] == more[j];
    }
    forall i, j | 0 <= i < |front| && 0 <= j < |more| ensures front[i] != more[j] {
      assert h[i] == front[i] && h[|front| + j] == more[j];
    }
  }

  /** One more distinct id is too many: after them all, the first is processed again. */
  lemma WindowIsTight(ids: seq<Id16>, capacity: nat)
    requires capacity > 0 && |ids| == capacity + 1 && Distinct(ids)
    ensures Accepted([], ids + [ids[0]], capacity) == ids + [ids[0]]
  {
    AllNew(ids, capacity);
    SinceFirst(ids);
    DistinctSize(ids[1..]);
    WindowIff(ids, capacity, ids[0]);
    AcceptedMore([], ids, ids[0], capacity);
    assert Marked([], ids, capacity) == ids;
  }

  lemma AcceptedMore(history: seq<Id16>, stream: seq<Id16>, x: Id16, capacity: nat)
    ensures Accepted(history, stream + [x], capacity) ==
      Accepted(history, stream, capacity) + if InWindow(Marked(history, stream, capacity), capacity, x) then [] else [x]
  {
    assert (stream + [x])[..|stream|] == stream;
  }

  lemma {:induction false} AllNew(ids: seq<Id16>, capacity: nat)
    requires Distinct(ids)
    ensures Accepted([], ids, capacity) == ids
  {
    if ids == [] {
    } else {
      var n := |ids| - 1;
      AllNew(ids[..n], capacity);
      WindowMember(ids[..n], capacity, ids[n]);
      AcceptedMore([], ids[..n], ids[n], capacity);
      assert Marked([], ids[..n], capacity) == ids[..n];
      assert ids[n] !in ids[..n] && ids[..n] + [ids[n]] == ids;
    }
  }

  lemma {:induction false} SinceFirst(ids: seq<Id16>)
    requires ids != [] && Distinct(ids)
    ensures Since(ids, ids[0]) == Elems(ids[1..])
  {
    var n := |ids| - 1;
    if n == 0 {
    } else {
      SinceFirst(ids[..n]);
      assert ids[1..] == ids[..n][1..] + [ids[n]];
    }
  }
}
