/**
 * Bounded max-heaps and the parallel top-k search built from them.
 *
 * `std::collections::BinaryHeap<(OrderedFloat<f32>, u64)>` is a multiset of scored ids whose
 * `peek`/`pop` see the greatest pair in lexicographic order. A rayon `fold`/`reduce` is a tree of
 * splits chosen by the scheduler; it is an input of the search, so what is proved holds for every
 * tree. Iterating over a heap picks items in an arbitrary order.
 */
module TopK {
  import opened Core

  /** A heap entry: distance first, so that comparing entries compares distances first. */
  datatype Scored = Scored(d: real, id: nat)

  type Heap = multiset<Scored>

  predicate AtMost(a: Scored, b: Scored) {
    a.d < b.d || (a.d == b.d && a.id <= b.id)
  }

  lemma {:induction false} GreatestExists(h: Heap)
    requires |h| > 0
    ensures exists m | m in h :: forall x | x in h :: AtMost(x, m)
    decreases |h|
  {
    var a :| a in h;
    var rest := h - multiset{a};
    assert forall x | x in h :: x == a || x in rest;
    if |h| > 1 {
      GreatestExists(rest);
      var b :| b in rest && forall x | x in rest :: AtMost(x, b);
      var m := if AtMost(a, b) then b else a;
      assert m in h && forall x | x in h :: AtMost(x, m);
    } else {
      assert rest == multiset{};
      assert forall x | x in h :: AtMost(x, a);
    }
  }

  /** `BinaryHeap::peek` on a non-empty heap. */
  function Worst(h: Heap): (m: Scored)
    requires |h| > 0
    ensures m in h && forall x | x in h :: AtMost(x, m)
  {
    GreatestExists(h);
    var m :| m in h && forall x | x in h :: AtMost(x, m);
    m
  }

  lemma {:induction false} LeastExists(h: Heap)
    requires |h| > 0
    ensures exists m | m in h :: forall x | x in h :: AtMost(m, x)
    decreases |h|
  {
    var a :| a in h;
    var rest := h - multiset{a};
    assert forall x | x in h :: x == a || x in rest;
    if |h| > 1 {
      LeastExists(rest);
      var b :| b in rest && forall x | x in rest :: AtMost(b, x);
      var m := if AtMost(a, b) then a else b;
      assert m in h && forall x | x in h :: AtMost(m, x);
    } else {
      assert rest == multiset{};
      assert forall x | x in h :: AtMost(a, x);
    }
  }

  /** `peek` on a heap of reversed entries: the least pair. */
  function Least(h: Heap): (m: Scored)
    requires |h| > 0
    ensures m in h && forall x | x in h :: AtMost(m, x)
  {
    LeastExists(h);
    var m :| m in h && forall x | x in h :: AtMost(m, x);
    m
  }

  /** `BinaryHeap::pop` leaves the rest. */
  function PopWorst(h: Heap): (rest: Heap)
    requires |h| > 0
    ensures |rest| == |h| - 1
  {
    h - multiset{Worst(h)}
  }

  /** One step of the bounded heap: keep at most `k` entries, replacing the worst by a strictly nearer one. */
  function Offer(h: Heap, x: Scored, k: nat): Heap {
    if |h| < k then h + multiset{x}
    else if |h| > 0 && x.d < Worst(h).d then PopWorst(h) + multiset{x}
    else h
  }

  /** `h` holds `min(k, |all|)` of `all`, and nothing left out is nearer than anything kept. */
  ghost predicate IsBest(h: Heap, all: Heap, k: nat) {
    && h <= all
    && |h| == Min(k, |all|)
    && forall x, y | x in h && y in all - h :: x.d <= y.d
  }

  predicate Sorted(s: seq<Scored>) {
    forall i, j | 0 <= i < j < |s| :: s[i].d <= s[j].d
  }

  /** What a search returns: a best-`k` choice from `all`, sorted nearest first. */
  ghost predicate IsTopK(result: seq<Scored>, all: Heap, k: nat) {
    Sorted(result) && IsBest(multiset(result), all, k)
  }

  lemma SubMultisetSize(a: Heap, b: Heap)
    requires a <= b
    ensures |a| + |b - a| == |b|
  {
    assert b == a + (b - a);
  }

  /** The three cases of an offer: room left, a farther entry to replace, nothing to do. */
  lemma OfferWithRoom(h: Heap, all: Heap, x: Scored, k: nat)
    requires IsBest(h, all, k) && |h| < k
    ensures IsBest(h + multiset{x}, all + multiset{x}, k)
  {
    SubMultisetSize(h, all);
    assert all - h == multiset{};
    assert (all + multiset{x}) - (h + multiset{x}) == all - h;
  }

  lemma OfferReplacing(h: Heap, all: Heap, x: Scored, k: nat)
    requires IsBest(h, all, k) && |h| == k > 0 && x.d < Worst(h).d
    ensures IsBest(PopWorst(h) + multiset{x}, all + multiset{x}, k)
  {
    var w := Worst(h);
    var h' := PopWorst(h) + multiset{x};
    assert (all + multiset{x}) - h' == (all - h) + multiset{w};
    forall a, b | a in h' && b in (all + multiset{x}) - h' ensures a.d <= b.d {
      assert a == x || a in h;
      assert b == w || b in all - h;
    }
  }

  lemma OfferRejected(h: Heap, all: Heap, x: Scored, k: nat)
    requires IsBest(h, all, k) && |h| == k && (k == 0 || x.d >= Worst(h).d)
    ensures IsBest(h, all + multiset{x}, k)
  {
    assert (all + multiset{x}) - h == (all - h) + multiset{x};
    forall a, b | a in h && b in (all + multiset{x}) - h ensures a.d <= b.d {
      assert b == x || b in all - h;
    }
  }

  /** Offering one more candidate to a best-k heap gives a best-k heap of the extended candidates. */
  lemma OfferKeepsBest(h: Heap, all: Heap, x: Scored, k: nat)
    requires IsBest(h, all, k)
    ensures IsBest(Offer(h, x, k), all + multiset{x}, k)
  {
    if |h| < k {
      OfferWithRoom(h, all, x, k);
    } else if |h| > 0 && x.d < Worst(h).d {
      OfferReplacing(h, all, x, k);
    } else {
      OfferRejected(h, all, x, k);
    }
  }

  /** Merging in only the best `k` of a second candidate set loses nothing. */
  lemma BestOfBest(h: Heap, all: Heap, part: Heap, rest: Heap, k: nat)
    requires IsBest(part, rest, k)
    requires IsBest(h, all + part, k)
    ensures IsBest(h, all + rest, k)
  {
    SubMultisetSize(part, rest);
    SubMultisetSize(h, all + part);
    forall x, y | x in h && y in (all + rest) - h ensures x.d <= y.d {
      if y in (all + part) - h {
      } else {
        assert (all + rest) - h <= ((all + part) - h) + (rest - part);
        assert y in rest - part;
        DroppedIsFar(h, all, part, rest, k, x, y);
      }
    }
  }

  /** An entry `y` the second heap dropped is no nearer than any entry the merge kept. */
  lemma DroppedIsFar(h: Heap, all: Heap, part: Heap, rest: Heap, k: nat, x: Scored, y: Scored)
    requires IsBest(part, rest, k)
    requires IsBest(h, all + part, k)
    requires x in h && y in rest - part
    ensures x.d <= y.d
  {
    SubMultisetSize(part, rest);
    assert rest - part != multiset{};
    assert |part| == k;
    if z :| z in part && part[z] > h[z] {
      assert z in (all + part) - h;
    } else {
      assert part <= h;
      SubMultisetSize(part, h);
      assert h - part == multiset{};
    }
  }

  /** Two searches over the same candidates agree on every score, whichever ties they broke. */
  lemma TopKScoresAgree(s: seq<Scored>, t: seq<Scored>, all: Heap, k: nat)
    requires IsTopK(s, all, k) && IsTopK(t, all, k)
    ensures |s| == |t|
    ensures forall i | 0 <= i < |s| :: s[i].d == t[i].d
  {
    assert |s| == |multiset(s)| && |t| == |multiset(t)|;
    forall i | 0 <= i < |s| ensures s[i].d == t[i].d {
      if s[i].d < t[i].d {
        NoSmallerScore(s, t, all, k, i);
      } else if t[i].d < s[i].d {
        NoSmallerScore(t, s, all, k, i);
      }
    }
  }

  /** A larger multiset has an element more often than a smaller one does. */
  lemma MoreElements(a: Heap, b: Heap)
    requires |a| > |b|
    ensures exists x | x in a :: a[x] > b[x]
  {
    if forall x | x in a :: a[x] <= b[x] {
      SubMultisetSize(a, b);
      assert false;
    }
  }

  /** Some entry no farther than `s[i]` either sits at or after `t[i]`, or occurs less often in `t`. */
  lemma NearEntry(s: seq<Scored>, t: seq<Scored>, i: nat) returns (x: Scored)
    requires Sorted(s) && Sorted(t) && i < |s| == |t|
    ensures x.d <= s[i].d
    ensures x.d >= t[i].d || multiset(s)[x] > multiset(t)[x]
  {
    var near, tnear := multiset(s[..i + 1]), multiset(t[..i]);
    MoreElements(near, tnear);
    x :| x in near && near[x] > tnear[x];
    assert x in s[..i + 1];
    PrefixCount(s, i + 1, x);
    PrefixCount(t, i, x);
  }

  lemma NoSmallerScore(s: seq<Scored>, t: seq<Scored>, all: Heap, k: nat, i: nat)
    requires IsTopK(s, all, k) && IsTopK(t, all, k)
    requires i < |s| == |t|
    ensures s[i].d >= t[i].d
  {
    var x := NearEntry(s, t, i);
    if multiset(s)[x] > multiset(t)[x] {
      assert x in all - multiset(t);
      assert t[i] in multiset(t);
    }
  }

  lemma PrefixCount(s: seq<Scored>, i: nat, x: Scored)
    requires i <= |s|
    ensures multiset(s[..i])[x] <= multiset(s)[x]
    ensures x !in s[i..] ==> multiset(s[..i])[x] == multiset(s)[x]
  {
    assert s == s[..i] + s[i..];
    assert multiset(s) == multiset(s[..i]) + multiset(s[i..]);
  }

  // --- The search --------------------------------------------------------------------

  /** A stored row: its id and (possibly decoded) vector. */
  datatype Entry = Entry(id: VecId, vec: Vector)

  /** The scored entries of `rows` that pass the filter. */
  ghost function Hits(rows: seq<Entry>, query: Vector, dist: Distance, filter: Filter): Heap {
    if rows == [] then multiset{}
    else
      Hits(rows[..|rows| - 1], query, dist, filter) + RowHits(rows[|rows| - 1], query, dist, filter)
  }

  /** The scored entries of a sequence of row groups. */
  ghost function GroupHits(groups: seq<seq<Entry>>, query: Vector, dist: Distance, filter: Filter): Heap {
    if groups == [] then multiset{}
    else
      GroupHits(groups[..|groups| - 1], query, dist, filter) + Hits(groups[|groups| - 1], query, dist, filter)
  }

  lemma {:induction false} GroupHitsConcat(a: seq<seq<Entry>>, b: seq<seq<Entry>>, query: Vector, dist: Distance,
                                           filter: Filter)
    ensures GroupHits(a + b, query, dist, filter)
         == GroupHits(a, query, dist, filter) + GroupHits(b, query, dist, filter)
  {
    if b == [] {
      assert a + b == a;
    } else {
      var front := b[..|b| - 1];
      assert (a + b)[..|a + b| - 1] == a + front;
      GroupHitsConcat(a, front, query, dist, filter);
    }
  }

  /** One fold step on a row: offer it if it passes the filter. */
  function OfferRow(h: Heap, row: Entry, query: Vector, dist: Distance, filter: Filter, k: nat): Heap {
    if Passes(filter, row.id) then Offer(h, Scored(dist(query, row.vec), row.id), k) else h
  }

  /** What one row adds to the hits: its score if it passes the filter. */
  ghost function RowHits(row: Entry, query: Vector, dist: Distance, filter: Filter): Heap {
    if Passes(filter, row.id) then multiset{Scored(dist(query, row.vec), row.id)} else multiset{}
  }

  lemma OfferRowKeepsBest(h: Heap, seen: Heap, row: Entry, query: Vector, dist: Distance, filter: Filter, k: nat)
    requires IsBest(h, seen, k)
    ensures IsBest(OfferRow(h, row, query, dist, filter, k), seen + RowHits(row, query, dist, filter), k)
  {
    if Passes(filter, row.id) {
      OfferKeepsBest(h, seen, Scored(dist(query, row.vec), row.id), k);
    } else {
      assert seen + multiset{} == seen;
    }
  }

  lemma HitsStep(all: Heap, rows: seq<Entry>, i: nat, query: Vector, dist: Distance, filter: Filter)
    requires i < |rows|
    ensures all + Hits(rows[..i + 1], query, dist, filter)
         == all + Hits(rows[..i], query, dist, filter) + RowHits(rows[i], query, dist, filter)
  {
    assert rows[..i + 1][..i] == rows[..i];
  }

  /** The fold body: offer every passing row of one group to the local heap. */
  method FoldGroup(local: Heap, ghost all: Heap, rows: seq<Entry>, query: Vector, dist: Distance, filter: Filter,
                   k: nat)
    returns (h: Heap)
    requires IsBest(local, all, k)
    ensures IsBest(h, all + Hits(rows, query, dist, filter), k)
  {
    h := local;
    ghost var seen := all;
    for i := 0 to |rows|
      invariant seen == all + Hits(rows[..i], query, dist, filter)
      invariant IsBest(h, seen, k)
    {
      HitsStep(all, rows, i, query, dist, filter);
      OfferRowKeepsBest(h, seen, rows[i], query, dist, filter, k);
      h := OfferRow(h, rows[i], query, dist, filter, k);
      seen := seen + RowHits(rows[i], query, dist, filter);
    }
    assert rows[..|rows|] == rows;
  }

  /** The reduce body: drain `b` into `a`, in whatever order the heap yields its items. */
  method MergeHeaps(a: Heap, b: Heap, ghost allA: Heap, ghost allB: Heap, k: nat) returns (h: Heap)
    requires IsBest(a, allA, k) && IsBest(b, allB, k)
    ensures IsBest(h, allA + allB, k)
  {
    h := a;
    var left := b;
    ghost var seen := allA;
    while |left| > 0
      invariant seen + left == allA + b
      invariant IsBest(h, seen, k)
      decreases |left|
    {
      var x :| x in left;
      OfferKeepsBest(h, seen, x, k);
      h := Offer(h, x, k);
      left, seen := left - multiset{x}, seen + multiset{x};
    }
    assert left == multiset{};
    BestOfBest(h, allA, b, allB, k);
  }

  /** How the scheduler cut the work: a leaf folds its whole range, a node splits it at `at` and reduces. */
  datatype Split = Leaf | Branch(at: nat, left: Split, right: Split)

  /** One fold task: a local heap carried over consecutive groups. */
  method FoldChunk(groups: seq<seq<Entry>>, query: Vector, dist: Distance, filter: Filter, k: nat)
    returns (h: Heap)
    ensures IsBest(h, GroupHits(groups, query, dist, filter), k)
  {
    h := multiset{};
    for i := 0 to |groups|
      invariant IsBest(h, GroupHits(groups[..i], query, dist, filter), k)
    {
      assert groups[..i + 1][..i] == groups[..i];
      h := FoldGroup(h, GroupHits(groups[..i], query, dist, filter), groups[i], query, dist, filter, k);
    }
    assert groups[..|groups|] == groups;
  }

  /** `par_iter().fold(..).reduce(..)` over the groups, under the given splits. */
  method FoldReduce(groups: seq<seq<Entry>>, split: Split, query: Vector, dist: Distance, filter: Filter, k: nat)
    returns (h: Heap)
    ensures IsBest(h, GroupHits(groups, query, dist, filter), k)
    decreases split
  {
    match split
    case Leaf =>
      h := FoldChunk(groups, query, dist, filter, k);
    case Branch(at, left, right) =>
      var cut := Min(at, |groups|);
      var lo, hi := groups[..cut], groups[cut..];
      assert lo + hi == groups;
      var a := FoldReduce(lo, left, query, dist, filter, k);
      var b := FoldReduce(hi, right, query, dist, filter, k);
      GroupHitsConcat(lo, hi, query, dist, filter);
      h := MergeHeaps(a, b, GroupHits(lo, query, dist, filter), GroupHits(hi, query, dist, filter), k);
  }

  lemma {:induction false} NearestExists(h: Heap)
    requires |h| > 0
    ensures exists m | m in h :: forall x | x in h :: m.d <= x.d
    decreases |h|
  {
    var a :| a in h;
    var rest := h - multiset{a};
    assert forall x | x in h :: x == a || x in rest;
    if |h| > 1 {
      NearestExists(rest);
      var b :| b in rest && forall x | x in rest :: b.d <= x.d;
      var m := if a.d <= b.d then a else b;
      assert m in h && forall x | x in h :: m.d <= x.d;
    } else {
      assert rest == multiset{};
      assert forall x | x in h :: a.d <= x.d;
    }
  }

  method PickNearest(h: Heap) returns (x: Scored)
    requires |h| > 0
    ensures x in h && forall y | y in h :: x.d <= y.d
  {
    NearestExists(h);
    x :| x in h && forall y | y in h :: x.d <= y.d;
  }

  /** `into_iter().collect()` then `sort_by` score: ties end up in any order. */
  method SortedResults(h: Heap) returns (results: seq<Scored>)
    ensures multiset(results) == h && Sorted(results)
  {
    results := [];
    var left := h;
    while |left| > 0
      invariant multiset(results) + left == h
      invariant Sorted(results)
      invariant forall i, x | 0 <= i < |results| && x in left :: results[i].d <= x.d
      decreases |left|
    {
      var x := PickNearest(left);
      results := results + [x];
      left := left - multiset{x};
    }
    assert left == multiset{};
  }

  /** Sorted by distance, then by id. */
  predicate SortedPairs(s: seq<Scored>) {
    forall i, j | 0 <= i < j < |s| :: AtMost(s[i], s[j])
  }

  /** `into_sorted_vec`, and `sort_unstable` on pairs: the whole order is determined. */
  method SortPairs(h: Heap) returns (s: seq<Scored>)
    ensures multiset(s) == h && SortedPairs(s)
  {
    s := [];
    var left := h;
    while |left| > 0
      invariant multiset(s) + left == h
      invariant SortedPairs(s)
      invariant forall i, x | 0 <= i < |s| && x in left :: AtMost(s[i], x)
      decreases |left|
    {
      var x := Least(left);
      s := s + [x];
      left := left - multiset{x};
    }
    assert left == multiset{};
  }

  lemma FrontOfListing<T>(s: seq<T>, elements: set<T>)
    requires s != [] && multiset(s) == multiset(elements)
    ensures s[|s| - 1] in elements
    ensures multiset(s[..|s| - 1]) == multiset(elements - {s[|s| - 1]})
  {
    var n := |s| - 1;
    assert s == s[..n] + [s[n]];
    assert s[n] in multiset(s);
    assert multiset(s[..n]) == multiset(s) - multiset{s[n]};
    assert multiset(elements - {s[n]}) == multiset(elements) - multiset{s[n]};
  }

  /** A listing of a set repeats nothing and leaves nothing out. */
  lemma {:induction false} ListingOfSet<T>(s: seq<T>, elements: set<T>)
    requires multiset(s) == multiset(elements)
    ensures Distinct(s) && Elements(s) == elements
  {
    hide Distinct;
    if s == [] {
      assert forall x | x in elements :: x in multiset(elements);
      assert Distinct(s) by { DistinctPairs(s); }
    } else {
      var n := |s| - 1;
      FrontOfListing(s, elements);
      ListingOfSet(s[..n], elements - {s[n]});
      assert s[n] !in Elements(s[..n]);
      assert s == s[..n] + [s[n]];
      DistinctPush(s[..n], s[n]);
    }
  }

  /** The parallel search returns the sorted best `k` passing rows, for every split tree. */
  method ParallelSearch(groups: seq<seq<Entry>>, split: Split, query: Vector, dist: Distance, filter: Filter, k: nat)
    returns (results: seq<Scored>)
    ensures IsTopK(results, GroupHits(groups, query, dist, filter), k)
  {
    var h := FoldReduce(groups, split, query, dist, filter, k);
    results := SortedResults(h);
  }
}
