/**
 * Neighbour selection: the plain m-nearest rule, and Algorithm 4 of Malkov and Yashunin's HNSW
 * paper with kept pruned connections.
 */
module Selection {
  import opened Core
  import opened TopK
  import opened Beam

  /** Distance from node `a` to node `b`. */
  function Gap(x: Walk, a: nat, b: nat): real {
    if a < |x.vecs| && b < |x.vecs| then x.dist(x.vecs[a], x.vecs[b]) else 0.0
  }

  /** `c` is strictly farther from every node of `chosen` than from the query. */
  predicate Apart(x: Walk, chosen: seq<nat>, c: nat) {
    forall s | s in chosen :: Gap(x, c, s) > x.Score(c)
  }

  /** Each node of `chosen` is apart from all earlier ones. */
  ghost predicate AllApart(x: Walk, chosen: seq<nat>) {
    chosen == [] || (AllApart(x, chosen[..|chosen| - 1]) && Apart(x, chosen[..|chosen| - 1], chosen[|chosen| - 1]))
  }

  /** No node of `s` is farther than `c`, ties by node number. */
  ghost predicate NotAfter(x: Walk, s: seq<nat>, c: nat) {
    forall a | a in s :: AtMost(x.Entry(a), x.Entry(c))
  }

  /** Listed nearest first. */
  ghost predicate Ascending(x: Walk, s: seq<nat>) {
    s == [] || (Ascending(x, s[..|s| - 1]) && NotAfter(x, s[..|s| - 1], s[|s| - 1]))
  }

  /** Some chosen node, no farther from the query than `c`, is at least as close to `c` as the query is. */
  ghost predicate Witnessed(x: Walk, chosen: seq<nat>, c: nat) {
    exists w | w in chosen :: AtMost(x.Entry(w), x.Entry(c)) && Gap(x, c, w) <= x.Score(c)
  }

  /** Why a candidate is in neither part of the selection. */
  ghost predicate Spare(x: Walk, m: nat, chosen: seq<nat>, fill: seq<nat>, c: nat) {
    || (Witnessed(x, chosen, c) && NotAfter(x, fill, c) && |chosen| + |fill| == m)
    || (|chosen| == m && fill == [] && NotAfter(x, chosen, c))
  }

  /** `chosen` are the diverse picks, `fill` the nearest of the rejected ones that still fit. */
  ghost predicate IsDiverse(x: Walk, candidates: set<nat>, m: nat, chosen: seq<nat>, fill: seq<nat>) {
    && Distinct(chosen + fill) && Elements(chosen) + Elements(fill) <= candidates
    && |chosen| + |fill| == Min(m, |candidates|)
    && Ascending(x, chosen) && AllApart(x, chosen)
    && Ascending(x, fill) && (forall c | c in fill :: Witnessed(x, chosen, c))
    && (forall c | c in candidates && c !in chosen && c !in fill :: Spare(x, m, chosen, fill, c))
  }

  /** A true nearest-`m` choice, ties by node number, in any order. */
  ghost predicate IsNearest(x: Walk, candidates: set<nat>, m: nat, r: seq<nat>) {
    && Distinct(r) && Elements(r) <= candidates && |r| == Min(m, |candidates|)
    && forall c | c in candidates && c !in r :: NotAfter(x, r, c)
  }

  /** The configured strategy's answer. */
  ghost predicate IsSelection(x: Walk, heuristic: bool, candidates: set<nat>, m: nat, r: seq<nat>) {
    if heuristic then exists p | 0 <= p <= |r| :: IsDiverse(x, candidates, m, r[..p], r[p..])
    else IsNearest(x, candidates, m, r)
  }

  lemma DiverseShape(x: Walk, candidates: set<nat>, m: nat, chosen: seq<nat>, fill: seq<nat>)
    requires IsDiverse(x, candidates, m, chosen, fill)
    ensures Distinct(chosen + fill) && Elements(chosen + fill) <= candidates && |chosen + fill| == Min(m, |candidates|)
  {
    hide Distinct, Ascending, AllApart, Witnessed, Spare;
    forall c | c in chosen + fill ensures c in candidates {
      assert c in Elements(chosen) || c in Elements(fill);
    }
  }

  /** What every strategy guarantees. */
  lemma SelectionShape(x: Walk, heuristic: bool, candidates: set<nat>, m: nat, r: seq<nat>)
    requires IsSelection(x, heuristic, candidates, m, r)
    ensures Distinct(r) && Elements(r) <= candidates && |r| == Min(m, |candidates|)
  {
    hide IsDiverse, Distinct, NotAfter;
    if heuristic {
      var p :| 0 <= p <= |r| && IsDiverse(x, candidates, m, r[..p], r[p..]);
      DiverseShape(x, candidates, m, r[..p], r[p..]);
      assert r == r[..p] + r[p..];
    }
  }

  /** Every candidate has a vector. */
  ghost predicate HaveRows(x: Walk, candidates: set<nat>) {
    forall c | c in candidates :: c < |x.vecs|
  }

  /** `c` is farther from every one of the first `n` selected than from the query. */
  ghost predicate FarFromFirst(x: Walk, r: seq<nat>, n: nat, c: nat)
    requires n <= |r|
  {
    forall i | 0 <= i < n && r[i] < |x.vecs| && c < |x.vecs| ::
      x.dist(x.vecs[c], x.vecs[r[i]]) > x.dist(x.query, x.vecs[c])
  }

  lemma {:induction false} ApartAt(x: Walk, chosen: seq<nat>, j: nat)
    requires AllApart(x, chosen) && j < |chosen|
    ensures Apart(x, chosen[..j], chosen[j])
  {
    var n := |chosen| - 1;
    if j < n {
      ApartAt(x, chosen[..n], j);
      assert chosen[..n][..j] == chosen[..j];
    }
  }

  /** `a` is no farther from the query than `b`. */
  ghost predicate NoFarther(x: Walk, a: nat, b: nat) {
    a < |x.vecs| && b < |x.vecs| ==> x.dist(x.query, x.vecs[a]) <= x.dist(x.query, x.vecs[b])
  }

  /** Positions `lo .. hi` are listed nearest first. */
  ghost predicate NearestFirst(x: Walk, r: seq<nat>, lo: nat, hi: nat)
    requires hi <= |r|
  {
    forall i, j | lo <= i < j < hi :: NoFarther(x, r[i], r[j])
  }

  /** No position in `lo .. hi` is farther from the query than `c`. */
  ghost predicate NoneFarther(x: Walk, r: seq<nat>, lo: nat, hi: nat, c: nat)
    requires hi <= |r|
  {
    forall i | lo <= i < hi :: NoFarther(x, r[i], c)
  }

  /**
   * The first `p` were picked for being diverse and the others fill up, each part nearest first. Whatever is
   * left out is no nearer than the fill, and either close to a pick or beyond `m` picks that are nearer.
   */
  ghost predicate PicksThenFill(x: Walk, candidates: set<nat>, m: nat, r: seq<nat>, p: nat) {
    && p <= |r| && NearestFirst(x, r, 0, p) && NearestFirst(x, r, p, |r|)
    && (forall j | 0 <= j < p :: FarFromFirst(x, r, j, r[j]))
    && (forall j | p <= j < |r| :: !FarFromFirst(x, r, p, r[j]))
    && (forall c | c in candidates && c !in r ::
          && NoneFarther(x, r, p, |r|, c)
          && (!FarFromFirst(x, r, p, c) || (p == m && NoneFarther(x, r, 0, p, c))))
  }

  lemma {:induction false} AscendingPairs(x: Walk, s: seq<nat>)
    requires Ascending(x, s)
    ensures NearestFirst(x, s, 0, |s|)
  {
    if s != [] {
      var n := |s| - 1;
      AscendingPairs(x, s[..n]);
      forall i, j | 0 <= i < j < |s| ensures NoFarther(x, s[i], s[j]) {
        if j < n {
          assert NoFarther(x, s[..n][i], s[..n][j]);
        } else {
          assert s[..n][i] in s[..n];
          assert AtMost(x.Entry(s[i]), x.Entry(s[n]));
        }
      }
    }
  }

  lemma NotAfterMeans(x: Walk, r: seq<nat>, lo: nat, hi: nat, c: nat)
    requires lo <= hi <= |r| && NotAfter(x, r[lo..hi], c)
    ensures NoneFarther(x, r, lo, hi, c)
  {
    forall i | lo <= i < hi ensures NoFarther(x, r[i], c) {
      assert r[lo..hi][i - lo] in r[lo..hi];
      assert AtMost(x.Entry(r[i]), x.Entry(c));
    }
  }

  lemma PartsAscend(x: Walk, r: seq<nat>, p: nat)
    requires p <= |r| && Ascending(x, r[..p]) && Ascending(x, r[p..])
    ensures NearestFirst(x, r, 0, p) && NearestFirst(x, r, p, |r|)
  {
    AscendingPairs(x, r[..p]);
    AscendingPairs(x, r[p..]);
    forall i, j | 0 <= i < j < p ensures NoFarther(x, r[i], r[j]) {
      assert NoFarther(x, r[..p][i], r[..p][j]);
    }
    forall i, j | p <= i < j < |r| ensures NoFarther(x, r[i], r[j]) {
      assert NoFarther(x, r[p..][i - p], r[p..][j - p]);
    }
  }

  /** Why a candidate was left out, in distances. */
  lemma LeftOutMeans(x: Walk, m: nat, r: seq<nat>, p: nat, c: nat)
    requires p <= |r| && Spare(x, m, r[..p], r[p..], c) && c < |x.vecs| && forall d | d in r :: d < |x.vecs|
    ensures NoneFarther(x, r, p, |r|, c)
    ensures !FarFromFirst(x, r, p, c) || (p == m && NoneFarther(x, r, 0, p, c))
  {
    hide NotAfter, NoneFarther, FarFromFirst, Witnessed;
    assert r[p..|r|] == r[p..] && r[0..p] == r[..p];
    if Witnessed(x, r[..p], c) && NotAfter(x, r[p..], c) {
      NotAfterMeans(x, r, p, |r|, c);
      WitnessIsClose(x, r, p, c);
    } else {
      NothingAfter(x, r, p, c);
      NotAfterMeans(x, r, 0, p, c);
    }
  }

  lemma NothingAfter(x: Walk, r: seq<nat>, p: nat, c: nat)
    requires p == |r|
    ensures NoneFarther(x, r, p, |r|, c)
  {
  }

  lemma PicksAreFar(x: Walk, r: seq<nat>, p: nat, j: nat)
    requires p <= |r| && AllApart(x, r[..p]) && j < p
    ensures FarFromFirst(x, r, j, r[j])
  {
    hide AllApart;
    ApartAt(x, r[..p], j);
    assert r[..p][..j] == r[..j];
    forall i | 0 <= i < j && r[i] < |x.vecs| && r[j] < |x.vecs|
      ensures x.dist(x.vecs[r[j]], x.vecs[r[i]]) > x.dist(x.query, x.vecs[r[j]])
    {
      assert r[..j][i] in r[..j];
    }
  }

  lemma WitnessIsClose(x: Walk, r: seq<nat>, p: nat, c: nat)
    requires p <= |r| && Witnessed(x, r[..p], c) && c < |x.vecs| && forall d | d in r :: d < |x.vecs|
    ensures !FarFromFirst(x, r, p, c)
  {
    var w :| w in r[..p] && AtMost(x.Entry(w), x.Entry(c)) && Gap(x, c, w) <= x.Score(c);
    var i :| 0 <= i < p && r[..p][i] == w;
    assert r[i] in r;
    assert x.dist(x.vecs[c], x.vecs[r[i]]) <= x.dist(x.query, x.vecs[c]);
  }

  /**
   * In terms of distances alone: the diverse picks come first, each farther from every earlier pick than from
   * the query; each of the others is at least as close to some pick as to the query.
   */
  lemma DiversePicks(x: Walk, candidates: set<nat>, m: nat, r: seq<nat>)
    requires IsSelection(x, true, candidates, m, r) && HaveRows(x, candidates)
    ensures exists p :: PicksThenFill(x, candidates, m, r, p)
  {
    hide Distinct, Ascending, AllApart, Spare, Witnessed, FarFromFirst, NotAfter, NearestFirst, NoneFarther;
    SelectionShape(x, true, candidates, m, r);
    assert forall c | c in r :: c in Elements(r);
    var p: nat :| p <= |r| && IsDiverse(x, candidates, m, r[..p], r[p..]);
    forall j | 0 <= j < p ensures FarFromFirst(x, r, j, r[j]) { PicksAreFar(x, r, p, j); }
    forall j | p <= j < |r| ensures !FarFromFirst(x, r, p, r[j]) {
      assert r[p..][j - p] in r[p..];
      assert r[j] in r;
      WitnessIsClose(x, r, p, r[j]);
    }
    PartsAscend(x, r, p);
    assert r[..p] + r[p..] == r;
    forall c | c in candidates && c !in r
      ensures NoneFarther(x, r, p, |r|, c) && (!FarFromFirst(x, r, p, c) || (p == m && NoneFarther(x, r, 0, p, c)))
    {
      assert Spare(x, m, r[..p], r[p..], c);
      LeftOutMeans(x, m, r, p, c);
    }
    assert PicksThenFill(x, candidates, m, r, p);
  }

  lemma PicksNotEmpty(x: Walk, candidates: set<nat>, m: nat, chosen: seq<nat>, fill: seq<nat>)
    requires IsDiverse(x, candidates, m, chosen, fill) && chosen + fill != []
    ensures chosen != []
  {
    hide Distinct, Ascending, AllApart, Spare;
    assert fill != [] ==> fill[0] in fill;
  }

  lemma {:induction false} FirstIsNearest(x: Walk, s: seq<nat>)
    requires s != [] && Ascending(x, s)
    ensures forall c | c in s :: x.Score(s[0]) <= x.Score(c)
  {
    var n := |s| - 1;
    if n > 0 {
      FirstIsNearest(x, s[..n]);
      assert s[..n][0] in s[..n];
      forall c | c in s ensures x.Score(s[0]) <= x.Score(c) {
        if c !in s[..n] { assert AtMost(x.Entry(s[0]), x.Entry(s[n])); }
      }
    }
  }

  lemma FirstBeatsAll(x: Walk, candidates: set<nat>, m: nat, chosen: seq<nat>, fill: seq<nat>, c: nat)
    requires IsDiverse(x, candidates, m, chosen, fill) && chosen != [] && c in candidates
    ensures x.Score(chosen[0]) <= x.Score(c)
  {
    hide Distinct, Ascending, AllApart;
    FirstIsNearest(x, chosen);
    if c !in chosen {
      assert c !in fill ==> Spare(x, m, chosen, fill, c);
      if Witnessed(x, chosen, c) {
        var w :| w in chosen && AtMost(x.Entry(w), x.Entry(c)) && Gap(x, c, w) <= x.Score(c);
      } else {
        assert chosen[0] in chosen;
      }
    }
  }

  /** The nearest candidate is always taken, and listed first. */
  lemma NearestIsPicked(x: Walk, candidates: set<nat>, m: nat, r: seq<nat>)
    requires IsSelection(x, true, candidates, m, r) && HaveRows(x, candidates) && m > 0 && candidates != {}
    ensures r != [] && r[0] < |x.vecs|
    ensures forall c | c in candidates :: c < |x.vecs| && x.dist(x.query, x.vecs[r[0]]) <= x.dist(x.query, x.vecs[c])
  {
    hide IsDiverse;
    SelectionShape(x, true, candidates, m, r);
    assert r[0] in Elements(r);
    var p: nat :| p <= |r| && IsDiverse(x, candidates, m, r[..p], r[p..]);
    assert r[..p] + r[p..] == r;
    PicksNotEmpty(x, candidates, m, r[..p], r[p..]);
    forall c | c in candidates ensures x.Score(r[0]) <= x.Score(c) {
      FirstBeatsAll(x, candidates, m, r[..p], r[p..], c);
    }
  }

  // --- Plain selection ----------------------------------------------------------------------

  /** Pop the farthest until `m` are left, then list the heap in its own order. */
  method SelectNeighbors(x: Walk, candidates: Heap, m: nat, ghost nodes: set<nat>) returns (r: seq<nat>)
    requires candidates == x.HeapOf(nodes)
    ensures IsNearest(x, nodes, m, r)
  {
    var h := candidates;
    ghost var kept := nodes;
    while |h| > m
      invariant kept <= nodes && h == x.HeapOf(kept) && |kept| >= Min(m, |nodes|)
      invariant forall c | c in nodes && c !in kept :: forall a | a in kept :: AtMost(x.Entry(a), x.Entry(c))
    {
      var out := Worst(h);
      x.HeapDrop(kept, out.id);
      forall a | a in kept ensures AtMost(x.Entry(a), out) {
        assert x.Entry(a) in h;
      }
      h, kept := PopWorst(h), kept - {out.id};
    }
    r := ListHeap(x, h, kept);
  }

  lemma ListStep(x: Walk, rest: set<nat>, nodes: set<nat>, r: seq<nat>, e: Scored)
    requires Distinct(r) && Elements(r) + rest == nodes && Elements(r) !! rest && e in x.HeapOf(rest)
    ensures x.HeapOf(rest) - multiset{e} == x.HeapOf(rest - {e.id})
    ensures Distinct(r + [e.id]) && Elements(r + [e.id]) + (rest - {e.id}) == nodes
    ensures Elements(r + [e.id]) !! (rest - {e.id})
  {
    x.HeapDrop(rest, e.id);
    hide Walk.HeapOf;
    ListOne(rest, nodes, r, e.id);
  }

  lemma ListOne(rest: set<nat>, nodes: set<nat>, r: seq<nat>, i: nat)
    requires Distinct(r) && Elements(r) + rest == nodes && Elements(r) !! rest && i in rest
    ensures Distinct(r + [i]) && Elements(r + [i]) + (rest - {i}) == nodes && Elements(r + [i]) !! (rest - {i})
  {
    hide Distinct;
    assert i !in Elements(r);
    DistinctPush(r, i);
  }

  /** Heap iteration: each entry's node once, in any order. */
  method ListHeap(x: Walk, h: Heap, ghost nodes: set<nat>) returns (r: seq<nat>)
    requires h == x.HeapOf(nodes)
    ensures Distinct(r) && Elements(r) == nodes && |r| == |nodes|
  {
    r := [];
    var left := h;
    ghost var rest := nodes;
    while |left| > 0
      invariant left == x.HeapOf(rest) && Distinct(r) && Elements(r) + rest == nodes && Elements(r) !! rest
      decreases |left|
    {
      var e :| e in left;
      ListStep(x, rest, nodes, r, e);
      r := r + [e.id];
      left, rest := left - multiset{e}, rest - {e.id};
    }
    DistinctCardinality(r);
  }

  // --- Algorithm 4 ----------------------------------------------------------------------------

  /** The scan after some candidates: picks and rejects so far, both nearest first. */
  ghost predicate Scanned(x: Walk, done: seq<nat>, m: nat, chosen: seq<nat>, rejected: seq<nat>) {
    && Distinct(chosen + rejected) && Elements(chosen) + Elements(rejected) == Elements(done)
    && |chosen| <= m && Ascending(x, chosen) && AllApart(x, chosen) && Ascending(x, rejected)
    && forall c | c in rejected :: Witnessed(x, chosen, c)
  }

  lemma Pushes(s: seq<nat>, t: seq<nat>, c: nat)
    requires Distinct(s + t) && c !in s && c !in t
    ensures Distinct(s + [c] + t) && Distinct(s + (t + [c]))
  {
    DistinctPush(s + t, c);
    assert s + (t + [c]) == (s + t) + [c];
    DistinctPairs(s + t);
    DistinctPairs(s + [c] + t);
    var u := s + [c] + t;
    forall i, j | 0 <= i < j < |u| ensures u[i] != u[j] {
      var i', j' := (if i > |s| then i - 1 else i), (if j > |s| then j - 1 else j);
      assert u[i] == if i == |s| then c else (s + t)[i'];
      assert u[j] == if j == |s| then c else (s + t)[j'];
    }
  }

  lemma NotAfterPart(x: Walk, part: seq<nat>, whole: seq<nat>, c: nat)
    requires NotAfter(x, whole, c) && Elements(part) <= Elements(whole)
    ensures NotAfter(x, part, c)
  {
    forall a | a in part ensures AtMost(x.Entry(a), x.Entry(c)) {
      assert a in Elements(part);
    }
  }

  lemma AscendingPush(x: Walk, s: seq<nat>, c: nat)
    requires Ascending(x, s) && NotAfter(x, s, c)
    ensures Ascending(x, s + [c])
  {
    assert (s + [c])[..|s|] == s;
  }

  lemma AllApartPush(x: Walk, s: seq<nat>, c: nat)
    requires AllApart(x, s) && Apart(x, s, c)
    ensures AllApart(x, s + [c])
  {
    assert (s + [c])[..|s|] == s;
  }

  lemma WitnessedGrows(x: Walk, chosen: seq<nat>, more: seq<nat>, c: nat)
    requires Witnessed(x, chosen, c)
    ensures Witnessed(x, chosen + more, c)
  {
    var w :| w in chosen && AtMost(x.Entry(w), x.Entry(c)) && Gap(x, c, w) <= x.Score(c);
    assert w in chosen + more;
  }

  lemma ScanPick(x: Walk, done: seq<nat>, m: nat, chosen: seq<nat>, rejected: seq<nat>, c: nat)
    requires Scanned(x, done, m, chosen, rejected) && |chosen| < m && c !in done && NotAfter(x, done, c)
    requires Apart(x, chosen, c)
    ensures Scanned(x, done + [c], m, chosen + [c], rejected)
  {
    assert c !in Elements(chosen) && c !in Elements(rejected);
    Pushes(chosen, rejected, c);
    NotAfterPart(x, chosen, done, c);
    AscendingPush(x, chosen, c);
    AllApartPush(x, chosen, c);
    assert Elements(chosen + [c]) == Elements(chosen) + {c} && Elements(done + [c]) == Elements(done) + {c};
    forall d | d in rejected ensures Witnessed(x, chosen + [c], d) { WitnessedGrows(x, chosen, [c], d); }
  }

  lemma ScanReject(x: Walk, done: seq<nat>, m: nat, chosen: seq<nat>, rejected: seq<nat>, c: nat)
    requires Scanned(x, done, m, chosen, rejected) && c !in done && NotAfter(x, done, c)
    requires !Apart(x, chosen, c)
    ensures Scanned(x, done + [c], m, chosen, rejected + [c])
  {
    assert c !in Elements(chosen) && c !in Elements(rejected);
    Pushes(chosen, rejected, c);
    NotAfterPart(x, rejected, done, c);
    AscendingPush(x, rejected, c);
    assert Elements(rejected + [c]) == Elements(rejected) + {c} && Elements(done + [c]) == Elements(done) + {c};
    var w :| w in chosen && Gap(x, c, w) <= x.Score(c);
    assert w in Elements(chosen);
    assert AtMost(x.Entry(w), x.Entry(c));
    assert Witnessed(x, chosen, c);
  }

  /** The part of the rejected candidates that still fits. */
  function Fill(rejected: seq<nat>, room: nat): seq<nat> {
    rejected[..Min(room, |rejected|)]
  }

  lemma FillFits(x: Walk, done: seq<nat>, m: nat, chosen: seq<nat>, rejected: seq<nat>)
    requires Scanned(x, done, m, chosen, rejected)
    ensures var fill := Fill(rejected, m - |chosen|);
            && Distinct(chosen + fill) && Elements(chosen) + Elements(fill) <= Elements(done)
            && Ascending(x, fill) && forall c | c in fill :: Witnessed(x, chosen, c)
  {
    var fill := Fill(rejected, m - |chosen|);
    DistinctPrefix(chosen + rejected, |chosen| + |fill|);
    assert (chosen + rejected)[..|chosen| + |fill|] == chosen + fill;
    AscendingPrefix(x, rejected, |fill|);
    assert forall c | c in fill :: c in rejected;
  }

  /** Why a scanned candidate that was not selected could be spared. */
  lemma ScannedSpare(x: Walk, done: seq<nat>, m: nat, chosen: seq<nat>, rejected: seq<nat>, c: nat)
    requires Scanned(x, done, m, chosen, rejected)
    requires c in done && c !in chosen && c !in Fill(rejected, m - |chosen|)
    ensures Spare(x, m, chosen, Fill(rejected, m - |chosen|), c)
  {
    assert c in Elements(done);
    assert c in Elements(rejected);
    LaterReject(x, rejected, Min(m - |chosen|, |rejected|), c);
  }

  /** Every candidate left out of a finished scan could be spared. */
  lemma LeftoversSpare(x: Walk, done: seq<nat>, rest: seq<nat>, m: nat, chosen: seq<nat>, rejected: seq<nat>)
    requires Scanned(x, done, m, chosen, rejected) && (rest == [] || |chosen| == m)
    requires forall c | c in rest :: NotAfter(x, done, c)
    ensures forall c | c in Elements(done + rest) && c !in chosen && c !in Fill(rejected, m - |chosen|) ::
              Spare(x, m, chosen, Fill(rejected, m - |chosen|), c)
  {
    hide Distinct, Ascending, AllApart, Witnessed;
    var fill := Fill(rejected, m - |chosen|);
    forall c | c in Elements(done + rest) && c !in chosen && c !in fill ensures Spare(x, m, chosen, fill, c) {
      if c in done {
        ScannedSpare(x, done, m, chosen, rejected, c);
      } else {
        NotAfterPart(x, chosen, done, c);
      }
    }
  }

  /** A finished scan, cut to `m`, is the diverse selection. `rest` are the candidates never scanned. */
  lemma ScanIsDiverse(x: Walk, done: seq<nat>, rest: seq<nat>, m: nat, chosen: seq<nat>, rejected: seq<nat>)
    requires Scanned(x, done, m, chosen, rejected)
    requires Distinct(done + rest) && (rest == [] || |chosen| == m)
    requires forall c | c in rest :: NotAfter(x, done, c)
    ensures IsDiverse(x, Elements(done + rest), m, chosen, Fill(rejected, m - |chosen|))
  {
    hide Distinct, Ascending, AllApart, Witnessed, NotAfter, Spare;
    FillFits(x, done, m, chosen, rejected);
    ScanSizes(x, done, rest, m, chosen, rejected);
    LeftoversSpare(x, done, rest, m, chosen, rejected);
    assert Elements(done) <= Elements(done + rest);
  }

  lemma ScanSizes(x: Walk, done: seq<nat>, rest: seq<nat>, m: nat, chosen: seq<nat>, rejected: seq<nat>)
    requires Scanned(x, done, m, chosen, rejected) && Distinct(done + rest) && (rest == [] || |chosen| == m)
    ensures |chosen| + Min(m - |chosen|, |rejected|) == Min(m, |Elements(done + rest)|)
  {
    DistinctCardinality(chosen + rejected);
    assert Elements(chosen + rejected) == Elements(chosen) + Elements(rejected);
    assert Elements(done) <= Elements(done + rest);
    SubsetIsSmaller(Elements(done), Elements(done + rest));
    assert rest == [] ==> done + rest == done;
  }

  lemma {:induction false} AscendingPrefix(x: Walk, s: seq<nat>, n: nat)
    requires Ascending(x, s) && n <= |s|
    ensures Ascending(x, s[..n])
  {
    if n < |s| {
      AscendingPrefix(x, s[..|s| - 1], n);
      assert s[..|s| - 1][..n] == s[..n];
    } else {
      assert s[..n] == s;
    }
  }

  /** An element past position `n` of an ascending list comes after the first `n`. */
  lemma {:induction false} LaterReject(x: Walk, s: seq<nat>, n: nat, c: nat)
    requires Ascending(x, s) && n <= |s| && c in s && c !in s[..n]
    ensures NotAfter(x, s[..n], c) && n < |s|
  {
    assert s[..|s|] == s;
    var front := s[..|s| - 1];
    if c in front && n < |s| {
      assert front[..n] == s[..n];
      LaterReject(x, front, n, c);
    } else {
      assert forall a | a in s[..n] && n < |s| :: a in front;
    }
  }

  /** `into_sorted_vec` of a heap of nodes. */
  method SortNodes(x: Walk, candidates: Heap, ghost nodes: set<nat>) returns (order: seq<nat>)
    requires candidates == x.HeapOf(nodes)
    ensures Distinct(order) && Elements(order) == nodes && Ascending(x, order)
  {
    order := [];
    var left := candidates;
    ghost var rest := nodes;
    while |left| > 0
      invariant left == x.HeapOf(rest) && Distinct(order) && Elements(order) + rest == nodes && Elements(order) !! rest
      invariant Ascending(x, order) && forall c | c in rest :: NotAfter(x, order, c)
      decreases |left|
    {
      var e := Least(left);
      ListStep(x, rest, nodes, order, e);
      AscendingPush(x, order, e.id);
      NextLeast(x, rest, order, e);
      order := order + [e.id];
      left, rest := left - multiset{e}, rest - {e.id};
    }
  }

  lemma NextLeast(x: Walk, rest: set<nat>, order: seq<nat>, e: Scored)
    requires |x.HeapOf(rest)| > 0 && e == Least(x.HeapOf(rest))
    requires forall c | c in rest :: NotAfter(x, order, c)
    ensures forall c | c in rest :: NotAfter(x, order + [e.id], c)
  {
    forall c | c in rest ensures NotAfter(x, order + [e.id], c) {
      assert x.Entry(c) in x.HeapOf(rest);
    }
  }

  lemma OrderCut(x: Walk, order: seq<nat>, i: nat)
    requires Distinct(order) && Ascending(x, order) && i < |order|
    ensures order[i] !in order[..i] && NotAfter(x, order[..i], order[i])
    ensures order[..i + 1] == order[..i] + [order[i]]
  {
    DistinctPrefix(order, i + 1);
    AscendingPrefix(x, order, i + 1);
    assert order[..i + 1][..i] == order[..i];
  }

  /** Scan nearest first, picking diverse candidates, then backfill with the rejected ones. */
  method SelectNeighborsHeuristic(x: Walk, candidates: Heap, m: nat, ghost nodes: set<nat>)
    returns (r: seq<nat>)
    requires candidates == x.HeapOf(nodes)
    ensures exists picked | 0 <= picked <= |r| :: IsDiverse(x, nodes, m, r[..picked], r[picked..])
  {
    var order := SortNodes(x, candidates, nodes);
    var chosen, rejected := [], [];
    var i := 0;
    while i < |order|
      invariant i <= |order| && Scanned(x, order[..i], m, chosen, rejected)
    {
      if |chosen| == m {
        break;
      }
      var c := order[i];
      OrderCut(x, order, i);
      if Apart(x, chosen, c) {
        ScanPick(x, order[..i], m, chosen, rejected, c);
        chosen := chosen + [c];
      } else {
        ScanReject(x, order[..i], m, chosen, rejected, c);
        rejected := rejected + [c];
      }
      i := i + 1;
    }
    CutOrder(x, order, i);
    ScanIsDiverse(x, order[..i], order[i..], m, chosen, rejected);
    var fill := Fill(rejected, m - |chosen|);
    r := chosen + fill;
    assert r[..|chosen|] == chosen && r[|chosen|..] == fill;
  }

  lemma CutOrder(x: Walk, order: seq<nat>, i: nat)
    requires Distinct(order) && Ascending(x, order) && i <= |order|
    ensures order[..i] + order[i..] == order
    ensures forall c | c in order[i..] :: NotAfter(x, order[..i], c)
  {
    hide Ascending;
    DistinctPairs(order);
    forall c | c in order[i..] ensures NotAfter(x, order[..i], c) {
      var j :| i <= j < |order| && order[j] == c;
      assert forall k | 0 <= k < i :: order[..i][k] == order[k] && order[k] != order[j];
      LaterReject(x, order, i, c);
    }
  }

  /** The configured strategy. */
  method Select(x: Walk, heuristic: bool, candidates: Heap, m: nat, ghost nodes: set<nat>) returns (r: seq<nat>)
    requires candidates == x.HeapOf(nodes)
    ensures IsSelection(x, heuristic, nodes, m, r)
  {
    if heuristic {
      r := SelectNeighborsHeuristic(x, candidates, m, nodes);
    } else {
      r := SelectNeighbors(x, candidates, m, nodes);
    }
  }
}
