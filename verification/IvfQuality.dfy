/**
 * What training and placement are for, stated on the vectors: a stored vector is found by searching for it,
 * the centroids are no worse than evenly spread seeds, and quantised training vectors read back close.
 */
module IvfQuality {
  import opened Core
  import opened Slab
  import opened TopK
  import opened Contents
  import opened Sq8
  import opened Postings
  import opened Ivf
  import KMeans

  // --- Placement and probing ---------------------------------------------------------------------------------

  /** An unquantised vector lies in the list of a nearest centroid, the first of those. */
  lemma ListedWithNearest(t: Inverted, c: Config, id: VecId, l: nat)
    requires TrainedOk(t, c) && !c.quantize && id in t.idToList && l < c.nlist
    ensures var cents, v := Rows(t.centroids, c.dim, c.nlist), Listed(t, c)[id];
            && t.idToList[id] < c.nlist
            && c.dist(v, cents[t.idToList[id]]) <= c.dist(v, cents[l])
            && (l < t.idToList[id] ==> c.dist(v, cents[t.idToList[id]]) < c.dist(v, cents[l]))
  {
    hide Listed, Rows, ListsOk;
    var cents, v := Rows(t.centroids, c.dim, c.nlist), Listed(t, c)[id];
    assert InNearestList(Listed(t, c), t.idToList, cents, c.dist, id);
    KMeans.NearestIsMinimal(cents, c.dist, v);
  }

  /** What a probe takes is nearer than what it leaves, or as near with a smaller number. */
  lemma ProbeTakesNearest(probe: seq<nat>, cents: seq<Vector>, query: Vector, dist: Distance, n: nat, l: nat, m: nat)
    requires IsProbe(probe, cents, query, dist, n) && l in probe && m !in probe && m < |cents|
    ensures l < |cents|
    ensures || dist(query, cents[l]) < dist(query, cents[m])
            || (dist(query, cents[l]) == dist(query, cents[m]) && l < m)
  {
    assert AtMost(CentroidScore(cents, query, dist, l), CentroidScore(cents, query, dist, m));
  }

  /** Searching for a stored vector probes the list it lies in, however few lists are probed. */
  lemma OwnListIsProbed(t: Inverted, c: Config, id: VecId, probe: seq<nat>, n: nat)
    requires TrainedOk(t, c) && !c.quantize && id in t.idToList && n > 0
    requires IsProbe(probe, Rows(t.centroids, c.dim, c.nlist), Listed(t, c)[id], c.dist, n)
    ensures t.idToList[id] in probe
  {
    hide Listed, Rows, ListsOk, WellPlaced;
    var cents, v := Rows(t.centroids, c.dim, c.nlist), Listed(t, c)[id];
    var l := probe[0];
    ListedWithNearest(t, c, id, l);
    if t.idToList[id] !in probe {
      ProbeTakesNearest(probe, cents, v, c.dist, n, l, t.idToList[id]);
    }
  }

  lemma SomethingAsNear(results: seq<Scored>, m: Store, query: Vector, dist: Distance, filter: Filter, k: nat,
                        id: VecId)
    requires Answers(results, m, query, dist, filter, k) && id in m && Passes(filter, id) && k > 0
    ensures results != [] && results[0].d <= dist(query, m[id])
  {
    var x := Scored(dist(query, m[id]), id);
    var all := MapHits(m, query, dist, filter);
    assert x in all;
    assert |all| > 0 by { assert multiset{x} <= all; assert |multiset{x}| == 1; SubMultisetSize(multiset{x}, all); }
    assert |multiset(results)| == |results|;
    assert results[0] in multiset(results);
    if x in multiset(results) {
      var i :| 0 <= i < |results| && results[i] == x;
    } else {
      assert x in all - multiset(results);
    }
  }

  /** So the answer begins at least as near as the stored vector itself is. */
  lemma StoredIsFound(t: Inverted, c: Config, id: VecId, probe: seq<nat>, results: seq<Scored>, filter: Filter, k: nat)
    requires TrainedOk(t, c) && !c.quantize && id in t.idToList && c.nprobe > 0 && k > 0 && Passes(filter, id)
    requires IsProbe(probe, Rows(t.centroids, c.dim, c.nlist), Listed(t, c)[id], c.dist, c.nprobe)
    requires Answers(results, Restrict(Listed(t, c), t.idToList, probe), Listed(t, c)[id], c.dist, filter, k)
    ensures results != [] && results[0].d <= c.dist(Listed(t, c)[id], Listed(t, c)[id])
  {
    hide Listed, Rows, ListsOk, WellPlaced, Answers, IsProbe;
    OwnListIsProbed(t, c, id, probe, c.nprobe);
    SomethingAsNear(results, Restrict(Listed(t, c), t.idToList, probe), Listed(t, c)[id], c.dist, filter, k, id);
  }

  // --- Training ------------------------------------------------------------------------------------------------

  /** The centroids serve the rows no worse than evenly spread rows of theirs would. */
  ghost predicate NoWorseThanSpread(centroids: seq<real>, data: seq<real>, n: nat, dim: nat, k: nat, dist: Distance)
    requires |data| == Offset(n, dim) && |centroids| == Offset(k, dim) && k > 0
  {
    exists seeds, srcs |
        |seeds| == Offset(k, dim) && KMeans.SpreadSeeds(Rows(seeds, dim, k), Rows(data, dim, n), srcs) ::
      KMeans.InertiaOf(centroids, data, n, dim, k, dist) <= KMeans.InertiaOf(seeds, data, n, dim, k, dist)
  }

  /** The insert that trains the index clusters all vectors inserted so far, no worse than evenly spread seeds. */
  lemma TrainingImproves(s: State, s': State, c: Config, id: VecId, vec: Vector)
    requires StateOk(s, c) && StateOk(s', c) && |vec| == c.dim && Inserted(s, s', c, id, vec)
    requires !s.trained && s'.trained && KMeans.Euclidean(c.dist)
    ensures exists st: Staging | IsStaging(st, c) && Staged(st, c) == Held(s, c)[id := vec] ::
              NoWorseThanSpread(s'.inverted.centroids, st.data, |st.ids|, c.dim, c.nlist, c.dist)
  {
    hide Held, ListsOk, WellPlaced;
    var m := Held(s, c)[id := vec];
    var st: Staging :| IsStaging(st, c) && st.ids != [] && Staged(st, c) == m && LearnedFrom(s'.inverted, st, c);
    KMeans.ClusteringImproves(s'.inverted.centroids, st.data, |st.ids|, c.dim, c.nlist, c.dist);
    assert NoWorseThanSpread(s'.inverted.centroids, st.data, |st.ids|, c.dim, c.nlist, c.dist);
  }

  ghost predicate AllFinite(m: Store) {
    forall id | id in m :: Finite(m[id])
  }

  /** Each component of `x` reads back within a 510th of the spread of that component over the map. */
  ghost predicate ReadsBackClose(m: Store, held: Store, dim: nat, x: VecId)
    requires Uniform(m, dim) && Uniform(held, dim) && x in m && x in held
  {
    forall j | 0 <= j < dim :: exists a, b | a in m && b in m :: 510.0 * Abs(held[x][j] - m[x][j]) <= m[a][j] - m[b][j]
  }

  lemma RowOf(st: Staging, c: Config, id: VecId) returns (i: nat)
    requires IsStaging(st, c) && id in Staged(st, c)
    ensures i < |st.ids| && st.ids[i] == id && Rows(st.data, c.dim, |st.ids|)[i] == Staged(st, c)[id]
  {
    i :| i < |st.ids| && st.ids[i] == id;
    StoreAt(st.ids, st.data, c.dim, i);
  }

  lemma RowsFinite(st: Staging, c: Config)
    requires IsStaging(st, c) && AllFinite(Staged(st, c))
    ensures AllRowsFinite(Rows(st.data, c.dim, |st.ids|))
  {
    hide Finite;
    var rows := Rows(st.data, c.dim, |st.ids|);
    forall i | 0 <= i < |rows| ensures Finite(rows[i]) {
      StoreAt(st.ids, st.data, c.dim, i);
      assert st.ids[i] in Staged(st, c).Keys;
    }
  }

  /** One component of one staged row, read back through the quantiser fitted to all rows. */
  lemma ComponentClose(st: Staging, c: Config, q: Quantizer, x: VecId, j: nat)
    requires IsStaging(st, c) && x in Staged(st, c) && j < c.dim
    requires FittedTo(q, Rows(st.data, c.dim, |st.ids|), c.dim)
    ensures var m := Staged(st, c);
            exists a, b | a in m && b in m :: 510.0 * Abs(Stored(Some(q), m[x])[j] - m[x][j]) <= m[a][j] - m[b][j]
  {
    hide FittedTo, Rows;
    var m, rows := Staged(st, c), Rows(st.data, c.dim, |st.ids|);
    var i := RowOf(st, c, x);
    assert WellFormed(q, c.dim) by { FittedIsWellFormed(q, rows, c.dim); }
    FittedErrorOfData(q, rows, c.dim, i, j);
    var a, b :| 0 <= a < |rows| && 0 <= b < |rows|
      && 510.0 * Abs(Decode(q, Encode(q, rows[i]))[j] - rows[i][j]) <= rows[a][j] - rows[b][j];
    StoreAt(st.ids, st.data, c.dim, a);
    StoreAt(st.ids, st.data, c.dim, b);
    assert st.ids[a] in m.Keys && st.ids[b] in m.Keys;
  }

  lemma FittedIsWellFormed(q: Quantizer, rows: seq<Vector>, dim: nat)
    requires (forall i | 0 <= i < |rows| :: |rows[i]| == dim) && FittedTo(q, rows, dim)
    ensures WellFormed(q, dim)
  {
  }

  lemma AllComponentsClose(st: Staging, c: Config, q: Quantizer, held: Store, x: VecId)
    requires IsStaging(st, c) && x in Staged(st, c) && FittedTo(q, Rows(st.data, c.dim, |st.ids|), c.dim)
    requires Uniform(held, c.dim) && x in held && WellFormed(q, c.dim) && held[x] == Stored(Some(q), Staged(st, c)[x])
    ensures ReadsBackClose(Staged(st, c), held, c.dim, x)
  {
    hide FittedTo, IsTable, Stored, Staged, Rows, Abs;
    var m := Staged(st, c);
    forall j | 0 <= j < c.dim
      ensures exists a, b | a in m && b in m :: 510.0 * Abs(held[x][j] - m[x][j]) <= m[a][j] - m[b][j]
    {
      ComponentClose(st, c, q, x, j);
    }
  }

  /** The insert that trains a quantised index leaves every vector inserted so far readable this closely. */
  lemma TrainingReadsBackClose(s: State, s': State, c: Config, id: VecId, vec: Vector, x: VecId)
    requires StateOk(s, c) && StateOk(s', c) && |vec| == c.dim && Inserted(s, s', c, id, vec)
    requires !s.trained && s'.trained && c.quantize && AllFinite(Held(s, c)[id := vec]) && x in Held(s, c)[id := vec]
    ensures x in Held(s', c) && ReadsBackClose(Held(s, c)[id := vec], Held(s', c), c.dim, x)
  {
    hide Held, ListsOk, WellPlaced, IsTable, Stored, Staged, Finite, ReadsBackClose, AllFinite, FittedTo,
      KMeans.FromKMeans;
    var m := Held(s, c)[id := vec];
    var st: Staging :| IsStaging(st, c) && st.ids != [] && Staged(st, c) == m && LearnedFrom(s'.inverted, st, c);
    RowsFinite(st, c);
    AllComponentsClose(st, c, s'.inverted.quantizer.value, Held(s', c), x);
  }
}
