/**
 * What every index stores, seen as one map from id to vector, and the operations and answers
 * that map determines. Each index is proved to compute these.
 */
module Contents {
  import opened Core
  import opened Slab
  import opened TopK

  type Store = map<VecId, Vector>

  function Lookup(m: Store, id: VecId): Option<Vector> {
    if id in m then Some(m[id]) else None
  }

  function With(m: Store, id: VecId, v: Vector): (r: Store)
    ensures r == m[id := v]
  {
    m[id := v]
  }

  function Without(m: Store, id: VecId): (r: Store)
    ensures r == m - {id}
  {
    map x | x in m && x != id :: m[x]
  }

  /** Every vector has the index's dimension. */
  ghost predicate Uniform(m: Store, dim: nat) {
    forall id | id in m :: |m[id]| == dim
  }

  /** One row of a batch. */
  type BatchRow = (VecId, Vector)

  ghost predicate AllFit(rows: seq<BatchRow>, dim: nat) {
    forall i | 0 <= i < |rows| :: |rows[i].1| == dim
  }

  /** Position of the first row of the wrong length. */
  function FirstMismatch(rows: seq<BatchRow>, dim: nat): (r: Option<nat>)
    ensures r.None? <==> AllFit(rows, dim)
    ensures r.Some? ==> r.value < |rows| && |rows[r.value].1| != dim && AllFit(rows[..r.value], dim)
  {
    if rows == [] then None
    else
      match FirstMismatch(rows[..|rows| - 1], dim)
      case Some(i) => assert rows[..|rows| - 1][..i] == rows[..i]; Some(i)
      case None =>
        assert forall i | 0 <= i < |rows| - 1 :: rows[i] == rows[..|rows| - 1][i];
        if |rows[|rows| - 1].1| != dim then Some(|rows| - 1) else None
  }

  /** The map after inserting a batch in order: the last row of an id wins. */
  function InsertAll(m: Store, rows: seq<BatchRow>): (r: Store)
    ensures r.Keys == m.Keys + set i | 0 <= i < |rows| :: rows[i].0
  {
    if rows == [] then m
    else InsertAll(m, rows[..|rows| - 1])[rows[|rows| - 1].0 := rows[|rows| - 1].1]
  }

  lemma InsertAllPush(m: Store, rows: seq<BatchRow>, id: VecId, v: Vector)
    ensures InsertAll(m, rows + [(id, v)]) == With(InsertAll(m, rows), id, v)
  {
    assert (rows + [(id, v)])[..|rows|] == rows;
  }

  lemma WithGrows(m: Store, id: VecId, v: Vector)
    requires id !in m
    ensures |With(m, id, v)| == |m| + 1
  {
    assert With(m, id, v).Keys == m.Keys + {id};
    assert |With(m, id, v)| == |With(m, id, v).Keys|;
  }

  /** Inserting two batches in turn is inserting their concatenation. */
  lemma {:induction false} InsertAllConcat(m: Store, a: seq<BatchRow>, b: seq<BatchRow>)
    ensures InsertAll(m, a + b) == InsertAll(InsertAll(m, a), b)
  {
    if b == [] {
      assert a + b == a;
    } else {
      InsertAllConcat(m, a, b[..|b| - 1]);
      assert (a + b)[..|a + b| - 1] == a + b[..|b| - 1];
    }
  }

  /** The scored entries of a map that pass the filter. */
  ghost function HitSet(m: Store, query: Vector, dist: Distance, filter: Filter): (s: set<Scored>)
    ensures forall x: Scored :: x in s <==> x.id in m && Passes(filter, x.id) && x.d == dist(query, m[x.id])
  {
    var s := set id | id in m && Passes(filter, id) :: Scored(dist(query, m[id]), id);
    assert forall x: Scored | x.id in m && Passes(filter, x.id) && x.d == dist(query, m[x.id]) ::
        x == Scored(dist(query, m[x.id]), x.id);
    s
  }

  ghost function MapHits(m: Store, query: Vector, dist: Distance, filter: Filter): Heap {
    multiset(HitSet(m, query, dist, filter))
  }

  /** The exact answer to a query: a sorted best-`k` choice among the stored, passing vectors. */
  ghost predicate Answers(results: seq<Scored>, m: Store, query: Vector, dist: Distance, filter: Filter, k: nat) {
    IsTopK(results, MapHits(m, query, dist, filter), k)
  }

  lemma MapHitsDisjointUnion(a: Store, b: Store, query: Vector, dist: Distance, filter: Filter)
    requires a.Keys !! b.Keys
    ensures MapHits(a + b, query, dist, filter) == MapHits(a, query, dist, filter) + MapHits(b, query, dist, filter)
  {
    var sa, sb := HitSet(a, query, dist, filter), HitSet(b, query, dist, filter);
    assert HitSet(a + b, query, dist, filter) == sa + sb;
    assert sa !! sb;
    assert multiset(sa + sb) == multiset(sa) + multiset(sb);
  }

  function Zip(ids: seq<VecId>, rows: seq<Vector>): (r: seq<Entry>)
    requires |ids| == |rows|
    ensures |r| == |ids|
  {
    if ids == [] then []
    else Zip(ids[..|ids| - 1], rows[..|ids| - 1]) + [Entry(ids[|ids| - 1], rows[|ids| - 1])]
  }

  /** Adding one entry to a map adds its score to the hits, if it passes. */
  lemma MapHitsInsert(m: Store, id: VecId, vec: Vector, query: Vector, dist: Distance, filter: Filter)
    requires id !in m
    ensures MapHits(m[id := vec], query, dist, filter)
         == MapHits(m, query, dist, filter)
            + RowHits(Entry(id, vec), query, dist, filter)
  {
    var before, after := HitSet(m, query, dist, filter), HitSet(m[id := vec], query, dist, filter);
    if Passes(filter, id) {
      var x := Scored(dist(query, vec), id);
      assert after == before + {x};
      assert multiset(before + {x}) == multiset(before) + multiset{x};
    } else {
      assert after == before;
    }
  }

  /** Scanning a table hits exactly what its map holds. */
  lemma {:induction false} ScanHits(ids: seq<VecId>, rows: seq<Vector>, query: Vector, dist: Distance, filter: Filter)
    requires |ids| == |rows| && Distinct(ids)
    ensures Hits(Zip(ids, rows), query, dist, filter) == MapHits(Table(ids, rows), query, dist, filter)
  {
    if ids == [] {
      assert Table(ids, rows) == map[];
      assert HitSet(map[], query, dist, filter) == {};
    } else {
      var n := |ids| - 1;
      ScanHits(ids[..n], rows[..n], query, dist, filter);
      MapHitsInsert(Table(ids[..n], rows[..n]), ids[n], rows[n], query, dist, filter);
      var zip := Zip(ids, rows);
      assert zip[..n] == Zip(ids[..n], rows[..n]);
      assert zip[n] == Entry(ids[n], rows[n]);
    }
  }

  /** Rows split into one group each. */
  function Singletons(rows: seq<Entry>): (groups: seq<seq<Entry>>)
    ensures |groups| == |rows|
  {
    if rows == [] then [] else Singletons(rows[..|rows| - 1]) + [[rows[|rows| - 1]]]
  }

  lemma {:induction false} SingletonGroups(rows: seq<Entry>, query: Vector, dist: Distance, filter: Filter)
    ensures GroupHits(Singletons(rows), query, dist, filter) == Hits(rows, query, dist, filter)
  {
    if rows != [] {
      var n := |rows| - 1;
      SingletonGroups(rows[..n], query, dist, filter);
      var groups := Singletons(rows);
      assert groups[..n] == Singletons(rows[..n]);
      SingleHits(rows[n], query, dist, filter);
    }
  }

  lemma SingleHits(row: Entry, query: Vector, dist: Distance, filter: Filter)
    ensures Hits([row], query, dist, filter)
         == RowHits(row, query, dist, filter)
  {
    assert [row][..0] == [];
  }

  // --- A slab of rows as a map -------------------------------------------------------

  /** `ids` are distinct and `data` holds one row of `dim` components for each. */
  ghost predicate IsTable<T>(ids: seq<VecId>, data: seq<T>, dim: nat) {
    Distinct(ids) && |data| == Offset(|ids|, dim)
  }

  ghost function StoreOf<T>(ids: seq<VecId>, data: seq<T>, dim: nat): (m: map<VecId, seq<T>>)
    requires IsTable(ids, data, dim)
    ensures m.Keys == Elements(ids) && forall id | id in m :: |m[id]| == dim
  {
    TableUniform(ids, Rows(data, dim, |ids|), dim);
    Table(ids, Rows(data, dim, |ids|))
  }

  lemma {:induction false} TableUniform<T>(ids: seq<VecId>, rows: seq<seq<T>>, dim: nat)
    requires |ids| == |rows| && forall i | 0 <= i < |rows| :: |rows[i]| == dim
    ensures forall id | id in Table(ids, rows) :: |Table(ids, rows)[id]| == dim
  {
    if ids != [] { TableUniform(ids[..|ids| - 1], rows[..|ids| - 1], dim); }
  }

  lemma StoreAt<T>(ids: seq<VecId>, data: seq<T>, dim: nat, p: nat)
    requires IsTable(ids, data, dim) && p < |ids|
    ensures Offset(p + 1, dim) <= |data| && StoreOf(ids, data, dim)[ids[p]] == Row(data, dim, p)
  {
    RowBounds(|ids|, dim, p);
    TableAt(ids, Rows(data, dim, |ids|), p);
  }

  lemma StorePush<T>(ids: seq<VecId>, data: seq<T>, dim: nat, id: VecId, vec: seq<T>)
    requires IsTable(ids, data, dim) && id !in ids && |vec| == dim
    ensures IsTable(ids + [id], data + vec, dim)
    ensures StoreOf(ids + [id], data + vec, dim) == StoreOf(ids, data, dim)[id := vec]
  {
    RowsAppend(data, dim, |ids|, vec);
    TablePush(ids, Rows(data, dim, |ids|), id, vec);
  }

  lemma StoreOverwrite<T>(ids: seq<VecId>, data: seq<T>, dim: nat, p: nat, vec: seq<T>)
    requires IsTable(ids, data, dim) && p < |ids| && |vec| == dim
    ensures Offset(p + 1, dim) <= |data| && IsTable(ids, Overwrite(data, dim, p, vec), dim)
    ensures StoreOf(ids, Overwrite(data, dim, p, vec), dim) == StoreOf(ids, data, dim)[ids[p] := vec]
  {
    RowBounds(|ids|, dim, p);
    RowsOverwrite(data, dim, |ids|, p, vec);
    TableOverwrite(ids, Rows(data, dim, |ids|), p, vec);
  }

  lemma StoreSwapRemove<T>(ids: seq<VecId>, data: seq<T>, dim: nat, p: nat)
    requires IsTable(ids, data, dim) && p < |ids|
    ensures IsTable(SwapRemove(ids, p), SwapRemoveRow(data, dim, |ids|, p), dim)
    ensures StoreOf(SwapRemove(ids, p), SwapRemoveRow(data, dim, |ids|, p), dim) == StoreOf(ids, data, dim) - {ids[p]}
  {
    var rows := Rows(data, dim, |ids|);
    TableSwapRemove(ids, rows, p);
    RowsSwapRemove(data, dim, |ids|, p);
    var ids', data' := SwapRemove(ids, p), SwapRemoveRow(data, dim, |ids|, p);
    assert Rows(data', dim, |ids'|) == SwapRemove(rows, p);
  }

  /** The rows of a slab paired with their ids. */
  function Entries(ids: seq<VecId>, data: seq<real>, dim: nat): (r: seq<Entry>)
    requires |data| == Offset(|ids|, dim)
  {
    Zip(ids, Rows(data, dim, |ids|))
  }

  lemma StoreHits(ids: seq<VecId>, data: seq<real>, dim: nat, query: Vector, dist: Distance, filter: Filter)
    requires IsTable(ids, data, dim)
    ensures Hits(Entries(ids, data, dim), query, dist, filter) == MapHits(StoreOf(ids, data, dim), query, dist, filter)
  {
    ScanHits(ids, Rows(data, dim, |ids|), query, dist, filter);
  }

  /** The same, with every row its own unit of parallel work. */
  lemma StoreGroupHits(ids: seq<VecId>, data: seq<real>, dim: nat, query: Vector, dist: Distance, filter: Filter)
    requires IsTable(ids, data, dim)
    ensures GroupHits(Singletons(Entries(ids, data, dim)), query, dist, filter)
         == MapHits(StoreOf(ids, data, dim), query, dist, filter)
  {
    StoreHits(ids, data, dim, query, dist, filter);
    SingletonGroups(Entries(ids, data, dim), query, dist, filter);
  }

  /** With no candidates, or none wanted, the empty answer is exact. */
  lemma EmptyAnswers(m: Store, query: Vector, dist: Distance, filter: Filter, k: nat)
    requires k == 0 || m == map[]
    ensures Answers([], m, query, dist, filter, k)
  {
    if m == map[] {
      assert HitSet(m, query, dist, filter) == {};
    }
  }

  /** A table has as many ids as its map. */
  lemma StoreSize<T>(ids: seq<VecId>, data: seq<T>, dim: nat)
    requires IsTable(ids, data, dim)
    ensures |StoreOf(ids, data, dim)| == |ids|
  {
    DistinctCardinality(ids);
    assert |StoreOf(ids, data, dim)| == |StoreOf(ids, data, dim).Keys|;
  }

  /** Two exact answers to one query carry the same scores. */
  lemma AnswersAgree(r1: seq<Scored>, r2: seq<Scored>, m: Store, query: Vector, dist: Distance, filter: Filter, k: nat)
    requires Answers(r1, m, query, dist, filter, k) && Answers(r2, m, query, dist, filter, k)
    ensures |r1| == |r2|
    ensures forall i | 0 <= i < |r1| :: r1[i].d == r2[i].d
  {
    TopKScoresAgree(r1, r2, MapHits(m, query, dist, filter), k);
  }
}
