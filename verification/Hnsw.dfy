/** The HNSW index: the operations of the index trait over the graph, searches and the compaction capture. */
module Hnsw {
  import opened Core
  import opened Slab
  import opened TopK
  import opened Contents
  import opened Beam
  import opened HnswGraph
  import opened HnswPlan
  import opened HnswCommit
  import opened HnswBuild
  import opened HnswLinks

  // --- Tombstones ------------------------------------------------------------------------------------

  /** `entry` is the newest node whose id is live, if any. */
  ghost predicate IsLastLive(nodes: seq<Node>, deleted: set<VecId>, entry: Option<nat>) {
    match entry
    case None => forall i | 0 <= i < |nodes| :: nodes[i].id in deleted
    case Some(e) => e < |nodes| && nodes[e].id !in deleted && forall i | e < i < |nodes| :: nodes[i].id in deleted
  }

  /** Deleting live `id`: a tombstone, and a new entry point if the old one had this id. */
  ghost predicate Tombstoned(g: Graph, id: VecId, g': Graph)
    requires g.entry.Some? ==> g.entry.value < |g.nodes|
  {
    && g'.nodes == g.nodes && g'.data == g.data && g'.idToNode == g.idToNode && g'.deleted == g.deleted + {id}
    && if g.entry.Some? && g.nodes[g.entry.value].id == id then
         && IsLastLive(g'.nodes, g'.deleted, g'.entry)
         && g'.maxLevel == (if g'.entry.Some? then |g'.nodes[g'.entry.value].layers| - 1 else 0)
       else g'.entry == g.entry && g'.maxLevel == g.maxLevel
  }

  method LastLive(nodes: seq<Node>, deleted: set<VecId>) returns (entry: Option<nat>)
    ensures IsLastLive(nodes, deleted, entry)
  {
    var i: nat := |nodes|;
    while i > 0
      invariant i <= |nodes| && forall j | i <= j < |nodes| :: nodes[j].id in deleted
    {
      i := i - 1;
      if nodes[i].id !in deleted {
        return Some(i);
      }
    }
    return None;
  }

  lemma TombstoneKeepsEntry(g: Graph, p: Params, id: VecId, g': Graph)
    requires GraphOk(g, p) && id in g.idToNode && id !in g.deleted && Tombstoned(g, id, g')
    ensures EntryOk(g')
  {
    hide Rows;
    assert Newest(g.nodes, id, g.idToNode[id]);
    if g.nodes[g.entry.value].id == id {
      if g'.entry.None? {
        forall x | x in g.idToNode ensures x in g'.deleted { assert Newest(g.nodes, x, g.idToNode[x]); }
        assert g'.idToNode.Keys == g'.deleted;
      } else {
        assert NodeFits(g.nodes, p, g'.entry.value);
        assert g.nodes[g'.entry.value].id in g.idToNode.Keys - g'.deleted;
      }
    } else {
      assert g.nodes[g.entry.value].id in g.idToNode.Keys - g'.deleted;
    }
  }

  /** A tombstone keeps the graph invariant and removes the id from the map. */
  lemma TombstoneIsDelete(g: Graph, p: Params, id: VecId, g': Graph)
    requires GraphOk(g, p) && id in g.idToNode && id !in g.deleted && Tombstoned(g, id, g')
    ensures GraphOk(g', p) && Live(g', p) == Live(g, p) - {id}
  {
    hide EdgesOk, EntryOk, Rows, IsLastLive;
    TombstoneKeepsEntry(g, p, id, g');
    LiveAfterDelete(g, p, id, g');
  }

  lemma LiveAfterDelete(g: Graph, p: Params, id: VecId, g': Graph)
    requires |g.data| == Offset(|g.nodes|, p.dim) && IdsOk(g) && |g'.data| == Offset(|g'.nodes|, p.dim) && IdsOk(g')
    requires g'.nodes == g.nodes && g'.data == g.data && g'.idToNode == g.idToNode && g'.deleted == g.deleted + {id}
    ensures Live(g', p) == Live(g, p) - {id}
  {
    hide Rows;
    forall x | x in Live(g', p) ensures Live(g', p)[x] == Live(g, p)[x] { }
  }

  // --- Searching -------------------------------------------------------------------------------------

  /** The entry node `i` contributes to the results, if its id is live and passes the filter. */
  predicate Admitted(g: Graph, filter: Filter, i: nat) {
    i < |g.nodes| && g.nodes[i].id !in g.deleted && Passes(filter, g.nodes[i].id)
  }

  ghost function Reporters(g: Graph, x: Walk, filter: Filter, found: set<nat>, r: Scored): set<nat> {
    set i | i in found && Admitted(g, filter, i) && r == Scored(x.Score(i), g.nodes[i].id)
  }

  /** `all` lists each admitted node of `found` once, by id and score. */
  ghost predicate IsReport(g: Graph, x: Walk, filter: Filter, found: set<nat>, all: Heap) {
    forall r :: all[r] == |Reporters(g, x, filter, found, r)|
  }

  /** What a search of a non-empty index returns. */
  ghost predicate IsSearch(g: Graph, p: Params, query: Vector, k: nat, filter: Filter, results: seq<Scored>, mid: nat,
                           found: set<nat>, all: Heap, unwrapped: bool)
    requires |g.data| == Offset(|g.nodes|, p.dim) && g.entry.Some?
  {
    && Descends(g, p, query, g.entry.value, g.maxLevel, 0, mid, unwrapped)
    && Searched(g, p, query, 0, mid, Max(p.efSearch, k), found, unwrapped)
    && IsReport(g, LayerWalk(g, p, query, 0), filter, found, all)
    && IsTopK(results, all, k)
  }

  function Max(a: nat, b: nat): (m: nat)
    ensures m >= a && m >= b
  {
    if a < b then b else a
  }

  /** One more found node adds its entry to the report, if admitted. */
  lemma ReportOne(g: Graph, x: Walk, filter: Filter, found: set<nat>, all: Heap, i: nat)
    requires IsReport(g, x, filter, found, all) && i !in found
    ensures IsReport(g, x, filter, found + {i},
              if Admitted(g, filter, i) then all + multiset{Scored(x.Score(i), g.nodes[i].id)} else all)
  {
    var all' := if Admitted(g, filter, i) then all + multiset{Scored(x.Score(i), g.nodes[i].id)} else all;
    forall r ensures all'[r] == |Reporters(g, x, filter, found + {i}, r)| {
      var before, after := Reporters(g, x, filter, found, r), Reporters(g, x, filter, found + {i}, r);
      if Admitted(g, filter, i) && r == Scored(x.Score(i), g.nodes[i].id) {
        assert after == before + {i};
      } else {
        assert after == before;
      }
    }
  }

  /** Map the beam's result heap to scored ids, dropping tombstones and filtered ids. */
  method Collect(g: Graph, x: Walk, filter: Filter, w: Heap, ghost found: set<nat>) returns (all: Heap)
    requires w == x.HeapOf(found)
    ensures IsReport(g, x, filter, found, all)
  {
    hide IsReport;
    all := multiset{};
    var left := w;
    ghost var done: set<nat> := {};
    EmptyReport(g, x, filter);
    while |left| > 0
      invariant done <= found && left == x.HeapOf(found - done) && IsReport(g, x, filter, done, all)
      decreases |left|
    {
      var e :| e in left;
      x.HeapDrop(found - done, e.id);
      ReportOne(g, x, filter, done, all, e.id);
      if Admitted(g, filter, e.id) {
        all := all + multiset{Scored(e.d, g.nodes[e.id].id)};
      }
      assert found - done - {e.id} == found - (done + {e.id});
      left, done := left - multiset{e}, done + {e.id};
    }
    assert done == found;
  }

  lemma EmptyReport(g: Graph, x: Walk, filter: Filter)
    ensures IsReport(g, x, filter, {}, multiset{})
  {
    forall r ensures |Reporters(g, x, filter, {}, r)| == 0 {
      assert Reporters(g, x, filter, {}, r) == {};
    }
  }

  /** `sort_by` score, then `truncate(k)`. */
  method SortAndTruncate(all: Heap, k: nat) returns (results: seq<Scored>)
    ensures IsTopK(results, all, k)
  {
    var sorted := SortedResults(all);
    results := sorted[..Min(k, |sorted|)];
    TruncatedIsBest(sorted, all, k);
  }

  lemma TruncatedIsBest(sorted: seq<Scored>, all: Heap, k: nat)
    requires multiset(sorted) == all && Sorted(sorted)
    ensures IsTopK(sorted[..Min(k, |sorted|)], all, k)
  {
    hide Sorted;
    var n := Min(k, |sorted|);
    var kept, cut := sorted[..n], sorted[n..];
    SortedPrefix(sorted, n);
    assert sorted == kept + cut;
    assert all - multiset(kept) == multiset(cut);
    forall x: Scored, y: Scored | x in multiset(kept) && y in multiset(cut) ensures x.d <= y.d {
      SortedAcross(kept, cut, x, y);
    }
  }

  lemma SortedPrefix(s: seq<Scored>, n: nat)
    requires Sorted(s) && n <= |s|
    ensures Sorted(s[..n])
  {
  }

  lemma SortedAcross(kept: seq<Scored>, cut: seq<Scored>, x: Scored, y: Scored)
    requires Sorted(kept + cut) && x in multiset(kept) && y in multiset(cut)
    ensures x.d <= y.d
  {
    var i :| 0 <= i < |kept| && kept[i] == x;
    var j :| 0 <= j < |cut| && cut[j] == y;
    assert (kept + cut)[i] == x && (kept + cut)[|kept| + j] == y;
  }

  /**
   * If what layer 0 reaches from the descended entry is no more than `efSearch`, or than `k`, the search finds
   * exactly that, however small the other is.
   */
  lemma WideSearchIsExact(g: Graph, p: Params, query: Vector, k: nat, filter: Filter, results: seq<Scored>, mid: nat,
                          found: set<nat>, all: Heap, reachable: set<nat>)
    requires |g.data| == Offset(|g.nodes|, p.dim) && g.entry.Some?
    requires IsSearch(g, p, query, k, filter, results, mid, found, all, true)
    requires forall v :: v in reachable <==> LayerWalk(g, p, query, 0).Reaches(mid, v)
    requires p.efSearch >= |reachable| || k >= |reachable|
    ensures IsReport(g, LayerWalk(g, p, query, 0), filter, reachable, all) && IsTopK(results, all, k)
  {
    hide IsReport, IsTopK, Descends;
    var x := LayerWalk(g, p, query, 0);
    var visited, stale :| x.IsBeam(mid, Max(p.efSearch, k), found, visited, stale) && stale == {};
    x.WideBeamIsExact(mid, Max(p.efSearch, k), found, visited, reachable);
  }

  // --- Capturing live vectors -------------------------------------------------------------------------

  /** Node `i` is what its id currently stands for. */
  predicate Canonical(g: Graph, i: nat) {
    i < |g.nodes| && g.nodes[i].id in g.idToNode && g.idToNode[g.nodes[i].id] == i && g.nodes[i].id !in g.deleted
  }

  /** The live part of the first `n` nodes. */
  ghost function LiveUpTo(g: Graph, p: Params, n: nat): (m: Store)
    requires |g.data| == Offset(|g.nodes|, p.dim) && IdsOk(g)
  {
    map id | id in Live(g, p) && g.idToNode[id] < n :: Live(g, p)[id]
  }

  lemma CaptureOne(g: Graph, p: Params, n: nat)
    requires |g.data| == Offset(|g.nodes|, p.dim) && IdsOk(g) && n < |g.nodes|
    ensures g.nodes[n].id !in LiveUpTo(g, p, n) || !Canonical(g, n)
    ensures LiveUpTo(g, p, n + 1)
         == if Canonical(g, n) then With(LiveUpTo(g, p, n), g.nodes[n].id, Rows(g.data, p.dim, |g.nodes|)[n])
                                     else LiveUpTo(g, p, n)
  {
    hide Rows;
    forall id | id in Live(g, p) && g.idToNode[id] == n ensures Canonical(g, n) && g.nodes[n].id == id {
      assert Newest(g.nodes, id, g.idToNode[id]);
    }
  }

  /** Rows with distinct ids that insert into nothing as `m`. */
  ghost predicate Captures(rows: seq<BatchRow>, m: Store) {
    InsertAll(map[], rows) == m && |rows| == |m|
  }

  lemma CapturesPush(rows: seq<BatchRow>, m: Store, id: VecId, v: Vector)
    requires Captures(rows, m) && id !in m
    ensures Captures(rows + [(id, v)], With(m, id, v))
  {
    hide InsertAll, With;
    InsertAllPush(map[], rows, id, v);
    WithGrows(m, id, v);
  }

  /** Live vectors in node order, one canonical node per id. */
  method LiveRows(g: Graph, p: Params) returns (rows: seq<BatchRow>)
    requires |g.data| == Offset(|g.nodes|, p.dim) && IdsOk(g)
    ensures Captures(rows, Live(g, p)) && AllFit(rows, p.dim)
  {
    hide Rows, IdsOk, LiveUpTo, With, Captures;
    var vecs := Rows(g.data, p.dim, |g.nodes|);
    rows := [];
    NoneCaptured(g, p);
    for i := 0 to |g.nodes|
      invariant Captures(rows, LiveUpTo(g, p, i)) && AllFit(rows, p.dim)
    {
      CaptureOne(g, p, i);
      if g.nodes[i].id in g.idToNode && g.idToNode[g.nodes[i].id] == i && g.nodes[i].id !in g.deleted {
        CapturesPush(rows, LiveUpTo(g, p, i), g.nodes[i].id, vecs[i]);
        rows := rows + [(g.nodes[i].id, vecs[i])];
      }
    }
    AllCaptured(g, p);
  }

  lemma NoneCaptured(g: Graph, p: Params)
    requires |g.data| == Offset(|g.nodes|, p.dim) && IdsOk(g)
    ensures Captures([], LiveUpTo(g, p, 0))
  {
    hide Rows;
    assert LiveUpTo(g, p, 0) == map[];
  }

  lemma AllCaptured(g: Graph, p: Params)
    requires |g.data| == Offset(|g.nodes|, p.dim) && IdsOk(g)
    ensures LiveUpTo(g, p, |g.nodes|) == Live(g, p)
  {
    forall id | id in Live(g, p) ensures g.idToNode[id] < |g.nodes| {
      assert Newest(g.nodes, id, g.idToNode[id]);
    }
  }

  // --- The index ----------------------------------------------------------------------------------------

  lemma LiveSize(g: Graph, p: Params)
    requires GraphOk(g, p)
    ensures |Live(g, p)| == |g.idToNode| - |g.deleted|
  {
    assert |g.idToNode| == |g.idToNode.Keys|;
    assert |g.idToNode.Keys - g.deleted| == |g.idToNode.Keys| - |g.deleted|;
    assert |Live(g, p)| == |Live(g, p).Keys|;
  }

  /** Distinct ids need distinct nodes. */
  lemma NodesCoverIds(g: Graph, p: Params)
    requires GraphOk(g, p)
    ensures |Live(g, p)| <= |g.nodes|
  {
    hide EdgesOk, EntryOk, Rows, Newest, NodesOf;
    var ids := Live(g, p).Keys;
    assert |Live(g, p)| == |ids|;
    NodesOfFacts(g, ids);
    BelowSize(|g.nodes|);
    SubsetIsSmaller(NodesOf(g, ids), Below(|g.nodes|));
  }

  lemma {:induction false} NewestInjective(g: Graph, ids: set<VecId>)
    requires IdsOk(g) && ids <= g.idToNode.Keys
    ensures |NodesOf(g, ids)| == |ids|
  {
    var nodes := NodesOf(g, ids);
    if ids == {} {
      assert nodes == {};
    } else {
      var id :| id in ids;
      NewestInjective(g, ids - {id});
      assert nodes == NodesOf(g, ids - {id}) + {g.idToNode[id]};
      assert Newest(g.nodes, id, g.idToNode[id]);
      forall x | x in ids - {id} ensures g.idToNode[x] != g.idToNode[id] {
        assert Newest(g.nodes, x, g.idToNode[x]);
      }
    }
  }

  // --- Exactness on a graph without dead nodes -----------------------------------------------------------

  /** The nodes a set of ids currently stands for. */
  ghost function NodesOf(g: Graph, ids: set<VecId>): set<nat>
    requires ids <= g.idToNode.Keys
  {
    set id | id in ids :: g.idToNode[id]
  }

  lemma NodesOfFacts(g: Graph, ids: set<VecId>)
    requires IdsOk(g) && ids <= g.idToNode.Keys
    ensures |NodesOf(g, ids)| == |ids| && NodesOf(g, ids) <= Below(|g.nodes|)
  {
    NewestInjective(g, ids);
    forall n | n in NodesOf(g, ids) ensures n in Below(|g.nodes|) {
      var id :| id in ids && g.idToNode[id] == n;
      assert Newest(g.nodes, id, g.idToNode[id]);
    }
  }

  /** As many nodes as live ids: every node is what its id stands for. */
  lemma NoDeadNodes(g: Graph, p: Params, i: nat)
    requires GraphOk(g, p) && |g.nodes| == |Live(g, p)| && i < |g.nodes|
    ensures Canonical(g, i)
  {
    hide EdgesOk, EntryOk, Rows, Newest;
    var ids := Live(g, p).Keys;
    assert |Live(g, p)| == |ids|;
    NodesOfFacts(g, ids);
    BelowSize(|g.nodes|);
    SubsetOfSameSize(NodesOf(g, ids), Below(|g.nodes|));
    NodeOfId(g, ids, i);
  }

  lemma NodeOfId(g: Graph, ids: set<VecId>, i: nat)
    requires IdsOk(g) && ids <= g.idToNode.Keys - g.deleted && i in NodesOf(g, ids)
    ensures Canonical(g, i)
  {
    var id :| id in ids && g.idToNode[id] == i;
    assert Newest(g.nodes, id, g.idToNode[id]);
  }

  lemma {:induction false} BelowSize(n: nat)
    ensures |Below(n)| == n
  {
    if n > 0 { BelowSize(n - 1); }
  }

  /** Without dead nodes, reporting every node is scoring the map. */
  lemma FullReportIsMapHits(g: Graph, p: Params, query: Vector, filter: Filter, all: Heap)
    requires GraphOk(g, p) && |g.nodes| == |Live(g, p)|
    requires IsReport(g, LayerWalk(g, p, query, 0), filter, Below(|g.nodes|), all)
    ensures all == MapHits(Live(g, p), query, p.dist, filter)
  {
    hide EdgesOk, EntryOk, Reporters, HitSet, IdsOk;
    var x := LayerWalk(g, p, query, 0);
    var hits := HitSet(Live(g, p), query, p.dist, filter);
    forall r ensures all[r] == multiset(hits)[r] {
      ReportersOfHit(g, p, query, filter, r);
    }
  }

  lemma NewestOf(g: Graph, id: VecId)
    requires IdsOk(g) && id in g.idToNode
    ensures Newest(g.nodes, id, g.idToNode[id])
  {
  }

  lemma ReportersOfHit(g: Graph, p: Params, query: Vector, filter: Filter, r: Scored)
    requires GraphOk(g, p) && |g.nodes| == |Live(g, p)|
    ensures |Reporters(g, LayerWalk(g, p, query, 0), filter, Below(|g.nodes|), r)|
         == if r in HitSet(Live(g, p), query, p.dist, filter) then 1 else 0
  {
    hide EdgesOk, EntryOk, Rows, HitSet, IdsOk;
    var x := LayerWalk(g, p, query, 0);
    var s := Reporters(g, x, filter, Below(|g.nodes|), r);
    forall i | i in s ensures r in HitSet(Live(g, p), query, p.dist, filter) && i == g.idToNode[r.id] {
      NoDeadNodes(g, p, i);
    }
    if r in HitSet(Live(g, p), query, p.dist, filter) {
      var i := g.idToNode[r.id];
      NewestOf(g, r.id);
      assert s == {i};
    } else {
      assert s == {};
    }
  }

  /**
   * After a rebuild, with layer 0 reachable from the descended entry and a beam as wide as the graph, the
   * approximate search gives the exact answer, the one brute force gives.
   */
  lemma WideSearchOnCleanGraph(g: Graph, p: Params, query: Vector, k: nat, filter: Filter, results: seq<Scored>,
                               mid: nat,
                               found: set<nat>, all: Heap)
    requires GraphOk(g, p) && g.entry.Some? && |g.nodes| == |Live(g, p)|
    requires IsSearch(g, p, query, k, filter, results, mid, found, all, true)
    requires forall v: nat :: v < |g.nodes| <==> LayerWalk(g, p, query, 0).Reaches(mid, v)
    requires p.efSearch >= |g.nodes| || k >= |g.nodes|
    ensures Answers(results, Live(g, p), query, p.dist, filter, k)
  {
    hide IsTopK, Descends, GraphOk, Searched, IsReport;
    BelowSize(|g.nodes|);
    assert |g.data| == Offset(|g.nodes|, p.dim) by { CleanParts(g, p); }
    WideSearchIsExact(g, p, query, k, filter, results, mid, found, all, Below(|g.nodes|));
    FullReportIsMapHits(g, p, query, filter, all);
  }

  lemma CleanParts(g: Graph, p: Params)
    requires GraphOk(g, p)
    ensures |g.data| == Offset(|g.nodes|, p.dim)
  {
  }

  class HnswIndex {
    const params: Params
    var g: Graph

    ghost predicate Valid()
      reads this
    {
      GraphOk(g, params)
    }

    /** The id-to-vector map this index stands for. */
    ghost function Contents(): (m: Store)
      requires Valid()
      reads this
      ensures Uniform(m, params.dim)
    {
      Live(g, params)
    }

    constructor (params: Params)
      requires params.Ok()
      ensures Valid() && this.params == params && g == EMPTY_GRAPH && Contents() == map[]
    {
      this.params, g := params, EMPTY_GRAPH;
    }

    /** `new(..)` followed by `with_heuristic(..)`. */
    static method Create(params: Params) returns (r: Result<HnswIndex>)
      ensures r.Ok? <==> && params.dim > 0 && params.m >= 2
                         && params.efConstruction >= params.m && params.efSearch >= 1
      ensures r.Ok? ==> fresh(r.value) && r.value.Valid() && r.value.params == params && r.value.g == EMPTY_GRAPH
      ensures r.Err? ==> r == Err(InvalidArgument)
    {
      if !params.Ok() {
        return Err(InvalidArgument);
      }
      var index := new HnswIndex(params);
      r := Ok(index);
    }

    method Get(id: VecId) returns (r: Option<Vector>)
      requires Valid()
      ensures r == Lookup(Contents(), id)
    {
      if id in g.deleted || id !in g.idToNode {
        return None;
      }
      assert Newest(g.nodes, id, g.idToNode[id]);
      RowBounds(|g.nodes|, params.dim, g.idToNode[id]);
      r := Some(Row(g.data, params.dim, g.idToNode[id]));
    }

    /**
     * A new node at the level drawn for it, capped, and planned on the current graph; the id's older node, if
     * any, stays behind as a ghost.
     */
    method Insert(scratch: VisitStamps, drawn: nat, id: VecId, vec: Vector)
      returns (r: Result<()>, ghost plan: InsertionPlan)
      requires Valid()
      modifies this, scratch
      ensures Valid()
      ensures |vec| != params.dim ==> r == Err(DimMismatch(params.dim, |vec|)) && g == old(g)
      ensures |vec| == params.dim ==> r == Ok(()) && Contents() == old(Contents())[id := vec]
      ensures |vec| == params.dim ==>
                && plan.id == id && plan.vector == vec && PlanFits(old(g).nodes, params, plan)
                && IsPlan(old(g), params, plan, old(Room(scratch)) > MAX_LEVEL) && Committed(old(g), params, plan, g)
      ensures |vec| == params.dim ==>
                && |g.nodes| == |old(g).nodes| + 1
                && |g.nodes[|old(g).nodes|].layers| == 1 + Min(drawn, 16)
                && LinksStay(old(g).nodes, g.nodes)
                && (old(Contents()) != map[] ==> HasLinks(g.nodes, |old(g).nodes|))
      ensures Room(scratch) + MAX_LEVEL + 1 >= old(Room(scratch))
    {
      hide EdgesOk, IdsOk, EntryOk, Committed, IsPlan, PlanFits, Live, LinksStay, HasLinks;
      plan := InsertionPlan(id, vec, 0, []);
      if |vec| != params.dim {
        return Err(DimMismatch(params.dim, |vec|)), plan;
      }
      LevelBound(g, params);
      ghost var unwrapped := Room(scratch) > MAX_LEVEL;
      var planned := PlanInsert(scratch, g, params, id, vec, Min(drawn, MAX_LEVEL), unwrapped);
      PlanSize(g.nodes, params, planned);
      plan := planned;
      var g' := Commit(g, params, planned);
      CommitIsInsert(g, params, plan, g');
      InsertLinks(g, params, plan, g', unwrapped);
      CommitGrows(g, params, plan, g');
      EmptyWithoutEntry(g, params);
      g := g';
      r := Ok(());
    }

    /** `build_from_vecs`: all rows are checked before anything changes; then waves on the pool's threads. */
    method InsertBatch(threads: set<VisitStamps>, levels: nat -> nat, rows: seq<BatchRow>) returns (r: Result<()>)
      requires Valid() && threads != {}
      modifies this, threads
      ensures Valid()
      ensures var bad := FirstMismatch(rows, params.dim);
              if bad.Some? then r == Err(DimMismatch(params.dim, |rows[bad.value].1|)) && g == old(g)
              else r == Ok(()) && Contents() == InsertAll(old(Contents()), rows) && |g.nodes| == |old(g).nodes| + |rows|
      ensures r.Ok? ==> IsBatch(old(g), params, rows, |threads|, true, g, old(PoolRoom(threads, Searches(|rows|))))
      ensures r.Ok? ==>
                var from := |old(g).nodes| + if old(Contents()) == map[] then 1 else 0;
                BatchLeaves(old(g).nodes, g.nodes, |rows|, levels, from, |threads|)
      ensures forall t | t in threads :: Room(t) + Searches(|rows|) >= old(Room(t))
    {
      hide GraphOk, Live, IsBatch, BatchLeaves, Leveled, InsertAll, FirstMismatch;
      var bad := FirstMismatch(rows, params.dim);
      if bad.Some? {
        return Err(DimMismatch(params.dim, |rows[bad.value].1|));
      }
      ghost var unwrapped := PoolRoom(threads, Searches(|rows|));
      var g' := BuildWaves(threads, g, params, rows, levels, unwrapped);
      BatchResult(g, params, rows, levels, |threads|, g', unwrapped);
      g := g';
      r := Ok(());
    }

    /** A tombstone; the nodes stay as stepping stones. */
    method Delete(id: VecId) returns (existed: bool)
      requires Valid()
      modifies this
      ensures Valid()
      ensures existed <==> id in old(Contents())
      ensures Contents() == old(Contents()) - {id}
      ensures if existed then Tombstoned(old(g), id, g) else g == old(g)
      ensures existed && g.entry != old(g.entry) && g.entry.Some? ==>
                forall i | g.entry.value < i < |g.nodes| :: g.nodes[i].id !in Contents()
    {
      hide EdgesOk, IdsOk, Live, IsLastLive;
      if id !in g.idToNode || id in g.deleted {
        assert Contents() - {id} == Contents();
        return false;
      }
      var g' := g.(deleted := g.deleted + {id});
      if g.entry.Some? && g.nodes[g.entry.value].id == id {
        var entry := LastLive(g'.nodes, g'.deleted);
        LayersAt(g, params, entry);
        g' := g'.(entry := entry, maxLevel := if entry.Some? then |g.nodes[entry.value].layers| - 1 else 0);
      }
      TombstoneIsDelete(g, params, id, g');
      g := g';
      return true;
    }

    method Search(scratch: VisitStamps, query: Vector, k: nat, filter: Filter)
      returns (r: Result<seq<Scored>>, ghost mid: nat, ghost found: set<nat>, ghost all: Heap)
      requires Valid()
      modifies scratch
      ensures |query| != params.dim ==> r == Err(DimMismatch(params.dim, |query|))
      ensures |query| == params.dim && (k == 0 || Contents() == map[]) ==> r == Ok([])
      ensures |query| == params.dim && k > 0 && Contents() != map[] ==>
                && g.entry.Some? && r.Ok?
                && IsSearch(g, params, query, k, filter, r.value, mid, found, all, old(Room(scratch)) > MAX_LEVEL)
      ensures Room(scratch) + MAX_LEVEL + 1 >= old(Room(scratch))
    {
      hide EdgesOk, IdsOk, Descends, Searched, IsReport, IsTopK, Live;
      mid, found, all := 0, {}, multiset{};
      if |query| != params.dim {
        r := Err(DimMismatch(params.dim, |query|));
        return;
      }
      EmptyWithoutEntry(g, params);
      if k == 0 || g.entry.None? {
        r := Ok([]);
        return;
      }
      LevelBound(g, params);
      EntryHasLayer(g, params);
      ghost var unwrapped := Room(scratch) > MAX_LEVEL;
      var ep := Descend(scratch, g, params, query, g.entry.value, g.maxLevel, 0, unwrapped);
      var w, next;
      w, next, found := SearchFrom(scratch, g, params, query, 0, ep, Max(params.efSearch, k), unwrapped);
      var reported := Collect(g, LayerWalk(g, params, query, 0), filter, w, found);
      var results := SortAndTruncate(reported, k);
      mid, all := ep, reported;
      r := Ok(results);
    }

    method Len() returns (n: nat)
      requires Valid()
      ensures n == |Contents()|
    {
      LiveSize(g, params);
      n := |g.idToNode| - |g.deleted|;
    }

    method ListIds() returns (ids: seq<VecId>)
      requires Valid()
      ensures Distinct(ids) && Elements(ids) == Contents().Keys
    {
      ids := ListSet(g.idToNode.Keys - g.deleted);
    }

    /** The fraction of nodes that are tombstoned or superseded. */
    method TombstoneRatio() returns (r: real)
      requires Valid()
      ensures 0.0 <= r <= 1.0
      ensures r == 0.0 <==> |g.nodes| == |Contents()|
      ensures r == if |g.nodes| == 0 then 0.0 else (|g.nodes| - |Contents()|) as real / |g.nodes| as real
    {
      hide EdgesOk, IdsOk, EntryOk, Live;
      NodesCoverIds(g, params);
      if |g.nodes| == 0 {
        return 0.0;
      }
      var len := Len();
      r := DeadShare(|g.nodes|, len);
    }

    /** What a rebuild needs: the parameters are the index's own. */
    method PrepareCompaction() returns (rows: seq<BatchRow>)
      requires Valid()
      ensures Captures(rows, Contents()) && AllFit(rows, params.dim)
    {
      rows := LiveRows(g, params);
    }

    /** `compact`: capture and rebuild in one go. */
    method Compact(threads: set<VisitStamps>, levels: nat -> nat) returns (rebuilt: HnswIndex)
      requires Valid() && threads != {}
      modifies threads
      ensures fresh(rebuilt) && rebuilt.Valid() && rebuilt.params == params
      ensures rebuilt.Contents() == Contents() && |rebuilt.g.nodes| == |Contents()|
      ensures BatchLeaves([], rebuilt.g.nodes, |Contents()|, levels, 1, |threads|)
      ensures forall t | t in threads :: Room(t) + Searches(|Contents()|) >= old(Room(t))
    {
      var rows := PrepareCompaction();
      rebuilt := Rebuild(threads, levels, params, rows, Contents());
    }
  }

  function DeadShare(nodes: nat, len: nat): (r: real)
    requires nodes > 0
    ensures len <= nodes ==> 0.0 <= r <= 1.0 && (r == 0.0 <==> nodes == len)
  {
    (nodes - len) as real / nodes as real
  }

  /** `PreparedIndexCompaction::build`: a fresh index holding exactly the captured map, with no dead node. */
  method Rebuild(threads: set<VisitStamps>, levels: nat -> nat, params: Params, rows: seq<BatchRow>,
                 ghost captured: Store) returns (rebuilt: HnswIndex)
    requires params.Ok() && threads != {} && Captures(rows, captured) && AllFit(rows, params.dim)
    modifies threads
    ensures fresh(rebuilt) && rebuilt.Valid() && rebuilt.params == params
    ensures rebuilt.Contents() == captured && |rebuilt.g.nodes| == |captured|
    ensures BatchLeaves([], rebuilt.g.nodes, |captured|, levels, 1, |threads|)
    ensures IsBatch(EMPTY_GRAPH, params, rows, |threads|, true, rebuilt.g, old(PoolRoom(threads, Searches(|rows|))))
    ensures forall t | t in threads :: Room(t) + Searches(|rows|) >= old(Room(t))
  {
    hide IsBatch, PoolRoom, BatchLeaves;
    rebuilt := new HnswIndex(params);
    var r := rebuilt.InsertBatch(threads, levels, rows);
  }

  /** What a batch makes of the map and of the graph. */
  lemma BatchResult(g: Graph, p: Params, rows: seq<BatchRow>, levels: nat -> nat, width: nat, g': Graph,
                    unwrapped: bool)
    requires GraphOk(g, p) && IsBatch(g, p, rows, width, true, g', unwrapped)
    requires Leveled(g'.nodes, |g.nodes|, levels, |rows|)
    ensures GraphOk(g', p) && Live(g', p) == InsertAll(Live(g, p), rows) && |g'.nodes| == |g.nodes| + |rows|
    ensures var from := |g.nodes| + if Live(g, p) == map[] then 1 else 0;
            BatchLeaves(g.nodes, g'.nodes, |rows|, levels, from, width)
  {
    hide EdgesOk, IdsOk, EntryOk, Live, IsBatch, BatchLeaves, Leveled, InsertAll;
    BatchKeeps(g, p, rows, width, true, g', unwrapped);
    BatchLeft(g, p, rows, levels, width, g', unwrapped);
    EmptyWithoutEntry(g, p);
  }

  lemma EmptyWithoutEntry(g: Graph, p: Params)
    requires GraphOk(g, p)
    ensures g.entry.None? <==> Live(g, p) == map[]
  {
    hide EdgesOk, Rows;
    var m := Live(g, p);
    assert m == map[] <==> m.Keys == {};
    var keys := g.idToNode.Keys;
    assert keys - g.deleted == {} ==> forall id | id in keys :: id !in keys - g.deleted;
    assert keys - g.deleted == {} ==> keys == g.deleted;
  }

  lemma EntryHasLayer(g: Graph, p: Params)
    requires GraphOk(g, p) && g.entry.Some?
    ensures HasLayer(g.nodes, g.entry.value, g.maxLevel)
  {
  }

  lemma LayersAt(g: Graph, p: Params, entry: Option<nat>)
    requires GraphOk(g, p) && (entry.Some? ==> entry.value < |g.nodes|)
    ensures entry.Some? ==> |g.nodes[entry.value].layers| >= 1
  {
    if entry.Some? { assert NodeFits(g.nodes, p, entry.value); }
  }
}
