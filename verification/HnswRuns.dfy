/**
 * Two runs of the index on any parameters: a search that returns an overwritten id twice, and a search that
 * starts at a deleted node.
 */
module HnswRuns {
  import opened Core
  import opened Slab
  import opened TopK
  import opened Beam
  import opened Selection
  import opened HnswGraph
  import opened HnswPlan
  import opened HnswCommit
  import opened HnswLinks
  import opened Hnsw
  import opened HnswGhosts

  // --- Graphs of two nodes -------------------------------------------------------------------------------------------

  /** Into a graph of one node, a plan links the new node to it at every layer both have. */
  lemma OneNodePlan(g: Graph, p: Params, plan: InsertionPlan, l: nat, unwrapped: bool)
    requires GraphOk(g, p) && |g.nodes| == 1 && g.entry.Some? && IsPlan(g, p, plan, unwrapped)
    requires l <= plan.level && l <= g.maxLevel
    ensures plan.neighbours[l] == [0]
  {
    hide Descends, Searched, LayerPlanned, EdgesOk, IdsOk, EntryOk;
    var mid, out :| Descends(g, p, plan.vector, g.entry.value, g.maxLevel, plan.level, mid, unwrapped)
      && Planned(g, p, plan.vector, mid, Min(plan.level, g.maxLevel), 0, plan.neighbours, out, unwrapped);
    var top := Min(plan.level, g.maxLevel);
    PlannedAt(g, p, plan.vector, mid, top, 0, l, plan.neighbours, out, unwrapped);
    var above, next :| LayerPlanned(g, p, plan.vector, l, above, plan.neighbours[l], next, unwrapped);
    OneNodeLayer(g, p, plan.vector, l, above, plan.neighbours[l], next, unwrapped);
  }

  lemma OneNodeLayer(g: Graph, p: Params, query: Vector, l: nat, ep: nat, list: seq<nat>, out: nat, unwrapped: bool)
    requires |g.data| == Offset(|g.nodes|, p.dim) && |g.nodes| == 1 && p.Ok()
    requires LayerPlanned(g, p, query, l, ep, list, out, unwrapped)
    ensures list == [0]
  {
    hide IsSelection, Closest;
    var x := LayerWalk(g, p, query, l);
    var found :| Searched(g, p, query, l, ep, p.efConstruction, found, unwrapped)
      && IsSelection(x, p.heuristic, found, p.MAt(l), list) && Closest(x, found, out);
    OneNodeBeam(g, p, query, l, ep, found, unwrapped);
    SelectionShape(x, p.heuristic, found, p.MAt(l), list);
    assert list[0] in Elements(list);
  }

  lemma OneNodeBeam(g: Graph, p: Params, query: Vector, l: nat, ep: nat, found: set<nat>, unwrapped: bool)
    requires |g.data| == Offset(|g.nodes|, p.dim) && |g.nodes| == 1 && p.Ok()
    requires Searched(g, p, query, l, ep, p.efConstruction, found, unwrapped)
    ensures found == {0}
  {
    var x := LayerWalk(g, p, query, l);
    var visited, stale :| x.IsBeam(ep, p.efConstruction, found, visited, stale) && (unwrapped ==> stale == {});
    OnlyZero(x, ep, p.efConstruction, found, visited, stale);
  }

  lemma OnlyZero(x: Walk, ep: nat, ef: nat, found: set<nat>, visited: set<nat>, stale: set<nat>)
    requires |x.nodes| == 1 && ef > 0 && x.IsBeam(ep, ef, found, visited, stale)
    ensures found == {0}
  {
    hide Walk.Reaches, Walk.Expanded, Walk.NoNearer;
    assert visited == {0};
    SubsetOfSameSize(found, visited);
  }

  /** Two nodes, linked both ways at layer `l`. */
  ghost predicate LinkedAt(nodes: seq<Node>, l: nat) {
    && |nodes| == 2 && HasLayer(nodes, 0, l) && HasLayer(nodes, 1, l)
    && nodes[0].layers[l] == [1] && nodes[1].layers[l] == [0]
  }

  /** Two nodes of one id, linked both ways at layer 0. */
  ghost predicate LinkedPair(g: Graph, id: VecId) {
    LinkedAt(g.nodes, 0) && g.nodes[0].id == g.nodes[1].id == id && g.deleted == {} && g.entry.Some?
  }

  /** A single node of `id`, without neighbours. */
  ghost predicate Single(g: Graph, id: VecId) {
    && |g.nodes| == 1 && g.nodes[0].id == id && g.deleted == {} && g.entry == Some(0)
    && |g.nodes[0].layers| == g.maxLevel + 1 && forall l | 0 <= l <= g.maxLevel :: g.nodes[0].layers[l] == []
  }

  lemma FirstCommit(p: Params, plan: InsertionPlan, g: Graph, unwrapped: bool)
    requires IsPlan(EMPTY_GRAPH, p, plan, unwrapped)
    requires Committed(EMPTY_GRAPH, p, plan, g)
    ensures Single(g, plan.id) && g.maxLevel == plan.level && |g.nodes| == 1 && |g.nodes[0].layers| == plan.level + 1
  {
    hide EdgeState;
  }

  lemma SecondCommit(g: Graph, p: Params, id: VecId, plan: InsertionPlan, g': Graph, l: nat, unwrapped: bool)
    requires GraphOk(g, p) && Single(g, id) && IsPlan(g, p, plan, unwrapped) && Committed(g, p, plan, g')
    requires l <= plan.level && l <= g.maxLevel
    ensures LinkedAt(g'.nodes, l)
  {
    hide EdgesOk, IdsOk, EntryOk, IsPlan;
    assert |plan.neighbours| == plan.level + 1 by { PlanHasLayer(g, p, plan, unwrapped); }
    OneNodePlan(g, p, plan, l, unwrapped);
    assert HasLayer(g.nodes, 0, l);
    assert EdgeState(g.nodes, g'.nodes, Rows(g.data, p.dim, 1) + [plan.vector], p, plan, |plan.neighbours|, 0, 0, l);
    assert Touched(plan, |plan.neighbours|, 0, 0, l);
  }

  lemma PlanHasLayer(g: Graph, p: Params, plan: InsertionPlan, unwrapped: bool)
    requires |g.data| == Offset(|g.nodes|, p.dim) && IsPlan(g, p, plan, unwrapped)
    ensures |plan.neighbours| == plan.level + 1
  {
  }

  /** At that layer, from either node exactly the two are reachable. */
  lemma PairReaches(g: Graph, p: Params, query: Vector, l: nat, mid: nat)
    requires |g.data| == Offset(|g.nodes|, p.dim) && LinkedAt(g.nodes, l) && mid < 2
    ensures forall v: nat :: v in {0, 1} <==> LayerWalk(g, p, query, l).Reaches(mid, v)
  {
    var x := LayerWalk(g, p, query, l);
    x.ReachesSelf(mid);
    assert x.IsPath([mid, 1 - mid]);
    assert x.Reaches(mid, 1 - mid);
    forall v: nat | x.Reaches(mid, v) ensures v in {0, 1} {
      var path :| x.IsPath(path) && path[0] == mid && path[|path| - 1] == v;
      x.ClosedHoldsReachable({0, 1}, mid, path);
    }
  }

  // --- A run that repeats an id ------------------------------------------------------------------------------------

  /** A search of the pair returns both nodes under the one id. */
  lemma PairIsRepeated(g: Graph, p: Params, query: Vector, id: VecId, results: seq<Scored>, mid: nat, found: set<nat>,
                       all: Heap)
    requires GraphOk(g, p) && LinkedPair(g, id) && IsSearch(g, p, query, 2, None, results, mid, found, all, true)
    ensures multiset(results)
         == multiset{Scored(LayerWalk(g, p, query, 0).Score(0), id), Scored(LayerWalk(g, p, query, 0).Score(1), id)}
  {
    hide Descends, Searched, IsReport, IsTopK, EdgesOk, IdsOk, EntryOk, LinkedPair;
    var x := LayerWalk(g, p, query, 0);
    PairSize(g, id);
    StartInRange(g, p, query, mid, Max(p.efSearch, 2), found);
    PairReaches(g, p, query, 0, mid);
    WideSearchReturnsAll(g, p, query, 2, None, results, mid, found, all, {0, 1});
    PairReport(g, x, id, all);
  }

  lemma PairSize(g: Graph, id: VecId)
    requires LinkedPair(g, id)
    ensures |g.nodes| == 2 && g.entry.Some? && LinkedAt(g.nodes, 0)
  {
  }

  lemma StartInRange(g: Graph, p: Params, query: Vector, mid: nat, ef: nat, found: set<nat>)
    requires |g.data| == Offset(|g.nodes|, p.dim) && Searched(g, p, query, 0, mid, ef, found, true)
    ensures mid < |g.nodes|
  {
  }

  lemma PairReport(g: Graph, x: Walk, id: VecId, all: Heap)
    requires LinkedPair(g, id) && IsReport(g, x, None, {0, 1}, all)
    ensures all == multiset{Scored(x.Score(0), id), Scored(x.Score(1), id)}
  {
    hide IsReport;
    assert Admitted(g, None, 0) && Admitted(g, None, 1);
    ReportDrop(g, x, None, {0, 1}, all, 0);
    var rest := all - multiset{Scored(x.Score(0), id)};
    assert {0, 1} - {0} == {1};
    ReportDrop(g, x, None, {1}, rest, 1);
    assert {1} - {1} == {};
    NothingReported(g, x, None, rest - multiset{Scored(x.Score(1), id)});
  }

  /**
   * On any parameters, with any levels drawn, on one thread: insert an id, overwrite it, search. The results
   * hold the id twice, once with the stale score.
   */
  method OverwrittenIdRepeats(params: Params, id: VecId, first: Vector, second: Vector, query: Vector, level1: nat,
                              level2: nat)
    returns (results: seq<Scored>)
    requires params.Ok() && |first| == |second| == |query| == params.dim
    ensures multiset(results) == multiset{Scored(params.dist(query, first), id), Scored(params.dist(query, second), id)}
  {
    hide GraphOk, Live, IsPlan, PlanFits, Committed, IsSearch, LinkedPair, Single, Rows;
    var index := new HnswIndex(params);
    var scratch := new VisitStamps();
    var _, plan1 := index.Insert(scratch, level1, id, first);
    FirstCommit(params, plan1, index.g, true);
    ghost var single := index.g;
    var _, plan2 := index.Insert(scratch, level2, id, second);
    SecondCommit(single, params, id, plan2, index.g, 0, true);
    SecondIsPair(single, params, plan2, index.g);
    PairRows(params, plan1, single, plan2, index.g);
    assert id in index.Contents();
    var r, mid, found, all := index.Search(scratch, query, 2, None);
    results := r.value;
    PairIsRepeated(index.g, params, query, id, results, mid, found, all);
  }

  lemma SecondIsPair(g: Graph, p: Params, plan: InsertionPlan, g': Graph)
    requires GraphOk(g, p) && Single(g, plan.id) && Committed(g, p, plan, g') && LinkedAt(g'.nodes, 0)
    ensures LinkedPair(g', plan.id)
  {
    hide EdgeState;
  }

  lemma PairRows(p: Params, plan1: InsertionPlan, g1: Graph, plan2: InsertionPlan, g2: Graph)
    requires GraphOk(g1, p) && GraphOk(g2, p) && Committed(EMPTY_GRAPH, p, plan1, g1) && Committed(g1, p, plan2, g2)
    ensures |g2.data| == Offset(|g2.nodes|, p.dim) && Rows(g2.data, p.dim, |g2.nodes|) == [plan1.vector, plan2.vector]
  {
    hide EdgesOk, IdsOk, EntryOk, LinkedUp, Rows;
    RowsAppend(EMPTY_GRAPH.data, p.dim, 0, plan1.vector);
    RowsAppend(g1.data, p.dim, 1, plan2.vector);
    assert Rows(EMPTY_GRAPH.data, p.dim, 0) == [];
  }

  // --- A run that starts at a deleted node -------------------------------------------------------------------------

  /** At a layer of two linked nodes, a width-one beam from node 0 moves to node 1 if that is nearer. */
  lemma NearerIsFound(g: Graph, p: Params, query: Vector, l: nat, found: set<nat>)
    requires |g.data| == Offset(|g.nodes|, p.dim) && LinkedAt(g.nodes, l)
    requires LayerWalk(g, p, query, l).Score(1) < LayerWalk(g, p, query, l).Score(0)
    requires Searched(g, p, query, l, 0, 1, found, true)
    ensures found == {1}
  {
    hide Rows, Walk.Reaches;
    var x := LayerWalk(g, p, query, l);
    var visited, stale :| x.IsBeam(0, 1, found, visited, stale) && stale == {};
    assert |found| == 1;
    var c :| c in found;
    SubsetOfSameSize({c}, found);
    assert x.Expanded(c, visited + stale) && 1 in x.Neighbours(0);
    assert 1 in visited - found ==> x.NoNearer(found, 1);
  }

  lemma DescendsToNearer(g: Graph, p: Params, query: Vector, mid: nat)
    requires |g.data| == Offset(|g.nodes|, p.dim) && LinkedAt(g.nodes, 1)
    requires LayerWalk(g, p, query, 1).Score(1) < LayerWalk(g, p, query, 1).Score(0)
    requires Descends(g, p, query, 0, 1, 0, mid, true)
    ensures mid == 1
  {
    hide Searched, LinkedAt;
    var above :| Descends(g, p, query, 0, 1, 1, above, true) && StepDown(g, p, query, 1, above, mid, true);
    var found :| Searched(g, p, query, 1, 0, 1, found, true) && Closest(LayerWalk(g, p, query, 1), found, mid);
    NearerIsFound(g, p, query, 1, found);
  }

  lemma SearchDescends(g: Graph, p: Params, query: Vector, k: nat, filter: Filter, results: seq<Scored>, mid: nat,
                       found: set<nat>, all: Heap, unwrapped: bool)
    requires |g.data| == Offset(|g.nodes|, p.dim) && g.entry.Some?
    requires IsSearch(g, p, query, k, filter, results, mid, found, all, unwrapped)
    ensures Descends(g, p, query, g.entry.value, g.maxLevel, 0, mid, unwrapped)
  {
  }

  /** The two nodes after both commits, before the delete. */
  lemma SecondIsBeside(g: Graph, p: Params, id: VecId, plan: InsertionPlan, g': Graph)
    requires GraphOk(g, p) && Single(g, id) && PlanFits(g.nodes, p, plan) && Committed(g, p, plan, g')
    ensures |g'.nodes| == 2 && g'.nodes[0].id == id && g'.nodes[1].id == plan.id && g'.deleted == {}
    ensures |g'.nodes[0].layers| == g.maxLevel + 1 && |g'.nodes[1].layers| == plan.level + 1
    ensures plan.level <= g.maxLevel ==> g'.entry == Some(0) && g'.maxLevel == g.maxLevel
  {
    hide EdgeState, EdgesOk, IdsOk, EntryOk;
  }

  /**
   * On any parameters: insert two ids that are drawn one upper layer each, delete the second, search near it.
   * The search starts at the deleted node.
   */
  method TombstonedStart(params: Params, first: Vector, second: Vector, query: Vector)
    returns (index: HnswIndex, ghost mid: nat)
    requires params.Ok() && |first| == |second| == |query| == params.dim
    requires params.dist(query, second) < params.dist(query, first)
    ensures fresh(index) && index.Valid() && index.params == params
    ensures index.Contents() == map[1 := first] && |index.g.nodes| == 2
    ensures index.g.nodes[1].id == 2 && index.g.deleted == {2}
    ensures index.g.entry.Some?
    ensures Descends(index.g, params, query, index.g.entry.value, index.g.maxLevel, 0, mid, true)
    ensures mid == 1
  {
    hide GraphOk, Live, IsPlan, PlanFits, Committed, IsSearch, LinkedAt, Single, Rows, IsLastLive, Descends;
    index := new HnswIndex(params);
    var scratch := new VisitStamps();
    var _, plan1 := index.Insert(scratch, 1, 1, first);
    FirstCommit(params, plan1, index.g, true);
    ghost var single := index.g;
    var _, plan2 := index.Insert(scratch, 1, 2, second);
    SecondIsBeside(single, params, 1, plan2, index.g);
    PairRows(params, plan1, single, plan2, index.g);
    SecondCommit(single, params, 1, plan2, index.g, 1, true);
    var _ := index.Delete(2);
    assert 1 in index.Contents();
    var r, start, found, all := index.Search(scratch, query, 2, None);
    mid := start;
    SearchDescends(index.g, params, query, 2, None, r.value, mid, found, all, true);
    DescendsToNearer(index.g, params, query, mid);
  }
}
