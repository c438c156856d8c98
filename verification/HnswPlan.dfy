/**
 * Planning an insertion: greedy descent through the upper layers, then a construction-width beam and a
 * neighbour selection per layer. Nothing here changes the graph, so plans may be made in parallel.
 */
module HnswPlan {
  import opened Core
  import opened Slab
  import opened TopK
  import opened Beam
  import opened Selection
  import opened HnswGraph

  // --- Greedy descent and planning -------------------------------------------------------------

  /** One beam search at layer `l` from `ep`; `unwrapped` tells that no visit stamp was stale. */
  ghost predicate Searched(g: Graph, p: Params, query: Vector, l: nat, ep: nat, ef: nat, found: set<nat>,
                           unwrapped: bool)
    requires |g.data| == Offset(|g.nodes|, p.dim)
  {
    exists visited, stale ::
      LayerWalk(g, p, query, l).IsBeam(ep, ef, found, visited, stale) && (unwrapped ==> stale == {})
  }

  /** A nearest node of a set; heap iteration breaks ties in any order. */
  ghost predicate Closest(x: Walk, found: set<nat>, c: nat) {
    c in found && forall f | f in found :: x.Score(c) <= x.Score(f)
  }

  ghost predicate StepDown(g: Graph, p: Params, query: Vector, l: nat, ep: nat, next: nat, unwrapped: bool)
    requires |g.data| == Offset(|g.nodes|, p.dim)
  {
    exists found :: Searched(g, p, query, l, ep, 1, found, unwrapped) && Closest(LayerWalk(g, p, query, l), found, next)
  }

  /** Greedy descent from `ep` at layer `hi` through every layer above `lo` ends at `out`. */
  ghost predicate Descends(g: Graph, p: Params, query: Vector, ep: nat, hi: nat, lo: nat, out: nat, unwrapped: bool)
    requires |g.data| == Offset(|g.nodes|, p.dim)
    decreases hi - lo
  {
    if hi <= lo then out == ep
    else
      var l := lo + 1;
      exists mid :: Descends(g, p, query, ep, hi, l, mid, unwrapped) && StepDown(g, p, query, l, mid, out, unwrapped)
  }

  /** Layer `l`'s list is a selection from a construction-width beam, and `next` a nearest node of that beam. */
  ghost predicate LayerPlanned(g: Graph, p: Params, query: Vector, l: nat, ep: nat, list: seq<nat>, next: nat,
                               unwrapped: bool)
    requires |g.data| == Offset(|g.nodes|, p.dim)
  {
    exists found ::
      && Searched(g, p, query, l, ep, p.efConstruction, found, unwrapped)
      && IsSelection(LayerWalk(g, p, query, l), p.heuristic, found, p.MAt(l), list)
      && Closest(LayerWalk(g, p, query, l), found, next)
  }

  /** Layers `l .. top` were planned in turn, top first, from `ep`; the search now stands at `out`. */
  ghost predicate Planned(g: Graph, p: Params, query: Vector, ep: nat, top: nat, l: nat, neighbours: seq<seq<nat>>,
                          out: nat, unwrapped: bool)
    requires |g.data| == Offset(|g.nodes|, p.dim) && top < |neighbours|
    decreases top + 1 - l
  {
    if l > top then out == ep
    else
      var above := l + 1;
      exists mid ::
        && Planned(g, p, query, ep, top, above, neighbours, mid, unwrapped)
        && LayerPlanned(g, p, query, l, mid, neighbours[l], out, unwrapped)
  }

  datatype InsertionPlan = InsertionPlan(id: VecId, vector: Vector, level: nat, neighbours: seq<seq<nat>>)

  /** The plan is one the graph yields: descend to the new node's level, then select layer by layer. */
  ghost predicate IsPlan(g: Graph, p: Params, plan: InsertionPlan, unwrapped: bool)
    requires |g.data| == Offset(|g.nodes|, p.dim)
  {
    && |plan.neighbours| == plan.level + 1
    && match g.entry
       case None => forall l | 0 <= l <= plan.level :: plan.neighbours[l] == []
       case Some(ep) =>
         && (forall l | g.maxLevel < l <= plan.level :: plan.neighbours[l] == [])
         && exists mid, out ::
              && Descends(g, p, plan.vector, ep, g.maxLevel, plan.level, mid, unwrapped)
              && Planned(g, p, plan.vector, mid, Min(plan.level, g.maxLevel), 0, plan.neighbours, out, unwrapped)
  }

  /** A neighbour list a plan may hold: nodes that exist and have the layer, distinct, within degree. */
  ghost predicate PlanListFits(nodes: seq<Node>, p: Params, l: nat, list: seq<nat>) {
    Distinct(list) && |list| <= p.MAt(l) && forall n | n in list :: HasLayer(nodes, n, l)
  }

  /** Every list may be part of a plan. */
  ghost predicate ListsFit(nodes: seq<Node>, p: Params, neighbours: seq<seq<nat>>) {
    forall l | 0 <= l < |neighbours| :: PlanListFits(nodes, p, l, neighbours[l])
  }

  /** What a commit needs of a plan. It stays true while the graph only grows. */
  ghost predicate PlanFits(nodes: seq<Node>, p: Params, plan: InsertionPlan) {
    && |plan.vector| == p.dim && |plan.neighbours| == plan.level + 1 <= MAX_LEVEL + 1
    && ListsFit(nodes, p, plan.neighbours)
  }

  /** A plan made on an older snapshot can be committed to a grown graph. */
  lemma StalePlanFits(before: seq<Node>, after: seq<Node>, p: Params, plan: InsertionPlan)
    requires PlanFits(before, p, plan) && Grows(before, after)
    ensures PlanFits(after, p, plan)
  {
    forall l | 0 <= l <= plan.level ensures PlanListFits(after, p, l, plan.neighbours[l]) {
      assert PlanListFits(before, p, l, plan.neighbours[l]);
    }
  }

  // --- Computing a plan ---------------------------------------------------------------------------

  /** How many more searches free of stale stamps a thread is sure of: those until its epoch counter wraps. */
  ghost function Room(scratch: VisitStamps): nat
    reads scratch
  {
    if scratch.Ordered() then U64_MAX - scratch.epoch else 0
  }

  /** `min_by` distance over the heap. */
  method ClosestLive(x: Walk, w: Heap, ghost found: set<nat>) returns (c: nat)
    requires w == x.HeapOf(found) && found != {}
    ensures Closest(x, found, c)
  {
    var e := PickNearest(w);
    forall f | f in found ensures x.Score(e.id) <= x.Score(f) {
      assert x.Entry(f) in w;
    }
    c := e.id;
  }

  /** One search of layer `l`, and a nearest node of what it found. */
  method SearchFrom(scratch: VisitStamps, g: Graph, p: Params, query: Vector, l: nat, ep: nat, ef: nat,
                    ghost unwrapped: bool)
    returns (w: Heap, next: nat, ghost found: set<nat>)
    requires unwrapped ==> Room(scratch) > 0
    requires |g.data| == Offset(|g.nodes|, p.dim) && EdgesOk(g.nodes, p) && HasLayer(g.nodes, ep, l) && ef > 0
    modifies scratch
    ensures Room(scratch) + 1 >= old(Room(scratch))
    ensures Searched(g, p, query, l, ep, ef, found, unwrapped)
    ensures w == LayerWalk(g, p, query, l).HeapOf(found) && Closest(LayerWalk(g, p, query, l), found, next)
    ensures forall v | v in found :: HasLayer(g.nodes, v, l)
  {
    var x := LayerWalk(g, p, query, l);
    LayerInRange(g, p, query, l);
    ghost var visited, stale;
    w, found, visited, stale := SearchLayer(scratch, x, ep, ef);
    BeamKeepsLayer(g, p, query, l, ep, ef, found, visited, stale);
    next := ClosestLive(x, w, found);
  }

  /** Width-one searches from layer `hi` down to the layer above `lo`. */
  method Descend(scratch: VisitStamps, g: Graph, p: Params, query: Vector, ep: nat, hi: nat, lo: nat,
                 ghost unwrapped: bool)
    returns (out: nat)
    requires unwrapped && hi > lo ==> Room(scratch) >= hi - lo
    requires |g.data| == Offset(|g.nodes|, p.dim) && EdgesOk(g.nodes, p) && HasLayer(g.nodes, ep, hi)
    modifies scratch
    ensures Room(scratch) + hi - Min(hi, lo) >= old(Room(scratch))
    ensures HasLayer(g.nodes, out, Min(hi, lo))
    ensures Descends(g, p, query, ep, hi, lo, out, unwrapped)
  {
    hide StepDown, EdgesOk, IdsOk;
    out := ep;
    if hi <= lo {
      return;
    }
    var l := hi;
    while l > lo
      invariant lo <= l <= hi && HasLayer(g.nodes, out, l)
      invariant Room(scratch) + hi - l >= old(Room(scratch))
      invariant Descends(g, p, query, ep, hi, l, out, unwrapped)
    {
      ghost var mid := out;
      out := StepTo(scratch, g, p, query, l, out, unwrapped);
      DescendOne(g, p, query, ep, hi, l, mid, out, unwrapped);
      l := l - 1;
    }
  }

  lemma DescendOne(g: Graph, p: Params, query: Vector, ep: nat, hi: nat, l: nat, mid: nat, out: nat, unwrapped: bool)
    requires |g.data| == Offset(|g.nodes|, p.dim) && 0 < l <= hi
    requires Descends(g, p, query, ep, hi, l, mid, unwrapped) && StepDown(g, p, query, l, mid, out, unwrapped)
    ensures Descends(g, p, query, ep, hi, l - 1, out, unwrapped)
  {
  }

  /** One width-one search. */
  method StepTo(scratch: VisitStamps, g: Graph, p: Params, query: Vector, l: nat, ep: nat, ghost unwrapped: bool)
    returns (next: nat)
    requires unwrapped ==> Room(scratch) > 0
    requires |g.data| == Offset(|g.nodes|, p.dim) && EdgesOk(g.nodes, p) && HasLayer(g.nodes, ep, l)
    modifies scratch
    ensures Room(scratch) + 1 >= old(Room(scratch))
    ensures StepDown(g, p, query, l, ep, next, unwrapped) && HasLayer(g.nodes, next, l)
  {
    var w;
    ghost var found;
    w, next, found := SearchFrom(scratch, g, p, query, l, ep, 1, unwrapped);
  }

  /** Lists planned so far depend only on their own layers. */
  lemma {:induction false} PlannedFrame(g: Graph, p: Params, query: Vector, ep: nat, top: nat, l: nat,
                                        before: seq<seq<nat>>, after: seq<seq<nat>>, out: nat, unwrapped: bool)
    requires |g.data| == Offset(|g.nodes|, p.dim) && top < |before| == |after|
    requires forall i | l <= i <= top :: before[i] == after[i]
    requires Planned(g, p, query, ep, top, l, before, out, unwrapped)
    ensures Planned(g, p, query, ep, top, l, after, out, unwrapped)
    decreases top + 1 - l
  {
    hide LayerPlanned;
    if l <= top {
      var above := l + 1;
      var mid :| Planned(g, p, query, ep, top, above, before, mid, unwrapped)
                 && LayerPlanned(g, p, query, l, mid, before[l], out, unwrapped);
      PlannedFrame(g, p, query, ep, top, above, before, after, mid, unwrapped);
    }
  }

  lemma PlannedOne(g: Graph, p: Params, query: Vector, ep: nat, top: nat, l: nat, before: seq<seq<nat>>,
                   mid: nat, list: seq<nat>, out: nat, unwrapped: bool)
    requires |g.data| == Offset(|g.nodes|, p.dim) && l <= top < |before|
    requires Planned(g, p, query, ep, top, l + 1, before, mid, unwrapped)
    requires LayerPlanned(g, p, query, l, mid, list, out, unwrapped)
    ensures Planned(g, p, query, ep, top, l, before[l := list], out, unwrapped)
  {
    hide LayerPlanned;
    PlannedFrame(g, p, query, ep, top, l + 1, before, before[l := list], mid, unwrapped);
  }

  /** One construction-width search and the selection from what it found. */
  method PlanLayer(scratch: VisitStamps, g: Graph, p: Params, query: Vector, l: nat, ep: nat, ghost unwrapped: bool)
    returns (list: seq<nat>, next: nat)
    requires unwrapped ==> Room(scratch) > 0
    requires |g.data| == Offset(|g.nodes|, p.dim) && EdgesOk(g.nodes, p) && HasLayer(g.nodes, ep, l) && p.Ok()
    modifies scratch
    ensures Room(scratch) + 1 >= old(Room(scratch))
    ensures LayerPlanned(g, p, query, l, ep, list, next, unwrapped)
    ensures HasLayer(g.nodes, next, l) && PlanListFits(g.nodes, p, l, list)
  {
    hide Searched, EdgesOk, IsSelection;
    var w;
    ghost var found;
    w, next, found := SearchFrom(scratch, g, p, query, l, ep, p.efConstruction, unwrapped);
    list := Select(LayerWalk(g, p, query, l), p.heuristic, w, p.MAt(l), found);
    SelectionShape(LayerWalk(g, p, query, l), p.heuristic, found, p.MAt(l), list);
    assert forall n | n in list :: n in Elements(list);
  }

  /** Layers `top` down to 0, into `level + 1` initially empty lists. */
  method PlanLayers(scratch: VisitStamps, g: Graph, p: Params, query: Vector, ep: nat, level: nat, top: nat,
                    ghost unwrapped: bool)
    returns (neighbours: seq<seq<nat>>, ghost out: nat)
    requires unwrapped ==> Room(scratch) > top
    requires |g.data| == Offset(|g.nodes|, p.dim) && EdgesOk(g.nodes, p) && HasLayer(g.nodes, ep, top) && p.Ok()
    requires top <= level
    modifies scratch
    ensures Room(scratch) + top + 1 >= old(Room(scratch))
    ensures |neighbours| == level + 1 && ListsFit(g.nodes, p, neighbours)
    ensures forall l | top < l <= level :: neighbours[l] == []
    ensures Planned(g, p, query, ep, top, 0, neighbours, out, unwrapped)
  {
    hide LayerPlanned, EdgesOk, PlanListFits, Room;
    neighbours := EmptyLists(g.nodes, p, level);
    var at := ep;
    var l: nat := top + 1;
    while l > 0
      invariant l <= top + 1 && |neighbours| == level + 1 && ListsFit(g.nodes, p, neighbours)
      invariant HasLayer(g.nodes, at, if l > top then top else l)
      invariant forall i | top < i <= level :: neighbours[i] == []
      invariant Room(scratch) + top + 1 - l >= old(Room(scratch))
      invariant Planned(g, p, query, ep, top, l, neighbours, at, unwrapped)
    {
      l := l - 1;
      ghost var mid := at;
      var list;
      list, at := PlanLayer(scratch, g, p, query, l, at, unwrapped);
      PlannedOne(g, p, query, ep, top, l, neighbours, mid, list, at, unwrapped);
      neighbours := neighbours[l := list];
    }
    out := at;
  }

  /** `vec![Vec::new(); level + 1]`. */
  method EmptyLists(ghost nodes: seq<Node>, ghost p: Params, level: nat) returns (lists: seq<seq<nat>>)
    ensures |lists| == level + 1 && (forall l | 0 <= l <= level :: lists[l] == []) && ListsFit(nodes, p, lists)
  {
    lists := seq(level + 1, _ => []);
  }

  /** `plan_insert`. It takes at most `g.maxLevel + 1` searches; with room for them no beam meets a stale stamp. */
  method PlanInsert(scratch: VisitStamps, g: Graph, p: Params, id: VecId, vector: Vector, level: nat,
                    ghost unwrapped: bool)
    returns (plan: InsertionPlan)
    requires GraphOk(g, p) && |vector| == p.dim && level <= MAX_LEVEL
    requires unwrapped ==> Room(scratch) > g.maxLevel
    modifies scratch
    ensures Room(scratch) + g.maxLevel + 1 >= old(Room(scratch))
    ensures plan.id == id && plan.vector == vector && plan.level == level
    ensures IsPlan(g, p, plan, unwrapped) && PlanFits(g.nodes, p, plan)
  {
    hide Descends, Planned, IdsOk, EdgesOk;
    if g.entry.None? {
      var empty := EmptyLists(g.nodes, p, level);
      return InsertionPlan(id, vector, level, empty);
    }
    var top := Min(level, g.maxLevel);
    var mid := Descend(scratch, g, p, vector, g.entry.value, g.maxLevel, level, unwrapped);
    var neighbours;
    ghost var out;
    neighbours, out := PlanLayers(scratch, g, p, vector, mid, level, top, unwrapped);
    plan := InsertionPlan(id, vector, level, neighbours);
  }
}
