/**
 * What inserts and batches leave in the neighbour lists, stated on the nodes alone: a node inserted while
 * there was an entry point has neighbours and keeps some for good, nodes planned in one wave are never
 * linked to each other, and while the construction beam is wide enough every list is full.
 */
module HnswLinks {
  import opened Core
  import opened Slab
  import opened TopK
  import opened Contents
  import opened Beam
  import opened Selection
  import opened HnswGraph
  import opened HnswPlan
  import opened HnswCommit
  import opened HnswBuild

  // --- Every node has neighbours ------------------------------------------------------------------------------

  /** Node `i` has a neighbour at layer 0. */
  predicate HasLinks(nodes: seq<Node>, i: nat) {
    i < |nodes| && |nodes[i].layers| > 0 && nodes[i].layers[0] != []
  }

  /** No node loses its last neighbour at layer 0. */
  ghost predicate LinksStay(before: seq<Node>, after: seq<Node>) {
    forall i: nat | HasLinks(before, i) :: HasLinks(after, i)
  }

  /** A beam finds something, so a selection from it is not empty. */
  lemma PlannedListIsNotEmpty(g: Graph, p: Params, query: Vector, l: nat, ep: nat, list: seq<nat>, out: nat,
                              unwrapped: bool)
    requires |g.data| == Offset(|g.nodes|, p.dim) && p.Ok()
    requires LayerPlanned(g, p, query, l, ep, list, out, unwrapped)
    ensures list != []
  {
    hide IsSelection, Closest, Rows;
    var x := LayerWalk(g, p, query, l);
    var found :| Searched(g, p, query, l, ep, p.efConstruction, found, unwrapped)
      && IsSelection(x, p.heuristic, found, p.MAt(l), list) && Closest(x, found, out);
    var visited, stale :| x.IsBeam(ep, p.efConstruction, found, visited, stale);
    assert visited != {};
    SelectionShape(x, p.heuristic, found, p.MAt(l), list);
  }

  /** The layer's list of a plan of several layers. */
  lemma {:induction false} PlannedAt(g: Graph, p: Params, query: Vector, ep: nat, top: nat, lo: nat, l: nat,
                                     neighbours: seq<seq<nat>>, out: nat, unwrapped: bool)
    requires |g.data| == Offset(|g.nodes|, p.dim) && lo <= l <= top < |neighbours|
    requires Planned(g, p, query, ep, top, lo, neighbours, out, unwrapped)
    ensures exists mid, next :: LayerPlanned(g, p, query, l, mid, neighbours[l], next, unwrapped)
    decreases l - lo
  {
    hide LayerPlanned;
    var above := lo + 1;
    var mid :| Planned(g, p, query, ep, top, above, neighbours, mid, unwrapped)
      && LayerPlanned(g, p, query, lo, mid, neighbours[lo], out, unwrapped);
    if lo < l { PlannedAt(g, p, query, ep, top, above, l, neighbours, mid, unwrapped); }
  }

  /** A plan made while there is an entry point gives the new node a neighbour at every layer it shares. */
  lemma PlanHasLinks(g: Graph, p: Params, plan: InsertionPlan, l: nat, unwrapped: bool)
    requires GraphOk(g, p) && g.entry.Some? && IsPlan(g, p, plan, unwrapped) && l <= plan.level && l <= g.maxLevel
    ensures plan.neighbours[l] != []
  {
    hide Descends, LayerPlanned, EdgesOk, IdsOk, EntryOk;
    var mid, out :| Descends(g, p, plan.vector, g.entry.value, g.maxLevel, plan.level, mid, unwrapped)
      && Planned(g, p, plan.vector, mid, Min(plan.level, g.maxLevel), 0, plan.neighbours, out, unwrapped);
    PlannedAt(g, p, plan.vector, mid, Min(plan.level, g.maxLevel), 0, l, plan.neighbours, out, unwrapped);
    var ep, next :| LayerPlanned(g, p, plan.vector, l, ep, plan.neighbours[l], next, unwrapped);
    PlannedListIsNotEmpty(g, p, plan.vector, l, ep, plan.neighbours[l], next, unwrapped);
  }

  /** Pruning keeps as much as the degree allows. */
  lemma PrunedSize(x: Walk, p: Params, l: nat, list: seq<nat>, r: seq<nat>)
    requires Distinct(list) && Pruned(x, p, l, list, r)
    ensures |r| == Min(p.MAt(l), |list|)
  {
    hide IsSelection, Distinct;
    DistinctCardinality(list);
    if |list| > p.MAt(l) { SelectionShape(x, p.heuristic, Elements(list), p.MAt(l), r); }
  }

  /** A list of an old node does not shrink, unless the degree bound shrinks it. */
  lemma OldListSize(g: Graph, p: Params, plan: InsertionPlan, g': Graph, i: nat, l: nat)
    requires GraphOk(g, p) && Committed(g, p, plan, g') && HasLayer(g.nodes, i, l)
    ensures HasLayer(g'.nodes, i, l) && |g'.nodes[i].layers[l]| >= |g.nodes[i].layers[l]|
  {
    hide Pruned, Distinct, IdsOk, EntryOk, Rows;
    var vecs := Rows(g.data, p.dim, |g.nodes|) + [plan.vector];
    assert NodeFits(g.nodes, p, i);
    assert ListFits(g.nodes, p, i, l, ListAt(g.nodes, i, l));
    assert EdgeState(g.nodes, g'.nodes, vecs, p, plan, |plan.neighbours|, 0, i, l);
    if Touched(plan, |plan.neighbours|, 0, i, l) {
      PushIsDistinct(g.nodes, p, i, l);
      PrunedSize(Around(vecs, p, i), p, l, ListAt(g.nodes, i, l) + [|g.nodes|], ListAt(g'.nodes, i, l));
    }
  }

  lemma CommitKeepsLinks(g: Graph, p: Params, plan: InsertionPlan, g': Graph)
    requires GraphOk(g, p) && Committed(g, p, plan, g')
    ensures LinksStay(g.nodes, g'.nodes)
  {
    hide EdgesOk, EntryOk, IdsOk, Committed;
    forall i: nat | HasLinks(g.nodes, i) ensures HasLinks(g'.nodes, i) {
      OldListSize(g, p, plan, g', i, 0);
    }
  }

  /** An insert while there is an entry point leaves the new node with neighbours, and nobody without. */
  lemma InsertLinks(g: Graph, p: Params, plan: InsertionPlan, g': Graph, unwrapped: bool)
    requires GraphOk(g, p) && IsPlan(g, p, plan, unwrapped) && PlanFits(g.nodes, p, plan) && Committed(g, p, plan, g')
    ensures LinksStay(g.nodes, g'.nodes) && (g.entry.Some? ==> HasLinks(g'.nodes, |g.nodes|))
  {
    hide EdgesOk, EntryOk, IdsOk, Committed, IsPlan, ListsFit;
    CommitKeepsLinks(g, p, plan, g');
    CommitGrows(g, p, plan, g');
    if g.entry.Some? { PlanHasLinks(g, p, plan, 0, unwrapped); }
  }

  // --- Batches --------------------------------------------------------------------------------------------------

  /** All nodes from position `from` on have neighbours. */
  ghost predicate LinkedFrom(nodes: seq<Node>, from: nat) {
    forall i | from <= i < |nodes| :: HasLinks(nodes, i)
  }

  /** Plans made on one snapshot, committed in turn. */
  lemma {:induction false} WaveLinks(snapshot: Graph, g: Graph, p: Params, rows: seq<BatchRow>,
                                     plans: seq<InsertionPlan>, g': Graph, unwrapped: bool)
    requires GraphOk(snapshot, p) && GraphOk(g, p) && Grows(snapshot.nodes, g.nodes)
    requires PlansRows(snapshot, p, rows, plans, unwrapped) && CommitsAll(g, p, plans, g')
    ensures LinksStay(g.nodes, g'.nodes) && (snapshot.entry.Some? ==> LinkedFrom(g'.nodes, |g.nodes|))
    ensures |g'.nodes| == |g.nodes| + |rows| && GraphOk(g', p)
  {
    hide GraphOk, IsPlan, PlanFits, Committed, Grows, HasLinks;
    CommitsAllKeep(snapshot, g, p, rows, plans, g', unwrapped);
    if plans != [] {
      var n := |plans| - 1;
      assert |g.data| == Offset(|g.nodes|, p.dim) by { SlabSize(g, p); }
      var mid :| CommitsAll(g, p, plans[..n], mid) && |mid.data| == Offset(|mid.nodes|, p.dim)
        && Committed(mid, p, plans[n], g');
      WaveLinks(snapshot, g, p, rows[..n], plans[..n], mid, unwrapped);
      CommitKeepsLinks(mid, p, plans[n], g');
      CommitGrows(mid, p, plans[n], g');
      assert |snapshot.data| == Offset(|snapshot.nodes|, p.dim) by { SlabSize(snapshot, p); }
      assert PlansRow(snapshot, p, rows[n], plans[n], unwrapped);
      if snapshot.entry.Some? {
        PlanFitsLinks(snapshot, p, plans[n], unwrapped, g'.nodes, |mid.nodes|);
      }
    }
  }

  lemma SlabSize(g: Graph, p: Params)
    requires GraphOk(g, p)
    ensures |g.data| == Offset(|g.nodes|, p.dim)
  {
  }

  lemma PlanFitsLinks(g: Graph, p: Params, plan: InsertionPlan, unwrapped: bool, nodes: seq<Node>, i: nat)
    requires GraphOk(g, p) && g.entry.Some? && IsPlan(g, p, plan, unwrapped)
    requires i < |nodes| && nodes[i] == Node(plan.id, plan.neighbours)
    ensures HasLinks(nodes, i)
  {
    hide EdgesOk, EntryOk, IdsOk, Descends, Planned;
    PlanHasLinks(g, p, plan, 0, unwrapped);
  }

  lemma {:induction false} EntryAfterBatch(g: Graph, p: Params, rows: seq<BatchRow>, width: nat, atEnd: bool, g': Graph,
                                           unwrapped: bool)
    requires GraphOk(g, p) && IsBatch(g, p, rows, width, atEnd, g', unwrapped)
    ensures rows != [] || g.entry.Some? ==> g'.entry.Some?
  {
    hide GraphOk, PlansRows, CommitsAll, InsertAll;
    if rows != [] {
      var lo, mid :| 0 <= lo < |rows| && IsBatch(g, p, rows[..lo], width, false, mid, unwrapped)
        && WaveSize(mid, |rows| - lo, width, atEnd)
        && |mid.data| == Offset(|mid.nodes|, p.dim) && IsWave(mid, p, rows[lo..], g', unwrapped);
      BatchKeeps(g, p, rows[..lo], width, false, mid, unwrapped);
      var plans :| PlansRows(mid, p, rows[lo..], plans, unwrapped) && CommitsAll(mid, p, plans, g');
      GrowsSelf(mid.nodes);
      CommitsAllKeep(mid, mid, p, rows[lo..], plans, g', unwrapped);
    }
  }

  /** Where a batch's waves begin: after the first node of a graph without entry point. */
  function WavesFrom(g: Graph): nat {
    |g.nodes| + if g.entry.None? then 1 else 0
  }

  /** After a batch every new node has neighbours, but for a first one without an entry point to plan from. */
  lemma {:induction false} BatchLinks(g: Graph, p: Params, rows: seq<BatchRow>, width: nat, atEnd: bool, g': Graph,
                                      unwrapped: bool)
    requires GraphOk(g, p) && IsBatch(g, p, rows, width, atEnd, g', unwrapped)
    ensures LinksStay(g.nodes, g'.nodes) && LinkedFrom(g'.nodes, WavesFrom(g))
    decreases |rows|
  {
    hide GraphOk, PlansRows, CommitsAll, InsertAll, HasLinks;
    if rows != [] {
      var lo, mid :| 0 <= lo < |rows| && IsBatch(g, p, rows[..lo], width, false, mid, unwrapped)
        && WaveSize(mid, |rows| - lo, width, atEnd)
        && |mid.data| == Offset(|mid.nodes|, p.dim) && IsWave(mid, p, rows[lo..], g', unwrapped);
      BatchKeeps(g, p, rows[..lo], width, false, mid, unwrapped);
      BatchLinks(g, p, rows[..lo], width, false, mid, unwrapped);
      EntryAfterBatch(g, p, rows[..lo], width, false, mid, unwrapped);
      var plans :| PlansRows(mid, p, rows[lo..], plans, unwrapped) && CommitsAll(mid, p, plans, g');
      GrowsSelf(mid.nodes);
      WaveLinks(mid, mid, p, rows[lo..], plans, g', unwrapped);
    }
  }

  // --- Nodes of one wave ------------------------------------------------------------------------------------------

  /** No list of node `i` names node `j`. */
  ghost predicate Unlinked(nodes: seq<Node>, i: nat, j: nat)
    requires i < |nodes|
  {
    forall l | 0 <= l < |nodes[i].layers| :: j !in nodes[i].layers[l]
  }

  /** No two nodes from position `from` on are linked. */
  ghost predicate NoneLinked(nodes: seq<Node>, from: nat) {
    forall i, j | from <= i < |nodes| && from <= j < |nodes| :: Unlinked(nodes, i, j)
  }

  /** A commit links old nodes only to the new one, and only those the plan names. */
  lemma CommitLinksOnlyNew(g: Graph, p: Params, plan: InsertionPlan, g': Graph, i: nat, l: nat)
    requires GraphOk(g, p) && Committed(g, p, plan, g') && HasLayer(g.nodes, i, l)
    ensures HasLayer(g'.nodes, i, l) && |g'.nodes[i].layers| == |g.nodes[i].layers|
    ensures forall j | j in g'.nodes[i].layers[l] ::
              j in g.nodes[i].layers[l] || (j == |g.nodes| && l < |plan.neighbours| && i in plan.neighbours[l])
  {
    hide Pruned, Distinct, IdsOk, EntryOk, Rows;
    var vecs := Rows(g.data, p.dim, |g.nodes|) + [plan.vector];
    assert NodeFits(g.nodes, p, i);
    assert EdgeState(g.nodes, g'.nodes, vecs, p, plan, |plan.neighbours|, 0, i, l);
    if Touched(plan, |plan.neighbours|, 0, i, l) {
      PushIsDistinct(g.nodes, p, i, l);
      PrunedShape(Around(vecs, p, i), p, l, ListAt(g.nodes, i, l) + [|g.nodes|], ListAt(g'.nodes, i, l));
    }
  }

  lemma StayUnlinked(g: Graph, p: Params, plan: InsertionPlan, g': Graph, i: nat, j: nat)
    requires GraphOk(g, p) && Committed(g, p, plan, g') && i < |g.nodes| && j < |g.nodes| && Unlinked(g.nodes, i, j)
    ensures i < |g'.nodes| && Unlinked(g'.nodes, i, j)
  {
    hide EdgesOk, EntryOk, IdsOk, LinkedUp;
    forall l | 0 <= l < |g'.nodes[i].layers| ensures j !in g'.nodes[i].layers[l] {
      assert |g'.nodes[i].layers| == |g.nodes[i].layers| by { CommitGrows(g, p, plan, g'); }
      CommitLinksOnlyNew(g, p, plan, g', i, l);
    }
  }

  /** A node planned on a snapshot of the first `from` nodes is linked to none after them. */
  lemma NewUnlinked(g: Graph, p: Params, plan: InsertionPlan, g': Graph, snapshot: seq<Node>, from: nat)
    requires GraphOk(g, p) && Committed(g, p, plan, g') && NoneLinked(g.nodes, from)
    requires PlanFits(snapshot, p, plan) && |snapshot| == from <= |g.nodes|
    ensures NoneLinked(g'.nodes, from)
  {
    hide GraphOk, PlanFits, Committed, Unlinked;
    assert |g.data| == Offset(|g.nodes|, p.dim) by { SlabSize(g, p); }
    CommitGrows(g, p, plan, g');
    forall i, j | from <= i < |g'.nodes| && from <= j < |g'.nodes| ensures Unlinked(g'.nodes, i, j) {
      if i < |g.nodes| && j < |g.nodes| {
        StayUnlinked(g, p, plan, g', i, j);
      } else if i < |g.nodes| {
        OldAndNew(g, p, plan, g', snapshot, i);
      } else {
        PlanStaysBelow(p, plan, snapshot, g'.nodes, i, j);
      }
    }
  }

  lemma OldAndNew(g: Graph, p: Params, plan: InsertionPlan, g': Graph, snapshot: seq<Node>, i: nat)
    requires GraphOk(g, p) && Committed(g, p, plan, g') && PlanFits(snapshot, p, plan) && |snapshot| <= i < |g.nodes|
    ensures i < |g'.nodes| && Unlinked(g'.nodes, i, |g.nodes|)
  {
    hide EntryOk, IdsOk, Committed;
    assert |g.data| == Offset(|g.nodes|, p.dim);
    CommitGrows(g, p, plan, g');
    assert NodeFits(g.nodes, p, i);
    forall l | 0 <= l < |g'.nodes[i].layers| ensures |g.nodes| !in g'.nodes[i].layers[l] {
      CommitLinksOnlyNew(g, p, plan, g', i, l);
      assert ListFits(g.nodes, p, i, l, g.nodes[i].layers[l]);
      if l < |plan.neighbours| { assert PlanListFits(snapshot, p, l, plan.neighbours[l]); }
    }
  }

  lemma PlanStaysBelow(p: Params, plan: InsertionPlan, snapshot: seq<Node>, nodes: seq<Node>, i: nat, j: nat)
    requires PlanFits(snapshot, p, plan) && i < |nodes| && nodes[i] == Node(plan.id, plan.neighbours) && j >= |snapshot|
    ensures Unlinked(nodes, i, j)
  {
    forall l | 0 <= l < |nodes[i].layers| ensures j !in nodes[i].layers[l] {
      assert PlanListFits(snapshot, p, l, plan.neighbours[l]);
      assert j in plan.neighbours[l] ==> HasLayer(snapshot, j, l);
    }
  }

  lemma {:induction false} WaveIsUnlinked(snapshot: Graph, g: Graph, p: Params, rows: seq<BatchRow>,
                                          plans: seq<InsertionPlan>, g': Graph, unwrapped: bool)
    requires GraphOk(snapshot, p) && GraphOk(g, p) && Grows(snapshot.nodes, g.nodes)
    requires PlansRows(snapshot, p, rows, plans, unwrapped) && CommitsAll(g, p, plans, g')
    requires NoneLinked(g.nodes, |snapshot.nodes|)
    ensures NoneLinked(g'.nodes, |snapshot.nodes|)
    ensures forall i, j | 0 <= i < |g.nodes| && 0 <= j < |g.nodes| && Unlinked(g.nodes, i, j) ::
              i < |g'.nodes| && Unlinked(g'.nodes, i, j)
  {
    hide GraphOk, IsPlan, PlanFits, Committed, Unlinked;
    if plans != [] {
      var n := |plans| - 1;
      assert |g.data| == Offset(|g.nodes|, p.dim) by { SlabSize(g, p); }
      var mid :| CommitsAll(g, p, plans[..n], mid) && |mid.data| == Offset(|mid.nodes|, p.dim)
        && Committed(mid, p, plans[n], g');
      WaveIsUnlinked(snapshot, g, p, rows[..n], plans[..n], mid, unwrapped);
      CommitsAllKeep(snapshot, g, p, rows[..n], plans[..n], mid, unwrapped);
      assert |snapshot.data| == Offset(|snapshot.nodes|, p.dim) by { SlabSize(snapshot, p); }
      assert PlansRow(snapshot, p, rows[n], plans[n], unwrapped);
      NewUnlinked(mid, p, plans[n], g', snapshot.nodes, |snapshot.nodes|);
      forall i, j | 0 <= i < |g.nodes| && 0 <= j < |g.nodes| && Unlinked(g.nodes, i, j)
        ensures i < |g'.nodes| && Unlinked(g'.nodes, i, j)
      {
        StayUnlinked(mid, p, plans[n], g', i, j);
      }
    }
  }

  /** Position `i` lies in the `q`-th block of `width` positions after `from`. */
  predicate InBlock(from: nat, width: nat, q: nat, i: nat) {
    from + Offset(q, width) <= i < from + Offset(q + 1, width)
  }

  /** Nodes of one block are not linked to each other. */
  ghost predicate BlocksApart(nodes: seq<Node>, from: nat, width: nat) {
    forall q, i, j | 0 <= i < |nodes| && 0 <= j < |nodes| && InBlock(from, width, q, i) && InBlock(from, width, q, j) ::
      Unlinked(nodes, i, j)
  }

  /** All waves of the batch so far were full. */
  ghost predicate CutAt(from: nat, width: nat, n: nat) {
    n < from || exists q: nat :: n == from + Offset(q, width)
  }

  lemma NextCut(from: nat, width: nat, n: nat)
    requires n >= from && CutAt(from, width, n)
    ensures CutAt(from, width, n + width)
  {
    var q: nat :| n == from + Offset(q, width);
    assert n + width == from + Offset(q + 1, width);
  }

  /** Two positions of one block lie on the same side of a cut. */
  lemma SameSide(from: nat, width: nat, n: nat, q: nat, i: nat, j: nat)
    requires CutAt(from, width, n) && InBlock(from, width, q, i) && InBlock(from, width, q, j) && i < n
    ensures j < n
  {
    if n >= from {
      var c: nat :| n == from + Offset(c, width);
      if c <= q { OffsetsGrow(q, width); } else { OffsetsGrow(c, width); }
    }
  }

  /** Full waves are a lone first node, if the graph had no entry point, and then blocks of `width`. */
  lemma {:induction false} FullWaves(g: Graph, p: Params, rows: seq<BatchRow>, width: nat, g': Graph, unwrapped: bool)
    requires GraphOk(g, p) && IsBatch(g, p, rows, width, false, g', unwrapped)
    ensures CutAt(WavesFrom(g), width, |g'.nodes|)
  {
    hide GraphOk, IsWave, InsertAll;
    BatchKeeps(g, p, rows, width, false, g', unwrapped);
    if rows == [] {
      assert Offset(0, width) == 0;
    } else {
      var lo, mid :| 0 <= lo < |rows| && IsBatch(g, p, rows[..lo], width, false, mid, unwrapped)
        && WaveSize(mid, |rows| - lo, width, false)
        && |mid.data| == Offset(|mid.nodes|, p.dim) && IsWave(mid, p, rows[lo..], g', unwrapped);
      BatchKeeps(g, p, rows[..lo], width, false, mid, unwrapped);
      EntryAfterBatch(g, p, rows[..lo], width, false, mid, unwrapped);
      FullWaves(g, p, rows[..lo], width, mid, unwrapped);
      if mid.entry.None? {
        assert |g'.nodes| == WavesFrom(g) + Offset(0, width);
      } else {
        NextCut(WavesFrom(g), width, |mid.nodes|);
      }
    }
  }

  /** However a batch is cut, nodes of one block of `width` rows are not linked to each other. */
  lemma {:induction false} BatchBlocks(g: Graph, p: Params, rows: seq<BatchRow>, width: nat, atEnd: bool, g': Graph,
                                       unwrapped: bool)
    requires GraphOk(g, p) && IsBatch(g, p, rows, width, atEnd, g', unwrapped)
    ensures BlocksApart(g'.nodes, WavesFrom(g), width)
    decreases |rows|
  {
    hide GraphOk, PlansRows, CommitsAll, InsertAll, Unlinked, CutAt;
    var from := WavesFrom(g);
    if rows != [] {
      var lo, mid :| 0 <= lo < |rows| && IsBatch(g, p, rows[..lo], width, false, mid, unwrapped)
        && WaveSize(mid, |rows| - lo, width, atEnd)
        && |mid.data| == Offset(|mid.nodes|, p.dim) && IsWave(mid, p, rows[lo..], g', unwrapped);
      BatchKeeps(g, p, rows[..lo], width, false, mid, unwrapped);
      BatchBlocks(g, p, rows[..lo], width, false, mid, unwrapped);
      FullWaves(g, p, rows[..lo], width, mid, unwrapped);
      var plans :| PlansRows(mid, p, rows[lo..], plans, unwrapped) && CommitsAll(mid, p, plans, g');
      GrowsSelf(mid.nodes);
      WaveIsUnlinked(mid, mid, p, rows[lo..], plans, g', unwrapped);
      BlocksAfterWave(mid.nodes, g'.nodes, from, width);
    }
  }

  lemma BlocksAfterWave(before: seq<Node>, after: seq<Node>, from: nat, width: nat)
    requires CutAt(from, width, |before|) && BlocksApart(before, from, width) && NoneLinked(after, |before|)
    requires forall i, j | 0 <= i < |before| && 0 <= j < |before| && Unlinked(before, i, j) ::
               i < |after| && Unlinked(after, i, j)
    ensures BlocksApart(after, from, width)
  {
    hide Unlinked, CutAt, InBlock;
    forall q, i, j | 0 <= i < |after| && 0 <= j < |after| && InBlock(from, width, q, i) && InBlock(from, width, q, j)
      ensures Unlinked(after, i, j)
    {
      if i < |before| {
        SameSide(from, width, |before|, q, i, j);
      } else if j < |before| {
        SameSide(from, width, |before|, q, j, i);
      }
    }
  }

  /**
   * What a batch of `n` rows leaves: new nodes at their drawn levels, neighbours for every new node from
   * position `from` on, none within a block of `width`, and no old node without the neighbours it had.
   */
  ghost predicate BatchLeaves(before: seq<Node>, after: seq<Node>, n: nat, levels: nat -> nat, from: nat, width: nat) {
    && |after| == |before| + n && Leveled(after, |before|, levels, n)
    && LinksStay(before, after) && LinkedFrom(after, from) && BlocksApart(after, from, width)
  }

  lemma BatchLeft(g: Graph, p: Params, rows: seq<BatchRow>, levels: nat -> nat, width: nat, g': Graph, unwrapped: bool)
    requires GraphOk(g, p) && IsBatch(g, p, rows, width, true, g', unwrapped)
    requires Leveled(g'.nodes, |g.nodes|, levels, |rows|)
    ensures BatchLeaves(g.nodes, g'.nodes, |rows|, levels, WavesFrom(g), width)
  {
    hide GraphOk, IsBatch, Leveled, InsertAll, LinkedFrom, BlocksApart, LinksStay;
    BatchKeeps(g, p, rows, width, true, g', unwrapped);
    BatchLinks(g, p, rows, width, true, g', unwrapped);
    BatchBlocks(g, p, rows, width, true, g', unwrapped);
  }

  // --- Full lists ---------------------------------------------------------------------------------------------------

  /** Each number of `path` is a neighbour of the one before it at layer `l`. */
  ghost predicate Steps(nodes: seq<Node>, l: nat, path: seq<nat>) {
    && path != []
    && forall i | 0 <= i < |path| - 1 :: HasLayer(nodes, path[i], l) && path[i + 1] in nodes[path[i]].layers[l]
  }

  ghost predicate Leads(nodes: seq<Node>, l: nat, a: nat, b: nat) {
    exists path :: Steps(nodes, l, path) && path[0] == a && path[|path| - 1] == b
  }

  /** What a search of a layer can reach is what following its lists leads to. */
  lemma ReachesIffLeads(g: Graph, p: Params, query: Vector, l: nat, a: nat, b: nat)
    requires |g.data| == Offset(|g.nodes|, p.dim)
    ensures LayerWalk(g, p, query, l).Reaches(a, b) <==> Leads(g.nodes, l, a, b)
  {
    var x := LayerWalk(g, p, query, l);
    if x.Reaches(a, b) {
      var path :| x.IsPath(path) && path[0] == a && path[|path| - 1] == b;
      forall i | 0 <= i < |path| - 1
        ensures HasLayer(g.nodes, path[i], l) && path[i + 1] in g.nodes[path[i]].layers[l]
      {
        assert path[i + 1] in x.Neighbours(path[i]);
      }
      assert Steps(g.nodes, l, path);
    }
    if Leads(g.nodes, l, a, b) {
      var path :| Steps(g.nodes, l, path) && path[0] == a && path[|path| - 1] == b;
      assert x.IsPath(path);
    }
  }

  /** The nodes that have layer `l`. */
  ghost function AtLayer(nodes: seq<Node>, l: nat): set<nat> {
    set i: nat | i < |nodes| && HasLayer(nodes, i, l)
  }

  /** Every node of the layer leads to every other. */
  ghost predicate LayerConnected(nodes: seq<Node>, l: nat) {
    forall a: nat, b: nat | HasLayer(nodes, a, l) && HasLayer(nodes, b, l) :: Leads(nodes, l, a, b)
  }

  lemma {:induction false} DescentKeepsLayer(g: Graph, p: Params, query: Vector, ep: nat, hi: nat, lo: nat, out: nat,
                                             unwrapped: bool)
    requires |g.data| == Offset(|g.nodes|, p.dim) && EdgesOk(g.nodes, p) && HasLayer(g.nodes, ep, hi) && lo < hi
    requires Descends(g, p, query, ep, hi, lo, out, unwrapped)
    ensures HasLayer(g.nodes, out, lo + 1)
    decreases hi - lo
  {
    hide EdgesOk, StepDown;
    var l := lo + 1;
    var mid :| Descends(g, p, query, ep, hi, l, mid, unwrapped) && StepDown(g, p, query, l, mid, out, unwrapped);
    if l < hi { DescentKeepsLayer(g, p, query, ep, hi, l, mid, unwrapped); }
    StepKeepsLayer(g, p, query, l, mid, out, unwrapped);
  }

  lemma StepKeepsLayer(g: Graph, p: Params, query: Vector, l: nat, ep: nat, next: nat, unwrapped: bool)
    requires |g.data| == Offset(|g.nodes|, p.dim) && EdgesOk(g.nodes, p) && HasLayer(g.nodes, ep, l)
    requires StepDown(g, p, query, l, ep, next, unwrapped)
    ensures HasLayer(g.nodes, next, l)
  {
    hide EdgesOk;
    var x := LayerWalk(g, p, query, l);
    var found :| Searched(g, p, query, l, ep, 1, found, unwrapped) && Closest(x, found, next);
    var visited, stale :| x.IsBeam(ep, 1, found, visited, stale);
    BeamKeepsLayer(g, p, query, l, ep, 1, found, visited, stale);
  }

  lemma LayerPlannedKeepsLayer(g: Graph, p: Params, query: Vector, l: nat, ep: nat, list: seq<nat>, out: nat,
                               unwrapped: bool)
    requires |g.data| == Offset(|g.nodes|, p.dim) && EdgesOk(g.nodes, p) && HasLayer(g.nodes, ep, l)
    requires LayerPlanned(g, p, query, l, ep, list, out, unwrapped)
    ensures HasLayer(g.nodes, out, l)
  {
    hide EdgesOk, IsSelection;
    var x := LayerWalk(g, p, query, l);
    var found :| Searched(g, p, query, l, ep, p.efConstruction, found, unwrapped)
      && IsSelection(x, p.heuristic, found, p.MAt(l), list) && Closest(x, found, out);
    var visited, stale :| x.IsBeam(ep, p.efConstruction, found, visited, stale);
    BeamKeepsLayer(g, p, query, l, ep, p.efConstruction, found, visited, stale);
  }

  /** Layer `l`'s list comes from a search that started at a node of the layer. */
  ghost predicate FromLayer(g: Graph, p: Params, query: Vector, l: nat, list: seq<nat>, unwrapped: bool)
    requires |g.data| == Offset(|g.nodes|, p.dim)
  {
    exists ep, next :: HasLayer(g.nodes, ep, l) && LayerPlanned(g, p, query, l, ep, list, next, unwrapped)
  }

  lemma {:induction false} PlannedFrom(g: Graph, p: Params, query: Vector, ep: nat, top: nat, lo: nat, l: nat,
                                       neighbours: seq<seq<nat>>, out: nat, unwrapped: bool)
    requires |g.data| == Offset(|g.nodes|, p.dim) && EdgesOk(g.nodes, p) && HasLayer(g.nodes, ep, top)
    requires lo <= l <= top < |neighbours| && Planned(g, p, query, ep, top, lo, neighbours, out, unwrapped)
    ensures HasLayer(g.nodes, out, lo) && FromLayer(g, p, query, l, neighbours[l], unwrapped)
    decreases top - lo
  {
    hide EdgesOk, LayerPlanned;
    var above := lo + 1;
    var mid :| Planned(g, p, query, ep, top, above, neighbours, mid, unwrapped)
      && LayerPlanned(g, p, query, lo, mid, neighbours[lo], out, unwrapped);
    if lo < top {
      PlannedFrom(g, p, query, ep, top, above, if l == lo then above else l, neighbours, mid, unwrapped);
    }
    LayerPlannedKeepsLayer(g, p, query, lo, mid, neighbours[lo], out, unwrapped);
  }

  /** A construction beam as wide as a connected layer finds the whole layer. */
  lemma WideLayerBeam(g: Graph, p: Params, query: Vector, l: nat, ep: nat, found: set<nat>)
    requires GraphOk(g, p) && HasLayer(g.nodes, ep, l) && LayerConnected(g.nodes, l)
    requires |AtLayer(g.nodes, l)| <= p.efConstruction
    requires Searched(g, p, query, l, ep, p.efConstruction, found, true)
    ensures found == AtLayer(g.nodes, l)
  {
    hide EdgesOk, IdsOk, EntryOk, Leads;
    var x := LayerWalk(g, p, query, l);
    var visited, stale :| x.IsBeam(ep, p.efConstruction, found, visited, stale) && stale == {};
    forall v: nat ensures v in AtLayer(g.nodes, l) <==> x.Reaches(ep, v) {
      ReachesIffLeads(g, p, query, l, ep, v);
      if x.Reaches(ep, v) { ReachKeepsLayer(g, p, query, l, ep, v); }
    }
    x.WideBeamIsExact(ep, p.efConstruction, found, visited, AtLayer(g.nodes, l));
  }

  /** So the layer's list is chosen from the whole layer. */
  lemma ChosenFromLayer(g: Graph, p: Params, query: Vector, l: nat, ep: nat, list: seq<nat>, out: nat)
    requires GraphOk(g, p) && HasLayer(g.nodes, ep, l) && LayerConnected(g.nodes, l)
    requires |AtLayer(g.nodes, l)| <= p.efConstruction
    requires LayerPlanned(g, p, query, l, ep, list, out, true)
    ensures IsSelection(LayerWalk(g, p, query, l), p.heuristic, AtLayer(g.nodes, l), p.MAt(l), list)
  {
    hide GraphOk, IsSelection, LayerConnected, AtLayer, Searched, Closest;
    assert |g.data| == Offset(|g.nodes|, p.dim) by { SlabSize(g, p); }
    var x := LayerWalk(g, p, query, l);
    var found :| Searched(g, p, query, l, ep, p.efConstruction, found, true)
      && IsSelection(x, p.heuristic, found, p.MAt(l), list) && Closest(x, found, out);
    WideLayerBeam(g, p, query, l, ep, found);
  }

  lemma ReachKeepsLayer(g: Graph, p: Params, query: Vector, l: nat, a: nat, b: nat)
    requires |g.data| == Offset(|g.nodes|, p.dim) && EdgesOk(g.nodes, p) && HasLayer(g.nodes, a, l)
    requires LayerWalk(g, p, query, l).Reaches(a, b)
    ensures HasLayer(g.nodes, b, l)
  {
    hide EdgesOk;
    var path :| LayerWalk(g, p, query, l).IsPath(path) && path[0] == a && path[|path| - 1] == b;
    PathKeepsLayer(g, p, query, l, path);
  }

  /** Where the layers of a plan are searched from. */
  lemma PlanStart(g: Graph, p: Params, plan: InsertionPlan, l: nat, unwrapped: bool)
    requires GraphOk(g, p) && g.entry.Some? && IsPlan(g, p, plan, unwrapped) && l <= plan.level && l <= g.maxLevel
    ensures FromLayer(g, p, plan.vector, l, plan.neighbours[l], unwrapped)
  {
    hide LayerPlanned, EdgesOk, IdsOk, FromLayer, Planned, StepDown;
    var top, ep := Min(plan.level, g.maxLevel), g.entry.value;
    var mid, out :| Descends(g, p, plan.vector, ep, g.maxLevel, plan.level, mid, unwrapped)
      && Planned(g, p, plan.vector, mid, top, 0, plan.neighbours, out, unwrapped);
    if plan.level < g.maxLevel {
      DescentKeepsLayer(g, p, plan.vector, ep, g.maxLevel, plan.level, mid, unwrapped);
    }
    PlannedFrom(g, p, plan.vector, mid, top, 0, l, plan.neighbours, out, unwrapped);
  }

  /** No row of `others` left out of `list` is nearer to the query than one in it. */
  ghost predicate NearestTaken(rows: seq<Vector>, dist: Distance, query: Vector, list: seq<nat>, others: set<nat>) {
    forall a, b | a in list && b in others && b !in list && a < |rows| && b < |rows| ::
      dist(query, rows[a]) <= dist(query, rows[b])
  }

  /**
   * While a layer is connected and no larger than the construction beam, a new node's list there is as full
   * as the degree bound, twice as high at layer 0, and the layer allow; the plain strategy takes nearest nodes.
   */
  lemma FullLists(g: Graph, p: Params, plan: InsertionPlan, l: nat)
    requires GraphOk(g, p) && g.entry.Some? && IsPlan(g, p, plan, true) && l <= plan.level && l <= g.maxLevel
    requires LayerConnected(g.nodes, l) && |AtLayer(g.nodes, l)| <= p.efConstruction
    ensures |plan.neighbours[l]| == Min(if l == 0 then 2 * p.m else p.m, |AtLayer(g.nodes, l)|)
    ensures !p.heuristic ==>
              NearestTaken(Rows(g.data, p.dim, |g.nodes|), p.dist, plan.vector, plan.neighbours[l], AtLayer(g.nodes, l))
  {
    hide GraphOk, IsPlan, LayerConnected, AtLayer, FromLayer;
    PlanHasList(g, p, plan, l);
    PlanStart(g, p, plan, l, true);
    FullList(g, p, plan.vector, l, plan.neighbours[l]);
  }

  lemma PlanHasList(g: Graph, p: Params, plan: InsertionPlan, l: nat)
    requires GraphOk(g, p) && g.entry.Some? && IsPlan(g, p, plan, true) && l <= plan.level
    ensures |g.data| == Offset(|g.nodes|, p.dim) && l < |plan.neighbours|
  {
    hide EdgesOk, IdsOk, Descends, Planned;
  }

  lemma FullList(g: Graph, p: Params, query: Vector, l: nat, list: seq<nat>)
    requires GraphOk(g, p) && FromLayer(g, p, query, l, list, true)
    requires LayerConnected(g.nodes, l) && |AtLayer(g.nodes, l)| <= p.efConstruction
    ensures |list| == Min(if l == 0 then 2 * p.m else p.m, |AtLayer(g.nodes, l)|)
    ensures !p.heuristic ==> NearestTaken(Rows(g.data, p.dim, |g.nodes|), p.dist, query, list, AtLayer(g.nodes, l))
  {
    hide LayerPlanned, EdgesOk, IdsOk, EntryOk, LayerConnected, Rows, Distinct;
    var ep, next :| HasLayer(g.nodes, ep, l) && LayerPlanned(g, p, query, l, ep, list, next, true);
    ChosenFromLayer(g, p, query, l, ep, list, next);
    var x := LayerWalk(g, p, query, l);
    SelectionShape(x, p.heuristic, AtLayer(g.nodes, l), p.MAt(l), list);
    if !p.heuristic { NearestAreTaken(x, AtLayer(g.nodes, l), p.MAt(l), list); }
  }

  lemma NearestAreTaken(x: Walk, candidates: set<nat>, m: nat, list: seq<nat>)
    requires IsNearest(x, candidates, m, list)
    ensures NearestTaken(x.vecs, x.dist, x.query, list, candidates)
  {
    hide Distinct;
    forall a, b | a in list && b in candidates && b !in list && a < |x.vecs| && b < |x.vecs|
      ensures x.dist(x.query, x.vecs[a]) <= x.dist(x.query, x.vecs[b])
    {
      assert NotAfter(x, list, b);
      assert AtMost(x.Entry(a), x.Entry(b));
    }
  }

  /** No node of the set is nearer to the query than `c`. */
  ghost predicate NoneNearer(rows: seq<Vector>, dist: Distance, query: Vector, c: nat, others: set<nat>) {
    forall b | b in others && b < |rows| && c < |rows| :: dist(query, rows[c]) <= dist(query, rows[b])
  }

  /** Layer `l`'s list comes from a search that started at a node of the layer above than which none there is nearer. */
  ghost predicate FromNearestAbove(g: Graph, p: Params, query: Vector, l: nat, list: seq<nat>)
    requires |g.data| == Offset(|g.nodes|, p.dim)
  {
    exists ep, next ::
      && HasLayer(g.nodes, ep, l + 1) && LayerPlanned(g, p, query, l, ep, list, next, true)
      && NoneNearer(Rows(g.data, p.dim, |g.nodes|), p.dist, query, ep, AtLayer(g.nodes, l + 1))
  }

  lemma NextIsNearest(g: Graph, p: Params, query: Vector, l: nat, ep: nat, list: seq<nat>, next: nat)
    requires GraphOk(g, p) && HasLayer(g.nodes, ep, l) && LayerConnected(g.nodes, l)
    requires |AtLayer(g.nodes, l)| <= p.efConstruction && LayerPlanned(g, p, query, l, ep, list, next, true)
    ensures HasLayer(g.nodes, next, l)
    ensures NoneNearer(Rows(g.data, p.dim, |g.nodes|), p.dist, query, next, AtLayer(g.nodes, l))
  {
    hide EdgesOk, IdsOk, EntryOk, IsSelection, LayerConnected;
    var x := LayerWalk(g, p, query, l);
    var found :| Searched(g, p, query, l, ep, p.efConstruction, found, true)
      && IsSelection(x, p.heuristic, found, p.MAt(l), list) && Closest(x, found, next);
    WideLayerBeam(g, p, query, l, ep, found);
    forall b | b in AtLayer(g.nodes, l) && b < |x.vecs| && next < |x.vecs|
      ensures x.dist(query, x.vecs[next]) <= x.dist(query, x.vecs[b])
    {
      assert x.Score(next) <= x.Score(b);
    }
  }

  lemma {:induction false} PlannedBelowNearest(g: Graph, p: Params, query: Vector, ep: nat, top: nat, lo: nat, l: nat,
                                               neighbours: seq<seq<nat>>, out: nat)
    requires GraphOk(g, p) && HasLayer(g.nodes, ep, top) && LayerConnected(g.nodes, l + 1)
    requires |AtLayer(g.nodes, l + 1)| <= p.efConstruction
    requires lo <= l < top < |neighbours| && Planned(g, p, query, ep, top, lo, neighbours, out, true)
    ensures FromNearestAbove(g, p, query, l, neighbours[l])
    decreases top - lo
  {
    hide EdgesOk, IdsOk, EntryOk, LayerPlanned, LayerConnected, AtLayer, NoneNearer, Rows;
    var above := lo + 1;
    var mid :| Planned(g, p, query, ep, top, above, neighbours, mid, true)
      && LayerPlanned(g, p, query, lo, mid, neighbours[lo], out, true);
    if lo < l {
      PlannedBelowNearest(g, p, query, ep, top, above, l, neighbours, mid);
    } else {
      StartAbove(g, p, query, ep, top, above, neighbours, mid);
    }
  }

  /** The node where the search of layer `l - 1` starts. */
  lemma StartAbove(g: Graph, p: Params, query: Vector, ep: nat, top: nat, l: nat, neighbours: seq<seq<nat>>, out: nat)
    requires GraphOk(g, p) && HasLayer(g.nodes, ep, top) && LayerConnected(g.nodes, l)
    requires |AtLayer(g.nodes, l)| <= p.efConstruction
    requires l <= top < |neighbours| && Planned(g, p, query, ep, top, l, neighbours, out, true)
    ensures HasLayer(g.nodes, out, l)
    ensures NoneNearer(Rows(g.data, p.dim, |g.nodes|), p.dist, query, out, AtLayer(g.nodes, l))
  {
    hide EdgesOk, IdsOk, EntryOk, LayerPlanned, LayerConnected, AtLayer, NoneNearer, Rows;
    var above := l + 1;
    var mid :| Planned(g, p, query, ep, top, above, neighbours, mid, true)
      && LayerPlanned(g, p, query, l, mid, neighbours[l], out, true);
    if l < top { PlannedFrom(g, p, query, ep, top, above, above, neighbours, mid, true); }
    NextIsNearest(g, p, query, l, mid, neighbours[l], out);
  }

  /**
   * While a layer is connected and no larger than the construction beam, the layer below it is searched from its
   * node nearest to the new vector.
   */
  lemma SearchesBelowNearest(g: Graph, p: Params, plan: InsertionPlan, l: nat)
    requires GraphOk(g, p) && g.entry.Some? && IsPlan(g, p, plan, true) && l < plan.level && l < g.maxLevel
    requires LayerConnected(g.nodes, l + 1) && |AtLayer(g.nodes, l + 1)| <= p.efConstruction
    ensures FromNearestAbove(g, p, plan.vector, l, plan.neighbours[l])
  {
    hide EdgesOk, IdsOk, FromNearestAbove, Planned, StepDown, LayerConnected, AtLayer;
    var top, ep := Min(plan.level, g.maxLevel), g.entry.value;
    var mid, out :| Descends(g, p, plan.vector, ep, g.maxLevel, plan.level, mid, true)
      && Planned(g, p, plan.vector, mid, top, 0, plan.neighbours, out, true);
    if plan.level < g.maxLevel { DescentKeepsLayer(g, p, plan.vector, ep, g.maxLevel, plan.level, mid, true); }
    PlannedBelowNearest(g, p, plan.vector, mid, top, 0, l, plan.neighbours, out);
  }

  /** The graph's own degree bound: `m` neighbours, and `2 * m` at layer 0. */
  lemma DegreeBound(g: Graph, p: Params, i: nat, l: nat)
    requires GraphOk(g, p) && HasLayer(g.nodes, i, l)
    ensures |g.nodes[i].layers[l]| <= if l == 0 then 2 * p.m else p.m
  {
    hide EntryOk, IdsOk;
    assert NodeFits(g.nodes, p, i);
  }

  // --- Pruning and the entry point -------------------------------------------------------------------------------

  /**
   * The plain strategy prunes an overfull list to the nodes nearest to its own node: what a commit drops
   * from the list of `i`, the new node included, is no nearer to `i` than what it keeps.
   */
  lemma PruningKeepsNearest(g: Graph, p: Params, plan: InsertionPlan, g': Graph, i: nat, l: nat)
    requires GraphOk(g, p) && Committed(g, p, plan, g') && HasLayer(g.nodes, i, l) && !p.heuristic
    requires l < |plan.neighbours| && i in plan.neighbours[l]
    ensures var rows := Rows(g.data, p.dim, |g.nodes|) + [plan.vector];
            && HasLayer(g'.nodes, i, l)
            && NearestTaken(rows, p.dist, rows[i], g'.nodes[i].layers[l],
                            Elements<nat>(g.nodes[i].layers[l]) + {|g.nodes|})
  {
    hide Distinct, IdsOk, EntryOk, Rows, EdgesOk, IsNearest;
    var rows := Rows(g.data, p.dim, |g.nodes|) + [plan.vector];
    var x := Around(rows, p, i);
    var list: seq<nat> := ListAt(g.nodes, i, l) + [|g.nodes|];
    assert Elements<nat>(list) == Elements<nat>(g.nodes[i].layers[l]) + {|g.nodes|};
    assert EdgeState(g.nodes, g'.nodes, rows, p, plan, |plan.neighbours|, 0, i, l);
    assert Touched(plan, |plan.neighbours|, 0, i, l);
    if |list| > p.MAt(l) { NearestAreTaken(x, Elements<nat>(list), p.MAt(l), g'.nodes[i].layers[l]); }
  }

  /** The entry point of the new graph is at least as high as the new node and as the old top layer. */
  lemma EntryIsHigh(g: Graph, p: Params, plan: InsertionPlan, g': Graph)
    requires GraphOk(g, p) && PlanFits(g.nodes, p, plan) && Committed(g, p, plan, g')
    ensures |g'.nodes| == |g.nodes| + 1 && g'.entry.Some? && g'.entry.value < |g'.nodes|
    ensures |g'.nodes[g'.entry.value].layers| >= |g'.nodes[|g.nodes|].layers|
    ensures g.entry.Some? ==> |g'.nodes[g'.entry.value].layers| >= |g.nodes[g.entry.value].layers|
  {
    hide EdgesOk, IdsOk, LinkedUp, Rows, ListsFit;
    CommitKeepsOk(g, p, plan, g');
    CommitGrows(g, p, plan, g');
  }
}
