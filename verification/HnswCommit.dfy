/**
 * Committing an insertion plan: the new node, its reverse edges, the pruning of overfull lists and the
 * entry point. A plan made on an older snapshot of the graph commits just as well.
 */
module HnswCommit {
  import opened Core
  import opened Slab
  import opened TopK
  import opened Contents
  import opened Beam
  import opened Selection
  import opened HnswGraph
  import opened HnswPlan

  /** Distances from node `i`, as pruning its list needs them. */
  function Around(vecs: seq<Vector>, p: Params, i: nat): Walk {
    Walk([], vecs, p.dist, if i < |vecs| then vecs[i] else [], 0)
  }

  function ListAt(nodes: seq<Node>, i: nat, l: nat): seq<nat> {
    if HasLayer(nodes, i, l) then nodes[i].layers[l] else []
  }

  function SetList(nodes: seq<Node>, i: nat, l: nat, list: seq<nat>): (r: seq<Node>)
    requires HasLayer(nodes, i, l)
    ensures |r| == |nodes|
  {
    nodes[i := nodes[i].(layers := nodes[i].layers[l := list])]
  }

  /** What becomes of `list` at node `i`: kept if the degree allows, otherwise a selection from it. */
  ghost predicate Pruned(x: Walk, p: Params, l: nat, list: seq<nat>, r: seq<nat>) {
    if |list| <= p.MAt(l) then r == list
    else IsSelection(x, p.heuristic, Elements(list), p.MAt(l), r)
  }

  /** The reverse edge to `i` at layer `l` has been made, with `lc` the layer and `j` the position reached. */
  ghost predicate Touched(plan: InsertionPlan, lc: nat, j: nat, i: nat, l: nat) {
    l < |plan.neighbours|
    && if l < lc then i in plan.neighbours[l] else l == lc && i in plan.neighbours[l][..Min(j, |plan.neighbours[l]|)]
  }

  /** An old node's list: the new node pushed and pruned if touched, otherwise unchanged. */
  ghost predicate EdgeState(before: seq<Node>, after: seq<Node>, vecs: seq<Vector>, p: Params, plan: InsertionPlan,
                            lc: nat, j: nat, i: nat, l: nat) {
    if Touched(plan, lc, j, i, l) then
      Pruned(Around(vecs, p, i), p, l, ListAt(before, i, l) + [|before|], ListAt(after, i, l))
    else ListAt(after, i, l) == ListAt(before, i, l)
  }

  ghost predicate Linking(before: seq<Node>, after: seq<Node>, vecs: seq<Vector>, p: Params, plan: InsertionPlan,
                          lc: nat, j: nat) {
    && Grows(before, after) && |after| == |before| + 1 && after[|before|] == Node(plan.id, plan.neighbours)
    && forall i, l | HasLayer(before, i, l) :: EdgeState(before, after, vecs, p, plan, lc, j, i, l)
  }

  /** All reverse edges made: node `i`'s list changed exactly at the layers where the plan names `i`. */
  ghost predicate LinkedUp(before: seq<Node>, after: seq<Node>, vecs: seq<Vector>, p: Params, plan: InsertionPlan) {
    Linking(before, after, vecs, p, plan, |plan.neighbours|, 0)
  }

  /** The whole effect of a commit. */
  ghost predicate Committed(g: Graph, p: Params, plan: InsertionPlan, g': Graph)
    requires |g.data| == Offset(|g.nodes|, p.dim)
  {
    var n := |g.nodes|;
    && |g'.nodes| == n + 1 && |plan.vector| == p.dim && g'.data == g.data + plan.vector
    && g'.idToNode == g.idToNode[plan.id := n] && g'.deleted == g.deleted - {plan.id}
    && LinkedUp(g.nodes, g'.nodes, Rows(g.data, p.dim, n) + [plan.vector], p, plan)
    && (if g.entry.None? || plan.level > g.maxLevel then g'.entry == Some(n) && g'.maxLevel == plan.level
        else g'.entry == g.entry && g'.maxLevel == g.maxLevel)
  }

  // --- Making the reverse edges -------------------------------------------------------------------

  lemma StartLinking(before: seq<Node>, vecs: seq<Vector>, p: Params, plan: InsertionPlan)
    ensures Linking(before, before + [Node(plan.id, plan.neighbours)], vecs, p, plan, 0, 0)
  {
    hide Pruned;
    var after := before + [Node(plan.id, plan.neighbours)];
    forall i, l | HasLayer(before, i, l) ensures EdgeState(before, after, vecs, p, plan, 0, 0, i, l) { }
  }

  /** Touching one more neighbour touches that list only. */
  lemma TouchOne(plan: InsertionPlan, lc: nat, j: nat, i: nat, l: nat)
    requires lc < |plan.neighbours| && Distinct(plan.neighbours[lc]) && j < |plan.neighbours[lc]|
    ensures Touched(plan, lc, j + 1, i, l) <==> Touched(plan, lc, j, i, l) || (l == lc && i == plan.neighbours[lc][j])
    ensures !Touched(plan, lc, j, plan.neighbours[lc][j], lc)
  {
    var list := plan.neighbours[lc];
    assert list[..j + 1] == list[..j] + [list[j]];
    DistinctPairs(list);
  }

  lemma LinkOne(before: seq<Node>, after: seq<Node>, vecs: seq<Vector>, p: Params, plan: InsertionPlan, lc: nat,
                j: nat, list: seq<nat>)
    requires Linking(before, after, vecs, p, plan, lc, j) && ListsFit(before, p, plan.neighbours)
    requires lc < |plan.neighbours| && j < |plan.neighbours[lc]|
    ensures var i := plan.neighbours[lc][j];
            && HasLayer(before, i, lc) && HasLayer(after, i, lc) && ListAt(after, i, lc) == ListAt(before, i, lc)
            && (Pruned(Around(vecs, p, i), p, lc, ListAt(before, i, lc) + [|before|], list) ==>
                  Linking(before, SetList(after, i, lc, list), vecs, p, plan, lc, j + 1))
  {
    hide Pruned, Touched, Distinct;
    var i := plan.neighbours[lc][j];
    assert PlanListFits(before, p, lc, plan.neighbours[lc]);
    assert HasLayer(before, i, lc);
    TouchOne(plan, lc, j, i, lc);
    assert EdgeState(before, after, vecs, p, plan, lc, j, i, lc);
    if Pruned(Around(vecs, p, i), p, lc, ListAt(before, i, lc) + [|before|], list) {
      var after' := SetList(after, i, lc, list);
      forall i', l' | HasLayer(before, i', l') ensures EdgeState(before, after', vecs, p, plan, lc, j + 1, i', l') {
        TouchOne(plan, lc, j, i', l');
        assert EdgeState(before, after, vecs, p, plan, lc, j, i', l');
      }
    }
  }

  lemma LayerLinked(before: seq<Node>, after: seq<Node>, vecs: seq<Vector>, p: Params, plan: InsertionPlan, lc: nat)
    requires lc < |plan.neighbours| && Linking(before, after, vecs, p, plan, lc, |plan.neighbours[lc]|)
    ensures Linking(before, after, vecs, p, plan, lc + 1, 0)
  {
    hide Pruned;
    var list := plan.neighbours[lc];
    assert list[..|list|] == list;
    forall i, l | HasLayer(before, i, l) ensures EdgeState(before, after, vecs, p, plan, lc + 1, 0, i, l) {
      assert EdgeState(before, after, vecs, p, plan, lc, |list|, i, l);
    }
  }

  /** The heap of a neighbour list. */
  method HeapOfList(x: Walk, list: seq<nat>) returns (h: Heap)
    requires Distinct(list)
    ensures h == x.HeapOf(Elements(list))
  {
    hide Distinct;
    h := multiset{};
    assert Elements(list[..0]) == {};
    assert x.HeapOf({}) == multiset{};
    for i := 0 to |list|
      invariant h == x.HeapOf(Elements(list[..i]))
    {
      HeapOneMore(x, list, i);
      h := h + multiset{x.Entry(list[i])};
    }
    assert list[..|list|] == list;
  }

  lemma HeapOneMore(x: Walk, list: seq<nat>, i: nat)
    requires Distinct(list) && i < |list|
    ensures x.HeapOf(Elements(list[..i + 1])) == x.HeapOf(Elements(list[..i])) + multiset{x.Entry(list[i])}
  {
    DistinctPrefix(list, i + 1);
    assert list[..i + 1][..i] == list[..i];
    x.HeapPush(Elements(list[..i]), list[i]);
    assert Elements(list[..i + 1]) == Elements(list[..i]) + {list[i]};
  }

  /** `prune_connections` on one list. */
  method Prune(x: Walk, p: Params, l: nat, list: seq<nat>) returns (r: seq<nat>)
    requires Distinct(list)
    ensures Pruned(x, p, l, list, r)
  {
    if |list| <= p.MAt(l) {
      return list;
    }
    var h := HeapOfList(x, list);
    r := Select(x, p.heuristic, h, p.MAt(l), Elements(list));
  }

  /** The new node is in no list of the old graph, so pushing it keeps a list duplicate-free. */
  lemma PushIsDistinct(nodes: seq<Node>, p: Params, i: nat, l: nat)
    requires EdgesOk(nodes, p) && HasLayer(nodes, i, l)
    ensures Distinct<nat>(ListAt(nodes, i, l) + [|nodes|])
  {
    assert NodeFits(nodes, p, i);
    assert ListFits(nodes, p, i, l, nodes[i].layers[l]);
    DistinctPush<nat>(ListAt(nodes, i, l), |nodes|);
  }

  method LinkLayer(ghost before: seq<Node>, nodes: seq<Node>, vecs: seq<Vector>, p: Params, plan: InsertionPlan,
                   lc: nat)
    returns (after: seq<Node>)
    requires EdgesOk(before, p) && ListsFit(before, p, plan.neighbours) && lc < |plan.neighbours|
    requires Linking(before, nodes, vecs, p, plan, lc, 0)
    ensures Linking(before, after, vecs, p, plan, lc + 1, 0)
  {
    hide EdgesOk, ListsFit, EdgeState, Pruned, Distinct;
    after := nodes;
    var list := plan.neighbours[lc];
    var n: nat := |nodes| - 1;
    for j := 0 to |list|
      invariant Linking(before, after, vecs, p, plan, lc, j)
    {
      var i := list[j];
      LinkOne(before, after, vecs, p, plan, lc, j, []);
      if i < |after| && lc < |after[i].layers| {
        PushIsDistinct(before, p, i, lc);
        var pruned := Prune(Around(vecs, p, i), p, lc, after[i].layers[lc] + [n]);
        LinkOne(before, after, vecs, p, plan, lc, j, pruned);
        after := SetList(after, i, lc, pruned);
      }
    }
    LayerLinked(before, after, vecs, p, plan, lc);
  }

  /** Push the new node and make every reverse edge, layer by layer from the bottom. */
  method Link(nodes: seq<Node>, vecs: seq<Vector>, p: Params, plan: InsertionPlan) returns (after: seq<Node>)
    requires EdgesOk(nodes, p) && ListsFit(nodes, p, plan.neighbours)
    ensures LinkedUp(nodes, after, vecs, p, plan)
  {
    hide EdgesOk, ListsFit, EdgeState;
    after := nodes + [Node(plan.id, plan.neighbours)];
    StartLinking(nodes, vecs, p, plan);
    for lc := 0 to |plan.neighbours|
      invariant Linking(nodes, after, vecs, p, plan, lc, 0)
    {
      after := LinkLayer(nodes, after, vecs, p, plan, lc);
    }
  }

  /** `commit_insert`. */
  method Commit(g: Graph, p: Params, plan: InsertionPlan) returns (g': Graph)
    requires GraphOk(g, p) && PlanFits(g.nodes, p, plan)
    ensures Committed(g, p, plan, g')
  {
    hide EdgesOk, ListsFit, EdgeState, EntryOk, IdsOk, Rows;
    var deleted := if plan.id in g.idToNode then g.deleted + {plan.id} else g.deleted;
    var n := |g.nodes|;
    var vecs := Rows(g.data, p.dim, n) + [plan.vector];
    var nodes := Link(g.nodes, vecs, p, plan);
    g' := Graph(nodes, g.data + plan.vector, g.idToNode[plan.id := n], deleted - {plan.id}, g.entry, g.maxLevel);
    if g.entry.None? || plan.level > g.maxLevel {
      g' := g'.(entry := Some(n), maxLevel := plan.level);
    }
  }

  // --- What a commit keeps ---------------------------------------------------------------------------

  lemma PrunedShape(x: Walk, p: Params, l: nat, list: seq<nat>, r: seq<nat>)
    requires Distinct(list) && Pruned(x, p, l, list, r)
    ensures Distinct(r) && |r| <= p.MAt(l) && forall n | n in r :: n in list
  {
    hide IsSelection, Distinct;
    if |list| > p.MAt(l) {
      SelectionShape(x, p.heuristic, Elements(list), p.MAt(l), r);
      forall n | n in r ensures n in list { assert n in Elements(r); }
    }
  }

  /** Every list of an old node still fits: edges in range and layer, no loops, no duplicates, bounded degree. */
  lemma OldListFits(before: seq<Node>, after: seq<Node>, vecs: seq<Vector>, p: Params, plan: InsertionPlan, i: nat,
                    l: nat)
    requires EdgesOk(before, p) && LinkedUp(before, after, vecs, p, plan)
    requires HasLayer(before, i, l)
    ensures HasLayer(after, i, l) && ListFits(after, p, i, l, after[i].layers[l])
  {
    hide Pruned, Distinct;
    assert NodeFits(before, p, i);
    assert ListFits(before, p, i, l, ListAt(before, i, l));
    assert EdgeState(before, after, vecs, p, plan, |plan.neighbours|, 0, i, l);
    if Touched(plan, |plan.neighbours|, 0, i, l) {
      PushIsDistinct(before, p, i, l);
      PrunedShape(Around(vecs, p, i), p, l, ListAt(before, i, l) + [|before|], ListAt(after, i, l));
    }
  }

  lemma NewListFits(before: seq<Node>, after: seq<Node>, vecs: seq<Vector>, p: Params, plan: InsertionPlan, l: nat)
    requires ListsFit(before, p, plan.neighbours) && LinkedUp(before, after, vecs, p, plan) && l < |plan.neighbours|
    ensures HasLayer(after, |before|, l) && ListFits(after, p, |before|, l, after[|before|].layers[l])
  {
    assert PlanListFits(before, p, l, plan.neighbours[l]);
    forall n | n in plan.neighbours[l] ensures HasLayer(after, n, l) && n != |before| {
      assert HasLayer(before, n, l);
    }
  }

  lemma CommitKeepsEdges(before: seq<Node>, after: seq<Node>, vecs: seq<Vector>, p: Params, plan: InsertionPlan)
    requires EdgesOk(before, p) && PlanFits(before, p, plan) && LinkedUp(before, after, vecs, p, plan)
    ensures EdgesOk(after, p)
  {
    hide ListFits, EdgeState, ListsFit;
    forall i | 0 <= i < |after| ensures NodeFits(after, p, i) {
      if i < |before| {
        assert NodeFits(before, p, i);
        forall l | 0 <= l < |after[i].layers| ensures ListFits(after, p, i, l, after[i].layers[l]) {
          OldListFits(before, after, vecs, p, plan, i, l);
        }
      } else {
        forall l | 0 <= l < |after[i].layers| ensures ListFits(after, p, i, l, after[i].layers[l]) {
          NewListFits(before, after, vecs, p, plan, l);
        }
      }
    }
  }

  lemma CommitKeepsIds(g: Graph, p: Params, plan: InsertionPlan, g': Graph)
    requires GraphOk(g, p) && Committed(g, p, plan, g')
    ensures IdsOk(g')
  {
    hide EdgesOk, EntryOk, EdgeState, Rows;
    forall id | id in g'.idToNode ensures Newest(g'.nodes, id, g'.idToNode[id]) {
      if id != plan.id { assert Newest(g.nodes, id, g.idToNode[id]); }
    }
  }

  /** A commit keeps the graph invariant. */
  lemma CommitKeepsOk(g: Graph, p: Params, plan: InsertionPlan, g': Graph)
    requires GraphOk(g, p) && PlanFits(g.nodes, p, plan) && Committed(g, p, plan, g')
    ensures GraphOk(g', p) && Grows(g.nodes, g'.nodes) && |g'.nodes| == |g.nodes| + 1 && g'.entry.Some?
  {
    hide EdgesOk, EdgeState, Rows, IdsOk;
    CommitKeepsIds(g, p, plan, g');
    CommitKeepsEdges(g.nodes, g'.nodes, Rows(g.data, p.dim, |g.nodes|) + [plan.vector], p, plan);
    assert plan.id in g'.idToNode.Keys && plan.id !in g'.deleted;
  }

  /** On the map the graph stands for, a commit is an insert. */
  lemma CommitIsInsert(g: Graph, p: Params, plan: InsertionPlan, g': Graph)
    requires GraphOk(g, p) && PlanFits(g.nodes, p, plan) && Committed(g, p, plan, g')
    ensures GraphOk(g', p) && Live(g', p) == With(Live(g, p), plan.id, plan.vector)
  {
    hide EdgesOk, EntryOk, LinkedUp, Grows, IdsOk;
    CommitKeepsOk(g, p, plan, g');
    RowsAppend(g.data, p.dim, |g.nodes|, plan.vector);
    LiveAfterCommit(g, p, plan, g');
  }

  lemma LiveAfterCommit(g: Graph, p: Params, plan: InsertionPlan, g': Graph)
    requires |g.data| == Offset(|g.nodes|, p.dim) && IdsOk(g) && |g'.data| == Offset(|g'.nodes|, p.dim) && IdsOk(g')
    requires |g'.nodes| == |g.nodes| + 1
    requires Rows(g'.data, p.dim, |g'.nodes|) == Rows(g.data, p.dim, |g.nodes|) + [plan.vector]
    requires g'.idToNode == g.idToNode[plan.id := |g.nodes|] && g'.deleted == g.deleted - {plan.id}
    ensures Live(g', p) == With(Live(g, p), plan.id, plan.vector)
  {
    hide Rows;
    var m, m' := Live(g, p), Live(g', p);
    forall id | id in m' ensures id == plan.id || (id in m && m'[id] == m[id]) {
      if id != plan.id {
        assert Newest(g.nodes, id, g.idToNode[id]);
      }
    }
  }
}
