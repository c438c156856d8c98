/**
 * The HNSW graph as a value: its structural invariant, what a plan and a commit do to it, and how
 * tombstones and the entry point follow.
 */
module HnswGraph {
  import opened Core
  import opened Slab
  import opened TopK
  import opened Contents
  import opened Beam
  import opened Selection

  const MAX_LEVEL: nat := 16

  datatype Params = Params(dim: nat, dist: Distance, m: nat, efConstruction: nat, efSearch: nat, heuristic: bool) {
    /** Parameters `new` accepts. */
    predicate Ok() {
      dim > 0 && m >= 2 && efConstruction >= m && efSearch >= 1
    }

    /** Maximum number of neighbours at a layer. */
    function MAt(level: nat): nat {
      if level == 0 then 2 * m else m
    }
  }

  /** The mutable fields of the index, committed together by each operation. */
  datatype Graph = Graph(nodes: seq<Node>, data: seq<real>, idToNode: map<VecId, nat>, deleted: set<VecId>,
                         entry: Option<nat>, maxLevel: nat)

  const EMPTY_GRAPH := Graph([], [], map[], {}, None, 0)

  // --- Structure ----------------------------------------------------------------------------

  predicate HasLayer(nodes: seq<Node>, i: nat, l: nat) {
    i < |nodes| && l < |nodes[i].layers|
  }

  /** An edge of layer `l` stays in range, is no loop, and ends at a node that has layer `l`. */
  ghost predicate EdgesFit(nodes: seq<Node>, i: nat, l: nat, list: seq<nat>) {
    forall n | n in list :: HasLayer(nodes, n, l) && n != i
  }

  /** A neighbour list: fitting edges, no duplicates, degree within bounds. */
  ghost predicate ListFits(nodes: seq<Node>, p: Params, i: nat, l: nat, list: seq<nat>) {
    Distinct(list) && |list| <= p.MAt(l) && EdgesFit(nodes, i, l, list)
  }

  ghost predicate NodeFits(nodes: seq<Node>, p: Params, i: nat)
    requires i < |nodes|
  {
    1 <= |nodes[i].layers| <= MAX_LEVEL + 1
    && forall l | 0 <= l < |nodes[i].layers| :: ListFits(nodes, p, i, l, nodes[i].layers[l])
  }

  /** The graph invariant: every neighbour list of every node fits. */
  ghost predicate EdgesOk(nodes: seq<Node>, p: Params) {
    forall i | 0 <= i < |nodes| :: NodeFits(nodes, p, i)
  }

  /** `idToNode` names the newest node of each id. */
  ghost predicate Newest(nodes: seq<Node>, id: VecId, i: nat) {
    i < |nodes| && nodes[i].id == id && forall j | i < j < |nodes| :: nodes[j].id != id
  }

  ghost predicate IdsOk(g: Graph) {
    && (forall id | id in g.idToNode :: Newest(g.nodes, id, g.idToNode[id]))
    && (forall i | 0 <= i < |g.nodes| :: g.nodes[i].id in g.idToNode)
    && g.deleted <= g.idToNode.Keys
  }

  /** There is an entry point exactly when some id is live; its id is live and it has the top layer. */
  ghost predicate EntryOk(g: Graph) {
    && (g.entry.None? <==> g.idToNode.Keys == g.deleted)
    && (g.entry.None? ==> g.maxLevel == 0)
    && (g.entry.Some? ==>
          && g.entry.value < |g.nodes| && g.nodes[g.entry.value].id !in g.deleted
          && |g.nodes[g.entry.value].layers| == g.maxLevel + 1)
  }

  ghost predicate GraphOk(g: Graph, p: Params) {
    && p.Ok()
    && |g.data| == Offset(|g.nodes|, p.dim)
    && EdgesOk(g.nodes, p) && IdsOk(g) && EntryOk(g)
  }

  /** The id-to-vector map the graph stands for. */
  ghost function Live(g: Graph, p: Params): (m: Store)
    requires |g.data| == Offset(|g.nodes|, p.dim) && IdsOk(g)
    ensures m.Keys == g.idToNode.Keys - g.deleted && Uniform(m, p.dim)
  {
    var vecs := Rows(g.data, p.dim, |g.nodes|);
    assert forall id | id in g.idToNode :: Newest(g.nodes, id, g.idToNode[id]);
    map id | id in g.idToNode && id !in g.deleted :: vecs[g.idToNode[id]]
  }

  /** The layer `l` of the graph, seen from a query. */
  function LayerWalk(g: Graph, p: Params, query: Vector, l: nat): Walk
    requires |g.data| == Offset(|g.nodes|, p.dim)
  {
    Walk(g.nodes, Rows(g.data, p.dim, |g.nodes|), p.dist, query, l)
  }

  lemma LayerInRange(g: Graph, p: Params, query: Vector, l: nat)
    requires |g.data| == Offset(|g.nodes|, p.dim) && EdgesOk(g.nodes, p)
    ensures LayerWalk(g, p, query, l).InRange()
  {
    var x := LayerWalk(g, p, query, l);
    forall i: nat, n | n in x.Neighbours(i) ensures n < |g.nodes| {
      assert NodeFits(g.nodes, p, i);
      assert ListFits(g.nodes, p, i, l, g.nodes[i].layers[l]);
    }
  }

  /** Edges of a layer lead only to nodes that have it. */
  lemma {:induction false} PathKeepsLayer(g: Graph, p: Params, query: Vector, l: nat, path: seq<nat>)
    requires |g.data| == Offset(|g.nodes|, p.dim) && EdgesOk(g.nodes, p)
    requires LayerWalk(g, p, query, l).IsPath(path) && HasLayer(g.nodes, path[0], l)
    ensures HasLayer(g.nodes, path[|path| - 1], l)
  {
    if |path| > 1 {
      var n := |path| - 1;
      var front := path[..n];
      PathKeepsLayer(g, p, query, l, front);
      assert path[n] in LayerWalk(g, p, query, l).Neighbours(path[n - 1]);
      assert NodeFits(g.nodes, p, path[n - 1]);
      assert ListFits(g.nodes, p, path[n - 1], l, g.nodes[path[n - 1]].layers[l]);
    }
  }

  /** Everything a beam visits has the beam's layer. */
  lemma BeamKeepsLayer(g: Graph, p: Params, query: Vector, l: nat, ep: nat, ef: nat,
                       found: set<nat>, visited: set<nat>, stale: set<nat>)
    requires |g.data| == Offset(|g.nodes|, p.dim) && EdgesOk(g.nodes, p) && HasLayer(g.nodes, ep, l)
    requires LayerWalk(g, p, query, l).IsBeam(ep, ef, found, visited, stale)
    ensures forall v | v in found :: HasLayer(g.nodes, v, l)
  {
    var x := LayerWalk(g, p, query, l);
    forall v | v in found ensures HasLayer(g.nodes, v, l) {
      assert x.Reaches(ep, v);
      var path :| x.IsPath(path) && path[0] == ep && path[|path| - 1] == v;
      PathKeepsLayer(g, p, query, l, path);
    }
  }

  /** Nodes are only added, and existing ones keep their id and number of layers. */
  ghost predicate Grows(before: seq<Node>, after: seq<Node>) {
    && |before| <= |after|
    && forall i | 0 <= i < |before| :: after[i].id == before[i].id && |after[i].layers| == |before[i].layers|
  }

  lemma GrowsTwice(a: seq<Node>, b: seq<Node>, c: seq<Node>)
    requires Grows(a, b) && Grows(b, c)
    ensures Grows(a, c)
  {
  }

  /** The top layer never exceeds the cap, so one operation runs at most `MAX_LEVEL + 1` beam searches. */
  lemma LevelBound(g: Graph, p: Params)
    requires GraphOk(g, p)
    ensures g.maxLevel <= MAX_LEVEL
  {
    if g.entry.Some? { assert NodeFits(g.nodes, p, g.entry.value); }
  }
}
