/**
 * Where a search's descent to layer 0 ends. A deleted node stays a stepping stone, and the descent may end
 * at one.
 */
module HnswStarts {
  import opened Core
  import opened Slab
  import opened TopK
  import opened Beam
  import opened HnswGraph
  import opened HnswPlan
  import opened HnswLinks
  import opened Hnsw

  /** Where a descent to layer 0 can end: the entry point of a graph of one layer, else a node of layer 1. */
  ghost predicate PossibleStart(g: Graph, i: nat) {
    if g.maxLevel == 0 then g.entry == Some(i) else HasLayer(g.nodes, i, 1)
  }

  lemma StartIsPossible(g: Graph, p: Params, query: Vector, k: nat, filter: Filter, results: seq<Scored>, mid: nat,
                        found: set<nat>, all: Heap, unwrapped: bool)
    requires GraphOk(g, p) && g.entry.Some? && IsSearch(g, p, query, k, filter, results, mid, found, all, unwrapped)
    ensures PossibleStart(g, mid)
  {
    hide EdgesOk, IdsOk, Searched, IsReport, IsTopK;
    if g.maxLevel > 0 {
      DescentKeepsLayer(g, p, query, g.entry.value, g.maxLevel, 0, mid, unwrapped);
    }
  }

  /** While no deleted node has an upper layer, every search starts at a live node. */
  lemma StartIsLive(g: Graph, p: Params, query: Vector, k: nat, filter: Filter, results: seq<Scored>, mid: nat,
                    found: set<nat>, all: Heap, unwrapped: bool)
    requires GraphOk(g, p) && g.entry.Some? && IsSearch(g, p, query, k, filter, results, mid, found, all, unwrapped)
    requires forall i | 0 <= i < |g.nodes| && g.nodes[i].id in g.deleted :: !HasLayer(g.nodes, i, 1)
    ensures mid < |g.nodes| && g.nodes[mid].id !in g.deleted
  {
    hide EdgesOk, IdsOk, IsSearch;
    StartIsPossible(g, p, query, k, filter, results, mid, found, all, unwrapped);
  }

  ghost predicate IsDead(g: Graph, i: nat) {
    i < |g.nodes| && g.nodes[i].id in g.deleted
  }

  /** What `closest_live` is documented to return: a closest non-deleted node. */
  ghost predicate ClosestLive(g: Graph, x: Walk, found: set<nat>, c: nat) {
    c in found && !IsDead(g, c) && forall f | f in found && !IsDead(g, f) :: x.Score(c) <= x.Score(f)
  }

  /**
   * A closest node, which is what it returns, is a closest live one however ties fall exactly when every
   * deleted candidate is farther than some live one.
   */
  lemma ClosestLiveIff(g: Graph, x: Walk, found: set<nat>)
    ensures (forall c | Closest(x, found, c) :: ClosestLive(g, x, found, c))
       <==> forall d | d in found && IsDead(g, d) :: exists f :: f in found && !IsDead(g, f) && x.Score(f) < x.Score(d)
  {
    hide IsDead;
    if forall c | Closest(x, found, c) :: ClosestLive(g, x, found, c) {
      forall d | d in found && IsDead(g, d) ensures exists f :: f in found && !IsDead(g, f) && x.Score(f) < x.Score(d) {
        SomeClosest(x, found);
        var c :| Closest(x, found, c);
        assert ClosestLive(g, x, found, c);
        assert x.Score(c) == x.Score(d) ==> Closest(x, found, d);
      }
    }
    if forall d | d in found && IsDead(g, d) :: exists f :: f in found && !IsDead(g, f) && x.Score(f) < x.Score(d) {
      forall c | Closest(x, found, c) ensures ClosestLive(g, x, found, c) { }
    }
  }

  lemma {:induction false} SomeClosest(x: Walk, found: set<nat>)
    requires found != {}
    ensures exists c :: Closest(x, found, c)
    decreases |found|
  {
    var c :| c in found;
    var rest := found - {c};
    assert forall f | f in found :: f == c || f in rest;
    if rest == {} {
      assert Closest(x, found, c);
    } else {
      SomeClosest(x, rest);
      var d :| Closest(x, rest, d);
      assert Closest(x, found, if x.Score(d) < x.Score(c) then d else c);
    }
  }
}
