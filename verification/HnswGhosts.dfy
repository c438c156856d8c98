/**
 * What overwritten nodes do to searches. An overwrite leaves the old node of an id in the graph, where
 * the tombstone filter lets it through; the lemmas say exactly when results repeat an id or carry a stale
 * score.
 */
module HnswGhosts {
  import opened Core
  import opened Slab
  import opened TopK
  import opened Beam
  import opened HnswGraph
  import opened HnswPlan
  import opened HnswCommit
  import opened Hnsw
  import opened HnswStarts

  /** Some id occurs twice in a report. */
  ghost predicate Repeats(all: Heap) {
    exists r, s | r in all && s in all :: r.id == s.id && (r != s || all[r] > 1)
  }

  /** Two admitted nodes of the beam have one id, as a node and the ghost an overwrite left of it do. */
  ghost predicate SharesId(g: Graph, filter: Filter, found: set<nat>) {
    exists i, j | i in found && j in found ::
      i != j && Admitted(g, filter, i) && Admitted(g, filter, j) && SameId(g, i, j)
  }

  predicate SameId(g: Graph, i: nat, j: nat) {
    i < |g.nodes| && j < |g.nodes| && g.nodes[i].id == g.nodes[j].id
  }

  lemma RepeatShares(g: Graph, x: Walk, filter: Filter, found: set<nat>, all: Heap, r: Scored, s: Scored)
    requires IsReport(g, x, filter, found, all) && r in all && s in all && r.id == s.id && (r != s || all[r] > 1)
    ensures SharesId(g, filter, found)
  {
    var ri, si := Reporters(g, x, filter, found, r), Reporters(g, x, filter, found, s);
    var i :| i in ri;
    var others := if r != s then si else ri - {i};
    assert |others| > 0;
    var j :| j in others;
    assert i != j && SameId(g, i, j);
  }

  lemma ShareRepeats(g: Graph, x: Walk, filter: Filter, found: set<nat>, all: Heap, i: nat, j: nat)
    requires IsReport(g, x, filter, found, all) && i in found && j in found && i != j
    requires Admitted(g, filter, i) && Admitted(g, filter, j) && g.nodes[i].id == g.nodes[j].id
    ensures Repeats(all)
  {
    var r, s := Scored(x.Score(i), g.nodes[i].id), Scored(x.Score(j), g.nodes[j].id);
    assert i in Reporters(g, x, filter, found, r) && j in Reporters(g, x, filter, found, s);
    if r == s {
      SubsetIsSmaller({i, j}, Reporters(g, x, filter, found, r));
    }
    assert r in all && s in all;
  }

  /** Overwrites can make a search list an id twice: exactly when its beam found two admitted nodes of one id. */
  lemma RepeatsIff(g: Graph, x: Walk, filter: Filter, found: set<nat>, all: Heap)
    requires IsReport(g, x, filter, found, all)
    ensures Repeats(all) <==> SharesId(g, filter, found)
  {
    hide IsReport, Admitted;
    if r, s :| r in all && s in all && r.id == s.id && (r != s || all[r] > 1) {
      RepeatShares(g, x, filter, found, all, r, s);
    }
    if i, j :| && i in found && j in found && i != j
               && Admitted(g, filter, i) && Admitted(g, filter, j) && SameId(g, i, j)
    {
      ShareRepeats(g, x, filter, found, all, i, j);
    }
  }

  /** An overwrite leaves the old node of the id where the tombstone filter lets it through. */
  lemma OverwriteLeavesGhost(g: Graph, p: Params, plan: InsertionPlan, g': Graph)
    requires GraphOk(g, p) && PlanFits(g.nodes, p, plan) && Committed(g, p, plan, g') && plan.id in g.idToNode
    ensures SharesId(g', None, {g.idToNode[plan.id], |g.nodes|})
  {
    hide EdgesOk, EntryOk, Rows, EdgeState;
    var i := g.idToNode[plan.id];
    assert Newest(g.nodes, plan.id, i);
    assert g'.nodes[i].id == g'.nodes[|g.nodes|].id == plan.id;
    assert Admitted(g', None, i) && Admitted(g', None, |g.nodes|);
  }

  // --- What a caller can know before the search ---------------------------------------------------------------

  ghost predicate DistinctIds(results: seq<Scored>) {
    forall i, j | 0 <= i < j < |results| :: results[i].id != results[j].id
  }

  /** The result carries the distance of its id's newest vector. */
  ghost predicate Current(g: Graph, p: Params, query: Vector, r: Scored)
    requires |g.data| == Offset(|g.nodes|, p.dim) && IdsOk(g)
  {
    r.id in Live(g, p) && r.d == p.dist(query, Live(g, p)[r.id])
  }

  lemma DistinctIffNoRepeats(results: seq<Scored>)
    ensures DistinctIds(results) <==> !Repeats(multiset(results))
  {
    var all := multiset(results);
    if !DistinctIds(results) {
      var i, j :| 0 <= i < j < |results| && results[i].id == results[j].id;
      TwoPositions(results, i, j);
      assert results[i] in all && results[j] in all;
    }
    if r, s :| r in all && s in all && r.id == s.id && (r != s || all[r] > 1) {
      if r != s {
        var i :| 0 <= i < |results| && results[i] == r;
        var j :| 0 <= j < |results| && results[j] == s;
        assert i != j;
      } else {
        var i, j := TwoCopies(results, r);
      }
    }
  }

  lemma TwoPositions(s: seq<Scored>, i: nat, j: nat)
    requires i < j < |s|
    ensures s[i] == s[j] ==> multiset(s)[s[i]] > 1
  {
    assert s == s[..j] + s[j..];
    assert s[i] in multiset(s[..j]) && s[j] in multiset(s[j..]);
  }

  lemma TwoCopies(s: seq<Scored>, x: Scored) returns (i: nat, j: nat)
    requires multiset(s)[x] > 1
    ensures i < j < |s| && s[i] == s[j] == x
  {
    var m: nat :| m < |s| && s[m] == x;
    assert s == s[..m] + [x] + s[m + 1..];
    assert multiset(s) == multiset(s[..m]) + multiset{x} + multiset(s[m + 1..]);
    if x in s[..m] {
      i :| 0 <= i < m && s[..m][i] == x;
      j := m;
    } else {
      assert x in multiset(s[m + 1..]);
      var n: nat :| n < |s| - m - 1 && s[m + 1..][n] == x;
      i, j := m, m + 1 + n;
    }
  }

  /** A ghost that gets through shares its id with the newest node, which gets through as well. */
  lemma AdmittedIsNewest(g: Graph, filter: Filter, i: nat)
    requires IdsOk(g) && Admitted(g, filter, i) && !SharesId(g, filter, Below(|g.nodes|))
    ensures g.nodes[i].id in g.idToNode && g.idToNode[g.nodes[i].id] == i
  {
    var n := g.idToNode[g.nodes[i].id];
    assert Newest(g.nodes, g.nodes[i].id, n);
    assert Admitted(g, filter, n) && SameId(g, i, n);
  }

  /**
   * If no two nodes that pass tombstones and filter have one id, every search lists each id once, with its
   * newest vector's distance.
   */
  lemma NoGhostsNoRepeats(g: Graph, p: Params, query: Vector, k: nat, filter: Filter, results: seq<Scored>, mid: nat,
                          found: set<nat>, all: Heap, unwrapped: bool)
    requires |g.data| == Offset(|g.nodes|, p.dim) && IdsOk(g) && g.entry.Some?
    requires IsSearch(g, p, query, k, filter, results, mid, found, all, unwrapped)
    requires !SharesId(g, filter, Below(|g.nodes|))
    ensures DistinctIds(results) && forall i | 0 <= i < |results| :: Current(g, p, query, results[i])
  {
    hide Descends, Searched, IsReport, Live, Rows, IdsOk, Current;
    var x := LayerWalk(g, p, query, 0);
    RepeatsIff(g, x, filter, found, all);
    assert !SharesId(g, filter, found);
    DistinctIffNoRepeats(results);
    assert multiset(results) <= all;
    forall i | 0 <= i < |results| ensures Current(g, p, query, results[i]) {
      assert results[i] in multiset(results);
      ReportedIsCurrent(g, p, query, filter, found, all, results[i]);
    }
  }

  lemma ReportedIsCurrent(g: Graph, p: Params, query: Vector, filter: Filter, found: set<nat>, all: Heap, r: Scored)
    requires |g.data| == Offset(|g.nodes|, p.dim) && IdsOk(g) && !SharesId(g, filter, Below(|g.nodes|))
    requires IsReport(g, LayerWalk(g, p, query, 0), filter, found, all) && r in all
    ensures Current(g, p, query, r)
  {
    hide Rows, IdsOk, SharesId;
    var i :| i in Reporters(g, LayerWalk(g, p, query, 0), filter, found, r);
    AdmittedIsNewest(g, filter, i);
  }

  /** On a graph without dead nodes, as after a rebuild, every search lists each id once, with its newest distance. */
  lemma NoDeadNoRepeats(g: Graph, p: Params, query: Vector, k: nat, filter: Filter, results: seq<Scored>, mid: nat,
                        found: set<nat>, all: Heap, unwrapped: bool)
    requires GraphOk(g, p) && g.entry.Some? && |g.nodes| == |Live(g, p)|
    requires IsSearch(g, p, query, k, filter, results, mid, found, all, unwrapped)
    ensures DistinctIds(results) && forall i | 0 <= i < |results| :: Current(g, p, query, results[i])
  {
    hide EdgesOk, EntryOk, IsSearch, Current, Live, SharesId, IdsOk;
    TwoCanonical(g, p, filter);
    NoGhostsNoRepeats(g, p, query, k, filter, results, mid, found, all, unwrapped);
  }

  lemma TwoCanonical(g: Graph, p: Params, filter: Filter)
    requires GraphOk(g, p) && |g.nodes| == |Live(g, p)|
    ensures !SharesId(g, filter, Below(|g.nodes|))
  {
    hide EdgesOk, EntryOk, IdsOk, GraphOk, Live, Admitted;
    forall i, j | i in Below(|g.nodes|) && j in Below(|g.nodes|) && SameId(g, i, j) ensures i == j {
      NoDeadNodes(g, p, i);
      NoDeadNodes(g, p, j);
    }
  }

  // --- Exactly when, for a search that reaches and returns everything --------------------------------------------

  lemma ReportersWithout(g: Graph, x: Walk, filter: Filter, found: set<nat>, i: nat, r: Scored)
    requires i in found
    ensures Reporters(g, x, filter, found - {i}, r) == Reporters(g, x, filter, found, r) - {i}
    ensures i in Reporters(g, x, filter, found, r) <==> Admitted(g, filter, i) && r == Scored(x.Score(i), g.nodes[i].id)
  {
  }

  lemma ReportDrop(g: Graph, x: Walk, filter: Filter, found: set<nat>, all: Heap, i: nat)
    requires IsReport(g, x, filter, found, all) && i in found
    ensures IsReport(g, x, filter, found - {i},
              if Admitted(g, filter, i) then all - multiset{Scored(x.Score(i), g.nodes[i].id)} else all)
    ensures Admitted(g, filter, i) ==> Scored(x.Score(i), g.nodes[i].id) in all
  {
    hide Reporters;
    var all' := if Admitted(g, filter, i) then all - multiset{Scored(x.Score(i), g.nodes[i].id)} else all;
    forall r ensures all'[r] == |Reporters(g, x, filter, found - {i}, r)| {
      ReportersWithout(g, x, filter, found, i, r);
      assert all[r] == |Reporters(g, x, filter, found, r)|;
    }
    if Admitted(g, filter, i) {
      ReportersWithout(g, x, filter, found, i, Scored(x.Score(i), g.nodes[i].id));
    }
  }

  /** A report has at most one entry per found node. */
  lemma {:induction false} ReportSize(g: Graph, x: Walk, filter: Filter, found: set<nat>, all: Heap)
    requires IsReport(g, x, filter, found, all)
    ensures |all| <= |found|
    decreases |found|
  {
    hide IsReport;
    if found == {} {
      NothingReported(g, x, filter, all);
    } else {
      var i :| i in found;
      ReportDrop(g, x, filter, found, all, i);
      ReportSize(g, x, filter, found - {i},
        if Admitted(g, filter, i) then all - multiset{Scored(x.Score(i), g.nodes[i].id)} else all);
    }
  }

  lemma NothingReported(g: Graph, x: Walk, filter: Filter, all: Heap)
    requires IsReport(g, x, filter, {}, all)
    ensures all == multiset{}
  {
    forall r ensures all[r] == 0 {
      assert Reporters(g, x, filter, {}, r) == {};
    }
  }

  /** With room for every entry, the answer is the whole report. */
  lemma WholeReport(results: seq<Scored>, all: Heap, k: nat)
    requires IsTopK(results, all, k) && k >= |all|
    ensures multiset(results) == all
  {
    assert |all - multiset(results)| == 0;
  }

  /**
   * A search wide enough to reach everything and to return everything repeats an id exactly when two
   * reachable nodes that pass tombstones and filter have one id.
   */
  lemma WideSearchRepeatsIff(g: Graph, p: Params, query: Vector, k: nat, filter: Filter, results: seq<Scored>, mid: nat,
                             found: set<nat>, all: Heap, reachable: set<nat>)
    requires |g.data| == Offset(|g.nodes|, p.dim) && g.entry.Some?
    requires IsSearch(g, p, query, k, filter, results, mid, found, all, true)
    requires forall v :: v in reachable <==> LayerWalk(g, p, query, 0).Reaches(mid, v)
    requires k >= |reachable|
    ensures DistinctIds(results) <==> !SharesId(g, filter, reachable)
  {
    hide IsReport, IsTopK, Descends, Searched, SharesId;
    WideSearchReturnsAll(g, p, query, k, filter, results, mid, found, all, reachable);
    RepeatsIff(g, LayerWalk(g, p, query, 0), filter, reachable, all);
    DistinctIffNoRepeats(results);
  }

  lemma WideSearchReturnsAll(g: Graph, p: Params, query: Vector, k: nat, filter: Filter, results: seq<Scored>, mid: nat,
                             found: set<nat>, all: Heap, reachable: set<nat>)
    requires |g.data| == Offset(|g.nodes|, p.dim) && g.entry.Some?
    requires IsSearch(g, p, query, k, filter, results, mid, found, all, true)
    requires forall v :: v in reachable <==> LayerWalk(g, p, query, 0).Reaches(mid, v)
    requires k >= |reachable|
    ensures IsReport(g, LayerWalk(g, p, query, 0), filter, reachable, all) && multiset(results) == all
  {
    hide IsReport, IsTopK, Descends, Searched;
    WideSearchIsExact(g, p, query, k, filter, results, mid, found, all, reachable);
    ReportSize(g, LayerWalk(g, p, query, 0), filter, reachable, all);
    WholeReport(results, all, k);
  }

  /** Wherever a search can start, layer 0 reaches the same nodes. */
  ghost predicate OneReach(g: Graph, p: Params, query: Vector, reachable: set<nat>)
    requires |g.data| == Offset(|g.nodes|, p.dim)
  {
    forall start, v | PossibleStart(g, start) :: v in reachable <==> LayerWalk(g, p, query, 0).Reaches(start, v)
  }

  /**
   * Known before the search: with one reach, it repeats an id exactly when two admitted nodes of that reach
   * have one id.
   */
  lemma RepeatsBeforehandIff(g: Graph, p: Params, query: Vector, k: nat, filter: Filter, results: seq<Scored>, mid: nat,
                             found: set<nat>, all: Heap, reachable: set<nat>)
    requires GraphOk(g, p) && g.entry.Some? && OneReach(g, p, query, reachable) && k >= |reachable|
    requires IsSearch(g, p, query, k, filter, results, mid, found, all, true)
    ensures DistinctIds(results) <==> !SharesId(g, filter, reachable)
  {
    hide EdgesOk, IdsOk, EntryOk, IsSearch, PossibleStart, SharesId;
    StartIsPossible(g, p, query, k, filter, results, mid, found, all, true);
    WideSearchRepeatsIff(g, p, query, k, filter, results, mid, found, all, reachable);
  }

  /** Node `i` is as far from the query as the newest node of its id. */
  ghost predicate AsNewest(g: Graph, x: Walk, i: nat) {
    i < |g.nodes| && g.nodes[i].id in g.idToNode && x.Score(i) == x.Score(g.idToNode[g.nodes[i].id])
  }

  /**
   * Such a search returns only current scores exactly when every reachable admitted node is as far as its
   * newest one.
   */
  lemma WideSearchCurrentIff(g: Graph, p: Params, query: Vector, k: nat, filter: Filter, results: seq<Scored>, mid: nat,
                             found: set<nat>, all: Heap, reachable: set<nat>)
    requires |g.data| == Offset(|g.nodes|, p.dim) && IdsOk(g) && g.entry.Some?
    requires IsSearch(g, p, query, k, filter, results, mid, found, all, true)
    requires forall v :: v in reachable <==> LayerWalk(g, p, query, 0).Reaches(mid, v)
    requires k >= |reachable|
    ensures (forall i | 0 <= i < |results| :: Current(g, p, query, results[i]))
       <==> forall i | i in reachable && Admitted(g, filter, i) :: AsNewest(g, LayerWalk(g, p, query, 0), i)
  {
    hide IsReport, IsTopK, Descends, Searched, Current, AsNewest, Admitted, IdsOk;
    var x := LayerWalk(g, p, query, 0);
    WideSearchReturnsAll(g, p, query, k, filter, results, mid, found, all, reachable);
    if forall i | 0 <= i < |results| :: Current(g, p, query, results[i]) {
      forall i | i in reachable && Admitted(g, filter, i) ensures AsNewest(g, x, i) {
        var r := EntryOf(g, p, query, filter, reachable, all, i);
        assert r in multiset(results);
        EntryCurrentIff(g, p, query, filter, i, r);
      }
    }
    if forall i | i in reachable && Admitted(g, filter, i) :: AsNewest(g, x, i) {
      forall j | 0 <= j < |results| ensures Current(g, p, query, results[j]) {
        assert results[j] in multiset(results);
        var i := ReporterOf(g, p, query, filter, reachable, all, results[j]);
        EntryCurrentIff(g, p, query, filter, i, results[j]);
      }
    }
  }

  /**
   * Known before the search: all scores are current exactly when every admitted node of the reach is as far
   * as its newest.
   */
  lemma CurrentBeforehandIff(g: Graph, p: Params, query: Vector, k: nat, filter: Filter, results: seq<Scored>, mid: nat,
                             found: set<nat>, all: Heap, reachable: set<nat>)
    requires GraphOk(g, p) && g.entry.Some? && OneReach(g, p, query, reachable) && k >= |reachable|
    requires IsSearch(g, p, query, k, filter, results, mid, found, all, true)
    ensures (forall i | 0 <= i < |results| :: Current(g, p, query, results[i]))
       <==> forall i | i in reachable && Admitted(g, filter, i) :: AsNewest(g, LayerWalk(g, p, query, 0), i)
  {
    hide EdgesOk, IdsOk, EntryOk, IsSearch, PossibleStart, Current, AsNewest, Admitted;
    StartIsPossible(g, p, query, k, filter, results, mid, found, all, true);
    WideSearchCurrentIff(g, p, query, k, filter, results, mid, found, all, reachable);
  }

  lemma EntryOf(g: Graph, p: Params, query: Vector, filter: Filter, found: set<nat>, all: Heap, i: nat)
    returns (r: Scored)
    requires |g.data| == Offset(|g.nodes|, p.dim)
    requires IsReport(g, LayerWalk(g, p, query, 0), filter, found, all) && i in found && Admitted(g, filter, i)
    ensures r == Scored(LayerWalk(g, p, query, 0).Score(i), g.nodes[i].id) && r in all
  {
    r := Scored(LayerWalk(g, p, query, 0).Score(i), g.nodes[i].id);
    assert i in Reporters(g, LayerWalk(g, p, query, 0), filter, found, r);
  }

  lemma ReporterOf(g: Graph, p: Params, query: Vector, filter: Filter, found: set<nat>, all: Heap, r: Scored)
    returns (i: nat)
    requires |g.data| == Offset(|g.nodes|, p.dim)
    requires IsReport(g, LayerWalk(g, p, query, 0), filter, found, all) && r in all
    ensures i in found && Admitted(g, filter, i) && r == Scored(LayerWalk(g, p, query, 0).Score(i), g.nodes[i].id)
  {
    i :| i in Reporters(g, LayerWalk(g, p, query, 0), filter, found, r);
  }

  lemma EntryCurrentIff(g: Graph, p: Params, query: Vector, filter: Filter, i: nat, r: Scored)
    requires |g.data| == Offset(|g.nodes|, p.dim) && IdsOk(g) && Admitted(g, filter, i)
    requires r == Scored(LayerWalk(g, p, query, 0).Score(i), g.nodes[i].id)
    ensures Current(g, p, query, r) <==> AsNewest(g, LayerWalk(g, p, query, 0), i)
  {
    hide Rows;
    assert Newest(g.nodes, g.nodes[i].id, g.idToNode[g.nodes[i].id]);
  }
}
