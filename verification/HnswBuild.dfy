/**
 * Batch building: waves of plans made on one snapshot and then committed in input order, and the
 * compaction capture that feeds a rebuild.
 */
module HnswBuild {
  import opened Core
  import opened Slab
  import opened Contents
  import opened Beam
  import opened HnswGraph
  import opened HnswPlan
  import opened HnswCommit

  /** The plans are committed in order. */
  ghost predicate CommitsAll(g: Graph, p: Params, plans: seq<InsertionPlan>, g': Graph) {
    if plans == [] then g' == g
    else
      var n := |plans| - 1;
      exists mid ::
        && CommitsAll(g, p, plans[..n], mid)
        && |mid.data| == Offset(|mid.nodes|, p.dim) && Committed(mid, p, plans[n], g')
  }

  /** A plan for one row of the batch, made on `snapshot`. */
  ghost predicate PlansRow(snapshot: Graph, p: Params, row: BatchRow, plan: InsertionPlan, unwrapped: bool)
    requires |snapshot.data| == Offset(|snapshot.nodes|, p.dim)
  {
    && plan.id == row.0 && plan.vector == row.1
    && IsPlan(snapshot, p, plan, unwrapped) && PlanFits(snapshot.nodes, p, plan)
  }

  ghost predicate PlansRows(snapshot: Graph, p: Params, rows: seq<BatchRow>, plans: seq<InsertionPlan>, unwrapped: bool)
    requires |snapshot.data| == Offset(|snapshot.nodes|, p.dim)
  {
    |plans| == |rows| && forall i | 0 <= i < |rows| :: PlansRow(snapshot, p, rows[i], plans[i], unwrapped)
  }

  /** One wave: every plan reads the graph before the wave. */
  ghost predicate IsWave(g: Graph, p: Params, rows: seq<BatchRow>, g': Graph, unwrapped: bool)
    requires |g.data| == Offset(|g.nodes|, p.dim)
  {
    exists plans :: PlansRows(g, p, rows, plans, unwrapped) && CommitsAll(g, p, plans, g')
  }

  /** Size of a wave: one for the first node of an empty graph, else `width`, or less at the end of the batch. */
  predicate WaveSize(g: Graph, n: nat, width: nat, atEnd: bool) {
    if g.entry.None? then n == 1 else n == width || (atEnd && n <= width)
  }

  /** The rows cut into waves, in input order; only the last may be short, and only at the end of the batch. */
  ghost predicate IsBatch(g: Graph, p: Params, rows: seq<BatchRow>, width: nat, atEnd: bool, g': Graph,
                          unwrapped: bool) {
    if rows == [] then g' == g
    else
      exists lo, mid | 0 <= lo < |rows| ::
        && IsBatch(g, p, rows[..lo], width, false, mid, unwrapped) && WaveSize(mid, |rows| - lo, width, atEnd)
        && |mid.data| == Offset(|mid.nodes|, p.dim) && IsWave(mid, p, rows[lo..], g', unwrapped)
  }

  // --- What waves keep -------------------------------------------------------------------------------

  /** Stale plans committed in order keep the graph invariant and insert their rows in order. */
  lemma {:induction false} CommitsAllKeep(snapshot: Graph, g: Graph, p: Params, rows: seq<BatchRow>,
                                          plans: seq<InsertionPlan>, g': Graph, unwrapped: bool)
    requires GraphOk(snapshot, p) && GraphOk(g, p) && Grows(snapshot.nodes, g.nodes)
    requires PlansRows(snapshot, p, rows, plans, unwrapped) && CommitsAll(g, p, plans, g')
    ensures GraphOk(g', p) && Grows(g.nodes, g'.nodes) && |g'.nodes| == |g.nodes| + |rows|
    ensures Live(g', p) == InsertAll(Live(g, p), rows)
    ensures rows != [] ==> g'.entry.Some?
  {
    hide EdgesOk, IdsOk, IsPlan, PlanFits, Committed, Grows, EntryOk, Live;
    if plans == [] {
      GrowsSelf(g.nodes);
    } else {
      var n := |plans| - 1;
      var mid :| CommitsAll(g, p, plans[..n], mid) && |mid.data| == Offset(|mid.nodes|, p.dim)
        && Committed(mid, p, plans[n], g');
      CommitsAllKeep(snapshot, g, p, rows[..n], plans[..n], mid, unwrapped);
      GrowsTwice(snapshot.nodes, g.nodes, mid.nodes);
      assert PlansRow(snapshot, p, rows[n], plans[n], unwrapped);
      StalePlanFits(snapshot.nodes, mid.nodes, p, plans[n]);
      CommitKeepsOk(mid, p, plans[n], g');
      CommitIsInsert(mid, p, plans[n], g');
      GrowsTwice(g.nodes, mid.nodes, g'.nodes);
    }
  }

  lemma GrowsSelf(nodes: seq<Node>)
    ensures Grows(nodes, nodes)
  {
  }

  lemma WaveKeeps(g: Graph, p: Params, rows: seq<BatchRow>, g': Graph, unwrapped: bool)
    requires GraphOk(g, p) && IsWave(g, p, rows, g', unwrapped)
    ensures GraphOk(g', p) && |g'.nodes| == |g.nodes| + |rows|
    ensures Live(g', p) == InsertAll(Live(g, p), rows)
  {
    hide EdgesOk, IdsOk, EntryOk, PlansRows, CommitsAll, Live;
    var plans :| PlansRows(g, p, rows, plans, unwrapped) && CommitsAll(g, p, plans, g');
    GrowsSelf(g.nodes);
    CommitsAllKeep(g, g, p, rows, plans, g', unwrapped);
  }

  lemma InsertAllSplit(m: Store, rows: seq<BatchRow>, lo: nat)
    requires lo <= |rows|
    ensures InsertAll(m, rows) == InsertAll(InsertAll(m, rows[..lo]), rows[lo..])
  {
    InsertAllConcat(m, rows[..lo], rows[lo..]);
    assert rows[..lo] + rows[lo..] == rows;
  }

  /** However a batch is cut into waves, it keeps the invariant and the last row of each id wins. */
  lemma {:induction false} BatchKeeps(g: Graph, p: Params, rows: seq<BatchRow>, width: nat, atEnd: bool, g': Graph,
                                      unwrapped: bool)
    requires GraphOk(g, p) && IsBatch(g, p, rows, width, atEnd, g', unwrapped)
    ensures GraphOk(g', p) && |g'.nodes| == |g.nodes| + |rows|
    ensures Live(g', p) == InsertAll(Live(g, p), rows)
    decreases |rows|
  {
    hide EdgesOk, IdsOk, EntryOk, IsWave, Live;
    if rows != [] {
      var lo, mid :| 0 <= lo < |rows| && IsBatch(g, p, rows[..lo], width, false, mid, unwrapped)
        && WaveSize(mid, |rows| - lo, width, atEnd)
        && |mid.data| == Offset(|mid.nodes|, p.dim) && IsWave(mid, p, rows[lo..], g', unwrapped);
      BatchKeeps(g, p, rows[..lo], width, false, mid, unwrapped);
      WaveKeeps(mid, p, rows[lo..], g', unwrapped);
      InsertAllSplit(Live(g, p), rows, lo);
    }
  }

  // --- Building ----------------------------------------------------------------------------------------

  /** The new nodes got the levels drawn for their rows, capped. */
  ghost predicate Leveled(nodes: seq<Node>, from: nat, levels: nat -> nat, n: nat) {
    forall i | 0 <= i < n :: from + i < |nodes| && |nodes[from + i].layers| == 1 + Min(levels(i), 16)
  }

  /** Committing keeps levels, and gives each new node its plan's. */
  lemma {:induction false} CommitsLeveled(g: Graph, p: Params, plans: seq<InsertionPlan>, g': Graph)
    requires |g.data| == Offset(|g.nodes|, p.dim) && CommitsAll(g, p, plans, g')
    ensures |g'.nodes| == |g.nodes| + |plans| && Grows(g.nodes, g'.nodes)
    ensures forall k | 0 <= k < |plans| :: |g'.nodes[|g.nodes| + k].layers| == |plans[k].neighbours|
  {
    hide Committed, Grows;
    if plans == [] {
      GrowsSelf(g.nodes);
    } else {
      var n := |plans| - 1;
      var mid :| CommitsAll(g, p, plans[..n], mid) && |mid.data| == Offset(|mid.nodes|, p.dim)
        && Committed(mid, p, plans[n], g');
      CommitsLeveled(g, p, plans[..n], mid);
      CommitGrows(mid, p, plans[n], g');
      GrowsTwice(g.nodes, mid.nodes, g'.nodes);
      forall k | 0 <= k < |plans| ensures |g'.nodes[|g.nodes| + k].layers| == |plans[k].neighbours| {
        if k < n {
          assert |mid.nodes[|g.nodes| + k].layers| == |plans[..n][k].neighbours|;
          LayersStay(mid.nodes, g'.nodes, |g.nodes| + k);
        }
      }
    }
  }

  lemma LayersStay(before: seq<Node>, after: seq<Node>, i: nat)
    requires Grows(before, after) && i < |before|
    ensures i < |after| && |after[i].layers| == |before[i].layers|
  {
  }

  lemma CommitGrows(g: Graph, p: Params, plan: InsertionPlan, g': Graph)
    requires |g.data| == Offset(|g.nodes|, p.dim) && Committed(g, p, plan, g')
    ensures Grows(g.nodes, g'.nodes) && |g'.nodes| == |g.nodes| + 1
    ensures g'.nodes[|g.nodes|] == Node(plan.id, plan.neighbours)
  {
    hide EdgeState, Rows;
  }

  /** Every thread of the pool is sure of that many more searches free of stale stamps. */
  ghost predicate PoolRoom(threads: set<VisitStamps>, searches: nat)
    reads threads
  {
    forall t | t in threads :: Room(t) >= searches
  }

  /** Every thread had the room of `had` and has used up at most `searches` of it. */
  ghost predicate Spent(threads: set<VisitStamps>, had: map<VisitStamps, nat>, searches: nat)
    reads threads
  {
    forall t | t in threads :: t in had && Room(t) + searches >= had[t]
  }

  /** What is left of the room. */
  lemma RoomLeft(threads: set<VisitStamps>, had: map<VisitStamps, nat>, spent: nat, searches: nat)
    requires Spent(threads, had, spent) && forall t | t in threads :: t in had && had[t] >= spent + searches
    ensures PoolRoom(threads, searches)
  {
    hide Room;
  }

  /** The most beam searches that planning `n` rows takes. */
  ghost function Searches(n: nat): nat {
    Offset(n, MAX_LEVEL + 1)
  }

  /** The plans of one wave, each made on some thread. */
  method PlanWave(threads: set<VisitStamps>, g: Graph, p: Params, rows: seq<BatchRow>, levels: nat -> nat, from: nat,
                  ghost unwrapped: bool)
    returns (plans: seq<InsertionPlan>)
    requires GraphOk(g, p) && threads != {} && AllFit(rows, p.dim)
    requires unwrapped ==> PoolRoom(threads, Searches(|rows|))
    modifies threads
    ensures PlansRows(g, p, rows, plans, unwrapped)
    ensures forall i | 0 <= i < |plans| :: |plans[i].neighbours| == 1 + Min(levels(from + i), MAX_LEVEL)
    ensures forall t | t in threads :: Room(t) + Searches(|rows|) >= old(Room(t))
  {
    hide EdgesOk, IdsOk, EntryOk, IsPlan, PlanFits;
    plans := [];
    LevelBound(g, p);
    for i := 0 to |rows|
      invariant |plans| == i && forall j | 0 <= j < i :: PlansRow(g, p, rows[j], plans[j], unwrapped)
      invariant forall j | 0 <= j < i :: |plans[j].neighbours| == 1 + Min(levels(from + j), MAX_LEVEL)
      invariant forall t | t in threads :: Room(t) + Searches(i) >= old(Room(t))
    {
      SearchesAdd(i + 1, |rows| - i - 1);
      var scratch :| scratch in threads;
      var level := Min(levels(from + i), MAX_LEVEL);
      var plan := PlanInsert(scratch, g, p, rows[i].0, rows[i].1, level, unwrapped);
      assert |plan.neighbours| == level + 1 by { PlanSize(g.nodes, p, plan); }
      plans := plans + [plan];
    }
  }

  lemma PlanSize(nodes: seq<Node>, p: Params, plan: InsertionPlan)
    requires PlanFits(nodes, p, plan)
    ensures |plan.neighbours| == plan.level + 1
  {
    hide ListsFit;
  }

  /** Commit a wave's plans in input order. */
  method CommitWave(g: Graph, p: Params, ghost rows: seq<BatchRow>, plans: seq<InsertionPlan>, ghost unwrapped: bool)
    returns (g': Graph)
    requires GraphOk(g, p) && PlansRows(g, p, rows, plans, unwrapped)
    ensures CommitsAll(g, p, plans, g')
  {
    hide GraphOk, IsPlan, PlanFits, Committed;
    g' := g;
    for i := 0 to |plans|
      invariant CommitsAll(g, p, plans[..i], g') && GraphOk(g', p)
    {
      CommitsPrefixFits(g, g', p, rows, plans, i, unwrapped);
      var next := Commit(g', p, plans[i]);
      CommitOne(g, g', p, plans, i, next);
      g' := next;
    }
    assert plans[..|plans|] == plans;
  }

  lemma CommitsPrefixFits(g: Graph, g': Graph, p: Params, rows: seq<BatchRow>, plans: seq<InsertionPlan>, i: nat,
                          unwrapped: bool)
    requires GraphOk(g, p) && PlansRows(g, p, rows, plans, unwrapped) && i < |plans|
    requires CommitsAll(g, p, plans[..i], g')
    ensures GraphOk(g', p) && PlanFits(g'.nodes, p, plans[i])
  {
    hide EdgesOk, IdsOk, EntryOk, IsPlan, CommitsAll, ListsFit;
    GrowsSelf(g.nodes);
    assert PlansRows(g, p, rows[..i], plans[..i], unwrapped);
    CommitsAllKeep(g, g, p, rows[..i], plans[..i], g', unwrapped);
    assert PlansRow(g, p, rows[i], plans[i], unwrapped);
    StalePlanFits(g.nodes, g'.nodes, p, plans[i]);
  }

  lemma CommitOne(g: Graph, mid: Graph, p: Params, plans: seq<InsertionPlan>, i: nat, g': Graph)
    requires i < |plans| && CommitsAll(g, p, plans[..i], mid)
    requires GraphOk(mid, p) && PlanFits(mid.nodes, p, plans[i]) && Committed(mid, p, plans[i], g')
    ensures CommitsAll(g, p, plans[..i + 1], g') && GraphOk(g', p)
  {
    hide EdgesOk, IdsOk, EntryOk, ListsFit, LinkedUp;
    CommitKeepsOk(mid, p, plans[i], g');
    assert plans[..i + 1][..i] == plans[..i];
  }

  lemma BatchOne(g: Graph, mid: Graph, p: Params, rows: seq<BatchRow>, lo: nat, hi: nat, width: nat,
                 plans: seq<InsertionPlan>, g': Graph, unwrapped: bool)
    requires lo < hi <= |rows| && WaveSize(mid, hi - lo, width, hi == |rows|)
    requires GraphOk(g, p) && IsBatch(g, p, rows[..lo], width, false, mid, unwrapped)
    requires |mid.data| == Offset(|mid.nodes|, p.dim)
    requires PlansRows(mid, p, rows[lo..hi], plans, unwrapped) && CommitsAll(mid, p, plans, g')
    ensures IsBatch(g, p, rows[..hi], width, hi == |rows|, g', unwrapped) && GraphOk(g', p)
  {
    hide PlansRows, CommitsAll, GraphOk;
    var part := rows[..hi];
    assert part[..lo] == rows[..lo] && part[lo..] == rows[lo..hi];
    assert IsWave(mid, p, part[lo..], g', unwrapped);
    assert IsBatch(g, p, part, width, hi == |rows|, g', unwrapped);
    BatchKeeps(g, p, part, width, hi == |rows|, g', unwrapped);
  }

  /** Rows `lo .. hi` as one wave on top of the batch so far. */
  method NextWave(threads: set<VisitStamps>, ghost g: Graph, mid: Graph, p: Params, rows: seq<BatchRow>,
                  levels: nat -> nat, lo: nat, hi: nat, ghost had: map<VisitStamps, nat>, ghost unwrapped: bool)
    returns (g': Graph)
    requires GraphOk(g, p) && GraphOk(mid, p) && threads != {} && AllFit(rows, p.dim)
    requires lo < hi <= |rows| && WaveSize(mid, hi - lo, |threads|, hi == |rows|)
    requires IsBatch(g, p, rows[..lo], |threads|, false, mid, unwrapped)
    requires unwrapped ==> PoolRoom(threads, Searches(hi - lo))
    requires Spent(threads, had, Searches(lo))
    requires |mid.nodes| == |g.nodes| + lo && Leveled(mid.nodes, |g.nodes|, levels, lo)
    modifies threads
    ensures |g'.nodes| == |g.nodes| + hi && Leveled(g'.nodes, |g.nodes|, levels, hi)
    ensures IsBatch(g, p, rows[..hi], |threads|, hi == |rows|, g', unwrapped) && GraphOk(g', p)
    ensures Spent(threads, had, Searches(hi))
  {
    hide GraphOk, PlansRow, CommitsAll, IsBatch, PoolRoom, Room, Searches, Grows, Leveled;
    assert |mid.data| == Offset(|mid.nodes|, p.dim) by { GraphSlab(mid, p); }
    var plans := PlanWave(threads, mid, p, rows[lo..hi], levels, lo, unwrapped);
    g' := CommitWave(mid, p, rows[lo..hi], plans, unwrapped);
    SearchesAdd(lo, hi - lo);
    CommitsLeveled(mid, p, plans, g');
    LeveledFurther(mid.nodes, g'.nodes, |g.nodes|, levels, lo, plans);
    BatchOne(g, mid, p, rows, lo, hi, |threads|, plans, g', unwrapped);
  }

  lemma GraphSlab(g: Graph, p: Params)
    requires GraphOk(g, p)
    ensures |g.data| == Offset(|g.nodes|, p.dim)
  {
  }

  lemma LeveledFurther(before: seq<Node>, after: seq<Node>, from: nat, levels: nat -> nat, lo: nat,
                       plans: seq<InsertionPlan>)
    requires |before| == from + lo && |after| == |before| + |plans| && Grows(before, after)
    requires Leveled(before, from, levels, lo)
    requires forall k | 0 <= k < |plans| :: |after[|before| + k].layers| == |plans[k].neighbours|
    requires forall k | 0 <= k < |plans| :: |plans[k].neighbours| == 1 + Min(levels(lo + k), MAX_LEVEL)
    ensures Leveled(after, from, levels, lo + |plans|)
  {
    forall i | 0 <= i < lo + |plans| ensures |after[from + i].layers| == 1 + Min(levels(i), MAX_LEVEL) {
      if i >= lo {
        var k := i - lo;
        assert |after[|before| + k].layers| == |plans[k].neighbours|;
      } else {
        assert |before[from + i].layers| == 1 + Min(levels(i), MAX_LEVEL);
      }
    }
  }

  /** The wave loop of `build_from_vecs`, on validated rows. */
  method BuildWaves(threads: set<VisitStamps>, g: Graph, p: Params, rows: seq<BatchRow>, levels: nat -> nat,
                    ghost unwrapped: bool)
    returns (g': Graph)
    requires GraphOk(g, p) && threads != {} && AllFit(rows, p.dim)
    requires unwrapped ==> PoolRoom(threads, Searches(|rows|))
    modifies threads
    ensures IsBatch(g, p, rows, |threads|, true, g', unwrapped)
    ensures Leveled(g'.nodes, |g.nodes|, levels, |rows|)
    ensures forall t | t in threads :: Room(t) + Searches(|rows|) >= old(Room(t))
  {
    hide GraphOk, PlansRows, CommitsAll, Room, Searches, Leveled, PoolRoom, Spent;
    ghost var had := map t | t in threads :: Room(t);
    assert Spent(threads, had, Searches(0)) by { NothingSpent(threads, had); }
    HadRoom(threads, had, Searches(|rows|));
    assert Leveled(g.nodes, |g.nodes|, levels, 0) by { NothingLeveled(g.nodes, |g.nodes|, levels); }
    g' := g;
    var lo := 0;
    assert rows[..0] == [];
    SomeThread(threads);
    while lo < |rows|
      invariant lo <= |rows| && GraphOk(g', p) && IsBatch(g, p, rows[..lo], |threads|, lo == |rows|, g', unwrapped)
      invariant |g'.nodes| == |g.nodes| + lo && Leveled(g'.nodes, |g.nodes|, levels, lo)
      invariant Spent(threads, had, Searches(lo))
    {
      var hi := if g'.entry.None? then lo + 1 else Min(lo + |threads|, |rows|);
      SearchesAdd(lo, hi - lo);
      SearchesAdd(hi, |rows| - hi);
      if unwrapped { RoomLeft(threads, had, Searches(lo), Searches(hi - lo)); }
      g' := NextWave(threads, g, g', p, rows, levels, lo, hi, had, unwrapped);
      lo := hi;
    }
    assert rows[..|rows|] == rows;
    SpentMeans(threads, had, Searches(|rows|));
  }

  lemma NothingSpent(threads: set<VisitStamps>, had: map<VisitStamps, nat>)
    requires forall t | t in threads :: t in had && had[t] == Room(t)
    ensures Spent(threads, had, Searches(0))
  {
    hide Room;
  }

  lemma HadRoom(threads: set<VisitStamps>, had: map<VisitStamps, nat>, searches: nat)
    requires forall t | t in threads :: t in had && had[t] == Room(t)
    ensures PoolRoom(threads, searches) ==> forall t | t in threads :: had[t] >= searches
  {
    hide Room;
  }

  lemma SpentMeans(threads: set<VisitStamps>, had: map<VisitStamps, nat>, searches: nat)
    requires Spent(threads, had, searches)
    ensures forall t | t in threads :: t in had && Room(t) + searches >= had[t]
  {
  }

  lemma NothingLeveled(nodes: seq<Node>, from: nat, levels: nat -> nat)
    ensures Leveled(nodes, from, levels, 0)
  {
  }

  lemma {:induction false} SearchesAdd(a: nat, b: nat)
    ensures Searches(a + b) == Searches(a) + Searches(b)
  {
    if b > 0 { SearchesAdd(a, b - 1); }
  }

  lemma SomeThread(threads: set<VisitStamps>)
    requires threads != {}
    ensures |threads| > 0
  {
  }
}
