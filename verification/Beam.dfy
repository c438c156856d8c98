/**
 * Beam search within one layer of the HNSW graph, with the per-thread visit stamps it uses as a
 * visited set. The result comes with a certificate about what was visited and what was left out.
 */
module Beam {
  import opened Core
  import opened TopK

  datatype Node = Node(id: VecId, layers: seq<seq<nat>>)

  /** One search: a graph with a vector per node, a query and a layer. */
  datatype Walk = Walk(nodes: seq<Node>, vecs: seq<Vector>, dist: Distance, query: Vector, level: nat) {

    /** Distance from the query to node `i`. */
    function Score(i: nat): real {
      if i < |vecs| then dist(query, vecs[i]) else 0.0
    }

    function Entry(i: nat): Scored {
      Scored(Score(i), i)
    }

    /** The neighbours of node `i` in this layer; none if the node does not reach it. */
    function Neighbours(i: nat): seq<nat> {
      if i < |nodes| && level < |nodes[i].layers| then nodes[i].layers[level] else []
    }

    /** Every edge of the layer stays inside the graph. */
    ghost predicate InRange() {
      |vecs| == |nodes| && forall i, n | n in Neighbours(i) :: n < |nodes|
    }

    /** `p` is a walk along edges of the layer. */
    ghost predicate IsPath(p: seq<nat>) {
      p != [] && forall i | 0 <= i < |p| - 1 :: p[i + 1] in Neighbours(p[i])
    }

    ghost predicate Reaches(a: nat, b: nat) {
      exists p :: IsPath(p) && p[0] == a && p[|p| - 1] == b
    }

    /** All neighbours of `i` are in `seen`. */
    ghost predicate Expanded(i: nat, seen: set<nat>) {
      forall n | n in Neighbours(i) :: n in seen
    }

    /** The heap holding exactly the nodes of `s`. */
    ghost function HeapOf(s: set<nat>): (h: Heap)
      ensures forall x :: x in h <==> x.id in s && x == Entry(x.id)
      ensures |h| == |s|
    {
      HeapOfFacts(s);
      multiset(set i | i in s :: Entry(i))
    }

    lemma {:induction false} HeapOfFacts(s: set<nat>)
      ensures |set i | i in s :: Entry(i)| == |s|
      decreases |s|
    {
      var entries := set i | i in s :: Entry(i);
      if s == {} {
        assert entries == {};
      } else {
        var i :| i in s;
        HeapOfFacts(s - {i});
        var rest := set j | j in s - {i} :: Entry(j);
        assert entries == rest + {Entry(i)};
        assert Entry(i) !in rest;
      }
    }

    lemma HeapPush(s: set<nat>, i: nat)
      requires i !in s
      ensures HeapOf(s + {i}) == HeapOf(s) + multiset{Entry(i)}
    {
      var before, after := (set j | j in s :: Entry(j)), (set j | j in s + {i} :: Entry(j));
      assert after == before + {Entry(i)};
      assert Entry(i) !in before;
    }

    lemma HeapDrop(s: set<nat>, i: nat)
      requires i in s
      ensures HeapOf(s) - multiset{Entry(i)} == HeapOf(s - {i})
    {
      HeapPush(s - {i}, i);
      assert s - {i} + {i} == s;
    }

    lemma ReachesSelf(a: nat)
      ensures Reaches(a, a)
    {
      assert IsPath([a]);
    }

    lemma ReachesNeighbour(a: nat, b: nat, n: nat)
      requires Reaches(a, b) && n in Neighbours(b)
      ensures Reaches(a, n)
    {
      var p :| IsPath(p) && p[0] == a && p[|p| - 1] == b;
      assert IsPath(p + [n]);
    }

    /** A set holding `a` and closed under edges holds everything `a` reaches. */
    lemma {:induction false} ClosedHoldsReachable(s: set<nat>, a: nat, p: seq<nat>)
      requires a in s && forall v | v in s :: Expanded(v, s)
      requires IsPath(p) && p[0] == a
      ensures p[|p| - 1] in s
    {
      if |p| > 1 {
        var q := p[..|p| - 1];
        assert IsPath(q);
        ClosedHoldsReachable(s, a, q);
        assert Expanded(q[|q| - 1], s);
      }
    }

    /** `v` is no nearer to the query than anything in `found`. */
    ghost predicate NoNearer(found: set<nat>, v: nat) {
      forall f | f in found :: Score(f) <= Score(v)
    }

    /**
     * What a beam search of width `ef` from `ep` guarantees. `visited` is everything scored,
     * `found` the result, and `stale` the nodes a wrapped-around stamp hid from the search.
     */
    ghost predicate IsBeam(ep: nat, ef: nat, found: set<nat>, visited: set<nat>, stale: set<nat>) {
      && ep in visited
      && (forall v | v in visited :: v < |nodes| && Reaches(ep, v))
      && found <= visited && |found| == Min(ef, |visited|)
      && (forall v | v in visited - found :: NoNearer(found, v))
      && (forall f | f in found :: Expanded(f, visited + stale))
    }

    /** A beam at least as wide as the reachable set finds exactly that set. */
    lemma WideBeamIsExact(ep: nat, ef: nat, found: set<nat>, visited: set<nat>, reachable: set<nat>)
      requires IsBeam(ep, ef, found, visited, {})
      requires forall v :: v in reachable <==> Reaches(ep, v)
      requires ef >= |reachable|
      ensures found == reachable
    {
      assert visited <= reachable;
      SubsetIsSmaller(visited, reachable);
      SubsetOfSameSize(found, visited);
      assert visited + {} == visited;
      forall v | v in reachable ensures v in found {
        var p :| IsPath(p) && p[0] == ep && p[|p| - 1] == v;
        ClosedHoldsReachable(found, ep, p);
      }
    }
  }

  // --- Visit stamps ---------------------------------------------------------------------

  /** Nodes below `n` whose stamp is the current epoch. */
  ghost predicate Marks(stamps: seq<nat>, epoch: nat, n: nat, marked: set<nat>) {
    n <= |stamps| && forall i: nat | i < n :: stamps[i] == epoch <==> i in marked
  }

  /** The per-thread epoch counter and stamp vector, shared by all searches on the thread. */
  class VisitStamps {
    var epoch: U64
    var stamps: seq<nat>

    /** No stamp lies in the future: what a counter that never wrapped maintains. */
    ghost predicate Ordered()
      reads this
    {
      forall i | 0 <= i < |stamps| :: stamps[i] <= epoch
    }

    constructor ()
      ensures Ordered() && epoch == 0
    {
      epoch, stamps := 0, [];
    }

    /**
     * Start a search over `n` nodes: bump the wrapping counter and grow the vector with zeros.
     * Every node looks unvisited exactly when the new epoch occurs neither in the old stamps
     * below `n` nor, if the vector grew, as the zero it grew with.
     */
    method Begin(n: nat) returns (ghost stale: set<nat>)
      modifies this
      ensures epoch == (if old(epoch) == U64_MAX then 0 else old(epoch) + 1)
      ensures Marks(stamps, epoch, n, stale) && forall i | i in stale :: i < n
      ensures stale == {} <==>
                (forall i | 0 <= i < |old(stamps)| && i < n :: old(stamps)[i] != epoch)
                  && (n <= |old(stamps)| || epoch != 0)
      ensures old(Ordered()) && old(epoch) < U64_MAX ==> stale == {} && Ordered()
    {
      epoch := if epoch == U64_MAX then 0 else epoch + 1;
      if |stamps| < n {
        stamps := stamps + seq(n - |stamps|, _ => 0);
      }
      stale := set i: nat | i < n && stamps[i] == epoch;
      assert n > |old(stamps)| && epoch == 0 ==> n - 1 in stale;
      assert forall i | 0 <= i < |old(stamps)| && i < n && old(stamps)[i] == epoch :: i in stale;
    }
  }

  // --- The search loop ------------------------------------------------------------------

  /** The result heap and the candidate heap. */
  datatype Heaps = Heaps(w: Heap, c: Heap)

  /** Distance of the worst result so far. */
  function WorstDistance(w: Heap): real {
    if |w| > 0 then Worst(w).d else F32_MAX
  }

  /** A newly visited node joins both heaps if it beats the worst result or there is room. */
  function Meet(h: Heaps, e: Scored, ef: nat): Heaps {
    if e.d < WorstDistance(h.w) || |h.w| < ef then
      var w := h.w + multiset{e};
      Heaps(if |w| > ef then PopWorst(w) else w, h.c + multiset{e})
    else h
  }

  /** The sets of nodes behind the two heaps, and all nodes visited. */
  datatype Trail = Trail(visited: set<nat>, found: set<nat>, queued: set<nat>)

  ghost predicate AllReached(x: Walk, ep: nat, visited: set<nat>) {
    forall v | v in visited :: v < |x.nodes| && x.Reaches(ep, v)
  }

  /** Nothing visited and left out is nearer than anything found. */
  ghost predicate LeftOutIsFar(x: Walk, t: Trail) {
    forall v | v in t.visited && v !in t.found :: x.NoNearer(t.found, v)
  }

  /** Swapping the worst found node `out` for a nearer newcomer `n` leaves out nothing nearer. */
  lemma FarAfterEviction(x: Walk, t: Trail, t': Trail, n: nat, out: nat)
    requires LeftOutIsFar(x, t) && out in t.found && x.NoNearer(t.found, out) && x.Score(n) <= x.Score(out)
    requires t'.visited == t.visited + {n} && t'.found == t.found + {n} - {out}
    ensures LeftOutIsFar(x, t')
  {
    forall v | v in t'.visited && v !in t'.found ensures x.NoNearer(t'.found, v) {
      if v != out { assert x.NoNearer(t.found, v); }
    }
  }

  /** A newcomer no nearer than anything found may be left out. */
  lemma FarAfterRejection(x: Walk, t: Trail, t': Trail, n: nat)
    requires LeftOutIsFar(x, t) && x.NoNearer(t.found, n)
    requires t'.visited == t.visited + {n} && t'.found == t.found
    ensures LeftOutIsFar(x, t')
  {
    forall v | v in t'.visited && v !in t'.found ensures x.NoNearer(t'.found, v) {
      if v != n { assert x.NoNearer(t.found, v); }
    }
  }

  /** The heap's worst entry is the farthest node it stands for. */
  lemma WorstIsFarthest(x: Walk, found: set<nat>)
    requires found != {}
    ensures |x.HeapOf(found)| > 0
    ensures var out := Worst(x.HeapOf(found));
            out.id in found && out == x.Entry(out.id) && x.NoNearer(found, out.id)
  {
    var h := x.HeapOf(found);
    var out := Worst(h);
    forall f | f in found ensures x.Score(f) <= x.Score(out.id) {
      assert x.Entry(f) in h;
    }
  }

  /** A found node is still queued, is the one being expanded, or has no unvisited neighbour. */
  ghost predicate Settled(x: Walk, t: Trail, open: set<nat>, stale: set<nat>, f: nat) {
    f in t.queued || f in open || x.Expanded(f, t.visited + stale)
  }

  ghost predicate AllSettled(x: Walk, t: Trail, open: set<nat>, stale: set<nat>) {
    forall f | f in t.found :: Settled(x, t, open, stale, f)
  }

  /** The loop invariant, with `open` the node whose neighbours are being met. */
  ghost predicate Searching(x: Walk, ep: nat, ef: nat, stale: set<nat>, h: Heaps, t: Trail, open: set<nat>) {
    && ep in t.visited && ef > 0
    && AllReached(x, ep, t.visited)
    && t.found <= t.visited && t.queued <= t.visited
    && h.w == x.HeapOf(t.found) && h.c == x.HeapOf(t.queued)
    && |t.found| == Min(ef, |t.visited|)
    && LeftOutIsFar(x, t)
    && AllSettled(x, t, open, stale)
  }

  /** Visiting one more node keeps every found node settled, provided a found newcomer is queued. */
  lemma StaySettled(x: Walk, t: Trail, t': Trail, open: set<nat>, stale: set<nat>, n: nat)
    requires AllSettled(x, t, open, stale)
    requires t'.visited == t.visited + {n} && t.queued <= t'.queued
    requires t'.found <= t.found + {n} && (n in t'.found ==> n in t'.queued)
    ensures AllSettled(x, t', open, stale)
  {
    forall f | f in t'.found ensures Settled(x, t', open, stale, f) {
      if f != n { assert Settled(x, t, open, stale, f); }
    }
  }

  lemma FullTrail(t: Trail, ef: nat)
    requires t.found <= t.visited && |t.found| == Min(ef, |t.visited|) && |t.found| < ef
    ensures t.found == t.visited
  {
    SubsetOfSameSize(t.found, t.visited);
  }

  /** Trail after a newly visited node `n` was met. */
  ghost function MeetTrail(x: Walk, h: Heaps, t: Trail, n: nat, ef: nat): Trail {
    if x.Score(n) < WorstDistance(h.w) || |h.w| < ef then
      var w := h.w + multiset{x.Entry(n)};
      Trail(t.visited + {n}, if |w| > ef then t.found + {n} - {Worst(w).id} else t.found + {n}, t.queued + {n})
    else Trail(t.visited + {n}, t.found, t.queued)
  }

  lemma ReachOneMore(x: Walk, ep: nat, visited: set<nat>, n: nat)
    requires AllReached(x, ep, visited) && n < |x.nodes| && x.Reaches(ep, n)
    ensures AllReached(x, ep, visited + {n})
  {
  }

  lemma NothingLeftOut(x: Walk, t: Trail)
    requires t.found == t.visited
    ensures LeftOutIsFar(x, t)
  {
  }

  lemma RoomHeaps(x: Walk, h: Heaps, t: Trail, n: nat, ef: nat)
    requires h.w == x.HeapOf(t.found) && h.c == x.HeapOf(t.queued) && t.queued <= t.visited && t.found <= t.visited
    requires |h.w| < ef && n !in t.visited
    ensures var t' := MeetTrail(x, h, t, n, ef);
            var h' := Meet(h, x.Entry(n), ef);
            && t' == Trail(t.visited + {n}, t.found + {n}, t.queued + {n})
            && h'.w == x.HeapOf(t'.found) && h'.c == x.HeapOf(t'.queued)
  {
    x.HeapPush(t.found, n);
    x.HeapPush(t.queued, n);
  }

  lemma MeetWithRoom(x: Walk, ep: nat, ef: nat, stale: set<nat>, h: Heaps, t: Trail, open: set<nat>, n: nat)
    requires Searching(x, ep, ef, stale, h, t, open) && |h.w| < ef
    requires n !in t.visited && n < |x.nodes| && x.Reaches(ep, n)
    ensures Searching(x, ep, ef, stale, Meet(h, x.Entry(n), ef), MeetTrail(x, h, t, n, ef), open)
  {
    hide AllReached, LeftOutIsFar, AllSettled, Meet, MeetTrail;
    var t' := MeetTrail(x, h, t, n, ef);
    FullTrail(t, ef);
    RoomHeaps(x, h, t, n, ef);
    StaySettled(x, t, t', open, stale, n);
    ReachOneMore(x, ep, t.visited, n);
    NothingLeftOut(x, t');
  }

  /** When the newcomer beats the worst result, that result is the one evicted. */
  lemma EvictsWorst(w: Heap, e: Scored)
    requires |w| > 0 && e.d < Worst(w).d
    ensures Worst(w + multiset{e}) == Worst(w)
  {
    var w' := w + multiset{e};
    assert Worst(w) in w';
    assert forall y | y in w' :: y in w || y == e;
  }

  lemma NearerHeaps(x: Walk, h: Heaps, t: Trail, n: nat, ef: nat)
    requires h.w == x.HeapOf(t.found) && h.c == x.HeapOf(t.queued) && t.queued <= t.visited && t.found <= t.visited
    requires |h.w| == ef > 0 && x.Score(n) < WorstDistance(h.w) && n !in t.visited
    ensures var t' := MeetTrail(x, h, t, n, ef);
            var h' := Meet(h, x.Entry(n), ef);
            && t' == Trail(t.visited + {n}, t.found + {n} - {Worst(h.w).id}, t.queued + {n})
            && h'.w == x.HeapOf(t'.found) && h'.c == x.HeapOf(t'.queued)
            && Worst(h.w).id in t.found && |t'.found| == ef
  {
    EvictsWorst(h.w, x.Entry(n));
    x.HeapPush(t.found, n);
    x.HeapDrop(t.found + {n}, Worst(h.w).id);
    x.HeapPush(t.queued, n);
  }

  lemma MeetNearer(x: Walk, ep: nat, ef: nat, stale: set<nat>, h: Heaps, t: Trail, open: set<nat>, n: nat)
    requires Searching(x, ep, ef, stale, h, t, open) && |h.w| >= ef && x.Score(n) < WorstDistance(h.w)
    requires n !in t.visited && n < |x.nodes| && x.Reaches(ep, n)
    ensures Searching(x, ep, ef, stale, Meet(h, x.Entry(n), ef), MeetTrail(x, h, t, n, ef), open)
  {
    hide AllReached, LeftOutIsFar, AllSettled, Meet, MeetTrail;
    ReachOneMore(x, ep, t.visited, n);
    NearerHeaps(x, h, t, n, ef);
    var t' := MeetTrail(x, h, t, n, ef);
    StaySettled(x, t, t', open, stale, n);
    WorstIsFarthest(x, t.found);
    FarAfterEviction(x, t, t', n, Worst(h.w).id);
  }

  lemma MeetFarther(x: Walk, ep: nat, ef: nat, stale: set<nat>, h: Heaps, t: Trail, open: set<nat>, n: nat)
    requires Searching(x, ep, ef, stale, h, t, open) && |h.w| >= ef && x.Score(n) >= WorstDistance(h.w)
    requires n !in t.visited && n < |x.nodes| && x.Reaches(ep, n)
    ensures Searching(x, ep, ef, stale, Meet(h, x.Entry(n), ef), MeetTrail(x, h, t, n, ef), open)
  {
    hide AllReached, LeftOutIsFar, AllSettled;
    ReachOneMore(x, ep, t.visited, n);
    var t' := MeetTrail(x, h, t, n, ef);
    StaySettled(x, t, t', open, stale, n);
    WorstIsFarthest(x, t.found);
    FarAfterRejection(x, t, t', n);
  }

  /** Meeting a newly visited node keeps the invariant. */
  lemma MeetKeeps(x: Walk, ep: nat, ef: nat, stale: set<nat>, h: Heaps, t: Trail, open: set<nat>, n: nat)
    requires Searching(x, ep, ef, stale, h, t, open)
    requires n !in t.visited && n < |x.nodes| && x.Reaches(ep, n)
    ensures Searching(x, ep, ef, stale, Meet(h, x.Entry(n), ef), MeetTrail(x, h, t, n, ef), open)
  {
    if |h.w| < ef {
      MeetWithRoom(x, ep, ef, stale, h, t, open, n);
    } else if x.Score(n) < WorstDistance(h.w) {
      MeetNearer(x, ep, ef, stale, h, t, open, n);
    } else {
      MeetFarther(x, ep, ef, stale, h, t, open, n);
    }
  }

  // --- The two loops -----------------------------------------------------------------------

  /** Stamps only ever change to the current epoch. */
  ghost predicate StampedFrom(before: seq<nat>, after: seq<nat>, epoch: nat) {
    |after| == |before| && forall i | 0 <= i < |after| :: after[i] == before[i] || after[i] == epoch
  }

  ghost predicate Met(neighbours: seq<nat>, i: nat, seen: set<nat>)
    requires i <= |neighbours|
  {
    forall j | 0 <= j < i :: neighbours[j] in seen
  }

  lemma MarkOne(stamps: seq<nat>, epoch: nat, n: nat, visited: set<nat>, stale: set<nat>, i: nat)
    requires Marks(stamps, epoch, n, visited + stale) && i < n
    ensures Marks(stamps[i := epoch], epoch, n, visited + {i} + stale)
  {
  }

  lemma MetOne(neighbours: seq<nat>, i: nat, visited: set<nat>, stale: set<nat>)
    requires i < |neighbours| && Met(neighbours, i, visited + stale)
    ensures Met(neighbours, i + 1, visited + {neighbours[i]} + stale)
    ensures neighbours[i] in visited + stale ==> Met(neighbours, i + 1, visited + stale)
  {
  }

  /** Meeting the first `i` neighbours of `open`. */
  ghost predicate Meeting(x: Walk, ep: nat, ef: nat, epoch: nat, stale: set<nat>, open: nat, i: nat,
                          h: Heaps, stamps: seq<nat>, t: Trail, t0: Trail) {
    && Searching(x, ep, ef, stale, h, t, {open})
    && Marks(stamps, epoch, |x.nodes|, t.visited + stale)
    && t0.visited <= t.visited && (t.visited == t0.visited ==> t == t0)
    && i <= |x.Neighbours(open)| && Met(x.Neighbours(open), i, t.visited + stale)
  }

  lemma MeetingStep(x: Walk, ep: nat, ef: nat, epoch: nat, stale: set<nat>, open: nat, i: nat,
                    h: Heaps, stamps: seq<nat>, t: Trail, t0: Trail)
    requires x.InRange() && x.Reaches(ep, open) && i < |x.Neighbours(open)|
    requires Meeting(x, ep, ef, epoch, stale, open, i, h, stamps, t, t0)
    ensures var n := x.Neighbours(open)[i];
            && n < |x.nodes| <= |stamps|
            && (stamps[n] == epoch ==> Meeting(x, ep, ef, epoch, stale, open, i + 1, h, stamps, t, t0))
            && (stamps[n] != epoch ==>
                  Meeting(x, ep, ef, epoch, stale, open, i + 1, Meet(h, x.Entry(n), ef), stamps[n := epoch],
                          MeetTrail(x, h, t, n, ef), t0))
  {
    hide Searching, Meet;
    var n := x.Neighbours(open)[i];
    assert n in x.Neighbours(open);
    MetOne(x.Neighbours(open), i, t.visited, stale);
    if stamps[n] != epoch {
      assert n !in t.visited + stale;
      MarkOne(stamps, epoch, |x.nodes|, t.visited, stale, n);
      x.ReachesNeighbour(ep, open, n);
      MeetKeeps(x, ep, ef, stale, h, t, {open}, n);
    }
  }

  /** Once all neighbours are met, the expanded node is settled. */
  lemma MeetingDone(x: Walk, ep: nat, ef: nat, epoch: nat, stale: set<nat>, open: nat,
                    h: Heaps, stamps: seq<nat>, t: Trail, t0: Trail)
    requires Meeting(x, ep, ef, epoch, stale, open, |x.Neighbours(open)|, h, stamps, t, t0)
    ensures Searching(x, ep, ef, stale, h, t, {})
  {
    assert x.Expanded(open, t.visited + stale);
    forall f | f in t.found ensures Settled(x, t, {}, stale, f) {
      assert Settled(x, t, {open}, stale, f);
    }
  }

  /** Meet the unvisited neighbours of `open`, stamping each. */
  method Expand(x: Walk, ghost ep: nat, ef: nat, epoch: nat, open: nat, h0: Heaps, stamps0: seq<nat>,
                ghost stale: set<nat>, ghost t0: Trail)
    returns (h: Heaps, stamps: seq<nat>, ghost t: Trail)
    requires x.InRange() && Searching(x, ep, ef, stale, h0, t0, {open}) && x.Reaches(ep, open)
    requires Marks(stamps0, epoch, |x.nodes|, t0.visited + stale)
    ensures Searching(x, ep, ef, stale, h, t, {})
    ensures Marks(stamps, epoch, |x.nodes|, t.visited + stale) && StampedFrom(stamps0, stamps, epoch)
    ensures t0.visited <= t.visited && (t.visited == t0.visited ==> t == t0)
  {
    hide Searching, Marks;
    h, stamps, t := h0, stamps0, t0;
    var neighbours := x.Neighbours(open);
    for i := 0 to |neighbours|
      invariant Meeting(x, ep, ef, epoch, stale, open, i, h, stamps, t, t0)
      invariant StampedFrom(stamps0, stamps, epoch)
    {
      MeetingStep(x, ep, ef, epoch, stale, open, i, h, stamps, t, t0);
      var n := neighbours[i];
      if stamps[n] != epoch {
        stamps := stamps[n := epoch];
        t := MeetTrail(x, h, t, n, ef);
        h := Meet(h, x.Entry(n), ef);
      }
    }
    MeetingDone(x, ep, ef, epoch, stale, open, h, stamps, t, t0);
  }

  /** Popping the nearest candidate opens it. */
  lemma PopOpens(x: Walk, ep: nat, ef: nat, stale: set<nat>, h: Heaps, t: Trail)
    requires Searching(x, ep, ef, stale, h, t, {}) && |h.c| > 0
    ensures var e := Least(h.c);
            && e.id in t.queued && e == x.Entry(e.id) && |t.queued - {e.id}| < |h.c| && x.Reaches(ep, e.id)
            && Searching(x, ep, ef, stale, h.(c := h.c - multiset{e}), t.(queued := t.queued - {e.id}), {e.id})
  {
    var e := Least(h.c);
    x.HeapDrop(t.queued, e.id);
    var t' := t.(queued := t.queued - {e.id});
    forall f | f in t'.found ensures Settled(x, t', {e.id}, stale, f) {
      assert Settled(x, t, {}, stale, f);
    }
  }

  /** When no candidate can beat the worst result, the search is a beam. */
  lemma StopIsBeam(x: Walk, ep: nat, ef: nat, stale: set<nat>, h: Heaps, t: Trail)
    requires Searching(x, ep, ef, stale, h, t, {})
    requires |h.c| == 0 || Least(h.c).d > WorstDistance(h.w)
    ensures x.IsBeam(ep, ef, t.found, t.visited, stale) && h.w == x.HeapOf(t.found)
  {
    forall f | f in t.found ensures x.Expanded(f, t.visited + stale) {
      assert Settled(x, t, {}, stale, f);
      assert x.Entry(f) in h.w;
      assert AtMost(x.Entry(f), Worst(h.w));
      assert f in t.queued ==> x.Entry(f) in h.c;
    }
  }

  lemma StartSearch(x: Walk, ep: nat, ef: nat, stale: set<nat>)
    requires ep < |x.nodes| && ef > 0
    ensures Searching(x, ep, ef, stale, Heaps(multiset{x.Entry(ep)}, multiset{x.Entry(ep)}),
                      Trail({ep}, {ep}, {ep}), {})
  {
    x.ReachesSelf(ep);
    x.HeapPush({}, ep);
    assert {} + {ep} == {ep};
    assert x.HeapOf({}) == multiset{};
    var t := Trail({ep}, {ep}, {ep});
    assert Settled(x, t, {}, stale, ep);
  }

  ghost function Below(n: nat): (s: set<nat>)
    ensures forall i: nat :: i in s <==> i < n
  {
    if n == 0 then {} else Below(n - 1) + {n - 1}
  }

  ghost function Unvisited(n: nat, visited: set<nat>): set<nat> {
    Below(n) - visited
  }

  /**
   * The main loop, on stamps that mark exactly the entry point and stale nodes. It ends because each
   * round either visits a new node or shortens the queue.
   */
  method RunBeam(x: Walk, ep: nat, ef: nat, epoch: nat, stamps0: seq<nat>, ghost stale: set<nat>)
    returns (w: Heap, stamps: seq<nat>, ghost t: Trail)
    requires x.InRange() && ep < |x.nodes| && ef > 0
    requires Marks(stamps0, epoch, |x.nodes|, {ep} + stale)
    ensures x.IsBeam(ep, ef, t.found, t.visited, stale) && w == x.HeapOf(t.found)
    ensures StampedFrom(stamps0, stamps, epoch)
  {
    hide Searching, Marks, Unvisited;
    stamps := stamps0;
    var h := Heaps(multiset{x.Entry(ep)}, multiset{x.Entry(ep)});
    t := Trail({ep}, {ep}, {ep});
    StartSearch(x, ep, ef, stale);
    while |h.c| > 0
      invariant Searching(x, ep, ef, stale, h, t, {})
      invariant Marks(stamps, epoch, |x.nodes|, t.visited + stale) && StampedFrom(stamps0, stamps, epoch)
      decreases Unvisited(|x.nodes|, t.visited), |h.c|
    {
      PopOpens(x, ep, ef, stale, h, t);
      var e := Least(h.c);
      if e.d > WorstDistance(h.w) {
        break;
      }
      ghost var before := t.(queued := t.queued - {e.id});
      ghost var last := stamps;
      h, stamps, t := Expand(x, ep, ef, epoch, e.id, h.(c := h.c - multiset{e}), stamps, stale, before);
      RoundEnds(x, ep, ef, stale, h, t, before);
      StampedTwice(stamps0, last, stamps, epoch);
    }
    StopIsBeam(x, ep, ef, stale, h, t);
    w := h.w;
  }

  lemma StampedTwice(a: seq<nat>, b: seq<nat>, c: seq<nat>, epoch: nat)
    requires StampedFrom(a, b, epoch) && StampedFrom(b, c, epoch)
    ensures StampedFrom(a, c, epoch)
  {
  }

  /**
   * Beam search from one entry point with the thread's stamps as visited set, which starts empty
   * unless the epoch counter wrapped.
   */
  method SearchLayer(scratch: VisitStamps, x: Walk, ep: nat, ef: nat)
    returns (w: Heap, ghost found: set<nat>, ghost visited: set<nat>, ghost stale: set<nat>)
    requires x.InRange() && ep < |x.nodes| && ef > 0
    modifies scratch
    ensures x.IsBeam(ep, ef, found, visited, stale) && w == x.HeapOf(found)
    ensures scratch.epoch == (if old(scratch.epoch) == U64_MAX then 0 else old(scratch.epoch) + 1)
    ensures old(scratch.Ordered()) && old(scratch.epoch) < U64_MAX ==> stale == {} && scratch.Ordered()
  {
    stale := scratch.Begin(|x.nodes|);
    var stamps: seq<nat> := scratch.stamps[ep := scratch.epoch];
    ghost var t;
    w, stamps, t := RunBeam(x, ep, ef, scratch.epoch, stamps, stale);
    scratch.stamps := stamps;
    found, visited := t.found, t.visited;
  }

  /** A round that visits nothing new leaves fewer candidates; otherwise fewer nodes stay unvisited. */
  lemma RoundEnds(x: Walk, ep: nat, ef: nat, stale: set<nat>, h: Heaps, t: Trail, before: Trail)
    requires Searching(x, ep, ef, stale, h, t, {}) && before.visited <= t.visited
    requires t.visited == before.visited ==> t == before
    ensures Unvisited(|x.nodes|, t.visited) <= Unvisited(|x.nodes|, before.visited)
    ensures Unvisited(|x.nodes|, t.visited) == Unvisited(|x.nodes|, before.visited) ==> |h.c| == |before.queued|
  {
    if v :| v in t.visited && v !in before.visited {
      assert v < |x.nodes|;
      assert v in Unvisited(|x.nodes|, before.visited) && v !in Unvisited(|x.nodes|, t.visited);
    }
  }
}
