/** The contract all index types share, dispatched over the three implementations. */
module VectorIndex {
  import opened Core
  import opened TopK
  import opened Contents
  import opened Sq8
  import opened Beam
  import opened Flat
  import Ivf
  import opened Hnsw
  import HnswCommit
  import HnswGraph
  import HnswPlan

  /** A boxed index. */
  datatype Index = FlatBox(flat: FlatIndex) | IvfBox(ivf: Ivf.IvfIndex) | HnswBox(hnsw: HnswIndex)

  ghost function Object(ix: Index): object {
    match ix
    case FlatBox(flat) => flat
    case IvfBox(ivf) => ivf
    case HnswBox(hnsw) => hnsw
  }

  ghost predicate IndexOk(ix: Index)
    reads Object(ix)
  {
    match ix
    case FlatBox(flat) => flat.Valid()
    case IvfBox(ivf) => ivf.Valid()
    case HnswBox(hnsw) => hnsw.Valid()
  }

  /** The id-to-vector map an index stands for. */
  ghost function StoreIn(ix: Index): Store
    requires IndexOk(ix)
    reads Object(ix)
  {
    match ix
    case FlatBox(flat) => flat.Contents()
    case IvfBox(ivf) => ivf.Contents()
    case HnswBox(hnsw) => hnsw.Contents()
  }

  function DimOf(ix: Index): nat {
    match ix
    case FlatBox(flat) => flat.dim
    case IvfBox(ivf) => ivf.config.dim
    case HnswBox(hnsw) => hnsw.params.dim
  }

  /** Every index but the quantised IVF stores vectors as given. */
  predicate Exact(ix: Index) {
    !(ix.IvfBox? && ix.ivf.config.quantize)
  }

  /** The index stands for the vectors of `raw` as they were given. A quantised IVF reads them back decoded. */
  ghost predicate Holds(ix: Index, raw: Store)
    requires IndexOk(ix)
    reads Object(ix)
  {
    match ix
    case FlatBox(flat) => flat.Contents() == raw
    case IvfBox(ivf) => Ivf.HoldsRaw(ivf.state, ivf.config, raw)
    case HnswBox(hnsw) => hnsw.Contents() == raw
  }

  /** An exact index holds the vectors as given, and any index holds the ids. */
  lemma HoldsExactly(ix: Index, raw: Store)
    requires IndexOk(ix) && Holds(ix, raw)
    ensures StoreIn(ix).Keys == raw.Keys && Uniform(raw, DimOf(ix)) && (Exact(ix) ==> StoreIn(ix) == raw)
  {
    hide Ivf.StateOk, Ivf.Held, Ivf.HoldsRaw;
    if ix.IvfBox? {
      Ivf.RawKeys(ix.ivf.state, ix.ivf.config, raw);
      if Exact(ix) { Ivf.RawUnquantised(ix.ivf.state, ix.ivf.config, raw); }
    }
  }

  /** How many nodes a graph index has; others have none. */
  ghost function Nodes(ix: Index): nat
    reads Object(ix)
  {
    if ix.HnswBox? then |ix.hnsw.g.nodes| else 0
  }

  /** `raw` names what the index stood for before the call. */
  method Insert(ix: Index, scratch: VisitStamps, splits: nat -> Split, id: VecId, vec: Vector, ghost raw: Store)
    returns (r: Result<()>)
    requires IndexOk(ix) && Holds(ix, raw)
    modifies Object(ix), scratch
    ensures IndexOk(ix)
    ensures |vec| != DimOf(ix) ==>
              r == Err(DimMismatch(DimOf(ix), |vec|)) && Holds(ix, raw) && StoreIn(ix) == old(StoreIn(ix))
    ensures |vec| == DimOf(ix) ==> r == Ok(()) && Holds(ix, With(raw, id, vec))
    ensures ix.HnswBox? && |vec| == DimOf(ix) ==> Nodes(ix) == old(Nodes(ix)) + 1
  {
    hide HnswGraph.GraphOk, HnswGraph.Live, HnswPlan.IsPlan, HnswPlan.PlanFits, HnswCommit.LinkedUp;
    match ix
    case FlatBox(flat) => r := flat.Insert(id, vec);
    case IvfBox(ivf) => r := InsertIvf(ivf, splits, id, vec, raw);
    case HnswBox(hnsw) => r := InsertHnsw(hnsw, scratch, id, vec);
  }

  /** `floor(-ln(uniform) * ml)`: any level. */
  method RandomLevel() returns (drawn: nat) {
    drawn := *;
  }

  /** One draw per row. */
  method RandomLevels() returns (drawn: nat -> nat) {
    drawn := *;
  }

  method InsertHnsw(hnsw: HnswIndex, scratch: VisitStamps, id: VecId, vec: Vector) returns (r: Result<()>)
    requires hnsw.Valid()
    modifies hnsw, scratch
    ensures hnsw.Valid()
    ensures |vec| != hnsw.params.dim ==> r == Err(DimMismatch(hnsw.params.dim, |vec|)) && hnsw.g == old(hnsw.g)
    ensures |vec| == hnsw.params.dim ==> r == Ok(()) && hnsw.Contents() == With(old(hnsw.Contents()), id, vec)
    ensures |vec| == hnsw.params.dim ==> |hnsw.g.nodes| == |old(hnsw.g).nodes| + 1
  {
    hide HnswGraph.GraphOk, HnswGraph.Live, HnswPlan.IsPlan, HnswPlan.PlanFits, HnswCommit.LinkedUp;
    var drawn := RandomLevel();
    ghost var plan;
    r, plan := hnsw.Insert(scratch, drawn, id, vec);
  }

  method InsertIvf(ivf: Ivf.IvfIndex, splits: nat -> Split, id: VecId, vec: Vector, ghost raw: Store)
    returns (r: Result<()>)
    requires ivf.Valid() && Ivf.HoldsRaw(ivf.state, ivf.config, raw)
    modifies ivf
    ensures ivf.Valid()
    ensures |vec| != ivf.config.dim ==> r == Err(DimMismatch(ivf.config.dim, |vec|)) && ivf.state == old(ivf.state)
    ensures |vec| == ivf.config.dim ==> r == Ok(()) && Ivf.HoldsRaw(ivf.state, ivf.config, With(raw, id, vec))
  {
    hide Ivf.StateOk, Ivf.Held, Ivf.Inserted, Ivf.HoldsRaw;
    ghost var before := ivf.state;
    r := ivf.Insert(id, vec, splits);
    if |vec| == ivf.config.dim {
      Ivf.RawInsert(before, ivf.state, ivf.config, id, vec, raw);
    }
  }

  /** The rows a batch gets through before failing: none on HNSW, which checks first, else those before the bad one. */
  function BatchEffect(ix: Index, rows: seq<BatchRow>): seq<BatchRow> {
    match FirstMismatch(rows, DimOf(ix))
    case None => rows
    case Some(bad) => if ix.HnswBox? then [] else rows[..bad]
  }

  /** The trait's default, one insert at a time, except on HNSW, which builds in waves. */
  method InsertBatch(ix: Index, threads: set<VisitStamps>, splits: nat -> Split, rows: seq<BatchRow>, ghost raw: Store)
    returns (r: Result<()>)
    requires IndexOk(ix) && Holds(ix, raw) && threads != {}
    modifies Object(ix), threads
    ensures IndexOk(ix)
    ensures var bad := FirstMismatch(rows, DimOf(ix));
            r == if bad.Some? then Err(DimMismatch(DimOf(ix), |rows[bad.value].1|)) else Ok(())
    ensures var bad := FirstMismatch(rows, DimOf(ix));
            Holds(ix, InsertAll(raw, if bad.None? then rows else if ix.HnswBox? then [] else rows[..bad.value]))
  {
    if ix.HnswBox? {
      var drawn := RandomLevels();
      r := ix.hnsw.InsertBatch(threads, drawn, rows);
    } else {
      var scratch :| scratch in threads;
      r := InsertEach(ix, scratch, splits, rows, raw);
    }
  }

  lemma InsertedOne(m: Store, rows: seq<BatchRow>, i: nat)
    requires i < |rows|
    ensures InsertAll(m, rows[..i + 1]) == With(InsertAll(m, rows[..i]), rows[i].0, rows[i].1)
  {
    assert rows[..i + 1] == rows[..i] + [(rows[i].0, rows[i].1)];
    InsertAllPush(m, rows[..i], rows[i].0, rows[i].1);
  }

  method InsertEach(ix: Index, scratch: VisitStamps, splits: nat -> Split, rows: seq<BatchRow>, ghost raw: Store)
    returns (r: Result<()>)
    requires IndexOk(ix) && Holds(ix, raw) && !ix.HnswBox?
    modifies Object(ix), scratch
    ensures IndexOk(ix)
    ensures var bad := FirstMismatch(rows, DimOf(ix));
            r == if bad.Some? then Err(DimMismatch(DimOf(ix), |rows[bad.value].1|)) else Ok(())
    ensures Holds(ix, InsertAll(raw, BatchEffect(ix, rows)))
  {
    hide IndexOk, StoreIn, Holds, Nodes, InsertAll, BatchEffect, FirstMismatch, AllFit;
    assert rows[..0] == [];
    InsertNone(raw);
    for i := 0 to |rows|
      invariant IndexOk(ix) && Holds(ix, InsertAll(raw, rows[..i]))
      invariant FirstMismatch(rows, DimOf(ix)).None? || i <= FirstMismatch(rows, DimOf(ix)).value
    {
      var step := Insert(ix, scratch, splits, rows[i].0, rows[i].1, InsertAll(raw, rows[..i]));
      FitsBefore(rows, DimOf(ix), i);
      if step.Err? {
        EffectBefore(ix, rows);
        return Err(step.error);
      }
      InsertedOne(raw, rows, i);
    }
    assert rows[..|rows|] == rows;
    EffectBefore(ix, rows);
    r := Ok(());
  }

  lemma InsertNone(m: Store)
    ensures InsertAll(m, []) == m
  {
  }

  lemma EffectBefore(ix: Index, rows: seq<BatchRow>)
    requires !ix.HnswBox?
    ensures var bad := FirstMismatch(rows, DimOf(ix));
            BatchEffect(ix, rows) == if bad.Some? then rows[..bad.value] else rows
  {
  }

  lemma FitsBefore(rows: seq<BatchRow>, dim: nat, i: nat)
    requires i < |rows|
    ensures var bad := FirstMismatch(rows, dim);
            bad.None? || i <= bad.value ==> (|rows[i].1| == dim <==> bad.None? || i < bad.value)
  {
    var bad := FirstMismatch(rows, dim);
    if bad.Some? && i < bad.value {
      assert rows[..bad.value][i] == rows[i];
    }
  }

  method Delete(ix: Index, id: VecId, ghost raw: Store) returns (existed: bool)
    requires IndexOk(ix) && Holds(ix, raw)
    modifies Object(ix)
    ensures IndexOk(ix)
    ensures existed <==> id in raw
    ensures StoreIn(ix) == old(StoreIn(ix)) - {id} && Holds(ix, raw - {id})
    ensures Nodes(ix) == old(Nodes(ix))
  {
    hide Ivf.StateOk, Ivf.Held, Ivf.HoldsRaw, HnswGraph.GraphOk, HnswGraph.Live;
    match ix
    case FlatBox(flat) => existed := flat.Delete(id);
    case IvfBox(ivf) =>
      ghost var before := ivf.state;
      Ivf.RawKeys(before, ivf.config, raw);
      existed := ivf.Delete(id);
      Ivf.RawDelete(before, ivf.state, ivf.config, id, raw);
    case HnswBox(hnsw) => existed := hnsw.Delete(id);
  }

  method Get(ix: Index, id: VecId) returns (r: Option<Vector>)
    requires IndexOk(ix)
    ensures r == Lookup(StoreIn(ix), id)
  {
    match ix
    case FlatBox(flat) => r := flat.Get(id);
    case IvfBox(ivf) => r := ivf.Get(id);
    case HnswBox(hnsw) => r := hnsw.Get(id);
  }

  method Len(ix: Index, ghost raw: Store) returns (n: nat)
    requires IndexOk(ix) && Holds(ix, raw)
    ensures n == |StoreIn(ix)| == |raw|
  {
    hide Ivf.StateOk, Ivf.Held, Ivf.HoldsRaw, HnswGraph.GraphOk, HnswGraph.Live, Holds;
    HoldsExactly(ix, raw);
    assert |StoreIn(ix)| == |StoreIn(ix).Keys| == |raw.Keys| == |raw|;
    match ix
    case FlatBox(flat) => n := flat.Len();
    case IvfBox(ivf) => n := ivf.Len();
    case HnswBox(hnsw) => n := hnsw.Len();
  }

  method ListIds(ix: Index) returns (ids: seq<VecId>)
    requires IndexOk(ix)
    ensures Distinct(ids) && Elements(ids) == StoreIn(ix).Keys
  {
    match ix
    case FlatBox(flat) => ids := flat.ListIds();
    case IvfBox(ivf) => ids := ivf.ListIds();
    case HnswBox(hnsw) => ids := hnsw.ListIds();
  }

  /** The share of entries that are dead; only the graph index accumulates any. */
  ghost function DeadRatio(ix: Index): real
    requires IndexOk(ix)
    reads Object(ix)
  {
    if !ix.HnswBox? || |ix.hnsw.g.nodes| == 0 then 0.0
    else DeadShare(|ix.hnsw.g.nodes|, |StoreIn(ix)|)
  }

  method TombstoneRatio(ix: Index, ghost raw: Store) returns (ratio: real)
    requires IndexOk(ix) && Holds(ix, raw)
    ensures IndexOk(ix) && Holds(ix, raw)
    ensures ratio == old(DeadRatio(ix)) && 0.0 <= ratio <= 1.0
  {
    hide HnswGraph.GraphOk, HnswGraph.Live, Ivf.StateOk, Ivf.Held, Ivf.HoldsRaw;
    ratio := 0.0;
    if ix.HnswBox? {
      ratio := ix.hnsw.TombstoneRatio();
    }
  }
}
