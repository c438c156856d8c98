/** A collection: its index, payloads, source binding and the compaction protocol. */
module Collections {
  import opened Core
  import opened Contents
  import opened Sq8
  import opened Beam
  import opened Semantics
  import opened Compaction
  import opened VectorIndex
  import Hnsw
  import HnswGraph
  import Ivf
  import TopK

  type FullRow = (VecId, Vector, Option<Value>)

  function IndexRows(rows: seq<FullRow>): (r: seq<BatchRow>)
    ensures |r| == |rows| && forall i | 0 <= i < |rows| :: r[i] == (rows[i].0, rows[i].1)
  {
    if rows == [] then [] else IndexRows(rows[..|rows| - 1]) + [(rows[|rows| - 1].0, rows[|rows| - 1].1)]
  }

  function Upserts(rows: seq<FullRow>): seq<DeltaRow> {
    if rows == [] then []
    else Upserts(rows[..|rows| - 1]) + [Upsert(rows[|rows| - 1].0, rows[|rows| - 1].1, rows[|rows| - 1].2)]
  }

  /** The payloads of a batch, written in order. */
  function PutPayloads(payloads: map<VecId, Value>, rows: seq<FullRow>): map<VecId, Value> {
    if rows == [] then payloads
    else
      var front, last := PutPayloads(payloads, rows[..|rows| - 1]), rows[|rows| - 1];
      if last.2.Some? then front[last.0 := last.2.value] else front
  }

  /** A batch, vectors first and payloads after, leaves what inserting row by row leaves. */
  lemma {:induction false} BatchIsRowByRow(vectors: Store, payloads: map<VecId, Value>, rows: seq<FullRow>)
    ensures Rows(InsertAll(vectors, IndexRows(rows)), PutPayloads(payloads, rows))
         == Rows(vectors, payloads).ApplyAll(Upserts(rows))
  {
    hide InsertAll, Rows.ApplyAll;
    if rows == [] {
      InsertNone(vectors);
      ApplyNone(Rows(vectors, payloads));
    } else {
      var front := rows[..|rows| - 1];
      var (id, vec, payload) := rows[|rows| - 1];
      BatchIsRowByRow(vectors, payloads, front);
      InsertAllPush(vectors, IndexRows(front), id, vec);
      ApplyPush(Rows(vectors, payloads), Upserts(front), Upsert(id, vec, payload));
    }
  }

  /** A captured plan: the replacement's parameters and the live rows. */
  datatype Plan = Plan(params: HnswGraph.Params, rows: seq<BatchRow>)

  /** The plan holds exactly the map `m` and can be built. */
  ghost predicate IsPlanFor(plan: Plan, m: Store) {
    plan.params.Ok() && Hnsw.Captures(plan.rows, m) && AllFit(plan.rows, plan.params.dim)
  }

  ghost predicate JournalGrew(before: Option<seq<Mutation>>, after: Option<seq<Mutation>>, more: seq<Mutation>) {
    if before.None? then after.None? else after == Some(before.value + more)
  }

  /** The journal takes the capture to the live map, and replaying it cannot fail. */
  ghost predicate InStep(captured: Store, journal: seq<Mutation>, m: Store, dim: nat) {
    ReplayJournal(captured, journal) == m && JournalFits(journal, dim)
  }

  lemma StepRecorded(captured: Store, journal: Option<seq<Mutation>>, journal': Option<seq<Mutation>>, m: Store,
                     dim: nat, e: Event)
    requires journal.Some? ==> InStep(captured, journal.value, m, dim)
    requires JournalGrew(journal, journal', Recorded(m, dim, e))
    ensures journal'.Some? ==> InStep(captured, journal'.value, After(m, dim, e), dim)
  {
    if journal.Some? { RecordedKeepsStep(captured, journal.value, m, dim, e); }
  }

  /** Recording a batch that went in keeps the journal in step. */
  lemma BatchStep(captured: Store, journal: Option<seq<Mutation>>, m: Store, dim: nat, rows: seq<BatchRow>)
    requires journal.Some? ==> InStep(captured, journal.value, m, dim)
    requires FirstMismatch(rows, dim).None?
    ensures forall after: Option<seq<Mutation>> | JournalGrew(journal, after, Puts(rows)) && after.Some? ::
              InStep(captured, after.value, InsertAll(m, rows), dim)
  {
    hide InStep, InsertAll, Puts, FirstMismatch, JournalGrew;
    forall after: Option<seq<Mutation>> | JournalGrew(journal, after, Puts(rows)) && after.Some?
      ensures InStep(captured, after.value, InsertAll(m, rows), dim)
    {
      StepRecorded(captured, journal, after, m, dim, Batched(rows));
    }
  }

  /** A creation is accepted exactly when the index's own constructor accepts its parameters. */
  lemma AcceptedIffConstructible(kind: IndexKind, dim: nat, dist: Distance, heuristic: bool)
    ensures KindAccepted(kind, dim)
       <==> match kind
            case Flat => true
            case Ivf(nlist, nprobe) => Ivf.ValidParams(dim, nlist, nprobe)
            case IvfSq8(nlist, nprobe) => Ivf.ValidParams(dim, nlist, nprobe)
            case Hnsw(m, efConstruction, efSearch) =>
              HnswGraph.Params(dim, dist, m, efConstruction, efSearch, heuristic).Ok()
  {
  }

  class Collection {
    var index: Index
    var payloads: map<VecId, Value>
    var binding: Option<SourceBinding>
    var watermark: Option<int>
    var journal: Option<seq<Mutation>>

    /** The vectors as they were given; a quantised index reads them back decoded. */
    ghost var given: Store

    /** The map captured by the plan that opened the current journal. */
    ghost var captured: Store

    ghost predicate Valid()
      reads this, Object(index)
    {
      && IndexOk(index) && Holds(index, given)
      && (journal.Some? ==> index.HnswBox? && InStep(captured, journal.value, given, DimOf(index)))
    }

    /** Vectors and payloads by id, as they were given. */
    ghost function Contents(): Rows
      reads this
    {
      Rows(given, payloads)
    }

    constructor (index: Index, ghost given: Store)
      requires IndexOk(index) && Holds(index, given)
      ensures Valid() && this.index == index && Contents() == Rows(given, map[])
      ensures journal.None? && binding.None? && watermark.None?
    {
      this.index, payloads, binding, watermark, journal := index, map[], None, None, None;
      this.given, captured := given, map[];
    }

    method Insert(scratch: VisitStamps, splits: nat -> TopK.Split, id: VecId, vec: Vector, payload: Option<Value>)
      returns (r: Result<()>)
      requires Valid()
      modifies this`payloads, this`journal, this`given, Object(index), scratch
      ensures Valid()
      ensures |vec| != DimOf(index) ==> r == Err(DimMismatch(DimOf(index), |vec|)) && Contents() == old(Contents())
      ensures |vec| == DimOf(index) ==> r == Ok(()) && Contents() == old(Contents()).Put(id, vec, payload)
      ensures index.HnswBox? && |vec| == DimOf(index) ==> Nodes(index) == old(Nodes(index)) + 1
      ensures JournalGrew(old(journal), journal, if |vec| == DimOf(index) then [Put(id, vec)] else [])
    {
      hide IndexOk, Holds, InStep, Nodes;
      r := VectorIndex.Insert(index, scratch, splits, id, vec, given);
      if r.Err? {
        NothingRecorded(journal);
        return;
      }
      Record([Put(id, vec)]);
      StepRecorded(captured, old(journal), journal, given, DimOf(index), Inserted(id, vec));
      given := With(given, id, vec);
      if payload.Some? {
        payloads := payloads[id := payload.value];
      }
    }

    /** On failure no payload is written, though a flat or IVF index keeps the rows before the bad one. */
    method InsertBatch(threads: set<VisitStamps>, splits: nat -> TopK.Split, rows: seq<FullRow>) returns (r: Result<()>)
      requires Valid() && threads != {}
      modifies this`payloads, this`journal, this`given, Object(index), threads
      ensures Valid()
      ensures var bad := FirstMismatch(IndexRows(rows), DimOf(index));
              if bad.Some? then
                && r == Err(DimMismatch(DimOf(index), |rows[bad.value].1|)) && payloads == old(payloads)
                && Contents().vectors
                   == InsertAll(old(Contents()).vectors, if index.HnswBox? then [] else IndexRows(rows)[..bad.value])
              else r == Ok(()) && Contents() == old(Contents()).ApplyAll(Upserts(rows))
      ensures JournalGrew(old(journal), journal, if r.Ok? then Puts(IndexRows(rows)) else [])
    {
      hide IndexOk, Holds, InStep, InsertAll, Rows.ApplyAll, PutPayloads, Puts, IndexRows, AllFit, Upserts, JournalGrew,
        FirstMismatch;
      var indexRows := IndexRows(rows);
      ghost var bad := FirstMismatch(indexRows, DimOf(index));
      r := VectorIndex.InsertBatch(index, threads, splits, indexRows, given);
      assert Object(index) != this;
      if r.Err? {
        NothingRecorded(journal);
        InsertNone(given);
        given := InsertAll(given, if index.HnswBox? then [] else indexRows[..bad.value]);
      } else {
        BatchIsRowByRow(given, payloads, rows);
        BatchStep(captured, journal, given, DimOf(index), indexRows);
        Record(Puts(indexRows));
        WritePayloads(rows);
        given := InsertAll(given, indexRows);
      }
    }

    /** Journal mutations if a rebuild is under way. */
    method Record(more: seq<Mutation>)
      modifies this`journal
      ensures JournalGrew(old(journal), journal, more)
    {
      if journal.Some? {
        journal := Some(journal.value + more);
      }
    }

    method WritePayloads(rows: seq<FullRow>)
      modifies this`payloads
      ensures payloads == PutPayloads(old(payloads), rows)
    {
      for i := 0 to |rows|
        invariant payloads == PutPayloads(old(payloads), rows[..i])
      {
        assert rows[..i + 1][..i] == rows[..i];
        if rows[i].2.Some? {
          payloads := payloads[rows[i].0 := rows[i].2.value];
        }
      }
      assert rows[..|rows|] == rows;
    }

    method Delete(id: VecId) returns (existed: bool)
      requires Valid()
      modifies this`payloads, this`journal, this`given, Object(index)
      ensures Valid()
      ensures existed <==> id in old(Contents()).vectors
      ensures Contents() == old(Contents()).Drop(id) && Nodes(index) == old(Nodes(index))
      ensures id !in Contents().vectors && id !in payloads
      ensures JournalGrew(old(journal), journal, if existed then [Erase(id)] else [])
    {
      hide IndexOk, Holds, InStep, Nodes;
      existed := VectorIndex.Delete(index, id, given);
      if existed {
        Record([Erase(id)]);
      } else {
        NothingRecorded(journal);
      }
      StepRecorded(captured, old(journal), journal, given, DimOf(index), Deleted(id));
      given := given - {id};
      payloads := payloads - {id};
    }

    method ApplyDeltaRow(scratch: VisitStamps, splits: nat -> TopK.Split, row: DeltaRow) returns (r: Result<()>)
      requires Valid()
      modifies this`payloads, this`journal, this`given, Object(index), scratch
      ensures Valid()
      ensures !RowFits(row, DimOf(index)) ==>
                r == Err(DimMismatch(DimOf(index), |row.vector|)) && Contents() == old(Contents())
      ensures RowFits(row, DimOf(index)) ==> r == Ok(()) && Contents() == old(Contents()).Apply(row)
    {
      hide IndexOk, Holds, InStep, JournalGrew, Nodes;
      match row
      case Upsert(id, vector, payload) => r := Insert(scratch, splits, id, vector, payload);
      case Remove(id) =>
        var _ := Delete(id);
        r := Ok(());
    }

    /**
     * Replaying a logged insert: an identical row, as `get` reads it, is left alone so that no overwritten
     * node stays behind. The collection ends up holding the row either way, quantised or not.
     */
    method ReplayInsert(scratch: VisitStamps, splits: nat -> TopK.Split, id: VecId, vector: Vector,
                        payload: Option<Value>)
      returns (r: Result<()>)
      requires Valid()
      modifies this`payloads, this`journal, this`given, Object(index), scratch
      ensures Valid()
      ensures |vector| != DimOf(index) ==>
                r == Err(DimMismatch(DimOf(index), |vector|)) && Contents() == old(Contents())
      ensures |vector| == DimOf(index) ==> r == Ok(()) && Contents() == old(Contents()).Put(id, vector, payload)
      ensures old(Reading().Get(id)) == Some((vector, payload)) ==>
                Nodes(index) == old(Nodes(index)) && journal == old(journal)
    {
      hide IndexOk, Holds, InStep, JournalGrew, Nodes, StoreIn;
      var current := Get(id);
      if current == Some((vector, payload)) {
        ReadAgain(index, given, id, vector);
        SameStep(captured, journal, given, DimOf(index), id, vector, index);
        given := With(given, id, vector);
        return Ok(());
      }
      r := ApplyDeltaRow(scratch, splits, Upsert(id, vector, payload));
    }

    /** Vectors and payloads by id, as they are read back. */
    ghost function Reading(): Rows
      requires IndexOk(index)
      reads this, Object(index)
    {
      Rows(StoreIn(index), payloads)
    }

    method Get(id: VecId) returns (r: Option<(Vector, Option<Value>)>)
      requires Valid()
      ensures r == Reading().Get(id) && (r.Some? <==> id in Contents().vectors)
      ensures Exact(index) ==> r == Contents().Get(id)
    {
      hide HnswGraph.GraphOk, HnswGraph.Live, Ivf.StateOk, Ivf.Held, Ivf.HoldsRaw;
      HoldsExactly(index, given);
      assert id in StoreIn(index).Keys <==> id in given.Keys;
      var vec := VectorIndex.Get(index, id);
      if vec.None? {
        return None;
      }
      r := Some((vec.value, if id in payloads then Some(payloads[id]) else None));
    }

    method Len() returns (n: nat)
      requires Valid()
      ensures n == |Contents().vectors|
    {
      hide IndexOk, Holds, StoreIn;
      n := VectorIndex.Len(index, given);
    }

    // --- Off-thread compaction ---------------------------------------------------------------------------

    /**
     * Capture a plan and open the journal. Refused while a journal is open, when the index holds too few
     * dead entries, and for any index but HNSW.
     */
    method PrepareCompaction(threshold: real) returns (plan: Option<Plan>)
      requires Valid()
      modifies this`journal, this`captured
      ensures Valid()
      ensures plan.Some? <==> old(journal).None? && index.HnswBox? && old(DeadRatio(index)) > threshold
      ensures plan.None? ==> journal == old(journal) && captured == old(captured)
      ensures plan.Some? ==> journal == Some([]) && captured == given && IsPlanFor(plan.value, captured)
      ensures plan.Some? ==> plan.value.params == index.hnsw.params
    {
      hide IndexOk, Holds, DeadRatio, IsPlanFor, InStep;
      plan := None;
      if journal.None? {
        plan := PlanIfDue(index, threshold, given);
        if plan.Some? {
          assert Object(index) != this;
          OpenJournal();
          NothingYet(captured, DimOf(index));
        }
      }
    }

    method OpenJournal()
      modifies this`journal, this`captured
      ensures journal == Some([]) && captured == given
    {
      journal, captured := Some([]), given;
    }

    /**
     * Replay the journal onto the replacement and swap it in. With the plan that opened the journal this
     * never fails, and the map, and so every `get`, the length and the ids, stay the same. Searches may change:
     * what the rebuild drops they no longer find.
     */
    method FinishCompaction(built: Hnsw.HnswIndex, scratch: VisitStamps) returns (r: Result<bool>)
      requires Valid() && built.Valid() && built != Object(index)
      modifies this`index, this`journal, this`given, built, scratch
      ensures Valid() && journal.None? && payloads == old(payloads)
      ensures old(journal).None? ==> r == Ok(false)
      ensures old(journal).Some? && JournalFits(old(journal).value, built.params.dim) ==>
                && r == Ok(true) && index == HnswBox(built)
                && Contents().vectors == ReplayJournal(old(built.Contents()), old(journal).value)
      ensures old(journal).Some? && !JournalFits(old(journal).value, built.params.dim) ==>
                r == Err(DimMismatch(built.params.dim, DimOf(index)))
      ensures r != Ok(true) ==> index == old(index) && Contents() == old(Contents())
      ensures old(journal).Some? && old(built.Contents()) == old(captured) && built.params.dim == old(DimOf(index)) ==>
                r == Ok(true) && Contents() == old(Contents()) && Reading() == old(Reading())
    {
      hide IndexOk, StoreIn, Holds, HnswGraph.GraphOk, HnswGraph.Live, Hnsw.HnswIndex.Valid, Hnsw.HnswIndex.Contents;
      r := Ok(false);
      if journal.Some? {
        HoldsExactly(index, given);
        var taken := journal.value;
        journal := None;
        var failed := ReplayOnto(built, scratch, taken, DimOf(index));
        if failed.Some? {
          r := Err(failed.value);
        } else {
          index, given := HnswBox(built), built.Contents();
          Boxed(built);
          r := Ok(true);
        }
      }
    }

    /** Stop journaling; the live index stays as it is. */
    method CancelCompaction()
      requires Valid()
      modifies this`journal
      ensures Valid() && journal.None? && Contents() == old(Contents())
    {
      journal := None;
    }

    /**
     * Rebuild a trained IVF index in place of the old one. It is fed what the old one reads back, so a
     * quantised collection now stands for the decoded vectors.
     */
    method CompactIvf(splits: nat -> TopK.Split) returns (replaced: bool)
      requires Valid()
      modifies this`index, this`given
      ensures Valid() && payloads == old(payloads)
      ensures replaced <==> old(index).IvfBox? && old(index).ivf.state.trained
      ensures Contents().vectors == if replaced then old(Reading()).vectors else old(Contents()).vectors
      ensures Contents().vectors.Keys == old(Contents()).vectors.Keys
      ensures old(Exact(index)) ==> Contents() == old(Contents())
      ensures if replaced then index.IvfBox? && index.ivf.config == old(index).ivf.config else index == old(index)
    {
      hide Ivf.StateOk, Ivf.Held, Ivf.HoldsRaw, InStep;
      HoldsExactly(index, given);
      replaced := false;
      if index.IvfBox? {
        var compacted := index.ivf.Compact(splits);
        if compacted.Some? {
          given := StoreIn(index);
          index := IvfBox(compacted.value);
          replaced := true;
        }
      }
    }

    // --- Source deltas ------------------------------------------------------------------------------------

    /**
     * Rows of a source snapshot. A stale binding or watermark changes nothing; the watermark moves only
     * when every row went in.
     */
    method ApplySourceDelta(scratch: VisitStamps, splits: nat -> TopK.Split, expected: SourceBinding,
                            from: Option<int>, to: int,
                            delta: seq<DeltaRow>)
      returns (r: Result<bool>)
      requires Valid()
      modifies this`payloads, this`journal, this`watermark, this`given, Object(index), scratch
      ensures Valid()
      ensures binding != Some(expected) || old(watermark) != from ==>
                r == Ok(false) && Contents() == old(Contents()) && watermark == old(watermark)
      ensures binding == Some(expected) && old(watermark) == from ==>
                var bad := FirstUnfit(delta, DimOf(index));
                && Contents() == old(Contents()).ApplyAll(if bad.Some? then delta[..bad.value] else delta)
                && if bad.Some? then r.Err? && watermark == old(watermark) else r == Ok(true) && watermark == Some(to)
    {
      hide IndexOk, Holds, InStep, Rows.ApplyAll;
      if binding != Some(expected) || watermark != from {
        return Ok(false);
      }
      assert delta[..0] == [];
      ApplyNone(Contents());
      for i := 0 to |delta|
        invariant Valid() && index == old(index) && watermark == old(watermark) && binding == old(binding)
        invariant Contents() == old(Contents()).ApplyAll(delta[..i])
        invariant FirstUnfit(delta, DimOf(index)).None? || i <= FirstUnfit(delta, DimOf(index)).value
      {
        UnfitBefore(delta, DimOf(index), i);
        var step := ApplyDeltaRow(scratch, splits, delta[i]);
        if step.Err? {
          return Err(step.error);
        }
        ApplyNext(old(Contents()), delta, i);
      }
      assert delta[..|delta|] == delta;
      watermark := Some(to);
      return Ok(true);
    }
  }

  /** A plan for a graph index whose dead share exceeds the threshold. */
  method PlanIfDue(ix: Index, threshold: real, ghost given: Store) returns (plan: Option<Plan>)
    requires IndexOk(ix) && Holds(ix, given)
    ensures IndexOk(ix) && Holds(ix, given)
    ensures plan.Some? <==> ix.HnswBox? && old(DeadRatio(ix)) > threshold
    ensures plan.Some? ==> plan.value.params == ix.hnsw.params && IsPlanFor(plan.value, given)
  {
    hide IndexOk, Holds, DeadRatio, IsPlanFor;
    plan := None;
    var ratio := VectorIndex.TombstoneRatio(ix, given);
    if ratio > threshold && ix.HnswBox? {
      var captures := Capture(ix, given);
      plan := Some(captures);
    }
  }

  /** The index's parameters and its live rows. */
  method Capture(ix: Index, ghost given: Store) returns (plan: Plan)
    requires IndexOk(ix) && Holds(ix, given) && ix.HnswBox?
    ensures IndexOk(ix) && Holds(ix, given)
    ensures plan.params == ix.hnsw.params && IsPlanFor(plan, given)
  {
    hide HnswGraph.EdgesOk, HnswGraph.IdsOk, HnswGraph.EntryOk, HnswGraph.Live, Hnsw.Captures;
    var rows := ix.hnsw.PrepareCompaction();
    plan := Plan(ix.hnsw.params, rows);
  }

  lemma NothingYet(captured: Store, dim: nat)
    ensures InStep(captured, [], captured, dim)
  {
  }

  /** An index that reads `vector` for `id` can be said to have been given it. */
  lemma ReadAgain(ix: Index, given: Store, id: VecId, vector: Vector)
    requires IndexOk(ix) && Holds(ix, given) && id in StoreIn(ix) && StoreIn(ix)[id] == vector
    ensures Holds(ix, With(given, id, vector)) && |vector| == DimOf(ix)
    ensures Exact(ix) ==> With(given, id, vector) == given
  {
    hide Ivf.StateOk, Ivf.Held, Ivf.HoldsRaw;
    HoldsExactly(ix, given);
    if ix.IvfBox? { Ivf.GivenAgain(ix.ivf.state, ix.ivf.config, given, id); }
  }

  lemma SameStep(captured: Store, journal: Option<seq<Mutation>>, given: Store, dim: nat, id: VecId, vector: Vector,
                 ix: Index)
    requires journal.Some? ==> ix.HnswBox? && InStep(captured, journal.value, given, dim)
    requires Exact(ix) ==> With(given, id, vector) == given
    ensures journal.Some? ==> ix.HnswBox? && InStep(captured, journal.value, With(given, id, vector), dim)
  {
  }

  lemma NothingRecorded(journal: Option<seq<Mutation>>)
    ensures JournalGrew(journal, journal, [])
  {
    if journal.Some? { assert journal.value + [] == journal.value; }
  }

  lemma Boxed(built: Hnsw.HnswIndex)
    requires built.Valid()
    ensures IndexOk(HnswBox(built)) && Holds(HnswBox(built), built.Contents())
    ensures StoreIn(HnswBox(built)) == built.Contents()
  {
  }

  lemma ApplyNext(rows: Rows, delta: seq<DeltaRow>, i: nat)
    requires i < |delta|
    ensures rows.ApplyAll(delta[..i + 1]) == rows.ApplyAll(delta[..i]).Apply(delta[i])
  {
    assert delta[..i + 1][..i] == delta[..i];
  }

  /** Position of the first row that cannot be applied. */
  function FirstUnfit(delta: seq<DeltaRow>, dim: nat): (r: Option<nat>)
    ensures r.None? <==> forall i | 0 <= i < |delta| :: RowFits(delta[i], dim)
    ensures r.Some? ==>
              r.value < |delta| && !RowFits(delta[r.value], dim)
                && forall i | 0 <= i < r.value :: RowFits(delta[i], dim)
  {
    if delta == [] then None
    else
      match FirstUnfit(delta[..|delta| - 1], dim)
      case Some(i) => Some(i)
      case None => if RowFits(delta[|delta| - 1], dim) then None else Some(|delta| - 1)
  }

  lemma UnfitBefore(delta: seq<DeltaRow>, dim: nat, i: nat)
    requires i < |delta|
    ensures var bad := FirstUnfit(delta, dim);
            bad.None? || i <= bad.value ==> (RowFits(delta[i], dim) <==> bad.None? || i < bad.value)
  {
  }

  /** Replay a journal whose upserts all have dimension `dim` onto a rebuilt graph. */
  method ReplayOnto(built: Hnsw.HnswIndex, scratch: VisitStamps, journal: seq<Mutation>,
                    ghost dim: nat) returns (failed: Option<Error>)
    requires built.Valid() && JournalFits(journal, dim)
    modifies built, scratch
    ensures built.Valid()
    ensures failed.None? <==> JournalFits(journal, built.params.dim)
    ensures failed.None? ==> built.Contents() == ReplayJournal(old(built.Contents()), journal)
    ensures failed.Some? ==> failed.value == DimMismatch(built.params.dim, dim)
  {
    hide Hnsw.HnswIndex.Valid, Hnsw.HnswIndex.Contents, ReplayJournal;
    assert journal[..0] == [];
    ReplayNone(built.Contents());
    for i := 0 to |journal|
      invariant built.Valid() && built.Contents() == ReplayJournal(old(built.Contents()), journal[..i])
      invariant JournalFits(journal[..i], built.params.dim)
    {
      ReplayNext(old(built.Contents()), journal, i);
      match journal[i] {
        case Put(id, vector) =>
          ghost var plan;
          var step;
          var drawn := RandomLevel();
          step, plan := built.Insert(scratch, drawn, id, vector);
          if step.Err? {
            return Some(step.error);
          }
        case Erase(id) =>
          var _ := built.Delete(id);
      }
    }
    assert journal[..|journal|] == journal;
    return None;
  }

  lemma ReplayNone(m: Store)
    ensures ReplayJournal(m, []) == m
  {
  }

  lemma ReplayNext(m: Store, journal: seq<Mutation>, i: nat)
    requires i < |journal|
    ensures ReplayJournal(m, journal[..i + 1]) == Mutate(ReplayJournal(m, journal[..i]), journal[i])
  {
    assert journal[..i + 1][..i] == journal[..i];
  }

  /** Build the replacement away from the collection. */
  method BuildPlan(plan: Plan, threads: set<VisitStamps>, ghost captured: Store) returns (built: Hnsw.HnswIndex)
    requires IsPlanFor(plan, captured) && threads != {}
    modifies threads
    ensures fresh(built) && built.Valid() && built.params == plan.params
    ensures built.Contents() == captured && |built.g.nodes| == |captured|
  {
    var drawn := RandomLevels();
    built := Hnsw.Rebuild(threads, drawn, plan.params, plan.rows, captured);
  }

  /** More nodes than live ids: some are dead. */
  lemma SomeDead(ix: Index, given: Store)
    requires IndexOk(ix) && Holds(ix, given) && ix.HnswBox? && Nodes(ix) > |given|
    ensures DeadRatio(ix) > 0.0
  {
    hide HnswGraph.GraphOk, HnswGraph.Live, Hnsw.DeadShare;
    assert Hnsw.DeadShare(Nodes(ix), |given|) > 0.0;
  }

  /**
   * A run in which a stale plan is accepted and loses a write. A plan is prepared and cancelled, an insert
   * succeeds, the next plan opens its journal, and then the first plan is finished.
   */
  method StalePlanLosesAWrite(params: HnswGraph.Params, scratch: VisitStamps, threads: set<VisitStamps>,
                              splits: nat -> TopK.Split, v: Vector)
    returns (c: Collection, inserted: Result<()>, finished: Result<bool>)
    requires params.Ok() && |v| == params.dim && threads != {}
    modifies scratch, threads
    ensures fresh(c) && c.Valid() && inserted == Ok(()) && finished == Ok(true)
    ensures 7 !in c.Contents().vectors
  {
    hide IndexOk, Holds, StoreIn, InStep, JournalGrew, DeadRatio, IsPlanFor, Nodes, Collection.Valid;
    var stale;
    c, stale := PrepareAndCancel(params, scratch, splits, v);
    inserted := InsertAndPrepare(c, scratch, splits, v);
    var built := BuildPlan(stale, threads, map[]);
    NoUpserts(built.params.dim);
    ReplayNone(map[]);
    finished := c.FinishCompaction(built, scratch);
  }

  /** Insert 9 and delete it, so that a node is dead; then prepare a plan and cancel it. */
  method PrepareAndCancel(params: HnswGraph.Params, scratch: VisitStamps, splits: nat -> TopK.Split, v: Vector)
    returns (c: Collection, stale: Plan)
    requires params.Ok() && |v| == params.dim
    modifies scratch
    ensures fresh(c) && fresh(Object(c.index)) && c.Valid() && c.journal.None? && c.index.HnswBox?
    ensures DimOf(c.index) == params.dim && Nodes(c.index) == 1 && c.Contents() == NO_ROWS
    ensures IsPlanFor(stale, map[])
  {
    hide IndexOk, Holds, StoreIn, InStep, DeadRatio, IsPlanFor;
    c := EmptyGraphCollection(params);
    var _ := c.Insert(scratch, splits, 9, v, None);
    var _ := c.Delete(9);
    assert NO_ROWS.Put(9, v, None).Drop(9) == NO_ROWS;
    SomeDead(c.index, c.given);
    var prepared := c.PrepareCompaction(0.0);
    stale := prepared.value;
    c.CancelCompaction();
  }

  /** Insert 7 and prepare the next plan. */
  method InsertAndPrepare(c: Collection, scratch: VisitStamps, splits: nat -> TopK.Split, v: Vector)
    returns (inserted: Result<()>)
    requires c.Valid() && c.journal.None? && c.index.HnswBox? && |v| == DimOf(c.index)
    requires Nodes(c.index) == 1 && c.Contents() == NO_ROWS
    modifies c, Object(c.index), scratch
    ensures c.Valid() && c.index == old(c.index) && inserted == Ok(()) && c.journal == Some([])
    ensures c.Contents() == NO_ROWS.Put(7, v, None)
  {
    hide IndexOk, Holds, StoreIn, InStep, DeadRatio, IsPlanFor;
    inserted := c.Insert(scratch, splits, 7, v, None);
    assert c.given == map[7 := v];
    SomeDead(c.index, c.given);
    var prepared := c.PrepareCompaction(0.0);
    assert prepared.Some?;
  }

  lemma NoUpserts(dim: nat)
    ensures JournalFits([], dim)
  {
  }

  method EmptyGraphCollection(params: HnswGraph.Params) returns (c: Collection)
    requires params.Ok()
    ensures fresh(c) && fresh(Object(c.index)) && c.Valid() && c.journal.None? && c.index.HnswBox?
    ensures DimOf(c.index) == params.dim && Nodes(c.index) == 0 && c.Contents() == NO_ROWS
  {
    var hnsw := new Hnsw.HnswIndex(params);
    c := new Collection(HnswBox(hnsw), map[]);
  }
}
