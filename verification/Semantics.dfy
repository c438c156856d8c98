/**
 * What collections and their operations mean, on values: the state a collection stands for, delta rows,
 * the operations of the log, and their live and replayed effects.
 */
module Semantics {
  import opened Core
  import opened Contents

  /** A JSON payload, kept as its text. */
  type Value = string

  datatype SourceBinding = SourceBinding(namespace: seq<string>, table: string, idColumn: string, vectorColumn: string,
                                         payloadColumns: seq<string>)

  datatype Metric = Cosine | Dot | L2

  datatype IndexKind =
    | Flat
    | Ivf(nlist: nat, nprobe: nat)
    | IvfSq8(nlist: nat, nprobe: nat)
    | Hnsw(m: nat, efConstruction: nat, efSearch: nat)

  /** Parameters each index constructor accepts. */
  predicate KindAccepted(kind: IndexKind, dim: nat) {
    match kind
    case Flat => true
    case Ivf(nlist, nprobe) => dim > 0 && 1 <= nprobe <= nlist
    case IvfSq8(nlist, nprobe) => dim > 0 && 1 <= nprobe <= nlist
    case Hnsw(m, efConstruction, efSearch) => dim > 0 && m >= 2 && efConstruction >= m && efSearch >= 1
  }

  // --- One collection -------------------------------------------------------------------------------

  datatype DeltaRow = Upsert(id: VecId, vector: Vector, payload: Option<Value>) | Remove(id: VecId)

  /** Vectors and payloads by id; a payload-less upsert keeps the old payload. */
  datatype Rows = Rows(vectors: Store, payloads: map<VecId, Value>) {

    function Put(id: VecId, vector: Vector, payload: Option<Value>): Rows {
      Rows(vectors[id := vector], if payload.Some? then payloads[id := payload.value] else payloads)
    }

    function Drop(id: VecId): Rows {
      Rows(vectors - {id}, payloads - {id})
    }

    function Apply(row: DeltaRow): Rows {
      match row
      case Upsert(id, vector, payload) => Put(id, vector, payload)
      case Remove(id) => Drop(id)
    }

    function Get(id: VecId): Option<(Vector, Option<Value>)> {
      if id in vectors then Some((vectors[id], if id in payloads then Some(payloads[id]) else None)) else None
    }

    function ApplyAll(rows: seq<DeltaRow>): Rows {
      if rows == [] then this else ApplyAll(rows[..|rows| - 1]).Apply(rows[|rows| - 1])
    }
  }

  const NO_ROWS := Rows(map[], map[])

  lemma ApplyNone(rows: Rows)
    ensures rows.ApplyAll([]) == rows
  {
  }

  lemma ApplyPush(rows: Rows, delta: seq<DeltaRow>, row: DeltaRow)
    ensures rows.ApplyAll(delta + [row]) == rows.ApplyAll(delta).Apply(row)
  {
    assert (delta + [row])[..|delta|] == delta;
  }

  predicate RowFits(row: DeltaRow, dim: nat) {
    row.Upsert? ==> |row.vector| == dim
  }

  /** What a collection stands for. `watermark` is the source snapshot its rows reflect. */
  datatype Col = Col(kind: IndexKind, dim: nat, metric: Metric, rows: Rows, binding: Option<SourceBinding>,
                     watermark: Option<int>)

  function FreshCol(dim: nat, metric: Metric, kind: IndexKind): Col {
    Col(kind, dim, metric, NO_ROWS, None, None)
  }

  /** `apply_delta_row`: an upsert of the wrong length fails and changes nothing. */
  function ApplyRow(c: Col, row: DeltaRow): (Col, Result<()>) {
    if RowFits(row, c.dim) then (c.(rows := c.rows.Apply(row)), Ok(()))
    else (c, Err(DimMismatch(c.dim, |row.vector|)))
  }

  // --- The manager and the log's operations -----------------------------------------------------------

  type Manager = map<string, Col>

  datatype WalOp =
    | CreateCollection(name: string, dim: nat, metric: Metric, kind: IndexKind)
    | DropCollection(name: string)
    | Insert(name: string, id: VecId, vector: Vector, payload: Option<Value>)
    | Delete(name: string, id: VecId)
    | EnableFts(name: string)
    | SetBinding(name: string, binding: SourceBinding)

  /** The effect and outcome of an operation when a client issues it. */
  function Live(mgr: Manager, op: WalOp): (Manager, Result<()>) {
    if op.CreateCollection? then
      if op.name in mgr then (mgr, Err(CollectionAlreadyExists(op.name)))
      else if !KindAccepted(op.kind, op.dim) then (mgr, Err(InvalidArgument))
      else (mgr[op.name := FreshCol(op.dim, op.metric, op.kind)], Ok(()))
    else if op.name !in mgr then (mgr, Err(CollectionNotFound(op.name)))
    else
      match op
      case DropCollection(name) => (mgr - {name}, Ok(()))
      case Insert(name, id, vector, payload) =>
        var (c, r) := ApplyRow(mgr[name], Upsert(id, vector, payload));
        (mgr[name := c], r)
      case Delete(name, id) =>
        var (c, r) := ApplyRow(mgr[name], Remove(id));
        (mgr[name := c], r)
      case EnableFts(_) => (mgr, Ok(()))
      case SetBinding(name, binding) => (mgr[name := mgr[name].(binding := Some(binding))], Ok(()))
  }

  /** `apply_op`: replay tolerates what an earlier, partly surviving application may have left. */
  function Replay(mgr: Manager, op: WalOp): (Manager, Result<()>) {
    match op
    case CreateCollection(name, dim, metric, kind) =>
      if name in mgr then (mgr, Ok(()))
      else if !KindAccepted(kind, dim) then (mgr, Err(InvalidArgument))
      else (mgr[name := FreshCol(dim, metric, kind)], Ok(()))
    case DropCollection(name) => (mgr - {name}, Ok(()))
    case Insert(name, id, vector, payload) =>
      if name !in mgr then (mgr, Err(CollectionNotFound(name)))
      else if mgr[name].rows.Get(id) == Some((vector, payload)) then (mgr, Ok(()))
      else
        var (c, r) := ApplyRow(mgr[name], Upsert(id, vector, payload));
        (mgr[name := c], r)
    case Delete(name, id) =>
      if name !in mgr then (mgr, Err(CollectionNotFound(name)))
      else
        var (c, r) := ApplyRow(mgr[name], Remove(id));
        (mgr[name := c], r)
    case EnableFts(_) => (mgr, Ok(()))
    case SetBinding(name, binding) =>
      if name !in mgr then (mgr, Ok(())) else (mgr[name := mgr[name].(binding := Some(binding))], Ok(()))
  }

  /** The state after a sequence of replayed operations; failed ones change nothing and are skipped. */
  function ReplayAll(mgr: Manager, ops: seq<WalOp>): Manager {
    if ops == [] then mgr else Replay(ReplayAll(mgr, ops[..|ops| - 1]), ops[|ops| - 1]).0
  }

  function LiveAll(mgr: Manager, ops: seq<WalOp>): Manager {
    if ops == [] then mgr else Live(LiveAll(mgr, ops[..|ops| - 1]), ops[|ops| - 1]).0
  }

  /** Every stored vector has its collection's dimension. */
  ghost predicate Dimensioned(mgr: Manager) {
    forall name | name in mgr :: Uniform(mgr[name].rows.vectors, mgr[name].dim)
  }

  // --- What an operation comes to -------------------------------------------------------------------------

  /** The operation's collection is there, or for a creation is not, and its arguments are accepted. */
  predicate CanRun(mgr: Manager, op: WalOp) {
    match op
    case CreateCollection(name, dim, _, kind) => name !in mgr && KindAccepted(kind, dim)
    case Insert(name, _, vector, _) => name in mgr && |vector| == mgr[name].dim
    case _ => op.name in mgr
  }

  /** Every id but `id` reads as before. */
  ghost predicate OthersRead(before: Rows, after: Rows, id: VecId) {
    forall x | x != id :: after.Get(x) == before.Get(x)
  }

  /** What a reader finds in the operation's collection afterwards. */
  ghost predicate Took(op: WalOp, before: Manager, after: Manager)
    requires CanRun(before, op)
  {
    if op.DropCollection? then op.name !in after
    else
      && op.name in after
      && var now := after[op.name];
         match op
         case CreateCollection(_, dim, metric, kind) =>
           && (forall id :: now.rows.Get(id) == None && id !in now.rows.payloads)
           && now.dim == dim && now.metric == metric && now.kind == kind
           && now.binding == None && now.watermark == None
         case Insert(name, id, vector, payload) =>
           var was := before[name].rows;
           && now.rows.Get(id) == Some((vector, if payload.Some? then payload
                                                else if id in was.payloads then Some(was.payloads[id]) else None))
           && OthersRead(was, now.rows, id) && now == before[name].(rows := now.rows)
         case Delete(name, id) =>
           && now.rows.Get(id) == None && id !in now.rows.payloads
           && OthersRead(before[name].rows, now.rows, id) && now == before[name].(rows := now.rows)
         case EnableFts(name) => now == before[name]
         case SetBinding(name, binding) => now == before[name].(binding := Some(binding))
  }

  /** No collection but `name` changes. */
  ghost predicate OthersSame(before: Manager, after: Manager, name: string) {
    forall x | x != name :: (x in after <==> x in before) && (x in before ==> after[x] == before[x])
  }

  /**
   * An operation succeeds exactly when it can run. Then its own collection reads as asked and the others
   * stay the same; a failed operation changes nothing.
   */
  lemma LiveTakes(mgr: Manager, op: WalOp)
    ensures var (after, r) := Live(mgr, op);
            && (r.Ok? <==> CanRun(mgr, op)) && OthersSame(mgr, after, op.name)
            && if r.Ok? then Took(op, mgr, after) else after == mgr
  {
  }

  /** Why an operation that cannot run fails. */
  lemma LiveFails(mgr: Manager, op: WalOp)
    requires !CanRun(mgr, op)
    ensures Live(mgr, op)
         == (mgr, Err(if op.CreateCollection? then
                        if op.name in mgr then CollectionAlreadyExists(op.name) else InvalidArgument
                      else if op.name !in mgr then CollectionNotFound(op.name)
                      else DimMismatch(mgr[op.name].dim, |op.vector|)))
  {
    LiveTakes(mgr, op);
  }

  /** What replay still reports: rows for an absent collection, rows of the wrong length, and bad parameters. */
  lemma ReplayFails(mgr: Manager, op: WalOp)
    requires Dimensioned(mgr)
    ensures Replay(mgr, op).1
         == if (op.Insert? || op.Delete?) && op.name !in mgr then Err(CollectionNotFound(op.name))
            else if op.Insert? && |op.vector| != mgr[op.name].dim then Err(DimMismatch(mgr[op.name].dim, |op.vector|))
            else if op.CreateCollection? && op.name !in mgr && !KindAccepted(op.kind, op.dim) then Err(InvalidArgument)
            else Ok(())
  {
    if op.name in mgr { assert Uniform(mgr[op.name].rows.vectors, mgr[op.name].dim); }
  }

  /** A deleted id is forgotten whole: inserted again without a payload it has none. */
  lemma DeletedIsForgotten(mgr: Manager, name: string, id: VecId, vector: Vector)
    requires name in mgr && |vector| == mgr[name].dim
    ensures var after := Live(Live(mgr, Delete(name, id)).0, Insert(name, id, vector, None)).0;
            name in after && after[name].rows.Get(id) == Some((vector, None))
  {
  }

  /** Replaying an operation leaves the state its live application left, whether or not that succeeded. */
  lemma ReplayIsLive(mgr: Manager, op: WalOp)
    requires Dimensioned(mgr)
    ensures Replay(mgr, op).0 == Live(mgr, op).0
    ensures Live(mgr, op).1.Ok? ==> Replay(mgr, op).1.Ok?
    ensures Dimensioned(Live(mgr, op).0)
  {
    var after := Live(mgr, op).0;
    forall name | name in after ensures Uniform(after[name].rows.vectors, after[name].dim) {
      if name in mgr { assert Uniform(mgr[name].rows.vectors, mgr[name].dim); }
    }
    if op.Insert? && op.name in mgr {
      InsertAgain(mgr[op.name].rows, op.id, op.vector, op.payload);
    } else if op.DropCollection? && op.name !in mgr {
      assert mgr - {op.name} == mgr;
    }
  }

  /** Writing what is already there changes nothing. */
  lemma InsertAgain(rows: Rows, id: VecId, vector: Vector, payload: Option<Value>)
    ensures rows.Get(id) == Some((vector, payload)) ==> rows.Put(id, vector, payload) == rows
  {
  }

  lemma {:induction false} ReplayAllIsLiveAll(mgr: Manager, ops: seq<WalOp>)
    requires Dimensioned(mgr)
    ensures ReplayAll(mgr, ops) == LiveAll(mgr, ops) && Dimensioned(LiveAll(mgr, ops))
  {
    if ops != [] {
      ReplayAllIsLiveAll(mgr, ops[..|ops| - 1]);
      ReplayIsLive(LiveAll(mgr, ops[..|ops| - 1]), ops[|ops| - 1]);
    }
  }

  lemma LivePush(mgr: Manager, ops: seq<WalOp>, op: WalOp)
    ensures LiveAll(mgr, ops + [op]) == Live(LiveAll(mgr, ops), op).0
  {
    assert (ops + [op])[..|ops|] == ops;
  }

  lemma {:induction false} ReplayAllConcat(mgr: Manager, a: seq<WalOp>, b: seq<WalOp>)
    ensures ReplayAll(mgr, a + b) == ReplayAll(ReplayAll(mgr, a), b)
  {
    if b == [] {
      assert a + b == a;
    } else {
      ReplayAllConcat(mgr, a, b[..|b| - 1]);
      assert (a + b)[..|a + b| - 1] == a + b[..|b| - 1];
    }
  }
}
