/** The collection manager: collections by name, as clients change them and as recovery replays them. */
module Managers {
  import opened Core
  import opened Contents
  import opened Semantics
  import opened Collections

  class CollectionManager {
    var collections: Manager

    constructor (collections: Manager)
      ensures this.collections == collections
    {
      this.collections := collections;
    }

    /** `create_collection` and its variants for the other index types. */
    method Create(name: string, dim: nat, metric: Metric, kind: IndexKind) returns (r: Result<()>)
      modifies this
      ensures (collections, r) == Live(old(collections), CreateCollection(name, dim, metric, kind))
    {
      if name in collections {
        return Err(CollectionAlreadyExists(name));
      }
      if !KindAccepted(kind, dim) {
        return Err(InvalidArgument);
      }
      collections := collections[name := FreshCol(dim, metric, kind)];
      return Ok(());
    }

    method Drop(name: string) returns (r: Result<()>)
      modifies this
      ensures (collections, r) == Live(old(collections), DropCollection(name))
    {
      if name !in collections {
        return Err(CollectionNotFound(name));
      }
      collections := collections - {name};
      return Ok(());
    }

    /** `get_mut(name)?.apply_delta_row(row)`, which insert and delete come down to. */
    method ApplyRowTo(name: string, row: DeltaRow) returns (r: Result<()>)
      modifies this
      ensures if name !in old(collections) then r == Err(CollectionNotFound(name)) && collections == old(collections)
              else var (c, outcome) := ApplyRow(old(collections)[name], row);
                   r == outcome && collections == old(collections)[name := c]
    {
      if name !in collections {
        return Err(CollectionNotFound(name));
      }
      var (c, outcome) := ApplyRow(collections[name], row);
      collections := collections[name := c];
      return outcome;
    }

    method SetSourceBinding(name: string, binding: SourceBinding) returns (r: Result<()>)
      modifies this
      ensures (collections, r) == Live(old(collections), SetBinding(name, binding))
    {
      if name !in collections {
        return Err(CollectionNotFound(name));
      }
      collections := collections[name := collections[name].(binding := Some(binding))];
      return Ok(());
    }

    /**
     * The change a client's operation makes after it was logged: its own collection reads as asked, the
     * others stay the same, and a failure changes nothing.
     */
    method Perform(op: WalOp) returns (r: Result<()>)
      modifies this
      ensures (collections, r) == Live(old(collections), op)
      ensures (r.Ok? <==> CanRun(old(collections), op)) && OthersSame(old(collections), collections, op.name)
      ensures if r.Ok? then Took(op, old(collections), collections) else collections == old(collections)
    {
      hide Took, OthersSame;
      LiveTakes(collections, op);
      match op
      case CreateCollection(name, dim, metric, kind) => r := Create(name, dim, metric, kind);
      case DropCollection(name) => r := Drop(name);
      case Insert(name, id, vector, payload) => r := ApplyRowTo(name, Upsert(id, vector, payload));
      case Delete(name, id) => r := ApplyRowTo(name, Remove(id));
      case EnableFts(name) => r := if name in collections then Ok(()) else Err(CollectionNotFound(name));
      case SetBinding(name, binding) => r := SetSourceBinding(name, binding);
    }

    /**
     * A row as it reads back. Collections are held here as they were given, so what a quantised one reads
     * back is any vector of its dimension.
     */
    method Get(name: string, id: VecId) returns (r: Option<(Vector, Option<Value>)>)
      requires name in collections
      ensures var c := collections[name];
              match c.rows.Get(id)
              case None => r == None
              case Some(row) =>
                if c.kind.IvfSq8? && |row.0| == c.dim then r.Some? && r.value.1 == row.1 && |r.value.0| == c.dim
                else r == Some(row)
    {
      var c := collections[name];
      r := c.rows.Get(id);
      if r.Some? && c.kind.IvfSq8? && |r.value.0| == c.dim {
        var decoded: Vector := *;
        r := Some((if |decoded| == c.dim then decoded else r.value.0, r.value.1));
      }
    }

    /** An index that reads a row back identical and is left alone holds the row as if it had been given so. */
    method MarkGiven(name: string, id: VecId, vector: Vector, payload: Option<Value>)
      requires name in collections
      modifies this
      ensures var c := old(collections)[name];
              collections == old(collections)[name := c.(rows := c.rows.Put(id, vector, payload))]
    {
      var c := collections[name];
      collections := collections[name := c.(rows := c.rows.Put(id, vector, payload))];
    }

    /**
     * `apply_op`: what is already there, or already gone, is no error, and a row that reads back identical
     * is skipped.
     */
    method ApplyOp(op: WalOp) returns (r: Result<()>)
      modifies this
      ensures (collections, r) == Replay(old(collections), op)
    {
      match op {
        case CreateCollection(name, dim, metric, kind) =>
          r := Create(name, dim, metric, kind);
          if r.Err? && r.error == CollectionAlreadyExists(name) {
            r := Ok(());
          }
        case DropCollection(name) =>
          r := Drop(name);
          if r.Err? && r.error == CollectionNotFound(name) {
            assert collections - {name} == collections;
            r := Ok(());
          }
        case Insert(name, id, vector, payload) =>
          if name !in collections {
            return Err(CollectionNotFound(name));
          }
          InsertAgain(collections[name].rows, id, vector, payload);
          assert collections[name := collections[name]] == collections;
          var current := Get(name, id);
          if current == Some((vector, payload)) {
            MarkGiven(name, id, vector, payload);
            return Ok(());
          }
          r := ApplyRowTo(name, Upsert(id, vector, payload));
        case Delete(name, id) =>
          r := ApplyRowTo(name, Remove(id));
        case EnableFts(_) =>
          r := Ok(());
        case SetBinding(name, binding) =>
          r := SetSourceBinding(name, binding);
          if r.Err? && r.error == CollectionNotFound(name) {
            r := Ok(());
          }
      }
    }

    /** `insert_batch_with_lsns` on rows already checked against the collection's dimension. */
    method InsertBatch(name: string, rows: seq<FullRow>)
      requires name in collections && AllFit(IndexRows(rows), collections[name].dim)
      modifies this
      ensures collections == LiveAll(old(collections), InsertOps(name, rows))
    {
      var c := collections[name];
      BatchIsRowByRow(c.rows.vectors, c.rows.payloads, rows);
      BatchIsOps(collections, name, rows);
      var inserted := Rows(InsertAll(c.rows.vectors, IndexRows(rows)), PutPayloads(c.rows.payloads, rows));
      collections := collections[name := c.(rows := inserted)];
    }
  }

  /** The log's operations for a batch, one per row. */
  function InsertOps(name: string, rows: seq<FullRow>): (ops: seq<WalOp>)
    ensures |ops| == |rows|
    ensures forall i | 0 <= i < |rows| :: ops[i] == Insert(name, rows[i].0, rows[i].1, rows[i].2)
  {
    if rows == [] then []
    else
      var last := rows[|rows| - 1];
      InsertOps(name, rows[..|rows| - 1]) + [Insert(name, last.0, last.1, last.2)]
  }

  lemma InsertOne(mgr: Manager, name: string, rows: Rows, op: WalOp)
    requires name in mgr && op.Insert? && op.name == name && |op.vector| == mgr[name].dim
    ensures Live(mgr[name := mgr[name].(rows := rows)], op).0
         == mgr[name := mgr[name].(rows := rows.Apply(Upsert(op.id, op.vector, op.payload)))]
  {
  }

  /** Applying a checked batch is applying its operations one by one. */
  lemma {:induction false} BatchIsOps(mgr: Manager, name: string, rows: seq<FullRow>)
    requires name in mgr && AllFit(IndexRows(rows), mgr[name].dim)
    ensures LiveAll(mgr, InsertOps(name, rows))
         == mgr[name := mgr[name].(rows := mgr[name].rows.ApplyAll(Upserts(rows)))]
  {
    hide Rows.ApplyAll, Live;
    if rows == [] {
      ApplyNone(mgr[name].rows);
    } else {
      var n := |rows| - 1;
      var op := Insert(name, rows[n].0, rows[n].1, rows[n].2);
      BatchIsOps(mgr, name, rows[..n]);
      assert InsertOps(name, rows) == InsertOps(name, rows[..n]) + [op];
      LivePush(mgr, InsertOps(name, rows[..n]), op);
      ApplyPush(mgr[name].rows, Upserts(rows[..n]), Upsert(op.id, op.vector, op.payload));
      assert |op.vector| == mgr[name].dim by { assert IndexRows(rows)[n] == (rows[n].0, rows[n].1); }
      InsertOne(mgr, name, mgr[name].rows.ApplyAll(Upserts(rows[..n])), op);
    }
  }
}
