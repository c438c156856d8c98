/**
 * Why overlapping replays and retried source deltas are harmless: a run of operations writes fixed
 * values into fixed cells, so running it again, or after one of its prefixes, changes nothing.
 */
module Convergence {
  import opened Core
  import opened Contents
  import opened Semantics

  // --- Patches --------------------------------------------------------------------------------------------

  /** `m` with the patched cells overwritten or erased. */
  ghost function Overlay<T>(m: map<VecId, T>, patch: map<VecId, Option<T>>): map<VecId, T> {
    map id | id in m.Keys + patch.Keys && (id in patch ==> patch[id].Some?) ::
      if id in patch then patch[id].value else m[id]
  }

  /** Cells a run writes, with the last value written to each; `None` erases. */
  datatype Patch = Patch(vectors: map<VecId, Option<Vector>>, payloads: map<VecId, Option<Value>>) {

    ghost function On(rows: Rows): Rows {
      Rows(Overlay(rows.vectors, vectors), Overlay(rows.payloads, payloads))
    }

    ghost function Then(row: DeltaRow): Patch {
      match row
      case Upsert(id, vector, payload) =>
        Patch(vectors[id := Some(vector)], if payload.Some? then payloads[id := payload] else payloads)
      case Remove(id) => Patch(vectors[id := None], payloads[id := None])
    }
  }

  const NO_PATCH := Patch(map[], map[])

  ghost function PatchOf(rows: seq<DeltaRow>): Patch {
    if rows == [] then NO_PATCH else PatchOf(rows[..|rows| - 1]).Then(rows[|rows| - 1])
  }

  lemma OverlaySet<T>(m: map<VecId, T>, patch: map<VecId, Option<T>>, id: VecId, x: T)
    ensures Overlay(m, patch[id := Some(x)]) == Overlay(m, patch)[id := x]
  {
  }

  lemma OverlayErase<T>(m: map<VecId, T>, patch: map<VecId, Option<T>>, id: VecId)
    ensures Overlay(m, patch[id := None]) == Overlay(m, patch) - {id}
  {
  }

  lemma PatchThen(patch: Patch, rows: Rows, row: DeltaRow)
    ensures patch.Then(row).On(rows) == patch.On(rows).Apply(row)
  {
    hide Overlay;
    match row
    case Upsert(id, vector, payload) =>
      OverlaySet(rows.vectors, patch.vectors, id, vector);
      if payload.Some? { OverlaySet(rows.payloads, patch.payloads, id, payload.value); }
    case Remove(id) =>
      OverlayErase(rows.vectors, patch.vectors, id);
      OverlayErase(rows.payloads, patch.payloads, id);
  }

  /** Applying rows one by one is applying their patch. */
  lemma {:induction false} PatchOfIsApplyAll(rows: Rows, delta: seq<DeltaRow>)
    ensures rows.ApplyAll(delta) == PatchOf(delta).On(rows)
  {
    if delta == [] {
      assert Overlay(rows.vectors, map[]) == rows.vectors && Overlay(rows.payloads, map[]) == rows.payloads;
    } else {
      PatchOfIsApplyAll(rows, delta[..|delta| - 1]);
      PatchThen(PatchOf(delta[..|delta| - 1]), rows, delta[|delta| - 1]);
    }
  }

  ghost predicate Covers(whole: Patch, part: Patch) {
    part.vectors.Keys <= whole.vectors.Keys && part.payloads.Keys <= whole.payloads.Keys
  }

  /** What the longer patch overwrites anyway leaves no trace. */
  lemma Absorbs(whole: Patch, part: Patch, rows: Rows)
    requires Covers(whole, part)
    ensures whole.On(part.On(rows)) == whole.On(rows)
  {
  }

  /** A run overwrites every cell that any consecutive part of it writes. */
  lemma {:induction false} PartsCovered(a: seq<DeltaRow>, b: seq<DeltaRow>)
    ensures Covers(PatchOf(a + b), PatchOf(a)) && Covers(PatchOf(a + b), PatchOf(b))
  {
    if b == [] {
      assert a + b == a;
    } else {
      PartsCovered(a, b[..|b| - 1]);
      assert (a + b)[..|a + b| - 1] == a + b[..|b| - 1];
    }
  }

  /** Running a part first and then the whole is running the whole. */
  lemma PartThenWhole(rows: Rows, a: seq<DeltaRow>, part: seq<DeltaRow>, b: seq<DeltaRow>)
    ensures rows.ApplyAll(part).ApplyAll(a + part + b) == rows.ApplyAll(a + part + b)
  {
    hide Patch.On, PatchOf;
    var whole := a + part + b;
    PatchOfIsApplyAll(rows, part);
    PatchOfIsApplyAll(rows, whole);
    PatchOfIsApplyAll(rows.ApplyAll(part), whole);
    PartsCovered(a + part, b);
    PartsCovered(a, part);
    Absorbs(PatchOf(whole), PatchOf(part), rows);
  }

  /** A full application after a partial one is a full application. */
  lemma RetryAfterPrefix(rows: Rows, delta: seq<DeltaRow>, n: nat)
    requires n <= |delta|
    ensures rows.ApplyAll(delta[..n]).ApplyAll(delta) == rows.ApplyAll(delta)
  {
    PartThenWhole(rows, [], delta[..n], delta[n..]);
    assert [] + delta[..n] + delta[n..] == delta;
  }

  /** The state after several attempts, each of which got through a prefix of the rows. */
  ghost function Attempts(rows: Rows, delta: seq<DeltaRow>, reached: seq<nat>): Rows
    requires forall i | 0 <= i < |reached| :: reached[i] <= |delta|
  {
    if reached == [] then rows
    else Attempts(rows, delta, reached[..|reached| - 1]).ApplyAll(delta[..reached[|reached| - 1]])
  }

  /** Any number of partial attempts and then a full one give the rows of a single full one. */
  lemma {:induction false} RetriesAreSafe(rows: Rows, delta: seq<DeltaRow>, reached: seq<nat>)
    requires forall i | 0 <= i < |reached| :: reached[i] <= |delta|
    ensures Attempts(rows, delta, reached).ApplyAll(delta) == rows.ApplyAll(delta)
  {
    if reached != [] {
      var front := reached[..|reached| - 1];
      RetriesAreSafe(rows, delta, front);
      RetryAfterPrefix(Attempts(rows, delta, front), delta, reached[|reached| - 1]);
    }
  }

  // --- Replaying the log over a state it already reached ---------------------------------------------------

  ghost function ColOf(mgr: Manager, name: string): Option<Col> {
    if name in mgr then Some(mgr[name]) else None
  }

  /** The replayed effect of `op` on collection `name` alone. */
  ghost function StepOne(o: Option<Col>, name: string, op: WalOp): Option<Col> {
    if op.name != name then o
    else
      match op
      case CreateCollection(_, dim, metric, kind) =>
        if o.None? && KindAccepted(kind, dim) then Some(FreshCol(dim, metric, kind)) else o
      case DropCollection(_) => None
      case Insert(_, id, vector, payload) =>
        if o.Some? then Some(ApplyRow(o.value, Upsert(id, vector, payload)).0) else o
      case Delete(_, id) => if o.Some? then Some(ApplyRow(o.value, Remove(id)).0) else o
      case EnableFts(_) => o
      case SetBinding(_, binding) => if o.Some? then Some(o.value.(binding := Some(binding))) else o
  }

  ghost function RunOne(o: Option<Col>, name: string, ops: seq<WalOp>): Option<Col> {
    if ops == [] then o else StepOne(RunOne(o, name, ops[..|ops| - 1]), name, ops[|ops| - 1])
  }

  /** Replaying touches each collection through its own operations only. */
  lemma StepIsLocal(mgr: Manager, name: string, op: WalOp)
    ensures ColOf(Replay(mgr, op).0, name) == StepOne(ColOf(mgr, name), name, op)
  {
    if op.Insert? && op.name in mgr {
      InsertAgain(mgr[op.name].rows, op.id, op.vector, op.payload);
    }
  }

  lemma {:induction false} RunIsLocal(mgr: Manager, name: string, ops: seq<WalOp>)
    ensures ColOf(ReplayAll(mgr, ops), name) == RunOne(ColOf(mgr, name), name, ops)
  {
    if ops != [] {
      RunIsLocal(mgr, name, ops[..|ops| - 1]);
      StepIsLocal(ReplayAll(mgr, ops[..|ops| - 1]), name, ops[|ops| - 1]);
    }
  }

  lemma SameByLookup(a: Manager, b: Manager)
    requires forall name :: ColOf(a, name) == ColOf(b, name)
    ensures a == b
  {
    forall name ensures name in a <==> name in b {
      assert ColOf(a, name) == ColOf(b, name);
    }
    forall name | name in a ensures a[name] == b[name] {
      assert ColOf(a, name) == ColOf(b, name);
    }
  }

  /** Every operation succeeded when it was first applied, live, from `mgr`. */
  ghost predicate AllSucceed(mgr: Manager, ops: seq<WalOp>) {
    ops == [] || (AllSucceed(mgr, ops[..|ops| - 1]) && Live(LiveAll(mgr, ops[..|ops| - 1]), ops[|ops| - 1]).1.Ok?)
  }

  /** Success as one collection sees it. */
  ghost predicate SucceedsOne(o: Option<Col>, name: string, op: WalOp) {
    op.name == name ==>
      if op.CreateCollection? then o.None? && KindAccepted(op.kind, op.dim)
      else o.Some? && (op.Insert? ==> |op.vector| == o.value.dim)
  }

  ghost predicate AllSucceedOne(o: Option<Col>, name: string, ops: seq<WalOp>) {
    || ops == []
    || (&& AllSucceedOne(o, name, ops[..|ops| - 1])
        && SucceedsOne(RunOne(o, name, ops[..|ops| - 1]), name, ops[|ops| - 1]))
  }

  lemma {:induction false} SuccessIsLocal(mgr: Manager, name: string, ops: seq<WalOp>)
    requires Dimensioned(mgr) && AllSucceed(mgr, ops)
    ensures AllSucceedOne(ColOf(mgr, name), name, ops)
  {
    if ops != [] {
      var front := ops[..|ops| - 1];
      SuccessIsLocal(mgr, name, front);
      ReplayAllIsLiveAll(mgr, front);
      RunIsLocal(mgr, name, front);
    }
  }

  // --- What a run does to one collection --------------------------------------------------------------------

  /** The row `op` writes to collection `name`, if it fits dimension `dim`. */
  ghost function WriteOf(name: string, op: WalOp, dim: nat): Option<DeltaRow> {
    if op.name == name && op.Insert? && |op.vector| == dim then Some(Upsert(op.id, op.vector, op.payload))
    else if op.name == name && op.Delete? then Some(Remove(op.id))
    else None
  }

  ghost function Writes(name: string, ops: seq<WalOp>, dim: nat): seq<DeltaRow> {
    if ops == [] then []
    else
      var row := WriteOf(name, ops[|ops| - 1], dim);
      Writes(name, ops[..|ops| - 1], dim) + if row.Some? then [row.value] else []
  }

  /** The last binding set for `name`. */
  ghost function Binds(name: string, ops: seq<WalOp>): Option<SourceBinding> {
    if ops == [] then None
    else if ops[|ops| - 1].name == name && ops[|ops| - 1].SetBinding? then Some(ops[|ops| - 1].binding)
    else Binds(name, ops[..|ops| - 1])
  }

  ghost function Written(c: Col, name: string, ops: seq<WalOp>): Col {
    c.(rows := c.rows.ApplyAll(Writes(name, ops, c.dim)),
       binding := if Binds(name, ops).Some? then Binds(name, ops) else c.binding)
  }

  ghost predicate NoDrop(name: string, ops: seq<WalOp>) {
    forall i | 0 <= i < |ops| :: ops[i] != DropCollection(name)
  }

  predicate Creates(name: string, op: WalOp) {
    op.CreateCollection? && op.name == name && KindAccepted(op.kind, op.dim)
  }

  /** Position of the first creation of `name` that the index accepts. */
  function FirstCreate(name: string, ops: seq<WalOp>): (r: Option<nat>)
    ensures r.None? ==> forall i | 0 <= i < |ops| :: !Creates(name, ops[i])
    ensures r.Some? ==>
              r.value < |ops| && Creates(name, ops[r.value]) && forall i | 0 <= i < r.value :: !Creates(name, ops[i])
  {
    if ops == [] then None
    else
      match FirstCreate(name, ops[..|ops| - 1])
      case Some(i) => Some(i)
      case None => if Creates(name, ops[|ops| - 1]) then Some(|ops| - 1) else None
  }

  lemma {:induction false} WritesConcat(name: string, a: seq<WalOp>, b: seq<WalOp>, dim: nat)
    ensures Writes(name, a + b, dim) == Writes(name, a, dim) + Writes(name, b, dim)
  {
    if b == [] {
      assert a + b == a;
    } else {
      WritesConcat(name, a, b[..|b| - 1], dim);
      assert (a + b)[..|a + b| - 1] == a + b[..|b| - 1];
    }
  }

  lemma {:induction false} BindsConcat(name: string, a: seq<WalOp>, b: seq<WalOp>)
    ensures Binds(name, a + b) == if Binds(name, b).Some? then Binds(name, b) else Binds(name, a)
  {
    if b == [] {
      assert a + b == a;
    } else {
      BindsConcat(name, a, b[..|b| - 1]);
      assert (a + b)[..|a + b| - 1] == a + b[..|b| - 1];
    }
  }

  lemma WrittenStep(c: Col, name: string, ops: seq<WalOp>)
    requires ops != [] && ops[|ops| - 1] != DropCollection(name)
    ensures StepOne(Some(Written(c, name, ops[..|ops| - 1])), name, ops[|ops| - 1]) == Some(Written(c, name, ops))
  {
    hide Rows.ApplyAll;
    var front, op := ops[..|ops| - 1], ops[|ops| - 1];
    var row := WriteOf(name, op, c.dim);
    if row.Some? {
      ApplyPush(c.rows, Writes(name, front, c.dim), row.value);
    } else {
      assert Writes(name, front, c.dim) + [] == Writes(name, front, c.dim);
    }
  }

  /** Without drops, a run on an existing collection only writes; creations are ignored and misfits fail. */
  lemma {:induction false} RunWrites(c: Col, name: string, ops: seq<WalOp>)
    requires NoDrop(name, ops)
    ensures RunOne(Some(c), name, ops) == Some(Written(c, name, ops))
  {
    hide Written, StepOne;
    if ops == [] {
      NothingWritten(c, name);
    } else {
      RunWrites(c, name, ops[..|ops| - 1]);
      WrittenStep(c, name, ops);
    }
  }

  lemma NothingWritten(c: Col, name: string)
    ensures Written(c, name, []) == c
  {
  }

  /** Before it is created, nothing happens to an absent collection. */
  lemma {:induction false} RunAbsent(name: string, ops: seq<WalOp>)
    requires forall i | 0 <= i < |ops| :: !Creates(name, ops[i])
    ensures RunOne(None, name, ops) == None
  {
    if ops != [] {
      RunAbsent(name, ops[..|ops| - 1]);
      assert !Creates(name, ops[|ops| - 1]);
    }
  }

  ghost function Created(op: WalOp): Col
    requires op.CreateCollection?
  {
    FreshCol(op.dim, op.metric, op.kind)
  }

  /** An absent collection ends up with what was written after its creation. */
  lemma RunCreated(name: string, ops: seq<WalOp>, c: nat)
    requires FirstCreate(name, ops) == Some(c) && NoDrop(name, ops)
    ensures RunOne(None, name, ops) == Some(Written(Created(ops[c]), name, ops[c + 1..]))
  {
    hide Written, RunOne;
    assert ops == ops[..c] + ([ops[c]] + ops[c + 1..]);
    RunOneConcat(None, name, ops[..c], [ops[c]] + ops[c + 1..]);
    RunAbsent(name, ops[..c]);
    RunOneConcat(None, name, [ops[c]], ops[c + 1..]);
    OneStep(None, name, ops[c]);
    RunWrites(Created(ops[c]), name, ops[c + 1..]);
  }

  lemma OneStep(o: Option<Col>, name: string, op: WalOp)
    ensures RunOne(o, name, [op]) == StepOne(o, name, op)
  {
    assert [op][..0] == [];
  }

  /** A run with a drop ends the same wherever it starts. */
  lemma {:induction false} DropForgets(a: Option<Col>, b: Option<Col>, name: string, ops: seq<WalOp>)
    requires !NoDrop(name, ops)
    ensures RunOne(a, name, ops) == RunOne(b, name, ops)
  {
    var front, op := ops[..|ops| - 1], ops[|ops| - 1];
    if op != DropCollection(name) {
      var i :| 0 <= i < |ops| && ops[i] == DropCollection(name);
      assert front[i] == DropCollection(name);
      DropForgets(a, b, name, front);
    }
  }

  lemma {:induction false} RunOneConcat(o: Option<Col>, name: string, a: seq<WalOp>, b: seq<WalOp>)
    ensures RunOne(o, name, a + b) == RunOne(RunOne(o, name, a), name, b)
  {
    if b == [] {
      assert a + b == a;
    } else {
      RunOneConcat(o, name, a, b[..|b| - 1]);
      assert (a + b)[..|a + b| - 1] == a + b[..|b| - 1];
    }
  }

  // --- When overlapping replays converge ---------------------------------------------------------------------

  /** Replaying all of `ops` over the state after the first `n` ends where the sequence ended. */
  ghost predicate Again(o: Option<Col>, name: string, ops: seq<WalOp>, n: nat)
    requires n <= |ops|
  {
    RunOne(RunOne(o, name, ops[..n]), name, ops) == RunOne(o, name, ops)
  }

  /**
   * What came before the creation of `name` makes no difference after it: its fitting writes and bindings
   * over an empty collection end as those after the creation alone do. Sequences that drop or never create
   * the collection satisfy this.
   */
  ghost predicate Settles(name: string, ops: seq<WalOp>) {
    var c := FirstCreate(name, ops);
    c.Some? && NoDrop(name, ops) ==>
      var dim, later := ops[c.value].dim, ops[c.value + 1..];
      && NO_ROWS.ApplyAll(Writes(name, ops, dim)) == NO_ROWS.ApplyAll(Writes(name, later, dim))
      && Binds(name, ops) == Binds(name, later)
  }

  /** Writing a part first and then the whole is writing the whole. */
  lemma WrittenPart(c: Col, name: string, a: seq<WalOp>, part: seq<WalOp>, b: seq<WalOp>)
    ensures Written(Written(c, name, part), name, a + part + b) == Written(c, name, a + part + b)
  {
    hide Rows.ApplyAll, Writes, Binds;
    WritesConcat(name, a + part, b, c.dim);
    WritesConcat(name, a, part, c.dim);
    PartThenWhole(c.rows, Writes(name, a, c.dim), Writes(name, part, c.dim), Writes(name, b, c.dim));
    BindsConcat(name, a + part, b);
    BindsConcat(name, a, part);
  }

  lemma PresentConverges(col: Col, name: string, ops: seq<WalOp>, n: nat)
    requires NoDrop(name, ops) && n <= |ops|
    ensures Again(Some(col), name, ops, n)
  {
    hide Written;
    assert NoDrop(name, ops[..n]);
    RunWrites(col, name, ops[..n]);
    RunWrites(Written(col, name, ops[..n]), name, ops);
    RunWrites(col, name, ops);
    WrittenPart(col, name, [], ops[..n], ops[n..]);
    assert [] + ops[..n] + ops[n..] == ops;
  }

  /** After a prefix that has the creation, the whole run writes everything over what the prefix wrote. */
  lemma AgainAfterCreation(name: string, ops: seq<WalOp>, c: nat, n: nat)
    requires FirstCreate(name, ops) == Some(c) && NoDrop(name, ops) && c < n <= |ops|
    ensures Again(None, name, ops, n)
       <==> Written(Created(ops[c]), name, ops) == Written(Created(ops[c]), name, ops[c + 1..])
  {
    hide Written, RunOne;
    var fresh0, part := Created(ops[c]), ops[c + 1..n];
    PrefixCreates(name, ops, c, n);
    RunCreated(name, ops[..n], c);
    assert ops[..n][c + 1..] == part;
    RunWrites(Written(fresh0, name, part), name, ops);
    WrittenPart(fresh0, name, ops[..c + 1], part, ops[n..]);
    assert ops[..c + 1] + part + ops[n..] == ops;
    RunCreated(name, ops, c);
  }

  lemma PrefixCreates(name: string, ops: seq<WalOp>, c: nat, n: nat)
    requires FirstCreate(name, ops) == Some(c) && NoDrop(name, ops) && c < n <= |ops|
    ensures FirstCreate(name, ops[..n]) == Some(c) && NoDrop(name, ops[..n])
  {
    assert Creates(name, ops[..n][c]);
    assert forall i | 0 <= i < c :: ops[..n][i] == ops[i];
  }

  /** Starting fresh, writing all and writing the later part end alike exactly when the sequence settles. */
  lemma WrittenFreshIff(name: string, ops: seq<WalOp>, c: nat)
    requires FirstCreate(name, ops) == Some(c) && NoDrop(name, ops)
    ensures Written(Created(ops[c]), name, ops) == Written(Created(ops[c]), name, ops[c + 1..]) <==> Settles(name, ops)
  {
    hide Rows.ApplyAll, Writes, Binds;
  }

  /** One collection: overlapping replays converge exactly when it was there before or the sequence settles. */
  lemma ConvergesOneIff(o: Option<Col>, name: string, ops: seq<WalOp>)
    ensures (forall n | 0 <= n <= |ops| :: Again(o, name, ops, n)) <==> o.Some? || Settles(name, ops)
  {
    hide RunOne, Written;
    var c := FirstCreate(name, ops);
    if !NoDrop(name, ops) {
      forall n | 0 <= n <= |ops| ensures Again(o, name, ops, n) {
        DropForgets(RunOne(o, name, ops[..n]), o, name, ops);
      }
    } else if o.Some? {
      forall n | 0 <= n <= |ops| ensures Again(o, name, ops, n) {
        PresentConverges(o.value, name, ops, n);
      }
    } else {
      forall n | 0 <= n <= |ops| && (c.None? || n <= c.value) ensures Again(o, name, ops, n) {
        RunAbsent(name, ops[..n]);
      }
      if c.Some? {
        WrittenFreshIff(name, ops, c.value);
        forall n | c.value < n <= |ops| ensures Again(o, name, ops, n) <==> Settles(name, ops) {
          AgainAfterCreation(name, ops, c.value, n);
        }
        assert Again(o, name, ops, |ops|) <==> Settles(name, ops);
      }
    }
  }

  lemma AgainIsLocal(mgr: Manager, ops: seq<WalOp>, n: nat)
    requires Dimensioned(mgr) && n <= |ops|
    ensures ReplayAll(LiveAll(mgr, ops[..n]), ops) == LiveAll(mgr, ops)
       <==> forall name :: Again(ColOf(mgr, name), name, ops, n)
  {
    hide RunOne;
    ReplayAllIsLiveAll(mgr, ops[..n]);
    ReplayAllIsLiveAll(mgr, ops);
    var twice, once := ReplayAll(ReplayAll(mgr, ops[..n]), ops), ReplayAll(mgr, ops);
    forall name ensures Again(ColOf(mgr, name), name, ops, n) <==> ColOf(twice, name) == ColOf(once, name) {
      RunIsLocal(mgr, name, ops[..n]);
      RunIsLocal(ReplayAll(mgr, ops[..n]), name, ops);
      RunIsLocal(mgr, name, ops);
    }
    if forall name :: Again(ColOf(mgr, name), name, ops, n) {
      SameByLookup(twice, once);
    }
  }

  /**
   * Replaying a whole sequence over the state after any of its prefixes, as happens when a checkpoint
   * already captured part of it, ends in the state after the sequence exactly when, for every collection
   * not there before, what the sequence does before creating it makes no difference after.
   */
  lemma ConvergesIff(mgr: Manager, ops: seq<WalOp>)
    requires Dimensioned(mgr)
    ensures (forall n | 0 <= n <= |ops| :: ReplayAll(LiveAll(mgr, ops[..n]), ops) == LiveAll(mgr, ops))
       <==> forall name :: name in mgr || Settles(name, ops)
  {
    hide Again, Settles, RunOne, ReplayAll, LiveAll;
    if forall n | 0 <= n <= |ops| :: ReplayAll(LiveAll(mgr, ops[..n]), ops) == LiveAll(mgr, ops) {
      forall name ensures name in mgr || Settles(name, ops) {
        forall n | 0 <= n <= |ops| ensures Again(ColOf(mgr, name), name, ops, n) { AgainIsLocal(mgr, ops, n); }
        ConvergesOneIff(ColOf(mgr, name), name, ops);
      }
    }
    if forall name :: name in mgr || Settles(name, ops) {
      forall n | 0 <= n <= |ops| ensures ReplayAll(LiveAll(mgr, ops[..n]), ops) == LiveAll(mgr, ops) {
        forall name ensures Again(ColOf(mgr, name), name, ops, n) { ConvergesOneIff(ColOf(mgr, name), name, ops); }
        AgainIsLocal(mgr, ops, n);
      }
    }
  }

  // --- Success is enough -----------------------------------------------------------------------------------------

  /** Operations on an absent collection fail until it is created. */
  lemma {:induction false} NothingBeforeCreation(name: string, ops: seq<WalOp>, n: nat)
    requires AllSucceedOne(None, name, ops) && n <= |ops| && forall i | 0 <= i < n :: !Creates(name, ops[i])
    ensures forall i | 0 <= i < n :: ops[i].name != name
    decreases n
  {
    if n > 0 {
      NothingBeforeCreation(name, ops, n - 1);
      SuccessAt(None, name, ops, n - 1);
      RunAbsent(name, ops[..n - 1]);
    }
  }

  lemma {:induction false} SuccessAt(o: Option<Col>, name: string, ops: seq<WalOp>, i: nat)
    requires AllSucceedOne(o, name, ops) && i < |ops|
    ensures SucceedsOne(RunOne(o, name, ops[..i]), name, ops[i])
  {
    if i < |ops| - 1 {
      SuccessAt(o, name, ops[..|ops| - 1], i);
      assert ops[..|ops| - 1][..i] == ops[..i];
    }
  }

  lemma {:induction false} Untouched(name: string, ops: seq<WalOp>, dim: nat)
    requires forall i | 0 <= i < |ops| :: ops[i].name != name
    ensures Writes(name, ops, dim) == [] && Binds(name, ops).None?
  {
    if ops != [] { Untouched(name, ops[..|ops| - 1], dim); }
  }

  lemma SuccessSettles(name: string, ops: seq<WalOp>)
    requires AllSucceedOne(None, name, ops)
    ensures Settles(name, ops)
  {
    hide AllSucceedOne, Rows.ApplyAll;
    var c := FirstCreate(name, ops);
    if c.Some? {
      NothingBeforeCreation(name, ops, c.value);
      var early, dim := ops[..c.value], ops[c.value].dim;
      Untouched(name, early, dim);
      var create, later := [ops[c.value]], ops[c.value + 1..];
      assert create[..0] == [] && Writes(name, create, dim) == [] && Binds(name, create).None?;
      assert ops == early + (create + later);
      WritesConcat(name, early, create + later, dim);
      WritesConcat(name, create, later, dim);
      assert [] + ([] + Writes(name, later, dim)) == Writes(name, later, dim);
      BindsConcat(name, early, create + later);
      BindsConcat(name, create, later);
    }
  }

  /** If every operation succeeded when it was first applied, overlapping replays converge. */
  lemma ReplayConverges(mgr: Manager, ops: seq<WalOp>, n: nat)
    requires Dimensioned(mgr) && AllSucceed(mgr, ops) && n <= |ops|
    ensures ReplayAll(LiveAll(mgr, ops[..n]), ops) == LiveAll(mgr, ops)
  {
    hide Settles, AllSucceed;
    forall name ensures name in mgr || Settles(name, ops) {
      SuccessIsLocal(mgr, name, ops);
      if name !in mgr { SuccessSettles(name, ops); }
    }
    ConvergesIff(mgr, ops);
  }

  /** Success matters: an insert that failed before its collection existed takes effect on a second replay. */
  lemma FailedOpsDoNotConverge()
    ensures var ops := [Insert("c", 1, [0.0], None), CreateCollection("c", 1, L2, Flat)];
            && Live(map[], ops[0]).1 == Err(CollectionNotFound("c"))
            && ReplayAll(LiveAll(map[], ops), ops) != LiveAll(map[], ops)
  {
    var insert, create := Insert("c", 1, [0.0], None), CreateCollection("c", 1, L2, Flat);
    var ops := [insert, create];
    assert ops[..1] == [insert] && [insert][..0] == [];
    assert LiveAll(map[], [insert]) == map[];
    var c := FreshCol(1, L2, Flat);
    assert LiveAll(map[], ops) == map["c" := c];
    assert ReplayAll(map["c" := c], [insert]) == Replay(map["c" := c], insert).0;
    var once := ReplayAll(map["c" := c], [insert]);
    assert 1 in once["c"].rows.vectors;
    assert ReplayAll(map["c" := c], ops) == once;
  }
}
