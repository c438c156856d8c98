/**
 * An IVF index that probes every list against the brute-force index, after any history: the same scores
 * when unquantised, and when quantised exactly as long as every live vector lies on the quantiser's grid.
 */
module ExactSearch {
  import opened Core
  import opened TopK
  import opened Contents
  import opened Slab
  import opened Postings
  import opened Sq8
  import opened Flat
  import opened Ivf
  import opened Vectors
  import KMeans

  datatype Op = Insert(id: VecId, vec: Vector) | Delete(id: VecId)

  /** The map after an operation; an insert of the wrong dimension is refused and changes nothing. */
  function Apply(m: Store, op: Op, dim: nat): Store {
    match op
    case Insert(id, vec) => if |vec| == dim then m[id := vec] else m
    case Delete(id) => m - {id}
  }

  function After(ops: seq<Op>, dim: nat): Store {
    if ops == [] then map[] else Apply(After(ops[..|ops| - 1], dim), ops[|ops| - 1], dim)
  }

  method RunFlat(ops: seq<Op>, dim: nat, dist: Distance) returns (index: FlatIndex)
    ensures fresh(index) && index.Valid() && index.dim == dim && index.dist == dist
    ensures index.Contents() == After(ops, dim)
  {
    index := new FlatIndex(dim, dist);
    for i := 0 to |ops|
      invariant fresh(index) && index.Valid() && index.dim == dim && index.dist == dist
      invariant index.Contents() == After(ops[..i], dim)
    {
      assert ops[..i + 1][..i] == ops[..i];
      match ops[i]
      case Insert(id, vec) => var _ := index.Insert(id, vec);
      case Delete(id) => var _ := index.Delete(id);
    }
    assert ops[..|ops|] == ops;
  }

  /** After any history the index stands for the map, read back through its quantiser if it is trained and has one. */
  method RunIvf(ops: seq<Op>, config: Config, splits: nat -> Split) returns (index: IvfIndex)
    requires ValidParams(config.dim, config.nlist, config.nprobe)
    ensures fresh(index) && index.Valid() && index.config == config
    ensures HoldsRaw(index.state, config, After(ops, config.dim))
  {
    hide HoldsRaw, StateOk, Held;
    index := new IvfIndex(config);
    NothingHeld(index.state, config);
    for i := 0 to |ops|
      invariant fresh(index) && index.Valid() && index.config == config
      invariant HoldsRaw(index.state, config, After(ops[..i], config.dim))
    {
      assert ops[..i + 1][..i] == ops[..i];
      Step(index, ops[i], splits, After(ops[..i], config.dim));
    }
    assert ops[..|ops|] == ops;
  }

  method Step(index: IvfIndex, op: Op, splits: nat -> Split, ghost given: Store)
    requires index.Valid() && HoldsRaw(index.state, index.config, given)
    modifies index
    ensures index.Valid() && HoldsRaw(index.state, index.config, Apply(given, op, index.config.dim))
  {
    hide HoldsRaw, StateOk, Held, Inserted;
    ghost var before := index.state;
    match op
    case Insert(id, vec) =>
      var r := index.Insert(id, vec, splits);
      if r.Ok? { RawInsert(before, index.state, index.config, id, vec, given); }
    case Delete(id) =>
      var _ := index.Delete(id);
      RawDelete(before, index.state, index.config, id, given);
  }

  // --- When two maps answer alike ---------------------------------------------------------------------------

  ghost predicate SameScores(r: seq<Scored>, s: seq<Scored>) {
    |r| == |s| && forall i | 0 <= i < |r| :: r[i].d == s[i].d
  }

  /** No query of their length tells the vectors apart. */
  ghost predicate Indistinct(a: Vector, b: Vector, dist: Distance) {
    forall query: Vector | |query| == |a| :: dist(query, a) == dist(query, b)
  }

  /** Id by id the two maps' vectors cannot be told apart. */
  ghost predicate Alike(m: Store, m': Store, dist: Distance) {
    m.Keys == m'.Keys && forall id | id in m :: Indistinct(m[id], m'[id], dist)
  }

  /** Alike maps have the same exact answers. */
  lemma AlikeAnswers(m: Store, m': Store, query: Vector, dist: Distance, filter: Filter, k: nat, r: seq<Scored>,
                     s: seq<Scored>)
    requires Alike(m, m', dist) && Uniform(m, |query|)
    requires Answers(r, m, query, dist, filter, k) && Answers(s, m', query, dist, filter, k)
    ensures SameScores(r, s)
  {
    assert HitSet(m, query, dist, filter) == HitSet(m', query, dist, filter);
    AnswersAgree(r, s, m, query, dist, filter, k);
  }

  function OnlyId(id: VecId): Filter {
    Some(x => x == id)
  }

  /** Asked for one id, a map's answer is that id's score. */
  lemma AnswerForOne(m: Store, query: Vector, dist: Distance, id: VecId, r: seq<Scored>)
    requires id in m
    ensures Answers(r, m, query, dist, OnlyId(id), 1) <==> r == [Scored(dist(query, m[id]), id)]
  {
    var x := Scored(dist(query, m[id]), id);
    assert HitSet(m, query, dist, OnlyId(id)) == {x};
    assert MapHits(m, query, dist, OnlyId(id)) == multiset{x};
    if Answers(r, m, query, dist, OnlyId(id), 1) {
      assert |r| == |multiset(r)| == 1 && r[0] in multiset(r);
    } else {
      assert multiset([x]) == multiset{x};
    }
  }

  /** Every query the indexes accept, with any filter and `k`, is answered with the same scores over both maps. */
  ghost predicate AlwaysAgree(m: Store, m': Store, dim: nat, dist: Distance) {
    forall query: Vector, filter, k: nat, r, s |
        |query| == dim && Answers(r, m, query, dist, filter, k) && Answers(s, m', query, dist, filter, k) ::
      SameScores(r, s)
  }

  /** Two maps over the same ids agree on every accepted query exactly when they are alike. */
  lemma AnswersAgreeIff(m: Store, m': Store, dim: nat, dist: Distance)
    requires m.Keys == m'.Keys && Uniform(m, dim)
    ensures AlwaysAgree(m, m', dim, dist) <==> Alike(m, m', dist)
  {
    if Alike(m, m', dist) {
      forall query: Vector, filter, k: nat, r, s |
          |query| == dim && Answers(r, m, query, dist, filter, k) && Answers(s, m', query, dist, filter, k)
        ensures SameScores(r, s)
      {
        AlikeAnswers(m, m', query, dist, filter, k, r, s);
      }
    } else {
      var id :| id in m && !Indistinct(m[id], m'[id], dist);
      var query :| |query| == |m[id]| && dist(query, m[id]) != dist(query, m'[id]);
      var r, s := [Scored(dist(query, m[id]), id)], [Scored(dist(query, m'[id]), id)];
      AnswerForOne(m, query, dist, id, r);
      AnswerForOne(m', query, dist, id, s);
      assert r[0].d != s[0].d;
      assert !SameScores(r, s);
    }
  }

  // --- Metrics that tell all vectors apart -----------------------------------------------------------------------

  ghost predicate Separates(dist: Distance, dim: nat) {
    forall a: Vector, b: Vector | |a| == |b| == dim && Indistinct(a, b, dist) :: a == b
  }

  /** The negated dot product. */
  ghost predicate NegatedDot(dist: Distance) {
    forall a: Vector, b: Vector | |a| == |b| :: dist(a, b) == -Dot(a, b)
  }

  lemma EuclideanSeparates(dist: Distance, dim: nat)
    requires KMeans.Euclidean(dist)
    ensures Separates(dist, dim)
  {
    forall a: Vector, b: Vector | |a| == |b| == dim && Indistinct(a, b, dist) ensures a == b {
      assert dist(a, a) == dist(a, b);
      ZeroSqDist(a, a);
      ZeroSqDist(a, b);
    }
  }

  lemma DotSeparates(dist: Distance, dim: nat)
    requires NegatedDot(dist)
    ensures Separates(dist, dim)
  {
    forall a: Vector, b: Vector | |a| == |b| == dim && Indistinct(a, b, dist) ensures a == b {
      assert dist(a, a) == dist(a, b) && dist(b, a) == dist(b, b);
      DotSymmetric(a, b);
      SqDistExpands(a, b);
      ZeroSqDist(a, b);
    }
  }

  lemma AlikeIsSame(m: Store, m': Store, dim: nat, dist: Distance)
    requires Separates(dist, dim) && Uniform(m, dim) && Uniform(m', dim)
    ensures Alike(m, m', dist) <==> m == m'
  {
    if Alike(m, m', dist) {
      forall id | id in m ensures m[id] == m'[id] {
        assert Indistinct(m[id], m'[id], dist);
      }
    }
  }

  // --- The quantiser's grid ----------------------------------------------------------------------------------------

  /** Some code stands for exactly `x`. */
  ghost predicate IsStep(x: real, mn: real, scale: real) {
    exists c: Code :: x == DecodeComponent(c, mn, scale)
  }

  /** Every component is one of the 256 values its dimension can store. */
  ghost predicate OnGrid(q: Quantizer, v: Vector)
    requires WellFormed(q, |v|)
  {
    forall j | 0 <= j < |v| :: IsStep(v[j], q.mins[j], q.scales[j])
  }

  /** A vector is stored as given exactly when it lies on the grid. */
  lemma StoredIffOnGrid(q: Quantizer, v: Vector)
    requires WellFormed(q, |v|)
    ensures Stored(Some(q), v) == v <==> OnGrid(q, v)
  {
    if OnGrid(q, v) {
      forall j | 0 <= j < |v| ensures Stored(Some(q), v)[j] == v[j] {
        assert IsStep(v[j], q.mins[j], q.scales[j]);
        var c: Code :| v[j] == DecodeComponent(c, q.mins[j], q.scales[j]);
        ComponentRoundTrip(c, q.mins[j], q.scales[j]);
      }
    }
    if Stored(Some(q), v) == v {
      forall j | 0 <= j < |v| ensures IsStep(v[j], q.mins[j], q.scales[j]) {
        assert v[j] == DecodeComponent(Encode(q, v)[j], q.mins[j], q.scales[j]);
      }
    }
  }

  /** If the index is trained and quantised, every given vector lies on its quantiser's grid. */
  ghost predicate Lossless(s: State, c: Config, given: Store)
    requires StateOk(s, c) && Uniform(given, c.dim)
  {
    s.trained && c.quantize ==> forall id | id in given :: OnGrid(s.inverted.quantizer.value, given[id])
  }

  /** The index reads every vector back as given exactly when nothing is lost to the grid. */
  lemma ReadsBackIff(s: State, c: Config, given: Store)
    requires StateOk(s, c) && HoldsRaw(s, c, given)
    ensures Held(s, c) == given <==> Lossless(s, c, given)
  {
    hide Held, OnGrid;
    if !c.quantize {
      RawUnquantised(s, c, given);
    } else if s.trained {
      forall id | id in given
        ensures Held(s, c)[id] == given[id] <==> OnGrid(s.inverted.quantizer.value, given[id])
      {
        StoredIffOnGrid(s.inverted.quantizer.value, given[id]);
      }
    }
  }

  /**
   * Under a metric that separates vectors, brute force over the given vectors and the IVF index probing
   * every list agree on every accepted query, filter and `k` exactly when every given vector lies on the
   * grid of the quantiser, if the index has one.
   */
  lemma RecallIsExactIff(s: State, c: Config, given: Store)
    requires StateOk(s, c) && HoldsRaw(s, c, given) && Separates(c.dist, c.dim)
    ensures AlwaysAgree(given, Held(s, c), c.dim, c.dist) <==> Lossless(s, c, given)
  {
    hide Held, AlwaysAgree, Lossless, Separates;
    RawKeys(s, c, given);
    AnswersAgreeIff(given, Held(s, c), c.dim, c.dist);
    AlikeIsSame(given, Held(s, c), c.dim, c.dist);
    ReadsBackIff(s, c, given);
  }

  // --- Recall ------------------------------------------------------------------------------------------------

  /**
   * The two indexes, fed the same history, with every list probed: the flat index answers over the map as
   * given and the IVF, which ends in state `s`, over the map as it reads it. Under any metric the scores
   * are the same in the same order if nothing is lost to the quantiser's grid, as always when unquantised.
   */
  method ExactRecall(ops: seq<Op>, config: Config, query: Vector, k: nat, filter: Filter,
                     splits: nat -> Split, flatSplit: Split, ivfSplit: Split)
    returns (flat: seq<Scored>, ivf: seq<Scored>, ghost s: State)
    requires ValidParams(config.dim, config.nlist, config.nprobe)
    requires config.nprobe == config.nlist && |query| == config.dim
    ensures Answers(flat, After(ops, config.dim), query, config.dist, filter, k)
    ensures StateOk(s, config) && HoldsRaw(s, config, After(ops, config.dim))
    ensures Answers(ivf, Held(s, config), query, config.dist, filter, k)
    ensures Lossless(s, config, After(ops, config.dim)) ==> SameScores(flat, ivf)
    ensures !config.quantize ==> SameScores(flat, ivf)
  {
    hide HoldsRaw, StateOk, Held, Answers, OnGrid;
    var brute := RunFlat(ops, config.dim, config.dist);
    var index := RunIvf(ops, config, splits);
    s := index.state;
    ReadsBackIff(s, config, After(ops, config.dim));
    var f := brute.Search(query, k, filter, flatSplit);
    var v, _ := index.Search(query, k, filter, ivfSplit);
    flat, ivf := f.value, v.value;
    if Lossless(s, config, After(ops, config.dim)) {
      AlikeAnswers(After(ops, config.dim), Held(s, config), query, config.dist, filter, k, flat, ivf);
    }
  }

  // --- Quantisation does lose exactness -------------------------------------------------------------------------

  lemma ZeroQuantizer(q: Quantizer, rows: seq<Vector>)
    requires rows != [] && (forall i | 0 <= i < |rows| :: rows[i] == [0.0]) && FittedTo(q, rows, 1)
    ensures |q.mins| == |q.scales| == 1 && q.mins[0] == 0.0 && q.scales[0] == 1.0
  {
    assert FittedIn(q, rows, 0);
    var hi :| Spans(rows, 0, q.mins[0], hi) && q.scales[0] == StepSize(q.mins[0], hi);
  }

  lemma HalfIsOne(q: Quantizer)
    requires |q.mins| == |q.scales| == 1 && q.mins[0] == 0.0 && q.scales[0] == 1.0
    ensures Stored(Some(q), [0.5]) == [1.0]
  {
    assert EncodeComponent(0.5, 0.0, 1.0) == 1;
    assert DecodeComponent(1, 0.0, 1.0) == 1.0;
  }

  lemma StagedZeros(s: Staging, c: Config)
    requires c.dim == 1 && IsStaging(s, c) && Staged(s, c) == map[1 := [0.0]]
    ensures forall i | 0 <= i < |s.ids| :: Rows(s.data, 1, |s.ids|)[i] == [0.0]
  {
    forall i | 0 <= i < |s.ids| ensures Rows(s.data, 1, |s.ids|)[i] == [0.0] {
      StoreAt(s.ids, s.data, 1, i);
      assert s.ids[i] in Staged(s, c).Keys;
    }
  }

  lemma LearnedZeros(t: Inverted, s: Staging, c: Config)
    requires c.dim == 1 && c.nlist == 1 && c.quantize && IsStaging(s, c) && s.ids != []
    requires Staged(s, c) == map[1 := [0.0]]
    requires LearnedFrom(t, s, c)
    ensures t.quantizer.Some? && Stored(t.quantizer, [0.5]) == [1.0]
  {
    hide FittedTo, Staged, Stored, WellFormed, Rows, KMeans.FromKMeans;
    StagedZeros(s, c);
    var rows := Rows(s.data, 1, |s.ids|);
    assert AllRowsFinite(rows);
    ZeroQuantizer(t.quantizer.value, rows);
    HalfIsOne(t.quantizer.value);
  }

  /** A quantiser fitted to nothing but zeros starts at zero and steps by one, so it stores a half as one. */
  lemma ZeroTrained(s: State, c: Config)
    requires StateOk(s, c) && s.trained && c.dim == 1 && c.nlist == 1 && c.quantize
    requires TrainedOn(s.inverted, map[1 := [0.0]], c)
    ensures Stored(s.inverted.quantizer, [0.5]) == [1.0]
  {
    hide Staged, LearnedFrom, TrainedOk;
    var st: Staging :| IsStaging(st, c) && st.ids != [] && Staged(st, c) == map[1 := [0.0]]
      && LearnedFrom(s.inverted, st, c);
    LearnedZeros(s.inverted, st, c);
  }

  /** Written as zero and then as a half, an id of a freshly trained quantised index reads back as one. */
  method WriteHalf(dist: Distance, splits: nat -> Split) returns (index: IvfIndex)
    ensures fresh(index) && index.Valid() && index.config == Config(1, dist, 1, 1, true)
    ensures index.Contents() == map[1 := [1.0]]
  {
    hide StateOk, Held, TrainedOn;
    var config := Config(1, dist, 1, 1, true);
    index := new IvfIndex(config);
    var _ := index.Insert(1, [0.0], splits);
    assert |map[1 := [0.0]]| == 1;
    ZeroTrained(index.state, config);
    var _ := index.Insert(1, [0.5], splits);
    assert index.Contents().Keys == {1};
  }

  /** After this history the flat index scores a half and the quantised index, probing its only list, one. */
  method QuantisedRecallFails(dist: Distance, splits: nat -> Split, flatSplit: Split, ivfSplit: Split)
    returns (flat: seq<Scored>, ivf: seq<Scored>)
    ensures flat == [Scored(dist([0.0], [0.5]), 1)] && ivf == [Scored(dist([0.0], [1.0]), 1)]
  {
    hide StateOk, Held, Answers;
    var ops := [Insert(1, [0.0]), Insert(1, [0.5])];
    assert ops[..1] == [Insert(1, [0.0])] && ops[..1][..0] == [];
    assert After(ops[..1], 1) == map[1 := [0.0]];
    assert After(ops, 1) == map[1 := [0.5]];
    var brute := RunFlat(ops, 1, dist);
    var index := WriteHalf(dist, splits);
    var f := brute.Search([0.0], 1, OnlyId(1), flatSplit);
    var v, _ := index.Search([0.0], 1, OnlyId(1), ivfSplit);
    flat, ivf := f.value, v.value;
    AnswerForOne(brute.Contents(), [0.0], dist, 1, flat);
    AnswerForOne(index.Contents(), [0.0], dist, 1, ivf);
  }
}
