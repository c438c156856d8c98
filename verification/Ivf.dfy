/**
 * The inverted-file index: a staging slab that trains itself into posting lists once it holds
 * `nlist` vectors, optionally quantised to SQ8 codes.
 */
module Ivf {
  import opened Core
  import opened Slab
  import opened TopK
  import opened Contents
  import opened KMeans
  import opened Sq8
  import opened Postings

  /** The lists are well formed and each id lies in exactly the list `home` names. */
  ghost predicate ListsOk(lists: seq<PostingList>, home: map<VecId, nat>, dim: nat, q: Option<Quantizer>) {
    && QuantizerOk(q, dim)
    && (forall c | 0 <= c < |lists| :: ListOk(lists[c], dim, q))
    && Partition(Views(lists, dim, q), home)
  }

  ghost function ListsStore(lists: seq<PostingList>, home: map<VecId, nat>, dim: nat, q: Option<Quantizer>): (m: Store)
    requires ListsOk(lists, home, dim, q)
    ensures m.Keys == home.Keys
  {
    Merge(Views(lists, dim, q), home)
  }

  ghost predicate InNearestList(m: Store, home: map<VecId, nat>, cents: seq<Vector>, dist: Distance, id: VecId)
    requires cents != [] && id in m
  {
    id in home && home[id] == Nearest(cents, dist, m[id])
  }

  /** Every vector sits in the list of its nearest centroid. */
  ghost predicate InNearestLists(m: Store, home: map<VecId, nat>, cents: seq<Vector>, dist: Distance)
    requires cents != []
  {
    forall id | id in m :: InNearestList(m, home, cents, dist, id)
  }

  /** The vectors as they read back once stored in posting lists. */
  ghost function Quantised(m: Store, q: Option<Quantizer>, dim: nat): (r: Store)
    requires Uniform(m, dim) && QuantizerOk(q, dim)
    ensures r.Keys == m.Keys && Uniform(r, dim)
    ensures forall id | id in m :: r[id] == Stored(q, m[id])
  {
    map id | id in m :: Stored(q, m[id])
  }

  /** Replacing list `c` replaces its view. */
  lemma ListsReplace(lists: seq<PostingList>, dim: nat, q: Option<Quantizer>, c: nat, l: PostingList, view: Store,
                     home: map<VecId, nat>)
    requires QuantizerOk(q, dim) && forall i | 0 <= i < |lists| :: ListOk(lists[i], dim, q)
    requires c < |lists| && ListOk(l, dim, q) && ListStore(l, dim, q) == view
    requires Partition(Views(lists, dim, q)[c := view], home)
    ensures ListsOk(lists[c := l], home, dim, q)
    ensures ListsStore(lists[c := l], home, dim, q) == Merge(Views(lists, dim, q)[c := view], home)
  {
    hide ListOk, Partition, Merge;
    ViewsUpdate(lists, dim, q, c, l);
  }

  lemma IdsOfList(lists: seq<PostingList>, home: map<VecId, nat>, dim: nat, q: Option<Quantizer>, c: nat, id: VecId)
    requires ListsOk(lists, home, dim, q) && c < |lists|
    ensures id in lists[c].ids <==> id in home && home[id] == c
  {
    var views := Views(lists, dim, q);
    assert Homed(views, home, c, id);
    assert views[c] == ListStore(lists[c], dim, q);
  }

  lemma ListsPush(lists: seq<PostingList>, home: map<VecId, nat>, dim: nat, q: Option<Quantizer>, c: nat, id: VecId,
                  v: Vector)
    requires ListsOk(lists, home, dim, q) && c < |lists| && id !in home && |v| == dim
    ensures ListsOk(lists[c := PushStored(lists[c], id, v, q)], home[id := c], dim, q)
    ensures ListsStore(lists[c := PushStored(lists[c], id, v, q)], home[id := c], dim, q)
         == ListsStore(lists, home, dim, q)[id := Stored(q, v)]
  {
    var views := Views(lists, dim, q);
    IdsOfList(lists, home, dim, q, c, id);
    ListPush(lists[c], id, v, dim, q);
    PartitionPush(views, home, c, id, Stored(q, v));
    ListsReplace(lists, dim, q, c, PushStored(lists[c], id, v, q), With(views[c], id, Stored(q, v)), home[id := c]);
  }

  lemma ListsRemove(lists: seq<PostingList>, home: map<VecId, nat>, dim: nat, q: Option<Quantizer>, id: VecId)
    requires ListsOk(lists, home, dim, q) && id in home
    ensures home[id] < |lists| && ListOk(lists[home[id]], dim, q)
    ensures ListsOk(lists[home[id] := RemoveStored(lists[home[id]], id, dim, q)], home - {id}, dim, q)
    ensures ListsStore(lists[home[id] := RemoveStored(lists[home[id]], id, dim, q)], home - {id}, dim, q)
         == ListsStore(lists, home, dim, q) - {id}
  {
    var views := Views(lists, dim, q);
    var c := home[id];
    IdsOfList(lists, home, dim, q, c, id);
    ListRemove(lists[c], id, dim, q);
    PartitionRemove(views, home, id);
    ListsReplace(lists, dim, q, c, RemoveStored(lists[c], id, dim, q), Without(views[c], id), home - {id});
  }

  lemma UniformLists(lists: seq<PostingList>, home: map<VecId, nat>, dim: nat, q: Option<Quantizer>)
    requires ListsOk(lists, home, dim, q)
    ensures Uniform(ListsStore(lists, home, dim, q), dim)
  {
    var views := Views(lists, dim, q);
    forall id | id in home ensures |ListsStore(lists, home, dim, q)[id]| == dim {
      assert views[home[id]] == ListStore(lists[home[id]], dim, q);
    }
  }

  /** `nlist` fresh lists hold nothing. */
  lemma EmptyLists(nlist: nat, dim: nat, q: Option<Quantizer>)
    requires QuantizerOk(q, dim)
    ensures ListsOk(seq(nlist, _ => EMPTY_LIST), map[], dim, q)
    ensures ListsStore(seq(nlist, _ => EMPTY_LIST), map[], dim, q) == map[]
  {
    var lists := seq(nlist, _ => EMPTY_LIST);
    forall c, id | 0 <= c < nlist ensures Homed(Views(lists, dim, q), map[], c, id) {
      assert Views(lists, dim, q)[c] == ListStore(EMPTY_LIST, dim, q);
    }
  }

  /** The map of the first `i` rows. */
  ghost function Upto(ids: seq<VecId>, rows: seq<Vector>, i: nat, dim: nat): (m: Store)
    requires i <= |ids| == |rows| && forall j | 0 <= j < |rows| :: |rows[j]| == dim
    ensures m.Keys == Elements(ids[..i]) && Uniform(m, dim)
  {
    TableUniform(ids[..i], rows[..i], dim);
    Table(ids[..i], rows[..i])
  }

  lemma UptoStep(ids: seq<VecId>, rows: seq<Vector>, i: nat, dim: nat)
    requires i < |ids| == |rows| && Distinct(ids) && forall j | 0 <= j < |rows| :: |rows[j]| == dim
    ensures ids[i] !in Upto(ids, rows, i, dim)
    ensures Upto(ids, rows, i + 1, dim) == Upto(ids, rows, i, dim)[ids[i] := rows[i]]
  {
    DistinctPrefix(ids, i + 1);
    assert ids[..i + 1][..i] == ids[..i] && rows[..i + 1][..i] == rows[..i];
  }

  lemma QuantisedPush(m: Store, q: Option<Quantizer>, dim: nat, id: VecId, v: Vector)
    requires Uniform(m, dim) && QuantizerOk(q, dim) && |v| == dim
    ensures Uniform(m[id := v], dim)
    ensures Quantised(m[id := v], q, dim) == Quantised(m, q, dim)[id := Stored(q, v)]
  {
  }

  lemma UnquantisedIsSame(m: Store, dim: nat)
    requires Uniform(m, dim)
    ensures Quantised(m, None, dim) == m
  {
  }

  /** The state of training after `i` staged rows went to their lists. */
  ghost predicate Distributed(ids: seq<VecId>, rows: seq<Vector>, i: nat, lists: seq<PostingList>, home: map<VecId,
                              nat>,
                              dim: nat, q: Option<Quantizer>)
    requires i <= |ids| == |rows| && forall j | 0 <= j < |rows| :: |rows[j]| == dim
  {
    && ListsOk(lists, home, dim, q)
    && ListsStore(lists, home, dim, q) == Quantised(Upto(ids, rows, i, dim), q, dim)
  }

  lemma DistributeStep(ids: seq<VecId>, rows: seq<Vector>, i: nat, lists: seq<PostingList>, home: map<VecId, nat>,
                       dim: nat, q: Option<Quantizer>, c: nat)
    requires |ids| == |rows| && Distinct(ids) && i < |ids|
    requires forall j | 0 <= j < |rows| :: |rows[j]| == dim
    requires Distributed(ids, rows, i, lists, home, dim, q) && c < |lists|
    ensures Distributed(ids, rows, i + 1, lists[c := PushStored(lists[c], ids[i], rows[i], q)], home[ids[i] := c],
                        dim, q)
  {
    UptoStep(ids, rows, i, dim);
    QuantisedPush(Upto(ids, rows, i, dim), q, dim, ids[i], rows[i]);
    assert home.Keys == Upto(ids, rows, i, dim).Keys;
    ListsPush(lists, home, dim, q, c, ids[i], rows[i]);
  }

  /** The first `i` ids are homed at the centroid nearest to their row. */
  ghost predicate Placed(ids: seq<VecId>, rows: seq<Vector>, i: nat, home: map<VecId, nat>, cents: seq<Vector>,
                         dist: Distance)
    requires i <= |ids| == |rows| && cents != []
  {
    forall j | 0 <= j < i :: ids[j] in home && home[ids[j]] == Nearest(cents, dist, rows[j])
  }

  lemma PlacedStep(ids: seq<VecId>, rows: seq<Vector>, i: nat, home: map<VecId, nat>, cents: seq<Vector>,
                   dist: Distance)
    requires i < |ids| == |rows| && cents != [] && Distinct(ids)
    requires Placed(ids, rows, i, home, cents, dist)
    ensures Placed(ids, rows, i + 1, home[ids[i] := Nearest(cents, dist, rows[i])], cents, dist)
  {
    DistinctPairs(ids);
  }

  /** The first `i` rows are in the lists, each in the list of its nearest centroid. */
  ghost predicate Filed(ids: seq<VecId>, rows: seq<Vector>, i: nat, lists: seq<PostingList>, home: map<VecId, nat>,
                        dim: nat, cents: seq<Vector>, dist: Distance, q: Option<Quantizer>)
    requires i <= |ids| == |rows| && cents != [] && forall j | 0 <= j < |rows| :: |rows[j]| == dim
  {
    && |lists| == |cents|
    && Distributed(ids, rows, i, lists, home, dim, q)
    && Placed(ids, rows, i, home, cents, dist)
  }

  lemma FiledStep(ids: seq<VecId>, rows: seq<Vector>, i: nat, lists: seq<PostingList>, home: map<VecId, nat>,
                  dim: nat, cents: seq<Vector>, dist: Distance, q: Option<Quantizer>)
    requires i < |ids| == |rows| && Distinct(ids) && cents != [] && forall j | 0 <= j < |rows| :: |rows[j]| == dim
    requires Filed(ids, rows, i, lists, home, dim, cents, dist, q)
    ensures var c := Nearest(cents, dist, rows[i]);
            Filed(ids, rows, i + 1, lists[c := PushStored(lists[c], ids[i], rows[i], q)], home[ids[i] := c],
                  dim, cents, dist, q)
  {
    DistributeStep(ids, rows, i, lists, home, dim, q, Nearest(cents, dist, rows[i]));
    PlacedStep(ids, rows, i, home, cents, dist);
  }

  lemma NothingFiled(ids: seq<VecId>, rows: seq<Vector>, dim: nat, cents: seq<Vector>, dist: Distance,
                     q: Option<Quantizer>)
    requires |ids| == |rows| && cents != [] && forall j | 0 <= j < |rows| :: |rows[j]| == dim
    requires QuantizerOk(q, dim)
    ensures Filed(ids, rows, 0, seq(|cents|, _ => EMPTY_LIST), map[], dim, cents, dist, q)
  {
    EmptyLists(|cents|, dim, q);
  }

  /** Send every staged row to the list of its nearest centroid. */
  method Distribute(ids: seq<VecId>, rows: seq<Vector>, dim: nat, cents: seq<Vector>, dist: Distance,
                    q: Option<Quantizer>)
    returns (lists: seq<PostingList>, home: map<VecId, nat>)
    requires |ids| == |rows| && Distinct(ids) && forall j | 0 <= j < |rows| :: |rows[j]| == dim
    requires QuantizerOk(q, dim) && cents != []
    ensures Filed(ids, rows, |ids|, lists, home, dim, cents, dist, q)
  {
    hide Distributed, Placed;
    lists, home := seq(|cents|, _ => EMPTY_LIST), map[];
    NothingFiled(ids, rows, dim, cents, dist, q);
    for i := 0 to |ids|
      invariant Filed(ids, rows, i, lists, home, dim, cents, dist, q)
    {
      var c := Nearest(cents, dist, rows[i]);
      FiledStep(ids, rows, i, lists, home, dim, cents, dist, q);
      lists := lists[c := PushStored(lists[c], ids[i], rows[i], q)];
      home := home[ids[i] := c];
    }
  }

  lemma UptoAll(ids: seq<VecId>, data: seq<real>, dim: nat)
    requires IsTable(ids, data, dim)
    ensures Upto(ids, Rows(data, dim, |ids|), |ids|, dim) == StoreOf(ids, data, dim)
  {
    var rows := Rows(data, dim, |ids|);
    assert ids[..|ids|] == ids && rows[..|ids|] == rows;
  }

  lemma PlacedRows(ids: seq<VecId>, data: seq<real>, dim: nat, home: map<VecId, nat>, cents: seq<Vector>,
                   dist: Distance)
    requires IsTable(ids, data, dim) && cents != []
    requires Placed(ids, Rows(data, dim, |ids|), |ids|, home, cents, dist)
    ensures InNearestLists(StoreOf(ids, data, dim), home, cents, dist)
  {
    forall id | id in ids ensures InNearestList(StoreOf(ids, data, dim), home, cents, dist, id) {
      var j :| 0 <= j < |ids| && ids[j] == id;
      StoreAt(ids, data, dim, j);
    }
  }

  /** Fitted to the rows, if they are finite `f32` values, as the program's vectors are. */
  ghost predicate Fitted(q: Quantizer, rows: seq<Vector>, dim: nat)
    requires forall i | 0 <= i < |rows| :: |rows[i]| == dim
  {
    WellFormed(q, dim) && (AllRowsFinite(rows) ==> FittedTo(q, rows, dim))
  }

  /** The centroids and quantiser of a training run. */
  method Learn(ids: seq<VecId>, data: seq<real>, dim: nat, nlist: nat, dist: Distance, quantize: bool,
               splits: nat -> Split)
    returns (centroids: seq<real>, q: Option<Quantizer>)
    requires IsTable(ids, data, dim) && ids != [] && nlist > 0
    ensures |centroids| == Offset(nlist, dim)
    ensures FromKMeans(centroids, data, |ids|, dim, nlist, dist)
    ensures q.Some? <==> quantize
    ensures q.Some? ==> Fitted(q.value, Rows(data, dim, |ids|), dim)
  {
    var n := |ids|;
    centroids := Cluster(data, n, dim, nlist, dist, splits);
    q := None;
    if quantize {
      var fitted := Fit(data, n, dim);
      q := Some(fitted);
    }
  }

  lemma PlaceOne(m: Store, home: map<VecId, nat>, cents: seq<Vector>, dist: Distance, id: VecId, v: Vector)
    requires cents != [] && InNearestLists(m, home, cents, dist)
    ensures InNearestLists(m[id := v], home[id := Nearest(cents, dist, v)], cents, dist)
  {
    var m', home' := m[id := v], home[id := Nearest(cents, dist, v)];
    forall x | x in m' ensures InNearestList(m', home', cents, dist, x) {
      if x != id { assert InNearestList(m, home, cents, dist, x); }
    }
  }

  lemma DisplaceOne(m: Store, home: map<VecId, nat>, cents: seq<Vector>, dist: Distance, id: VecId)
    requires cents != [] && InNearestLists(m, home, cents, dist)
    ensures InNearestLists(m - {id}, home - {id}, cents, dist)
  {
    forall x | x in m - {id} ensures InNearestList(m - {id}, home - {id}, cents, dist, x) {
      assert InNearestList(m, home, cents, dist, x);
    }
  }

  // --- The index's state ------------------------------------------------------------------

  datatype Config = Config(dim: nat, dist: Distance, nlist: nat, nprobe: nat, quantize: bool)

  /** The pre-training buffer. */
  datatype Staging = Staging(ids: seq<VecId>, data: seq<real>)

  /** The post-training state: centroid slab, posting lists, and the list each id lives in. */
  datatype Inverted = Inverted(centroids: seq<real>, lists: seq<PostingList>, idToList: map<VecId, nat>,
                               quantizer: Option<Quantizer>)

  const NO_STAGING := Staging([], [])
  const UNTRAINED := Inverted([], [], map[], None)

  ghost predicate IsStaging(s: Staging, c: Config) {
    IsTable(s.ids, s.data, c.dim)
  }

  ghost function Staged(s: Staging, c: Config): (m: Store)
    requires IsStaging(s, c)
    ensures m.Keys == Elements(s.ids) && Uniform(m, c.dim)
  {
    StoreOf(s.ids, s.data, c.dim)
  }

  ghost predicate IsInverted(t: Inverted, c: Config) {
    && |t.centroids| == Offset(c.nlist, c.dim) && |t.lists| == c.nlist > 0
    && (t.quantizer.Some? <==> c.quantize)
    && ListsOk(t.lists, t.idToList, c.dim, t.quantizer)
  }

  ghost function Listed(t: Inverted, c: Config): (m: Store)
    requires IsInverted(t, c)
    ensures m.Keys == t.idToList.Keys && Uniform(m, c.dim)
  {
    UniformLists(t.lists, t.idToList, c.dim, t.quantizer);
    ListsStore(t.lists, t.idToList, c.dim, t.quantizer)
  }

  /** Without quantisation every vector is in the list of its nearest centroid. */
  ghost predicate WellPlaced(t: Inverted, c: Config)
    requires IsInverted(t, c)
  {
    !c.quantize ==> InNearestLists(Listed(t, c), t.idToList, Rows(t.centroids, c.dim, c.nlist), c.dist)
  }

  ghost predicate TrainedOk(t: Inverted, c: Config) {
    IsInverted(t, c) && WellPlaced(t, c)
  }

  /** The centroids and quantiser were learned from the staged rows. */
  ghost predicate LearnedFrom(t: Inverted, s: Staging, c: Config)
    requires IsStaging(s, c) && s.ids != [] && c.nlist > 0
  {
    && FromKMeans(t.centroids, s.data, |s.ids|, c.dim, c.nlist, c.dist)
    && (c.quantize ==> t.quantizer.Some? && Fitted(t.quantizer.value, Rows(s.data, c.dim, |s.ids|), c.dim))
  }

  lemma DistributedIsTrained(t: Inverted, s: Staging, c: Config)
    requires IsStaging(s, c) && c.nlist > 0
    requires |t.centroids| == Offset(c.nlist, c.dim) && |t.lists| == c.nlist
    requires t.quantizer.Some? <==> c.quantize
    requires Distributed(s.ids, Rows(s.data, c.dim, |s.ids|), |s.ids|, t.lists, t.idToList, c.dim, t.quantizer)
    requires Placed(s.ids, Rows(s.data, c.dim, |s.ids|), |s.ids|, t.idToList, Rows(t.centroids, c.dim, c.nlist), c.dist)
    ensures TrainedOk(t, c) && Listed(t, c) == Quantised(Staged(s, c), t.quantizer, c.dim)
  {
    UptoAll(s.ids, s.data, c.dim);
    if !c.quantize {
      UnquantisedIsSame(Staged(s, c), c.dim);
      PlacedRows(s.ids, s.data, c.dim, t.idToList, Rows(t.centroids, c.dim, c.nlist), c.dist);
    }
  }

  /** Cluster the staged vectors and move them into posting lists. */
  method Build(s: Staging, c: Config, splits: nat -> Split) returns (t: Inverted)
    requires IsStaging(s, c) && s.ids != [] && c.nlist > 0
    ensures TrainedOk(t, c) && Listed(t, c) == Quantised(Staged(s, c), t.quantizer, c.dim)
    ensures LearnedFrom(t, s, c)
  {
    var centroids, q := Learn(s.ids, s.data, c.dim, c.nlist, c.dist, c.quantize, splits);
    var rows, cents := Rows(s.data, c.dim, |s.ids|), Rows(centroids, c.dim, c.nlist);
    var lists, home := Distribute(s.ids, rows, c.dim, cents, c.dist, q);
    t := Inverted(centroids, lists, home, q);
    DistributedIsTrained(t, s, c);
  }

  /** `t` with `vec` added to the list of its nearest centroid. */
  function Added(t: Inverted, c: Config, id: VecId, vec: Vector): Inverted
    requires IsInverted(t, c) && |vec| == c.dim
  {
    var l := Nearest(Rows(t.centroids, c.dim, c.nlist), c.dist, vec);
    t.(lists := t.lists[l := PushStored(t.lists[l], id, vec, t.quantizer)], idToList := t.idToList[id := l])
  }

  lemma AddedIsInsert(t: Inverted, c: Config, id: VecId, vec: Vector)
    requires TrainedOk(t, c) && |vec| == c.dim && id !in t.idToList
    ensures TrainedOk(Added(t, c, id, vec), c)
    ensures Listed(Added(t, c, id, vec), c) == Listed(t, c)[id := Stored(t.quantizer, vec)]
  {
    var cents := Rows(t.centroids, c.dim, c.nlist);
    ListsPush(t.lists, t.idToList, c.dim, t.quantizer, Nearest(cents, c.dist, vec), id, vec);
    if !c.quantize {
      PlaceOne(Listed(t, c), t.idToList, cents, c.dist, id, vec);
    }
  }

  /** `t` with `id` swap-removed from the list that holds it. */
  function Removed(t: Inverted, c: Config, id: VecId): Inverted
    requires IsInverted(t, c) && id in t.idToList
  {
    var l := t.idToList[id];
    ListsRemove(t.lists, t.idToList, c.dim, t.quantizer, id);
    t.(lists := t.lists[l := RemoveStored(t.lists[l], id, c.dim, t.quantizer)], idToList := t.idToList - {id})
  }

  lemma RemovedIsDelete(t: Inverted, c: Config, id: VecId)
    requires TrainedOk(t, c) && id in t.idToList
    ensures TrainedOk(Removed(t, c, id), c)
    ensures Listed(Removed(t, c, id), c) == Listed(t, c) - {id}
  {
    ListsRemove(t.lists, t.idToList, c.dim, t.quantizer, id);
    if !c.quantize {
      DisplaceOne(Listed(t, c), t.idToList, Rows(t.centroids, c.dim, c.nlist), c.dist, id);
    }
  }

  /** The mutable fields of the index, committed together by each operation. */
  datatype State = State(staging: Staging, trained: bool, inverted: Inverted)

  /** Staging is empty once trained; before that it holds fewer than `nlist` rows. */
  ghost predicate StateOk(s: State, c: Config) {
    && c.dim > 0 && 1 <= c.nprobe <= c.nlist
    && (if s.trained then s.staging == NO_STAGING && TrainedOk(s.inverted, c)
        else s.inverted == UNTRAINED && IsStaging(s.staging, c) && |s.staging.ids| < c.nlist)
  }

  /** The id-to-vector map the index stands for; quantised vectors read back decoded. */
  ghost function Held(s: State, c: Config): (m: Store)
    requires StateOk(s, c)
    ensures Uniform(m, c.dim)
  {
    if s.trained then Listed(s.inverted, c) else Staged(s.staging, c)
  }

  /** The training step ran on exactly the vectors of `m`. */
  ghost predicate TrainedOn(t: Inverted, m: Store, c: Config)
    requires c.nlist > 0
  {
    exists s: Staging | IsStaging(s, c) && s.ids != [] && Staged(s, c) == m :: LearnedFrom(t, s, c)
  }

  /**
   * What one insert does: the staged map gains the vector until it reaches `nlist` entries; then the
   * whole map is clustered and stored; afterwards vectors go straight to storage.
   */
  ghost predicate Inserted(s: State, s': State, c: Config, id: VecId, vec: Vector)
    requires StateOk(s, c) && StateOk(s', c) && |vec| == c.dim
  {
    var m := Held(s, c)[id := vec];
    if s.trained then
      && s'.trained && s'.inverted.quantizer == s.inverted.quantizer && s'.inverted.centroids == s.inverted.centroids
      && Held(s', c) == Held(s, c)[id := Stored(s.inverted.quantizer, vec)]
    else if |m| < c.nlist then
      !s'.trained && Held(s', c) == m
    else
      && s'.trained && Held(s', c) == Quantised(m, s'.inverted.quantizer, c.dim)
      && TrainedOn(s'.inverted, m, c)
  }

  /** Without quantisation the index simply is the map. */
  lemma InsertedUnquantised(s: State, s': State, c: Config, id: VecId, vec: Vector)
    requires StateOk(s, c) && StateOk(s', c) && |vec| == c.dim
    requires Inserted(s, s', c, id, vec) && !c.quantize
    ensures Held(s', c) == Held(s, c)[id := vec]
  {
    UnquantisedIsSame(Held(s, c)[id := vec], c.dim);
  }

  /**
   * The index stands for the vectors of `raw` as they were given: it holds them unchanged before training
   * and read back through its quantiser, if it has one, after.
   */
  ghost predicate HoldsRaw(s: State, c: Config, raw: Store)
    requires StateOk(s, c)
  {
    && Uniform(raw, c.dim)
    && Held(s, c) == if s.trained then Quantised(raw, s.inverted.quantizer, c.dim) else raw
  }

  /** An insert of a given vector is an insert among the given vectors, in all three phases. */
  lemma RawInsert(s: State, s': State, c: Config, id: VecId, vec: Vector, raw: Store)
    requires StateOk(s, c) && StateOk(s', c) && |vec| == c.dim
    requires Inserted(s, s', c, id, vec) && HoldsRaw(s, c, raw)
    ensures HoldsRaw(s', c, With(raw, id, vec))
  {
    hide Held, TrainedOn;
    if s.trained {
      QuantisedPush(raw, s.inverted.quantizer, c.dim, id, vec);
    }
  }

  lemma RawDelete(s: State, s': State, c: Config, id: VecId, raw: Store)
    requires StateOk(s, c) && StateOk(s', c) && HoldsRaw(s, c, raw)
    requires s'.trained == s.trained && s'.inverted.quantizer == s.inverted.quantizer
    requires Held(s', c) == Held(s, c) - {id}
    ensures HoldsRaw(s', c, raw - {id})
  {
    hide Held;
    if s.trained {
      QuantisedRemove(raw, s.inverted.quantizer, c.dim, id);
    }
  }

  lemma QuantisedRemove(m: Store, q: Option<Quantizer>, dim: nat, id: VecId)
    requires QuantizerOk(q, dim) && Uniform(m, dim)
    ensures Quantised(m - {id}, q, dim) == Quantised(m, q, dim) - {id}
  {
  }

  /** Storing what a quantised list reads back changes nothing. */
  lemma StoredTwice(q: Option<Quantizer>, v: Vector)
    requires QuantizerOk(q, |v|)
    ensures Stored(q, Stored(q, v)) == Stored(q, v)
  {
    if q.Some? { CodesRoundTrip(q.value, Encode(q.value, v)); }
  }

  lemma ListedIsStored(t: Inverted, c: Config, id: VecId)
    requires IsInverted(t, c) && id in Listed(t, c)
    ensures Stored(t.quantizer, Listed(t, c)[id]) == Listed(t, c)[id]
  {
    var d := t.idToList[id];
    var views := Views(t.lists, c.dim, t.quantizer);
    assert Homed(views, t.idToList, d, id);
    assert Listed(t, c)[id] == ListStore(t.lists[d], c.dim, t.quantizer)[id];
    if t.quantizer.Some? {
      CodesRoundTrip(t.quantizer.value, StoreOf(t.lists[d].ids, t.lists[d].codes, c.dim)[id]);
    }
  }

  /** An index can always be said to have been given what it reads back. */
  lemma HoldsItself(s: State, c: Config)
    requires StateOk(s, c)
    ensures HoldsRaw(s, c, Held(s, c))
  {
    hide Listed, Partition, WellPlaced;
    if s.trained {
      forall id | id in Held(s, c) ensures Stored(s.inverted.quantizer, Held(s, c)[id]) == Held(s, c)[id] {
        ListedIsStored(s.inverted, c, id);
      }
    }
  }

  /** An index left as it is also stands for the given vectors with what it reads back for an id written there. */
  lemma GivenAgain(s: State, c: Config, raw: Store, id: VecId)
    requires StateOk(s, c) && HoldsRaw(s, c, raw) && id in Held(s, c)
    ensures HoldsRaw(s, c, With(raw, id, Held(s, c)[id]))
  {
    hide Held;
    if s.trained {
      StoredTwice(s.inverted.quantizer, raw[id]);
      QuantisedPush(raw, s.inverted.quantizer, c.dim, id, Held(s, c)[id]);
    }
  }

  /** Without quantisation what is held is what was given. */
  lemma RawUnquantised(s: State, c: Config, raw: Store)
    requires StateOk(s, c) && !c.quantize
    ensures HoldsRaw(s, c, raw) <==> Held(s, c) == raw
  {
    if Uniform(raw, c.dim) { UnquantisedIsSame(raw, c.dim); }
  }

  /** `get_f32_by_id` or, with a quantiser, `get_codes_by_id` and a decode. */
  method GetFromList(l: PostingList, dim: nat, q: Option<Quantizer>, id: VecId) returns (r: Option<Vector>)
    requires ListOk(l, dim, q) && QuantizerOk(q, dim)
    ensures r == Lookup(ListStore(l, dim, q), id)
  {
    var pos := Position(l.ids, id);
    if pos.None? { return None; }
    if q.Some? {
      StoreAt(l.ids, l.codes, dim, pos.value);
      r := Some(Decode(q.value, Row(l.codes, dim, pos.value)));
    } else {
      StoreAt(l.ids, l.data, dim, pos.value);
      r := Some(Row(l.data, dim, pos.value));
    }
  }

  method GetTrained(t: Inverted, c: Config, id: VecId) returns (r: Option<Vector>)
    requires IsInverted(t, c)
    ensures r == Lookup(Listed(t, c), id)
  {
    if id !in t.idToList { return None; }
    IdsOfList(t.lists, t.idToList, c.dim, t.quantizer, t.idToList[id], id);
    r := GetFromList(t.lists[t.idToList[id]], c.dim, t.quantizer, id);
  }

  method GetStaged(s: Staging, c: Config, id: VecId) returns (r: Option<Vector>)
    requires IsStaging(s, c)
    ensures r == Lookup(Staged(s, c), id)
  {
    var pos := Position(s.ids, id);
    if pos.None? { return None; }
    StoreAt(s.ids, s.data, c.dim, pos.value);
    r := Some(Row(s.data, c.dim, pos.value));
  }

  /** Overwrite in place or append. */
  method Stage(s: Staging, c: Config, id: VecId, vec: Vector) returns (s': Staging)
    requires IsStaging(s, c) && |vec| == c.dim
    ensures IsStaging(s', c) && Staged(s', c) == Staged(s, c)[id := vec]
    ensures |s'.ids| == |Staged(s, c)[id := vec]| <= |s.ids| + 1
  {
    var pos := Position(s.ids, id);
    if pos.Some? {
      StoreOverwrite(s.ids, s.data, c.dim, pos.value, vec);
      s' := s.(data := Overwrite(s.data, c.dim, pos.value, vec));
    } else {
      StorePush(s.ids, s.data, c.dim, id, vec);
      s' := Staging(s.ids + [id], s.data + vec);
    }
    StoreSize(s'.ids, s'.data, c.dim);
  }

  method Unstage(s: Staging, c: Config, id: VecId) returns (s': Staging, existed: bool)
    requires IsStaging(s, c)
    ensures IsStaging(s', c) && Staged(s', c) == Staged(s, c) - {id} && |s'.ids| <= |s.ids|
    ensures existed <==> id in Staged(s, c)
  {
    var pos := Position(s.ids, id);
    existed := pos.Some?;
    s' := s;
    if existed {
      StoreSwapRemove(s.ids, s.data, c.dim, pos.value);
      s' := Staging(SwapRemove(s.ids, pos.value), SwapRemoveRow(s.data, c.dim, |s.ids|, pos.value));
    }
  }

  /** Delete from the posting lists, if listed. */
  method Unlist(t: Inverted, c: Config, id: VecId) returns (t': Inverted, existed: bool)
    requires TrainedOk(t, c)
    ensures TrainedOk(t', c) && Listed(t', c) == Listed(t, c) - {id}
    ensures t'.quantizer == t.quantizer && t'.centroids == t.centroids
    ensures existed <==> id in Listed(t, c)
  {
    hide ListsOk, WellPlaced;
    existed := id in t.idToList;
    if existed {
      RemovedIsDelete(t, c, id);
      t' := Removed(t, c, id);
    } else {
      assert Listed(t, c) - {id} == Listed(t, c);
      t' := t;
    }
  }

  /** Insert into the posting lists, removing an older entry of the same id first. */
  method Relist(t: Inverted, c: Config, id: VecId, vec: Vector) returns (t': Inverted)
    requires TrainedOk(t, c) && |vec| == c.dim
    ensures TrainedOk(t', c) && Listed(t', c) == Listed(t, c)[id := Stored(t.quantizer, vec)]
    ensures t'.quantizer == t.quantizer && t'.centroids == t.centroids
  {
    var gone, _ := Unlist(t, c, id);
    AddedIsInsert(gone, c, id, vec);
    t' := Added(gone, c, id, vec);
    ReplaceEntry(Listed(t, c), id, Stored(t.quantizer, vec));
  }

  lemma ReplaceEntry(m: Store, id: VecId, v: Vector)
    ensures (m - {id})[id := v] == m[id := v]
  {
  }

  // --- Search ---------------------------------------------------------------------------

  /** The score of centroid `l`, tagged with its list. */
  function CentroidScore(cents: seq<Vector>, query: Vector, dist: Distance, l: nat): Scored
    requires l < |cents|
  {
    Scored(dist(query, cents[l]), l)
  }

  /** `probe` lists the `n` nearest centroids, ties going to the smaller list number. */
  ghost predicate IsProbe(probe: seq<nat>, cents: seq<Vector>, query: Vector, dist: Distance, n: nat) {
    && |probe| == n && Distinct(probe)
    && (forall i | 0 <= i < |probe| :: probe[i] < |cents|)
    && (forall l: nat, m: nat | l in probe && m !in probe && l < |cents| && m < |cents| ::
          AtMost(CentroidScore(cents, query, dist, l), CentroidScore(cents, query, dist, m)))
  }

  ghost function CentroidScores(cents: seq<Vector>, query: Vector, dist: Distance, n: nat): (s: set<Scored>)
    requires n <= |cents|
    ensures forall x: Scored :: x in s <==> x.id < n && x == CentroidScore(cents, query, dist, x.id)
    ensures |s| == n
  {
    if n == 0 then {}
    else CentroidScores(cents, query, dist, n - 1) + {CentroidScore(cents, query, dist, n - 1)}
  }

  function Ids(s: seq<Scored>): (r: seq<nat>)
    ensures |r| == |s| && forall i | 0 <= i < |s| :: r[i] == s[i].id
  {
    seq(|s|, i requires 0 <= i < |s| => s[i].id)
  }

  /** A duplicate-free list of entries whose ids determine them has distinct ids. */
  lemma {:induction false} IdsDistinct(s: seq<Scored>, cents: seq<Vector>, query: Vector, dist: Distance)
    requires Distinct(s)
    requires forall i | 0 <= i < |s| :: s[i].id < |cents| && s[i] == CentroidScore(cents, query, dist, s[i].id)
    ensures Distinct(Ids(s))
  {
    if s != [] {
      var n := |s| - 1;
      IdsDistinct(s[..n], cents, query, dist);
      assert Ids(s)[..n] == Ids(s[..n]);
      forall i | 0 <= i < n ensures Ids(s)[i] != Ids(s)[n] {
        assert s[i] in s[..n];
      }
    }
  }

  /** Sorting all scored centroids lists each once. */
  lemma SortedScores(s: seq<Scored>, cents: seq<Vector>, query: Vector, dist: Distance)
    requires multiset(s) == multiset(CentroidScores(cents, query, dist, |cents|))
    ensures |s| == |cents| && Distinct(Ids(s))
    ensures forall i | 0 <= i < |s| :: s[i].id < |cents| && s[i] == CentroidScore(cents, query, dist, s[i].id)
    ensures forall l: nat | l < |cents| :: CentroidScore(cents, query, dist, l) in s
  {
    var all := CentroidScores(cents, query, dist, |cents|);
    ListingOfSet(s, all);
    DistinctCardinality(s);
    forall i | 0 <= i < |s| ensures s[i].id < |cents| && s[i] == CentroidScore(cents, query, dist, s[i].id) {
      assert s[i] in Elements(s);
    }
    IdsDistinct(s, cents, query, dist);
    forall l: nat | l < |cents| ensures CentroidScore(cents, query, dist, l) in s {
      assert CentroidScore(cents, query, dist, l) in all;
    }
  }

  /** The first `n` of all scored centroids, in sorted order, are a probe. */
  lemma PrefixIsProbe(s: seq<Scored>, cents: seq<Vector>, query: Vector, dist: Distance, n: nat)
    requires multiset(s) == multiset(CentroidScores(cents, query, dist, |cents|)) && SortedPairs(s)
    requires n <= |cents|
    ensures |s| == |cents| && IsProbe(Ids(s)[..n], cents, query, dist, n)
  {
    SortedScores(s, cents, query, dist);
    DistinctPrefix(Ids(s), n);
    var probe := Ids(s)[..n];
    forall l: nat, m: nat | l in probe && m !in probe && l < |cents| && m < |cents|
      ensures AtMost(CentroidScore(cents, query, dist, l), CentroidScore(cents, query, dist, m))
    {
      NearerFirst(s, cents, query, dist, n, l, m);
    }
  }

  lemma NearerFirst(s: seq<Scored>, cents: seq<Vector>, query: Vector, dist: Distance, n: nat, l: nat, m: nat)
    requires SortedPairs(s) && n <= |s| && l < |cents| && m < |cents|
    requires forall i | 0 <= i < |s| :: s[i].id < |cents| && s[i] == CentroidScore(cents, query, dist, s[i].id)
    requires CentroidScore(cents, query, dist, m) in s
    requires l in Ids(s)[..n] && m !in Ids(s)[..n]
    ensures AtMost(CentroidScore(cents, query, dist, l), CentroidScore(cents, query, dist, m))
  {
    var i :| 0 <= i < n && Ids(s)[..n][i] == l;
    var j :| 0 <= j < |s| && s[j] == CentroidScore(cents, query, dist, m);
    assert forall p | 0 <= p < n :: Ids(s)[p] in Ids(s)[..n];
  }

  /** Score every centroid, sort the pairs, and keep the first `n` list numbers. */
  method ChooseProbe(cents: seq<Vector>, query: Vector, dist: Distance, n: nat) returns (probe: seq<nat>)
    requires n <= |cents|
    ensures IsProbe(probe, cents, query, dist, n)
  {
    var scores: Heap := multiset{};
    for l := 0 to |cents|
      invariant scores == multiset(CentroidScores(cents, query, dist, l))
    {
      scores := scores + multiset{CentroidScore(cents, query, dist, l)};
    }
    var s := SortPairs(scores);
    PrefixIsProbe(s, cents, query, dist, n);
    probe := Ids(s)[..n];
  }

  /** Brute-force scan of the staging rows. */
  method SearchStaging(s: Staging, c: Config, query: Vector, k: nat, filter: Filter) returns (results: seq<Scored>)
    requires IsStaging(s, c)
    ensures Answers(results, Staged(s, c), query, c.dist, filter, k)
  {
    var rows := Entries(s.ids, s.data, c.dim);
    var h := FoldGroup(multiset{}, multiset{}, rows, query, c.dist, filter, k);
    StoreHits(s.ids, s.data, c.dim, query, c.dist, filter);
    assert multiset{} + Hits(rows, query, c.dist, filter) == Hits(rows, query, c.dist, filter);
    results := SortedResults(h);
  }

  lemma ScansHit(t: Inverted, c: Config, query: Vector, filter: Filter)
    requires IsInverted(t, c)
    ensures forall l | 0 <= l < c.nlist ::
              Hits(Scans(t.lists, c.dim, t.quantizer)[l], query, c.dist, filter)
              == MapHits(Views(t.lists, c.dim, t.quantizer)[l], query, c.dist, filter)
  {
    var scans, views := Scans(t.lists, c.dim, t.quantizer), Views(t.lists, c.dim, t.quantizer);
    forall l | 0 <= l < c.nlist
      ensures Hits(scans[l], query, c.dist, filter) == MapHits(views[l], query, c.dist, filter)
    {
      assert scans[l] == ListEntries(t.lists[l], c.dim, t.quantizer);
      assert views[l] == ListStore(t.lists[l], c.dim, t.quantizer);
      ListHits(t.lists[l], c.dim, t.quantizer, query, c.dist, filter);
    }
  }

  /** Parallel search of the probed lists: the exact answer over the vectors those lists hold. */
  method SearchTrained(t: Inverted, c: Config, query: Vector, k: nat, filter: Filter, split: Split)
    returns (results: seq<Scored>, ghost probe: seq<nat>)
    requires IsInverted(t, c) && c.nprobe <= c.nlist
    ensures IsProbe(probe, Rows(t.centroids, c.dim, c.nlist), query, c.dist, c.nprobe)
    ensures Answers(results, Restrict(Listed(t, c), t.idToList, probe), query, c.dist, filter, k)
  {
    var lists := ChooseProbe(Rows(t.centroids, c.dim, c.nlist), query, c.dist, c.nprobe);
    probe := lists;
    var scans := Scans(t.lists, c.dim, t.quantizer);
    ScansHit(t, c, query, filter);
    ProbeHits(Views(t.lists, c.dim, t.quantizer), t.idToList, scans, lists, query, c.dist, filter);
    results := ParallelSearch(Pick(scans, lists), split, query, c.dist, filter, k);
  }

  /** Probing every list answers over the whole map. */
  lemma FullProbe(t: Inverted, c: Config, query: Vector, probe: seq<nat>)
    requires IsInverted(t, c) && IsProbe(probe, Rows(t.centroids, c.dim, c.nlist), query, c.dist, c.nlist)
    ensures Restrict(Listed(t, c), t.idToList, probe) == Listed(t, c)
  {
    RestrictAll(Listed(t, c), t.idToList, probe, c.nlist);
  }

  predicate ValidParams(dim: nat, nlist: nat, nprobe: nat) {
    dim > 0 && nlist > 0 && nprobe > 0 && nprobe <= nlist
  }

  class IvfIndex {
    const config: Config
    var state: State

    ghost predicate Valid()
      reads this
    {
      StateOk(state, config)
    }

    ghost function Contents(): (m: Store)
      requires Valid()
      reads this
      ensures Uniform(m, config.dim)
    {
      Held(state, config)
    }

    constructor (config: Config)
      requires ValidParams(config.dim, config.nlist, config.nprobe)
      ensures Valid() && !state.trained && Contents() == map[] && this.config == config
    {
      this.config := config;
      state := State(NO_STAGING, false, UNTRAINED);
    }

    /** `new` and `new_sq8`, which differ only in `quantize`. */
    static method Create(config: Config) returns (r: Result<IvfIndex>)
      ensures r.Ok? <==> config.dim > 0 && 1 <= config.nprobe <= config.nlist
      ensures r.Ok? ==> fresh(r.value) && r.value.Valid() && r.value.config == config && r.value.Contents() == map[]
      ensures r.Err? ==> r == Err(InvalidArgument)
    {
      if !ValidParams(config.dim, config.nlist, config.nprobe) {
        return Err(InvalidArgument);
      }
      var index := new IvfIndex(config);
      r := Ok(index);
    }

    method Get(id: VecId) returns (r: Option<Vector>)
      requires Valid()
      ensures r == Lookup(Contents(), id)
    {
      if !state.trained {
        r := GetStaged(state.staging, config, id);
      } else {
        r := GetTrained(state.inverted, config, id);
      }
    }

    method Insert(id: VecId, vec: Vector, splits: nat -> Split) returns (r: Result<()>)
      requires Valid()
      modifies this
      ensures Valid()
      ensures |vec| != config.dim ==> r == Err(DimMismatch(config.dim, |vec|)) && state == old(state)
      ensures |vec| == config.dim ==> r == Ok(()) && Inserted(old(state), state, config, id, vec)
    {
      if |vec| != config.dim {
        return Err(DimMismatch(config.dim, |vec|));
      }
      r := Ok(());
      if state.trained {
        InsertTrained(id, vec);
      } else {
        InsertStaged(id, vec, splits);
      }
    }

    method InsertTrained(id: VecId, vec: Vector)
      requires Valid() && state.trained && |vec| == config.dim
      modifies this
      ensures Valid() && Inserted(old(state), state, config, id, vec)
    {
      var t := Relist(state.inverted, config, id, vec);
      state := state.(inverted := t);
    }

    method InsertStaged(id: VecId, vec: Vector, splits: nat -> Split)
      requires Valid() && !state.trained && |vec| == config.dim
      modifies this
      ensures Valid() && Inserted(old(state), state, config, id, vec)
    {
      var staging := Stage(state.staging, config, id, vec);
      if |staging.ids| < config.nlist {
        state := state.(staging := staging);
      } else {
        var t := Build(staging, config, splits);
        state := State(NO_STAGING, true, t);
      }
    }

    method Delete(id: VecId) returns (existed: bool)
      requires Valid()
      modifies this
      ensures Valid() && state.trained == old(state.trained)
      ensures state.inverted.quantizer == old(state.inverted.quantizer)
      ensures existed <==> id in old(Contents())
      ensures Contents() == old(Contents()) - {id}
    {
      if state.trained {
        var t;
        t, existed := Unlist(state.inverted, config, id);
        state := state.(inverted := t);
      } else {
        var staging;
        staging, existed := Unstage(state.staging, config, id);
        state := state.(staging := staging);
      }
    }

    /**
     * Staging is scanned whole; a trained index is scanned in its `nprobe` nearest lists. With
     * `nprobe == nlist` both answer exactly over everything stored.
     */
    method Search(query: Vector, k: nat, filter: Filter, split: Split)
      returns (r: Result<seq<Scored>>, ghost probe: seq<nat>)
      requires Valid()
      ensures |query| != config.dim ==> r == Err(DimMismatch(config.dim, |query|))
      ensures |query| == config.dim ==> r.Ok?
      ensures r.Ok? && (k == 0 || !state.trained || config.nprobe == config.nlist) ==>
                Answers(r.value, Contents(), query, config.dist, filter, k)
      ensures r.Ok? && k > 0 && state.trained ==>
                && IsProbe(probe, Rows(state.inverted.centroids, config.dim, config.nlist), query, config.dist,
                           config.nprobe)
                && Answers(r.value, Restrict(Contents(), state.inverted.idToList, probe), query, config.dist, filter, k)
    {
      probe := [];
      if |query| != config.dim {
        return Err(DimMismatch(config.dim, |query|)), [];
      }
      if k == 0 {
        EmptyAnswers(Contents(), query, config.dist, filter, k);
        return Ok([]), [];
      }
      var results;
      if !state.trained {
        results := SearchStaging(state.staging, config, query, k, filter);
      } else {
        results, probe := SearchTrained(state.inverted, config, query, k, filter, split);
        if config.nprobe == config.nlist {
          FullProbe(state.inverted, config, query, probe);
        }
      }
      r := Ok(results);
    }

    method Len() returns (n: nat)
      requires Valid()
      ensures n == |Contents()|
    {
      if state.trained {
        assert Contents().Keys == state.inverted.idToList.Keys;
        assert |Contents()| == |Contents().Keys| && |state.inverted.idToList| == |state.inverted.idToList.Keys|;
        n := |state.inverted.idToList|;
      } else {
        StoreSize(state.staging.ids, state.staging.data, config.dim);
        n := |state.staging.ids|;
      }
    }

    /** The stored ids, in the hash map's order once trained. */
    method ListIds() returns (ids: seq<VecId>)
      requires Valid()
      ensures Distinct(ids) && Elements(ids) == Contents().Keys
    {
      if !state.trained {
        return state.staging.ids;
      }
      ids := ListSet(state.inverted.idToList.Keys);
    }

    /**
     * Rebuild from the live vectors, in any order. Nothing to do before training. The rebuild stands for
     * the vectors as this index reads them: the same map if unquantised, and otherwise the decoded
     * vectors, quantised afresh.
     */
    method Compact(splits: nat -> Split) returns (r: Option<IvfIndex>)
      requires Valid()
      ensures r.None? <==> !state.trained
      ensures r.Some? ==> fresh(r.value) && r.value.Valid() && r.value.config == config
      ensures r.Some? ==> HoldsRaw(r.value.state, config, Contents()) && r.value.Contents().Keys == Contents().Keys
      ensures r.Some? && !config.quantize ==> r.value.Contents() == Contents()
    {
      hide Held, ListsOk, IsTable, HoldsRaw;
      if !state.trained {
        return None;
      }
      var rebuilt := new IvfIndex(config);
      NothingHeld(rebuilt.state, config);
      var ids := ListIds();
      CopyAll(this, ids, rebuilt, splits);
      WholeCopy(Contents(), ids);
      RawKeys(rebuilt.state, config, Contents());
      if !config.quantize {
        RawUnquantised(rebuilt.state, config, Contents());
      }
      r := Some(rebuilt);
    }
  }

  lemma NothingHeld(s: State, c: Config)
    requires StateOk(s, c) && !s.trained && Held(s, c) == map[]
    ensures HoldsRaw(s, c, map[])
  {
  }

  lemma RawKeys(s: State, c: Config, raw: Store)
    requires StateOk(s, c) && HoldsRaw(s, c, raw)
    ensures Held(s, c).Keys == raw.Keys && Uniform(raw, c.dim)
  {
  }

  /** The part of a map under the ids copied so far. */
  ghost function Copied(source: Store, ids: seq<VecId>): (m: Store)
    ensures m.Keys <= source.Keys
  {
    map id | id in source && id in ids :: source[id]
  }

  lemma CopyStep(source: Store, ids: seq<VecId>, i: nat)
    requires i < |ids| && ids[i] in source
    ensures Copied(source, ids[..i + 1]) == With(Copied(source, ids[..i]), ids[i], source[ids[i]])
  {
    assert ids[..i + 1] == ids[..i] + [ids[i]];
  }

  lemma WholeCopy(source: Store, ids: seq<VecId>)
    requires Elements(ids) == source.Keys
    ensures Copied(source, ids) == source
  {
    forall id | id in source ensures id in ids { assert id in Elements(ids); }
  }

  /** Insert every listed vector of `source` into the empty `target`. */
  method CopyAll(source: IvfIndex, ids: seq<VecId>, target: IvfIndex, splits: nat -> Split)
    requires source.Valid() && target.Valid() && source != target && target.config == source.config
    requires Elements(ids) == source.Contents().Keys && HoldsRaw(target.state, target.config, map[])
    modifies target
    ensures target.Valid() && HoldsRaw(target.state, target.config, Copied(source.Contents(), ids))
  {
    hide Held, StateOk, HoldsRaw, Inserted;
    assert Copied(source.Contents(), []) == map[];
    for i := 0 to |ids|
      invariant target.Valid() && HoldsRaw(target.state, target.config, Copied(source.Contents(), ids[..i]))
    {
      assert ids[i] in Elements(ids);
      var vec := source.Get(ids[i]);
      ghost var before := target.state;
      var _ := target.Insert(ids[i], vec.value, splits);
      RawInsert(before, target.state, target.config, ids[i], vec.value, Copied(source.Contents(), ids[..i]));
      CopyStep(source.Contents(), ids, i);
    }
    assert ids[..|ids|] == ids;
  }
}
