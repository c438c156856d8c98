/**
 * The posting lists of a trained IVF index: which list holds which id, and the vectors they hold,
 * either as `f32` slabs or as slabs of SQ8 codes.
 */
module Postings {
  import opened Core
  import opened Slab
  import opened TopK
  import opened Contents
  import opened Sq8

  /** One bucket. `data` is used without quantisation, `codes` with it. */
  datatype PostingList = PostingList(ids: seq<VecId>, data: seq<real>, codes: seq<Code>) {

    function Push(id: VecId, vec: Vector): PostingList {
      this.(ids := ids + [id], data := data + vec)
    }

    function PushCodes(id: VecId, c: seq<Code>): PostingList {
      this.(ids := ids + [id], codes := codes + c)
    }

    /** Swap-remove `id` from the `f32` slab. */
    function RemoveById(id: VecId, dim: nat): PostingList
      requires |data| == Offset(|ids|, dim)
    {
      match Position(ids, id)
      case None => this
      case Some(pos) => this.(ids := SwapRemove(ids, pos), data := SwapRemoveRow(data, dim, |ids|, pos))
    }

    /** Swap-remove `id` from the code slab. */
    function RemoveByIdSq8(id: VecId, dim: nat): PostingList
      requires |codes| == Offset(|ids|, dim)
    {
      match Position(ids, id)
      case None => this
      case Some(pos) => this.(ids := SwapRemove(ids, pos), codes := SwapRemoveRow(codes, dim, |ids|, pos))
    }
  }

  const EMPTY_LIST := PostingList([], [], [])

  ghost predicate QuantizerOk(q: Option<Quantizer>, dim: nat) {
    q.Some? ==> WellFormed(q.value, dim)
  }

  /** Slab length is `ids * dim` in the slab in use, the other slab is empty, and ids are distinct. */
  ghost predicate ListOk(l: PostingList, dim: nat, q: Option<Quantizer>) {
    if q.None? then IsTable(l.ids, l.data, dim) && l.codes == []
    else IsTable(l.ids, l.codes, dim) && l.data == []
  }

  ghost function Decoded(q: Quantizer, m: map<VecId, seq<Code>>, dim: nat): (r: Store)
    requires WellFormed(q, dim) && forall id | id in m :: |m[id]| == dim
    ensures r.Keys == m.Keys && Uniform(r, dim)
    ensures forall id | id in m :: r[id] == Decode(q, m[id])
  {
    map id | id in m :: Decode(q, m[id])
  }

  /** The vectors one list yields. */
  ghost function ListStore(l: PostingList, dim: nat, q: Option<Quantizer>): (r: Store)
    requires ListOk(l, dim, q) && QuantizerOk(q, dim)
    ensures r.Keys == Elements(l.ids) && Uniform(r, dim)
  {
    if q.None? then StoreOf(l.ids, l.data, dim) else Decoded(q.value, StoreOf(l.ids, l.codes, dim), dim)
  }

  /** What reading back a stored vector gives: itself, or its quantised form. */
  function Stored(q: Option<Quantizer>, v: Vector): (r: Vector)
    requires q.Some? ==> WellFormed(q.value, |v|)
    ensures |r| == |v|
  {
    if q.None? then v else Decode(q.value, Encode(q.value, v))
  }

  function PushStored(l: PostingList, id: VecId, v: Vector, q: Option<Quantizer>): PostingList
    requires q.Some? ==> WellFormed(q.value, |v|)
  {
    if q.None? then l.Push(id, v) else l.PushCodes(id, Encode(q.value, v))
  }

  function RemoveStored(l: PostingList, id: VecId, dim: nat, q: Option<Quantizer>): PostingList
    requires q.None? ==> |l.data| == Offset(|l.ids|, dim)
    requires q.Some? ==> |l.codes| == Offset(|l.ids|, dim)
  {
    if q.None? then l.RemoveById(id, dim) else l.RemoveByIdSq8(id, dim)
  }

  lemma ListPush(l: PostingList, id: VecId, v: Vector, dim: nat, q: Option<Quantizer>)
    requires ListOk(l, dim, q) && QuantizerOk(q, dim) && |v| == dim && id !in l.ids
    ensures ListOk(PushStored(l, id, v, q), dim, q)
    ensures ListStore(PushStored(l, id, v, q), dim, q) == ListStore(l, dim, q)[id := Stored(q, v)]
  {
    if q.None? {
      StorePush(l.ids, l.data, dim, id, v);
    } else {
      StorePush(l.ids, l.codes, dim, id, Encode(q.value, v));
    }
  }

  lemma ListRemoveF32(l: PostingList, id: VecId, dim: nat)
    requires ListOk(l, dim, None) && id in l.ids
    ensures ListOk(l.RemoveById(id, dim), dim, None)
    ensures ListStore(l.RemoveById(id, dim), dim, None) == ListStore(l, dim, None) - {id}
  {
    StoreSwapRemove(l.ids, l.data, dim, Position(l.ids, id).value);
  }

  lemma ListRemoveSq8(l: PostingList, id: VecId, dim: nat, q: Option<Quantizer>)
    requires q.Some? && WellFormed(q.value, dim) && ListOk(l, dim, q) && id in l.ids
    ensures ListOk(l.RemoveByIdSq8(id, dim), dim, q)
    ensures ListStore(l.RemoveByIdSq8(id, dim), dim, q) == ListStore(l, dim, q) - {id}
  {
    StoreSwapRemove(l.ids, l.codes, dim, Position(l.ids, id).value);
    DecodedRemove(q.value, StoreOf(l.ids, l.codes, dim), dim, id);
  }

  lemma DecodedRemove(q: Quantizer, m: map<VecId, seq<Code>>, dim: nat, id: VecId)
    requires WellFormed(q, dim) && forall x | x in m :: |m[x]| == dim
    ensures Decoded(q, m - {id}, dim) == Decoded(q, m, dim) - {id}
  {
  }

  lemma ListRemove(l: PostingList, id: VecId, dim: nat, q: Option<Quantizer>)
    requires ListOk(l, dim, q) && QuantizerOk(q, dim) && id in l.ids
    ensures ListOk(RemoveStored(l, id, dim, q), dim, q)
    ensures ListStore(RemoveStored(l, id, dim, q), dim, q) == ListStore(l, dim, q) - {id}
  {
    if q.None? {
      ListRemoveF32(l, id, dim);
    } else {
      ListRemoveSq8(l, id, dim, q);
    }
  }

  /** The rows of a list as a search sees them: quantised rows are decoded. */
  function ListEntries(l: PostingList, dim: nat, q: Option<Quantizer>): (r: seq<Entry>)
    requires ListOk(l, dim, q) && QuantizerOk(q, dim)
  {
    if q.None? then Entries(l.ids, l.data, dim)
    else Zip(l.ids, DecodeRows(q.value, Rows(l.codes, dim, |l.ids|), dim))
  }

  function DecodeRows(q: Quantizer, rows: seq<seq<Code>>, dim: nat): (r: seq<Vector>)
    requires WellFormed(q, dim) && forall i | 0 <= i < |rows| :: |rows[i]| == dim
    ensures |r| == |rows| && forall i | 0 <= i < |r| :: r[i] == Decode(q, rows[i])
  {
    if rows == [] then []
    else DecodeRows(q, rows[..|rows| - 1], dim) + [Decode(q, rows[|rows| - 1])]
  }

  lemma {:induction false} DecodedTable(ids: seq<VecId>, codes: seq<seq<Code>>, q: Quantizer, dim: nat)
    requires |ids| == |codes| && WellFormed(q, dim) && forall i | 0 <= i < |codes| :: |codes[i]| == dim
    ensures forall id | id in Table(ids, codes) :: |Table(ids, codes)[id]| == dim
    ensures Table(ids, DecodeRows(q, codes, dim)) == Decoded(q, Table(ids, codes), dim)
  {
    TableUniform(ids, codes, dim);
    if ids != [] {
      var n := |ids| - 1;
      DecodedTable(ids[..n], codes[..n], q, dim);
      assert DecodeRows(q, codes, dim)[..n] == DecodeRows(q, codes[..n], dim);
    }
  }

  lemma ListHits(l: PostingList, dim: nat, q: Option<Quantizer>, query: Vector, dist: Distance, filter: Filter)
    requires ListOk(l, dim, q) && QuantizerOk(q, dim)
    ensures Hits(ListEntries(l, dim, q), query, dist, filter) == MapHits(ListStore(l, dim, q), query, dist, filter)
  {
    if q.None? {
      StoreHits(l.ids, l.data, dim, query, dist, filter);
    } else {
      var codes := Rows(l.codes, dim, |l.ids|);
      assert StoreOf(l.ids, l.codes, dim) == Table(l.ids, codes);
      DecodedTable(l.ids, codes, q.value, dim);
      ScanHits(l.ids, DecodeRows(q.value, codes, dim), query, dist, filter);
    }
  }

  // --- All lists together ----------------------------------------------------------------

  /** The map each list stands for. */
  ghost function Views(lists: seq<PostingList>, dim: nat, q: Option<Quantizer>): (views: seq<Store>)
    requires QuantizerOk(q, dim) && forall c | 0 <= c < |lists| :: ListOk(lists[c], dim, q)
    ensures |views| == |lists|
    ensures forall c | 0 <= c < |lists| :: views[c] == ListStore(lists[c], dim, q)
  {
    if lists == [] then []
    else
      var front := Views(lists[..|lists| - 1], dim, q);
      front + [ListStore(lists[|lists| - 1], dim, q)]
  }

  /** Replacing list `c` replaces its view. */
  lemma ViewsUpdate(lists: seq<PostingList>, dim: nat, q: Option<Quantizer>, c: nat, l: PostingList)
    requires QuantizerOk(q, dim) && forall i | 0 <= i < |lists| :: ListOk(lists[i], dim, q)
    requires c < |lists| && ListOk(l, dim, q)
    ensures var updated := lists[c := l]; forall i | 0 <= i < |updated| :: ListOk(updated[i], dim, q)
    ensures Views(lists[c := l], dim, q) == Views(lists, dim, q)[c := ListStore(l, dim, q)]
  {
    var before, after := Views(lists, dim, q), Views(lists[c := l], dim, q);
    forall i | 0 <= i < |lists| ensures after[i] == before[c := ListStore(l, dim, q)][i] {
      assert after[i] == ListStore(lists[c := l][i], dim, q);
    }
  }

  /** Each id occurs in exactly the part `home` names. */
  ghost predicate Partition(parts: seq<Store>, home: map<VecId, nat>) {
    && (forall id | id in home :: home[id] < |parts|)
    && (forall c, id | 0 <= c < |parts| :: Homed(parts, home, c, id))
  }

  /** The union of the parts. */
  ghost function Merge(parts: seq<Store>, home: map<VecId, nat>): (r: Store)
    requires Partition(parts, home)
    ensures r.Keys == home.Keys
    ensures forall id | id in home :: id in parts[home[id]] && r[id] == parts[home[id]][id]
  {
    assert forall id | id in home :: Homed(parts, home, home[id], id);
    map id | id in home :: parts[home[id]][id]
  }

  /** `id` lies in part `c` and nowhere else. */
  ghost predicate Homed(parts: seq<Store>, home: map<VecId, nat>, c: nat, id: VecId)
    requires c < |parts|
  {
    id in parts[c] <==> id in home && home[id] == c
  }

  lemma PartitionPush(parts: seq<Store>, home: map<VecId, nat>, c: nat, id: VecId, v: Vector)
    requires Partition(parts, home) && c < |parts| && id !in home
    ensures Partition(parts[c := With(parts[c], id, v)], home[id := c])
    ensures Merge(parts[c := With(parts[c], id, v)], home[id := c]) == Merge(parts, home)[id := v]
  {
    var part := With(parts[c], id, v);
    var parts', home' := parts[c := part], home[id := c];
    forall d, x | 0 <= d < |parts'| ensures Homed(parts', home', d, x) {
      assert Homed(parts, home, d, x);
    }
    var m := Merge(parts', home');
    forall x | x in m ensures m[x] == Merge(parts, home)[id := v][x] { }
  }

  lemma PartitionRemove(parts: seq<Store>, home: map<VecId, nat>, id: VecId)
    requires Partition(parts, home) && id in home
    ensures Partition(parts[home[id] := Without(parts[home[id]], id)], home - {id})
    ensures Merge(parts[home[id] := Without(parts[home[id]], id)], home - {id}) == Merge(parts, home) - {id}
  {
    var part := Without(parts[home[id]], id);
    var parts', home' := parts[home[id] := part], home - {id};
    forall d, x | 0 <= d < |parts'| ensures Homed(parts', home', d, x) {
      assert Homed(parts, home, d, x);
    }
    var m := Merge(parts', home');
    forall x | x in m ensures m[x] == Merge(parts, home)[x] { }
  }

  // --- Scanning the probed lists ------------------------------------------------------------

  /** The part of the contents that lies in the probed lists. */
  ghost function Restrict(m: Store, home: map<VecId, nat>, probe: seq<nat>): (r: Store)
    requires m.Keys == home.Keys
  {
    map id | id in m && home[id] in probe :: m[id]
  }

  /** The rows of every list. */
  function Scans(lists: seq<PostingList>, dim: nat, q: Option<Quantizer>): (scans: seq<seq<Entry>>)
    requires QuantizerOk(q, dim) && forall c | 0 <= c < |lists| :: ListOk(lists[c], dim, q)
    ensures |scans| == |lists|
    ensures forall c | 0 <= c < |lists| :: scans[c] == ListEntries(lists[c], dim, q)
  {
    hide ListOk, QuantizerOk, ListEntries;
    if lists == [] then []
    else
      var front := Scans(lists[..|lists| - 1], dim, q);
      front + [ListEntries(lists[|lists| - 1], dim, q)]
  }

  /** The probed lists, in probe order. */
  function Pick(scans: seq<seq<Entry>>, probe: seq<nat>): (groups: seq<seq<Entry>>)
    requires forall i | 0 <= i < |probe| :: probe[i] < |scans|
  {
    if probe == [] then [] else Pick(scans, probe[..|probe| - 1]) + [scans[probe[|probe| - 1]]]
  }

  /** Probing distinct lists hits exactly the contents restricted to them. */
  lemma {:induction false} ProbeHits(parts: seq<Store>, home: map<VecId, nat>, scans: seq<seq<Entry>>, probe: seq<nat>,
                                     query: Vector, dist: Distance, filter: Filter)
    requires Partition(parts, home) && |scans| == |parts|
    requires forall c | 0 <= c < |parts| ::
              Hits(scans[c], query, dist, filter) == MapHits(parts[c], query, dist, filter)
    requires Distinct(probe) && forall i | 0 <= i < |probe| :: probe[i] < |parts|
    ensures GroupHits(Pick(scans, probe), query, dist, filter)
         == MapHits(Restrict(Merge(parts, home), home, probe), query, dist, filter)
  {
    var m := Merge(parts, home);
    if probe == [] {
      assert Restrict(m, home, probe) == map[];
      assert HitSet(map[], query, dist, filter) == {};
    } else {
      var n := |probe| - 1;
      ProbeHits(parts, home, scans, probe[..n], query, dist, filter);
      RestrictLast(parts, home, probe);
      GroupHitsExtend(Pick(scans, probe[..n]), Restrict(m, home, probe[..n]),
                      scans[probe[n]], parts[probe[n]], query, dist, filter);
    }
  }

  lemma GroupHitsExtend(groups: seq<seq<Entry>>, m: Store, last: seq<Entry>, part: Store,
                        query: Vector, dist: Distance, filter: Filter)
    requires m.Keys !! part.Keys
    requires GroupHits(groups, query, dist, filter) == MapHits(m, query, dist, filter)
    requires Hits(last, query, dist, filter) == MapHits(part, query, dist, filter)
    ensures GroupHits(groups + [last], query, dist, filter) == MapHits(m + part, query, dist, filter)
  {
    MapHitsDisjointUnion(m, part, query, dist, filter);
    assert (groups + [last])[..|groups|] == groups;
  }

  /** One more probed list adds exactly that list's map, disjointly. */
  lemma RestrictLast(parts: seq<Store>, home: map<VecId, nat>, probe: seq<nat>)
    requires Partition(parts, home) && probe != []
    requires Distinct(probe) && forall i | 0 <= i < |probe| :: probe[i] < |parts|
    ensures var n := |probe| - 1;
            var front := Restrict(Merge(parts, home), home, probe[..n]);
            front.Keys !! parts[probe[n]].Keys
            && Restrict(Merge(parts, home), home, probe) == front + parts[probe[n]]
  {
    var m := Merge(parts, home);
    var n := |probe| - 1;
    var front, whole := Restrict(m, home, probe[..n]), Restrict(m, home, probe);
    forall id | id in parts[probe[n]] ensures id in home && home[id] == probe[n] && id !in front {
      assert Homed(parts, home, probe[n], id);
    }
    forall id | id in whole ensures id in front || id in parts[probe[n]] {
      assert home[id] in probe[..n] || home[id] == probe[n];
    }
    assert forall id | id in parts[probe[n]] :: home[id] in probe;
  }

  /** Probing every list restricts nothing. */
  lemma RestrictAll(m: Store, home: map<VecId, nat>, probe: seq<nat>, n: nat)
    requires m.Keys == home.Keys && forall id | id in home :: home[id] < n
    requires Distinct(probe) && |probe| == n && forall i | 0 <= i < |probe| :: probe[i] < n
    ensures Restrict(m, home, probe) == m
  {
    AllBelow(probe, n);
  }

  /** `n` distinct numbers below `n` are all of them. */
  lemma AllBelow(probe: seq<nat>, n: nat)
    requires Distinct(probe) && |probe| == n && forall i | 0 <= i < |probe| :: probe[i] < n
    ensures forall c: nat | c < n :: c in probe
  {
    DistinctCardinality(probe);
    forall c: nat | c < n ensures c in probe {
      if c !in probe {
        BoundedSetSize(Elements(probe) + {c}, n);
        assert false;
      }
    }
  }
}
