/** The brute-force index: one contiguous slab, overwritten, swap-removed and scanned in place. */
module Flat {
  import opened Core
  import opened Slab
  import opened TopK
  import opened Contents

  class FlatIndex {
    const dim: nat
    const dist: Distance
    var ids: seq<VecId>
    var data: seq<real>

    ghost predicate Valid()
      reads this
    {
      IsTable(ids, data, dim)
    }

    /** The id-to-vector map this index stands for. */
    ghost function Contents(): (m: Store)
      requires Valid()
      reads this
      ensures Uniform(m, dim)
    {
      StoreOf(ids, data, dim)
    }

    constructor (dim: nat, dist: Distance)
      ensures Valid() && Contents() == map[]
      ensures this.dim == dim && this.dist == dist
    {
      this.dim, this.dist := dim, dist;
      ids, data := [], [];
    }

    method Get(id: VecId) returns (r: Option<Vector>)
      requires Valid()
      ensures r == Lookup(Contents(), id)
    {
      var pos := Position(ids, id);
      if pos.Some? {
        StoreAt(ids, data, dim, pos.value);
        r := Some(Row(data, dim, pos.value));
      } else {
        r := None;
      }
    }

    method Insert(id: VecId, vec: Vector) returns (r: Result<()>)
      requires Valid()
      modifies this
      ensures Valid()
      ensures |vec| != dim ==> r == Err(DimMismatch(dim, |vec|)) && Contents() == old(Contents())
      ensures |vec| == dim ==> r == Ok(()) && Contents() == old(Contents())[id := vec]
    {
      if |vec| != dim {
        return Err(DimMismatch(dim, |vec|));
      }
      var pos := Position(ids, id);
      if pos.Some? {
        StoreOverwrite(ids, data, dim, pos.value, vec);
        data := Overwrite(data, dim, pos.value, vec);
      } else {
        StorePush(ids, data, dim, id, vec);
        ids := ids + [id];
        data := data + vec;
      }
      return Ok(());
    }

    method Delete(id: VecId) returns (existed: bool)
      requires Valid()
      modifies this
      ensures Valid()
      ensures existed <==> id in old(Contents())
      ensures Contents() == old(Contents()) - {id}
    {
      var pos := Position(ids, id);
      if pos.None? {
        return false;
      }
      StoreSwapRemove(ids, data, dim, pos.value);
      data := SwapRemoveRow(data, dim, |ids|, pos.value);
      ids := SwapRemove(ids, pos.value);
      return true;
    }

    /**
     * The parallel scan; `split` is the scheduler's choice. Scanning rows of dimension zero makes the
     * program's chunking panic, so a search that would get that far is excluded.
     */
    method Search(query: Vector, k: nat, filter: Filter, split: Split) returns (r: Result<seq<Scored>>)
      requires Valid() && (dim > 0 || |query| != dim || k == 0 || Contents() == map[])
      ensures |query| != dim ==> r == Err(DimMismatch(dim, |query|))
      ensures |query| == dim ==> r.Ok? && Answers(r.value, Contents(), query, dist, filter, k)
    {
      if |query| != dim {
        return Err(DimMismatch(dim, |query|));
      }
      if k == 0 || |ids| == 0 {
        EmptyAnswers(Contents(), query, dist, filter, k);
        return Ok([]);
      }
      var rows := Entries(ids, data, dim);
      StoreGroupHits(ids, data, dim, query, dist, filter);
      var results := ParallelSearch(Singletons(rows), split, query, dist, filter, k);
      return Ok(results);
    }

    method Len() returns (n: nat)
      requires Valid()
      ensures n == |Contents()|
    {
      StoreSize(ids, data, dim);
      n := |ids|;
    }

    method ListIds() returns (r: seq<VecId>)
      requires Valid()
      ensures Distinct(r) && Elements(r) == Contents().Keys
    {
      r := ids;
    }
  }
}
