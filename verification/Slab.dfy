/**
 * A table of rows stored the way every index stores vectors: `ids[i]` owns
 * `slab[i*dim .. (i+1)*dim]`. The lemmas show that appending, overwriting a slice and
 * swap-removing on the raw slab are the same three operations on the list of rows, and
 * that on the id-to-row map they are insert, update and remove.
 */
module Slab {
  import opened Core

  /** Start of row `i`: the product `i * dim`, written as a sum so that proofs stay linear. */
  function Offset(i: nat, dim: nat): nat {
    if i == 0 then 0 else Offset(i - 1, dim) + dim
  }

  lemma {:induction false} OffsetIsProduct(i: nat, dim: nat)
    ensures Offset(i, dim) == i * dim
  {
    if i > 0 {
      OffsetIsProduct(i - 1, dim);
      assert (i - 1) * dim + dim == i * dim;
    }
  }

  /** Row `i` of a slab of `n > i` rows lies inside it. */
  lemma {:induction false} RowBounds(n: nat, dim: nat, i: nat)
    requires i < n
    ensures Offset(i, dim) + dim == Offset(i + 1, dim) <= Offset(n, dim)
  {
    if i < n - 1 { RowBounds(n - 1, dim, i); }
  }

  lemma {:induction false} OffsetsGrow(n: nat, dim: nat)
    ensures forall i | 0 <= i <= n :: Offset(i, dim) <= Offset(n, dim)
  {
    if n > 0 { OffsetsGrow(n - 1, dim); }
  }

  function Row<T>(slab: seq<T>, dim: nat, i: nat): (row: seq<T>)
    requires Offset(i + 1, dim) <= |slab|
    ensures |row| == dim
  {
    slab[Offset(i, dim)..Offset(i, dim) + dim]
  }

  /** The slab cut into `n` rows. */
  function Rows<T>(slab: seq<T>, dim: nat, n: nat): (rows: seq<seq<T>>)
    requires |slab| == Offset(n, dim)
    ensures |rows| == n
    ensures forall i | 0 <= i < n :: Offset(i + 1, dim) <= |slab| && rows[i] == Row(slab, dim, i)
    decreases n
  {
    if n == 0 then []
    else
      var init := Rows(slab[..Offset(n - 1, dim)], dim, n - 1);
      OffsetsGrow(n, dim);
      assert forall i | 0 <= i < n - 1 :: init[i] == Row(slab, dim, i);
      init + [Row(slab, dim, n - 1)]
  }

  /** `copy_from_slice` into row `p`. */
  function Overwrite<T>(slab: seq<T>, dim: nat, p: nat, row: seq<T>): (r: seq<T>)
    requires Offset(p + 1, dim) <= |slab| && |row| == dim
    ensures |r| == |slab|
  {
    slab[..Offset(p, dim)] + row + slab[Offset(p, dim) + dim..]
  }

  /** Move the last row into row `p` (unless it is the last) and truncate. */
  function SwapRemoveRow<T>(slab: seq<T>, dim: nat, n: nat, p: nat): (r: seq<T>)
    requires |slab| == Offset(n, dim) && p < n
    ensures |r| == Offset(n - 1, dim)
  {
    RowBounds(n, dim, p);
    var last := Offset(n - 1, dim);
    (if p != n - 1 then Overwrite(slab, dim, p, slab[last..]) else slab)[..last]
  }

  /** `Vec::swap_remove`. */
  function SwapRemove<T>(s: seq<T>, p: nat): (r: seq<T>)
    requires p < |s|
    ensures |r| == |s| - 1
    ensures forall i | 0 <= i < |r| :: r[i] == if i == p then s[|s| - 1] else s[i]
  {
    if p == |s| - 1 then s[..p] else s[..p] + [s[|s| - 1]] + s[p + 1..|s| - 1]
  }

  lemma RowsAppend<T>(slab: seq<T>, dim: nat, n: nat, row: seq<T>)
    requires |slab| == Offset(n, dim) && |row| == dim
    ensures |slab + row| == Offset(n + 1, dim)
    ensures Rows(slab + row, dim, n + 1) == Rows(slab, dim, n) + [row]
  {
    assert (slab + row)[..Offset(n, dim)] == slab;
    assert Row(slab + row, dim, n) == row;
  }

  lemma RowsOverwrite<T>(slab: seq<T>, dim: nat, n: nat, p: nat, row: seq<T>)
    requires |slab| == Offset(n, dim) && |row| == dim && p < n
    requires Offset(p + 1, dim) <= |slab|
    ensures Rows(Overwrite(slab, dim, p, row), dim, n) == Rows(slab, dim, n)[p := row]
  {
    var after := Rows(Overwrite(slab, dim, p, row), dim, n);
    forall i | 0 <= i < n
      ensures after[i] == Rows(slab, dim, n)[p := row][i]
    {
      RowBounds(n, dim, i);
      OverwriteRow(slab, dim, n, p, row, i);
    }
  }

  /** Overwriting row `p` replaces that row and no other. */
  lemma OverwriteRow<T>(slab: seq<T>, dim: nat, n: nat, p: nat, row: seq<T>, i: nat)
    requires |slab| == Offset(n, dim) && |row| == dim && p < n && i < n
    requires Offset(p + 1, dim) <= |slab| && Offset(i + 1, dim) <= |slab|
    ensures Row(Overwrite(slab, dim, p, row), dim, i) == if i == p then row else Row(slab, dim, i)
  {
    if i < p {
      RowBounds(p, dim, i);
    } else if i > p {
      RowBounds(i, dim, p);
    }
  }

  /** Dropping the last row of a slab drops the last row. */
  lemma RowsTruncate<T>(slab: seq<T>, dim: nat, n: nat)
    requires |slab| == Offset(n, dim) && n > 0
    ensures Rows(slab[..Offset(n - 1, dim)], dim, n - 1) == Rows(slab, dim, n)[..n - 1]
  {
  }

  /** The slab swap-remove is the list swap-remove on rows. */
  lemma RowsSwapRemove<T>(slab: seq<T>, dim: nat, n: nat, p: nat)
    requires |slab| == Offset(n, dim) && p < n
    ensures Rows(SwapRemoveRow(slab, dim, n, p), dim, n - 1) == SwapRemove(Rows(slab, dim, n), p)
  {
    RowBounds(n, dim, p);
    var rows := Rows(slab, dim, n);
    if p != n - 1 {
      var moved := slab[Offset(n - 1, dim)..];
      assert moved == rows[n - 1];
      RowsOverwrite(slab, dim, n, p, moved);
      RowsTruncate(Overwrite(slab, dim, p, moved), dim, n);
      assert rows[p := moved][..n - 1] == SwapRemove(rows, p);
    } else {
      RowsTruncate(slab, dim, n);
    }
  }

  // --- The table as a map ------------------------------------------------------------

  ghost function Table<V>(ids: seq<VecId>, rows: seq<V>): (m: map<VecId, V>)
    requires |ids| == |rows|
    ensures m.Keys == Elements(ids)
  {
    if ids == [] then map[]
    else
      var n := |ids| - 1;
      var m := Table(ids[..n], rows[..n])[ids[n] := rows[n]];
      assert Elements(ids) == Elements(ids[..n]) + {ids[n]};
      m
  }

  /** With distinct ids, row `i` is what the table holds for id `i`. */
  lemma {:induction false} TableAt<V>(ids: seq<VecId>, rows: seq<V>, i: nat)
    requires |ids| == |rows| && Distinct(ids) && i < |ids|
    ensures ids[i] in Table(ids, rows) && Table(ids, rows)[ids[i]] == rows[i]
  {
    var n := |ids| - 1;
    if i < n {
      TableAt(ids[..n], rows[..n], i);
      assert ids[i] in ids[..n];
    }
  }

  lemma TablePush<V>(ids: seq<VecId>, rows: seq<V>, id: VecId, row: V)
    requires |ids| == |rows| && Distinct(ids) && id !in ids
    ensures Distinct(ids + [id])
    ensures Table(ids + [id], rows + [row]) == Table(ids, rows)[id := row]
  {
    assert (ids + [id])[..|ids|] == ids && (rows + [row])[..|ids|] == rows;
  }

  lemma {:induction false} TableOverwrite<V>(ids: seq<VecId>, rows: seq<V>, p: nat, row: V)
    requires |ids| == |rows| && Distinct(ids) && p < |ids|
    ensures Table(ids, rows[p := row]) == Table(ids, rows)[ids[p] := row]
  {
    var n := |ids| - 1;
    if p < n {
      TableOverwrite(ids[..n], rows[..n], p, row);
      assert rows[p := row][..n] == rows[..n][p := row];
      assert ids[p] in ids[..n];
    } else {
      assert rows[p := row][..n] == rows[..n];
    }
  }

  /** Swap-remove keeps a duplicate-free list duplicate-free and drops exactly the element at `p`. */
  lemma SwapRemoveElements<T>(s: seq<T>, p: nat)
    requires Distinct(s) && p < |s|
    ensures Distinct(SwapRemove(s, p))
    ensures Elements(SwapRemove(s, p)) == Elements(s) - {s[p]}
  {
    var s' := SwapRemove(s, p);
    DistinctPairs(s);
    assert Distinct(s') by { DistinctPairs(s'); }
    forall x | x in s' ensures x in s && x != s[p] {
      var i :| 0 <= i < |s'| && s'[i] == x;
      assert s[if i == p then |s| - 1 else i] == x;
    }
    forall x | x in s && x != s[p] ensures x in s' {
      SwapRemoveKeeps(s, p, x);
    }
  }

  lemma SwapRemoveKeeps<T>(s: seq<T>, p: nat, x: T)
    requires p < |s| && x in s && x != s[p]
    ensures x in SwapRemove(s, p)
  {
    var i :| 0 <= i < |s| && s[i] == x;
    assert SwapRemove(s, p)[if i == |s| - 1 then p else i] == x;
  }

  lemma TableSwapRemove<V>(ids: seq<VecId>, rows: seq<V>, p: nat)
    requires |ids| == |rows| && Distinct(ids) && p < |ids|
    ensures Distinct(SwapRemove(ids, p))
    ensures Table(SwapRemove(ids, p), SwapRemove(rows, p)) == Table(ids, rows) - {ids[p]}
  {
    SwapRemoveElements(ids, p);
    var ids', rows' := SwapRemove(ids, p), SwapRemove(rows, p);
    forall x | x in ids' ensures Table(ids', rows')[x] == Table(ids, rows)[x] {
      var i :| 0 <= i < |ids'| && ids'[i] == x;
      TableAt(ids', rows', i);
      TableAt(ids, rows, if i == p then |ids| - 1 else i);
    }
  }
}
