/** Types shared by every component: ids, vectors, distances, filters and errors. */
module Core {

  datatype Option<+T> = None | Some(value: T)

  datatype Error =
    | DimMismatch(expected: nat, got: nat)
    | CollectionNotFound(name: string)
    | CollectionAlreadyExists(name: string)
    | InvalidArgument

  datatype Result<+T> = Ok(value: T) | Err(error: Error)

  /** `u64` in the program; ids are only ever compared, never computed with. */
  type VecId = nat

  /** A vector of `f32` components, read as real numbers. */
  type Vector = seq<real>

  /** A metric: lower means more similar. Neither symmetry nor the triangle inequality is assumed. */
  type Distance = (Vector, Vector) -> real

  /** An optional predicate over ids. */
  type Filter = Option<VecId -> bool>

  /** The largest finite `f32`. */
  const F32_MAX: real := 340282346638528859811704183484516925440.0

  /** 24 significant bits and the exponent 104. */
  lemma LargestF32()
    ensures F32_MAX == 16777215.0 * (4294967296.0 * 4294967296.0 * 4294967296.0 * 256.0)
  {
  }

  const U64_MAX: nat := 0xFFFF_FFFF_FFFF_FFFF

  type U64 = n: int | 0 <= n <= U64_MAX

  predicate Passes(filter: Filter, id: VecId) {
    filter.None? || filter.value(id)
  }

  function Min(a: nat, b: nat): nat {
    if a < b then a else b
  }

  /** No element occurs twice. */
  ghost predicate Distinct<T>(s: seq<T>) {
    s == [] || (s[|s| - 1] !in s[..|s| - 1] && Distinct(s[..|s| - 1]))
  }

  lemma {:induction false} DistinctPairs<T>(s: seq<T>)
    ensures Distinct(s) <==> forall i, j | 0 <= i < j < |s| :: s[i] != s[j]
  {
    if s != [] {
      var front := s[..|s| - 1];
      DistinctPairs(front);
      assert forall i | 0 <= i < |front| :: front[i] == s[i];
    }
  }

  /** The elements of `s` as a set. */
  ghost function Elements<T>(s: seq<T>): set<T> {
    set x | x in s
  }

  lemma {:induction false} DistinctPrefix<T>(s: seq<T>, n: nat)
    requires Distinct(s) && n <= |s|
    ensures Distinct(s[..n])
  {
    if n < |s| {
      var front := s[..|s| - 1];
      DistinctPrefix(front, n);
      assert front[..n] == s[..n];
    } else {
      assert s[..n] == s;
    }
  }

  /** A duplicate-free sequence has as many elements as positions. */
  lemma {:induction false} DistinctCardinality<T>(s: seq<T>)
    requires Distinct(s)
    ensures |Elements(s)| == |s|
  {
    if s != [] {
      var front := s[..|s| - 1];
      DistinctCardinality(front);
      assert Elements(s) == Elements(front) + {s[|s| - 1]};
    }
  }

  /** A subset with as many elements as the whole is the whole. */
  lemma SubsetOfSameSize<T>(a: set<T>, b: set<T>)
    requires a <= b && |a| >= |b|
    ensures a == b
  {
    assert |b - a| == |b| - |a|;
  }

  lemma SubsetIsSmaller<T>(a: set<T>, b: set<T>)
    requires a <= b
    ensures |a| <= |b|
  {
    assert |b - a| == |b| - |a|;
  }

  /** A finite set of naturals below `n` has at most `n` elements. */
  lemma {:induction false} BoundedSetSize(s: set<nat>, n: nat)
    requires forall x | x in s :: x < n
    ensures |s| <= n
  {
    if n == 0 {
      assert s == {};
    } else {
      BoundedSetSize(s - {n - 1}, n - 1);
    }
  }

  /** Index of the first occurrence of `id`. */
  function Position<T(==)>(s: seq<T>, x: T): (r: Option<nat>)
    ensures r.None? <==> x !in s
    ensures r.Some? ==> r.value < |s| && s[r.value] == x && x !in s[..r.value]
  {
    if s == [] then None
    else if s[0] == x then Some(0)
    else
      match Position(s[1..], x)
      case None => None
      case Some(i) => assert s[..i + 1] == [s[0]] + s[1..][..i]; Some(i + 1)
  }

  lemma DistinctPush<T>(s: seq<T>, x: T)
    requires Distinct(s) && x !in s
    ensures Distinct(s + [x]) && Elements(s + [x]) == Elements(s) + {x}
  {
    assert (s + [x])[..|s|] == s;
  }

  /** The elements of a set in some order, as iterating over a hash set or map yields them. */
  method ListSet<T(==)>(s: set<T>) returns (r: seq<T>)
    ensures Distinct(r) && Elements(r) == s
  {
    r := [];
    var left := s;
    while left != {}
      invariant Distinct(r) && Elements(r) + left == s && Elements(r) !! left
      decreases left
    {
      var x :| x in left;
      assert x !in Elements(r);
      DistinctPush(r, x);
      r, left := r + [x], left - {x};
    }
  }
}
