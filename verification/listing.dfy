/** The shape shared by the list queries: select the visible rows, order them by the chosen
    column, then by text-search rank descending, then by a tie-breaking column descending,
    and cut out the page that LIMIT and OFFSET name. */
module Listing {

  datatype Direction = Asc | Desc

  /** The ORDER BY key of one row: the sort column, the rank, the tie-breaker. */
  datatype Key = Key(column: int, rank: int, tie: int)

  /** May a row with key `a` come before one with key `b` under
      `ORDER BY column dir, rank DESC, tie DESC`? */
  predicate Le(a: Key, b: Key, dir: Direction) {
    if a.column != b.column then (if dir == Asc then a.column < b.column else a.column > b.column)
    else if a.rank != b.rank then a.rank > b.rank
    else a.tie >= b.tie
  }

  predicate Sorted(xs: seq<nat>, key: nat -> Key, dir: Direction) {
    forall i, j :: 0 <= i < j < |xs| ==> Le(key(xs[i]), key(xs[j]), dir)
  }

  predicate Distinct<T(==)>(xs: seq<T>) {
    forall i, j :: 0 <= i < j < |xs| ==> xs[i] != xs[j]
  }

  /** `x` placed into a sorted sequence in front of the first element it may precede. */
  function InsertSorted(x: nat, xs: seq<nat>, key: nat -> Key, dir: Direction): (r: seq<nat>)
    requires Sorted(xs, key, dir)
    ensures Sorted(r, key, dir)
    ensures multiset(r) == multiset(xs) + multiset{x}
    ensures |r| == |xs| + 1
  {
    if xs == [] then [x]
    else if Le(key(x), key(xs[0]), dir) then
      assert forall j :: 0 < j < |xs| ==> Le(key(xs[0]), key(xs[j]), dir);
      [x] + xs
    else
      var rest := InsertSorted(x, xs[1..], key, dir);
      assert xs == [xs[0]] + xs[1..];
      assert multiset(rest) == multiset(xs[1..]) + multiset{x};
      assert forall j :: 0 <= j < |rest| ==> Le(key(xs[0]), key(rest[j]), dir) by {
        forall j | 0 <= j < |rest| ensures Le(key(xs[0]), key(rest[j]), dir) {
          assert rest[j] in multiset(rest);
          if rest[j] == x {
          } else {
            assert rest[j] in multiset(xs[1..]);
            var k :| 0 <= k < |xs[1..]| && xs[1..][k] == rest[j];
            assert xs[k + 1] == rest[j];
          }
        }
      }
      [xs[0]] + rest
  }

  /** The rows in the query's order; rows with equal keys may come in either order. */
  function Sort(xs: seq<nat>, key: nat -> Key, dir: Direction): (r: seq<nat>)
    ensures Sorted(r, key, dir)
    ensures multiset(r) == multiset(xs)
  {
    if xs == [] then []
    else
      assert xs == [xs[0]] + xs[1..];
      InsertSorted(xs[0], Sort(xs[1..], key, dir), key, dir)
  }

  /** `LIMIT limit OFFSET offset`. */
  function Page(xs: seq<nat>, limit: nat, offset: nat): (p: seq<nat>)
    ensures |p| == if offset >= |xs| then 0 else if limit < |xs| - offset then limit else |xs| - offset
    ensures forall i :: 0 <= i < |p| ==> p[i] == xs[offset + i]
  {
    if offset >= |xs| then []
    else if limit < |xs| - offset then xs[offset..offset + limit]
    else xs[offset..]
  }

  /** A sequence without repeats has the elements of a set exactly when it is a listing of
      that set. */
  predicate Enumerates<T(==)>(xs: seq<T>, s: set<T>) {
    Distinct(xs) && (forall i :: 0 <= i < |xs| ==> xs[i] in s) && (forall x :: x in s ==> x in xs)
  }

  /** The elements of a set, each once, in the order a scan happens to meet them. */
  method Elements<T(==)>(s: set<T>) returns (xs: seq<T>)
    ensures Enumerates(xs, s)
  {
    xs := [];
    var remaining := s;
    while remaining != {}
      invariant remaining <= s
      invariant Distinct(xs)
      invariant forall x :: x in xs <==> x in s && x !in remaining
      decreases |remaining|
    {
      var x :| x in remaining;
      xs := xs + [x];
      remaining := remaining - {x};
    }
  }

  /** Sorting a listing of a set keeps it a listing of the set. */
  lemma SortEnumerates(xs: seq<nat>, s: set<nat>, key: nat -> Key, dir: Direction)
    requires Enumerates(xs, s)
    ensures Enumerates(Sort(xs, key, dir), s)
  {
    var r := Sort(xs, key, dir);
    forall x ensures x in r <==> x in s {
      assert x in r <==> x in multiset(r);
      assert x in xs <==> x in multiset(xs);
    }
    forall i, j | 0 <= i < j < |r| ensures r[i] != r[j] {
      MultisetDistinct(xs, r[i]);
      RepeatCounts(r, i, j);
    }
  }

  /** An element at two positions occurs at least twice. */
  lemma RepeatCounts(r: seq<nat>, i: nat, j: nat)
    requires i < j < |r|
    ensures r[i] == r[j] ==> multiset(r)[r[i]] >= 2
  {
    assert r == r[..j] + [r[j]] + r[j + 1..];
    assert r[..j][i] == r[i];
    assert r[i] in multiset(r[..j]);
  }

  /** In a sequence without repeats every element occurs once. */
  lemma {:induction false} MultisetDistinct(xs: seq<nat>, x: nat)
    requires Distinct(xs)
    ensures multiset(xs)[x] <= 1
    decreases |xs|
  {
    if xs != [] {
      assert xs == [xs[0]] + xs[1..];
      assert Distinct(xs[1..]) by {
        forall i, j | 0 <= i < j < |xs[1..]| ensures xs[1..][i] != xs[1..][j] {
          assert xs[1..][i] == xs[i + 1] && xs[1..][j] == xs[j + 1];
        }
      }
      MultisetDistinct(xs[1..], x);
      if xs[0] == x {
        assert x !in xs[1..] by {
          forall k | 0 <= k < |xs[1..]| ensures xs[1..][k] != x {
            assert xs[1..][k] == xs[k + 1];
          }
        }
      }
    }
  }
}
