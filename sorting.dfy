/**
 * Python's built-in `sorted(xs, key=..., reverse=True)`.
 *
 * The builtin is a stable sort: elements whose keys compare equal keep the
 * order they had in the input, also when `reverse=True`. It is modelled as a
 * functional insertion sort that is parameterised by `above`, where
 * `above(a, b)` means "a must come strictly before b" (for `reverse=True`
 * with key `k`, that is `k(a) > k(b)`).
 */
module Sorting {

  /** `above` is a strict weak order: asymmetric, and its complement is transitive. */
  ghost predicate StrictWeakOrder<T(!new)>(above: (T, T) -> bool) {
    && (forall a, b :: above(a, b) ==> !above(b, a))
    && (forall a, b, c :: !above(a, b) && !above(b, c) ==> !above(a, c))
  }

  /** No element ranks strictly above an element that comes before it. */
  ghost predicate Sorted<T>(s: seq<T>, above: (T, T) -> bool) {
    forall i, j :: 0 <= i < j < |s| ==> !above(s[j], s[i])
  }

  /** Every pair of elements at distinct positions, in order, satisfies `rel`. */
  ghost predicate Pairwise<T>(s: seq<T>, rel: (T, T) -> bool) {
    forall i, j :: 0 <= i < j < |s| ==> rel(s[i], s[j])
  }

  /** Places `x` in front of the first element that does not rank strictly above it. */
  function Insert<T>(x: T, s: seq<T>, above: (T, T) -> bool): (r: seq<T>)
    ensures multiset(r) == multiset{x} + multiset(s)
  {
    if s == [] || !above(s[0], x) then [x] + s
    else
      assert s == [s[0]] + s[1..];
      [s[0]] + Insert(x, s[1..], above)
  }

  /** The stable sort: the result is ordered by `above`, ties in input order. */
  function Sort<T>(s: seq<T>, above: (T, T) -> bool): (r: seq<T>)
    ensures multiset(r) == multiset(s)
  {
    if s == [] then []
    else
      assert s == [s[0]] + s[1..];
      Insert(s[0], Sort(s[1..], above), above)
  }

  /** The elements of `s` tied with `v` (neither ranks above the other), in their order in `s`. */
  function Tied<T>(s: seq<T>, v: T, above: (T, T) -> bool): seq<T> {
    if s == [] then []
    else (if !above(s[0], v) && !above(v, s[0]) then [s[0]] else []) + Tied(s[1..], v, above)
  }

  lemma {:induction false} InsertSorted<T(!new)>(x: T, s: seq<T>, above: (T, T) -> bool)
    requires StrictWeakOrder(above)
    requires Sorted(s, above)
    ensures Sorted(Insert(x, s, above), above)
  {
    if s == [] || !above(s[0], x) {
    } else {
      var rest := Insert(x, s[1..], above);
      InsertSorted(x, s[1..], above);
      forall y | y in rest
        ensures !above(y, s[0])
      {
        assert y in multiset(rest);
        if y != x {
          assert y in s[1..];
        }
      }
      var r := [s[0]] + rest;
      forall i, j | 0 <= i < j < |r|
        ensures !above(r[j], r[i])
      {
        if i == 0 {
          assert r[j] in rest;
        } else {
          assert r[i] == rest[i - 1] && r[j] == rest[j - 1];
        }
      }
    }
  }

  /** The sort's result is sorted. */
  lemma {:induction false} SortSorted<T(!new)>(s: seq<T>, above: (T, T) -> bool)
    requires StrictWeakOrder(above)
    ensures Sorted(Sort(s, above), above)
  {
    if s != [] {
      SortSorted(s[1..], above);
      InsertSorted(s[0], Sort(s[1..], above), above);
    }
  }

  lemma {:induction false} TiedCons<T>(x: T, s: seq<T>, v: T, above: (T, T) -> bool)
    ensures Tied([x] + s, v, above)
         == (if !above(x, v) && !above(v, x) then [x] else []) + Tied(s, v, above)
  {
    assert ([x] + s)[0] == x && ([x] + s)[1..] == s;
  }

  lemma {:induction false} InsertStable<T(!new)>(x: T, s: seq<T>, v: T, above: (T, T) -> bool)
    requires StrictWeakOrder(above)
    ensures Tied(Insert(x, s, above), v, above) == Tied([x] + s, v, above)
  {
    if s == [] || !above(s[0], x) {
    } else {
      var y, rest := s[0], s[1..];
      assert s == [y] + rest;
      var tx := if !above(x, v) && !above(v, x) then [x] else [];
      var ty := if !above(y, v) && !above(v, y) then [y] else [];
      // y ranks above x, so y and x are not both tied with v
      assert tx == [] || ty == [];
      calc {
        Tied(Insert(x, s, above), v, above);
        { assert Insert(x, s, above) == [y] + Insert(x, rest, above); }
        Tied([y] + Insert(x, rest, above), v, above);
        { TiedCons(y, Insert(x, rest, above), v, above); }
        ty + Tied(Insert(x, rest, above), v, above);
        { InsertStable(x, rest, v, above); TiedCons(x, rest, v, above); }
        ty + (tx + Tied(rest, v, above));
        tx + (ty + Tied(rest, v, above));
        { TiedCons(y, rest, v, above); }
        tx + Tied(s, v, above);
        { TiedCons(x, s, v, above); }
        Tied([x] + s, v, above);
      }
    }
  }

  lemma {:induction false} SortStableAt<T(!new)>(s: seq<T>, v: T, above: (T, T) -> bool)
    requires StrictWeakOrder(above)
    ensures Tied(Sort(s, above), v, above) == Tied(s, v, above)
  {
    if s != [] {
      SortStableAt(s[1..], v, above);
      InsertStable(s[0], Sort(s[1..], above), v, above);
      TiedCons(s[0], Sort(s[1..], above), v, above);
      TiedCons(s[0], s[1..], v, above);
      assert s == [s[0]] + s[1..];
    }
  }

  /** Stability: for every `v`, the elements tied with `v` keep their relative input order. */
  lemma SortStable<T(!new)>(s: seq<T>, above: (T, T) -> bool)
    requires StrictWeakOrder(above)
    ensures forall v :: Tied(Sort(s, above), v, above) == Tied(s, v, above)
  {
    forall v
      ensures Tied(Sort(s, above), v, above) == Tied(s, v, above)
    {
      SortStableAt(s, v, above);
    }
  }

  lemma {:induction false} InsertPairwise<T>(x: T, s: seq<T>, above: (T, T) -> bool, rel: (T, T) -> bool)
    requires forall a, b :: rel(a, b) ==> rel(b, a)
    requires Pairwise([x] + s, rel)
    ensures Pairwise(Insert(x, s, above), rel)
  {
    if s == [] || !above(s[0], x) {
    } else {
      var rest := Insert(x, s[1..], above);
      assert Pairwise([x] + s[1..], rel) by {
        forall i, j | 0 <= i < j < |[x] + s[1..]|
          ensures rel(([x] + s[1..])[i], ([x] + s[1..])[j])
        {
          if i == 0 {
            assert ([x] + s)[0] == x && ([x] + s)[j + 1] == ([x] + s[1..])[j];
          } else {
            assert ([x] + s)[i + 1] == ([x] + s[1..])[i] && ([x] + s)[j + 1] == ([x] + s[1..])[j];
          }
        }
      }
      InsertPairwise(x, s[1..], above, rel);
      forall y | y in rest
        ensures rel(s[0], y)
      {
        assert y in multiset(rest);
        if y == x {
          assert ([x] + s)[0] == x && ([x] + s)[1] == s[0];
        } else {
          assert y in s[1..];
          var k :| 0 <= k < |s[1..]| && s[1..][k] == y;
          assert ([x] + s)[1] == s[0] && ([x] + s)[k + 2] == y;
        }
      }
      var r := [s[0]] + rest;
      forall i, j | 0 <= i < j < |r|
        ensures rel(r[i], r[j])
      {
        if i == 0 {
          assert r[j] in rest;
        } else {
          assert r[i] == rest[i - 1] && r[j] == rest[j - 1];
        }
      }
    }
  }

  /** Any symmetric relation that holds between all pairs of the input holds between all pairs of the output. */
  lemma {:induction false} SortPairwise<T>(s: seq<T>, above: (T, T) -> bool, rel: (T, T) -> bool)
    requires forall a, b :: rel(a, b) ==> rel(b, a)
    requires Pairwise(s, rel)
    ensures Pairwise(Sort(s, above), rel)
  {
    if s != [] {
      var sorted := Sort(s[1..], above);
      SortPairwise(s[1..], above, rel);
      forall i, j | 0 <= i < j < |[s[0]] + sorted|
        ensures rel(([s[0]] + sorted)[i], ([s[0]] + sorted)[j])
      {
        if i == 0 {
          var y := sorted[j - 1];
          assert y in multiset(s[1..]);
          var k :| 0 <= k < |s[1..]| && s[1..][k] == y;
          assert s[k + 1] == y;
        } else {
          assert ([s[0]] + sorted)[i] == sorted[i - 1] && ([s[0]] + sorted)[j] == sorted[j - 1];
        }
      }
      InsertPairwise(s[0], sorted, above, rel);
    }
  }
}
