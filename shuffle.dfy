/**
 * The shuffle of the memory game: every element is paired with a random
 * sort key, the pairs are sorted by key (a stable sort, as the JavaScript
 * `Array.prototype.sort` is), and the keys are dropped again.
 *
 * The random number generator is not modelled; instead the caller passes
 * `draw`, where `draw(i)` is the key drawn for the element at index `i`.
 * Every property proved below holds whatever `draw` is.
 */
module Shuffle {

  /** An element together with the random key it is sorted by. */
  datatype Keyed<T> = Keyed(value: T, sort: real)

  /**
   * Pairs element `i` of `a` with the key `draw(from + i)`; the shuffle
   * starts at `from == 0`, one draw per element, in order.
   */
  function Decorate<T>(a: seq<T>, draw: nat -> real, from: nat): (d: seq<Keyed<T>>)
    ensures |d| == |a|
  {
    if a == [] then [] else [Keyed(a[0], draw(from))] + Decorate(a[1..], draw, from + 1)
  }

  lemma {:induction false} DecorateAt<T>(a: seq<T>, draw: nat -> real, from: nat, i: int)
    requires 0 <= i < |a|
    ensures Decorate(a, draw, from)[i] == Keyed(a[i], draw(from + i))
  {
    if i > 0 {
      DecorateAt(a[1..], draw, from + 1, i - 1);
    }
  }

  /** Drops the keys again. */
  function Values<T>(d: seq<Keyed<T>>): (r: seq<T>)
    ensures |r| == |d|
  {
    if d == [] then [] else [d[0].value] + Values(d[1..])
  }

  /** The keys never decrease from left to right. */
  predicate SortedByKey<T>(d: seq<Keyed<T>>)
  {
    forall i, j :: 0 <= i < j < |d| ==> d[i].sort <= d[j].sort
  }

  /**
   * Inserts `x` into `d` in front of the first element whose key is not
   * smaller than the key of `x`; since `x` came first in the input, this
   * keeps equal keys in their input order.
   */
  function InsertByKey<T>(x: Keyed<T>, d: seq<Keyed<T>>): (r: seq<Keyed<T>>)
    ensures |r| == |d| + 1
  {
    if d == [] || x.sort <= d[0].sort then
      [x] + d
    else
      [d[0]] + InsertByKey(x, d[1..])
  }

  /** Inserting `x` adds exactly `x`. */
  lemma {:induction false} InsertByKeyPermutes<T>(x: Keyed<T>, d: seq<Keyed<T>>)
    ensures multiset(InsertByKey(x, d)) == multiset(d) + multiset{x}
  {
    if d != [] && x.sort > d[0].sort {
      InsertByKeyPermutes(x, d[1..]);
      assert d == [d[0]] + d[1..];
    }
  }

  /** Inserting `x` adds exactly the value of `x` to the values. */
  lemma {:induction false} InsertByKeyValues<T>(x: Keyed<T>, d: seq<Keyed<T>>)
    ensures multiset(Values(InsertByKey(x, d))) == multiset(Values(d)) + multiset{x.value}
  {
    if d == [] || x.sort <= d[0].sort {
      assert ([x] + d)[1..] == d;
    } else {
      var rest := InsertByKey(x, d[1..]);
      InsertByKeyValues(x, d[1..]);
      assert ([d[0]] + rest)[1..] == rest;
    }
  }

  /** Every key in `d` is at least `k`. */
  predicate KeysAtLeast<T>(d: seq<Keyed<T>>, k: real)
  {
    forall i :: 0 <= i < |d| ==> k <= d[i].sort
  }

  lemma {:induction false} InsertByKeyAtLeast<T>(x: Keyed<T>, d: seq<Keyed<T>>, k: real)
    requires KeysAtLeast(d, k) && k <= x.sort
    ensures KeysAtLeast(InsertByKey(x, d), k)
  {
    if d != [] && x.sort > d[0].sort {
      InsertByKeyAtLeast(x, d[1..], k);
    }
  }

  /** Inserting into a key-sorted sequence keeps it sorted. */
  lemma {:induction false} InsertByKeySorted<T>(x: Keyed<T>, d: seq<Keyed<T>>)
    requires SortedByKey(d)
    ensures SortedByKey(InsertByKey(x, d))
  {
    if d != [] && x.sort > d[0].sort {
      var rest := InsertByKey(x, d[1..]);
      InsertByKeySorted(x, d[1..]);
      InsertByKeyAtLeast(x, d[1..], d[0].sort);
      var r := [d[0]] + rest;
      assert InsertByKey(x, d) == r;
      forall i, j | 0 <= i < j < |r|
        ensures r[i].sort <= r[j].sort
      {
        assert r[j] == rest[j - 1];
        if i > 0 {
          assert r[i] == rest[i - 1];
        }
      }
    } else {
      var r := [x] + d;
      assert InsertByKey(x, d) == r;
      forall i, j | 0 <= i < j < |r|
        ensures r[i].sort <= r[j].sort
      {
        assert r[j] == d[j - 1];
        if i > 0 {
          assert r[i] == d[i - 1];
        } else {
          assert d[0].sort <= d[j - 1].sort;
        }
      }
    }
  }

  /** Stable insertion sort by key. */
  function SortByKey<T>(d: seq<Keyed<T>>): (r: seq<Keyed<T>>)
    ensures |r| == |d|
    ensures SortedByKey(r)
  {
    if d == [] then []
    else
      InsertByKeySorted(d[0], SortByKey(d[1..]));
      InsertByKey(d[0], SortByKey(d[1..]))
  }

  /** Sorting only reorders. */
  lemma {:induction false} SortByKeyPermutes<T>(d: seq<Keyed<T>>)
    ensures multiset(SortByKey(d)) == multiset(d)
  {
    if d != [] {
      SortByKeyPermutes(d[1..]);
      InsertByKeyPermutes(d[0], SortByKey(d[1..]));
      assert d == [d[0]] + d[1..];
    }
  }

  /** Sorting keeps the values, with their multiplicities. */
  lemma {:induction false} SortByKeyValues<T>(d: seq<Keyed<T>>)
    ensures multiset(Values(SortByKey(d))) == multiset(Values(d))
  {
    if d != [] {
      SortByKeyValues(d[1..]);
      InsertByKeyValues(d[0], SortByKey(d[1..]));
    }
  }

  /**
   * `shuffleArray`: a new sequence holding the elements of `a`, ordered by
   * the keys drawn for them. The input is a value and is left as it was.
   */
  function ShuffleArray<T>(a: seq<T>, draw: nat -> real): (r: seq<T>)
    ensures |r| == |a|
    ensures multiset(r) == multiset(a)
  {
    var d := Decorate(a, draw, 0);
    var sorted := SortByKey(d);
    DecoratedValues(a, draw, 0);
    SortByKeyValues(d);
    Values(sorted)
  }

  /** Decorating and then dropping the keys gives back the input. */
  lemma {:induction false} DecoratedValues<T>(a: seq<T>, draw: nat -> real, from: nat)
    ensures Values(Decorate(a, draw, from)) == a
  {
    if a != [] {
      DecoratedValues(a[1..], draw, from + 1);
      assert a == [a[0]] + a[1..];
    }
  }

  /** Sorting a sequence whose keys are already in order changes nothing. */
  lemma {:induction false} SortByKeyOfSorted<T>(d: seq<Keyed<T>>)
    requires SortedByKey(d)
    ensures SortByKey(d) == d
  {
    if d != [] {
      assert SortedByKey(d[1..]);
      SortByKeyOfSorted(d[1..]);
      assert d == [d[0]] + d[1..];
    }
  }

  /**
   * When the keys happen to be drawn in ascending order, the shuffle keeps
   * the input order: the output order is decided by the keys alone.
   */
  lemma ShuffleWithAscendingDraws<T>(a: seq<T>, draw: nat -> real)
    requires forall i, j :: 0 <= i < j < |a| ==> draw(i) <= draw(j)
    ensures ShuffleArray(a, draw) == a
  {
    var d := Decorate(a, draw, 0);
    forall i, j | 0 <= i < j < |d|
      ensures d[i].sort <= d[j].sort
    {
      DecorateAt(a, draw, 0, i);
      DecorateAt(a, draw, 0, j);
    }
    SortByKeyOfSorted(d);
    DecoratedValues(a, draw, 0);
  }

  /** The output of the shuffle lists its elements in the order of their keys. */
  lemma ShuffleFollowsKeys<T>(a: seq<T>, draw: nat -> real)
    ensures exists d: seq<Keyed<T>> ::
      multiset(d) == multiset(Decorate(a, draw, 0)) && SortedByKey(d) && Values(d) == ShuffleArray(a, draw)
  {
    var d := SortByKey(Decorate(a, draw, 0));
    SortByKeyPermutes(Decorate(a, draw, 0));
    assert Values(d) == ShuffleArray(a, draw);
  }
}
