/**
 Stable sorting, as Python's `list.sort` and `sorted` provide it.  A stable sort is pinned down
 without reference to any algorithm: it is sorted, and it keeps every class of equivalent elements
 in its original order (`IsStableSort`).  `StableSortUnique` says there is only one such list, and
 the algebra the resolver relies on follows from that.
 */
module Sorting {

  ghost predicate TotalPreorder<T(!new)>(leq: (T, T) -> bool) {
    && (forall x, y :: leq(x, y) || leq(y, x))
    && (forall x, y, z :: leq(x, y) && leq(y, z) ==> leq(x, z))
  }

  ghost predicate TotalOrder<T(!new)>(leq: (T, T) -> bool) {
    && TotalPreorder(leq)
    && (forall x, y :: leq(x, y) && leq(y, x) ==> x == y)
  }

  ghost predicate SortedBy<T>(leq: (T, T) -> bool, xs: seq<T>) {
    forall i, j :: 0 <= i < j < |xs| ==> leq(xs[i], xs[j])
  }

  /** The elements that satisfy `p`, in order. */
  function Filter<T(!new)>(p: T -> bool, xs: seq<T>): (ys: seq<T>)
    ensures |ys| <= |xs|
    ensures forall y :: y in ys <==> y in xs && p(y)
  {
    if xs == [] then []
    else (if p(xs[0]) then [xs[0]] else []) + Filter(p, xs[1..])
  }

  /** The elements equivalent to `x`. */
  function Class<T(!new)>(leq: (T, T) -> bool, x: T, xs: seq<T>): seq<T> {
    Filter((y: T) => leq(x, y) && leq(y, x), xs)
  }

  /** The reference definition of a stable sort. */
  ghost predicate IsStableSort<T(!new)>(leq: (T, T) -> bool, xs: seq<T>, ys: seq<T>) {
    && SortedBy(leq, ys)
    && forall x :: Class(leq, x, ys) == Class(leq, x, xs)
  }

  function Insert<T>(leq: (T, T) -> bool, x: T, ys: seq<T>): seq<T> {
    if ys == [] || leq(x, ys[0]) then [x] + ys
    else [ys[0]] + Insert(leq, x, ys[1..])
  }

  function StableSort<T>(leq: (T, T) -> bool, xs: seq<T>): seq<T> {
    if xs == [] then []
    else Insert(leq, xs[0], StableSort(leq, xs[1..]))
  }

  // ---------------------------------------------------------------- filters

  lemma {:induction false} FilterAppend<T(!new)>(p: T -> bool, xs: seq<T>, ys: seq<T>)
    ensures Filter(p, xs + ys) == Filter(p, xs) + Filter(p, ys)
  {
    if xs == [] {
      assert xs + ys == ys;
    } else {
      assert (xs + ys)[1..] == xs[1..] + ys;
      FilterAppend(p, xs[1..], ys);
    }
  }

  /** Where an element of a filtered list came from. */
  lemma FilterOrigin<T(!new)>(p: T -> bool, xs: seq<T>, k: nat) returns (i: nat)
    requires k < |Filter(p, xs)|
    ensures i < |xs| && p(xs[i]) && xs[i] == Filter(p, xs)[k]
    ensures Filter(p, xs[..i]) == Filter(p, xs)[..k]
  {
    i := FilterPosition(p, xs, k);
    FilterSplit(p, xs, i);
  }

  lemma {:induction false} FilterPosition<T(!new)>(p: T -> bool, xs: seq<T>, k: nat) returns (i: nat)
    requires k < |Filter(p, xs)|
    ensures i < |xs| && p(xs[i]) && |Filter(p, xs[..i])| == k
    decreases |xs|
  {
    var n := |xs| - 1;
    var init := xs[..n];
    assert xs == init + [xs[n]];
    FilterAppend(p, init, [xs[n]]);
    FilterOne(p, xs[n]);
    if k < |Filter(p, init)| {
      i := FilterPosition(p, init, k);
      assert init[..i] == xs[..i];
    } else {
      i := n;
    }
  }

  lemma FilterOne<T(!new)>(p: T -> bool, x: T)
    ensures Filter(p, [x]) == if p(x) then [x] else []
  {
    assert [x][1..] == [];
  }

  lemma FilterSplit<T(!new)>(p: T -> bool, xs: seq<T>, i: nat)
    requires i < |xs| && p(xs[i])
    ensures Filter(p, xs) == Filter(p, xs[..i]) + [xs[i]] + Filter(p, xs[i + 1..])
  {
    SplitAt(xs, i);
    FilterMiddle(p, xs[..i], xs[i], xs[i + 1..]);
  }

  lemma FilterMiddle<T(!new)>(p: T -> bool, a: seq<T>, x: T, b: seq<T>)
    requires p(x)
    ensures Filter(p, a + ([x] + b)) == Filter(p, a) + [x] + Filter(p, b)
  {
    FilterAppend(p, a, [x] + b);
    FilterCons(p, x, b);
    Associative(Filter(p, a), [x], Filter(p, b));
  }

  lemma SplitAt<T>(xs: seq<T>, i: nat)
    requires i < |xs|
    ensures xs == xs[..i] + ([xs[i]] + xs[i + 1..])
  {
  }

  lemma Associative<T>(a: seq<T>, b: seq<T>, c: seq<T>)
    ensures a + (b + c) == a + b + c
  {
  }

  lemma FilterCons<T(!new)>(p: T -> bool, x: T, b: seq<T>)
    requires p(x)
    ensures Filter(p, [x] + b) == [x] + Filter(p, b)
  {
    assert ([x] + b)[1..] == b;
  }

  lemma {:induction false} FilterCommutes<T(!new)>(p: T -> bool, q: T -> bool, xs: seq<T>)
    ensures Filter(p, Filter(q, xs)) == Filter(q, Filter(p, xs))
  {
    if xs != [] {
      FilterCommutes(p, q, xs[1..]);
      var x := [xs[0]];
      FilterAppend(p, if q(xs[0]) then x else [], Filter(q, xs[1..]));
      FilterAppend(q, if p(xs[0]) then x else [], Filter(p, xs[1..]));
    }
  }

  lemma SortedCons<T>(leq: (T, T) -> bool, y: T, zs: seq<T>)
    requires SortedBy(leq, zs)
    requires forall z :: z in zs ==> leq(y, z)
    ensures SortedBy(leq, [y] + zs)
  {
    var ys := [y] + zs;
    forall i, j | 0 <= i < j < |ys| ensures leq(ys[i], ys[j]) {
      assert ys[j] == zs[j - 1];
      if i > 0 {
        assert ys[i] == zs[i - 1];
      }
    }
  }

  lemma {:induction false} FilterKeepsOrder<T(!new)>(leq: (T, T) -> bool, p: T -> bool, xs: seq<T>)
    requires SortedBy(leq, xs)
    ensures SortedBy(leq, Filter(p, xs))
  {
    if xs != [] {
      var tail := xs[1..];
      assert forall i :: 0 <= i < |tail| ==> tail[i] == xs[i + 1];
      FilterKeepsOrder(leq, p, tail);
      forall y | y in Filter(p, tail) ensures leq(xs[0], y) {
        var i :| 0 <= i < |tail| && tail[i] == y;
      }
      if p(xs[0]) {
        SortedCons(leq, xs[0], Filter(p, tail));
      }
    }
  }

  // ---------------------------------------------------------------- the sort meets its definition

  lemma {:induction false} InsertPermutes<T>(leq: (T, T) -> bool, x: T, ys: seq<T>)
    ensures multiset(Insert(leq, x, ys)) == multiset(ys) + multiset{x}
  {
    if ys == [] || leq(x, ys[0]) {
    } else {
      assert ys == [ys[0]] + ys[1..];
      InsertPermutes(leq, x, ys[1..]);
    }
  }

  lemma {:induction false} InsertKeepsOrder<T(!new)>(leq: (T, T) -> bool, x: T, ys: seq<T>)
    requires TotalPreorder(leq) && SortedBy(leq, ys)
    ensures SortedBy(leq, Insert(leq, x, ys))
  {
    if ys == [] {
    } else if leq(x, ys[0]) {
      forall z | z in ys ensures leq(x, z) {
        var i :| 0 <= i < |ys| && ys[i] == z;
        assert leq(ys[0], z) || i == 0;
      }
      SortedCons(leq, x, ys);
    } else {
      var tail := ys[1..];
      assert forall i :: 0 <= i < |tail| ==> tail[i] == ys[i + 1];
      InsertKeepsOrder(leq, x, tail);
      InsertPermutes(leq, x, tail);
      var zs := Insert(leq, x, tail);
      forall z | z in zs ensures leq(ys[0], z) {
        assert z in multiset(zs);
        if z != x {
          assert z in multiset(tail);
          var i :| 0 <= i < |tail| && tail[i] == z;
        }
      }
      SortedCons(leq, ys[0], zs);
    }
  }

  lemma {:induction false} InsertKeepsClasses<T(!new)>(leq: (T, T) -> bool, x: T, ys: seq<T>, k: T)
    requires TotalPreorder(leq)
    ensures Class(leq, k, Insert(leq, x, ys)) == Class(leq, k, [x] + ys)
  {
    var p := (y: T) => leq(k, y) && leq(y, k);
    if ys == [] || leq(x, ys[0]) {
    } else {
      InsertKeepsClasses(leq, x, ys[1..], k);
      FilterAppend(p, [ys[0]], Insert(leq, x, ys[1..]));
      FilterAppend(p, [x], ys[1..]);
      FilterAppend(p, [x], ys);
      assert ys == [ys[0]] + ys[1..];
      FilterAppend(p, [ys[0]], ys[1..]);
      // x and ys[0] are never in the same class here
      assert !(p(x) && p(ys[0]));
    }
  }

  lemma {:induction false} StableSortMeetsDefinition<T(!new)>(leq: (T, T) -> bool, xs: seq<T>)
    requires TotalPreorder(leq)
    ensures IsStableSort(leq, xs, StableSort(leq, xs))
    ensures multiset(StableSort(leq, xs)) == multiset(xs)
  {
    if xs != [] {
      var tail := StableSort(leq, xs[1..]);
      assert xs == [xs[0]] + xs[1..];
      StableSortMeetsDefinition(leq, xs[1..]);
      InsertKeepsOrder(leq, xs[0], tail);
      InsertPermutes(leq, xs[0], tail);
      forall k ensures Class(leq, k, StableSort(leq, xs)) == Class(leq, k, xs) {
        var p := (y: T) => leq(k, y) && leq(y, k);
        InsertKeepsClasses(leq, xs[0], tail, k);
        FilterAppend(p, [xs[0]], tail);
        FilterAppend(p, [xs[0]], xs[1..]);
        assert Class(leq, k, tail) == Class(leq, k, xs[1..]);
      }
    }
  }

  lemma StableSortMembers<T(!new)>(leq: (T, T) -> bool, xs: seq<T>)
    requires TotalPreorder(leq)
    ensures |StableSort(leq, xs)| == |xs|
    ensures forall x :: x in StableSort(leq, xs) <==> x in xs
  {
    StableSortMeetsDefinition(leq, xs);
    var ys := StableSort(leq, xs);
    assert |multiset(ys)| == |ys| && |multiset(xs)| == |xs|;
    forall x ensures x in ys <==> x in xs {
      assert x in ys <==> x in multiset(ys);
      assert x in xs <==> x in multiset(xs);
    }
  }

  // ---------------------------------------------------------------- there is only one stable sort

  lemma HeadOfSorted<T(!new)>(leq: (T, T) -> bool, ys: seq<T>, zs: seq<T>)
    requires TotalPreorder(leq) && SortedBy(leq, ys) && SortedBy(leq, zs)
    requires forall k :: Class(leq, k, ys) == Class(leq, k, zs)
    requires ys != []
    ensures zs != [] && zs[0] == ys[0]
  {
    var y := ys[0];
    assert leq(y, y);
    assert Class(leq, y, ys)[0] == y;
    assert y in Class(leq, y, zs);
    assert y in zs;
    var z := zs[0];
    assert leq(z, z);
    assert z in Class(leq, z, ys);
    assert z in ys;
    var i :| 0 <= i < |ys| && ys[i] == z;
    var j :| 0 <= j < |zs| && zs[j] == y;
    assert leq(y, z) && leq(z, y);
    assert Class(leq, y, zs)[0] == z;
  }

  lemma {:induction false} StableSortUnique<T(!new)>(leq: (T, T) -> bool, ys: seq<T>, zs: seq<T>)
    requires TotalPreorder(leq) && SortedBy(leq, ys) && SortedBy(leq, zs)
    requires forall k :: Class(leq, k, ys) == Class(leq, k, zs)
    ensures ys == zs
  {
    if ys == [] {
      if zs != [] {
        HeadOfSorted(leq, zs, ys);
      }
    } else {
      HeadOfSorted(leq, ys, zs);
      var y, yt, zt := ys[0], ys[1..], zs[1..];
      assert ys == [y] + yt && zs == [y] + zt;
      assert forall i :: 0 <= i < |yt| ==> yt[i] == ys[i + 1];
      assert forall i :: 0 <= i < |zt| ==> zt[i] == zs[i + 1];
      forall k ensures Class(leq, k, yt) == Class(leq, k, zt) {
        var p := (w: T) => leq(k, w) && leq(w, k);
        FilterAppend(p, [y], yt);
        FilterAppend(p, [y], zt);
        var h := Filter(p, [y]);
        assert h + Filter(p, yt) == Class(leq, k, ys) == Class(leq, k, zs) == h + Filter(p, zt);
        assert Filter(p, yt) == (h + Filter(p, yt))[|h|..];
        assert Filter(p, zt) == (h + Filter(p, zt))[|h|..];
      }
      StableSortUnique(leq, yt, zt);
    }
  }

  /** Every list that meets the definition is the one `StableSort` computes. */
  lemma StableSortIsTheOne<T(!new)>(leq: (T, T) -> bool, xs: seq<T>, ys: seq<T>)
    requires TotalPreorder(leq)
    requires IsStableSort(leq, xs, ys)
    ensures ys == StableSort(leq, xs)
  {
    StableSortMeetsDefinition(leq, xs);
    forall k ensures Class(leq, k, ys) == Class(leq, k, StableSort(leq, xs)) {
      assert Class(leq, k, ys) == Class(leq, k, xs);
    }
    StableSortUnique(leq, ys, StableSort(leq, xs));
  }

  // ---------------------------------------------------------------- algebra

  /** Sorting a middle part first changes nothing. */
  lemma PresortIsHarmless<T(!new)>(leq: (T, T) -> bool, a: seq<T>, b: seq<T>, c: seq<T>)
    requires TotalPreorder(leq)
    ensures StableSort(leq, a + StableSort(leq, b) + c) == StableSort(leq, a + b + c)
  {
    var b', lhs := StableSort(leq, b), a + StableSort(leq, b) + c;
    StableSortMeetsDefinition(leq, lhs);
    StableSortMeetsDefinition(leq, b);
    forall k ensures Class(leq, k, StableSort(leq, lhs)) == Class(leq, k, a + b + c) {
      var p := (w: T) => leq(k, w) && leq(w, k);
      FilterAppend(p, a + b', c);
      FilterAppend(p, a, b');
      FilterAppend(p, a + b, c);
      FilterAppend(p, a, b);
      assert Class(leq, k, b') == Class(leq, k, b);
    }
    StableSortIsTheOne(leq, a + b + c, StableSort(leq, lhs));
  }

  /** Filtering commutes with sorting. */
  lemma FilterCommutesWithSort<T(!new)>(leq: (T, T) -> bool, p: T -> bool, xs: seq<T>)
    requires TotalPreorder(leq)
    ensures Filter(p, StableSort(leq, xs)) == StableSort(leq, Filter(p, xs))
  {
    var ys := StableSort(leq, xs);
    StableSortMeetsDefinition(leq, xs);
    FilterKeepsOrder(leq, p, ys);
    forall k ensures Class(leq, k, Filter(p, ys)) == Class(leq, k, Filter(p, xs)) {
      var q := (w: T) => leq(k, w) && leq(w, k);
      FilterCommutes(q, p, ys);
      FilterCommutes(q, p, xs);
      assert Class(leq, k, ys) == Class(leq, k, xs);
    }
    StableSortIsTheOne(leq, Filter(p, xs), Filter(p, ys));
  }

  /** A strictly sorted list is determined by its set of elements. */
  lemma {:induction false} StrictlySortedUnique<T(!new)>(leq: (T, T) -> bool, ys: seq<T>, zs: seq<T>)
    requires TotalPreorder(leq)
    requires forall i, j :: 0 <= i < j < |ys| ==> !leq(ys[j], ys[i])
    requires forall i, j :: 0 <= i < j < |zs| ==> !leq(zs[j], zs[i])
    requires forall x :: x in ys <==> x in zs
    ensures ys == zs
  {
    assert zs != [] ==> zs[0] in zs;
    if ys == [] {
    } else {
      assert ys[0] in zs;
      assert zs[0] in ys;
      var i :| 0 <= i < |ys| && ys[i] == zs[0];
      var j :| 0 <= j < |zs| && zs[j] == ys[0];
      assert leq(ys[0], ys[0]);
      assert ys[0] == zs[0];
      var yt, zt := ys[1..], zs[1..];
      forall x ensures x in yt <==> x in zt {
        assert x in ys <==> x == ys[0] || x in yt;
        assert x in zs <==> x == zs[0] || x in zt;
        assert ys[0] !in yt && zs[0] !in zt;
      }
      StrictlySortedUnique(leq, yt, zt);
      assert ys == [ys[0]] + yt && zs == [zs[0]] + zt;
    }
  }

  /** Under a total order, so is a sorted list without repetitions. */
  lemma SortedSetUnique<T(!new)>(leq: (T, T) -> bool, ys: seq<T>, zs: seq<T>)
    requires TotalOrder(leq) && SortedBy(leq, ys) && SortedBy(leq, zs)
    requires forall i, j :: 0 <= i < j < |ys| ==> ys[i] != ys[j]
    requires forall i, j :: 0 <= i < j < |zs| ==> zs[i] != zs[j]
    requires forall x :: x in ys <==> x in zs
    ensures ys == zs
  {
    StrictlySortedUnique(leq, ys, zs);
  }

  lemma CountedTwice<T>(xs: seq<T>, i: nat, j: nat)
    requires i < j < |xs| && xs[i] == xs[j]
    ensures multiset(xs)[xs[i]] >= 2
  {
    assert xs == xs[..j] + xs[j..];
    assert xs[i] == xs[..j][i] && xs[j] == xs[j..][0];
    assert xs[i] in multiset(xs[..j]) && xs[j] in multiset(xs[j..]);
  }
}
