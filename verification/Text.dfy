/** Strings: Python's code-point order, substring tests, and splitting at a separator. */
module Text {
  import opened Sorting

  // ---------------------------------------------------------------- order

  /** Python's `<=` on str. */
  predicate AtMost(a: string, b: string) {
    if a == "" then true
    else if b == "" then false
    else if a[0] != b[0] then a[0] < b[0]
    else AtMost(a[1..], b[1..])
  }

  const TEXT_ORDER: (string, string) -> bool := (a, b) => AtMost(a, b)

  lemma {:induction false} AtMostTotal(a: string, b: string)
    ensures AtMost(a, b) || AtMost(b, a)
    ensures AtMost(a, b) && AtMost(b, a) ==> a == b
  {
    if a != "" && b != "" && a[0] == b[0] {
      AtMostTotal(a[1..], b[1..]);
      assert a == [a[0]] + a[1..] && b == [b[0]] + b[1..];
    }
  }

  lemma {:induction false} AtMostTransitive(a: string, b: string, c: string)
    requires AtMost(a, b) && AtMost(b, c)
    ensures AtMost(a, c)
  {
    if a != "" && b != "" && c != "" && a[0] == b[0] == c[0] {
      AtMostTransitive(a[1..], b[1..], c[1..]);
    }
  }

  /** `a` stands before `b`: it is a proper beginning of it, or smaller where they first differ. */
  ghost predicate Precedes(a: string, b: string) {
    a < b || exists k :: 0 <= k < |a| && k < |b| && a[..k] == b[..k] && a[k] < b[k]
  }

  /** The comparison is the lexicographic one on code points. */
  lemma {:induction false} AtMostIsLexicographic(a: string, b: string)
    ensures AtMost(a, b) <==> a == b || Precedes(a, b)
  {
    if a != "" && b != "" {
      if a[0] == b[0] {
        AtMostIsLexicographic(a[1..], b[1..]);
        SameHead(a, b);
      } else {
        OtherHead(a, b);
      }
    }
  }

  lemma SameHead(a: string, b: string)
    requires a != "" && b != "" && a[0] == b[0]
    ensures a == b <==> a[1..] == b[1..]
    ensures Precedes(a, b) <==> Precedes(a[1..], b[1..])
  {
    var s, t := a[1..], b[1..];
    assert a == [a[0]] + s && b == [b[0]] + t;
    assert a < b <==> s < t;
    if k :| 0 <= k < |s| && k < |t| && s[..k] == t[..k] && s[k] < t[k] {
      assert a[..k + 1] == [a[0]] + s[..k] && b[..k + 1] == [b[0]] + t[..k];
      assert a[k + 1] < b[k + 1];
    }
    if k :| 0 <= k < |a| && k < |b| && a[..k] == b[..k] && a[k] < b[k] {
      assert s[..k - 1] == a[..k][1..] && t[..k - 1] == b[..k][1..];
      assert s[k - 1] < t[k - 1];
    }
  }

  lemma OtherHead(a: string, b: string)
    requires a != "" && b != "" && a[0] != b[0]
    ensures Precedes(a, b) <==> a[0] < b[0]
  {
    assert a[..0] == b[..0];
    assert forall k :: 0 < k < |a| && k < |b| ==> a[..k][0] == a[0] && b[..k][0] == b[0];
  }

  lemma TextOrderIsTotal()
    ensures TotalOrder(TEXT_ORDER)
  {
    forall x, y ensures TEXT_ORDER(x, y) || TEXT_ORDER(y, x) {
      AtMostTotal(x, y);
    }
    forall x, y | TEXT_ORDER(x, y) && TEXT_ORDER(y, x) ensures x == y {
      AtMostTotal(x, y);
    }
    forall x, y, z | TEXT_ORDER(x, y) && TEXT_ORDER(y, z) ensures TEXT_ORDER(x, z) {
      AtMostTransitive(x, y, z);
    }
  }

  // ---------------------------------------------------------------- sorted(set)

  ghost predicate IsListing(s: set<string>, xs: seq<string>) {
    && SortedBy(TEXT_ORDER, xs)
    && (forall i, j :: 0 <= i < j < |xs| ==> xs[i] != xs[j])
    && (forall x :: x in xs <==> x in s)
  }

  /** The elements of a set, once each, in some order. */
  ghost function AnyOrder(s: set<string>): (xs: seq<string>)
    ensures forall x :: x in xs <==> x in s
    ensures forall i, j :: 0 <= i < j < |xs| ==> xs[i] != xs[j]
  {
    if s == {} then []
    else
      var x :| x in s;
      [x] + AnyOrder(s - {x})
  }

  /** Python's `sorted(s)` for a set of str. */
  ghost function Listing(s: set<string>): (xs: seq<string>)
    ensures IsListing(s, xs)
  {
    var ys := AnyOrder(s);
    ListingMeetsSpec(s, ys);
    StableSort(TEXT_ORDER, ys)
  }

  lemma DistinctByCount(xs: seq<string>)
    ensures (forall i, j :: 0 <= i < j < |xs| ==> xs[i] != xs[j]) <==> (forall x :: multiset(xs)[x] <= 1)
  {
    if forall x :: multiset(xs)[x] <= 1 {
      forall i, j | 0 <= i < j < |xs| ensures xs[i] != xs[j] {
        assert xs == xs[..j] + xs[j..];
        assert xs[i] == xs[..j][i] && xs[j] == xs[j..][0];
        assert xs[i] in multiset(xs[..j]) && xs[j] in multiset(xs[j..]);
        assert multiset(xs) == multiset(xs[..j]) + multiset(xs[j..]);
        assert multiset(xs)[xs[i]] == multiset(xs[..j])[xs[i]] + multiset(xs[j..])[xs[i]];
      }
    }
    if forall i, j :: 0 <= i < j < |xs| ==> xs[i] != xs[j] {
      forall x ensures multiset(xs)[x] <= 1 {
        DistinctCount(xs, x);
      }
    }
  }

  lemma {:induction false} DistinctCount(xs: seq<string>, x: string)
    requires forall i, j :: 0 <= i < j < |xs| ==> xs[i] != xs[j]
    ensures multiset(xs)[x] <= 1
  {
    if xs != [] {
      assert xs == [xs[0]] + xs[1..];
      DistinctCount(xs[1..], x);
      if x == xs[0] {
        assert x !in xs[1..];
        assert x !in multiset(xs[1..]);
      }
    }
  }

  lemma ListingMeetsSpec(s: set<string>, ys: seq<string>)
    requires forall x :: x in ys <==> x in s
    requires forall i, j :: 0 <= i < j < |ys| ==> ys[i] != ys[j]
    ensures IsListing(s, StableSort(TEXT_ORDER, ys))
  {
    TextOrderIsTotal();
    StableSortMeetsDefinition(TEXT_ORDER, ys);
    StableSortMembers(TEXT_ORDER, ys);
    DistinctByCount(ys);
    DistinctByCount(StableSort(TEXT_ORDER, ys));
  }

  lemma ListingUnique(s: set<string>, xs: seq<string>)
    requires IsListing(s, xs)
    ensures xs == Listing(s)
  {
    TextOrderIsTotal();
    SortedSetUnique(TEXT_ORDER, xs, Listing(s));
  }

  /** A listing ascends strictly. */
  lemma ListingAscends(s: set<string>)
    ensures forall i, j :: 0 <= i < j < |Listing(s)| ==> Precedes(Listing(s)[i], Listing(s)[j])
  {
    var xs := Listing(s);
    forall i, j | 0 <= i < j < |xs| ensures Precedes(xs[i], xs[j]) {
      assert TEXT_ORDER(xs[i], xs[j]);
      AtMostIsLexicographic(xs[i], xs[j]);
    }
  }

  /** Computes `sorted(s)` by inserting the elements one at a time. */
  method SortSet(s: set<string>) returns (xs: seq<string>)
    ensures xs == Listing(s)
    ensures forall x :: x in xs <==> x in s
    ensures forall i, j :: 0 <= i < j < |xs| ==> Precedes(xs[i], xs[j])
  {
    xs := [];
    var rest := s;
    while rest != {}
      invariant rest <= s
      invariant IsListing(s - rest, xs)
      decreases rest
    {
      var x :| x in rest;
      TextOrderIsTotal();
      InsertKeepsOrder(TEXT_ORDER, x, xs);
      InsertPermutes(TEXT_ORDER, x, xs);
      var ys := Insert(TEXT_ORDER, x, xs);
      DistinctByCount(xs);
      assert x !in xs && x !in multiset(xs);
      DistinctByCount(ys);
      forall y ensures y in ys <==> y in s - (rest - {x}) {
        assert y in ys <==> y in multiset(ys);
        assert y in xs <==> y in multiset(xs);
      }
      xs := ys;
      rest := rest - {x};
    }
    assert s - rest == s;
    ListingUnique(s, xs);
    ListingAscends(s);
  }

  // ---------------------------------------------------------------- substrings

  predicate StartsWith(s: string, prefix: string) {
    prefix <= s
  }

  predicate EndsWith(s: string, suffix: string) {
    |suffix| <= |s| && s[|s| - |suffix|..] == suffix
  }

  /** Python's `part in s`. */
  predicate Contains(s: string, part: string) {
    exists i :: 0 <= i <= |s| && StartsWith(s[i..], part)
  }

  // ---- what the three tests say in terms of concatenation

  lemma StartsWithIsConcatenation(s: string, part: string)
    ensures StartsWith(s, part) <==> exists rest :: s == part + rest
  {
    if StartsWith(s, part) {
      assert s == part + s[|part|..];
    }
  }

  lemma EndsWithIsConcatenation(s: string, part: string)
    ensures EndsWith(s, part) <==> exists front :: s == front + part
  {
    if EndsWith(s, part) {
      assert s == s[..|s| - |part|] + part;
    }
  }

  lemma ContainsIsConcatenation(s: string, part: string)
    ensures Contains(s, part) <==> exists front, rest :: s == front + part + rest
  {
    if i :| 0 <= i <= |s| && StartsWith(s[i..], part) {
      PartInside(s[..i], part, s[i + |part|..]);
      assert s == s[..i] + part + s[i + |part|..];
    } else if front, rest :| s == front + part + rest {
      PartInside(front, part, rest);
    }
  }

  lemma PartInside(front: string, part: string, rest: string)
    ensures Contains(front + part + rest, part)
  {
    var s := front + part + rest;
    assert s[|front|..][..|part|] == part;
    assert StartsWith(s[|front|..], part);
  }
}
