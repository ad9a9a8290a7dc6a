/** Lists as the scripts use them: filter, map, flat and the laws between them. */
module Seqs {

  function Filter<T>(xs: seq<T>, p: T -> bool): seq<T> {
    if xs == [] then []
    else if p(xs[0]) then [xs[0]] + Filter(xs[1..], p)
    else Filter(xs[1..], p)
  }

  function Map<A, B>(xs: seq<A>, f: A -> B): (r: seq<B>)
    ensures |r| == |xs| && forall i | 0 <= i < |xs| :: r[i] == f(xs[i])
  {
    seq(|xs|, i requires 0 <= i < |xs| => f(xs[i]))
  }

  function Flatten<T>(xss: seq<seq<T>>): seq<T> {
    if xss == [] then [] else xss[0] + Flatten(xss[1..])
  }

  predicate Distinct<T(==)>(xs: seq<T>) {
    forall i, j | 0 <= i < j < |xs| :: xs[i] != xs[j]
  }

  predicate FirstAt<T(==)>(xs: seq<T>, p: T -> bool, x: T, i: nat) {
    i < |xs| && xs[i] == x && p(x) && forall j | 0 <= j < i :: !p(xs[j])
  }

  /** x is the first of the list that passes. */
  predicate FirstOf<T(==)>(xs: seq<T>, p: T -> bool, x: T) {
    exists i | 0 <= i < |xs| :: FirstAt(xs, p, x, i)
  }

  lemma FirstAtStep<T>(y: T, xs: seq<T>, p: T -> bool, x: T, i: nat)
    ensures FirstAt([y] + xs, p, x, i + 1) <==> !p(y) && FirstAt(xs, p, x, i)
    ensures FirstAt([y] + xs, p, x, 0) <==> x == y && p(y)
  {
    var ys := [y] + xs;
    assert ys[0] == y && forall j | 0 <= j < |xs| :: ys[j + 1] == xs[j];
    if FirstAt(ys, p, x, i + 1) {
      forall j | 0 <= j < i
        ensures !p(xs[j])
      {
        assert !p(ys[j + 1]);
      }
    }
    if !p(y) && FirstAt(xs, p, x, i) {
      assert forall j | 1 <= j < i + 1 :: ys[j] == xs[j - 1];
    }
  }

  lemma FirstOfStep<T>(y: T, xs: seq<T>, p: T -> bool, x: T)
    ensures FirstOf([y] + xs, p, x) <==> if p(y) then x == y else FirstOf(xs, p, x)
    ensures !FirstOf([], p, x)
  {
    hide FirstAt;
    FirstAtStep(y, xs, p, x, 0);
    if i :| 0 <= i < |xs| && FirstAt(xs, p, x, i) {
      FirstAtStep(y, xs, p, x, i);
      assert !p(y) ==> FirstAt([y] + xs, p, x, i + 1);
    }
    if i :| 0 <= i < |[y] + xs| && FirstAt([y] + xs, p, x, i) {
      if i > 0 {
        FirstAtStep(y, xs, p, x, i - 1);
        assert FirstAt(xs, p, x, i - 1);
      }
    }
  }

  lemma FirstIn<T>(xs: seq<T>, p: T -> bool, x: T)
    requires FirstOf(xs, p, x)
    ensures x in xs && p(x)
  {
  }

  predicate DistinctKeys<K(==), V>(m: seq<(K, V)>) {
    forall i, j | 0 <= i < j < |m| :: m[i].0 != m[j].0
  }

  lemma FilterStep<T>(x: T, xs: seq<T>, p: T -> bool)
    ensures Filter([], p) == []
    ensures Filter([x] + xs, p) == if p(x) then [x] + Filter(xs, p) else Filter(xs, p)
  {
    assert ([x] + xs)[1..] == xs;
  }

  lemma FilterTwo<T>(x: T, y: T, p: T -> bool)
    requires p(x) != p(y)
    ensures Filter([x, y], p) == [if p(x) then x else y]
  {
    assert [x, y] == [x] + [y] && [y] == [y] + [];
    FilterStep(y, [], p);
    FilterStep(x, [y], p);
  }

  lemma FlattenStep<T>(xs: seq<T>, xss: seq<seq<T>>)
    ensures Flatten<T>([]) == []
    ensures Flatten([xs] + xss) == xs + Flatten(xss)
  {
    assert ([xs] + xss)[1..] == xss;
  }

  lemma {:induction false} FilterConcat<T>(a: seq<T>, b: seq<T>, p: T -> bool)
    ensures Filter(a + b, p) == Filter(a, p) + Filter(b, p)
  {
    if a == [] {
      assert a + b == b;
    } else {
      FilterConcat(a[1..], b, p);
      assert (a + b)[1..] == a[1..] + b;
    }
  }

  lemma FilterTake<T>(xs: seq<T>, i: nat, p: T -> bool)
    requires i < |xs|
    ensures Filter(xs[..i + 1], p) == if p(xs[i]) then Filter(xs[..i], p) + [xs[i]] else Filter(xs[..i], p)
  {
    assert xs[..i + 1] == xs[..i] + [xs[i]];
    FilterConcat(xs[..i], [xs[i]], p);
    assert [xs[i]][1..] == [];
  }

  lemma {:induction false} FilterIn<T>(xs: seq<T>, p: T -> bool)
    ensures forall x :: x in Filter(xs, p) <==> x in xs && p(x)
    ensures |Filter(xs, p)| <= |xs|
  {
    if xs != [] {
      FilterIn(xs[1..], p);
      assert xs == [xs[0]] + xs[1..];
    }
  }

  lemma {:induction false} FilterDistinct<T>(xs: seq<T>, p: T -> bool)
    requires Distinct(xs)
    ensures Distinct(Filter(xs, p))
  {
    if xs != [] {
      FilterDistinct(xs[1..], p);
      FilterIn(xs[1..], p);
    }
  }

  lemma {:induction false} FilterAll<T>(xs: seq<T>, p: T -> bool)
    requires forall i | 0 <= i < |xs| :: p(xs[i])
    ensures Filter(xs, p) == xs
  {
    if xs != [] {
      FilterAll(xs[1..], p);
    }
  }

  lemma {:induction false} FilterNone<T>(xs: seq<T>, p: T -> bool)
    requires forall i | 0 <= i < |xs| :: !p(xs[i])
    ensures Filter(xs, p) == []
  {
    if xs != [] {
      FilterNone(xs[1..], p);
    }
  }

  lemma {:induction false} FilterFull<T>(xs: seq<T>, p: T -> bool)
    ensures |Filter(xs, p)| <= |xs|
    ensures |Filter(xs, p)| == |xs| <==> forall x <- xs :: p(x)
  {
    if xs != [] {
      FilterFull(xs[1..], p);
      assert xs == [xs[0]] + xs[1..];
    }
  }

  /** One element is kept alone exactly when no other one passes. */
  lemma FilterOne<T>(xs: seq<T>, i: nat, p: T -> bool)
    requires i < |xs| && p(xs[i])
    ensures |Filter(xs, p)| == 1 <==> forall j | 0 <= j < |xs| && j != i :: !p(xs[j])
  {
    hide Filter;
    var a, b := xs[..i], xs[i + 1..];
    assert xs == a + ([xs[i]] + b);
    FilterConcat(a, [xs[i]] + b, p);
    FilterStep(xs[i], b, p);
    FilterEmpty(a, p);
    FilterEmpty(b, p);
    if |Filter(xs, p)| == 1 {
      forall j | 0 <= j < |xs| && j != i
        ensures !p(xs[j])
      {
        assert xs[j] == if j < i then a[j] else b[j - i - 1];
      }
    }
  }

  lemma {:induction false} FilterEmpty<T>(xs: seq<T>, p: T -> bool)
    ensures Filter(xs, p) == [] <==> forall i | 0 <= i < |xs| :: !p(xs[i])
  {
    if xs != [] {
      FilterEmpty(xs[1..], p);
      assert forall i | 1 <= i < |xs| :: xs[i] == xs[1..][i - 1];
    }
  }

  lemma {:induction false} FilterFilter<T>(xs: seq<T>, p: T -> bool, q: T -> bool)
    requires forall x | x in xs && q(x) :: p(x)
    ensures Filter(Filter(xs, p), q) == Filter(xs, q)
  {
    if xs != [] {
      assert xs[0] in xs;
      FilterFilter(xs[1..], p, q);
      if p(xs[0]) {
        assert ([xs[0]] + Filter(xs[1..], p))[1..] == Filter(xs[1..], p);
      }
    }
  }

  lemma {:induction false} FilterAgree<T>(xs: seq<T>, p: T -> bool, q: T -> bool)
    requires forall x <- xs :: p(x) == q(x)
    ensures Filter(xs, p) == Filter(xs, q)
  {
    if xs != [] {
      assert xs[0] in xs;
      FilterAgree(xs[1..], p, q);
    }
  }

  lemma {:induction false} FilterCommutes<T>(xs: seq<T>, p: T -> bool, q: T -> bool)
    ensures Filter(Filter(xs, p), q) == Filter(Filter(xs, q), p)
  {
    if xs != [] {
      FilterCommutes(xs[1..], p, q);
      FilterStep(xs[0], Filter(xs[1..], p), q);
      FilterStep(xs[0], Filter(xs[1..], q), p);
    }
  }

  /** Filtering images by p is filtering the originals by q, where p of an image is q of its original. */
  lemma {:induction false} FilterImages<A, B>(xs: seq<A>, f: A -> B, p: B -> bool, q: A -> bool)
    requires forall x <- xs :: p(f(x)) <==> q(x)
    ensures Filter(Map(xs, f), p) == Map(Filter(xs, q), f)
  {
    if xs != [] {
      assert xs[0] in xs;
      FilterImages(xs[1..], f, p, q);
      assert Map(xs, f)[1..] == Map(xs[1..], f);
    }
  }

  /** A filter and its complement share the list out. */
  lemma {:induction false} FilterSplits<T>(xs: seq<T>, p: T -> bool, q: T -> bool)
    requires forall x <- xs :: q(x) <==> !p(x)
    ensures multiset(Filter(xs, p)) + multiset(Filter(xs, q)) == multiset(xs)
  {
    if xs != [] {
      assert xs[0] in xs && xs == [xs[0]] + xs[1..];
      FilterSplits(xs[1..], p, q);
    }
  }

  /** Three stretches of three kinds, told apart by their kinds. */
  lemma FilterParts<T>(a: seq<T>, b: seq<T>, c: seq<T>, p: T -> bool, q: T -> bool, r: T -> bool)
    requires forall i | 0 <= i < |a| :: p(a[i]) && !q(a[i]) && !r(a[i])
    requires forall i | 0 <= i < |b| :: !p(b[i]) && q(b[i]) && !r(b[i])
    requires forall i | 0 <= i < |c| :: !p(c[i]) && !q(c[i]) && r(c[i])
    ensures Filter(a + b + c, p) == a && Filter(a + b + c, q) == b && Filter(a + b + c, r) == c
  {
    FilterConcat(a + b, c, p);
    FilterConcat(a, b, p);
    FilterConcat(a + b, c, q);
    FilterConcat(a, b, q);
    FilterConcat(a + b, c, r);
    FilterConcat(a, b, r);
    FilterAll(a, p);
    FilterNone(b, p);
    FilterNone(c, p);
    FilterNone(a, q);
    FilterAll(b, q);
    FilterNone(c, q);
    FilterNone(a, r);
    FilterNone(b, r);
    FilterAll(c, r);
    assert a + [] + [] == a && [] + b + [] == b && [] + [] + c == c;
  }

  lemma {:induction false} FlattenConcat<T>(a: seq<seq<T>>, b: seq<seq<T>>)
    ensures Flatten(a + b) == Flatten(a) + Flatten(b)
  {
    hide *;
    FlattenStep<T>([], []);
    if a == [] {
      assert a + b == b;
    } else {
      FlattenConcat(a[1..], b);
      assert a == [a[0]] + a[1..] && a + b == [a[0]] + (a[1..] + b);
      FlattenStep(a[0], a[1..] + b);
      FlattenStep(a[0], a[1..]);
    }
  }

  lemma FlattenTake<T>(xss: seq<seq<T>>, i: nat)
    requires i < |xss|
    ensures Flatten(xss[..i + 1]) == Flatten(xss[..i]) + xss[i]
  {
    hide *;
    assert xss[..i + 1] == xss[..i] + [xss[i]] && [xss[i]] == [xss[i]] + [];
    FlattenConcat(xss[..i], [xss[i]]);
    FlattenStep(xss[i], []);
  }

  lemma {:induction false} FlattenIn<T>(xss: seq<seq<T>>)
    ensures forall x :: x in Flatten(xss) <==> exists i :: 0 <= i < |xss| && x in xss[i]
  {
    if xss != [] {
      FlattenIn(xss[1..]);
      forall x | x in xss[1..]
        ensures x in xss
      {
      }
      forall x
        ensures x in Flatten(xss) <==> exists i :: 0 <= i < |xss| && x in xss[i]
      {
        if i :| 0 <= i < |xss| && x in xss[i] {
          if i > 0 {
            assert x in xss[1..][i - 1];
          }
        }
        if x in Flatten(xss[1..]) {
          var i :| 0 <= i < |xss[1..]| && x in xss[1..][i];
          assert x in xss[i + 1];
        }
      }
    }
  }

  lemma TwiceInBag<T>(xs: seq<T>, i: nat, j: nat)
    requires i < j < |xs| && xs[i] == xs[j]
    ensures multiset(xs)[xs[i]] >= 2
  {
    assert xs == xs[..i] + [xs[i]] + xs[i + 1..j] + [xs[j]] + xs[j + 1..];
  }

  lemma {:induction false} DistinctBag<T>(xs: seq<T>)
    requires Distinct(xs)
    ensures forall x :: multiset(xs)[x] <= 1
  {
    if xs != [] {
      DistinctBag(xs[1..]);
      assert xs == [xs[0]] + xs[1..];
      assert xs[0] !in xs[1..];
    }
  }

  /** Array.sort: stable, by "a may stay before b". */
  function Insert<T>(x: T, ys: seq<T>, le: (T, T) -> bool): seq<T> {
    if ys != [] && le(ys[0], x) then [ys[0]] + Insert(x, ys[1..], le) else [x] + ys
  }

  function SortBy<T>(xs: seq<T>, le: (T, T) -> bool): seq<T> {
    if xs == [] then [] else Insert(xs[|xs| - 1], SortBy(xs[..|xs| - 1], le), le)
  }

  lemma BagHead<T>(x: T, ys: seq<T>)
    ensures multiset([x] + ys) == multiset(ys) + multiset{x}
  {
  }

  lemma InsertStep<T>(x: T, y: T, ys: seq<T>, le: (T, T) -> bool)
    ensures Insert(x, [], le) == [x]
    ensures Insert(x, [y] + ys, le) == if le(y, x) then [y] + Insert(x, ys, le) else [x] + ([y] + ys)
  {
    assert ([y] + ys)[1..] == ys;
  }

  lemma {:induction false} InsertBag<T>(x: T, ys: seq<T>, le: (T, T) -> bool)
    ensures multiset(Insert(x, ys, le)) == multiset(ys) + multiset{x}
  {
    hide *;
    if ys == [] {
      InsertStep(x, x, [], le);
    } else {
      var y, rest := ys[0], ys[1..];
      assert ys == [y] + rest;
      InsertStep(x, y, rest, le);
      InsertBag(x, rest, le);
      BagHead(y, rest);
      BagHead(y, Insert(x, rest, le));
      BagHead(x, ys);
    }
  }

  lemma SortStep<T>(xs: seq<T>, x: T, le: (T, T) -> bool)
    ensures SortBy(xs + [x], le) == Insert(x, SortBy(xs, le), le)
  {
    assert (xs + [x])[..|xs|] == xs;
  }

  lemma {:induction false} SortBag<T>(xs: seq<T>, le: (T, T) -> bool)
    ensures multiset(SortBy(xs, le)) == multiset(xs)
  {
    hide *;
    if xs == [] {
      var none: seq<T> := [];
      assert xs == none;
      SortNone(le);
    } else {
      var front, x := xs[..|xs| - 1], xs[|xs| - 1];
      assert xs == front + [x];
      SortBag(front, le);
      SortStep(front, x, le);
      InsertBag(x, SortBy(front, le), le);
    }
  }

  lemma SortNone<T>(le: (T, T) -> bool)
    ensures SortBy([], le) == []
  {
  }

  lemma SortIsPermutation<T>(xs: seq<T>, le: (T, T) -> bool)
    ensures multiset(SortBy(xs, le)) == multiset(xs)
    ensures |SortBy(xs, le)| == |xs|
    ensures forall x :: x in SortBy(xs, le) <==> x in xs
  {
    hide SortBy;
    SortBag(xs, le);
    var ys := SortBy(xs, le);
    assert |multiset(ys)| == |ys| && |multiset(xs)| == |xs|;
    forall x
      ensures x in ys <==> x in xs
    {
      assert x in ys <==> x in multiset(ys);
      assert x in xs <==> x in multiset(xs);
    }
  }

  lemma SortIn<T>(xs: seq<T>, le: (T, T) -> bool, x: T)
    ensures x in SortBy(xs, le) <==> x in xs
    ensures |SortBy(xs, le)| == |xs|
  {
    SortIsPermutation(xs, le);
  }

  lemma BagDistinct<T>(xs: seq<T>)
    requires forall x <- xs :: multiset(xs)[x] <= 1
    ensures Distinct(xs)
  {
    forall i, j | 0 <= i < j < |xs|
      ensures xs[i] != xs[j]
    {
      assert xs[i] in xs;
      if xs[i] == xs[j] {
        TwiceInBag(xs, i, j);
      }
    }
  }

  lemma SortDistinct<T>(xs: seq<T>, le: (T, T) -> bool)
    requires Distinct(xs)
    ensures Distinct(SortBy(xs, le))
  {
    hide SortBy;
    SortIsPermutation(xs, le);
    DistinctBag(xs);
    BagDistinct(SortBy(xs, le));
  }

  ghost predicate Ordering<T(!new)>(le: (T, T) -> bool) {
    && (forall a, b :: le(a, b) || le(b, a))
    && (forall a, b, c :: le(a, b) && le(b, c) ==> le(a, c))
  }

  predicate Sorted<T>(xs: seq<T>, le: (T, T) -> bool) {
    forall i, j | 0 <= i < j < |xs| :: le(xs[i], xs[j])
  }

  /** In order, and of two that may stand either way the one with the lower place first. */
  predicate Stable<T>(xs: seq<T>, le: (T, T) -> bool, place: T -> int) {
    forall i, j | 0 <= i < j < |xs| :: le(xs[i], xs[j]) && (le(xs[j], xs[i]) ==> place(xs[i]) <= place(xs[j]))
  }

  lemma NoneStable<T>(le: (T, T) -> bool, place: T -> int)
    ensures Stable([], le, place)
  {
  }

  lemma StableCons<T>(x: T, ys: seq<T>, le: (T, T) -> bool, place: T -> int)
    requires Stable(ys, le, place) && forall y <- ys :: le(x, y) && (le(y, x) ==> place(x) <= place(y))
    ensures Stable([x] + ys, le, place)
  {
    var xs := [x] + ys;
    forall i, j | 0 <= i < j < |xs|
      ensures le(xs[i], xs[j]) && (le(xs[j], xs[i]) ==> place(xs[i]) <= place(xs[j]))
    {
      assert xs[j] == ys[j - 1] && ys[j - 1] in ys;
    }
  }

  lemma StableTail<T>(x: T, ys: seq<T>, le: (T, T) -> bool, place: T -> int)
    requires Stable([x] + ys, le, place)
    ensures Stable(ys, le, place) && forall y <- ys :: le(x, y) && (le(y, x) ==> place(x) <= place(y))
  {
    var xs := [x] + ys;
    assert ys == xs[1..];
    forall y | y in ys
      ensures le(x, y) && (le(y, x) ==> place(x) <= place(y))
    {
      var j :| 0 <= j < |ys| && ys[j] == y;
      assert xs[0] == x && xs[j + 1] == y;
    }
  }

  lemma {:induction false} InsertStable<T(!new)>(x: T, ys: seq<T>, le: (T, T) -> bool, place: T -> int)
    requires Ordering(le) && Stable(ys, le, place) && forall y <- ys :: place(y) <= place(x)
    ensures Stable(Insert(x, ys, le), le, place)
  {
    hide Insert, Stable;
    if ys == [] {
      InsertStep(x, x, [], le);
      NoneStable(le, place);
      StableCons(x, [], le, place);
      assert ys == [] && [x] + [] == [x];
    } else {
      var y, rest := ys[0], ys[1..];
      assert ys == [y] + rest;
      InsertStep(x, y, rest, le);
      StableTail(y, rest, le, place);
      if le(y, x) {
        InsertStable(x, rest, le, place);
        InsertBag(x, rest, le);
        var after := Insert(x, rest, le);
        forall z | z in after
          ensures le(y, z) && (le(z, y) ==> place(y) <= place(z))
        {
          assert z in multiset(after);
          assert z == x || z in rest;
        }
        StableCons(y, after, le, place);
      } else {
        StableCons(x, ys, le, place);
      }
    }
  }

  /** Elements that may stand either way stay as they stood. */
  lemma {:induction false} SortStable<T(!new)>(xs: seq<T>, le: (T, T) -> bool, place: T -> int)
    requires Ordering(le) && forall i, j | 0 <= i < j < |xs| :: place(xs[i]) <= place(xs[j])
    ensures Stable(SortBy(xs, le), le, place)
  {
    hide Insert, Ordering, Stable;
    if xs == [] {
      NoneStable(le, place);
    } else {
      var front, x := xs[..|xs| - 1], xs[|xs| - 1];
      SortStable(front, le, place);
      forall y | y in SortBy(front, le)
        ensures place(y) <= place(x)
      {
        SortIn(front, le, y);
        var i :| 0 <= i < |front| && front[i] == y;
      }
      InsertStable(x, SortBy(front, le), le, place);
    }
  }

  lemma SortSorts<T(!new)>(xs: seq<T>, le: (T, T) -> bool)
    requires Ordering(le)
    ensures Sorted(SortBy(xs, le), le)
  {
    hide SortBy, Ordering;
    SortStable(xs, le, (x: T) => 0);
  }

  lemma {:induction false} FilterStable<T(!new)>(xs: seq<T>, p: T -> bool, le: (T, T) -> bool, place: T -> int)
    requires Stable(xs, le, place)
    ensures Stable(Filter(xs, p), le, place)
  {
    if xs != [] {
      hide Filter, Stable;
      var x, tail := xs[0], xs[1..];
      assert xs == [x] + tail;
      FilterStep(x, tail, p);
      StableTail(x, tail, le, place);
      FilterStable(tail, p, le, place);
      FilterIn(tail, p);
      if p(x) {
        StableCons(x, Filter(tail, p), le, place);
      }
    }
  }

  /** indexOf, the length standing for -1 */
  function IndexOf<T(==)>(xs: seq<T>, x: T): (i: nat)
    ensures i <= |xs| && (i < |xs| ==> xs[i] == x)
    ensures forall j | 0 <= j < i :: xs[j] != x
  {
    if xs == [] || xs[0] == x then 0 else 1 + IndexOf(xs[1..], x)
  }

  lemma PlacesDiffer<T>(xs: seq<T>, x: T, y: T)
    requires x in xs && x != y
    ensures IndexOf(xs, x) != IndexOf(xs, y)
  {
    hide IndexOf;
    var i :| 0 <= i < |xs| && xs[i] == x;
  }

  lemma OwnPlaces<T>(xs: seq<T>)
    requires Distinct(xs)
    ensures forall i | 0 <= i < |xs| :: IndexOf(xs, xs[i]) == i
  {
    hide IndexOf;
    forall i | 0 <= i < |xs|
      ensures IndexOf(xs, xs[i]) == i
    {
      assert xs[IndexOf(xs, xs[i])] == xs[i];
    }
  }

  /** What comes first after sorting stands before every other element, or as well and was before it already. */
  lemma SortFirst<T(!new)>(xs: seq<T>, le: (T, T) -> bool, x: T)
    requires Ordering(le) && Distinct(xs) && x in xs
    ensures var ys := SortBy(xs, le);
      ys != [] && ys[0] in xs && (x != ys[0] ==> le(ys[0], x) && (le(x, ys[0]) ==> IndexOf(xs, ys[0]) < IndexOf(xs, x)))
  {
    hide SortBy, Ordering, IndexOf, Distinct;
    OwnPlaces(xs);
    SortStable(xs, le, (y: T) => IndexOf(xs, y));
    SortIsPermutation(xs, le);
    var ys := SortBy(xs, le);
    assert x in ys;
    assert ys[0] in ys;
    if x != ys[0] {
      var j :| 0 < j < |ys| && ys[j] == x;
      PlacesDiffer(xs, ys[0], x);
    }
  }

  /** [...new Set(xs)] */
  function Dedup<T(==)>(xs: seq<T>): seq<T> {
    if xs == [] then []
    else
      var n := |xs| - 1;
      var front := Dedup(xs[..n]);
      if xs[n] in front then front else front + [xs[n]]
  }

  lemma {:induction false} DedupIn<T>(xs: seq<T>)
    ensures Distinct(Dedup(xs))
    ensures forall x :: x in Dedup(xs) <==> x in xs
  {
    if xs != [] {
      var n := |xs| - 1;
      DedupIn(xs[..n]);
      assert xs == xs[..n] + [xs[n]];
    }
  }

  lemma DedupIs<T>(xs: seq<T>)
    ensures Distinct(Dedup(xs))
    ensures forall x :: x in Dedup(xs) <==> x in xs
    ensures var d := Dedup(xs); (forall i | 0 <= i < |d| :: d[i] in xs) && forall i | 0 <= i < |xs| :: xs[i] in d
    ensures Dedup(xs) == [] <==> xs == []
  {
    hide Distinct;
    DedupIn(xs);
    var d := Dedup(xs);
    forall i | 0 <= i < |d|
      ensures d[i] in xs
    {
      assert d[i] in Dedup(xs);
    }
    forall i | 0 <= i < |xs|
      ensures xs[i] in d
    {
      assert xs[i] in xs;
    }
  }

  /** Joining a list to another adds, at the end, what is new. */
  lemma {:induction false} DedupPrefix<T>(a: seq<T>, b: seq<T>)
    ensures var d := Dedup(a + b); Dedup(a) <= d && forall i | |Dedup(a)| <= i < |d| :: d[i] !in a
  {
    hide Dedup;
    if b == [] {
      assert a + b == a;
    } else {
      var front, x := b[..|b| - 1], b[|b| - 1];
      DedupPrefix(a, front);
      assert a + b == (a + front) + [x];
      DedupOneMore(a + front, x);
      DedupIs(a + front);
      assert forall y <- a :: y in a + front;
    }
  }

  predicate AtMost(a: int, b: int) { a <= b }

  /** [...new Set(xs)].sort((a, b) => a - b) */
  function Ascending(xs: seq<int>): (r: seq<int>)
    ensures forall x :: x in r <==> x in xs
    ensures forall i | 0 <= i < |r| :: r[i] in xs
  {
    DedupIs(xs);
    SortIsPermutation(Dedup(xs), AtMost);
    SortBy(Dedup(xs), AtMost)
  }

  lemma AscendingIs(xs: seq<int>)
    ensures var r := Ascending(xs); forall i, j | 0 <= i < j < |r| :: r[i] < r[j]
  {
    hide Dedup, SortBy;
    DedupIs(xs);
    assert Ordering(AtMost);
    SortSorts(Dedup(xs), AtMost);
    SortDistinct(Dedup(xs), AtMost);
    var r := Ascending(xs);
    forall i, j | 0 <= i < j < |r|
      ensures r[i] < r[j]
    {
      assert AtMost(r[i], r[j]);
    }
  }

  lemma DedupOneMore<T>(xs: seq<T>, x: T)
    ensures Dedup(xs + [x]) == if x in Dedup(xs) then Dedup(xs) else Dedup(xs) + [x]
  {
    assert (xs + [x])[..|xs|] == xs;
  }

  lemma {:induction false} DistinctCount<T>(xs: seq<T>)
    requires Distinct(xs)
    ensures |set x | x in xs| == |xs|
  {
    if xs == [] {
      assert (set x | x in xs) == {};
    } else {
      DistinctCount(xs[1..]);
      assert xs == [xs[0]] + xs[1..] && xs[0] !in xs[1..];
      assert (set x | x in xs) == {xs[0]} + set x | x in xs[1..];
    }
  }

  lemma DedupCount<T>(xs: seq<T>)
    ensures |Dedup(xs)| == |set x | x in xs|
  {
    hide Dedup;
    DedupIs(xs);
    DistinctCount(Dedup(xs));
    assert (set x | x in Dedup(xs)) == set x | x in xs;
  }

  /** A deduplicated list has one element exactly when the list is not empty and all its elements are equal. */
  lemma DedupOne<T>(xs: seq<T>)
    ensures |Dedup(xs)| == 1 <==> xs != [] && forall i | 0 <= i < |xs| :: xs[i] == xs[0]
    ensures |Dedup(xs)| == 1 ==> Dedup(xs)[0] == xs[0]
  {
    hide Dedup;
    DedupIs(xs);
    var d := Dedup(xs);
    if |d| > 1 {
      var a :| 0 <= a < |xs| && xs[a] == d[0];
      var b :| 0 <= b < |xs| && xs[b] == d[1];
      assert d[0] != d[1];
    } else if |d| == 1 {
      assert forall i | 0 <= i < |xs| :: xs[i] in d && xs[i] == d[0];
    }
  }
}
