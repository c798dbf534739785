/** Filtering and de-duplicating lists, as `lo.Filter` and `lo.Uniq` do. */
module Lists {

  /** `lo.Filter` */
  function Filter<T>(xs: seq<T>, p: T -> bool): seq<T> {
    if xs == [] then []
    else Filter(xs[..|xs| - 1], p) + (if p(xs[|xs| - 1]) then [xs[|xs| - 1]] else [])
  }

  /** `lo.FilterMap`, keeping the images that satisfy `p` */
  function FilterMap<T>(xs: seq<T>, f: T -> T, p: T -> bool): seq<T> {
    if xs == [] then []
    else
      var y := f(xs[|xs| - 1]);
      FilterMap(xs[..|xs| - 1], f, p) + (if p(y) then [y] else [])
  }

  /** `lo.Uniq`: keeps first occurrences. */
  function Uniq<T(==)>(xs: seq<T>): seq<T> {
    if xs == [] then []
    else
      var u := Uniq(xs[..|xs| - 1]);
      if xs[|xs| - 1] in u then u else u + [xs[|xs| - 1]]
  }

  ghost predicate Distinct<T>(xs: seq<T>) { forall i, j :: 0 <= i < j < |xs| ==> xs[i] != xs[j] }

  lemma {:induction false} FilterMembers<T>(xs: seq<T>, p: T -> bool, x: T)
    ensures x in Filter(xs, p) <==> x in xs && p(x)
  {
    if xs != [] {
      FilterMembers(xs[..|xs| - 1], p, x);
      assert xs == xs[..|xs| - 1] + [xs[|xs| - 1]];
    }
  }

  lemma {:induction false} FilterDistinct<T>(xs: seq<T>, p: T -> bool)
    requires Distinct(xs)
    ensures Distinct(Filter(xs, p))
  {
    if xs != [] {
      var init := xs[..|xs| - 1];
      FilterDistinct(init, p);
      FilterMembers(init, p, xs[|xs| - 1]);
    }
  }

  lemma {:induction false} FilterEq<T>(xs: seq<T>, p: T -> bool, q: T -> bool)
    requires forall x :: x in xs ==> p(x) == q(x)
    ensures Filter(xs, p) == Filter(xs, q)
  {
    if xs != [] { FilterEq(xs[..|xs| - 1], p, q); }
  }

  lemma FilterEqIff<T>(xs: seq<T>, p: T -> bool, q: T -> bool)
    ensures Filter(xs, p) == Filter(xs, q) <==> forall x :: x in xs ==> p(x) == q(x)
  {
    if Filter(xs, p) == Filter(xs, q) {
      forall x | x in xs ensures p(x) == q(x) {
        FilterMembers(xs, p, x);
        FilterMembers(xs, q, x);
      }
    } else if forall x :: x in xs ==> p(x) == q(x) {
      FilterEq(xs, p, q);
    }
  }

  lemma {:induction false} FilterFilter<T>(xs: seq<T>, p: T -> bool, q: T -> bool, r: T -> bool)
    requires forall x :: x in xs ==> r(x) == (p(x) && q(x))
    ensures Filter(Filter(xs, p), q) == Filter(xs, r)
  {
    if xs != [] {
      var init, last := xs[..|xs| - 1], xs[|xs| - 1];
      FilterFilter(init, p, q, r);
      assert Filter(xs, p) == if p(last) then Filter(init, p) + [last] else Filter(init, p);
      if p(last) { assert (Filter(init, p) + [last])[..|Filter(init, p)|] == Filter(init, p); }
    }
  }

  lemma {:induction false} FilterConcat<T>(xs: seq<T>, ys: seq<T>, p: T -> bool)
    ensures Filter(xs + ys, p) == Filter(xs, p) + Filter(ys, p)
  {
    if ys == [] {
      assert xs + ys == xs;
    } else {
      FilterConcat(xs, ys[..|ys| - 1], p);
      assert (xs + ys)[..|xs + ys| - 1] == xs + ys[..|ys| - 1];
    }
  }

  lemma {:induction false} FilterNone<T>(xs: seq<T>, p: T -> bool)
    requires forall x :: x in xs ==> !p(x)
    ensures Filter(xs, p) == []
  {
    if xs != [] { FilterNone(xs[..|xs| - 1], p); }
  }

  lemma {:induction false} FilterAll<T>(xs: seq<T>, p: T -> bool)
    requires forall x :: x in xs ==> p(x)
    ensures Filter(xs, p) == xs
  {
    if xs != [] {
      var init, last := xs[..|xs| - 1], xs[|xs| - 1];
      assert xs == init + [last] && last in xs;
      FilterAll(init, p);
    }
  }

  lemma {:induction false} UniqSpec<T>(xs: seq<T>)
    ensures Distinct(Uniq(xs))
    ensures forall x :: x in Uniq(xs) <==> x in xs
  {
    if xs != [] {
      UniqSpec(xs[..|xs| - 1]);
      assert xs == xs[..|xs| - 1] + [xs[|xs| - 1]];
    }
  }

  /** First occurrences are what is kept: more elements only add at the end. */
  lemma {:induction false} UniqPrefix<T>(xs: seq<T>, ys: seq<T>)
    ensures Uniq(xs) <= Uniq(xs + ys)
    decreases |ys|
  {
    if ys == [] {
      assert xs + ys == xs;
    } else {
      UniqPrefix(xs, ys[..|ys| - 1]);
      assert (xs + ys)[..|xs + ys| - 1] == xs + ys[..|ys| - 1];
    }
  }

  lemma {:induction false} FilterMapConcat<T>(xs: seq<T>, ys: seq<T>, f: T -> T, p: T -> bool)
    ensures FilterMap(xs + ys, f, p) == FilterMap(xs, f, p) + FilterMap(ys, f, p)
    decreases |ys|
  {
    if ys == [] {
      assert xs + ys == xs;
    } else {
      FilterMapConcat(xs, ys[..|ys| - 1], f, p);
      assert (xs + ys)[..|xs + ys| - 1] == xs + ys[..|ys| - 1];
    }
  }

  lemma {:induction false} FilterMapMembers<T>(xs: seq<T>, f: T -> T, p: T -> bool, y: T)
    ensures y in FilterMap(xs, f, p) <==> p(y) && exists x :: x in xs && f(x) == y
  {
    if xs != [] {
      var init, last := xs[..|xs| - 1], xs[|xs| - 1];
      FilterMapMembers(init, f, p, y);
      assert xs == init + [last];
      if p(y) && exists x :: x in xs && f(x) == y {
        var x :| x in xs && f(x) == y;
        assert x in init || x == last;
      }
      if y in FilterMap(init, f, p) {
        var x :| x in init && f(x) == y;
        assert x in xs;
      }
    }
  }

  /** A filter keeps the order: it is what is left of the list when only its own elements are kept. */
  lemma FilterKeepsOrder<T>(xs: seq<T>, p: T -> bool)
    ensures Filter(xs, x => x in Filter(xs, p)) == Filter(xs, p)
  {
    forall x | x in xs ensures p(x) == (x in Filter(xs, p)) { FilterMembers(xs, p, x); }
    FilterEq(xs, x => x in Filter(xs, p), p);
  }

  lemma {:induction false} UniqOfDistinct<T>(xs: seq<T>)
    requires Distinct(xs)
    ensures Uniq(xs) == xs
  {
    if xs != [] {
      var init, last := xs[..|xs| - 1], xs[|xs| - 1];
      assert xs == init + [last] && last !in init;
      UniqOfDistinct(init);
    }
  }

  lemma {:induction false} FilterMapAll<T>(xs: seq<T>, f: T -> T, p: T -> bool, good: T -> bool)
    requires forall x :: x in xs && p(f(x)) ==> good(f(x))
    ensures forall y :: y in FilterMap(xs, f, p) ==> good(y)
  {
    if xs != [] { FilterMapAll(xs[..|xs| - 1], f, p, good); }
  }

  lemma {:induction false} FilterMapFixed<T>(xs: seq<T>, f: T -> T, p: T -> bool)
    requires forall x :: x in xs ==> f(x) == x && p(x)
    ensures FilterMap(xs, f, p) == xs
  {
    if xs != [] {
      var init, last := xs[..|xs| - 1], xs[|xs| - 1];
      assert xs == init + [last] && last in xs;
      FilterMapFixed(init, f, p);
    }
  }

  lemma DistinctConcat<T>(xs: seq<T>, ys: seq<T>)
    requires Distinct(xs) && Distinct(ys) && forall y :: y in ys ==> y !in xs
    ensures Distinct(xs + ys)
  {
    forall i, j | 0 <= i < j < |xs + ys| ensures (xs + ys)[i] != (xs + ys)[j] {
      if i < |xs| <= j { assert ys[j - |xs|] in ys && xs[i] in xs; }
    }
  }

  lemma FirstIn<T>(xs: seq<T>)
    ensures xs == [] || xs[0] in xs
  { }

  /** All but one position. */
  function Without<T>(xs: seq<T>, i: int): (r: seq<T>)
    requires 0 <= i < |xs|
    ensures |r| == |xs| - 1
  {
    xs[..i] + xs[i + 1..]
  }

  lemma FilterWithout<T>(xs: seq<T>, i: int, p: T -> bool)
    requires 0 <= i < |xs| && !p(xs[i])
    ensures Filter(Without(xs, i), p) == Filter(xs, p)
  {
    var a, b := xs[..i], xs[i + 1..];
    var head := xs[..i + 1];
    assert xs == head + b && head == a + [xs[i]];
    assert Filter(head, p) == Filter(a, p) by { assert head[..i] == a && head[i] == xs[i]; }
    FilterConcat(a, b, p);
    FilterConcat(head, b, p);
  }

  lemma SoleKept<T>(xs: seq<T>, p: T -> bool)
    requires |xs| <= 1 && Filter(xs, p) != []
    ensures Filter(xs, p) == xs
  {
    if |xs| == 1 {
      assert xs[..0] == [] && Filter(xs[..0], p) == [];
      assert xs == [xs[0]];
    }
  }

  lemma SubSlice<T>(s: seq<T>, a: nat, b: nat, i: nat, j: nat)
    requires a <= b <= |s| && i <= j <= b - a
    ensures s[a..b][i..j] == s[a + i..a + j]
  {
    var x, y := s[a..b][i..j], s[a + i..a + j];
    forall k | 0 <= k < |x| ensures x[k] == y[k] { assert x[k] == s[a..b][i + k]; }
  }
}
