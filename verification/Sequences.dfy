/** Stable sorting, filtering and mapping of sequences. */
module Sequences {

  function Select<T(!new)>(xs: seq<T>, keep: T -> bool): (r: seq<T>)
    ensures forall x :: x in r <==> x in xs && keep(x)
  {
    if xs == [] then []
    else if keep(xs[0]) then [xs[0]] + Select(xs[1..], keep)
    else Select(xs[1..], keep)
  }

  lemma {:induction false} SelectCongruent<T(!new)>(xs: seq<T>, f: T -> bool, g: T -> bool)
    requires forall x :: x in xs ==> f(x) == g(x)
    ensures Select(xs, f) == Select(xs, g)
  {
    if xs != [] {
      assert xs[0] in xs;
      SelectCongruent(xs[1..], f, g);
    }
  }

  /** Puts `x` in front of the first element it is not after, which keeps equals in order. */
  function Insert<T>(x: T, xs: seq<T>, less: (T, T) -> bool): (r: seq<T>)
    ensures multiset(r) == multiset{x} + multiset(xs)
    ensures |r| == |xs| + 1
  {
    if xs == [] then [x]
    else if !less(xs[0], x) then [x] + xs
    else
      var rest := Insert(x, xs[1..], less);
      assert xs == [xs[0]] + xs[1..];
      [xs[0]] + rest
  }

  /** `sort_by`. */
  function Sort<T>(xs: seq<T>, less: (T, T) -> bool): (r: seq<T>)
    ensures multiset(r) == multiset(xs)
    ensures |r| == |xs|
  {
    if xs == [] then []
    else
      assert xs == [xs[0]] + xs[1..];
      Insert(xs[0], Sort(xs[1..], less), less)
  }

  ghost predicate WeakOrder<T(!new)>(less: (T, T) -> bool) {
    && (forall a, b :: less(a, b) ==> !less(b, a))
    && (forall a, b, c :: less(a, c) ==> less(a, b) || less(b, c))
  }

  ghost predicate InOrder<T>(xs: seq<T>, less: (T, T) -> bool) {
    forall i, j :: 0 <= i < j < |xs| ==> !less(xs[j], xs[i])
  }

  ghost predicate StrictlyInOrder<T>(xs: seq<T>, less: (T, T) -> bool) {
    forall i, j :: 0 <= i < j < |xs| ==> less(xs[i], xs[j])
  }

  lemma {:induction false} InsertInOrder<T(!new)>(x: T, xs: seq<T>, less: (T, T) -> bool)
    requires WeakOrder(less) && InOrder(xs, less)
    ensures InOrder(Insert(x, xs, less), less)
  {
    if xs != [] {
      if less(xs[0], x) {
        InsertInOrder(x, xs[1..], less);
        var rest := Insert(x, xs[1..], less);
        forall j | 0 <= j < |rest|
          ensures !less(rest[j], xs[0])
        {
          assert rest[j] in multiset(rest);
          assert rest[j] == x || rest[j] in xs[1..];
        }
      } else {
        forall j | 0 <= j < |xs|
          ensures !less(xs[j], x)
        {
          assert !less(xs[j], xs[0]);
        }
      }
    }
  }

  lemma {:induction false} SortInOrder<T(!new)>(xs: seq<T>, less: (T, T) -> bool)
    requires WeakOrder(less)
    ensures InOrder(Sort(xs, less), less)
  {
    if xs != [] {
      SortInOrder(xs[1..], less);
      InsertInOrder(xs[0], Sort(xs[1..], less), less);
    }
  }

  lemma SameHead<T(!new)>(xs: seq<T>, ys: seq<T>, less: (T, T) -> bool)
    requires InOrder(xs, less) && StrictlyInOrder(ys, less)
    requires multiset(xs) == multiset(ys) && xs != [] && ys != []
    ensures xs[0] == ys[0]
  {
    assert xs[0] in multiset(ys) && ys[0] in multiset(xs);
    var j :| 0 <= j < |ys| && ys[j] == xs[0];
    var k :| 0 <= k < |xs| && xs[k] == ys[0];
  }

  /** The strictly ordered arrangement of a list is the one the sort produces. */
  lemma {:induction false} SortedUnique<T(!new)>(xs: seq<T>, ys: seq<T>, less: (T, T) -> bool)
    requires InOrder(xs, less) && StrictlyInOrder(ys, less)
    requires multiset(xs) == multiset(ys)
    ensures xs == ys
    decreases |xs|
  {
    assert |xs| == |multiset(xs)| && |ys| == |multiset(ys)|;
    if xs != [] {
      SameHead(xs, ys, less);
      assert xs == [xs[0]] + xs[1..] && ys == [ys[0]] + ys[1..];
      assert multiset(xs[1..]) == multiset(xs) - multiset{xs[0]};
      assert multiset(ys[1..]) == multiset(ys) - multiset{ys[0]};
      SortedUnique(xs[1..], ys[1..], less);
    }
  }

  lemma SortFinds<T(!new)>(xs: seq<T>, ys: seq<T>, less: (T, T) -> bool)
    requires WeakOrder(less) && StrictlyInOrder(ys, less)
    requires multiset(xs) == multiset(ys)
    ensures Sort(xs, less) == ys
  {
    SortInOrder(xs, less);
    SortedUnique(Sort(xs, less), ys, less);
  }

  lemma ConcatInOrder<T>(a: seq<T>, b: seq<T>, less: (T, T) -> bool)
    requires StrictlyInOrder(a, less) && StrictlyInOrder(b, less)
    requires forall x, y :: x in a && y in b ==> less(x, y)
    ensures StrictlyInOrder(a + b, less)
  {
    forall i, j | 0 <= i < j < |a + b|
      ensures less((a + b)[i], (a + b)[j])
    {
      if i < |a| <= j {
        assert a[i] in a && b[j - |a|] in b;
      }
    }
  }
}
