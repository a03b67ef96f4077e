/** Sums over finite sets: what a Go `range` over a map accumulates, whatever the order. */
module Sums {

  ghost function Sum<T(!new)>(s: set<T>, f: T -> int): int
    decreases |s|
  {
    if s == {} then 0 else
      var x :| x in s;
      f(x) + Sum(s - {x}, f)
  }

  lemma {:induction false} SumRemove<T(!new)>(s: set<T>, f: T -> int, x: T)
    requires x in s
    ensures Sum(s, f) == f(x) + Sum(s - {x}, f)
    decreases |s|
  {
    var y :| y in s && Sum(s, f) == f(y) + Sum(s - {y}, f);
    if y != x {
      SumRemove(s - {y}, f, x);
      SumRemove(s - {x}, f, y);
      assert s - {y} - {x} == s - {x} - {y};
    }
  }

  lemma {:induction false} SumAdd<T(!new)>(s: set<T>, f: T -> int, x: T)
    requires x !in s
    ensures Sum(s + {x}, f) == Sum(s, f) + f(x)
  {
    SumRemove(s + {x}, f, x);
    assert s + {x} - {x} == s;
  }

  lemma {:induction false} SumSame<T(!new)>(s: set<T>, f: T -> int, g: T -> int)
    requires forall x <- s :: f(x) == g(x)
    ensures Sum(s, f) == Sum(s, g)
    decreases |s|
  {
    if s != {} {
      var x :| x in s;
      SumRemove(s, f, x);
      SumRemove(s, g, x);
      SumSame(s - {x}, f, g);
    }
  }

  /** A larger summand somewhere, and nowhere a smaller one. */
  lemma {:induction false} SumAtLeast<T(!new)>(s: set<T>, f: T -> int, g: T -> int)
    requires forall x <- s :: f(x) >= g(x)
    ensures Sum(s, f) >= Sum(s, g)
    ensures Sum(s, f) == Sum(s, g) <==> forall x <- s :: f(x) == g(x)
    decreases |s|
  {
    if s != {} {
      var x :| x in s;
      SumRemove(s, f, x);
      SumRemove(s, g, x);
      SumAtLeast(s - {x}, f, g);
    }
  }

  lemma {:induction false} SumOfDifferences<T(!new)>(s: set<T>, f: T -> int, g: T -> int, d: T -> int)
    requires forall x <- s :: d(x) == f(x) - g(x)
    ensures Sum(s, d) == Sum(s, f) - Sum(s, g)
    decreases |s|
  {
    if s != {} {
      var x :| x in s;
      SumRemove(s, f, x);
      SumRemove(s, g, x);
      SumRemove(s, d, x);
      SumOfDifferences(s - {x}, f, g, d);
    }
  }

  lemma {:induction false} SumZero<T(!new)>(s: set<T>, f: T -> int)
    requires forall x <- s :: f(x) == 0
    ensures Sum(s, f) == 0
    decreases |s|
  {
    if s != {} {
      var x :| x in s;
      SumRemove(s, f, x);
      SumZero(s - {x}, f);
    }
  }

  lemma {:induction false} SumSplit<T(!new)>(s: set<T>, t: set<T>, f: T -> int)
    requires s !! t
    ensures Sum(s + t, f) == Sum(s, f) + Sum(t, f)
    decreases |s|
  {
    if s == {} {
      assert s + t == t;
    } else {
      var x :| x in s;
      SumRemove(s, f, x);
      SumRemove(s + t, f, x);
      assert s + t - {x} == (s - {x}) + t;
      SumSplit(s - {x}, t, f);
    }
  }

  /** Elements that contribute nothing may be left out. */
  lemma {:induction false} SumSupport<T(!new)>(s: set<T>, t: set<T>, f: T -> int)
    requires forall x :: x in s && x !in t ==> f(x) == 0
    requires forall x :: x in t && x !in s ==> f(x) == 0
    ensures Sum(s, f) == Sum(t, f)
  {
    SumSplit(s * t, s - t, f);
    SumSplit(s * t, t - s, f);
    SumZero(s - t, f);
    SumZero(t - s, f);
    assert s * t + (s - t) == s && s * t + (t - s) == t;
  }

  lemma {:induction false} SumOne<T(!new)>(s: set<T>, f: T -> int, x: T)
    requires x in s && forall y <- s :: y != x ==> f(y) == 0
    ensures Sum(s, f) == f(x)
  {
    SumRemove(s, f, x);
    SumZero(s - {x}, f);
  }
}
