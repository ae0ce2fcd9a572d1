/** Small facts about finite sets that the window and scheduling arguments share. */
module Basics {

  datatype Option<+T> = None | Some(value: T)

  /** Rounds a quotient up, as `math.ceil(a / b)` does for a positive divisor. */
  function CeilDiv(a: int, b: int): (q: int)
    requires b > 0
    ensures (q - 1) * b < a <= q * b
    ensures a >= 0 ==> q >= 0
  {
    (a + b - 1) / b
  }

  /** Division that truncates toward zero. */
  function TruncDiv(a: int, b: int): (q: int)
    requires b > 0
    ensures a >= 0 ==> q * b <= a < (q + 1) * b
    ensures a < 0 ==> (q - 1) * b < a <= q * b
  {
    if a >= 0 then a / b else -(-a / b)
  }

  lemma {:induction false} Pick<T>(s: set<T>) returns (x: T)
    requires |s| > 0
    ensures x in s
  {
    x :| x in s;
  }

  lemma {:induction false} SubsetSize<T>(a: set<T>, b: set<T>)
    requires a <= b
    ensures |a| <= |b|
  {
    if a == {} {
    } else {
      var x :| x in a;
      SubsetSize(a - {x}, b - {x});
    }
  }

  /** If every element of `b` is the image of an element of `a`, then `b` is no larger than `a`. */
  lemma {:induction false} ImageSize<T, U>(a: set<T>, b: set<U>, f: T -> U)
    requires forall y :: y in b ==> exists x :: x in a && f(x) == y
    ensures |b| <= |a|
  {
    if a == {} {
      assert b == {};
    } else {
      var x :| x in a;
      forall y | y in b - {f(x)} ensures exists x' :: x' in a - {x} && f(x') == y {
        var x' :| x' in a && f(x') == y;
        assert x' in a - {x};
      }
      ImageSize(a - {x}, b - {f(x)}, f);
    }
  }

  /** An injection from `a` into `b` bounds the size of `a`. */
  lemma {:induction false} InjectionSize<T, U>(a: set<T>, b: set<U>, f: T -> U)
    requires forall x :: x in a ==> f(x) in b
    requires forall x, x' :: x in a && x' in a && f(x) == f(x') ==> x == x'
    ensures |a| <= |b|
  {
    if a == {} {
    } else {
      var x :| x in a;
      InjectionSize(a - {x}, b - {f(x)}, f);
    }
  }

  /** A set of indices below `hi` that holds `some` has a largest element. */
  lemma {:induction false} Largest(s: set<int>, some: int, hi: nat) returns (top: int)
    requires some in s
    requires forall x :: x in s ==> 0 <= x < hi
    ensures top in s && forall x :: x in s ==> x <= top
  {
    if hi - 1 in s {
      top := hi - 1;
    } else {
      top := Largest(s, some, hi - 1);
    }
  }

  lemma {:induction false} UnionSize<T>(a: set<T>, b: set<T>)
    ensures |a + b| <= |a| + |b|
  {
    if b == {} {
      assert a + b == a;
    } else {
      var x :| x in b;
      UnionSize(a, b - {x});
      assert a + b == (a + (b - {x})) + {x};
    }
  }

  /** A set covered by two others is no larger than both together. */
  lemma {:induction false} CoverSize<T>(whole: set<T>, a: set<T>, b: set<T>)
    requires whole <= a + b
    ensures |whole| <= |a| + |b|
  {
    SubsetSize(whole, a + b);
    UnionSize(a, b);
  }

  /** Two disjoint parts fit into the whole together. */
  lemma {:induction false} DisjointSize<T>(whole: set<T>, a: set<T>, b: set<T>)
    requires a !! b && a + b <= whole
    ensures |a| + |b| <= |whole|
  {
    if a == {} {
      SubsetSize(b, whole);
    } else {
      var x :| x in a;
      DisjointSize(whole - {x}, a - {x}, b);
    }
  }
}
