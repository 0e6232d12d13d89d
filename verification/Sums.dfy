/** Finite sums of reals over sets, independent of the order of summation. */
module Sums {

  /** Multiplication, named so that proofs meet it as a term. */
  function Times(x: real, y: real): real {
    x * y
  }

  lemma Distribute(w: real, x: real, y: real)
    ensures Times(w, x + y) == Times(w, x) + Times(w, y)
  {
  }

  ghost function Sum<T(!new)>(s: set<T>, f: T -> real): real {
    if s == {} then 0.0
    else
      var x :| x in s;
      f(x) + Sum(s - {x}, f)
  }

  lemma {:induction false} SumPick<T(!new)>(s: set<T>, f: T -> real, x: T)
    requires x in s
    ensures Sum(s, f) == f(x) + Sum(s - {x}, f)
  {
    var y :| y in s && Sum(s, f) == f(y) + Sum(s - {y}, f);
    if y != x {
      SumPick(s - {y}, f, x);
      SumPick(s - {x}, f, y);
      assert s - {y} - {x} == s - {x} - {y};
    }
  }

  lemma {:induction false} SumEqual<T(!new)>(s: set<T>, f: T -> real, g: T -> real)
    requires forall x | x in s :: f(x) == g(x)
    ensures Sum(s, f) == Sum(s, g)
  {
    if s != {} {
      var x :| x in s;
      SumPick(s, f, x);
      SumPick(s, g, x);
      SumEqual(s - {x}, f, g);
    }
  }

  /** Elements where f vanishes may be dropped. */
  lemma {:induction false} SumSupport<T(!new)>(s: set<T>, t: set<T>, f: T -> real)
    requires t <= s && forall x | x in s - t :: f(x) == 0.0
    ensures Sum(s, f) == Sum(t, f)
    decreases s
  {
    if s <= t {
      assert s == t;
    } else {
      var x :| x in s && x !in t;
      SumPick(s, f, x);
      SumSupport(s - {x}, t, f);
    }
  }

  lemma {:induction false} SumNonNegative<T(!new)>(s: set<T>, f: T -> real)
    requires forall x | x in s :: f(x) >= 0.0
    ensures Sum(s, f) >= 0.0
  {
    if s != {} {
      var x :| x in s;
      SumPick(s, f, x);
      SumNonNegative(s - {x}, f);
    }
  }

  lemma {:induction false} SumPositive<T(!new)>(s: set<T>, f: T -> real)
    requires s != {} && forall x | x in s :: f(x) > 0.0
    ensures Sum(s, f) > 0.0
  {
    var x :| x in s;
    SumPick(s, f, x);
    SumNonNegative(s - {x}, f);
  }

  lemma {:induction false} SumScale<T(!new)>(s: set<T>, f: T -> real, g: T -> real, c: real)
    requires forall x | x in s :: g(x) == Times(c, f(x))
    ensures Sum(s, g) == Times(c, Sum(s, f))
  {
    if s != {} {
      var x :| x in s;
      SumPick(s, f, x);
      SumPick(s, g, x);
      SumScale(s - {x}, f, g, c);
      Distribute(c, f(x), Sum(s - {x}, f));
    }
  }

  lemma {:induction false} SumAddLe<T(!new)>(s: set<T>, f: T -> real, g: T -> real, h: T -> real)
    requires forall x | x in s :: 2.0 * f(x) <= g(x) + h(x)
    ensures 2.0 * Sum(s, f) <= Sum(s, g) + Sum(s, h)
  {
    if s != {} {
      var x :| x in s;
      SumPick(s, f, x);
      SumPick(s, g, x);
      SumPick(s, h, x);
      SumAddLe(s - {x}, f, g, h);
    }
  }

  lemma {:induction false} SumMonotone<T(!new)>(t: set<T>, s: set<T>, f: T -> real)
    requires t <= s && forall x | x in s :: f(x) >= 0.0
    ensures Sum(t, f) <= Sum(s, f)
    decreases s
  {
    if s <= t {
      assert s == t;
    } else {
      var x :| x in s && x !in t;
      SumPick(s, f, x);
      SumMonotone(t, s - {x}, f);
    }
  }
}
