/** Finite sums over sets: the arithmetic under linear forms. */
module Sums {

  /** The sum of `f` over `s`; SumPick shows the order of removal does not matter. */
  ghost function Sum<T(!new)>(s: set<T>, f: T -> int): int {
    if s == {} then 0 else var x :| x in s; f(x) + Sum(s - {x}, f)
  }

  lemma {:induction false} SumPick<T(!new)>(s: set<T>, f: T -> int, x: T)
    requires x in s
    ensures Sum(s, f) == f(x) + Sum(s - {x}, f)
    decreases s
  {
    var y :| y in s && Sum(s, f) == f(y) + Sum(s - {y}, f);
    if y != x {
      SumPick(s - {y}, f, x);
      SumPick(s - {x}, f, y);
      assert s - {x} - {y} == s - {y} - {x};
    }
  }

  lemma {:induction false} SumLinear<T(!new)>(s: set<T>, h: T -> int, f: T -> int, g: T -> int, c: int)
    requires forall x | x in s :: h(x) == f(x) + c * g(x)
    ensures Sum(s, h) == Sum(s, f) + c * Sum(s, g)
    decreases s
  {
    if s != {} {
      var x :| x in s;
      SumPick(s, h, x);
      SumPick(s, f, x);
      SumPick(s, g, x);
      SumLinear(s - {x}, h, f, g, c);
      Distribute(Sum(s, g), g(x), Sum(s - {x}, g), c);
    }
  }

  lemma SumCongruent<T(!new)>(s: set<T>, f: T -> int, g: T -> int)
    requires forall x | x in s :: f(x) == g(x)
    ensures Sum(s, f) == Sum(s, g)
  {
    SumLinear(s, f, g, g, 0);
  }

  /** Points where `f` vanishes may be added freely. */
  lemma {:induction false} SumSuperset<T(!new)>(s: set<T>, t: set<T>, f: T -> int)
    requires t <= s
    requires forall x | x in s - t :: f(x) == 0
    ensures Sum(s, f) == Sum(t, f)
    decreases s
  {
    if s - t == {} {
      assert forall x | x in s :: x in t || x in s - t;
      assert s == t;
    } else {
      var x :| x in s - t;
      SumPick(s, f, x);
      SumSuperset(s - {x}, t, f);
    }
  }

  lemma {:induction false} SumNonneg<T(!new)>(s: set<T>, f: T -> int)
    requires forall x | x in s :: f(x) >= 0
    ensures Sum(s, f) >= 0
    decreases s
  {
    if x :| x in s {
      SumPick(s, f, x);
      SumNonneg(s - {x}, f);
    }
  }

  lemma ProductNonneg(a: int, b: int)
    requires a >= 0 && b >= 0
    ensures a * b >= 0
  {
  }

  ghost function Pairs<T(!new), U(!new)>(xs: set<T>, ys: set<U>): set<(T, U)> {
    set x, y | x in xs && y in ys :: (x, y)
  }

  /** Sums over pairs with one factor from each side multiply out. */
  lemma {:induction false} SumProduct<T(!new), U(!new)>(
    xs: set<T>, ys: set<U>, h: ((T, U)) -> int, f: T -> int, g: U -> int)
    requires forall p | p in Pairs(xs, ys) :: h(p) == f(p.0) * g(p.1)
    ensures Sum(Pairs(xs, ys), h) == Sum(xs, f) * Sum(ys, g)
    decreases xs
  {
    if xs == {} {
      assert Pairs(xs, ys) == {};
    } else {
      var x :| x in xs;
      var row := set y | y in ys :: (x, y);
      var rest := Pairs(xs - {x}, ys);
      assert Pairs(xs, ys) == row + rest;
      SumUnion(row, rest, h);
      forall y | y in ys ensures h((x, y)) == f(x) * g(y) {
        assert (x, y) in Pairs(xs, ys);
      }
      SumRow(x, ys, h, f(x), g);
      assert forall p | p in rest :: p in Pairs(xs, ys);
      SumProduct(xs - {x}, ys, h, f, g);
      SumPick(xs, f, x);
      Distribute(Sum(xs, f), f(x), Sum(xs - {x}, f), Sum(ys, g));
    }
  }

  lemma Distribute(sum: int, a: int, b: int, c: int)
    requires sum == a + b
    ensures sum * c == a * c + b * c
    ensures c * sum == c * a + c * b
  {
  }

  lemma {:induction false} SumUnion<T(!new)>(s: set<T>, t: set<T>, f: T -> int)
    requires s !! t
    ensures Sum(s + t, f) == Sum(s, f) + Sum(t, f)
    decreases s
  {
    if x :| x in s {
      SumPick(s + t, f, x);
      SumPick(s, f, x);
      assert s + t - {x} == (s - {x}) + t;
      SumUnion(s - {x}, t, f);
    } else {
      assert s + t == t;
    }
  }

  lemma {:induction false} SumRow<T(!new), U(!new)>(x: T, ys: set<U>, h: ((T, U)) -> int, c: int, g: U -> int)
    requires forall y | y in ys :: h((x, y)) == c * g(y)
    ensures Sum(set y | y in ys :: (x, y), h) == c * Sum(ys, g)
    decreases ys
  {
    var row := set y | y in ys :: (x, y);
    if y :| y in ys {
      SumPick(row, h, (x, y));
      SumPick(ys, g, y);
      assert row - {(x, y)} == set y' | y' in ys - {y} :: (x, y');
      SumRow(x, ys - {y}, h, c, g);
      Distribute(Sum(ys, g), g(y), Sum(ys - {y}, g), c);
    } else {
      assert row == {};
    }
  }

  /** Exchanging the components of every pair does not change a sum. */
  lemma SumSwap<T(!new), U(!new)>(xs: set<T>, ys: set<U>, f: ((T, U)) -> int, g: ((U, T)) -> int)
    requires forall p | p in Pairs(xs, ys) :: f(p) == g((p.1, p.0))
    ensures Sum(Pairs(xs, ys), f) == Sum(Pairs(ys, xs), g)
  {
    var ps := Pairs(xs, ys);
    var qs := set p | p in ps :: (p.1, p.0);
    SumSwapOver(ps, f, g);
    forall q | q in Pairs(ys, xs) ensures q in qs {
      assert (q.1, q.0) in ps;
    }
    assert qs == Pairs(ys, xs);
  }

  lemma {:induction false} SumSwapOver<T(!new), U(!new)>(ps: set<(T, U)>, f: ((T, U)) -> int, g: ((U, T)) -> int)
    requires forall p | p in ps :: f(p) == g((p.1, p.0))
    ensures Sum(ps, f) == Sum(set p | p in ps :: (p.1, p.0), g)
    decreases ps
  {
    var qs := set p | p in ps :: (p.1, p.0);
    if p :| p in ps {
      assert (p.1, p.0) in qs;
      SumPick(ps, f, p);
      SumPick(qs, g, (p.1, p.0));
      assert qs - {(p.1, p.0)} == set p' | p' in ps - {p} :: (p'.1, p'.0);
      SumSwapOver(ps - {p}, f, g);
    } else {
      assert qs == {};
    }
  }
}
