/**
 * Canonical linear forms: a constant plus a sum of coefficient-weighted atoms
 * (internal/core/value.go). Atoms are their own keys. Every operation the
 * source runs by updating coefficient maps is a method here, proved against a
 * function; the lemmas say what those functions mean under every valuation.
 */
module Linear {
  import opened Sums

  datatype Form<K(==)> = Form(c: int, coef: map<K, int>)

  predicate Canonical<K(==)>(f: Form<K>) {
    forall k | k in f.coef :: f.coef[k] != 0
  }

  /** A form without zero coefficients: equal forms are equal coefficient maps. */
  type Lin<K(==)> = f: Form<K> | Canonical(f) witness Form(0, map[])

  function At<K(==)>(l: Lin<K>, k: K): int {
    if k in l.coef then l.coef[k] else 0
  }

  function Const<K(==)>(c: int): Lin<K> {
    Form(c, map[])
  }

  function Atom<K(==)>(k: K): Lin<K> {
    Form(0, map[k := 1])
  }

  predicate Ground<K(==)>(l: Lin<K>) {
    l.coef == map[]
  }

  // ------------------------------------------------------------- meaning

  ghost function Weighted<K(!new)>(l: Lin<K>, w: K -> int): K -> int {
    k => At(l, k) * w(k)
  }

  /** What a form denotes when atom `k` stands for `w(k)`. */
  ghost function Val<K(!new)>(l: Lin<K>, w: K -> int): int {
    l.c + Sum(l.coef.Keys, Weighted(l, w))
  }

  ghost predicate Natural<K(!new)>(w: K -> int) {
    forall k :: w(k) >= 0
  }

  // ---------------------------------------------------------- operations

  /** a + s*b, coefficient by coefficient. */
  function Add<K(==)>(a: Lin<K>, b: Lin<K>, s: int): Lin<K> {
    Form(a.c + s * b.c,
         map k | k in a.coef.Keys + b.coef.Keys && At(a, k) + s * At(b, k) != 0 :: At(a, k) + s * At(b, k))
  }

  function Scale<K(==)>(l: Lin<K>, s: int): Lin<K> {
    Form(l.c * s, map k | k in l.coef && l.coef[k] * s != 0 :: l.coef[k] * s)
  }

  function Drop<K(==)>(l: Lin<K>, k: K): Lin<K> {
    Form(l.c, l.coef - {k})
  }

  /** Replaces atom `k` by `repl`. */
  function Subst<K(==)>(l: Lin<K>, k: K, repl: Lin<K>): Lin<K> {
    if k !in l.coef then l else Add(Drop(l, k), Scale(repl, l.coef[k]), 1)
  }

  /** The contribution to atom `k` of the products of the pairs of atoms in `ps`. */
  ghost function CrossTerm<K(!new)>(a: Lin<K>, b: Lin<K>, prod: (K, K) -> K, k: K): ((K, K)) -> int {
    (p: (K, K)) => if prod(p.0, p.1) == k then At(a, p.0) * At(b, p.1) else 0
  }

  ghost function Cross<K(!new)>(a: Lin<K>, b: Lin<K>, prod: (K, K) -> K, ps: set<(K, K)>, k: K): int {
    Sum(ps, CrossTerm(a, b, prod, k))
  }

  /** Constants times the other side's atoms. */
  function Outer<K(==)>(a: Lin<K>, b: Lin<K>, k: K): int {
    a.c * At(b, k) + b.c * At(a, k)
  }

  ghost function CrossWeighted<K(!new)>(
    a: Lin<K>, b: Lin<K>, prod: (K, K) -> K, ps: set<(K, K)>, w: K -> int): K -> int
  {
    k => Cross(a, b, prod, ps, k) * w(k)
  }

  ghost function OuterWeighted<K(!new)>(a: Lin<K>, b: Lin<K>, w: K -> int): K -> int {
    k => Outer(a, b, k) * w(k)
  }

  ghost function PairWeighted<K(!new)>(a: Lin<K>, b: Lin<K>, prod: (K, K) -> K, w: K -> int): ((K, K)) -> int {
    (p: (K, K)) => At(a, p.0) * At(b, p.1) * w(prod(p.0, p.1))
  }

  ghost function MulKeys<K(!new)>(a: Lin<K>, b: Lin<K>, prod: (K, K) -> K): set<K> {
    a.coef.Keys + b.coef.Keys + set p | p in Pairs(a.coef.Keys, b.coef.Keys) :: prod(p.0, p.1)
  }

  /** The product of two forms, `prod` naming the opaque product of two atoms. */
  ghost function Mul<K(!new)>(a: Lin<K>, b: Lin<K>, prod: (K, K) -> K): Lin<K> {
    var ps := Pairs(a.coef.Keys, b.coef.Keys);
    Form(a.c * b.c,
         map k | k in MulKeys(a, b, prod) && Outer(a, b, k) + Cross(a, b, prod, ps, k) != 0
           :: Outer(a, b, k) + Cross(a, b, prod, ps, k))
  }

  // ----------------------------------------------- the loops of the source

  function Look<K(==)>(coef: map<K, int>, k: K): int {
    if k in coef then coef[k] else 0
  }

  method AddCoef<K(==)>(coef: map<K, int>, k: K, add: int) returns (out: map<K, int>)
    requires forall j | j in coef :: coef[j] != 0
    requires add != 0
    ensures forall j | j in out :: out[j] != 0
    ensures Look(out, k) == Look(coef, k) + add
    ensures forall j | j != k :: Look(out, j) == Look(coef, j)
  {
    if k in coef {
      if coef[k] + add == 0 {
        out := coef - {k};
      } else {
        out := coef[k := coef[k] + add];
      }
    } else {
      out := coef[k := add];
    }
  }

  lemma AddLooks<K>(a: Lin<K>, b: Lin<K>, s: int, coef: map<K, int>)
    requires forall k | k in coef :: coef[k] != 0
    requires forall k :: Look(coef, k) == At(a, k) + s * At(b, k)
    ensures coef == Add(a, b, s).coef
  {
    forall k ensures k in coef <==> k in Add(a, b, s).coef {
      assert Look(coef, k) == At(a, k) + s * At(b, k);
    }
    forall k | k in coef ensures coef[k] == Add(a, b, s).coef[k] {
      assert Look(coef, k) == At(a, k) + s * At(b, k);
    }
  }

  /** linAdd: the result is built by folding b's entries into a copy of a. */
  method LinAdd<K(==, !new)>(a: Lin<K>, b: Lin<K>, s: int) returns (out: Lin<K>)
    requires s == 1 || s == -1
    ensures out == Add(a, b, s)
  {
    var c, coef := a.c + s * b.c, a.coef;
    var todo := b.coef.Keys;
    while todo != {}
      invariant todo <= b.coef.Keys
      invariant forall k | k in coef :: coef[k] != 0
      invariant forall k :: Look(coef, k) == At(a, k) + if k in todo then 0 else s * At(b, k)
      decreases todo
    {
      var k :| k in todo;
      todo := todo - {k};
      coef := AddCoef(coef, k, s * b.coef[k]);
    }
    AddLooks(a, b, s, coef);
    out := Form(c, coef);
  }

  /** linScale: scaling by zero leaves the constant form zero. */
  method LinScale<K(==)>(l: Lin<K>, s: int) returns (out: Lin<K>)
    ensures out == Scale(l, s)
  {
    if s == 0 {
      assert Scale(l, s).coef == map[];
      return Const(l.c * s);
    }
    var coef: map<K, int> := map[];
    var todo := l.coef.Keys;
    while todo != {}
      invariant todo <= l.coef.Keys
      invariant coef.Keys == l.coef.Keys - todo
      invariant forall k :: k in coef ==> coef[k] == l.coef[k] * s && coef[k] != 0
      decreases todo
    {
      var k :| k in todo;
      todo := todo - {k};
      NonZeroProduct(l.coef[k], s);
      coef := coef[k := l.coef[k] * s];
    }
    assert coef == Scale(l, s).coef by {
      forall k | k in l.coef ensures l.coef[k] * s != 0 {
        NonZeroProduct(l.coef[k], s);
      }
    }
    out := Form(l.c * s, coef);
  }

  lemma AddTerms(r: int, x: int, y: int, s: int, v: int)
    requires r == x + s * y
    ensures r * v == x * v + s * (y * v)
  {
    Distribute(r, x, s * y, v);
    Associate(s, y, v);
  }

  lemma Associate(x: int, y: int, z: int)
    ensures (x * y) * z == x * (y * z)
  {
  }

  lemma NonZeroProduct(a: int, b: int)
    requires a != 0 && b != 0
    ensures a * b != 0
  {
  }

  method SubstAtom<K(==, !new)>(l: Lin<K>, k: K, repl: Lin<K>) returns (out: Lin<K>)
    ensures out == Subst(l, k, repl)
  {
    if k !in l.coef {
      return l;
    }
    var scaled := LinScale(repl, l.coef[k]);
    out := LinAdd(Drop(l, k), scaled, 1);
  }

  /** The addScaled step of linMul: factor times the atoms of src, folded into dst. */
  method AddScaled<K(==, !new)>(dst: Lin<K>, src: Lin<K>, factor: int) returns (out: Lin<K>)
    ensures out.c == dst.c
    ensures forall k :: At(out, k) == At(dst, k) + factor * At(src, k)
  {
    if factor == 0 {
      return dst;
    }
    var scaled := LinScale(Form(0, src.coef), factor);
    out := LinAdd(dst, scaled, 1);
    forall k ensures At(out, k) == At(dst, k) + factor * At(src, k) {
      if k in src.coef {
        NonZeroProduct(src.coef[k], factor);
      }
    }
  }

  /** linMul: ground factors distribute, products of atoms stay opaque. */
  method LinMul<K(==, !new)>(a: Lin<K>, b: Lin<K>, prod: (K, K) -> K) returns (out: Lin<K>)
    ensures out == Mul(a, b, prod)
  {
    out := Const(a.c * b.c);
    out := AddScaled(out, b, a.c);
    out := AddScaled(out, a, b.c);
    var coef := out.coef;
    ghost var done: set<(K, K)> := {};
    var todoA := a.coef.Keys;
    while todoA != {}
      invariant todoA <= a.coef.Keys
      invariant done == Pairs(a.coef.Keys - todoA, b.coef.Keys)
      invariant CrossProgress(a, b, prod, done, coef)
      decreases todoA
    {
      var ka :| ka in todoA;
      ghost var row: set<(K, K)> := {};
      assert done + row == done;
      var todoB := b.coef.Keys;
      while todoB != {}
        invariant todoB <= b.coef.Keys
        invariant row == Pairs({ka}, b.coef.Keys - todoB)
        invariant CrossProgress(a, b, prod, done + row, coef)
        decreases todoB
      {
        var kb :| kb in todoB;
        var k := prod(ka, kb);
        var c := a.coef[ka] * b.coef[kb];
        NonZeroProduct(a.coef[ka], b.coef[kb]);
        CrossStep(a, b, prod, done + row, ka, kb, coef);
        if k in coef {
          if coef[k] + c == 0 {
            coef := coef - {k};
          } else {
            coef := coef[k := coef[k] + c];
          }
        } else {
          coef := coef[k := c];
        }
        todoB := todoB - {kb};
        assert done + row + {(ka, kb)} == done + (row + {(ka, kb)});
        row := row + {(ka, kb)};
        assert row == Pairs({ka}, b.coef.Keys - todoB);
      }
      todoA := todoA - {ka};
      done := done + row;
      assert done == Pairs(a.coef.Keys - todoA, b.coef.Keys);
    }
    assert a.coef.Keys - todoA == a.coef.Keys;
    CrossDone(a, b, prod, coef);
    out := Form(a.c * b.c, coef);
  }

  /** After the pairs `ps` have been folded in, every coefficient is exact. */
  ghost predicate CrossProgress<K(!new)>(a: Lin<K>, b: Lin<K>, prod: (K, K) -> K, ps: set<(K, K)>, coef: map<K, int>) {
    && Canonical(Form(0, coef))
    && forall k :: At(Form(0, coef), k) == Outer(a, b, k) + Cross(a, b, prod, ps, k)
  }

  function Bump<K(==)>(coef: map<K, int>, k: K, c: int): map<K, int> {
    if k in coef then
      if coef[k] + c == 0 then coef - {k} else coef[k := coef[k] + c]
    else
      coef[k := c]
  }

  lemma CrossStep<K(!new)>(a: Lin<K>, b: Lin<K>, prod: (K, K) -> K, ps: set<(K, K)>, ka: K, kb: K, coef: map<K, int>)
    requires ka in a.coef && kb in b.coef && (ka, kb) !in ps
    requires CrossProgress(a, b, prod, ps, coef)
    ensures CrossProgress(a, b, prod, ps + {(ka, kb)}, Bump(coef, prod(ka, kb), a.coef[ka] * b.coef[kb]))
  {
    NonZeroProduct(a.coef[ka], b.coef[kb]);
    var ps' := ps + {(ka, kb)};
    var coef' := Bump(coef, prod(ka, kb), a.coef[ka] * b.coef[kb]);
    assert Canonical(Form(0, coef'));
    forall k ensures At(Form(0, coef'), k) == Outer(a, b, k) + Cross(a, b, prod, ps', k) {
      SumPick(ps', CrossTerm(a, b, prod, k), (ka, kb));
      assert ps' - {(ka, kb)} == ps;
      assert At(Form(0, coef), k) == Outer(a, b, k) + Cross(a, b, prod, ps, k);
    }
  }

  lemma CrossDone<K(!new)>(a: Lin<K>, b: Lin<K>, prod: (K, K) -> K, coef: map<K, int>)
    requires CrossProgress(a, b, prod, Pairs(a.coef.Keys, b.coef.Keys), coef)
    ensures Form(a.c * b.c, coef) == Mul(a, b, prod)
  {
    var ps := Pairs(a.coef.Keys, b.coef.Keys);
    forall k | k !in MulKeys(a, b, prod) ensures At(Form(0, coef), k) == 0 {
      CrossAbsent(a, b, prod, k);
    }
    assert forall k :: k in coef <==> At(Form(0, coef), k) != 0;
    assert coef == Mul(a, b, prod).coef;
  }

  lemma CrossAbsent<K(!new)>(a: Lin<K>, b: Lin<K>, prod: (K, K) -> K, k: K)
    requires k !in MulKeys(a, b, prod)
    ensures Cross(a, b, prod, Pairs(a.coef.Keys, b.coef.Keys), k) == 0
  {
    var ps := Pairs(a.coef.Keys, b.coef.Keys);
    SumSuperset(ps, {}, CrossTerm(a, b, prod, k));
  }

  // -------------------------------------------------------------- lemmas

  /** The keys summed over may be any finite set holding the form's atoms. */
  lemma ValOver<K(!new)>(l: Lin<K>, w: K -> int, s: set<K>)
    requires l.coef.Keys <= s
    ensures Val(l, w) == l.c + Sum(s, Weighted(l, w))
  {
    SumSuperset(s, l.coef.Keys, Weighted(l, w));
  }

  lemma ValCongruent<K(!new)>(l: Lin<K>, w: K -> int, w': K -> int)
    requires forall k | k in l.coef :: w(k) == w'(k)
    ensures Val(l, w) == Val(l, w')
  {
    SumCongruent(l.coef.Keys, Weighted(l, w), Weighted(l, w'));
  }

  lemma ValConst<K(!new)>(c: int, w: K -> int)
    ensures Val(Const(c), w) == c
  {
  }

  lemma ValAtom<K(!new)>(k: K, w: K -> int)
    ensures Val(Atom(k), w) == w(k)
  {
    var l := Atom(k);
    SumPick(l.coef.Keys, Weighted(l, w), k);
    assert l.coef.Keys - {k} == {};
  }

  lemma AddAt<K(!new)>(a: Lin<K>, b: Lin<K>, s: int, w: K -> int, k: K)
    ensures Weighted(Add(a, b, s), w)(k) == Weighted(a, w)(k) + s * Weighted(b, w)(k)
  {
    AddTerms(At(Add(a, b, s), k), At(a, k), At(b, k), s, w(k));
  }

  /** linAdd denotes a + s*b under every valuation. */
  lemma ValAdd<K(!new)>(a: Lin<K>, b: Lin<K>, s: int, w: K -> int)
    ensures Val(Add(a, b, s), w) == Val(a, w) + s * Val(b, w)
  {
    var ks := a.coef.Keys + b.coef.Keys;
    var r := Add(a, b, s);
    ValOver(a, w, ks);
    ValOver(b, w, ks);
    ValOver(r, w, ks);
    forall k | k in ks ensures Weighted(r, w)(k) == Weighted(a, w)(k) + s * Weighted(b, w)(k) {
      AddAt(a, b, s, w, k);
    }
    SumLinear(ks, Weighted(r, w), Weighted(a, w), Weighted(b, w), s);
    Distribute(Val(b, w), b.c, Sum(ks, Weighted(b, w)), s);
  }

  lemma ValScale<K(!new)>(l: Lin<K>, s: int, w: K -> int)
    ensures Val(Scale(l, s), w) == s * Val(l, w)
  {
    var r := Scale(l, s);
    var ks := l.coef.Keys;
    ValOver(r, w, ks);
    var zero := (k: K) => 0;
    forall k | k in ks ensures Weighted(r, w)(k) == zero(k) + s * Weighted(l, w)(k) {
      AddTerms(At(r, k), 0, At(l, k), s, w(k));
    }
    SumLinear(ks, Weighted(r, w), zero, Weighted(l, w), s);
    Distribute(Val(l, w), l.c, Sum(ks, Weighted(l, w)), s);
    SumSuperset(ks, {}, zero);
  }

  lemma ValDrop<K(!new)>(l: Lin<K>, k: K, w: K -> int)
    ensures Val(l, w) == Val(Drop(l, k), w) + At(l, k) * w(k)
  {
    if k in l.coef {
      SumPick(l.coef.Keys, Weighted(l, w), k);
      assert Drop(l, k).coef.Keys == l.coef.Keys - {k};
      SumCongruent(l.coef.Keys - {k}, Weighted(l, w), Weighted(Drop(l, k), w));
    } else {
      assert Drop(l, k).coef == l.coef;
    }
  }

  /** Substituting for an atom is reading that atom as its replacement. */
  lemma ValSubst<K(!new)>(l: Lin<K>, k: K, repl: Lin<K>, w: K -> int, w': K -> int)
    requires w'(k) == Val(repl, w) && forall j | j != k :: w'(j) == w(j)
    ensures Val(Subst(l, k, repl), w) == Val(l, w')
  {
    ValDrop(l, k, w');
    ValCongruent(Drop(l, k), w, w');
    if k in l.coef {
      ValReplaced(l, k, repl, w);
    } else {
      assert Drop(l, k).coef == l.coef;
    }
  }

  lemma ValReplaced<K(!new)>(l: Lin<K>, k: K, repl: Lin<K>, w: K -> int)
    requires k in l.coef
    ensures Val(Subst(l, k, repl), w) == Val(Drop(l, k), w) + l.coef[k] * Val(repl, w)
  {
    var scaled := Scale(repl, l.coef[k]);
    ValAdd(Drop(l, k), scaled, 1, w);
    ValScale(repl, l.coef[k], w);
    assert 1 * Val(scaled, w) == Val(scaled, w);
  }

  lemma MulAt<K(!new)>(a: Lin<K>, b: Lin<K>, prod: (K, K) -> K, w: K -> int, k: K)
    requires k in MulKeys(a, b, prod)
    ensures Weighted(Mul(a, b, prod), w)(k)
         == OuterWeighted(a, b, w)(k) + CrossWeighted(a, b, prod, Pairs(a.coef.Keys, b.coef.Keys), w)(k)
  {
    Distribute(At(Mul(a, b, prod), k), Outer(a, b, k), Cross(a, b, prod, Pairs(a.coef.Keys, b.coef.Keys), k), w(k));
  }

  lemma PairAt<K(!new)>(a: Lin<K>, b: Lin<K>, prod: (K, K) -> K, w: K -> int, p: (K, K))
    requires w(prod(p.0, p.1)) == w(p.0) * w(p.1)
    ensures PairWeighted(a, b, prod, w)(p) == Weighted(a, w)(p.0) * Weighted(b, w)(p.1)
  {
    Rearrange(At(a, p.0), At(b, p.1), w(p.0), w(p.1));
  }

  /** linMul denotes the product under every valuation that reads product atoms as products. */
  lemma ValMul<K(!new)>(a: Lin<K>, b: Lin<K>, prod: (K, K) -> K, w: K -> int)
    requires forall x, y | x in a.coef && y in b.coef :: w(prod(x, y)) == w(x) * w(y)
    ensures Val(Mul(a, b, prod), w) == Val(a, w) * Val(b, w)
  {
    var r := Mul(a, b, prod);
    var ks := MulKeys(a, b, prod);
    var ps := Pairs(a.coef.Keys, b.coef.Keys);
    ValOver(a, w, ks);
    ValOver(b, w, ks);
    ValOver(r, w, ks);
    var outer, cross, h := OuterWeighted(a, b, w), CrossWeighted(a, b, prod, ps, w), PairWeighted(a, b, prod, w);
    forall k | k in ks ensures Weighted(r, w)(k) == outer(k) + 1 * cross(k) {
      MulAt(a, b, prod, w, k);
    }
    SumLinear(ks, Weighted(r, w), outer, cross, 1);
    SumOuter(a, b, w, ks);
    SumCross(a, b, prod, w, ks, ps);
    forall p | p in ps ensures h(p) == Weighted(a, w)(p.0) * Weighted(b, w)(p.1) {
      PairAt(a, b, prod, w, p);
    }
    SumProduct(a.coef.Keys, b.coef.Keys, h, Weighted(a, w), Weighted(b, w));
    Binomial(Val(a, w), Val(b, w), a.c, b.c, Sum(a.coef.Keys, Weighted(a, w)), Sum(b.coef.Keys, Weighted(b, w)));
  }

  lemma Rearrange(a: int, b: int, x: int, y: int)
    ensures a * b * (x * y) == (a * x) * (b * y)
  {
    assert a * b * (x * y) == a * (b * (x * y)) == a * (x * (b * y)) == (a * x) * (b * y) by {
      assert b * (x * y) == x * (b * y);
    }
  }

  lemma Binomial(p: int, q: int, a: int, b: int, x: int, y: int)
    requires p == a + x && q == b + y
    ensures p * q == a * b + (a * y + b * x) + x * y
  {
    Distribute(p, a, x, q);
    Distribute(q, b, y, a);
    Distribute(q, b, y, x);
  }

  lemma SumOuter<K(!new)>(a: Lin<K>, b: Lin<K>, w: K -> int, ks: set<K>)
    requires a.coef.Keys + b.coef.Keys <= ks
    ensures Sum(ks, OuterWeighted(a, b, w))
         == a.c * Sum(b.coef.Keys, Weighted(b, w)) + b.c * Sum(a.coef.Keys, Weighted(a, w))
  {
    var zero := (k: K) => 0;
    var scaled := ScaledWeighted(b, a.c, w);
    forall k | k in ks ensures OuterWeighted(a, b, w)(k) == scaled(k) + b.c * Weighted(a, w)(k) {
      OuterAt(a, b, w, k);
    }
    SumLinear(ks, OuterWeighted(a, b, w), scaled, Weighted(a, w), b.c);
    SumLinear(ks, scaled, zero, Weighted(b, w), a.c);
    SumSuperset(ks, {}, zero);
    SumSuperset(ks, a.coef.Keys, Weighted(a, w));
    SumSuperset(ks, b.coef.Keys, Weighted(b, w));
  }

  ghost function ScaledWeighted<K(!new)>(l: Lin<K>, c: int, w: K -> int): K -> int {
    k => c * Weighted(l, w)(k)
  }

  lemma OuterAt<K(!new)>(a: Lin<K>, b: Lin<K>, w: K -> int, k: K)
    ensures OuterWeighted(a, b, w)(k) == ScaledWeighted(b, a.c, w)(k) + b.c * Weighted(a, w)(k)
  {
    OuterTerms(Outer(a, b, k), a.c, b.c, At(a, k), At(b, k), w(k));
    assert Weighted(a, w)(k) == At(a, k) * w(k) && Weighted(b, w)(k) == At(b, k) * w(k);
  }

  lemma OuterTerms(o: int, a: int, b: int, x: int, y: int, v: int)
    requires o == a * y + b * x
    ensures o * v == a * (y * v) + b * (x * v)
  {
    Distribute(o, a * y, b * x, v);
    Associate(a, y, v);
    Associate(b, x, v);
  }

  /** Collecting products by their atom and then weighing is weighing each product. */
  lemma {:induction false} SumCross<K(!new)>(
    a: Lin<K>, b: Lin<K>, prod: (K, K) -> K, w: K -> int, ks: set<K>, ps: set<(K, K)>)
    requires forall p | p in ps :: prod(p.0, p.1) in ks
    ensures Sum(ks, CrossWeighted(a, b, prod, ps, w)) == Sum(ps, PairWeighted(a, b, prod, w))
    decreases ps
  {
    if ps == {} {
      SumSuperset(ks, {}, CrossWeighted(a, b, prod, ps, w));
    } else {
      var p :| p in ps;
      SumCrossStep(a, b, prod, w, ks, ps, p);
      SumPick(ps, PairWeighted(a, b, prod, w), p);
      SumCross(a, b, prod, w, ks, ps - {p});
    }
  }

  lemma SumCrossStep<K(!new)>(
    a: Lin<K>, b: Lin<K>, prod: (K, K) -> K, w: K -> int, ks: set<K>, ps: set<(K, K)>, p: (K, K))
    requires p in ps && prod(p.0, p.1) in ks
    ensures Sum(ks, CrossWeighted(a, b, prod, ps, w))
         == Sum(ks, CrossWeighted(a, b, prod, ps - {p}, w)) + PairWeighted(a, b, prod, w)(p)
  {
    var cross, rest := CrossWeighted(a, b, prod, ps, w), CrossWeighted(a, b, prod, ps - {p}, w);
    var one := SingleWeighted(a, b, prod, p, w);
    forall k | k in ks ensures cross(k) == rest(k) + 1 * one(k) {
      CrossPick(a, b, prod, w, ps, p, k);
    }
    SumLinear(ks, cross, rest, one, 1);
    SumSingle(ks, prod(p.0, p.1), one);
  }

  lemma CrossPick<K(!new)>(a: Lin<K>, b: Lin<K>, prod: (K, K) -> K, w: K -> int, ps: set<(K, K)>, p: (K, K), k: K)
    requires p in ps
    ensures CrossWeighted(a, b, prod, ps, w)(k)
         == CrossWeighted(a, b, prod, ps - {p}, w)(k) + SingleWeighted(a, b, prod, p, w)(k)
  {
    SumPick(ps, CrossTerm(a, b, prod, k), p);
    Distribute(Cross(a, b, prod, ps, k), CrossTerm(a, b, prod, k)(p), Cross(a, b, prod, ps - {p}, k), w(k));
  }

  ghost function SingleWeighted<K(!new)>(
    a: Lin<K>, b: Lin<K>, prod: (K, K) -> K, p: (K, K), w: K -> int): K -> int
  {
    k => CrossTerm(a, b, prod, k)(p) * w(k)
  }

  lemma SumSingle<K(!new)>(ks: set<K>, k: K, f: K -> int)
    requires k in ks && forall j | j in ks && j != k :: f(j) == 0
    ensures Sum(ks, f) == f(k)
  {
    SumPick(ks, f, k);
    SumSuperset(ks - {k}, {}, f);
  }

  /** Products commute as forms, not merely in meaning. */
  lemma MulCommutes<K(!new)>(a: Lin<K>, b: Lin<K>, prod: (K, K) -> K)
    requires forall x, y :: prod(x, y) == prod(y, x)
    ensures Mul(a, b, prod) == Mul(b, a, prod)
  {
    var ps, qs := Pairs(a.coef.Keys, b.coef.Keys), Pairs(b.coef.Keys, a.coef.Keys);
    forall k ensures Cross(a, b, prod, ps, k) == Cross(b, a, prod, qs, k) {
      SumSwap(a.coef.Keys, b.coef.Keys, CrossTerm(a, b, prod, k), CrossTerm(b, a, prod, k));
    }
    forall k | k in MulKeys(a, b, prod) ensures k in MulKeys(b, a, prod) {
      if p :| p in ps && k == prod(p.0, p.1) {
        assert (p.1, p.0) in qs;
      }
    }
    forall k | k in MulKeys(b, a, prod) ensures k in MulKeys(a, b, prod) {
      if p :| p in qs && k == prod(p.0, p.1) {
        assert (p.1, p.0) in ps;
      }
    }
    assert Mul(a, b, prod).coef == Mul(b, a, prod).coef;
  }
}
