/**
 * The semantic domain of normalisation (internal/core/value.go) and what its
 * values mean: under a valuation `rho` of the free variables a value denotes an
 * integer, stuck computations denoting what reference evaluation makes of them.
 */
module Values {
  import opened Options
  import opened Sums
  import opened Linear
  import opened Terms

  datatype Value = VLin(lin: Lin<Neutral>) | VNeu(n: Neutral)

  /** A stuck if keeps its branches unevaluated beside the environment they were met in. */
  datatype Neutral =
    | NVar(name: string)
    | NCall(fn: string, args: seq<Value>)
    | NIf(cmp: Cmp, l: Value, r: Value, thn: Term, els: Term, env: Env)
    | NProd(factors: multiset<Neutral>)

  type Env = map<string, Value>

  /** The opaque product of two atoms, the order of its factors forgotten. */
  function Prod(x: Neutral, y: Neutral): Neutral {
    NProd(multiset{x, y})
  }

  function AsLin(v: Value): Lin<Neutral> {
    match v
    case VLin(l) => l
    case VNeu(n) => Atom(n)
  }

  function NatVar(x: string): Value {
    VLin(Atom(NVar(x)))
  }

  /** Definitional equality: a neutral equals the form that holds it alone. */
  predicate Equal(a: Value, b: Value) {
    if a.VNeu? && b.VNeu? then a.n == b.n else AsLin(a) == AsLin(b)
  }

  // ------------------------------------------------------------- meaning

  type Valuation = string -> int

  ghost function Product<T(!new)>(ms: multiset<T>, f: T -> int): int
    decreases |ms|
  {
    if ms == multiset{} then 1 else var x :| x in ms; f(x) * Product(ms - multiset{x}, f)
  }

  ghost function Denote(w: World, rho: Valuation, v: Value, k: nat): Option<int>
    decreases k, 2, 0
  {
    match v
    case VNeu(n) => DenoteAtom(w, rho, n, k)
    case VLin(l) => if AtomsDenote(w, rho, l, k) then Some(Val(l, AtomVal(w, rho, k))) else None
  }

  ghost predicate AtomsDenote(w: World, rho: Valuation, l: Lin<Neutral>, k: nat)
    decreases k, 1, 0
  {
    forall a | a in l.coef :: DenoteAtom(w, rho, a, k).Some?
  }

  ghost function AtomVal(w: World, rho: Valuation, k: nat): Neutral -> int
    decreases k, 1, 0
  {
    a => var d := DenoteAtom(w, rho, a, k); if d.Some? then d.value else 0
  }

  ghost function DenoteAtom(w: World, rho: Valuation, n: Neutral, k: nat): Option<int>
    decreases k, 0, 0
  {
    if k == 0 then None else
    match n
    case NVar(x) => Some(rho(x))
    case NCall(fn, args) =>
      var vs := DenoteAll(w, rho, args, k - 1);
      if vs.Some? then Apply(w, fn, vs.value, k - 1) else None
    case NIf(op, l, r, thn, els, env) =>
      var a, b := Denote(w, rho, l, k - 1), Denote(w, rho, r, k - 1);
      if a.Some? && b.Some? && EnvDenotes(w, rho, env, k - 1) then
        Ref(w, if Compare(op, a.value, b.value) then thn else els, EnvStore(w, rho, env, k - 1), k - 1)
      else
        None
    case NProd(factors) =>
      if forall f | f in factors :: DenoteAtom(w, rho, f, k - 1).Some? then
        Some(Product(factors, AtomVal(w, rho, k - 1)))
      else
        None
  }

  ghost function DenoteAll(w: World, rho: Valuation, vs: seq<Value>, k: nat): (r: Option<seq<int>>)
    ensures r.Some? ==> |r.value| == |vs|
    decreases k, 3, |vs|
  {
    if vs == [] then Some([]) else
      var d, ds := Denote(w, rho, vs[0], k), DenoteAll(w, rho, vs[1..], k);
      if d.Some? && ds.Some? then Some([d.value] + ds.value) else None
  }

  ghost predicate EnvDenotes(w: World, rho: Valuation, env: Env, k: nat)
    decreases k, 3, 0
  {
    forall x | x in env :: Denote(w, rho, env[x], k).Some?
  }

  ghost function EnvStore(w: World, rho: Valuation, env: Env, k: nat): Store
    requires EnvDenotes(w, rho, env, k)
    decreases k, 4, 0
  {
    map x | x in env :: Denote(w, rho, env[x], k).value
  }

  /** Every entry denotes what the store holds. */
  ghost predicate Represents(w: World, rho: Valuation, env: Env, s: Store, k: nat) {
    env.Keys == s.Keys && forall x | x in env :: Denote(w, rho, env[x], k) == Some(s[x])
  }

  // --------------------------------------------------- a deeper bound agrees

  lemma {:induction false} DenoteMonotone(w: World, rho: Valuation, v: Value, k: nat, k': nat)
    requires k <= k' && Denote(w, rho, v, k).Some?
    ensures Denote(w, rho, v, k') == Denote(w, rho, v, k)
    decreases k, 2, 0
  {
    match v
    case VNeu(n) => AtomMonotone(w, rho, n, k, k');
    case VLin(l) =>
      forall a | a in l.coef ensures DenoteAtom(w, rho, a, k') == DenoteAtom(w, rho, a, k) {
        AtomMonotone(w, rho, a, k, k');
      }
      ValCongruent(l, AtomVal(w, rho, k), AtomVal(w, rho, k'));
  }

  lemma {:induction false} AtomMonotone(w: World, rho: Valuation, n: Neutral, k: nat, k': nat)
    requires k <= k' && DenoteAtom(w, rho, n, k).Some?
    ensures DenoteAtom(w, rho, n, k') == DenoteAtom(w, rho, n, k)
    decreases k, 0, 0
  {
    match n
    case NVar(_) =>
    case NCall(fn, args) =>
      DenoteAllMonotone(w, rho, args, k - 1, k' - 1);
      CallAgrees(w, rho, fn, args, k, k');
    case NIf(op, l, r, thn, els, env) =>
      IfMonotone(w, rho, n, k, k');
    case NProd(factors) =>
      forall f | f in factors ensures DenoteAtom(w, rho, f, k' - 1) == DenoteAtom(w, rho, f, k - 1) {
        AtomMonotone(w, rho, f, k - 1, k' - 1);
      }
      ProductAgrees(w, rho, factors, k, k');
  }

  lemma CallAgrees(w: World, rho: Valuation, fn: string, args: seq<Value>, k: nat, k': nat)
    requires 0 < k <= k' && DenoteAtom(w, rho, NCall(fn, args), k).Some?
    requires DenoteAll(w, rho, args, k' - 1) == DenoteAll(w, rho, args, k - 1)
    ensures DenoteAtom(w, rho, NCall(fn, args), k') == DenoteAtom(w, rho, NCall(fn, args), k)
  {
    ApplyMonotone(w, fn, DenoteAll(w, rho, args, k - 1).value, k - 1, k' - 1);
  }

  lemma ProductAgrees(w: World, rho: Valuation, factors: multiset<Neutral>, k: nat, k': nat)
    requires 0 < k <= k' && DenoteAtom(w, rho, NProd(factors), k).Some?
    requires forall f | f in factors :: DenoteAtom(w, rho, f, k' - 1) == DenoteAtom(w, rho, f, k - 1)
    ensures DenoteAtom(w, rho, NProd(factors), k') == DenoteAtom(w, rho, NProd(factors), k)
  {
    ProductCongruent(factors, AtomVal(w, rho, k - 1), AtomVal(w, rho, k' - 1));
  }

  lemma {:induction false} IfMonotone(w: World, rho: Valuation, n: Neutral, k: nat, k': nat)
    requires 0 < k <= k' && n.NIf? && DenoteAtom(w, rho, n, k).Some?
    ensures DenoteAtom(w, rho, n, k') == DenoteAtom(w, rho, n, k)
    decreases k - 1, 4, 0
  {
    var NIf(op, l, r, thn, els, env) := n;
    DenoteMonotone(w, rho, l, k - 1, k' - 1);
    DenoteMonotone(w, rho, r, k - 1, k' - 1);
    forall x | x in env ensures Denote(w, rho, env[x], k' - 1) == Denote(w, rho, env[x], k - 1) {
      DenoteMonotone(w, rho, env[x], k - 1, k' - 1);
    }
    var s := EnvStore(w, rho, env, k - 1);
    assert EnvStore(w, rho, env, k' - 1) == s;
    var taken := if Compare(op, Denote(w, rho, l, k - 1).value, Denote(w, rho, r, k - 1).value) then thn else els;
    RefMonotone(w, taken, s, k - 1, k' - 1);
  }

  lemma {:induction false} DenoteAllMonotone(w: World, rho: Valuation, vs: seq<Value>, k: nat, k': nat)
    requires k <= k' && DenoteAll(w, rho, vs, k).Some?
    ensures DenoteAll(w, rho, vs, k') == DenoteAll(w, rho, vs, k)
    decreases k, 3, |vs|
  {
    if vs != [] {
      DenoteMonotone(w, rho, vs[0], k, k');
      DenoteAllMonotone(w, rho, vs[1..], k, k');
    }
  }

  lemma RepresentsMonotone(w: World, rho: Valuation, env: Env, s: Store, k: nat, k': nat)
    requires k <= k' && Represents(w, rho, env, s, k)
    ensures Represents(w, rho, env, s, k')
  {
    forall x | x in env ensures Denote(w, rho, env[x], k') == Some(s[x]) {
      DenoteMonotone(w, rho, env[x], k, k');
    }
  }

  lemma {:induction false} DenoteAllAt(w: World, rho: Valuation, vs: seq<Value>, k: nat, i: nat)
    requires DenoteAll(w, rho, vs, k).Some? && i < |vs|
    ensures Denote(w, rho, vs[i], k) == Some(DenoteAll(w, rho, vs, k).value[i])
    decreases |vs|
  {
    if i > 0 {
      DenoteAllAt(w, rho, vs[1..], k, i - 1);
    }
  }

  /** Binding denoting arguments gives an environment that denotes the bound store. */
  lemma BindRepresents(w: World, rho: Valuation, params: seq<string>, vs: seq<Value>, k: nat)
    requires |params| == |vs| && DenoteAll(w, rho, vs, k).Some?
    ensures Represents(w, rho, Bind(params, vs), Bind(params, DenoteAll(w, rho, vs, k).value), k)
  {
    var ns := DenoteAll(w, rho, vs, k).value;
    forall p | p in Bind(params, vs) ensures Denote(w, rho, Bind(params, vs)[p], k) == Some(Bind(params, ns)[p]) {
      var i := BindIndex(params, vs, ns, p);
      DenoteAllAt(w, rho, vs, k, i);
    }
  }

  // ------------------------------------------------------------ products

  lemma {:induction false} ProductPick<T(!new)>(ms: multiset<T>, f: T -> int, x: T)
    requires x in ms
    ensures Product(ms, f) == f(x) * Product(ms - multiset{x}, f)
    decreases |ms|
  {
    var y :| y in ms && Product(ms, f) == f(y) * Product(ms - multiset{y}, f);
    if y != x {
      ProductPick(ms - multiset{y}, f, x);
      ProductPick(ms - multiset{x}, f, y);
      var rest := ms - multiset{x} - multiset{y};
      assert ms - multiset{y} - multiset{x} == rest;
      Shuffle(f(x), f(y), Product(rest, f));
    }
  }

  lemma Shuffle(a: int, b: int, c: int)
    ensures a * (b * c) == b * (a * c)
  {
  }

  lemma ProductPair<T(!new)>(x: T, y: T, f: T -> int)
    ensures Product(multiset{x, y}, f) == f(x) * f(y)
  {
    ProductPick(multiset{x, y}, f, x);
    assert multiset{x, y} - multiset{x} == multiset{y};
    ProductPick(multiset{y}, f, y);
    assert multiset{y} - multiset{y} == multiset{};
  }

  lemma {:induction false} ProductCongruent<T(!new)>(ms: multiset<T>, f: T -> int, g: T -> int)
    requires forall x | x in ms :: f(x) == g(x)
    ensures Product(ms, f) == Product(ms, g)
    decreases |ms|
  {
    if x :| x in ms {
      ProductPick(ms, f, x);
      ProductPick(ms, g, x);
      ProductCongruent(ms - multiset{x}, f, g);
    }
  }

  lemma {:induction false} ProductNatural<T(!new)>(ms: multiset<T>, f: T -> int)
    requires forall x | x in ms :: f(x) >= 0
    ensures Product(ms, f) >= 0
    decreases |ms|
  {
    if x :| x in ms {
      ProductPick(ms, f, x);
      ProductNatural(ms - multiset{x}, f);
      ProductNonneg(f(x), Product(ms - multiset{x}, f));
    }
  }

  // --------------------------------------- forms of values, built and compared

  lemma DenoteAsLin(w: World, rho: Valuation, v: Value, k: nat)
    ensures Denote(w, rho, VLin(AsLin(v)), k) == Denote(w, rho, v, k)
  {
    if v.VNeu? {
      ValAtom(v.n, AtomVal(w, rho, k));
    }
  }

  lemma DenoteAdd(w: World, rho: Valuation, a: Lin<Neutral>, b: Lin<Neutral>, s: int, k: nat)
    requires AtomsDenote(w, rho, a, k) && AtomsDenote(w, rho, b, k)
    ensures Denote(w, rho, VLin(Add(a, b, s)), k)
         == Some(Val(a, AtomVal(w, rho, k)) + s * Val(b, AtomVal(w, rho, k)))
  {
    ValAdd(a, b, s, AtomVal(w, rho, k));
  }

  lemma DenoteProd(w: World, rho: Valuation, x: Neutral, y: Neutral, k: nat)
    requires DenoteAtom(w, rho, x, k).Some? && DenoteAtom(w, rho, y, k).Some?
    ensures DenoteAtom(w, rho, Prod(x, y), k + 1)
         == Some(DenoteAtom(w, rho, x, k).value * DenoteAtom(w, rho, y, k).value)
  {
    ProductPair(x, y, AtomVal(w, rho, k));
  }

  lemma AtomsMonotone(w: World, rho: Valuation, l: Lin<Neutral>, k: nat, k': nat)
    requires k <= k' && AtomsDenote(w, rho, l, k)
    ensures AtomsDenote(w, rho, l, k') && Val(l, AtomVal(w, rho, k')) == Val(l, AtomVal(w, rho, k))
  {
    forall a | a in l.coef ensures DenoteAtom(w, rho, a, k') == DenoteAtom(w, rho, a, k) {
      AtomMonotone(w, rho, a, k, k');
    }
    ValCongruent(l, AtomVal(w, rho, k), AtomVal(w, rho, k'));
  }

  lemma MulAtoms(w: World, rho: Valuation, a: Lin<Neutral>, b: Lin<Neutral>, k: nat)
    requires AtomsDenote(w, rho, a, k) && AtomsDenote(w, rho, b, k)
    ensures AtomsDenote(w, rho, Mul(a, b, Prod), k + 1)
  {
    AtomsMonotone(w, rho, a, k, k + 1);
    AtomsMonotone(w, rho, b, k, k + 1);
    forall n | n in Mul(a, b, Prod).coef ensures DenoteAtom(w, rho, n, k + 1).Some? {
      assert n in MulKeys(a, b, Prod);
      if n !in a.coef && n !in b.coef {
        var p :| p in Pairs(a.coef.Keys, b.coef.Keys) && n == Prod(p.0, p.1);
        DenoteProd(w, rho, p.0, p.1, k);
      }
    }
  }

  /** One level deeper, opaque products denote products. */
  lemma DenoteMul(w: World, rho: Valuation, a: Lin<Neutral>, b: Lin<Neutral>, k: nat)
    requires AtomsDenote(w, rho, a, k) && AtomsDenote(w, rho, b, k)
    ensures Denote(w, rho, VLin(Mul(a, b, Prod)), k + 1)
         == Some(Val(a, AtomVal(w, rho, k)) * Val(b, AtomVal(w, rho, k)))
  {
    var g := AtomVal(w, rho, k + 1);
    AtomsMonotone(w, rho, a, k, k + 1);
    AtomsMonotone(w, rho, b, k, k + 1);
    MulAtoms(w, rho, a, b, k);
    forall x, y | x in a.coef && y in b.coef ensures g(Prod(x, y)) == g(x) * g(y) {
      DenoteProd(w, rho, x, y, k);
      AtomMonotone(w, rho, x, k, k + 1);
      AtomMonotone(w, rho, y, k, k + 1);
    }
    ValMul(a, b, Prod, g);
  }

  lemma ProdCommutes(x: Neutral, y: Neutral)
    ensures Prod(x, y) == Prod(y, x)
  {
    assert multiset{x, y} == multiset{y, x};
  }

  /** Multiplication commutes up to definitional equality. */
  lemma MulEqual(a: Lin<Neutral>, b: Lin<Neutral>)
    ensures Equal(VLin(Mul(a, b, Prod)), VLin(Mul(b, a, Prod)))
  {
    forall x, y ensures Prod(x, y) == Prod(y, x) {
      ProdCommutes(x, y);
    }
    MulCommutes(a, b, Prod);
  }

  /** Definitionally equal values denote alike. */
  lemma EqualDenotes(w: World, rho: Valuation, a: Value, b: Value, k: nat)
    requires Equal(a, b)
    ensures Denote(w, rho, a, k) == Denote(w, rho, b, k)
  {
    DenoteAsLin(w, rho, a, k);
    DenoteAsLin(w, rho, b, k);
  }
}
