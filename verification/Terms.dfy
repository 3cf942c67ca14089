/**
 * Terms of the dependent core (internal/core/term.go), restricted to what
 * elaboration of total functions builds, and their reference semantics: an
 * integer big-step evaluator whose recursion depth is bounded by `k`.
 */
module Terms {
  import opened Options

  datatype PrimOp = Plus | Minus | Times
  datatype Cmp = CmpEq | CmpNe | CmpLt | CmpLe | CmpGt | CmpGe

  datatype Term =
    | Var(name: string)
    | Nat(n: nat)
    | Prim(op: PrimOp, l: Term, r: Term)
    | Call(fn: string, args: seq<Term>)
    | If(cmp: Cmp, a: Term, b: Term, thn: Term, els: Term)

  datatype Def = Def(name: string, params: seq<string>, body: Term)
  type Defs = map<string, Def>

  /** Definitions, and the meaning of the functions that have none. */
  datatype World = World(defs: Defs, ext: (string, seq<int>) -> int)

  type Store = map<string, int>

  predicate NaturalStore(s: Store) {
    forall x | x in s :: s[x] >= 0
  }

  predicate Naturals(vs: seq<int>) {
    forall i | 0 <= i < |vs| :: vs[i] >= 0
  }

  predicate Compare(op: Cmp, a: int, b: int) {
    match op
    case CmpEq => a == b
    case CmpNe => a != b
    case CmpLt => a < b
    case CmpLe => a <= b
    case CmpGt => a > b
    case CmpGe => a >= b
  }

  function Arith(op: PrimOp, a: int, b: int): int {
    match op
    case Plus => a + b
    case Minus => a - b
    case Times => a * b
  }

  /** Parameters bound left to right: a repeated name takes the last argument. */
  function Bind<T>(params: seq<string>, vals: seq<T>): (m: map<string, T>)
    requires |params| == |vals|
    ensures m.Keys == set p | p in params
  {
    if params == [] then map[] else
      var last := |params| - 1;
      assert params == params[..last] + [params[last]];
      Bind(params[..last], vals[..last])[params[last] := vals[last]]
  }

  lemma {:induction false} BindAt<T>(params: seq<string>, vals: seq<T>, i: nat)
    requires |params| == |vals| && i < |params| && forall j | i < j < |params| :: params[j] != params[i]
    ensures Bind(params, vals)[params[i]] == vals[i]
  {
    var last := |params| - 1;
    if i < last {
      var names := params[..last];
      assert params[last] != params[i] && names[i] == params[i];
      assert forall j | i < j < last :: names[j] == params[j];
      BindAt(names, vals[..last], i);
    }
  }

  lemma {:induction false} LastIndex(params: seq<string>, p: string) returns (i: nat)
    requires p in params
    ensures i < |params| && params[i] == p && forall j | i < j < |params| :: params[j] != p
  {
    i := |params| - 1;
    while params[i] != p
      invariant i < |params| && forall j | i < j < |params| :: params[j] != p
      decreases i
    {
      i := i - 1;
    }
  }

  /** Bind treats arguments uniformly: each name takes the argument of one fixed position. */
  lemma BindIndex<T, U>(params: seq<string>, vals: seq<T>, vals': seq<U>, p: string) returns (i: nat)
    requires |params| == |vals| == |vals'| && p in params
    ensures i < |params| && params[i] == p
    ensures Bind(params, vals)[p] == vals[i] && Bind(params, vals')[p] == vals'[i]
    ensures forall j | i < j < |params| :: params[j] != p
  {
    i := LastIndex(params, p);
    BindAt(params, vals, i);
    BindAt(params, vals', i);
  }

  // ------------------------------------------------- reference semantics

  ghost function Ref(w: World, t: Term, s: Store, k: nat): Option<int>
    decreases k, 0, 0
  {
    if k == 0 then None else
    match t
    case Var(x) => if x in s then Some(s[x]) else None
    case Nat(n) => Some(n)
    case Prim(op, l, r) =>
      var a, b := Ref(w, l, s, k - 1), Ref(w, r, s, k - 1);
      if a.Some? && b.Some? then Some(Arith(op, a.value, b.value)) else None
    case Call(fn, args) =>
      var vs := RefAll(w, args, s, k - 1);
      if vs.Some? then Apply(w, fn, vs.value, k - 1) else None
    case If(op, l, r, thn, els) =>
      var a, b := Ref(w, l, s, k - 1), Ref(w, r, s, k - 1);
      if a.Some? && b.Some? then Ref(w, if Compare(op, a.value, b.value) then thn else els, s, k - 1) else None
  }

  ghost function RefAll(w: World, ts: seq<Term>, s: Store, k: nat): (r: Option<seq<int>>)
    ensures r.Some? ==> |r.value| == |ts|
    decreases k, 1, |ts|
  {
    if ts == [] then Some([]) else
      var v, vs := Ref(w, ts[0], s, k), RefAll(w, ts[1..], s, k);
      if v.Some? && vs.Some? then Some([v.value] + vs.value) else None
  }

  ghost function Apply(w: World, fn: string, vs: seq<int>, k: nat): Option<int>
    decreases k, 1, 0
  {
    if fn !in w.defs then Some(w.ext(fn, vs)) else
      var d := w.defs[fn];
      if |vs| == |d.params| then Ref(w, d.body, Bind(d.params, vs), k) else None
  }

  /** A deeper bound never changes an answer already reached. */
  lemma {:induction false} RefMonotone(w: World, t: Term, s: Store, k: nat, k': nat)
    requires k <= k' && Ref(w, t, s, k).Some?
    ensures Ref(w, t, s, k') == Ref(w, t, s, k)
    decreases k, 0, 0
  {
    match t
    case Var(_) =>
    case Nat(_) =>
    case Prim(_, l, r) =>
      RefMonotone(w, l, s, k - 1, k' - 1);
      RefMonotone(w, r, s, k - 1, k' - 1);
    case Call(fn, args) =>
      RefAllMonotone(w, args, s, k - 1, k' - 1);
      ApplyMonotone(w, fn, RefAll(w, args, s, k - 1).value, k - 1, k' - 1);
    case If(op, l, r, thn, els) =>
      RefMonotone(w, l, s, k - 1, k' - 1);
      RefMonotone(w, r, s, k - 1, k' - 1);
      var taken := if Compare(op, Ref(w, l, s, k - 1).value, Ref(w, r, s, k - 1).value) then thn else els;
      RefMonotone(w, taken, s, k - 1, k' - 1);
  }

  lemma {:induction false} RefAllMonotone(w: World, ts: seq<Term>, s: Store, k: nat, k': nat)
    requires k <= k' && RefAll(w, ts, s, k).Some?
    ensures RefAll(w, ts, s, k') == RefAll(w, ts, s, k)
    decreases k, 1, |ts|
  {
    if ts != [] {
      RefMonotone(w, ts[0], s, k, k');
      RefAllMonotone(w, ts[1..], s, k, k');
    }
  }

  lemma ApplyMonotone(w: World, fn: string, vs: seq<int>, k: nat, k': nat)
    requires k <= k' && Apply(w, fn, vs, k).Some?
    ensures Apply(w, fn, vs, k') == Apply(w, fn, vs, k)
    decreases k, 1, 0
  {
    if fn in w.defs {
      RefMonotone(w, w.defs[fn].body, Bind(w.defs[fn].params, vs), k, k');
    }
  }

  lemma {:induction false} RefAllAt(w: World, ts: seq<Term>, s: Store, k: nat, i: nat)
    requires RefAll(w, ts, s, k).Some? && i < |ts|
    ensures Ref(w, ts[i], s, k) == Some(RefAll(w, ts, s, k).value[i])
    decreases |ts|
  {
    if i > 0 {
      RefAllAt(w, ts[1..], s, k, i - 1);
    }
  }

  lemma {:induction false} RefAllFrom(w: World, ts: seq<Term>, s: Store, k: nat)
    requires forall i | 0 <= i < |ts| :: Ref(w, ts[i], s, k).Some?
    ensures RefAll(w, ts, s, k).Some?
    decreases |ts|
  {
    if ts != [] {
      assert forall i | 0 <= i < |ts[1..]| :: ts[1..][i] == ts[i + 1];
      RefAllFrom(w, ts[1..], s, k);
    }
  }

  // ------------------------------------------------------ free variables

  function FreeVars(t: Term): set<string>
    decreases t
  {
    match t
    case Var(x) => {x}
    case Nat(_) => {}
    case Prim(_, l, r) => FreeVars(l) + FreeVars(r)
    case Call(_, args) => FreeVarsAll(args)
    case If(_, l, r, thn, els) => FreeVars(l) + FreeVars(r) + FreeVars(thn) + FreeVars(els)
  }

  function FreeVarsAll(ts: seq<Term>): set<string>
    decreases ts
  {
    if ts == [] then {} else FreeVars(ts[0]) + FreeVarsAll(ts[1..])
  }

  ghost predicate AgreeOn(vars: set<string>, s: Store, s': Store) {
    forall x | x in vars :: x in s && x in s' && s[x] == s'[x]
  }

  /** Only free variables matter. */
  lemma {:induction false} RefAgree(w: World, t: Term, s: Store, s': Store, k: nat)
    requires AgreeOn(FreeVars(t), s, s')
    ensures Ref(w, t, s, k) == Ref(w, t, s', k)
    decreases t, 0
  {
    if k > 0 {
      match t
      case Var(_) =>
      case Nat(_) =>
      case Prim(_, l, r) =>
        RefAgreeSub(w, l, FreeVars(t), s, s', k - 1);
        RefAgreeSub(w, r, FreeVars(t), s, s', k - 1);
      case Call(_, args) =>
        RefAllAgree(w, args, s, s', k - 1);
      case If(_, l, r, thn, els) =>
        RefAgreeSub(w, l, FreeVars(t), s, s', k - 1);
        RefAgreeSub(w, r, FreeVars(t), s, s', k - 1);
        RefAgreeSub(w, thn, FreeVars(t), s, s', k - 1);
        RefAgreeSub(w, els, FreeVars(t), s, s', k - 1);
        var j := k - 1;
        RefIfAgree(w, t, s, s', j);
    }
  }

  lemma RefIfAgree(w: World, t: Term, s: Store, s': Store, j: nat)
    requires t.If? && Ref(w, t.a, s, j) == Ref(w, t.a, s', j) && Ref(w, t.b, s, j) == Ref(w, t.b, s', j)
    requires Ref(w, t.thn, s, j) == Ref(w, t.thn, s', j) && Ref(w, t.els, s, j) == Ref(w, t.els, s', j)
    ensures Ref(w, t, s, j + 1) == Ref(w, t, s', j + 1)
  {
  }

  lemma {:induction false} RefAgreeSub(w: World, t: Term, vars: set<string>, s: Store, s': Store, k: nat)
    requires FreeVars(t) <= vars && AgreeOn(vars, s, s')
    ensures Ref(w, t, s, k) == Ref(w, t, s', k)
    decreases t, 1
  {
    RefAgree(w, t, s, s', k);
  }

  lemma {:induction false} RefAllAgree(w: World, ts: seq<Term>, s: Store, s': Store, k: nat)
    requires AgreeOn(FreeVarsAll(ts), s, s')
    ensures RefAll(w, ts, s, k) == RefAll(w, ts, s', k)
    decreases ts
  {
    if ts != [] {
      RefAgreeSub(w, ts[0], FreeVarsAll(ts), s, s', k);
      RefAllAgree(w, ts[1..], s, s', k);
    }
  }
}
