/**
 * What the atoms of a normal form stand for (internal/core/value.go,
 * internal/core/eval.go): variables, calls and products, never a stuck if, and
 * where the run makes its calls on naturals each stands for a natural.
 */
module Atoms {
  import opened Options
  import opened Sums
  import opened Linear
  import opened Terms
  import opened Values
  import opened Elaborator
  import opened Normalizer
  import Obligations

  // --------------------------------------------------- values hold no stuck if

  /** A variable, a call or a product of such: what can only denote a natural. */
  predicate PlainAtom(n: Neutral) {
    match n
    case NVar(_) => true
    case NCall(_, _) => true
    case NIf(_, _, _, _, _, _) => false
    case NProd(factors) => forall f | f in factors :: PlainAtom(f)
  }

  predicate PlainValue(v: Value) {
    forall a | a in AsLin(v).coef :: PlainAtom(a)
  }

  predicate PlainEnv(env: Env) {
    forall x | x in env :: PlainValue(env[x])
  }

  /** Every definition is as elaboration builds it: ifs only in tail position. */
  predicate TailDefs(defs: Defs) {
    forall fn | fn in defs :: TailIf(defs[fn].body)
  }

  lemma BindPlain(params: seq<string>, vs: seq<Value>)
    requires |params| == |vs| && forall i | 0 <= i < |vs| :: PlainValue(vs[i])
    ensures PlainEnv(Bind(params, vs))
  {
    forall p | p in Bind(params, vs) ensures PlainValue(Bind(params, vs)[p]) {
      var i := BindIndex(params, vs, vs, p);
    }
  }

  lemma PrimPlain(op: PrimOp, a: Value, b: Value)
    requires PlainValue(a) && PlainValue(b)
    ensures PlainValue(VLin(PrimOnForms(op, AsLin(a), AsLin(b))))
  {
    var f, g := AsLin(a), AsLin(b);
    forall n | n in PrimOnForms(op, f, g).coef ensures PlainAtom(n) {
      if n !in f.coef && n !in g.coef {
        ProductPlain(f, g, n);
      }
    }
  }

  lemma ProductPlain(f: Lin<Neutral>, g: Lin<Neutral>, n: Neutral)
    requires (forall a | a in f.coef :: PlainAtom(a)) && (forall a | a in g.coef :: PlainAtom(a))
    requires n in MulKeys(f, g, Prod) && n !in f.coef && n !in g.coef
    ensures PlainAtom(n)
  {
    var p :| p in Pairs(f.coef.Keys, g.coef.Keys) && n == Prod(p.0, p.1);
  }

  /** A call whose body sticks becomes a neutral call, so normal forms of index terms hold no stuck if. */
  lemma {:induction false} EvaluatePlain(defs: Defs, t: Term, env: Env, fuel: int)
    requires TailDefs(defs) && PlainEnv(env) && TailIf(t) && Evaluate(defs, true, t, env, fuel).0.Ok?
    ensures var v := Evaluate(defs, true, t, env, fuel).0.value;
            PlainValue(v) || (t.If? && StuckRoot(v)) || (t.Var? && PlainValue(v))
    decreases Measure(fuel), 0, 0
  {
    match t
    case Var(_) =>
    case Nat(_) =>
    case Prim(op, l, r) =>
      var (a, fa) := Evaluate(defs, true, l, env, fuel - 1);
      var (b, fb) := Evaluate(defs, true, r, env, fa);
      NoIfIsTail(l);
      NoIfIsTail(r);
      EvaluatePlain(defs, l, env, fuel - 1);
      EvaluatePlain(defs, r, env, fa);
      PrimPlain(op, a.value, b.value);
    case Call(fn, args) =>
      CallPlain(defs, fn, args, env, fuel - 1);
    case If(op, l, r, thn, els) =>
      var (a, fa) := Evaluate(defs, true, l, env, fuel - 1);
      var (b, fb) := Evaluate(defs, true, r, env, fa);
      assert Evaluate(defs, true, t, env, fuel) == EvaluateChosen(defs, true, op, a.value, b.value, thn, els, env, fb);
      match Decided(op, AsLin(a.value), AsLin(b.value))
      case TakeThen => EvaluatePlain(defs, thn, env, fb);
      case TakeElse => EvaluatePlain(defs, els, env, fb);
      case Stuck =>
  }

  lemma NoIfIsTail(t: Term)
    requires NoIf(t)
    ensures TailIf(t) && !t.If?
  {
  }

  lemma {:induction false} CallPlain(defs: Defs, fn: string, args: seq<Term>, env: Env, f: int)
    requires TailDefs(defs) && PlainEnv(env) && (forall i | 0 <= i < |args| :: NoIf(args[i]))
    requires EvaluateCall(defs, true, fn, args, env, f).0.Ok?
    ensures PlainValue(EvaluateCall(defs, true, fn, args, env, f).0.value)
    decreases Measure(f), 2, 0
  {
    var (vs, fv) := EvaluateAll(defs, true, args, env, f);
    if fn in defs {
      AllPlain(defs, args, env, f);
      BindPlain(defs[fn].params, vs.value);
      EvaluatePlain(defs, defs[fn].body, Bind(defs[fn].params, vs.value), fv);
    }
  }

  lemma {:induction false} AllPlain(defs: Defs, ts: seq<Term>, env: Env, fuel: int)
    requires TailDefs(defs) && PlainEnv(env) && (forall i | 0 <= i < |ts| :: NoIf(ts[i]))
    requires EvaluateAll(defs, true, ts, env, fuel).0.Ok?
    ensures forall i | 0 <= i < |ts| :: PlainValue(EvaluateAll(defs, true, ts, env, fuel).0.value[i])
    decreases Measure(fuel), 1, |ts|
  {
    if ts != [] {
      NoIfIsTail(ts[0]);
      EvaluatePlain(defs, ts[0], env, fuel);
      AllPlain(defs, ts[1..], env, Evaluate(defs, true, ts[0], env, fuel).1);
    }
  }

  // ------------------------------------------------------- runs on naturals

  /** Every call the run makes, to depth `k`, is on naturals. */
  ghost predicate NaturalRun(w: World, t: Term, s: Store, k: nat)
    decreases k, 0
  {
    k > 0 ==>
    match t
    case Var(_) => true
    case Nat(_) => true
    case Prim(_, l, r) => NaturalRun(w, l, s, k - 1) && NaturalRun(w, r, s, k - 1)
    case Call(fn, args) =>
      var vs := RefAll(w, args, s, k - 1);
      && (forall i | 0 <= i < |args| :: NaturalRun(w, args[i], s, k - 1))
      && (vs.Some? ==> NaturalCall(w, fn, vs.value, k - 1))
    case If(op, l, r, thn, els) =>
      var a, b := Ref(w, l, s, k - 1), Ref(w, r, s, k - 1);
      && NaturalRun(w, l, s, k - 1) && NaturalRun(w, r, s, k - 1)
      && (a.Some? && b.Some? ==> NaturalRun(w, if Compare(op, a.value, b.value) then thn else els, s, k - 1))
  }

  ghost predicate NaturalCall(w: World, fn: string, vs: seq<int>, k: nat)
    decreases k, 1
  {
    && Naturals(vs)
    && (fn in w.defs && |vs| == |w.defs[fn].params| ==>
        NaturalRun(w, w.defs[fn].body, Bind(w.defs[fn].params, vs), k))
  }

  /** Calls on naturals answer naturals. */
  ghost predicate NaturalCalls(w: World) {
    forall fn, vs, k | Naturals(vs) && Apply(w, fn, vs, k).Some? :: Apply(w, fn, vs, k).value >= 0
  }

  /** Definitions that pass the subtraction check make a world of natural functions. */
  lemma AdmittedNatural(w: World)
    requires Obligations.AdmittedWorld(w)
    ensures NaturalCalls(w)
  {
    forall fn, vs, k | Naturals(vs) && Apply(w, fn, vs, k).Some? ensures Apply(w, fn, vs, k).value >= 0 {
      Obligations.CallSafe(w, fn, vs, k);
    }
  }

  /** A run that never subtracts below zero makes its calls on naturals, and answers one. */
  lemma {:induction false} SafeNatural(w: World, t: Term, s: Store, k: nat)
    requires Obligations.Safe(w, t, s, k) && NaturalStore(s) && forall fn, vs :: w.ext(fn, vs) >= 0
    ensures NaturalRun(w, t, s, k) && Obligations.NaturalAnswer(Ref(w, t, s, k))
    decreases k, 0
  {
    if k > 0 {
      match t
      case Var(_) =>
      case Nat(_) =>
      case Prim(op, l, r) =>
        SafeNatural(w, l, s, k - 1);
        SafeNatural(w, r, s, k - 1);
        if op.Times? && Ref(w, t, s, k).Some? {
          ProductNonneg(Ref(w, l, s, k - 1).value, Ref(w, r, s, k - 1).value);
        }
      case Call(fn, args) =>
        SafeNaturalCall(w, fn, args, s, k - 1);
      case If(op, l, r, thn, els) =>
        SafeNatural(w, l, s, k - 1);
        SafeNatural(w, r, s, k - 1);
        var a, b := Ref(w, l, s, k - 1), Ref(w, r, s, k - 1);
        if a.Some? && b.Some? {
          SafeNatural(w, if Compare(op, a.value, b.value) then thn else els, s, k - 1);
        }
    }
  }

  lemma {:induction false} SafeNaturalCall(w: World, fn: string, args: seq<Term>, s: Store, k: nat)
    requires Obligations.Safe(w, Call(fn, args), s, k + 1) && NaturalStore(s) && forall fn, vs :: w.ext(fn, vs) >= 0
    ensures NaturalRun(w, Call(fn, args), s, k + 1) && Obligations.NaturalAnswer(Ref(w, Call(fn, args), s, k + 1))
    decreases k, 2
  {
    forall i | 0 <= i < |args|
      ensures NaturalRun(w, args[i], s, k) && Obligations.NaturalAnswer(Ref(w, args[i], s, k))
    {
      SafeNatural(w, args[i], s, k);
    }
    if RefAll(w, args, s, k).Some? {
      var vs := RefAll(w, args, s, k).value;
      forall i | 0 <= i < |vs| ensures vs[i] >= 0 {
        RefAllAt(w, args, s, k, i);
      }
      SafeNaturalBody(w, fn, vs, k);
    }
  }

  lemma {:induction false} SafeNaturalBody(w: World, fn: string, vs: seq<int>, k: nat)
    requires Obligations.SafeCall(w, fn, vs, k) && Naturals(vs) && forall fn, vs :: w.ext(fn, vs) >= 0
    ensures NaturalCall(w, fn, vs, k) && Obligations.NaturalAnswer(Apply(w, fn, vs, k))
    decreases k, 1
  {
    if fn in w.defs && |vs| == |w.defs[fn].params| {
      Obligations.BindNatural(w.defs[fn].params, vs);
      SafeNatural(w, w.defs[fn].body, Bind(w.defs[fn].params, vs), k);
    }
  }

  /** What a caller can check beforehand: a term that passes the subtraction walk makes its calls on naturals. */
  lemma PassingRuns(w: World, t: Term, s: Store, k: nat)
    requires Obligations.AdmittedWorld(w) && NaturalStore(s) && Obligations.Passes(t, [])
    ensures NaturalRun(w, t, s, k)
  {
    Obligations.WalkSafe(w, t, [], s, k, k);
    SafeNatural(w, t, s, k);
  }

  // ------------------------------------------------ atoms stand for naturals

  /** Every atom that is no stuck if denotes a natural at depth `k`. */
  ghost predicate NaturalAtoms(w: World, rho: Valuation, v: Value, k: nat) {
    forall a | a in AsLin(v).coef && PlainAtom(a) :: NaturalAtom(w, rho, a, k)
  }

  ghost predicate NaturalAtom(w: World, rho: Valuation, a: Neutral, k: nat) {
    DenoteAtom(w, rho, a, k).Some? && DenoteAtom(w, rho, a, k).value >= 0
  }

  ghost predicate NaturalEnv(w: World, rho: Valuation, env: Env, k: nat) {
    forall x | x in env :: NaturalAtoms(w, rho, env[x], k)
  }

  ghost predicate AllNaturalAtoms(w: World, rho: Valuation, vs: seq<Value>, k: nat) {
    forall i | 0 <= i < |vs| :: NaturalAtoms(w, rho, vs[i], k)
  }

  lemma NaturalAtomsMonotone(w: World, rho: Valuation, v: Value, k: nat, k': nat)
    requires k <= k' && NaturalAtoms(w, rho, v, k)
    ensures NaturalAtoms(w, rho, v, k')
  {
    forall a | a in AsLin(v).coef && PlainAtom(a) ensures NaturalAtom(w, rho, a, k') {
      assert NaturalAtom(w, rho, a, k);
      AtomMonotone(w, rho, a, k, k');
    }
  }

  lemma NaturalEnvMonotone(w: World, rho: Valuation, env: Env, k: nat, k': nat)
    requires k <= k' && NaturalEnv(w, rho, env, k)
    ensures NaturalEnv(w, rho, env, k')
  {
    forall x | x in env ensures NaturalAtoms(w, rho, env[x], k') {
      NaturalAtomsMonotone(w, rho, env[x], k, k');
    }
  }

  lemma BindNaturalEnv(w: World, rho: Valuation, params: seq<string>, vs: seq<Value>, k: nat)
    requires |params| == |vs| && AllNaturalAtoms(w, rho, vs, k)
    ensures NaturalEnv(w, rho, Bind(params, vs), k)
  {
    forall p | p in Bind(params, vs) ensures NaturalAtoms(w, rho, Bind(params, vs)[p], k) {
      var i := BindIndex(params, vs, vs, p);
    }
  }

  /** The opaque product of naturals is a natural, one level deeper. */
  lemma ProductAtom(w: World, rho: Valuation, x: Neutral, y: Neutral, k: nat)
    requires NaturalAtom(w, rho, x, k) && NaturalAtom(w, rho, y, k)
    ensures NaturalAtom(w, rho, Prod(x, y), k + 1)
  {
    DenoteProd(w, rho, x, y, k);
    ProductNonneg(DenoteAtom(w, rho, x, k).value, DenoteAtom(w, rho, y, k).value);
  }

  lemma PrimNatural(w: World, rho: Valuation, op: PrimOp, a: Value, b: Value, k: nat)
    requires NaturalAtoms(w, rho, a, k) && NaturalAtoms(w, rho, b, k)
    ensures NaturalAtoms(w, rho, VLin(PrimOnForms(op, AsLin(a), AsLin(b))), k + 1)
  {
    NaturalAtomsMonotone(w, rho, a, k, k + 1);
    NaturalAtomsMonotone(w, rho, b, k, k + 1);
    var f, g := AsLin(a), AsLin(b);
    forall n | n in PrimOnForms(op, f, g).coef && PlainAtom(n) ensures NaturalAtom(w, rho, n, k + 1) {
      if n !in f.coef && n !in g.coef {
        assert op.Times? && n in MulKeys(f, g, Prod);
        var p :| p in Pairs(f.coef.Keys, g.coef.Keys) && n == Prod(p.0, p.1);
        assert p.0 in n.factors && p.1 in n.factors;
        ProductAtom(w, rho, p.0, p.1, k);
      }
    }
  }

  /**
   * If the run makes its calls on naturals, so do the atoms of the normal form denote; `m` is a
   * depth that shows it.
   */
  lemma {:induction false} EvaluateNatural(
      w: World, defs: Defs, permissive: bool, t: Term, env: Env, fuel: int, rho: Valuation, s: Store, j: nat, k: nat)
      returns (m: nat)
    requires Knows(w, defs) && NaturalCalls(w) && Represents(w, rho, env, s, j) && NaturalEnv(w, rho, env, j)
    requires Evaluate(defs, permissive, t, env, fuel).0.Ok?
    requires Ref(w, t, s, k).Some? && NaturalRun(w, t, s, k)
    ensures NaturalAtoms(w, rho, Evaluate(defs, permissive, t, env, fuel).0.value, m)
    decreases Measure(fuel), 0, 0
  {
    match t
    case Var(x) =>
      m := j;
    case Nat(n) =>
      m := 0;
    case Prim(op, l, r) =>
      m := EvaluateNaturalPrim(w, defs, permissive, op, l, r, env, fuel - 1, rho, s, j, k - 1);
    case Call(fn, args) =>
      m := EvaluateNaturalCall(w, defs, permissive, fn, args, env, fuel - 1, rho, s, j, k - 1);
    case If(op, l, r, thn, els) =>
      m := EvaluateNaturalIf(w, defs, permissive, op, l, r, thn, els, env, fuel - 1, rho, s, j, k - 1);
  }

  lemma {:induction false} EvaluateNaturalPrim(
      w: World, defs: Defs, permissive: bool, op: PrimOp, l: Term, r: Term, env: Env, f: int,
      rho: Valuation, s: Store, j: nat, k: nat) returns (m: nat)
    requires Knows(w, defs) && NaturalCalls(w) && Represents(w, rho, env, s, j) && NaturalEnv(w, rho, env, j)
    requires EvaluatePrim(defs, permissive, op, l, r, env, f).0.Ok?
    requires Ref(w, l, s, k).Some? && Ref(w, r, s, k).Some? && NaturalRun(w, l, s, k) && NaturalRun(w, r, s, k)
    ensures NaturalAtoms(w, rho, EvaluatePrim(defs, permissive, op, l, r, env, f).0.value, m)
    decreases Measure(f), 1, 0
  {
    var (a, fa) := Evaluate(defs, permissive, l, env, f);
    var (b, fb) := Evaluate(defs, permissive, r, env, fa);
    var ma := EvaluateNatural(w, defs, permissive, l, env, f, rho, s, j, k);
    var mb := EvaluateNatural(w, defs, permissive, r, env, fa, rho, s, j, k);
    m := Max(ma, mb);
    NaturalAtomsMonotone(w, rho, a.value, ma, m);
    NaturalAtomsMonotone(w, rho, b.value, mb, m);
    PrimNatural(w, rho, op, a.value, b.value, m);
    m := m + 1;
  }

  lemma {:induction false} EvaluateNaturalIf(
      w: World, defs: Defs, permissive: bool, op: Cmp, l: Term, r: Term, thn: Term, els: Term, env: Env, f: int,
      rho: Valuation, s: Store, j: nat, k: nat) returns (m: nat)
    requires Knows(w, defs) && NaturalCalls(w) && Represents(w, rho, env, s, j) && NaturalEnv(w, rho, env, j)
    requires EvaluateIf(defs, permissive, op, l, r, thn, els, env, f).0.Ok?
    requires Ref(w, l, s, k).Some? && Ref(w, r, s, k).Some?
    requires Runs(w, if Compare(op, Ref(w, l, s, k).value, Ref(w, r, s, k).value) then thn else els, s, k)
    ensures NaturalAtoms(w, rho, EvaluateIf(defs, permissive, op, l, r, thn, els, env, f).0.value, m)
    decreases Measure(f), 1, 1
  {
    var (a, fa) := Evaluate(defs, permissive, l, env, f);
    var (b, fb) := Evaluate(defs, permissive, r, env, fa);
    var ma := EvaluateSound(w, defs, permissive, l, env, f, rho, s, j, k);
    var mb := EvaluateSound(w, defs, permissive, r, env, fa, rho, s, j, k);
    var i, x, y := Max(ma, mb), Ref(w, l, s, k).value, Ref(w, r, s, k).value;
    DenoteMonotone(w, rho, a.value, ma, i);
    DenoteMonotone(w, rho, b.value, mb, i);
    m := EvaluateNaturalChosen(w, defs, permissive, op, a.value, b.value, thn, els, env, fb, rho, s, x, y, i, j, k);
  }

  /** Answers, and makes its calls on naturals. */
  ghost predicate Runs(w: World, t: Term, s: Store, k: nat) {
    Ref(w, t, s, k).Some? && NaturalRun(w, t, s, k)
  }

  /** The branch evaluation takes is the branch the run takes; a stuck if is no plain atom. */
  lemma {:induction false} EvaluateNaturalChosen(
      w: World, defs: Defs, permissive: bool, op: Cmp, a: Value, b: Value, thn: Term, els: Term, env: Env, f: int,
      rho: Valuation, s: Store, x: int, y: int, i: nat, j: nat, k: nat) returns (m: nat)
    requires Knows(w, defs) && NaturalCalls(w) && Represents(w, rho, env, s, j) && NaturalEnv(w, rho, env, j)
    requires EvaluateChosen(defs, permissive, op, a, b, thn, els, env, f).0.Ok?
    requires Denote(w, rho, a, i) == Some(x) && Denote(w, rho, b, i) == Some(y)
    requires Runs(w, if Compare(op, x, y) then thn else els, s, k)
    ensures NaturalAtoms(w, rho, EvaluateChosen(defs, permissive, op, a, b, thn, els, env, f).0.value, m)
    decreases Measure(f), 1, 0
  {
    m := 0;
    var branch := Decided(op, AsLin(a), AsLin(b));
    if branch != Stuck {
      DecidedRight(w, rho, op, a, b, i);
      m := EvaluateNatural(w, defs, permissive, if branch == TakeThen then thn else els, env, f, rho, s, j, k);
    }
  }

  lemma {:induction false} EvaluateNaturalCall(
      w: World, defs: Defs, permissive: bool, fn: string, args: seq<Term>, env: Env, f: int,
      rho: Valuation, s: Store, j: nat, k: nat) returns (m: nat)
    requires Knows(w, defs) && NaturalCalls(w) && Represents(w, rho, env, s, j) && NaturalEnv(w, rho, env, j)
    requires EvaluateCall(defs, permissive, fn, args, env, f).0.Ok?
    requires RefAll(w, args, s, k).Some? && Apply(w, fn, RefAll(w, args, s, k).value, k).Some?
    requires forall i | 0 <= i < |args| :: NaturalRun(w, args[i], s, k)
    requires NaturalCall(w, fn, RefAll(w, args, s, k).value, k)
    ensures NaturalAtoms(w, rho, EvaluateCall(defs, permissive, fn, args, env, f).0.value, m)
    decreases Measure(f), 2, 0
  {
    var (vs, fv) := EvaluateAll(defs, permissive, args, env, f);
    var ns := RefAll(w, args, s, k).value;
    var i := EvaluateAllSound(w, defs, permissive, args, env, f, rho, s, j, k);
    var inner := if fn in defs then Bind(defs[fn].params, vs.value) else map[];
    if fn in defs && !StuckRoot(Evaluate(defs, permissive, defs[fn].body, inner, fv).0.value) {
      var def := defs[fn];
      var i' := EvaluateAllNatural(w, defs, permissive, args, env, f, rho, s, j, k);
      var d := Max(i, i');
      BindRepresents(w, rho, def.params, vs.value, i);
      RepresentsMonotone(w, rho, inner, Bind(def.params, ns), i, d);
      BindNaturalEnv(w, rho, def.params, vs.value, i');
      NaturalEnvMonotone(w, rho, inner, i', d);
      m := EvaluateNatural(w, defs, permissive, def.body, inner, fv, rho, Bind(def.params, ns), d, k);
    } else {
      m := StuckCallDenotes(w, rho, fn, vs.value, i, k);
    }
  }

  lemma {:induction false} EvaluateAllNatural(
      w: World, defs: Defs, permissive: bool, ts: seq<Term>, env: Env, fuel: int, rho: Valuation, s: Store, j: nat,
      k: nat)
      returns (m: nat)
    requires Knows(w, defs) && NaturalCalls(w) && Represents(w, rho, env, s, j) && NaturalEnv(w, rho, env, j)
    requires EvaluateAll(defs, permissive, ts, env, fuel).0.Ok?
    requires RefAll(w, ts, s, k).Some? && forall i | 0 <= i < |ts| :: NaturalRun(w, ts[i], s, k)
    ensures AllNaturalAtoms(w, rho, EvaluateAll(defs, permissive, ts, env, fuel).0.value, m)
    decreases Measure(fuel), 1, |ts|
  {
    m := 0;
    if ts != [] {
      var (v, f) := Evaluate(defs, permissive, ts[0], env, fuel);
      var (vs, f') := EvaluateAll(defs, permissive, ts[1..], env, f);
      var i := EvaluateNatural(w, defs, permissive, ts[0], env, fuel, rho, s, j, k);
      var i' := EvaluateAllNatural(w, defs, permissive, ts[1..], env, f, rho, s, j, k);
      m := Max(i, i');
      NaturalAtomsMonotone(w, rho, v.value, i, m);
      forall n | 0 <= n < |vs.value| ensures NaturalAtoms(w, rho, vs.value[n], m) {
        NaturalAtomsMonotone(w, rho, vs.value[n], i', m);
      }
    }
  }

  // ----------------------------------------- the same run, seen differently

  /** A run that has answered makes no more calls at a deeper bound. */
  lemma {:induction false} RunMonotone(w: World, t: Term, s: Store, k: nat, k': nat)
    requires k <= k' && Runs(w, t, s, k)
    ensures NaturalRun(w, t, s, k')
    decreases k, 0
  {
    match t
    case Var(_) =>
    case Nat(_) =>
    case Prim(_, l, r) =>
      RunMonotone(w, l, s, k - 1, k' - 1);
      RunMonotone(w, r, s, k - 1, k' - 1);
    case Call(fn, args) =>
      CallRunMonotone(w, fn, args, s, k - 1, k' - 1);
    case If(op, l, r, thn, els) =>
      RunMonotone(w, l, s, k - 1, k' - 1);
      RunMonotone(w, r, s, k - 1, k' - 1);
      RefMonotone(w, l, s, k - 1, k' - 1);
      RefMonotone(w, r, s, k - 1, k' - 1);
      var taken := if Compare(op, Ref(w, l, s, k - 1).value, Ref(w, r, s, k - 1).value) then thn else els;
      RunMonotone(w, taken, s, k - 1, k' - 1);
  }

  lemma {:induction false} CallRunMonotone(w: World, fn: string, args: seq<Term>, s: Store, k: nat, k': nat)
    requires k <= k' && Runs(w, Call(fn, args), s, k + 1)
    ensures NaturalRun(w, Call(fn, args), s, k' + 1)
    decreases k, 2
  {
    var vs := RefAll(w, args, s, k).value;
    forall i | 0 <= i < |args| ensures NaturalRun(w, args[i], s, k') {
      RefAllAt(w, args, s, k, i);
      RunMonotone(w, args[i], s, k, k');
    }
    RefAllMonotone(w, args, s, k, k');
    CallMonotone(w, fn, vs, k, k');
  }

  lemma {:induction false} CallMonotone(w: World, fn: string, vs: seq<int>, k: nat, k': nat)
    requires k <= k' && NaturalCall(w, fn, vs, k) && Apply(w, fn, vs, k).Some?
    ensures NaturalCall(w, fn, vs, k')
    decreases k, 1
  {
    if fn in w.defs {
      RunMonotone(w, w.defs[fn].body, Bind(w.defs[fn].params, vs), k, k');
    }
  }

  /** Only free variables matter to which calls an if-free term makes. */
  lemma {:induction false} RunAgree(w: World, t: Term, s: Store, s': Store, k: nat)
    requires NoIf(t) && AgreeOn(FreeVars(t), s, s')
    ensures NaturalRun(w, t, s, k) == NaturalRun(w, t, s', k)
    decreases t, 0
  {
    if k > 0 {
      match t
      case Var(_) =>
      case Nat(_) =>
      case Prim(_, l, r) =>
        RunAgree(w, l, s, s', k - 1);
        RunAgree(w, r, s, s', k - 1);
      case Call(fn, args) =>
        RefAllAgree(w, args, s, s', k - 1);
        RunsAgree(w, args, s, s', k - 1);
    }
  }

  lemma {:induction false} RunsAgree(w: World, ts: seq<Term>, s: Store, s': Store, k: nat)
    requires (forall i | 0 <= i < |ts| :: NoIf(ts[i])) && AgreeOn(FreeVarsAll(ts), s, s')
    ensures forall i | 0 <= i < |ts| :: NaturalRun(w, ts[i], s, k) == NaturalRun(w, ts[i], s', k)
    decreases ts
  {
    if ts != [] {
      RunAgree(w, ts[0], s, s', k);
      RunsAgree(w, ts[1..], s, s', k);
      forall i | 0 <= i < |ts| ensures NaturalRun(w, ts[i], s, k) == NaturalRun(w, ts[i], s', k) {
        if i > 0 {
          assert ts[i] == ts[1..][i - 1];
        }
      }
    }
  }
}
