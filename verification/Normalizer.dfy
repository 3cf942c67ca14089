/**
 * Normalisation by evaluation (internal/core/eval.go). The evaluator object
 * spends its fuel field in place; `Evaluate` is the function it computes. The
 * main results: a value it returns denotes whatever reference evaluation of the
 * term yields, and more fuel never changes a successful answer.
 */
module Normalizer {
  import opened Options
  import opened Linear
  import opened Terms
  import opened Values

  datatype EvalError =
    | FuelExhausted
    | Unbound(name: string)
    | UnknownFunction(fn: string)
    | WrongArity(fn: string, want: nat, got: nat)

  datatype Result<+T> = Ok(value: T) | Err(error: EvalError)

  function Measure(fuel: int): nat {
    if fuel < 0 then 0 else fuel
  }

  predicate StuckRoot(v: Value) {
    v.VNeu? && v.n.NIf?
  }

  ghost function PrimOnForms(op: PrimOp, a: Lin<Neutral>, b: Lin<Neutral>): Lin<Neutral> {
    match op
    case Plus => Add(a, b, 1)
    case Minus => Add(a, b, -1)
    case Times => Mul(a, b, Prod)
  }

  datatype Branch = TakeThen | TakeElse | Stuck

  /** Ground comparisons decide; so does a difference that cancels to zero. */
  function Decided(op: Cmp, l: Lin<Neutral>, r: Lin<Neutral>): Branch {
    if Ground(l) && Ground(r) then
      if Compare(op, l.c, r.c) then TakeThen else TakeElse
    else if Add(l, r, -1) == Const(0) then
      match op
      case CmpEq | CmpLe | CmpGe => TakeThen
      case CmpNe | CmpLt | CmpGt => TakeElse
    else
      Stuck
  }

  /** The result of normalising `t`, and the fuel left. */
  ghost function Evaluate(defs: Defs, permissive: bool, t: Term, env: Env, fuel: int): (r: (Result<Value>, int))
    ensures r.1 < fuel
    decreases Measure(fuel), 0, 0
  {
    var f := fuel - 1;
    if f <= 0 then (Err(FuelExhausted), f) else
    match t
    case Var(x) => (if x in env then Ok(env[x]) else Err(Unbound(x)), f)
    case Nat(n) => (Ok(VLin(Const(n))), f)
    case Prim(op, l, r) => EvaluatePrim(defs, permissive, op, l, r, env, f)
    case Call(fn, args) => EvaluateCall(defs, permissive, fn, args, env, f)
    case If(op, l, r, thn, els) => EvaluateIf(defs, permissive, op, l, r, thn, els, env, f)
  }

  ghost function EvaluatePrim(defs: Defs, permissive: bool, op: PrimOp, l: Term, r: Term, env: Env, f: int)
      : (res: (Result<Value>, int))
    ensures res.1 <= f
    decreases Measure(f), 1, 0
  {
    var (a, fa) := Evaluate(defs, permissive, l, env, f);
    if a.Err? then (a, fa) else
    var (b, fb) := Evaluate(defs, permissive, r, env, fa);
    if b.Err? then (b, fb) else
    (Ok(VLin(PrimOnForms(op, AsLin(a.value), AsLin(b.value)))), fb)
  }

  ghost function EvaluateIf(
      defs: Defs, permissive: bool, op: Cmp, l: Term, r: Term, thn: Term, els: Term, env: Env, f: int)
      : (res: (Result<Value>, int))
    ensures res.1 <= f
    decreases Measure(f), 1, 1
  {
    var (a, fa) := Evaluate(defs, permissive, l, env, f);
    if a.Err? then (a, fa) else
    var (b, fb) := Evaluate(defs, permissive, r, env, fa);
    if b.Err? then (b, fb) else EvaluateChosen(defs, permissive, op, a.value, b.value, thn, els, env, fb)
  }

  /** An if whose condition has evaluated: a branch, or a stuck if keeping its environment. */
  ghost function EvaluateChosen(
      defs: Defs, permissive: bool, op: Cmp, a: Value, b: Value, thn: Term, els: Term, env: Env, f: int)
      : (res: (Result<Value>, int))
    ensures res.1 <= f
    decreases Measure(f), 1, 0
  {
    match Decided(op, AsLin(a), AsLin(b))
    case TakeThen => Evaluate(defs, permissive, thn, env, f)
    case TakeElse => Evaluate(defs, permissive, els, env, f)
    case Stuck => (Ok(VNeu(NIf(op, a, b, thn, els, env))), f)
  }

  ghost function EvaluateCall(defs: Defs, permissive: bool, fn: string, args: seq<Term>, env: Env, f: int)
      : (res: (Result<Value>, int))
    ensures res.1 <= f
    decreases Measure(f), 2, 0
  {
    var (vs, fv) := EvaluateAll(defs, permissive, args, env, f);
    if vs.Err? then (Err(vs.error), fv) else
    if fn !in defs then
      (if permissive then Ok(VNeu(NCall(fn, vs.value))) else Err(UnknownFunction(fn)), fv)
    else if |vs.value| != |defs[fn].params| then
      (Err(WrongArity(fn, |defs[fn].params|, |vs.value|)), fv)
    else
      var (v, fr) := Evaluate(defs, permissive, defs[fn].body, Bind(defs[fn].params, vs.value), fv);
      (if v.Ok? && StuckRoot(v.value) then Ok(VNeu(NCall(fn, vs.value))) else v, fr)
  }

  ghost function EvaluateAll(
      defs: Defs, permissive: bool, ts: seq<Term>, env: Env, fuel: int): (r: (Result<seq<Value>>, int))
    ensures r.1 <= fuel
    ensures r.0.Ok? ==> |r.0.value| == |ts|
    decreases Measure(fuel), 1, |ts|
  {
    if ts == [] then (Ok([]), fuel) else
    var (v, f) := Evaluate(defs, permissive, ts[0], env, fuel);
    if v.Err? then (Err(v.error), f) else
    var (vs, f') := EvaluateAll(defs, permissive, ts[1..], env, f);
    if vs.Err? then (vs, f') else (Ok([v.value] + vs.value), f')
  }

  // ------------------------------------------------------------- the code

  class Evaluator {
    const defs: Defs
    const permissive: bool
    var fuel: int

    constructor (defs: Defs, permissive: bool, fuel: int)
      ensures this.defs == defs && this.permissive == permissive && this.fuel == fuel
    {
      this.defs, this.permissive, this.fuel := defs, permissive, fuel;
    }

    method Eval(t: Term, env: Env) returns (r: Result<Value>)
      modifies this`fuel
      ensures (r, fuel) == Evaluate(defs, permissive, t, env, old(fuel))
      decreases Measure(fuel), 0, 0
    {
      fuel := fuel - 1;
      if fuel <= 0 {
        return Err(FuelExhausted);
      }
      match t
      case Var(x) =>
        r := if x in env then Ok(env[x]) else Err(Unbound(x));
      case Nat(n) =>
        r := Ok(VLin(Const(n)));
      case Prim(op, l, e) =>
        var a := Eval(l, env);
        if a.Err? { return a; }
        var b := Eval(e, env);
        if b.Err? { return b; }
        var out := PrimForms(op, AsLin(a.value), AsLin(b.value));
        r := Ok(VLin(out));
      case Call(fn, args) =>
        r := EvalCall(fn, args, env);
      case If(op, l, e, thn, els) =>
        ghost var f := fuel;
        var a := Eval(l, env);
        if a.Err? { return a; }
        var b := Eval(e, env);
        if b.Err? { return b; }
        assert EvaluateIf(defs, permissive, op, l, e, thn, els, env, f)
            == EvaluateChosen(defs, permissive, op, a.value, b.value, thn, els, env, fuel);
        var branch := Decide(op, AsLin(a.value), AsLin(b.value));
        match branch {
          case TakeThen => r := Eval(thn, env);
          case TakeElse => r := Eval(els, env);
          case Stuck => r := Ok(VNeu(NIf(op, a.value, b.value, thn, els, env)));
        }
    }

    method EvalCall(fn: string, args: seq<Term>, env: Env) returns (r: Result<Value>)
      modifies this`fuel
      ensures (r, fuel) == EvaluateCall(defs, permissive, fn, args, env, old(fuel))
      decreases Measure(fuel), 2, 0
    {
      var vs := EvalAll(args, env);
      if vs.Err? {
        return Err(vs.error);
      }
      if fn !in defs {
        return if permissive then Ok(VNeu(NCall(fn, vs.value))) else Err(UnknownFunction(fn));
      }
      var def := defs[fn];
      if |vs.value| != |def.params| {
        return Err(WrongArity(fn, |def.params|, |vs.value|));
      }
      r := Eval(def.body, Bind(def.params, vs.value));
      if r.Ok? && StuckRoot(r.value) {
        r := Ok(VNeu(NCall(fn, vs.value)));
      }
    }

    method EvalAll(ts: seq<Term>, env: Env) returns (r: Result<seq<Value>>)
      modifies this`fuel
      ensures (r, fuel) == EvaluateAll(defs, permissive, ts, env, old(fuel))
      decreases Measure(fuel), 1, |ts|
    {
      if ts == [] {
        return Ok([]);
      }
      var v := Eval(ts[0], env);
      if v.Err? {
        return Err(v.error);
      }
      var vs := EvalAll(ts[1..], env);
      r := if vs.Err? then vs else Ok([v.value] + vs.value);
    }

    static method PrimForms(op: PrimOp, a: Lin<Neutral>, b: Lin<Neutral>) returns (out: Lin<Neutral>)
      ensures out == PrimOnForms(op, a, b)
    {
      match op
      case Plus => out := LinAdd(a, b, 1);
      case Minus => out := LinAdd(a, b, -1);
      case Times => out := LinMul(a, b, Prod);
    }

    static method Decide(op: Cmp, l: Lin<Neutral>, r: Lin<Neutral>) returns (branch: Branch)
      ensures branch == Decided(op, l, r)
    {
      if Ground(l) && Ground(r) {
        return if Compare(op, l.c, r.c) then TakeThen else TakeElse;
      }
      var diff := LinAdd(l, r, -1);
      if Ground(diff) && diff.c == 0 {
        return if op.CmpEq? || op.CmpLe? || op.CmpGe? then TakeThen else TakeElse;
      }
      return Stuck;
    }
  }

  // ------------------------------------------------------------ soundness

  lemma DecidedRight(w: World, rho: Valuation, op: Cmp, a: Value, b: Value, k: nat)
    requires Denote(w, rho, a, k).Some? && Denote(w, rho, b, k).Some?
    requires Decided(op, AsLin(a), AsLin(b)) != Stuck
    ensures Decided(op, AsLin(a), AsLin(b)) == TakeThen
        <==> Compare(op, Denote(w, rho, a, k).value, Denote(w, rho, b, k).value)
  {
    DenoteAsLin(w, rho, a, k);
    DenoteAsLin(w, rho, b, k);
    ValAdd(AsLin(a), AsLin(b), -1, AtomVal(w, rho, k));
  }

  lemma PrimRight(w: World, rho: Valuation, op: PrimOp, a: Value, b: Value, k: nat)
    requires Denote(w, rho, a, k).Some? && Denote(w, rho, b, k).Some?
    ensures Denote(w, rho, VLin(PrimOnForms(op, AsLin(a), AsLin(b))), k + 1)
         == Some(Arith(op, Denote(w, rho, a, k).value, Denote(w, rho, b, k).value))
  {
    DenoteAsLin(w, rho, a, k);
    DenoteAsLin(w, rho, b, k);
    FormsRight(w, rho, op, AsLin(a), AsLin(b), k);
  }

  lemma FormsRight(w: World, rho: Valuation, op: PrimOp, f: Lin<Neutral>, g: Lin<Neutral>, k: nat)
    requires Denote(w, rho, VLin(f), k).Some? && Denote(w, rho, VLin(g), k).Some?
    ensures Denote(w, rho, VLin(PrimOnForms(op, f, g)), k + 1)
         == Some(Arith(op, Denote(w, rho, VLin(f), k).value, Denote(w, rho, VLin(g), k).value))
  {
    match op
    case Plus =>
      DenoteAdd(w, rho, f, g, 1, k);
      DenoteMonotone(w, rho, VLin(Add(f, g, 1)), k, k + 1);
    case Minus =>
      DenoteAdd(w, rho, f, g, -1, k);
      DenoteMonotone(w, rho, VLin(Add(f, g, -1)), k, k + 1);
    case Times =>
      DenoteMul(w, rho, f, g, k);
  }

  lemma PrimDenotes(w: World, rho: Valuation, op: PrimOp, a: Value, b: Value, x: int, y: int, i: nat, j: nat)
      returns (m: nat)
    requires Denote(w, rho, a, i) == Some(x) && Denote(w, rho, b, j) == Some(y)
    ensures Denote(w, rho, VLin(PrimOnForms(op, AsLin(a), AsLin(b))), m) == Some(Arith(op, x, y))
  {
    m := Max(i, j);
    DenoteMonotone(w, rho, a, i, m);
    DenoteMonotone(w, rho, b, j, m);
    PrimRight(w, rho, op, a, b, m);
    m := m + 1;
  }

  /** A stuck if denotes what its captured branch evaluates to. */
  lemma StuckIfDenotes(
      w: World, rho: Valuation, op: Cmp, a: Value, b: Value, thn: Term, els: Term, env: Env, s: Store,
      x: int, y: int, i: nat, j: nat, k: nat) returns (m: nat)
    requires Denote(w, rho, a, i) == Some(x) && Denote(w, rho, b, i) == Some(y) && Represents(w, rho, env, s, j)
    requires Ref(w, if Compare(op, x, y) then thn else els, s, k).Some?
    ensures Denote(w, rho, VNeu(NIf(op, a, b, thn, els, env)), m)
        == Ref(w, if Compare(op, x, y) then thn else els, s, k)
  {
    m := Max(Max(i, j), k);
    DenoteMonotone(w, rho, a, i, m);
    DenoteMonotone(w, rho, b, i, m);
    RepresentsMonotone(w, rho, env, s, j, m);
    assert EnvDenotes(w, rho, env, m) && EnvStore(w, rho, env, m) == s;
    RefMonotone(w, if Compare(op, x, y) then thn else els, s, k, m);
    m := m + 1;
    assert DenoteAtom(w, rho, NIf(op, a, b, thn, els, env), m).Some?;
  }

  /** The evaluator may know fewer definitions than the world: what it does not know stays neutral. */
  ghost predicate Knows(w: World, defs: Defs) {
    forall fn | fn in defs :: fn in w.defs && w.defs[fn] == defs[fn]
  }

  /** If reference evaluation answers, the normal form denotes that answer; `m` is a depth that shows it. */
  lemma {:induction false} EvaluateSound(
      w: World, defs: Defs, permissive: bool, t: Term, env: Env, fuel: int, rho: Valuation, s: Store, j: nat, k: nat)
      returns (m: nat)
    requires Knows(w, defs) && Represents(w, rho, env, s, j)
    requires Evaluate(defs, permissive, t, env, fuel).0.Ok?
    requires Ref(w, t, s, k).Some?
    ensures Denote(w, rho, Evaluate(defs, permissive, t, env, fuel).0.value, m) == Ref(w, t, s, k)
    decreases Measure(fuel), 0, 0
  {
    match t
    case Var(x) =>
      m := j;
    case Nat(n) =>
      m := 0;
    case Prim(op, l, r) =>
      m := EvaluateSoundPrim(w, defs, permissive, op, l, r, env, fuel - 1, rho, s, j, k - 1);
    case Call(fn, args) =>
      m := EvaluateSoundCall(w, defs, permissive, fn, args, env, fuel - 1, rho, s, j, k - 1);
    case If(op, l, r, thn, els) =>
      m := EvaluateSoundIf(w, defs, permissive, op, l, r, thn, els, env, fuel - 1, rho, s, j, k - 1);
  }

  lemma {:induction false} EvaluateSoundPrim(
      w: World, defs: Defs, permissive: bool, op: PrimOp, l: Term, r: Term, env: Env, f: int, rho: Valuation,
      s: Store, j: nat, k: nat)
      returns (m: nat)
    requires Knows(w, defs) && Represents(w, rho, env, s, j)
    requires EvaluatePrim(defs, permissive, op, l, r, env, f).0.Ok?
    requires Ref(w, l, s, k).Some? && Ref(w, r, s, k).Some?
    ensures Denote(w, rho, EvaluatePrim(defs, permissive, op, l, r, env, f).0.value, m)
         == Some(Arith(op, Ref(w, l, s, k).value, Ref(w, r, s, k).value))
    decreases Measure(f), 1, 0
  {
    var (a, fa) := Evaluate(defs, permissive, l, env, f);
    var (b, fb) := Evaluate(defs, permissive, r, env, fa);
    var ma := EvaluateSound(w, defs, permissive, l, env, f, rho, s, j, k);
    var mb := EvaluateSound(w, defs, permissive, r, env, fa, rho, s, j, k);
    m := PrimDenotes(w, rho, op, a.value, b.value, Ref(w, l, s, k).value, Ref(w, r, s, k).value, ma, mb);
  }

  lemma {:induction false} EvaluateSoundIf(
      w: World, defs: Defs, permissive: bool, op: Cmp, l: Term, r: Term, thn: Term, els: Term, env: Env, f: int,
      rho: Valuation, s: Store, j: nat, k: nat) returns (m: nat)
    requires Knows(w, defs) && Represents(w, rho, env, s, j)
    requires EvaluateIf(defs, permissive, op, l, r, thn, els, env, f).0.Ok?
    requires Ref(w, l, s, k).Some? && Ref(w, r, s, k).Some?
    requires Ref(w, if Compare(op, Ref(w, l, s, k).value, Ref(w, r, s, k).value) then thn else els, s, k).Some?
    ensures Denote(w, rho, EvaluateIf(defs, permissive, op, l, r, thn, els, env, f).0.value, m)
         == Ref(w, if Compare(op, Ref(w, l, s, k).value, Ref(w, r, s, k).value) then thn else els, s, k)
    decreases Measure(f), 1, 1
  {
    var (a, fa) := Evaluate(defs, permissive, l, env, f);
    var (b, fb) := Evaluate(defs, permissive, r, env, fa);
    var x, y := Ref(w, l, s, k).value, Ref(w, r, s, k).value;
    var ma := EvaluateSound(w, defs, permissive, l, env, f, rho, s, j, k);
    var mb := EvaluateSound(w, defs, permissive, r, env, fa, rho, s, j, k);
    m := Max(ma, mb);
    DenoteMonotone(w, rho, a.value, ma, m);
    DenoteMonotone(w, rho, b.value, mb, m);
    m := EvaluateSoundChosen(w, defs, permissive, op, a.value, b.value, thn, els, env, fb, rho, s, x, y, m, j, k);
  }

  lemma {:induction false} EvaluateSoundChosen(
      w: World, defs: Defs, permissive: bool, op: Cmp, a: Value, b: Value, thn: Term, els: Term, env: Env, f: int,
      rho: Valuation, s: Store, x: int, y: int, i: nat, j: nat, k: nat) returns (m: nat)
    requires Knows(w, defs) && Represents(w, rho, env, s, j)
    requires EvaluateChosen(defs, permissive, op, a, b, thn, els, env, f).0.Ok?
    requires Denote(w, rho, a, i) == Some(x) && Denote(w, rho, b, i) == Some(y)
    requires Ref(w, if Compare(op, x, y) then thn else els, s, k).Some?
    ensures Denote(w, rho, EvaluateChosen(defs, permissive, op, a, b, thn, els, env, f).0.value, m)
         == Ref(w, if Compare(op, x, y) then thn else els, s, k)
    decreases Measure(f), 1, 0
  {
    match Decided(op, AsLin(a), AsLin(b))
    case TakeThen =>
      DecidedRight(w, rho, op, a, b, i);
      m := EvaluateSound(w, defs, permissive, thn, env, f, rho, s, j, k);
    case TakeElse =>
      DecidedRight(w, rho, op, a, b, i);
      m := EvaluateSound(w, defs, permissive, els, env, f, rho, s, j, k);
    case Stuck =>
      m := StuckIfDenotes(w, rho, op, a, b, thn, els, env, s, x, y, i, j, k);
  }

  lemma {:induction false} EvaluateSoundCall(
      w: World, defs: Defs, permissive: bool, fn: string, args: seq<Term>, env: Env, f: int, rho: Valuation,
      s: Store, j: nat, k: nat)
      returns (m: nat)
    requires Knows(w, defs) && Represents(w, rho, env, s, j)
    requires EvaluateCall(defs, permissive, fn, args, env, f).0.Ok?
    requires RefAll(w, args, s, k).Some? && Apply(w, fn, RefAll(w, args, s, k).value, k).Some?
    ensures Denote(w, rho, EvaluateCall(defs, permissive, fn, args, env, f).0.value, m)
         == Apply(w, fn, RefAll(w, args, s, k).value, k)
    decreases Measure(f), 2, 0
  {
    var (vs, fv) := EvaluateAll(defs, permissive, args, env, f);
    var ns := RefAll(w, args, s, k).value;
    var i := EvaluateAllSound(w, defs, permissive, args, env, f, rho, s, j, k);
    var inner := if fn in defs then Bind(defs[fn].params, vs.value) else map[];
    if fn in defs && !StuckRoot(Evaluate(defs, permissive, defs[fn].body, inner, fv).0.value) {
      var def := defs[fn];
      BindRepresents(w, rho, def.params, vs.value, i);
      m := EvaluateSound(w, defs, permissive, def.body, inner, fv, rho, Bind(def.params, ns), i, k);
    } else {
      m := StuckCallDenotes(w, rho, fn, vs.value, i, k);
    }
  }

  lemma StuckCallDenotes(w: World, rho: Valuation, fn: string, vs: seq<Value>, i: nat, k: nat) returns (m: nat)
    requires DenoteAll(w, rho, vs, i).Some? && Apply(w, fn, DenoteAll(w, rho, vs, i).value, k).Some?
    ensures Denote(w, rho, VNeu(NCall(fn, vs)), m) == Apply(w, fn, DenoteAll(w, rho, vs, i).value, k)
  {
    m := Max(i, k);
    DenoteAllMonotone(w, rho, vs, i, m);
    ApplyMonotone(w, fn, DenoteAll(w, rho, vs, i).value, k, m);
    m := m + 1;
  }

  lemma {:induction false} EvaluateAllSound(
      w: World, defs: Defs, permissive: bool, ts: seq<Term>, env: Env, fuel: int, rho: Valuation, s: Store, j: nat,
      k: nat)
      returns (m: nat)
    requires Knows(w, defs) && Represents(w, rho, env, s, j)
    requires EvaluateAll(defs, permissive, ts, env, fuel).0.Ok?
    requires RefAll(w, ts, s, k).Some?
    ensures DenoteAll(w, rho, EvaluateAll(defs, permissive, ts, env, fuel).0.value, m) == RefAll(w, ts, s, k)
    decreases Measure(fuel), 1, |ts|
  {
    m := 0;
    if ts != [] {
      var (v, f) := Evaluate(defs, permissive, ts[0], env, fuel);
      var (vs, f') := EvaluateAll(defs, permissive, ts[1..], env, f);
      var i := EvaluateSound(w, defs, permissive, ts[0], env, fuel, rho, s, j, k);
      var i' := EvaluateAllSound(w, defs, permissive, ts[1..], env, f, rho, s, j, k);
      m := Max(i, i');
      DenoteMonotone(w, rho, v.value, i, m);
      DenoteAllMonotone(w, rho, vs.value, i', m);
    }
  }

  /** Normalisation preserves meaning. */
  lemma NormalizationPreservesMeaning(
      w: World, defs: Defs, permissive: bool, t: Term, env: Env, fuel: int, rho: Valuation, s: Store, j: nat, k: nat)
    requires Knows(w, defs) && Represents(w, rho, env, s, j)
    requires Evaluate(defs, permissive, t, env, fuel).0.Ok?
    requires Ref(w, t, s, k).Some?
    ensures exists m :: Denote(w, rho, Evaluate(defs, permissive, t, env, fuel).0.value, m) == Ref(w, t, s, k)
  {
    var m := EvaluateSound(w, defs, permissive, t, env, fuel, rho, s, j, k);
  }

  // ------------------------------------------------------------ more fuel

  /** More fuel never changes a successful answer, and is left over. */
  lemma {:induction false} MoreFuel(defs: Defs, permissive: bool, t: Term, env: Env, fuel: int, extra: nat)
    requires Evaluate(defs, permissive, t, env, fuel).0.Ok?
    ensures Spare(Evaluate(defs, permissive, t, env, fuel), Evaluate(defs, permissive, t, env, fuel + extra), extra)
    decreases Measure(fuel), 0, 0
  {
    match t
    case Var(_) =>
    case Nat(_) =>
    case Prim(op, l, r) =>
      MoreFuelPrim(defs, permissive, op, l, r, env, fuel - 1, extra);
    case Call(fn, args) =>
      MoreFuelCall(defs, permissive, fn, args, env, fuel - 1, extra);
    case If(op, l, r, thn, els) =>
      MoreFuelIf(defs, permissive, op, l, r, thn, els, env, fuel - 1, extra);
  }

  /** `after` is `before` with `extra` fuel to spare. */
  ghost predicate Spare<T>(before: (Result<T>, int), after: (Result<T>, int), extra: nat) {
    after.0 == before.0 && after.1 == before.1 + extra
  }

  lemma {:induction false} MoreFuelPrim(
      defs: Defs, permissive: bool, op: PrimOp, l: Term, r: Term, env: Env, f: int, extra: nat)
    requires EvaluatePrim(defs, permissive, op, l, r, env, f).0.Ok?
    ensures Spare(EvaluatePrim(defs, permissive, op, l, r, env, f),
        EvaluatePrim(defs, permissive, op, l, r, env, f + extra), extra)
    decreases Measure(f), 1, 0
  {
    MoreFuel(defs, permissive, l, env, f, extra);
    MoreFuel(defs, permissive, r, env, Evaluate(defs, permissive, l, env, f).1, extra);
  }

  lemma {:induction false} MoreFuelIf(
      defs: Defs, permissive: bool, op: Cmp, l: Term, r: Term, thn: Term, els: Term, env: Env, f: int, extra: nat)
    requires EvaluateIf(defs, permissive, op, l, r, thn, els, env, f).0.Ok?
    ensures Spare(EvaluateIf(defs, permissive, op, l, r, thn, els, env, f),
                  EvaluateIf(defs, permissive, op, l, r, thn, els, env, f + extra), extra)
    decreases Measure(f), 1, 1
  {
    var (a, fa) := Evaluate(defs, permissive, l, env, f);
    var (b, fb) := Evaluate(defs, permissive, r, env, fa);
    MoreFuel(defs, permissive, l, env, f, extra);
    MoreFuel(defs, permissive, r, env, fa, extra);
    MoreFuelChosen(defs, permissive, op, a.value, b.value, thn, els, env, fb, extra);
    var more, ga, gb := f + extra, fa + extra, fb + extra;
    IfChooses(defs, permissive, op, l, r, thn, els, env, f, a.value, fa, b.value, fb);
    IfChooses(defs, permissive, op, l, r, thn, els, env, more, a.value, ga, b.value, gb);
  }

  lemma IfChooses(
      defs: Defs, permissive: bool, op: Cmp, l: Term, r: Term, thn: Term, els: Term, env: Env, f: int,
      a: Value, fa: int, b: Value, fb: int)
    requires Evaluate(defs, permissive, l, env, f) == (Ok(a), fa)
    requires Evaluate(defs, permissive, r, env, fa) == (Ok(b), fb)
    ensures EvaluateIf(defs, permissive, op, l, r, thn, els, env, f)
         == EvaluateChosen(defs, permissive, op, a, b, thn, els, env, fb)
  {
  }

  lemma {:induction false} MoreFuelChosen(
      defs: Defs, permissive: bool, op: Cmp, a: Value, b: Value, thn: Term, els: Term, env: Env, f: int, extra: nat)
    requires EvaluateChosen(defs, permissive, op, a, b, thn, els, env, f).0.Ok?
    ensures Spare(EvaluateChosen(defs, permissive, op, a, b, thn, els, env, f),
                  EvaluateChosen(defs, permissive, op, a, b, thn, els, env, f + extra), extra)
    decreases Measure(f), 1, 0
  {
    match Decided(op, AsLin(a), AsLin(b))
    case TakeThen => MoreFuelTaken(defs, permissive, op, a, b, thn, els, env, f, extra, thn);
    case TakeElse => MoreFuelTaken(defs, permissive, op, a, b, thn, els, env, f, extra, els);
    case Stuck =>
  }

  lemma {:induction false} MoreFuelTaken(
      defs: Defs, permissive: bool, op: Cmp, a: Value, b: Value, thn: Term, els: Term, env: Env, f: int, extra: nat,
      taken: Term)
    requires Decided(op, AsLin(a), AsLin(b)) != Stuck
    requires taken == if Decided(op, AsLin(a), AsLin(b)) == TakeThen then thn else els
    requires EvaluateChosen(defs, permissive, op, a, b, thn, els, env, f).0.Ok?
    ensures Spare(EvaluateChosen(defs, permissive, op, a, b, thn, els, env, f),
                  EvaluateChosen(defs, permissive, op, a, b, thn, els, env, f + extra), extra)
    decreases Measure(f), 0, 1
  {
    var more := f + extra;
    ChosenTaken(defs, permissive, op, a, b, thn, els, env, f, taken);
    ChosenTaken(defs, permissive, op, a, b, thn, els, env, more, taken);
    MoreFuel(defs, permissive, taken, env, f, extra);
  }

  lemma ChosenTaken(
      defs: Defs, permissive: bool, op: Cmp, a: Value, b: Value, thn: Term, els: Term, env: Env, f: int, taken: Term)
    requires Decided(op, AsLin(a), AsLin(b)) != Stuck
    requires taken == if Decided(op, AsLin(a), AsLin(b)) == TakeThen then thn else els
    ensures EvaluateChosen(defs, permissive, op, a, b, thn, els, env, f) == Evaluate(defs, permissive, taken, env, f)
  {
  }

  lemma {:induction false} MoreFuelCall(
      defs: Defs, permissive: bool, fn: string, args: seq<Term>, env: Env, f: int, extra: nat)
    requires EvaluateCall(defs, permissive, fn, args, env, f).0.Ok?
    ensures Spare(EvaluateCall(defs, permissive, fn, args, env, f),
        EvaluateCall(defs, permissive, fn, args, env, f + extra), extra)
    decreases Measure(f), 2, 0
  {
    var (vs, fv) := EvaluateAll(defs, permissive, args, env, f);
    MoreFuelAll(defs, permissive, args, env, f, extra);
    if fn in defs {
      MoreFuel(defs, permissive, defs[fn].body, Bind(defs[fn].params, vs.value), fv, extra);
    }
  }

  lemma {:induction false} MoreFuelAll(defs: Defs, permissive: bool, ts: seq<Term>, env: Env, fuel: int, extra: nat)
    requires EvaluateAll(defs, permissive, ts, env, fuel).0.Ok?
    ensures Spare(EvaluateAll(defs, permissive, ts, env, fuel), EvaluateAll(defs, permissive, ts, env, fuel + extra),
        extra)
    decreases Measure(fuel), 1, |ts|
  {
    if ts != [] {
      var (v, f) := Evaluate(defs, permissive, ts[0], env, fuel);
      MoreFuel(defs, permissive, ts[0], env, fuel, extra);
      MoreFuelAll(defs, permissive, ts[1..], env, f, extra);
    }
  }
}
