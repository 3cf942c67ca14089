/**
 * Closed terms compute (internal/core/eval.go): where every variable stands for
 * a number and every call has a definition, normalisation with enough fuel
 * gives exactly the number reference evaluation does.
 */
module Computes {
  import opened Options
  import opened Sums
  import opened Linear
  import opened Terms
  import opened Values
  import opened Normalizer

  function Number(n: int): Value {
    VLin(Const(n))
  }

  /** Every variable stands for its number. */
  predicate Numbers(env: Env, s: Store) {
    env.Keys == s.Keys && forall x | x in s :: env[x] == Number(s[x])
  }

  /** Every call is to a definition. */
  predicate Defined(defs: Defs, t: Term) {
    match t
    case Var(_) => true
    case Nat(_) => true
    case Prim(_, l, r) => Defined(defs, l) && Defined(defs, r)
    case Call(fn, args) => fn in defs && forall i | 0 <= i < |args| :: Defined(defs, args[i])
    case If(_, l, r, thn, els) => Defined(defs, l) && Defined(defs, r) && Defined(defs, thn) && Defined(defs, els)
  }

  /** Definitions that call only one another, and the world that holds just them. */
  predicate ClosedWorld(w: World, defs: Defs) {
    w.defs == defs && forall fn | fn in defs :: Defined(defs, defs[fn].body)
  }

  // ------------------------------------------------------- numbers as forms

  lemma ArithNumbers(op: PrimOp, a: int, b: int)
    ensures PrimOnForms(op, Const(a), Const(b)) == Const(Arith(op, a, b))
  {
    if op.Times? {
      var none: Lin<Neutral> := Const(a);
      assert MulKeys(Const(a), Const(b), Prod) == {} by {
        assert Pairs(none.coef.Keys, none.coef.Keys) == {};
      }
    }
  }

  lemma CompareNumbers(op: Cmp, a: int, b: int)
    ensures Decided(op, Const(a), Const(b)) == if Compare(op, a, b) then TakeThen else TakeElse
  {
  }

  // --------------------------------------------------------------- running

  /** With fuel `c` evaluation answers `n` and has some left. */
  ghost predicate Gives(defs: Defs, permissive: bool, t: Term, env: Env, c: nat, n: int) {
    var r := Evaluate(defs, permissive, t, env, c);
    r.0 == Ok(Number(n)) && r.1 >= 0
  }

  ghost predicate GivesAll(defs: Defs, permissive: bool, ts: seq<Term>, env: Env, c: nat, ns: seq<int>) {
    var r := EvaluateAll(defs, permissive, ts, env, c);
    && r.0.Ok? && r.1 >= 0 && |ns| == |ts|
    && forall i | 0 <= i < |ts| :: r.0.value[i] == Number(ns[i])
  }

  /** Fuel on top is left over. */
  lemma GivesMore(defs: Defs, permissive: bool, t: Term, env: Env, c: nat, n: int, extra: nat)
    requires Gives(defs, permissive, t, env, c, n)
    ensures Gives(defs, permissive, t, env, c + extra, n)
    ensures Evaluate(defs, permissive, t, env, c + extra).1 >= extra
  {
    MoreFuel(defs, permissive, t, env, c, extra);
  }

  lemma GivesAllMore(defs: Defs, permissive: bool, ts: seq<Term>, env: Env, c: nat, ns: seq<int>, extra: nat)
    requires GivesAll(defs, permissive, ts, env, c, ns)
    ensures GivesAll(defs, permissive, ts, env, c + extra, ns)
    ensures EvaluateAll(defs, permissive, ts, env, c + extra).1 >= extra
  {
    MoreFuelAll(defs, permissive, ts, env, c, extra);
  }

  /** Closed terms compute: if reference evaluation answers `n`, some fuel normalises the term to `n`. */
  lemma {:induction false} ClosedComputes(
      w: World, defs: Defs, permissive: bool, t: Term, env: Env, s: Store, k: nat, n: int) returns (c: nat)
    requires ClosedWorld(w, defs) && Defined(defs, t) && Numbers(env, s) && Ref(w, t, s, k) == Some(n)
    ensures Gives(defs, permissive, t, env, c, n)
    decreases k, 0, 0
  {
    match t
    case Var(_) =>
      c := 2;
    case Nat(_) =>
      c := 2;
    case Prim(op, l, r) =>
      c := PrimComputes(w, defs, permissive, op, l, r, env, s, k - 1, n);
    case Call(fn, args) =>
      c := CallComputes(w, defs, permissive, fn, args, env, s, k - 1, n);
    case If(op, l, r, thn, els) =>
      c := IfComputes(w, defs, permissive, t, env, s, k - 1, n);
  }

  lemma {:induction false} PrimComputes(
      w: World, defs: Defs, permissive: bool, op: PrimOp, l: Term, r: Term, env: Env, s: Store, k: nat, n: int)
      returns (c: nat)
    requires ClosedWorld(w, defs) && Defined(defs, l) && Defined(defs, r) && Numbers(env, s)
    requires Ref(w, Prim(op, l, r), s, k + 1) == Some(n)
    ensures Gives(defs, permissive, Prim(op, l, r), env, c, n)
    decreases k, 1, 0
  {
    var a, b := Ref(w, l, s, k).value, Ref(w, r, s, k).value;
    var cl := ClosedComputes(w, defs, permissive, l, env, s, k, a);
    var cr := ClosedComputes(w, defs, permissive, r, env, s, k, b);
    c := TwoInTurn(defs, permissive, l, r, env, cl, a, cr, b);
    PrimGives(defs, permissive, op, l, r, env, c, a, b);
    c := c + 1;
  }

  /** Fuel for one term and then another. */
  lemma TwoInTurn(defs: Defs, permissive: bool, l: Term, r: Term, env: Env, cl: nat, a: int, cr: nat, b: int)
      returns (c: nat)
    requires Gives(defs, permissive, l, env, cl, a) && Gives(defs, permissive, r, env, cr, b)
    ensures c > 0 && Both(defs, permissive, l, r, env, c, a, b)
  {
    c := cl + cr + 1;
    GivesMore(defs, permissive, l, env, cl, a, cr + 1);
    var left := Evaluate(defs, permissive, l, env, c).1;
    GivesMore(defs, permissive, r, env, cr, b, left - cr);
  }

  ghost predicate Both(defs: Defs, permissive: bool, l: Term, r: Term, env: Env, c: nat, a: int, b: int) {
    && Gives(defs, permissive, l, env, c, a)
    && Gives(defs, permissive, r, env, Evaluate(defs, permissive, l, env, c).1, b)
  }

  lemma PrimGives(defs: Defs, permissive: bool, op: PrimOp, l: Term, r: Term, env: Env, c: nat, a: int, b: int)
    requires c > 0 && Both(defs, permissive, l, r, env, c, a, b)
    ensures Gives(defs, permissive, Prim(op, l, r), env, c + 1, Arith(op, a, b))
  {
    ArithNumbers(op, a, b);
  }

  lemma BothMore(
      defs: Defs, permissive: bool, l: Term, r: Term, env: Env, c: nat, a: int, b: int, extra: nat)
    requires Both(defs, permissive, l, r, env, c, a, b)
    ensures Both(defs, permissive, l, r, env, c + extra, a, b)
    ensures Evaluate(defs, permissive, r, env, Evaluate(defs, permissive, l, env, c + extra).1).1 >= extra
  {
    MoreFuel(defs, permissive, l, env, c, extra);
    var left := Evaluate(defs, permissive, l, env, c).1;
    MoreFuel(defs, permissive, r, env, left, extra);
  }

  lemma {:induction false} IfComputes(
      w: World, defs: Defs, permissive: bool, t: Term, env: Env, s: Store, k: nat, n: int) returns (c: nat)
    requires ClosedWorld(w, defs) && t.If? && Defined(defs, t) && Numbers(env, s) && Ref(w, t, s, k + 1) == Some(n)
    ensures Gives(defs, permissive, t, env, c, n)
    decreases k, 1, 0
  {
    var a, b := Ref(w, t.a, s, k).value, Ref(w, t.b, s, k).value;
    var taken := if Compare(t.cmp, a, b) then t.thn else t.els;
    var cl := ClosedComputes(w, defs, permissive, t.a, env, s, k, a);
    var cr := ClosedComputes(w, defs, permissive, t.b, env, s, k, b);
    var ct := ClosedComputes(w, defs, permissive, taken, env, s, k, n);
    var cb := TwoInTurn(defs, permissive, t.a, t.b, env, cl, a, cr, b);
    BothMore(defs, permissive, t.a, t.b, env, cb, a, b, ct);
    c := cb + ct;
    var left := Evaluate(defs, permissive, t.b, env, Evaluate(defs, permissive, t.a, env, c).1).1;
    GivesMore(defs, permissive, taken, env, ct, n, left - ct);
    IfGives(defs, permissive, t, env, c, a, b, taken, left, n);
    c := c + 1;
  }

  lemma IfGives(
      defs: Defs, permissive: bool, t: Term, env: Env, c: nat, a: int, b: int, taken: Term, left: nat, n: int)
    requires c > 0 && t.If? && Both(defs, permissive, t.a, t.b, env, c, a, b)
    requires taken == if Compare(t.cmp, a, b) then t.thn else t.els
    requires left == Evaluate(defs, permissive, t.b, env, Evaluate(defs, permissive, t.a, env, c).1).1
    requires Gives(defs, permissive, taken, env, left, n)
    ensures Gives(defs, permissive, t, env, c + 1, n)
  {
    CompareNumbers(t.cmp, a, b);
    ChosenTaken(defs, permissive, t.cmp, Number(a), Number(b), t.thn, t.els, env, left, taken);
    assert EvaluateIf(defs, permissive, t.cmp, t.a, t.b, t.thn, t.els, env, c)
        == EvaluateChosen(defs, permissive, t.cmp, Number(a), Number(b), t.thn, t.els, env, left);
  }

  lemma {:induction false} CallComputes(
      w: World, defs: Defs, permissive: bool, fn: string, args: seq<Term>, env: Env, s: Store, k: nat, n: int)
      returns (c: nat)
    requires ClosedWorld(w, defs) && Defined(defs, Call(fn, args)) && Numbers(env, s)
    requires Ref(w, Call(fn, args), s, k + 1) == Some(n)
    ensures Gives(defs, permissive, Call(fn, args), env, c, n)
    decreases k, 2, 0
  {
    var ns, def := RefAll(w, args, s, k).value, defs[fn];
    var ca := ArgsCompute(w, defs, permissive, args, env, s, k, ns);
    var vs := EvaluateAll(defs, permissive, args, env, ca).0.value;
    var inner := Bind(def.params, vs);
    BindNumbers(def.params, vs, ns);
    var cb := ClosedComputes(w, defs, permissive, def.body, inner, Bind(def.params, ns), k, n);
    var extra := cb + 1;
    MoreFuelAll(defs, permissive, args, env, ca, extra);
    c := ca + extra;
    var left := EvaluateAll(defs, permissive, args, env, c).1;
    GivesMore(defs, permissive, def.body, inner, cb, n, left - cb);
    CallGives(defs, permissive, fn, args, env, c, vs, left, n);
    c := c + 1;
  }

  lemma CallGives(
      defs: Defs, permissive: bool, fn: string, args: seq<Term>, env: Env, c: nat, vs: seq<Value>, left: nat, n: int)
    requires c > 0 && fn in defs && |vs| == |defs[fn].params|
    requires EvaluateAll(defs, permissive, args, env, c) == (Ok(vs), left)
    requires Gives(defs, permissive, defs[fn].body, Bind(defs[fn].params, vs), left, n)
    ensures Gives(defs, permissive, Call(fn, args), env, c + 1, n)
  {
    assert EvaluateCall(defs, permissive, fn, args, env, c)
        == Evaluate(defs, permissive, defs[fn].body, Bind(defs[fn].params, vs), left);
  }

  lemma BindNumbers(params: seq<string>, vs: seq<Value>, ns: seq<int>)
    requires |params| == |vs| == |ns| && forall i | 0 <= i < |vs| :: vs[i] == Number(ns[i])
    ensures Numbers(Bind(params, vs), Bind(params, ns))
  {
    forall p | p in Bind(params, ns) ensures Bind(params, vs)[p] == Number(Bind(params, ns)[p]) {
      var i := BindIndex(params, vs, ns, p);
    }
  }

  lemma {:induction false} ArgsCompute(
      w: World, defs: Defs, permissive: bool, ts: seq<Term>, env: Env, s: Store, k: nat, ns: seq<int>)
      returns (c: nat)
    requires ClosedWorld(w, defs) && (forall i | 0 <= i < |ts| :: Defined(defs, ts[i])) && Numbers(env, s)
    requires RefAll(w, ts, s, k) == Some(ns)
    ensures GivesAll(defs, permissive, ts, env, c, ns)
    decreases k, 1, |ts|
  {
    c := 0;
    if ts != [] {
      var c0 := ClosedComputes(w, defs, permissive, ts[0], env, s, k, ns[0]);
      var c1 := ArgsCompute(w, defs, permissive, ts[1..], env, s, k, ns[1..]);
      c := c0 + c1;
      GivesMore(defs, permissive, ts[0], env, c0, ns[0], c1);
      var left := Evaluate(defs, permissive, ts[0], env, c).1;
      GivesAllMore(defs, permissive, ts[1..], env, c1, ns[1..], left - c1);
      ConsGives(defs, permissive, ts, env, c, ns);
    }
  }

  lemma ConsGives(defs: Defs, permissive: bool, ts: seq<Term>, env: Env, c: nat, ns: seq<int>)
    requires ts != [] && |ns| == |ts| && Gives(defs, permissive, ts[0], env, c, ns[0])
    requires GivesAll(defs, permissive, ts[1..], env, Evaluate(defs, permissive, ts[0], env, c).1, ns[1..])
    ensures GivesAll(defs, permissive, ts, env, c, ns)
  {
    var left := Evaluate(defs, permissive, ts[0], env, c).1;
    var vs := EvaluateAll(defs, permissive, ts[1..], env, left).0.value;
    forall i | 0 <= i < |ts| ensures ([Number(ns[0])] + vs)[i] == Number(ns[i]) {
      if i > 0 {
        assert vs[i - 1] == Number(ns[1..][i - 1]);
      }
    }
  }

  // ------------------------------------------------------- nothing else

  /** And only then: whatever a closed term normalises to is the number it evaluates to. */
  lemma {:induction false} ClosedAnswers(
      w: World, defs: Defs, permissive: bool, t: Term, env: Env, s: Store, fuel: int) returns (k: nat, n: int)
    requires ClosedWorld(w, defs) && Defined(defs, t) && Numbers(env, s)
    requires Evaluate(defs, permissive, t, env, fuel).0.Ok?
    ensures Evaluate(defs, permissive, t, env, fuel).0 == Ok(Number(n)) && Ref(w, t, s, k) == Some(n)
    decreases Measure(fuel), 0, 0
  {
    match t
    case Var(x) =>
      k, n := 1, s[x];
    case Nat(m) =>
      k, n := 1, m;
    case Prim(op, l, r) =>
      k, n := PrimAnswers(w, defs, permissive, op, l, r, env, s, fuel - 1);
    case Call(fn, args) =>
      k, n := CallAnswers(w, defs, permissive, fn, args, env, s, fuel - 1);
    case If(_, _, _, _, _) =>
      k, n := IfAnswers(w, defs, permissive, t, env, s, fuel - 1);
  }

  lemma {:induction false} PrimAnswers(
      w: World, defs: Defs, permissive: bool, op: PrimOp, l: Term, r: Term, env: Env, s: Store, f: int)
      returns (k: nat, n: int)
    requires ClosedWorld(w, defs) && Defined(defs, l) && Defined(defs, r) && Numbers(env, s)
    requires EvaluatePrim(defs, permissive, op, l, r, env, f).0.Ok?
    ensures EvaluatePrim(defs, permissive, op, l, r, env, f).0 == Ok(Number(n))
    ensures Ref(w, Prim(op, l, r), s, k) == Some(n)
    decreases Measure(f), 1, 0
  {
    var fa := Evaluate(defs, permissive, l, env, f).1;
    var i, a := ClosedAnswers(w, defs, permissive, l, env, s, f);
    var j, b := ClosedAnswers(w, defs, permissive, r, env, s, fa);
    ArithNumbers(op, a, b);
    k := OperandsAnswer(w, op, l, r, s, i, a, j, b);
    n := Arith(op, a, b);
  }

  lemma OperandsAnswer(w: World, op: PrimOp, l: Term, r: Term, s: Store, i: nat, a: int, j: nat, b: int)
      returns (k: nat)
    requires Ref(w, l, s, i) == Some(a) && Ref(w, r, s, j) == Some(b)
    ensures Ref(w, Prim(op, l, r), s, k) == Some(Arith(op, a, b))
  {
    var d := Max(i, j);
    RefMonotone(w, l, s, i, d);
    RefMonotone(w, r, s, j, d);
    k := d + 1;
  }

  lemma {:induction false} IfAnswers(
      w: World, defs: Defs, permissive: bool, t: Term, env: Env, s: Store, f: int) returns (k: nat, n: int)
    requires ClosedWorld(w, defs) && t.If? && Defined(defs, t) && Numbers(env, s)
    requires EvaluateIf(defs, permissive, t.cmp, t.a, t.b, t.thn, t.els, env, f).0.Ok?
    ensures EvaluateIf(defs, permissive, t.cmp, t.a, t.b, t.thn, t.els, env, f).0 == Ok(Number(n))
    ensures Ref(w, t, s, k) == Some(n)
    decreases Measure(f), 1, 0
  {
    var fa := Evaluate(defs, permissive, t.a, env, f).1;
    var fb := Evaluate(defs, permissive, t.b, env, fa).1;
    var i, a := ClosedAnswers(w, defs, permissive, t.a, env, s, f);
    var j, b := ClosedAnswers(w, defs, permissive, t.b, env, s, fa);
    var taken := if Compare(t.cmp, a, b) then t.thn else t.els;
    CompareNumbers(t.cmp, a, b);
    ChosenTaken(defs, permissive, t.cmp, Number(a), Number(b), t.thn, t.els, env, fb, taken);
    var h, m := ClosedAnswers(w, defs, permissive, taken, env, s, fb);
    n := m;
    k := BranchAnswers(w, t, s, i, a, j, b, h, n);
  }

  lemma BranchAnswers(w: World, t: Term, s: Store, i: nat, a: int, j: nat, b: int, h: nat, n: int) returns (k: nat)
    requires t.If? && Ref(w, t.a, s, i) == Some(a) && Ref(w, t.b, s, j) == Some(b)
    requires Ref(w, if Compare(t.cmp, a, b) then t.thn else t.els, s, h) == Some(n)
    ensures Ref(w, t, s, k) == Some(n)
  {
    var d := Max(Max(i, j), h);
    RefMonotone(w, t.a, s, i, d);
    RefMonotone(w, t.b, s, j, d);
    RefMonotone(w, if Compare(t.cmp, a, b) then t.thn else t.els, s, h, d);
    k := d + 1;
  }

  lemma {:induction false} CallAnswers(
      w: World, defs: Defs, permissive: bool, fn: string, args: seq<Term>, env: Env, s: Store, f: int)
      returns (k: nat, n: int)
    requires ClosedWorld(w, defs) && Defined(defs, Call(fn, args)) && Numbers(env, s)
    requires EvaluateCall(defs, permissive, fn, args, env, f).0.Ok?
    ensures EvaluateCall(defs, permissive, fn, args, env, f).0 == Ok(Number(n))
    ensures Ref(w, Call(fn, args), s, k) == Some(n)
    decreases Measure(f), 2, 0
  {
    var (vs, fv) := EvaluateAll(defs, permissive, args, env, f);
    var i, ns := ArgsAnswer(w, defs, permissive, args, env, s, f);
    var def := defs[fn];
    BindNumbers(def.params, vs.value, ns);
    var j, m := ClosedAnswers(w, defs, permissive, def.body, Bind(def.params, vs.value), Bind(def.params, ns), fv);
    n := m;
    var d := Max(i, j);
    RefAllMonotone(w, args, s, i, d);
    ApplyMonotone(w, fn, ns, j, d);
    k := d + 1;
  }

  lemma {:induction false} ArgsAnswer(
      w: World, defs: Defs, permissive: bool, ts: seq<Term>, env: Env, s: Store, f: int)
      returns (k: nat, ns: seq<int>)
    requires ClosedWorld(w, defs) && (forall i | 0 <= i < |ts| :: Defined(defs, ts[i])) && Numbers(env, s)
    requires EvaluateAll(defs, permissive, ts, env, f).0.Ok?
    ensures RefAll(w, ts, s, k) == Some(ns) && |ns| == |ts|
    ensures forall i | 0 <= i < |ts| :: EvaluateAll(defs, permissive, ts, env, f).0.value[i] == Number(ns[i])
    decreases Measure(f), 1, |ts|
  {
    k, ns := 0, [];
    if ts != [] {
      var i, n := ClosedAnswers(w, defs, permissive, ts[0], env, s, f);
      var j, more := ArgsAnswer(w, defs, permissive, ts[1..], env, s, Evaluate(defs, permissive, ts[0], env, f).1);
      k, ns := Max(i, j), [n] + more;
      RefMonotone(w, ts[0], s, i, k);
      RefAllMonotone(w, ts[1..], s, j, k);
    }
  }

  /** Normalising a closed term gives `n` for some fuel exactly when the term evaluates to `n`. */
  lemma ClosedNormalForm(w: World, defs: Defs, permissive: bool, t: Term, env: Env, s: Store, n: int)
    requires ClosedWorld(w, defs) && Defined(defs, t) && Numbers(env, s)
    ensures (exists fuel :: Evaluate(defs, permissive, t, env, fuel).0 == Ok(Number(n)))
        <==> (exists k :: Ref(w, t, s, k) == Some(n))
  {
    if fuel :| Evaluate(defs, permissive, t, env, fuel).0 == Ok(Number(n)) {
      var k, m := ClosedAnswers(w, defs, permissive, t, env, s, fuel);
    }
    if k :| Ref(w, t, s, k) == Some(n) {
      var c := ClosedComputes(w, defs, permissive, t, env, s, k, n);
    }
  }

  // ---------------------------------------------------------- open terms

  /** Comparing two values that are definitionally equal takes the branch it takes on equal numbers. */
  lemma EqualValuesDecide(
      defs: Defs, permissive: bool, t: Term, env: Env, f: int, a: Value, fa: int, b: Value, fb: int)
    requires t.If? && f > 0 && Equal(a, b)
    requires Evaluate(defs, permissive, t.a, env, f) == (Ok(a), fa)
    requires Evaluate(defs, permissive, t.b, env, fa) == (Ok(b), fb)
    ensures Evaluate(defs, permissive, t, env, f + 1)
         == Evaluate(defs, permissive, if Compare(t.cmp, 0, 0) then t.thn else t.els, env, fb)
  {
    IfChooses(defs, permissive, t.cmp, t.a, t.b, t.thn, t.els, env, f, a, fa, b, fb);
    SelfDifference(AsLin(a));
    ChosenTaken(defs, permissive, t.cmp, a, b, t.thn, t.els, env, fb, if Compare(t.cmp, 0, 0) then t.thn else t.els);
  }

  lemma SelfDifference(l: Lin<Neutral>)
    ensures Add(l, l, -1) == Const(0)
  {
  }

  /** What a term costs at most when no call unfolds. */
  function Cost(t: Term): nat {
    match t
    case Var(_) => 1
    case Nat(_) => 1
    case Prim(_, l, r) => 1 + Cost(l) + Cost(r)
    case Call(_, args) => 1 + CostAll(args)
    case If(_, l, r, thn, els) => 1 + Cost(l) + Cost(r) + Cost(thn) + Cost(els)
  }

  function CostAll(ts: seq<Term>): nat {
    if ts == [] then 0 else Cost(ts[0]) + CostAll(ts[1..])
  }

  /** An index term over known variables always normalises: calls stay as they are. */
  lemma {:induction false} OpenSucceeds(t: Term, env: Env, fuel: int)
    requires FreeVars(t) <= env.Keys && fuel > Cost(t)
    ensures Evaluate(map[], true, t, env, fuel).0.Ok? && Evaluate(map[], true, t, env, fuel).1 >= fuel - Cost(t)
    decreases t
  {
    match t
    case Var(_) =>
    case Nat(_) =>
    case Prim(_, l, r) =>
      OpenSucceeds(l, env, fuel - 1);
      OpenSucceeds(r, env, Evaluate(map[], true, l, env, fuel - 1).1);
    case Call(_, args) =>
      OpenAllSucceed(args, env, fuel - 1);
    case If(_, l, r, thn, els) =>
      OpenSucceeds(l, env, fuel - 1);
      var fa := Evaluate(map[], true, l, env, fuel - 1).1;
      OpenSucceeds(r, env, fa);
      var fb := Evaluate(map[], true, r, env, fa).1;
      OpenSucceeds(thn, env, fb);
      OpenSucceeds(els, env, fb);
      OpenIf(t, env, fuel - 1, fa, fb);
  }

  lemma OpenIf(t: Term, env: Env, f: int, fa: int, fb: int)
    requires t.If? && f > 0 && fb >= f - Cost(t.a) - Cost(t.b)
    requires Evaluate(map[], true, t.a, env, f).0.Ok? && Evaluate(map[], true, t.a, env, f).1 == fa
    requires Evaluate(map[], true, t.b, env, fa).0.Ok? && Evaluate(map[], true, t.b, env, fa).1 == fb
    requires Evaluate(map[], true, t.thn, env, fb).0.Ok? && Evaluate(map[], true, t.thn, env, fb).1 >= fb - Cost(t.thn)
    requires Evaluate(map[], true, t.els, env, fb).0.Ok? && Evaluate(map[], true, t.els, env, fb).1 >= fb - Cost(t.els)
    ensures Evaluate(map[], true, t, env, f + 1).0.Ok? && Evaluate(map[], true, t, env, f + 1).1 >= f + 1 - Cost(t)
  {
    var a, b := Evaluate(map[], true, t.a, env, f).0.value, Evaluate(map[], true, t.b, env, fa).0.value;
    IfChooses(map[], true, t.cmp, t.a, t.b, t.thn, t.els, env, f, a, fa, b, fb);
    var branch := Decided(t.cmp, AsLin(a), AsLin(b));
    if branch != Stuck {
      ChosenTaken(map[], true, t.cmp, a, b, t.thn, t.els, env, fb, if branch == TakeThen then t.thn else t.els);
    }
  }

  lemma {:induction false} OpenAllSucceed(ts: seq<Term>, env: Env, fuel: int)
    requires FreeVarsAll(ts) <= env.Keys && fuel > CostAll(ts)
    ensures EvaluateAll(map[], true, ts, env, fuel).0.Ok?
    ensures EvaluateAll(map[], true, ts, env, fuel).1 >= fuel - CostAll(ts)
    decreases ts
  {
    if ts != [] {
      OpenSucceeds(ts[0], env, fuel);
      OpenAllSucceed(ts[1..], env, Evaluate(map[], true, ts[0], env, fuel).1);
    }
  }
}
