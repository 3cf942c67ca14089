/**
 * Calls unfold (internal/core/eval.go): a call normalises as its definition's
 * body with the arguments in place of the parameters does, unless that is
 * stuck. Open arguments included.
 */
module Unfolding {
  import opened Options
  import opened Linear
  import opened Terms
  import opened Values
  import opened Elaborator
  import opened Normalizer
  import opened Indices

  /** With fuel `c` the term normalises to `v` and some is left. */
  ghost predicate Yields(defs: Defs, permissive: bool, t: Term, env: Env, c: nat, v: Value) {
    var r := Evaluate(defs, permissive, t, env, c);
    r.0 == Result.Ok(v) && r.1 >= 0
  }

  ghost predicate YieldsAll(defs: Defs, permissive: bool, ts: seq<Term>, env: Env, c: nat, vs: seq<Value>) {
    var r := EvaluateAll(defs, permissive, ts, env, c);
    r.0 == Result.Ok(vs) && r.1 >= 0
  }

  /** Some fuel suffices. */
  ghost predicate Norm(defs: Defs, permissive: bool, t: Term, env: Env, v: Value) {
    exists c: nat :: Yields(defs, permissive, t, env, c, v)
  }

  ghost predicate NormAll(defs: Defs, permissive: bool, ts: seq<Term>, env: Env, vs: seq<Value>) {
    exists c: nat :: YieldsAll(defs, permissive, ts, env, c, vs)
  }

  lemma YieldsMore(defs: Defs, permissive: bool, t: Term, env: Env, c: nat, v: Value, extra: nat)
    requires Yields(defs, permissive, t, env, c, v)
    ensures Yields(defs, permissive, t, env, c + extra, v)
    ensures Evaluate(defs, permissive, t, env, c + extra).1 >= extra
  {
    MoreFuel(defs, permissive, t, env, c, extra);
  }

  lemma YieldsAllMore(defs: Defs, permissive: bool, ts: seq<Term>, env: Env, c: nat, vs: seq<Value>, extra: nat)
    requires YieldsAll(defs, permissive, ts, env, c, vs)
    ensures YieldsAll(defs, permissive, ts, env, c + extra, vs)
    ensures EvaluateAll(defs, permissive, ts, env, c + extra).1 >= extra
  {
    MoreFuelAll(defs, permissive, ts, env, c, extra);
  }

  /** Whatever the fuel, the normal form is one. */
  lemma NormOne(defs: Defs, permissive: bool, t: Term, env: Env, v: Value, v': Value)
    requires Norm(defs, permissive, t, env, v) && Norm(defs, permissive, t, env, v')
    ensures v == v'
  {
    var c: nat :| Yields(defs, permissive, t, env, c, v);
    var c': nat :| Yields(defs, permissive, t, env, c', v');
    YieldsMore(defs, permissive, t, env, c, v, c');
    YieldsMore(defs, permissive, t, env, c', v', c);
  }

  // -------------------------------------------------- one rule for each form

  lemma NormAtom(defs: Defs, permissive: bool, t: Term, env: Env, v: Value)
    requires t.Var? || t.Nat?
    ensures Norm(defs, permissive, t, env, v) <==>
      if t.Var? then t.name in env && v == env[t.name] else v == VLin(Const(t.n))
  {
    var r := Evaluate(defs, permissive, t, env, 2);
    assert r.1 == 1 && (r.0.Ok? ==> Yields(defs, permissive, t, env, 2, r.0.value));
    if Norm(defs, permissive, t, env, v) {
      var c: nat :| Yields(defs, permissive, t, env, c, v);
      assert Evaluate(defs, permissive, t, env, c).0 == r.0;
    }
  }

  lemma NormPrim(defs: Defs, permissive: bool, op: PrimOp, l: Term, r: Term, env: Env, a: Value, b: Value)
    requires Norm(defs, permissive, l, env, a) && Norm(defs, permissive, r, env, b)
    ensures Norm(defs, permissive, Prim(op, l, r), env, VLin(PrimOnForms(op, AsLin(a), AsLin(b))))
  {
    var c := BothYield(defs, permissive, l, r, env, a, b, 0);
    assert Yields(defs, permissive, Prim(op, l, r), env, c + 1, VLin(PrimOnForms(op, AsLin(a), AsLin(b))));
  }

  lemma BothYield(defs: Defs, permissive: bool, l: Term, r: Term, env: Env, a: Value, b: Value, extra: nat)
      returns (c: nat)
    requires Norm(defs, permissive, l, env, a) && Norm(defs, permissive, r, env, b)
    ensures c > 0 && Yields(defs, permissive, l, env, c, a)
    ensures Yields(defs, permissive, r, env, Evaluate(defs, permissive, l, env, c).1, b)
    ensures Evaluate(defs, permissive, r, env, Evaluate(defs, permissive, l, env, c).1).1 >= extra
  {
    var cl: nat :| Yields(defs, permissive, l, env, cl, a);
    var cr: nat :| Yields(defs, permissive, r, env, cr, b);
    var more := cr + extra + 1;
    c := cl + more;
    YieldsMore(defs, permissive, l, env, cl, a, more);
    var left := Evaluate(defs, permissive, l, env, c).1;
    YieldsMore(defs, permissive, r, env, cr, b, left - cr);
  }

  lemma NormIf(defs: Defs, permissive: bool, t: Term, env: Env, a: Value, b: Value, taken: Term, v: Value)
    requires t.If? && Norm(defs, permissive, t.a, env, a) && Norm(defs, permissive, t.b, env, b)
    requires Decided(t.cmp, AsLin(a), AsLin(b)) != Stuck
    requires taken == if Decided(t.cmp, AsLin(a), AsLin(b)) == TakeThen then t.thn else t.els
    requires Norm(defs, permissive, taken, env, v)
    ensures Norm(defs, permissive, t, env, v)
  {
    var ct: nat :| Yields(defs, permissive, taken, env, ct, v);
    var c := BothYield(defs, permissive, t.a, t.b, env, a, b, ct);
    var left := Evaluate(defs, permissive, t.b, env, Evaluate(defs, permissive, t.a, env, c).1).1;
    YieldsMore(defs, permissive, taken, env, ct, v, left - ct);
    IfYields(defs, permissive, t, env, c, a, b, taken, left, v);
  }

  lemma IfYields(
      defs: Defs, permissive: bool, t: Term, env: Env, c: nat, a: Value, b: Value, taken: Term, left: nat, v: Value)
    requires t.If? && c > 0 && Yields(defs, permissive, t.a, env, c, a)
    requires Yields(defs, permissive, t.b, env, Evaluate(defs, permissive, t.a, env, c).1, b)
    requires left == Evaluate(defs, permissive, t.b, env, Evaluate(defs, permissive, t.a, env, c).1).1
    requires Decided(t.cmp, AsLin(a), AsLin(b)) != Stuck
    requires taken == if Decided(t.cmp, AsLin(a), AsLin(b)) == TakeThen then t.thn else t.els
    requires Yields(defs, permissive, taken, env, left, v)
    ensures Yields(defs, permissive, t, env, c + 1, v)
  {
    assert EvaluateChosen(defs, permissive, t.cmp, a, b, t.thn, t.els, env, left)
        == Evaluate(defs, permissive, taken, env, left);
  }

  lemma NormCons(defs: Defs, permissive: bool, ts: seq<Term>, env: Env, v: Value, vs: seq<Value>)
    requires ts != [] && Norm(defs, permissive, ts[0], env, v) && NormAll(defs, permissive, ts[1..], env, vs)
    ensures NormAll(defs, permissive, ts, env, [v] + vs)
  {
    var cv: nat :| Yields(defs, permissive, ts[0], env, cv, v);
    var cs: nat :| YieldsAll(defs, permissive, ts[1..], env, cs, vs);
    YieldsMore(defs, permissive, ts[0], env, cv, v, cs);
    var left := Evaluate(defs, permissive, ts[0], env, cv + cs).1;
    YieldsAllMore(defs, permissive, ts[1..], env, cs, vs, left - cs);
    assert YieldsAll(defs, permissive, ts, env, cv + cs, [v] + vs);
  }

  /** What a call on these values comes to, by what its body comes to. */
  lemma NormCall(defs: Defs, permissive: bool, fn: string, args: seq<Term>, env: Env, vs: seq<Value>, v: Value)
    requires fn in defs && |defs[fn].params| == |vs| && NormAll(defs, permissive, args, env, vs)
    requires Norm(defs, permissive, defs[fn].body, Bind(defs[fn].params, vs), v)
    ensures Norm(defs, permissive, Call(fn, args), env, if StuckRoot(v) then VNeu(NCall(fn, vs)) else v)
  {
    var d := defs[fn];
    var ca: nat :| YieldsAll(defs, permissive, args, env, ca, vs);
    var cb: nat :| Yields(defs, permissive, d.body, Bind(d.params, vs), cb, v);
    var c := ca + cb + 1;
    YieldsAllMore(defs, permissive, args, env, ca, vs, cb + 1);
    var left := EvaluateAll(defs, permissive, args, env, c).1;
    YieldsMore(defs, permissive, d.body, Bind(d.params, vs), cb, v, left - cb);
    assert Yields(defs, permissive, Call(fn, args), env, c + 1, if StuckRoot(v) then VNeu(NCall(fn, vs)) else v);
  }

  /** Names without a definition stay, where they may. */
  lemma NormNamed(defs: Defs, fn: string, args: seq<Term>, env: Env, vs: seq<Value>)
    requires fn !in defs && NormAll(defs, true, args, env, vs)
    ensures Norm(defs, true, Call(fn, args), env, VNeu(NCall(fn, vs)))
  {
    var c: nat :| YieldsAll(defs, true, args, env, c, vs);
    YieldsAllMore(defs, true, args, env, c, vs, 1);
    assert Yields(defs, true, Call(fn, args), env, c + 2, VNeu(NCall(fn, vs)));
  }

  lemma {:induction false} NormAllAt(
      defs: Defs, permissive: bool, ts: seq<Term>, env: Env, c: nat, vs: seq<Value>, i: nat)
    requires YieldsAll(defs, permissive, ts, env, c, vs) && i < |ts|
    ensures |vs| == |ts| && Norm(defs, permissive, ts[i], env, vs[i])
    decreases |ts|
  {
    var (v, f) := Evaluate(defs, permissive, ts[0], env, c);
    assert Yields(defs, permissive, ts[0], env, c, v.value) by { ConsFuel(defs, permissive, ts, env, c, vs); }
    if i > 0 {
      ConsFuel(defs, permissive, ts, env, c, vs);
      NormAllAt(defs, permissive, ts[1..], env, f, vs[1..], i - 1);
    }
  }

  /** The first of several, and the rest with the fuel it leaves. */
  lemma ConsFuel(defs: Defs, permissive: bool, ts: seq<Term>, env: Env, c: nat, vs: seq<Value>)
    requires YieldsAll(defs, permissive, ts, env, c, vs) && ts != []
    ensures vs != [] && Yields(defs, permissive, ts[0], env, c, vs[0])
    ensures YieldsAll(defs, permissive, ts[1..], env, Evaluate(defs, permissive, ts[0], env, c).1, vs[1..])
  {
    var (v, f) := Evaluate(defs, permissive, ts[0], env, c);
    var (rest, f') := EvaluateAll(defs, permissive, ts[1..], env, f);
    assert vs == [v.value] + rest.value;
  }

  // ------------------------------------------------------- substitution

  /** Each name stands in `env'` for the normal form of what is put in its place. */
  ghost predicate Fills(defs: Defs, permissive: bool, sub: map<string, Term>, env: Env, env': Env) {
    env'.Keys == sub.Keys && forall x | x in sub :: Norm(defs, permissive, sub[x], env, env'[x])
  }

  lemma {:induction false} SubstNorm(
      defs: Defs, permissive: bool, t: Term, sub: map<string, Term>, env: Env, env': Env, c: nat, v: Value)
    requires Fills(defs, permissive, sub, env, env') && FreeVars(t) <= sub.Keys && NoIf(t)
    requires Yields(defs, permissive, SubstVars(t, sub), env, c, v)
    ensures Norm(defs, permissive, t, env', v)
    decreases t
  {
    match t
    case Var(x) =>
      NormOne(defs, permissive, sub[x], env, v, env'[x]);
      NormAtom(defs, permissive, t, env', v);
    case Nat(_) =>
      NormAtom(defs, permissive, t, env', v);
    case Prim(op, l, r) =>
      var a, b := PrimParts(defs, permissive, op, SubstVars(l, sub), SubstVars(r, sub), env, c, v);
      var left := Evaluate(defs, permissive, SubstVars(l, sub), env, c - 1).1;
      SubstNorm(defs, permissive, l, sub, env, env', c - 1, a);
      SubstNorm(defs, permissive, r, sub, env, env', left, b);
      NormPrim(defs, permissive, op, l, r, env', a, b);
    case Call(fn, args) =>
      var vs := CallParts(defs, permissive, fn, SubstVarsAll(args, sub), env, c, v);
      SubstNormAll(defs, permissive, args, sub, env, env', c - 1, vs);
      CallAgain(defs, permissive, fn, SubstVarsAll(args, sub), args, env, env', c, vs, v);
  }

  lemma PrimParts(defs: Defs, permissive: bool, op: PrimOp, l: Term, r: Term, env: Env, c: nat, v: Value)
      returns (a: Value, b: Value)
    requires Yields(defs, permissive, Prim(op, l, r), env, c, v)
    ensures c > 0 && Yields(defs, permissive, l, env, c - 1, a)
    ensures Yields(defs, permissive, r, env, Evaluate(defs, permissive, l, env, c - 1).1, b)
    ensures v == VLin(PrimOnForms(op, AsLin(a), AsLin(b)))
  {
    assert c > 1;
    assert Evaluate(defs, permissive, Prim(op, l, r), env, c) == EvaluatePrim(defs, permissive, op, l, r, env, c - 1);
    a := Evaluate(defs, permissive, l, env, c - 1).0.value;
    b := Evaluate(defs, permissive, r, env, Evaluate(defs, permissive, l, env, c - 1).1).0.value;
  }

  lemma CallParts(defs: Defs, permissive: bool, fn: string, args: seq<Term>, env: Env, c: nat, v: Value)
      returns (vs: seq<Value>)
    requires Yields(defs, permissive, Call(fn, args), env, c, v)
    ensures c > 0 && YieldsAll(defs, permissive, args, env, c - 1, vs)
  {
    assert c > 1;
    assert Evaluate(defs, permissive, Call(fn, args), env, c) == EvaluateCall(defs, permissive, fn, args, env, c - 1);
    vs := EvaluateAll(defs, permissive, args, env, c - 1).0.value;
  }

  /** A call comes to the same on other arguments with the same values. */
  lemma CallAgain(
      defs: Defs, permissive: bool, fn: string, args: seq<Term>, args': seq<Term>, env: Env, env': Env, c: nat,
      vs: seq<Value>, v: Value)
    requires Yields(defs, permissive, Call(fn, args), env, c, v) && c > 0
    requires YieldsAll(defs, permissive, args, env, c - 1, vs) && NormAll(defs, permissive, args', env', vs)
    ensures Norm(defs, permissive, Call(fn, args'), env', v)
  {
    assert c > 1;
    assert Evaluate(defs, permissive, Call(fn, args), env, c) == EvaluateCall(defs, permissive, fn, args, env, c - 1);
    var left := EvaluateAll(defs, permissive, args, env, c - 1).1;
    if fn in defs {
      var d := defs[fn];
      var w := Evaluate(defs, permissive, d.body, Bind(d.params, vs), left).0.value;
      assert Yields(defs, permissive, d.body, Bind(d.params, vs), left, w);
      NormCall(defs, permissive, fn, args', env', vs, w);
    } else {
      NormNamed(defs, fn, args', env', vs);
    }
  }

  lemma {:induction false} SubstNormAll(
      defs: Defs, permissive: bool, ts: seq<Term>, sub: map<string, Term>, env: Env, env': Env, c: nat, vs: seq<Value>)
    requires Fills(defs, permissive, sub, env, env') && FreeVarsAll(ts) <= sub.Keys
    requires forall i | 0 <= i < |ts| :: NoIf(ts[i])
    requires YieldsAll(defs, permissive, SubstVarsAll(ts, sub), env, c, vs)
    ensures NormAll(defs, permissive, ts, env', vs)
    decreases ts
  {
    if ts == [] {
      assert YieldsAll(defs, permissive, ts, env', 0, vs);
    } else {
      var xs := SubstVarsAll(ts, sub);
      ConsFuel(defs, permissive, xs, env, c, vs);
      assert xs[1..] == SubstVarsAll(ts[1..], sub);
      SubstNorm(defs, permissive, ts[0], sub, env, env', c, vs[0]);
      SubstNormAll(defs, permissive, ts[1..], sub, env, env', Evaluate(defs, permissive, xs[0], env, c).1, vs[1..]);
      NormCons(defs, permissive, ts, env', vs[0], vs[1..]);
      assert [vs[0]] + vs[1..] == vs;
    }
  }

  lemma {:induction false} SubstNormTail(
      defs: Defs, permissive: bool, t: Term, sub: map<string, Term>, env: Env, env': Env, c: nat, v: Value)
    requires Fills(defs, permissive, sub, env, env') && FreeVars(t) <= sub.Keys && TailIf(t) && !StuckRoot(v)
    requires Yields(defs, permissive, SubstVars(t, sub), env, c, v)
    ensures Norm(defs, permissive, t, env', v)
    decreases t
  {
    if t.If? {
      var a, b, left := IfParts(defs, permissive, SubstVars(t, sub), env, c, v);
      var after := Evaluate(defs, permissive, SubstVars(t.a, sub), env, c - 1).1;
      SubstNorm(defs, permissive, t.a, sub, env, env', c - 1, a);
      SubstNorm(defs, permissive, t.b, sub, env, env', after, b);
      var taken := if Decided(t.cmp, AsLin(a), AsLin(b)) == TakeThen then t.thn else t.els;
      SubstNormTail(defs, permissive, taken, sub, env, env', left, v);
      NormIf(defs, permissive, t, env', a, b, taken, v);
    } else {
      SubstNorm(defs, permissive, t, sub, env, env', c, v);
    }
  }

  /** An if that came to something not stuck was decided. */
  lemma IfParts(defs: Defs, permissive: bool, t: Term, env: Env, c: nat, v: Value)
      returns (a: Value, b: Value, left: nat)
    requires t.If? && Yields(defs, permissive, t, env, c, v) && !StuckRoot(v)
    ensures c > 0 && Yields(defs, permissive, t.a, env, c - 1, a)
    ensures Yields(defs, permissive, t.b, env, Evaluate(defs, permissive, t.a, env, c - 1).1, b)
    ensures Decided(t.cmp, AsLin(a), AsLin(b)) != Stuck
    ensures Yields(
      defs, permissive, if Decided(t.cmp, AsLin(a), AsLin(b)) == TakeThen then t.thn else t.els, env, left, v)
  {
    assert c > 1;
    assert Evaluate(defs, permissive, t, env, c)
        == EvaluateIf(defs, permissive, t.cmp, t.a, t.b, t.thn, t.els, env, c - 1);
    var (ra, fa) := Evaluate(defs, permissive, t.a, env, c - 1);
    var (rb, fb) := Evaluate(defs, permissive, t.b, env, fa);
    a, b, left := ra.value, rb.value, fb;
    var chosen := EvaluateChosen(defs, permissive, t.cmp, a, b, t.thn, t.els, env, left);
    assert Evaluate(defs, permissive, t, env, c) == chosen;
    ChosenDecided(defs, permissive, t, a, b, env, left, v);
  }

  lemma ChosenDecided(
      defs: Defs, permissive: bool, t: Term, a: Value, b: Value, env: Env, left: nat, v: Value)
    requires t.If? && !StuckRoot(v)
    requires EvaluateChosen(defs, permissive, t.cmp, a, b, t.thn, t.els, env, left).0 == Result.Ok(v)
    requires EvaluateChosen(defs, permissive, t.cmp, a, b, t.thn, t.els, env, left).1 >= 0
    ensures Decided(t.cmp, AsLin(a), AsLin(b)) != Stuck
    ensures Yields(
      defs, permissive, if Decided(t.cmp, AsLin(a), AsLin(b)) == TakeThen then t.thn else t.els, env, left, v)
  {
  }

  lemma ArgsFill(
      defs: Defs, permissive: bool, params: seq<string>, args: seq<Term>, env: Env, vs: seq<Value>)
    requires |params| == |args| && NormAll(defs, permissive, args, env, vs)
    ensures |vs| == |args| && Fills(defs, permissive, Bind(params, args), env, Bind(params, vs))
  {
    var c: nat :| YieldsAll(defs, permissive, args, env, c, vs);
    forall x | x in Bind(params, args) ensures Norm(defs, permissive, Bind(params, args)[x], env, Bind(params, vs)[x]) {
      var i := BindIndex(params, args, vs, x);
      NormAllAt(defs, permissive, args, env, c, vs, i);
    }
  }

  /**
   * A call is definitionally its unfolding: when the body with the arguments in
   * place of the parameters normalises to something not stuck, the call
   * normalises to the same, whatever the arguments.
   */
  lemma CallUnfolds(
      defs: Defs, permissive: bool, fn: string, args: seq<Term>, env: Env, vs: seq<Value>, v: Value)
    requires fn in defs && |args| == |defs[fn].params| && NormAll(defs, permissive, args, env, vs)
    requires TailIf(defs[fn].body) && FreeVars(defs[fn].body) <= (set p | p in defs[fn].params)
    requires Norm(defs, permissive, SubstVars(defs[fn].body, Bind(defs[fn].params, args)), env, v) && !StuckRoot(v)
    ensures Norm(defs, permissive, Call(fn, args), env, v)
  {
    var d := defs[fn];
    var sub := Bind(d.params, args);
    ArgsFill(defs, permissive, d.params, args, env, vs);
    var c: nat :| Yields(defs, permissive, SubstVars(d.body, sub), env, c, v);
    SubstNormTail(defs, permissive, d.body, sub, env, Bind(d.params, vs), c, v);
    NormCall(defs, permissive, fn, args, env, vs, v);
  }

  // ------------------------------------------------- what is refused

  /** Every call of an if-free term has a definition of its arity, or none where names may stay. */
  predicate CallsKnown(defs: Defs, permissive: bool, t: Term) {
    match t
    case Var(_) => true
    case Nat(_) => true
    case Prim(_, l, r) => CallsKnown(defs, permissive, l) && CallsKnown(defs, permissive, r)
    case Call(fn, args) =>
      && (if fn in defs then |args| == |defs[fn].params| else permissive)
      && forall i | 0 <= i < |args| :: CallsKnown(defs, permissive, args[i])
    case If(_, _, _, _, _) => true
  }

  /** An unknown name outside permissive mode, or a wrong arity, anywhere in an if-free term, leaves no normal form. */
  lemma {:induction false} UnknownRefused(defs: Defs, permissive: bool, t: Term, env: Env, c: nat, v: Value)
    requires NoIf(t) && Yields(defs, permissive, t, env, c, v)
    ensures CallsKnown(defs, permissive, t) && FreeVars(t) <= env.Keys
    decreases t
  {
    match t
    case Var(_) =>
    case Nat(_) =>
    case Prim(op, l, r) =>
      var a, b := PrimParts(defs, permissive, op, l, r, env, c, v);
      UnknownRefused(defs, permissive, l, env, c - 1, a);
      UnknownRefused(defs, permissive, r, env, Evaluate(defs, permissive, l, env, c - 1).1, b);
    case Call(fn, args) =>
      var vs := CallParts(defs, permissive, fn, args, env, c, v);
      AllUnknownRefused(defs, permissive, args, env, c - 1, vs);
      assert Evaluate(defs, permissive, t, env, c) == EvaluateCall(defs, permissive, fn, args, env, c - 1);
  }

  lemma {:induction false} AllUnknownRefused(
      defs: Defs, permissive: bool, ts: seq<Term>, env: Env, c: nat, vs: seq<Value>)
    requires (forall i | 0 <= i < |ts| :: NoIf(ts[i])) && YieldsAll(defs, permissive, ts, env, c, vs)
    ensures forall i | 0 <= i < |ts| :: CallsKnown(defs, permissive, ts[i])
    ensures FreeVarsAll(ts) <= env.Keys
    decreases ts
  {
    if ts != [] {
      ConsFuel(defs, permissive, ts, env, c, vs);
      UnknownRefused(defs, permissive, ts[0], env, c, vs[0]);
      AllUnknownRefused(defs, permissive, ts[1..], env, Evaluate(defs, permissive, ts[0], env, c).1, vs[1..]);
      assert forall i | 0 < i < |ts| :: ts[i] == ts[1..][i - 1];
    }
  }
}
