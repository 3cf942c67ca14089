/**
 * What the termination check (internal/core/total.go) accepts, told by meaning:
 * which arguments shrink, and which bodies pass.
 */
module Shrinking {
  import opened Options
  import opened Linear
  import opened Decider
  import opened Terms
  import opened Totality

  // -------------------------------------------------- arguments that shrink

  /** Sums and differences of variables and literals. */
  predicate Linearised(t: Term) {
    match t
    case Var(_) => true
    case Nat(_) => true
    case Prim(op, l, r) => !op.Times? && Linearised(l) && Linearised(r)
    case _ => false
  }

  /** The value of such a term. */
  function Worth(t: Term, v: string -> int): int {
    match t
    case Var(x) => v(x)
    case Nat(n) => n
    case Prim(op, l, r) => Arith(op, Worth(l, v), Worth(r, v))
    case _ => 0
  }

  lemma {:induction false} LinearisedWorth(t: Term, v: string -> int)
    ensures Linearised(t) <==> SymbolicLin(t).Some?
    ensures Linearised(t) ==> Val(SymbolicLin(t).value, v) == Worth(t, v)
  {
    match t
    case Var(x) => ValAtom(x, v);
    case Nat(n) => ValConst(n, v);
    case Prim(op, l, r) =>
      LinearisedWorth(l, v);
      LinearisedWorth(r, v);
      if Linearised(t) {
        SymbolicPrim(op, l, r, v);
      }
    case _ =>
  }

  /** Whatever the variables stand for, the argument is `d` less than parameter `p`. */
  ghost predicate FallsShort(arg: Term, p: string, d: int) {
    forall v: string -> int :: Worth(arg, v) == v(p) - d
  }

  /** An argument is accepted exactly when it always is one and the same positive amount below its parameter. */
  lemma DecreasesExact(def: Def, arg: Term, i: nat)
    requires i < |def.params|
    ensures Decreases(def, arg, i) <==> Linearised(arg) && exists d :: d >= 1 && FallsShort(arg, def.params[i], d)
  {
    var p := def.params[i];
    LinearisedWorth(arg, x => 0);
    if Decreases(def, arg, i) {
      var l := SymbolicLin(arg).value;
      OnlyOne(l, p);
      forall v: string -> int ensures Worth(arg, v) == v(p) - (-l.c) {
        LinearisedWorth(arg, v);
        OneVal(l, p, v);
      }
      assert FallsShort(arg, p, -l.c);
    }
    if Linearised(arg) && exists d :: d >= 1 && FallsShort(arg, p, d) {
      var d :| d >= 1 && FallsShort(arg, p, d);
      ShortForm(arg, p, d);
    }
  }

  lemma OnlyOne<K>(l: Lin<K>, p: K)
    requires |l.coef| == 1 && At(l, p) == 1
    ensures l.coef == map[p := 1]
  {
    assert p in l.coef.Keys && |l.coef.Keys - {p}| == 0;
    assert l.coef.Keys == {p};
  }

  lemma OneVal(l: Lin<string>, p: string, v: string -> int)
    requires l.coef == map[p := 1]
    ensures Val(l, v) == l.c + v(p)
  {
    ValConst(l.c, v);
    ValAtom(p, v);
    ValAdd(Const(l.c), Atom(p), 1, v);
    assert l == Add(Const(l.c), Atom(p), 1);
  }

  lemma ShortForm(arg: Term, p: string, d: int)
    requires Linearised(arg) && FallsShort(arg, p, d)
    ensures SymbolicLin(arg).Some? && SymbolicLin(arg).value == Form(-d, map[p := 1])
  {
    LinearisedWorth(arg, x => 0);
    var l := SymbolicLin(arg).value;
    forall x ensures l.c == -d && At(l, x) == if x == p then 1 else 0 {
      ShortAt(arg, l, p, d, x);
    }
    OneCoefficient(l, p);
  }

  lemma ShortAt(arg: Term, l: Lin<string>, p: string, d: int, x: string)
    requires SymbolicLin(arg) == Some(l) && FallsShort(arg, p, d)
    ensures l.c == -d && At(l, x) == if x == p then 1 else 0
  {
    SpikeVal(l, x, 0);
    SpikeVal(l, x, 1);
    LinearisedWorth(arg, Spike(x, 0));
    LinearisedWorth(arg, Spike(x, 1));
    assert Worth(arg, Spike(x, 0)) == Spike(x, 0)(p) - d && Worth(arg, Spike(x, 1)) == Spike(x, 1)(p) - d;
  }

  lemma OneCoefficient(l: Lin<string>, p: string)
    requires forall x :: At(l, x) == if x == p then 1 else 0
    ensures l.coef == map[p := 1]
  {
    forall x | x in l.coef ensures x == p {
      assert At(l, x) != 0;
    }
    assert At(l, p) == 1;
  }

  /** Term `u` is `t` or a part of it. */
  predicate Part(t: Term, u: Term) {
    t == u ||
    match t
    case Var(_) => false
    case Nat(_) => false
    case Prim(_, l, r) => Part(l, u) || Part(r, u)
    case Call(_, args) => exists i | 0 <= i < |args| :: Part(args[i], u)
    case If(_, l, r, thn, els) => Part(l, u) || Part(r, u) || Part(thn, u) || Part(els, u)
  }

  /** What is asked of a call: a self-call shrinks an argument, any other is to a callable function. */
  ghost predicate CallOk(def: Def, callable: string -> bool, u: Term) {
    u.Call? ==>
      if u.fn == def.name then |u.args| == |def.params| && exists i: nat :: i < |u.args| && Decreases(def, u.args[i], i)
      else callable(u.fn)
  }

  ghost predicate CallsOk(def: Def, callable: string -> bool, t: Term) {
    forall u | Part(t, u) :: CallOk(def, callable, u)
  }

  lemma {:induction false} WalkExact(def: Def, callable: string -> bool, t: Term)
    ensures Walk(def, callable, t) == Accepted <==> CallsOk(def, callable, t)
  {
    match t
    case Var(_) =>
    case Nat(_) =>
    case Prim(_, l, r) =>
      WalkExact(def, callable, l);
      WalkExact(def, callable, r);
      PrimParts(def, callable, t);
    case Call(fn, args) =>
      WalkAllExact(def, callable, args);
      CallParts(def, callable, t);
      SelfCall(def, callable, t);
    case If(_, l, r, thn, els) =>
      WalkExact(def, callable, l);
      WalkExact(def, callable, r);
      WalkExact(def, callable, thn);
      WalkExact(def, callable, els);
      IfParts(def, callable, t);
  }

  lemma PrimParts(def: Def, callable: string -> bool, t: Term)
    requires t.Prim?
    ensures CallsOk(def, callable, t) <==> CallsOk(def, callable, t.l) && CallsOk(def, callable, t.r)
  {
    assert forall u :: Part(t, u) <==> u == t || Part(t.l, u) || Part(t.r, u);
  }

  lemma IfParts(def: Def, callable: string -> bool, t: Term)
    requires t.If?
    ensures CallsOk(def, callable, t) <==>
      CallsOk(def, callable, t.a) && CallsOk(def, callable, t.b) &&
      CallsOk(def, callable, t.thn) && CallsOk(def, callable, t.els)
  {
    assert forall u :: Part(t, u) <==> u == t || Part(t.a, u) || Part(t.b, u) || Part(t.thn, u) || Part(t.els, u);
  }

  lemma CallParts(def: Def, callable: string -> bool, t: Term)
    requires t.Call?
    ensures CallsOk(def, callable, t) <==>
      CallOk(def, callable, t) && forall i | 0 <= i < |t.args| :: CallsOk(def, callable, t.args[i])
  {
    if CallsOk(def, callable, t) {
      assert Part(t, t);
      forall i, u | 0 <= i < |t.args| && Part(t.args[i], u) ensures CallOk(def, callable, u) {
        assert Part(t, u);
      }
    }
  }

  lemma SelfCall(def: Def, callable: string -> bool, t: Term)
    requires t.Call?
    ensures Walk(def, callable, t) == Accepted <==>
      WalkAll(def, callable, t.args) == Accepted && CallOk(def, callable, t)
  {
  }

  lemma {:induction false} WalkAllExact(def: Def, callable: string -> bool, ts: seq<Term>)
    ensures WalkAll(def, callable, ts) == Accepted <==> forall i | 0 <= i < |ts| :: CallsOk(def, callable, ts[i])
  {
    if ts != [] {
      WalkExact(def, callable, ts[0]);
      WalkAllExact(def, callable, ts[1..]);
      assert forall i | 0 < i < |ts| :: ts[i] == ts[1..][i - 1];
      if forall i | 0 <= i < |ts| :: CallsOk(def, callable, ts[i]) {
        assert forall i | 0 <= i < |ts[1..]| :: CallsOk(def, callable, ts[1..][i]);
      }
    }
  }

  /** A definition is accepted exactly when each call in its body, wherever it stands, is as asked. */
  lemma CheckTotalExact(def: Def, callable: string -> bool)
    ensures CheckTotal(def, callable) == Accepted <==> CallsOk(def, callable, def.body)
  {
    WalkExact(def, callable, def.body);
  }
}
