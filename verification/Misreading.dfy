/**
 * What elaboration makes of a loop its author wrote below the top of a body:
 * `continue` restarts the loop in Go, the whole function in the term.
 */
module Misreading {
  import opened Options
  import opened Terms
  import opened Elaborator
  import opened Loops

  const A: Expr := Ident("a")
  const B: Expr := Ident("b")

  /** { a, b = a+1, b-1; continue L } */
  const Again: Stmt :=
      Block([Assign(false, [A, B], [Binary(ADD, A, IntLit(1)), Binary(SUB, B, IntLit(1))]), Branch(true, "L")])
  /** if b == 0 { return a } */
  const Stop: Stmt := IfStmt(false, Binary(EQL, B, IntLit(0)), [Return([A])], None)
  /** if a == 3 { return 7 } */
  const Guard: Stmt := IfStmt(false, Binary(EQL, A, IntLit(3)), [Return([IntLit(7)])], None)
  const Loop: Stmt := Labeled("L", For(true, [Stop, Again]))
  const Body: seq<Stmt> := [Guard, Loop]

  const Recur: Term := Call("f", [Prim(Plus, Var("a"), Nat(1)), Prim(Minus, Var("b"), Nat(1))])
  const Inner: Term := If(CmpEq, Var("b"), Nat(0), Var("a"), Recur)
  const Elaborated: Term := If(CmpEq, Var("a"), Nat(3), Nat(7), Inner)

  function At(a: int, b: int): Store {
    map["a" := a, "b" := b]
  }

  lemma ElabPair(c: Ctx, x: Expr, y: Expr)
    requires ElabExpr(c, x).Ok? && ElabExpr(c, y).Ok?
    ensures ElabExprs(c, [x, y]) == Ok([ElabExpr(c, x).value, ElabExpr(c, y).value])
  {
    var xs := [x, y];
    assert xs[1..][1..] == [] && ElabExprs(c, xs[1..]).Ok?;
    assert ElabExprs(c, xs).value == [ElabExpr(c, x).value, ElabExpr(c, y).value];
  }

  lemma ElabReturn(c: Ctx, x: Expr)
    ensures ElabBlock(c, [Return([x])]) == ElabExpr(c, x)
  {
  }

  /** An early return followed by more statements. */
  lemma ElabEarlyReturn(c: Ctx, l: Expr, n: nat, x: Expr, rest: seq<Stmt>)
    requires rest != [] && ElabBlock(c, rest).Ok? && ElabExpr(c, l).Ok? && ElabExpr(c, x).Ok?
    ensures ElabBlock(c, [IfStmt(false, Binary(EQL, l, IntLit(n)), [Return([x])], None)] + rest)
         == Ok(If(CmpEq, ElabExpr(c, l).value, Nat(n), ElabExpr(c, x).value, ElabBlock(c, rest).value))
  {
    var s := IfStmt(false, Binary(EQL, l, IntLit(n)), [Return([x])], None);
    ElabBlockIf(c, s, rest);
    ElabReturn(c, x);
    ElabEqual(c, l, n);
    assert ElabElse(c, None, rest) == ElabBlock(c, rest);
    ElabIfFrom(c, s, rest);
  }

  lemma ElabBlockIf(c: Ctx, s: Stmt, rest: seq<Stmt>)
    requires s.IfStmt?
    ensures ElabBlock(c, [s] + rest) == ElabIf(c, s, rest)
  {
    assert ([s] + rest)[1..] == rest;
  }

  lemma ElabEqual(c: Ctx, l: Expr, n: nat)
    requires ElabExpr(c, l).Ok?
    ensures ElabCond(c, Binary(EQL, l, IntLit(n))) == Ok(Condition(CmpEq, ElabExpr(c, l).value, Nat(n)))
  {
  }

  lemma ElabIfFrom(c: Ctx, s: Stmt, rest: seq<Stmt>)
    requires s.IfStmt? && !s.hasInit
    requires ElabCond(c, s.cond).Ok? && ElabBlock(c, s.body).Ok? && ElabElse(c, s.els, rest).Ok?
    ensures ElabIf(c, s, rest)
         == Ok(If(ElabCond(c, s.cond).value.cmp, ElabCond(c, s.cond).value.l, ElabCond(c, s.cond).value.r,
                  ElabBlock(c, s.body).value, ElabElse(c, s.els, rest).value))
  {
  }

  lemma ElabAgain(c: Ctx)
    requires c.self == "f" && c.params == ["a", "b"]
    ensures ElabBlock(c, [Again]) == Ok(Recur)
  {
    assert RecurAssignment(c, Again.list[0]);
    ElabPair(c, Again.list[0].rhs[0], Again.list[0].rhs[1]);
    assert ElabRecur(c, Again.list[0].rhs) == Ok(Recur);
  }

  lemma BodyElaborates(c: Ctx)
    requires c.self == "f" && c.params == ["a", "b"]
    ensures ElabBlock(c, Body) == Ok(Elaborated)
  {
    ElabAgain(c);
    ElabEarlyReturn(c, B, 0, A, [Again]);
    assert [Stop] + [Again] == [Stop, Again];
    assert ElabBlock(c, [Loop]) == ElabBlock(c, [Stop, Again]);
    ElabEarlyReturn(c, A, 3, IntLit(7), [Loop]);
    assert [Guard] + [Loop] == Body;
  }

  // ---------------------------------------------------------- what Go runs

  lemma ExecEarlyReturn(g: GoWorld, l: Expr, n: nat, x: Expr, rest: seq<Stmt>, s: Store, k: nat)
    requires GoEval(g, l, s, k).Some? && GoEval(g, x, s, k).Some?
    ensures Exec(g, [IfStmt(false, Binary(EQL, l, IntLit(n)), [Return([x])], None)] + rest, s, k)
         == if GoEval(g, l, s, k).value == n then Answered(GoEval(g, x, s, k).value) else Exec(g, rest, s, k)
  {
    var st := IfStmt(false, Binary(EQL, l, IntLit(n)), [Return([x])], None);
    assert ([st] + rest)[1..] == rest;
    assert GoEval(g, IntLit(n), s, k) == Some(n);
    assert GoCond(g, st.cond, s, k) == Some(GoEval(g, l, s, k).value == n);
    assert Exec(g, [Return([x])], s, k) == Answered(GoEval(g, x, s, k).value);
  }

  lemma GoPair(g: GoWorld, x: Expr, y: Expr, s: Store, k: nat)
    requires GoEval(g, x, s, k).Some? && GoEval(g, y, s, k).Some?
    ensures GoEvals(g, [x, y], s, k) == Some([GoEval(g, x, s, k).value, GoEval(g, y, s, k).value])
  {
    var xs := [x, y];
    assert xs[1..][1..] == [] && GoEvals(g, xs[1..], s, k).Some?;
    assert GoEvals(g, xs, s, k).value == [GoEval(g, x, s, k).value, GoEval(g, y, s, k).value];
  }

  lemma ExecAgain(g: GoWorld, a: int, b: int, k: nat)
    ensures Exec(g, [Again], At(a, b), k) == Continued(At(a + 1, b - 1), "L")
  {
    var s, asg := At(a, b), Again.list[0];
    assert GoEval(g, A, s, k) == Some(a) && GoEval(g, B, s, k) == Some(b) && GoEval(g, IntLit(1), s, k) == Some(1);
    assert GoEval(g, asg.rhs[0], s, k) == Some(a + 1);
    assert GoEval(g, asg.rhs[1], s, k) == Some(b - 1);
    GoPair(g, asg.rhs[0], asg.rhs[1], s, k);
    SingleBlock(g, Again, s, k);
    AssignThenContinue(g, asg, "L", s, k);
    assert NamesOf(asg.lhs) == ["a", "b"];
    BindAB([a + 1, b - 1]);
    assert s + At(a + 1, b - 1) == At(a + 1, b - 1);
  }

  lemma BindAB(vs: seq<int>)
    requires |vs| == 2
    ensures Bind(["a", "b"], vs) == At(vs[0], vs[1])
  {
    assert ["a", "b"][..1] == ["a"] && ["a"][..0] == [];
    assert Bind(["a"], vs[..1]) == map["a" := vs[0]];
  }

  lemma GoAnswers(g: GoWorld)
    ensures Exec(g, Body, At(2, 1), 2) == Answered(3)
  {
    assert [Stop] + [Again] == [Stop, Again] && [Guard] + [Loop] == Body;
    ExecEarlyReturn(g, A, 3, IntLit(7), [Loop], At(2, 1), 2);
    ExecEarlyReturn(g, B, 0, A, [Again], At(2, 1), 1);
    ExecAgain(g, 2, 1, 1);
    ExecEarlyReturn(g, B, 0, A, [Again], At(3, 0), 0);
    assert Exec(g, [Loop], At(3, 0), 1) == Answered(3);
    assert Exec(g, [Loop], At(2, 1), 2) == Exec(g, [Loop], At(3, 0), 1);
  }

  // ------------------------------------------------ what the term evaluates to

  lemma TermAnswers(w: World)
    requires "f" in w.defs && w.defs["f"] == Def("f", ["a", "b"], Elaborated)
    ensures Ref(w, Elaborated, At(2, 1), 5) == Some(7)
  {
    assert Ref(w, Elaborated, At(3, 0), 2) == Some(7);
    var args := Recur.args;
    var s := At(2, 1);
    assert Ref(w, args[0], s, 2) == Some(3) && Ref(w, args[1], s, 2) == Some(0);
    RefAllFrom(w, args, s, 2);
    RefAllAt(w, args, s, 2, 0);
    RefAllAt(w, args, s, 2, 1);
    assert RefAll(w, args, s, 2).value == [3, 0];
    BindAB([3, 0]);
    assert Apply(w, "f", [3, 0], 2) == Some(7);
    assert Ref(w, Recur, s, 3) == Some(7);
    assert Ref(w, Inner, s, 4) == Some(7);
  }

  /** f(2, 1) is 3 in Go and 7 to the decider, for a body the elaborator accepts and lowering leaves alone. */
  lemma NestedLoopMisread(g: GoWorld, w: World, c: Ctx)
    requires c.self == "f" && c.params == ["a", "b"]
    requires g.funcs == map["f" := GoFunc(["a", "b"], Body)] && w.defs == map["f" := Def("f", ["a", "b"], Elaborated)]
    ensures ElabBlock(c, Body) == Ok(Elaborated) && Lowered(c.params, "L", Body) == Body
        && !Authored(Tags(Body), Core(Body))
    ensures exists k :: GoCall(g, "f", [2, 1], k) == Some(3)
    ensures exists k :: Apply(w, "f", [2, 1], k) == Some(7)
  {
    BodyElaborates(c);
    NothingToLower();
    assert !AuthoredStmt(Tags(Body), Body[1]);
    BindAB([2, 1]);
    GoAnswers(g);
    TermAnswers(w);
    assert GoCall(g, "f", [2, 1], 2) == Some(3);
    assert Apply(w, "f", [2, 1], 5) == Some(7);
  }

  lemma NothingToLower()
    ensures !HasRecur(Body)
  {
    assert Body[1..] == [Loop] && Body[1..][1..] == [];
    assert [Stop, Again][1..] == [Again] && [Again][1..] == [];
    assert !HasRecur([Return([A])]) && !HasRecur([Return([IntLit(7)])]);
    assert Again.list[1..] == [Again.list[1]] && Again.list[1..][1..] == [];
    assert !HasRecur(Again.list[1..]);
    assert !HasRecur(Again.list);
    assert !HasRecur([Again]);
    assert !HasRecur([Stop, Again]);
    assert !HasRecurIn(Loop.stmt);
    assert !HasRecur([Loop]);
  }

  // -------------------------------------------------- a qualified name

  /** func f(N nat) nat { return cfg.N } */
  const Config: Expr := Selector(Ident("cfg"), "N")
  const Qualified: seq<Stmt> := [Return([Config])]

  /** The elaborator reads cfg.N as N: on each argument Go's answer is the term's only when cfg.N happens to be it. */
  lemma SelectorMisread(g: GoWorld, w: World, c: Ctx, n: int)
    requires c.self == "f" && c.params == ["N"]
    requires g.funcs == map["f" := GoFunc(["N"], Qualified)] && w.defs == map["f" := Def("f", ["N"], Var("N"))]
    ensures ElabBlock(c, Qualified) == Ok(Var("N")) && Lowered(["N"], "L", Qualified) == Qualified
    ensures forall k :: GoCall(g, "f", [n], k) == Some(g.qualified(Ident("cfg"), "N"))
    ensures forall k | Apply(w, "f", [n], k).Some? :: Apply(w, "f", [n], k) == Some(n)
    ensures Apply(w, "f", [n], 1) == Some(n)
  {
    assert ["N"][..0] == [] && [n][..0] == [];
    assert Bind(["N"], [n]) == map["N" := n];
    assert Qualified[1..] == [] && !HasRecurIn(Qualified[0]) && !HasRecur(Qualified[1..]);
    assert GoEval(g, Config, map["N" := n], 0) == Some(g.qualified(Ident("cfg"), "N"));
    forall k ensures GoCall(g, "f", [n], k) == Some(g.qualified(Ident("cfg"), "N")) {
      assert Exec(g, Qualified, Bind(["N"], [n]), k) == Answered(g.qualified(Ident("cfg"), "N"));
    }
  }
}
