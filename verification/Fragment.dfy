/**
 * Which Go expressions and bodies the elaborator (internal/core/elabgo.go)
 * takes, and that every term with its ifs on the spine is one of them.
 */
module Fragment {
  import opened Options
  import opened Terms
  import opened Elaborator

  // ------------------------------------------------------- expressions

  /** `y` is `x`, or an operand, an argument or the inside of parentheses somewhere in it. */
  predicate Part(x: Expr, y: Expr) {
    x == y ||
    match x
    case Paren(z) => Part(z, y)
    case Binary(_, l, r) => Part(l, y) || Part(r, y)
    case CallExpr(_, args, _) => exists i | 0 <= i < |args| :: Part(args[i], y)
    case _ => false
  }

  /** Names, literals, sums, differences, products, and calls of total functions. */
  predicate Allowed(c: Ctx, y: Expr) {
    match y
    case Ident(_) => true
    case IntLit(_) => true
    case Paren(_) => true
    case Selector(_, _) => true
    case Binary(op, _, _) => op in {ADD, SUB, MUL}
    case CallExpr(fun, _, _) => c.resolve(fun).Some?
    case _ => false
  }

  ghost predicate InFragment(c: Ctx, x: Expr) {
    forall y | Part(x, y) :: Allowed(c, y)
  }

  lemma BinaryParts(c: Ctx, x: Expr)
    requires x.Binary?
    ensures InFragment(c, x) <==> Allowed(c, x) && InFragment(c, x.l) && InFragment(c, x.r)
  {
    assert forall y :: Part(x, y) <==> x == y || Part(x.l, y) || Part(x.r, y);
  }

  lemma CallParts(c: Ctx, x: Expr)
    requires x.CallExpr?
    ensures InFragment(c, x) <==> Allowed(c, x) && forall i | 0 <= i < |x.args| :: InFragment(c, x.args[i])
  {
    if InFragment(c, x) {
      assert Part(x, x);
      forall i, y | 0 <= i < |x.args| && Part(x.args[i], y) ensures Allowed(c, y) {
        assert Part(x, y);
      }
    }
  }

  /** An expression is elaborated exactly when every part of it is allowed. */
  lemma {:induction false} ExprAccepted(c: Ctx, x: Expr)
    ensures ElabExpr(c, x).Ok? <==> InFragment(c, x)
    decreases x
  {
    assert Part(x, x);
    match x
    case Paren(y) =>
      ExprAccepted(c, y);
      assert forall z :: Part(x, z) <==> x == z || Part(y, z);
    case Binary(_, l, r) =>
      ExprAccepted(c, l);
      ExprAccepted(c, r);
      BinaryParts(c, x);
    case CallExpr(_, args, _) =>
      ExprsAccepted(c, args);
      CallParts(c, x);
    case _ =>
  }

  lemma {:induction false} ExprsAccepted(c: Ctx, xs: seq<Expr>)
    ensures ElabExprs(c, xs).Ok? <==> forall i | 0 <= i < |xs| :: InFragment(c, xs[i])
    decreases xs
  {
    if xs != [] {
      ExprAccepted(c, xs[0]);
      ExprsAccepted(c, xs[1..]);
      assert forall i | 0 < i < |xs| :: xs[i] == xs[1..][i - 1];
      if forall i | 0 <= i < |xs| :: InFragment(c, xs[i]) {
        assert forall i | 0 <= i < |xs[1..]| :: InFragment(c, xs[1..][i]);
      }
    }
  }

  // --------------------------------------------------------- every term

  /** Every function the term calls has a name that resolves to it. */
  ghost predicate Named(c: Ctx, t: Term) {
    match t
    case Var(_) => true
    case Nat(_) => true
    case Prim(_, l, r) => Named(c, l) && Named(c, r)
    case Call(fn, args) => (exists e :: c.resolve(e) == Some(fn)) && forall i | 0 <= i < |args| :: Named(c, args[i])
    case If(_, l, r, thn, els) => Named(c, l) && Named(c, r) && Named(c, thn) && Named(c, els)
  }

  function OpOf(op: PrimOp): Op {
    match op
    case Plus => ADD
    case Minus => SUB
    case Times => MUL
  }

  function TestOf(op: Cmp): Op {
    match op
    case CmpEq => EQL
    case CmpNe => NEQ
    case CmpLt => LSS
    case CmpLe => LEQ
    case CmpGt => GTR
    case CmpGe => GEQ
  }

  ghost function ExprOf(c: Ctx, t: Term): Expr
    requires NoIf(t) && Named(c, t)
    decreases t
  {
    match t
    case Var(x) => Ident(x)
    case Nat(n) => IntLit(n)
    case Prim(op, l, r) => Binary(OpOf(op), ExprOf(c, l), ExprOf(c, r))
    case Call(fn, args) => var e :| c.resolve(e) == Some(fn); CallExpr(e, ExprsOf(c, args), false)
    case If(_, _, _, _, _) => OtherExpr
  }

  ghost function ExprsOf(c: Ctx, ts: seq<Term>): seq<Expr>
    requires forall i | 0 <= i < |ts| :: NoIf(ts[i]) && Named(c, ts[i])
    decreases ts
  {
    if ts == [] then [] else [ExprOf(c, ts[0])] + ExprsOf(c, ts[1..])
  }

  /** A term as Go writes it: each if guards a return, what follows is the other branch. */
  ghost function BodyOf(c: Ctx, t: Term): seq<Stmt>
    requires TailIf(t) && Named(c, t)
    decreases t
  {
    if t.If? then
      [IfStmt(false, Binary(TestOf(t.cmp), ExprOf(c, t.a), ExprOf(c, t.b)), BodyOf(c, t.thn), None)] + BodyOf(c, t.els)
    else [Return([ExprOf(c, t)])]
  }

  lemma {:induction false} ExprReadsBack(c: Ctx, t: Term)
    requires NoIf(t) && Named(c, t)
    ensures ElabExpr(c, ExprOf(c, t)) == Ok(t)
    decreases t
  {
    match t
    case Var(_) =>
    case Nat(_) =>
    case Prim(_, l, r) =>
      ExprReadsBack(c, l);
      ExprReadsBack(c, r);
    case Call(_, args) => ExprsReadBack(c, args);
  }

  lemma {:induction false} ExprsReadBack(c: Ctx, ts: seq<Term>)
    requires forall i | 0 <= i < |ts| :: NoIf(ts[i]) && Named(c, ts[i])
    ensures ElabExprs(c, ExprsOf(c, ts)) == Ok(ts)
    decreases ts
  {
    if ts != [] {
      ExprReadsBack(c, ts[0]);
      ExprsReadBack(c, ts[1..]);
      var xs := ExprsOf(c, ts);
      assert xs[1..] == ExprsOf(c, ts[1..]);
      assert [ts[0]] + ts[1..] == ts;
    }
  }

  /** An if without else: what follows is the other branch. */
  lemma IfFollows(c: Ctx, cond: Expr, body: seq<Stmt>, rest: seq<Stmt>)
    requires rest != []
    ensures var s := IfStmt(false, cond, body, None);
            && ElabBlock(c, [s] + rest) == ElabIf(c, s, rest)
            && ElabElse(c, None, rest) == ElabBlock(c, rest)
  {
    var s := IfStmt(false, cond, body, None);
    assert ([s] + rest)[1..] == rest;
  }

  /** Elaboration has every term with its ifs on the spine among its results. */
  lemma {:induction false} BodyReadsBack(c: Ctx, t: Term)
    requires TailIf(t) && Named(c, t)
    ensures BodyOf(c, t) != [] && ElabBlock(c, BodyOf(c, t)) == Ok(t)
    decreases t
  {
    if t.If? {
      ExprReadsBack(c, t.a);
      ExprReadsBack(c, t.b);
      BodyReadsBack(c, t.thn);
      BodyReadsBack(c, t.els);
      var body := BodyOf(c, t);
      IfFollows(c, body[0].cond, body[0].body, BodyOf(c, t.els));
      assert ElabCond(c, body[0].cond) == Ok(Condition(t.cmp, t.a, t.b));
    } else {
      ExprReadsBack(c, t);
    }
  }

  /** Where every call can be written, the elaborator's results are just those terms. */
  lemma BodiesExact(c: Ctx, t: Term)
    requires Named(c, t)
    ensures TailIf(t) <==> exists ss :: ElabBlock(c, ss) == Ok(t)
  {
    if TailIf(t) {
      BodyReadsBack(c, t);
    }
    forall ss | ElabBlock(c, ss) == Ok(t) ensures TailIf(t) {
      BlockShape(c, ss);
    }
  }

  // -------------------------------------------------- forms of one body

  /** An else block stands for the statements that would follow. */
  lemma ElseFollows(c: Ctx, cond: Expr, body: seq<Stmt>, rest: seq<Stmt>)
    requires rest != []
    ensures ElabBlock(c, [IfStmt(false, cond, body, Some(Block(rest)))])
         == ElabBlock(c, [IfStmt(false, cond, body, None)] + rest)
  {
    var s := IfStmt(false, cond, body, Some(Block(rest)));
    IfFollows(c, cond, body, rest);
    assert ElabElse(c, s.els, []) == ElabBlock(c, rest);
    assert [s][1..] == [];
    assert ElabBlock(c, [s]) == ElabIf(c, s, []);
  }

  lemma ElseIfFollows(c: Ctx, cond: Expr, body: seq<Stmt>, next: Stmt)
    requires next.IfStmt?
    ensures ElabBlock(c, [IfStmt(false, cond, body, Some(next))])
         == ElabBlock(c, [IfStmt(false, cond, body, None)] + [next])
  {
    var s := IfStmt(false, cond, body, Some(next));
    IfFollows(c, cond, body, [next]);
    assert ElabElse(c, s.els, []) == ElabBlock(c, [next]);
    assert [s][1..] == [];
    assert ElabBlock(c, [s]) == ElabIf(c, s, []);
  }

  /** A recur is elaborated as a returned call of the function itself would be, its arity checked. */
  lemma RecurReturns(c: Ctx, args: seq<Expr>, fun: Expr)
    requires |args| == |c.params| && c.resolve(fun) == Some(c.self)
    ensures ElabBlock(c, [ExprStmt(CallExpr(Ident("recur"), args, false))])
         == ElabBlock(c, [Return([CallExpr(fun, args, false)])])
  {
  }
}
