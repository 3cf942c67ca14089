/**
 * Elaboration of total-function bodies from Go statements into terms
 * (internal/core/elabgo.go), and the lowering of `recur` to a labelled loop
 * (internal/lower/tailcall.go) whose output the same elaborator reads back.
 */
module Elaborator {
  import opened Options
  import opened Terms

  datatype Op = ADD | SUB | MUL | EQL | NEQ | LSS | LEQ | GTR | GEQ | OtherOp

  datatype Expr =
    | Ident(name: string)
    | IntLit(value: nat)
    | OtherLit
    | Paren(x: Expr)
    | Selector(recv: Expr, sel: string)
    | Binary(op: Op, l: Expr, r: Expr)
    | CallExpr(fun: Expr, args: seq<Expr>, ellipsis: bool)
    | OtherExpr

  /** A for loop is `plain` when it has no init, condition or post statement. */
  datatype Stmt =
    | ExprStmt(e: Expr)
    | Return(results: seq<Expr>)
    | IfStmt(hasInit: bool, cond: Expr, body: seq<Stmt>, els: Option<Stmt>)
    | Block(list: seq<Stmt>)
    | Labeled(tag: string, stmt: Stmt)
    | For(plain: bool, loop: seq<Stmt>)
    | Assign(define: bool, lhs: seq<Expr>, rhs: seq<Expr>)
    | Branch(continues: bool, target: string)
    | OtherStmt

  datatype ElabError =
    | MissingReturn | Unreachable | OutsideFragment | ResultCount | NotComparison
    | NotNatLiteral | NotTotalCall | NotNatOperator | RecurArity

  datatype Elab<+T> = Ok(value: T) | Err(error: ElabError)

  /** What one function is elaborated under; `resolve` canonicalises callees. */
  datatype Ctx = Ctx(self: string, params: seq<string>, resolve: Expr -> Option<string>)

  function Size(ss: seq<Stmt>): (n: nat)
    ensures ss != [] ==> n == SizeOf(ss[0]) + Size(ss[1..])
    ensures |ss| == 1 ==> n == SizeOf(ss[0])
    decreases ss
  {
    if ss == [] then 0 else SizeOf(ss[0]) + Size(ss[1..])
  }

  function SizeOf(s: Stmt): (n: nat)
    ensures n > 0
    ensures s.IfStmt? ==> n > Size(s.body) + ElseSize(s.els)
    ensures s.Block? ==> n > Size(s.list)
    ensures s.Labeled? ==> n > SizeOf(s.stmt)
    ensures s.For? ==> n > Size(s.loop)
    decreases s, 1
  {
    1 + match s
        case IfStmt(_, _, body, els) => Size(body) + ElseSize(els)
        case Block(list) => Size(list)
        case Labeled(_, stmt) => SizeOf(stmt)
        case For(_, loop) => Size(loop)
        case _ => 0
  }

  function ElseSize(els: Option<Stmt>): nat
    decreases els, 0
  {
    if els.Some? then SizeOf(els.value) else 0
  }

  // ---------------------------------------------------------- expressions

  function ElabExpr(c: Ctx, x: Expr): Elab<Term> {
    match x
    case Ident(name) => Ok(Var(name))
    case IntLit(n) => Ok(Nat(n))
    case OtherLit => Err(NotNatLiteral)
    case Paren(y) => ElabExpr(c, y)
    case Selector(_, sel) => Ok(Var(sel))
    case Binary(op, l, r) =>
      if !(op.ADD? || op.SUB? || op.MUL?) then Err(NotNatOperator) else
      var a := ElabExpr(c, l);
      if a.Err? then a else
      var b := ElabExpr(c, r);
      if b.Err? then b else
      Ok(Prim(if op.ADD? then Plus else if op.SUB? then Minus else Times, a.value, b.value))
    case CallExpr(fun, args, _) =>
      var key := c.resolve(fun);
      if key.None? then Err(NotTotalCall) else
      var ts := ElabExprs(c, args);
      if ts.Err? then Err(ts.error) else Ok(Call(key.value, ts.value))
    case OtherExpr => Err(OutsideFragment)
  }

  function ElabExprs(c: Ctx, xs: seq<Expr>): (r: Elab<seq<Term>>)
    ensures r.Ok? ==> |r.value| == |xs|
  {
    if xs == [] then Ok([]) else
    var t := ElabExpr(c, xs[0]);
    if t.Err? then Err(t.error) else
    var ts := ElabExprs(c, xs[1..]);
    if ts.Err? then ts else Ok([t.value] + ts.value)
  }

  function CmpOf(op: Op): Option<Cmp> {
    match op
    case EQL => Some(CmpEq)
    case NEQ => Some(CmpNe)
    case LSS => Some(CmpLt)
    case LEQ => Some(CmpLe)
    case GTR => Some(CmpGt)
    case GEQ => Some(CmpGe)
    case _ => None
  }

  datatype Condition = Condition(cmp: Cmp, l: Term, r: Term)

  function ElabCond(c: Ctx, x: Expr): Elab<Condition> {
    if !x.Binary? || CmpOf(x.op).None? then Err(NotComparison) else
    var a := ElabExpr(c, x.l);
    if a.Err? then Err(a.error) else
    var b := ElabExpr(c, x.r);
    if b.Err? then Err(b.error) else
    Ok(Condition(CmpOf(x.op).value, a.value, b.value))
  }

  // ----------------------------------------------------------- statements

  predicate IsRecur(x: Expr) {
    x.CallExpr? && x.fun == Ident("recur") && !x.ellipsis
  }

  function ElabRecur(c: Ctx, args: seq<Expr>): Elab<Term> {
    if |args| != |c.params| then Err(RecurArity) else
    var ts := ElabExprs(c, args);
    if ts.Err? then Err(ts.error) else Ok(Call(c.self, ts.value))
  }

  /** An assignment to all parameters, in order. */
  predicate RecurAssignment(c: Ctx, s: Stmt) {
    && s.Assign? && !s.define
    && |s.lhs| == |c.params| == |s.rhs|
    && forall i | 0 <= i < |s.lhs| :: s.lhs[i] == Ident(c.params[i])
  }

  /** Every path must end in return or recur, or in the lowered form of recur. */
  function ElabBlock(c: Ctx, ss: seq<Stmt>): Elab<Term>
    decreases Size(ss), 2
  {
    if ss == [] then Err(MissingReturn) else
    match ss[0]
    case ExprStmt(x) =>
      if |ss| > 1 then Err(Unreachable)
      else if !IsRecur(x) then Err(OutsideFragment)
      else ElabRecur(c, x.args)
    case Return(results) =>
      if |ss| > 1 then Err(Unreachable)
      else if |results| != 1 then Err(ResultCount)
      else ElabExpr(c, results[0])
    case IfStmt(_, _, _, _) => ElabIf(c, ss[0], ss[1..])
    case Block(list) =>
      if |ss| == 1 && |list| == 2 && RecurAssignment(c, list[0]) && list[1].Branch? && list[1].continues then
        ElabRecur(c, list[0].rhs)
      else
        Err(OutsideFragment)
    case Labeled(_, stmt) =>
      if |ss| == 1 && stmt.For? && stmt.plain then ElabBlock(c, stmt.loop) else Err(OutsideFragment)
    case _ => Err(OutsideFragment)
  }

  function ElabIf(c: Ctx, s: Stmt, rest: seq<Stmt>): Elab<Term>
    requires s.IfStmt?
    decreases SizeOf(s) + Size(rest), 1
  {
    if s.hasInit then Err(OutsideFragment) else
    var cd := ElabCond(c, s.cond);
    if cd.Err? then Err(cd.error) else
    var thn := ElabBlock(c, s.body);
    if thn.Err? then thn else
    var els := ElabElse(c, s.els, rest);
    if els.Err? then els else Ok(If(cd.value.cmp, cd.value.l, cd.value.r, thn.value, els.value))
  }

  /** Without an else, the statements that follow are the other branch. */
  function ElabElse(c: Ctx, els: Option<Stmt>, rest: seq<Stmt>): Elab<Term>
    decreases ElseSize(els) + Size(rest), 3
  {
    if els.None? then
      if rest == [] then Err(MissingReturn) else ElabBlock(c, rest)
    else if els.value.Block? then
      if rest != [] then Err(Unreachable) else ElabBlock(c, els.value.list)
    else if els.value.IfStmt? then
      if rest != [] then Err(Unreachable) else ElabBlock(c, [els.value])
    else
      Err(OutsideFragment)
  }

  /** Elaborated expressions hold no if. */
  predicate NoIf(t: Term) {
    match t
    case Var(_) => true
    case Nat(_) => true
    case Prim(_, l, r) => NoIf(l) && NoIf(r)
    case Call(_, args) => forall i | 0 <= i < |args| :: NoIf(args[i])
    case If(_, _, _, _, _) => false
  }

  /** Elaborated bodies hold ifs only on the spine. */
  predicate TailIf(t: Term) {
    if t.If? then NoIf(t.a) && NoIf(t.b) && TailIf(t.thn) && TailIf(t.els) else NoIf(t)
  }

  lemma {:induction false} ExprShape(c: Ctx, x: Expr)
    requires ElabExpr(c, x).Ok?
    ensures NoIf(ElabExpr(c, x).value)
    decreases x
  {
    match x
    case Paren(y) => ExprShape(c, y);
    case Binary(_, l, r) =>
      ExprShape(c, l);
      ExprShape(c, r);
    case CallExpr(_, args, _) => ExprsShape(c, args);
    case _ =>
  }

  lemma {:induction false} ExprsShape(c: Ctx, xs: seq<Expr>)
    requires ElabExprs(c, xs).Ok?
    ensures forall i | 0 <= i < |xs| :: NoIf(ElabExprs(c, xs).value[i])
    decreases xs
  {
    if xs != [] {
      ExprShape(c, xs[0]);
      ExprsShape(c, xs[1..]);
    }
  }

  /** Elaboration puts every if in tail position. */
  lemma {:induction false} BlockShape(c: Ctx, ss: seq<Stmt>)
    requires ElabBlock(c, ss).Ok?
    ensures TailIf(ElabBlock(c, ss).value)
    decreases Size(ss), 2
  {
    match ss[0]
    case ExprStmt(x) => ExprsShape(c, x.args);
    case Return(results) => ExprShape(c, results[0]);
    case IfStmt(_, _, _, _) => IfShape(c, ss[0], ss[1..]);
    case Block(list) => ExprsShape(c, list[0].rhs);
    case Labeled(_, stmt) => BlockShape(c, stmt.loop);
  }

  lemma {:induction false} IfShape(c: Ctx, s: Stmt, rest: seq<Stmt>)
    requires s.IfStmt? && ElabIf(c, s, rest).Ok?
    ensures TailIf(ElabIf(c, s, rest).value)
    decreases SizeOf(s) + Size(rest), 1
  {
    ExprShape(c, s.cond.l);
    ExprShape(c, s.cond.r);
    BlockShape(c, s.body);
    ElseShape(c, s.els, rest);
  }

  lemma {:induction false} ElseShape(c: Ctx, els: Option<Stmt>, rest: seq<Stmt>)
    requires ElabElse(c, els, rest).Ok?
    ensures TailIf(ElabElse(c, els, rest).value)
    decreases ElseSize(els) + Size(rest), 3
  {
    BlockShape(c, if els.None? then rest else if els.value.Block? then els.value.list else [els.value]);
  }

  // ------------------------------------------------------- lowering recur

  predicate Below(ks: seq<nat>, n: nat) {
    forall i | 0 <= i < |ks| :: ks[i] < n
  }

  /** Positions whose argument is not the parameter itself: the others are dropped. */
  function Kept(params: seq<string>, args: seq<Expr>, n: nat): (ks: seq<nat>)
    requires n <= |params| && n <= |args|
    ensures |ks| <= n && Below(ks, n)
  {
    if n == 0 then [] else
      Kept(params, args, n - 1) + if args[n - 1] == Ident(params[n - 1]) then [] else [n - 1]
  }

  function Select<T>(xs: seq<T>, ks: seq<nat>): seq<T>
    requires Below(ks, |xs|)
  {
    seq(|ks|, i requires 0 <= i < |ks| => xs[ks[i]])
  }

  function Idents(names: seq<string>): seq<Expr> {
    seq(|names|, i requires 0 <= i < |names| => Ident(names[i]))
  }

  /** `{ lhs = rhs; continue tag }`, or a bare continue when nothing is rebound. */
  function Replacement(params: seq<string>, tag: string, args: seq<Expr>): Stmt
    requires |args| == |params|
  {
    var ks := Kept(params, args, |params|);
    if ks == [] then Branch(true, tag) else
      Block([Assign(false, Idents(Select(params, ks)), Select(args, ks)), Branch(true, tag)])
  }

  function LowerStmt(params: seq<string>, tag: string, s: Stmt): Stmt {
    match s
    case ExprStmt(x) => if IsRecur(x) && |x.args| == |params| then Replacement(params, tag, x.args) else s
    case IfStmt(hasInit, cond, body, els) =>
      IfStmt(hasInit, cond, LowerBlock(params, tag, body),
             if els.Some? then Some(LowerStmt(params, tag, els.value)) else None)
    case Block(list) => Block(LowerBlock(params, tag, list))
    case Labeled(l, stmt) => Labeled(l, LowerStmt(params, tag, stmt))
    case For(plain, loop) => For(plain, LowerBlock(params, tag, loop))
    case _ => s
  }

  function LowerBlock(params: seq<string>, tag: string, ss: seq<Stmt>): (rs: seq<Stmt>)
    ensures |rs| == |ss|
    ensures forall i | 0 <= i < |ss| :: rs[i] == LowerStmt(params, tag, ss[i])
  {
    if ss == [] then [] else [LowerStmt(params, tag, ss[0])] + LowerBlock(params, tag, ss[1..])
  }

  predicate HasRecur(ss: seq<Stmt>)
    decreases ss
  {
    ss != [] && (HasRecurIn(ss[0]) || HasRecur(ss[1..]))
  }

  predicate HasRecurIn(s: Stmt)
    decreases s
  {
    match s
    case ExprStmt(x) => IsRecur(x)
    case IfStmt(_, _, body, els) => HasRecur(body) || (els.Some? && HasRecurIn(els.value))
    case Block(list) => HasRecur(list)
    case Labeled(_, stmt) => HasRecurIn(stmt)
    case For(_, loop) => HasRecur(loop)
    case _ => false
  }

  /** The body the generated file carries. */
  function Lowered(params: seq<string>, tag: string, ss: seq<Stmt>): seq<Stmt> {
    if HasRecur(ss) then [Labeled(tag, For(true, LowerBlock(params, tag, ss)))] else ss
  }

  // -------------------------------------------------- reading it back

  /** A recur that rebinds every parameter. */
  predicate Rebinds(params: seq<string>, args: seq<Expr>) {
    && |args| == |params| > 0
    && forall i | 0 <= i < |args| :: args[i] != Ident(params[i])
  }

  predicate AllRebind(params: seq<string>, ss: seq<Stmt>)
    decreases ss
  {
    ss == [] || (AllRebindIn(params, ss[0]) && AllRebind(params, ss[1..]))
  }

  predicate AllRebindIn(params: seq<string>, s: Stmt)
    decreases s
  {
    match s
    case ExprStmt(x) => IsRecur(x) ==> Rebinds(params, x.args)
    case IfStmt(_, _, body, els) => AllRebind(params, body) && (els.Some? ==> AllRebindIn(params, els.value))
    case Block(list) => AllRebind(params, list)
    case Labeled(_, stmt) => AllRebindIn(params, stmt)
    case For(_, loop) => AllRebind(params, loop)
    case _ => true
  }

  lemma {:induction false} KeptAll(params: seq<string>, args: seq<Expr>, n: nat)
    requires n <= |params| && n <= |args|
    requires forall i | 0 <= i < n :: args[i] != Ident(params[i])
    ensures Kept(params, args, n) == seq(n, i => i)
    decreases n
  {
    if n > 0 {
      KeptAll(params, args, n - 1);
      assert seq(n, i => i) == seq(n - 1, i => i) + [n - 1];
    }
  }

  lemma {:induction false} KeptSome(params: seq<string>, args: seq<Expr>, n: nat, j: nat)
    requires j < n <= |params| && n <= |args| && args[j] == Ident(params[j])
    ensures |Kept(params, args, n)| < n
    decreases n
  {
    if j < n - 1 {
      KeptSome(params, args, n - 1, j);
    }
  }

  /** A lowered recur reads back as the recur it came from, unless it kept a parameter. */
  lemma ReplacementReadsBack(c: Ctx, tag: string, args: seq<Expr>)
    requires |args| == |c.params|
    ensures Rebinds(c.params, args) ==> ElabBlock(c, [Replacement(c.params, tag, args)]) == ElabRecur(c, args)
    ensures !Rebinds(c.params, args) ==> ElabBlock(c, [Replacement(c.params, tag, args)]) == Err(OutsideFragment)
  {
    var n := |args|;
    if Rebinds(c.params, args) {
      KeptAll(c.params, args, n);
      assert Replacement(c.params, tag, args).list[0].rhs == args;
    } else if n > 0 {
      var j :| 0 <= j < n && args[j] == Ident(c.params[j]);
      KeptSome(c.params, args, n, j);
    }
  }

  lemma {:induction false} SingleRebind(params: seq<string>, s: Stmt)
    ensures AllRebind(params, [s]) <==> AllRebindIn(params, s)
  {
    assert [s][1..] == [];
  }

  /** What reading back a lowered form must give. */
  predicate ReadsBack<T(==)>(rebinds: bool, before: Elab<T>, after: Elab<T>) {
    if rebinds then after == before else after.Err?
  }

  /** Statement lists the elaborator accepts read back exactly when every recur rebinds every parameter. */
  lemma {:induction false} LoweredReadsBack(c: Ctx, tag: string, ss: seq<Stmt>)
    requires ElabBlock(c, ss).Ok?
    ensures ReadsBack(AllRebind(c.params, ss), ElabBlock(c, ss), ElabBlock(c, LowerBlock(c.params, tag, ss)))
    decreases Size(ss), 2
  {
    if ss[0].IfStmt? {
      LoweredIfReadsBack(c, tag, ss[0], ss[1..]);
      StartsWithIf(c, tag, ss);
    } else {
      assert |ss| == 1 && ss == [ss[0]];
      if ss[0].Labeled? {
        LoweredReadsBack(c, tag, ss[0].stmt.loop);
        LoweredLoop(c, tag, ss[0]);
      } else {
        LoweredLeafReadsBack(c, tag, ss[0]);
      }
    }
  }

  lemma StartsWithIf(c: Ctx, tag: string, ss: seq<Stmt>)
    requires ss != [] && ss[0].IfStmt?
    ensures ElabBlock(c, ss) == ElabIf(c, ss[0], ss[1..])
    ensures AllRebind(c.params, ss) <==> AllRebindIn(c.params, ss[0]) && AllRebind(c.params, ss[1..])
    ensures ElabBlock(c, LowerBlock(c.params, tag, ss))
         == ElabIf(c, LowerStmt(c.params, tag, ss[0]), LowerBlock(c.params, tag, ss[1..]))
  {
    assert LowerBlock(c.params, tag, ss)[1..] == LowerBlock(c.params, tag, ss[1..]);
  }

  lemma LoweredLoop(c: Ctx, tag: string, s: Stmt)
    requires s.Labeled? && ElabBlock(c, [s]).Ok?
    ensures ElabBlock(c, [s]) == ElabBlock(c, s.stmt.loop)
    ensures AllRebind(c.params, [s]) <==> AllRebind(c.params, s.stmt.loop)
    ensures ElabBlock(c, LowerBlock(c.params, tag, [s])) == ElabBlock(c, LowerBlock(c.params, tag, s.stmt.loop))
  {
    SingleRebind(c.params, s);
    var lowered := Labeled(s.tag, For(s.stmt.plain, LowerBlock(c.params, tag, s.stmt.loop)));
    assert LowerStmt(c.params, tag, s.stmt) == lowered.stmt;
    assert LowerBlock(c.params, tag, [s]) == [lowered];
    assert ElabBlock(c, [lowered]) == ElabBlock(c, lowered.stmt.loop);
  }

  lemma LoweredLeafReadsBack(c: Ctx, tag: string, s: Stmt)
    requires !s.IfStmt? && !s.Labeled? && ElabBlock(c, [s]).Ok?
    ensures ReadsBack(AllRebind(c.params, [s]), ElabBlock(c, [s]), ElabBlock(c, LowerBlock(c.params, tag, [s])))
  {
    SingleRebind(c.params, s);
    assert LowerBlock(c.params, tag, [s]) == [LowerStmt(c.params, tag, s)];
    match s
    case ExprStmt(x) => ReplacementReadsBack(c, tag, x.args);
    case Block(list) => PairRebind(c.params, tag, list);
    case Return(_) =>
  }

  /** The form lowering itself produces is left alone by lowering. */
  lemma PairRebind(params: seq<string>, tag: string, list: seq<Stmt>)
    requires |list| == 2 && list[0].Assign? && list[1].Branch?
    ensures LowerBlock(params, tag, list) == list && AllRebind(params, list)
  {
    SingleRebind(params, list[1]);
    assert list[1..] == [list[1]];
  }

  lemma {:induction false} LoweredIfReadsBack(c: Ctx, tag: string, s: Stmt, rest: seq<Stmt>)
    requires s.IfStmt? && ElabIf(c, s, rest).Ok?
    ensures ReadsBack(AllRebindIn(c.params, s) && AllRebind(c.params, rest),
                      ElabIf(c, s, rest), ElabIf(c, LowerStmt(c.params, tag, s), LowerBlock(c.params, tag, rest)))
    decreases SizeOf(s) + Size(rest), 1
  {
    LoweredReadsBack(c, tag, s.body);
    LoweredElseReadsBack(c, tag, s.els, rest);
  }

  function LowerElse(params: seq<string>, tag: string, els: Option<Stmt>): Option<Stmt> {
    if els.Some? then Some(LowerStmt(params, tag, els.value)) else None
  }

  predicate ElseRebinds(params: seq<string>, els: Option<Stmt>) {
    els.Some? ==> AllRebindIn(params, els.value)
  }

  lemma {:induction false} LoweredElseReadsBack(c: Ctx, tag: string, els: Option<Stmt>, rest: seq<Stmt>)
    requires ElabElse(c, els, rest).Ok?
    ensures ReadsBack(ElseRebinds(c.params, els) && AllRebind(c.params, rest),
                      ElabElse(c, els, rest),
                      ElabElse(c, LowerElse(c.params, tag, els), LowerBlock(c.params, tag, rest)))
    decreases ElseSize(els) + Size(rest), 3
  {
    if els.None? {
      LoweredReadsBack(c, tag, rest);
    } else if els.value.Block? {
      LoweredReadsBack(c, tag, els.value.list);
    } else {
      LoweredReadsBack(c, tag, [els.value]);
      SingleRebind(c.params, els.value);
      assert LowerBlock(c.params, tag, [els.value]) == [LowerStmt(c.params, tag, els.value)];
    }
  }

  /**
   * Reconstruction from the generated body: it gives back the elaborated
   * definition exactly when no recur passes a parameter unchanged, and is
   * refused otherwise.
   */
  lemma ReconstructionExact(c: Ctx, tag: string, ss: seq<Stmt>)
    requires ElabBlock(c, ss).Ok? && HasRecur(ss)
    ensures ElabBlock(c, Lowered(c.params, tag, ss)) == ElabBlock(c, ss) <==> AllRebind(c.params, ss)
    ensures !AllRebind(c.params, ss) ==> ElabBlock(c, Lowered(c.params, tag, ss)).Err?
  {
    LoweredReadsBack(c, tag, ss);
    var ls := LowerBlock(c.params, tag, ss);
    assert ElabBlock(c, [Labeled(tag, For(true, ls))]) == ElabBlock(c, ls);
  }
}
