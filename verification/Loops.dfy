/**
 * Running the lowered loop. Go statements get a small-step-free execution of
 * their own, in which a labelled loop reassigns the parameters simultaneously
 * and continues. Main result: running the generated loop of an authored body
 * answers exactly what the elaborated recursive definition evaluates to. A
 * loop the author writes below the top of a body is misread by elaboration.
 */
module Loops {
  import opened Options
  import opened Terms
  import opened Elaborator

  datatype GoFunc = GoFunc(params: seq<string>, body: seq<Stmt>)

  /** `qualified` gives the values of qualified names, which are not parameters. */
  datatype GoWorld = GoWorld(
    funcs: map<string, GoFunc>,
    ext: (string, seq<int>) -> int,
    resolve: Expr -> Option<string>,
    qualified: (Expr, string) -> int)

  datatype Outcome = Answered(n: int) | Continued(s: Store, tag: string) | FellThrough(s: Store) | NoAnswer

  // ------------------------------------------------------------ execution

  ghost function GoEval(g: GoWorld, x: Expr, s: Store, k: nat): Option<int>
    decreases k, 0, x
  {
    match x
    case Ident(name) => if name in s then Some(s[name]) else None
    case IntLit(n) => Some(n)
    case Paren(y) => GoEval(g, y, s, k)
    case Selector(recv, sel) => Some(g.qualified(recv, sel))
    case Binary(op, l, r) =>
      var a, b := GoEval(g, l, s, k), GoEval(g, r, s, k);
      if a.None? || b.None? then None else
      (match op
       case ADD => Some(a.value + b.value)
       case SUB => Some(a.value - b.value)
       case MUL => Some(a.value * b.value)
       case _ => None)
    case CallExpr(fun, args, ellipsis) =>
      var key, vs := g.resolve(fun), GoEvals(g, args, s, k);
      if ellipsis || key.None? || vs.None? || k == 0 then None else GoCall(g, key.value, vs.value, k - 1)
    case _ => None
  }

  ghost function GoEvals(g: GoWorld, xs: seq<Expr>, s: Store, k: nat): (r: Option<seq<int>>)
    ensures r.Some? ==> |r.value| == |xs|
    decreases k, 0, xs
  {
    if xs == [] then Some([]) else
      var v, vs := GoEval(g, xs[0], s, k), GoEvals(g, xs[1..], s, k);
      if v.Some? && vs.Some? then Some([v.value] + vs.value) else None
  }

  ghost function GoCond(g: GoWorld, x: Expr, s: Store, k: nat): Option<bool>
    decreases k, 1, 0
  {
    if !x.Binary? || CmpOf(x.op).None? then None else
      var a, b := GoEval(g, x.l, s, k), GoEval(g, x.r, s, k);
      if a.Some? && b.Some? then Some(Compare(CmpOf(x.op).value, a.value, b.value)) else None
  }

  ghost function GoCall(g: GoWorld, fn: string, vs: seq<int>, k: nat): Option<int>
    decreases k, 3, 0
  {
    if fn !in g.funcs then Some(g.ext(fn, vs)) else
      var f := g.funcs[fn];
      if |vs| != |f.params| then None else
        var o := Exec(g, f.body, Bind(f.params, vs), k);
        if o.Answered? then Some(o.n) else None
  }

  predicate Names(lhs: seq<Expr>) {
    forall i | 0 <= i < |lhs| :: lhs[i].Ident?
  }

  function NamesOf(lhs: seq<Expr>): seq<string>
    requires Names(lhs)
  {
    seq(|lhs|, i requires 0 <= i < |lhs| => lhs[i].name)
  }

  /** Simultaneous assignment: every right side was read first. */
  function Updated(s: Store, lhs: seq<Expr>, vs: seq<int>): Store
    requires Names(lhs) && |lhs| == |vs|
  {
    s + Bind(NamesOf(lhs), vs)
  }

  /** A continue without a label restarts the innermost loop. */
  predicate Restarts(o: Outcome, tag: string) {
    o.Continued? && (o.tag == tag || o.tag == "")
  }

  ghost function Exec(g: GoWorld, ss: seq<Stmt>, s: Store, k: nat): Outcome
    decreases k, 2, Size(ss)
  {
    if ss == [] then FellThrough(s) else
    match ss[0]
    case Return(results) =>
      if |results| != 1 then NoAnswer else
        var v := GoEval(g, results[0], s, k);
        if v.Some? then Answered(v.value) else NoAnswer
    case IfStmt(hasInit, cond, body, els) =>
      var b := GoCond(g, cond, s, k);
      if hasInit || b.None? then NoAnswer else
        var o := if b.value then Exec(g, body, s, k)
                 else if els.Some? then Exec(g, [els.value], s, k) else FellThrough(s);
        if o.FellThrough? then Exec(g, ss[1..], o.s, k) else o
    case Block(list) =>
      var o := Exec(g, list, s, k);
      if o.FellThrough? then Exec(g, ss[1..], o.s, k) else o
    case Assign(define, lhs, rhs) =>
      var vs := GoEvals(g, rhs, s, k);
      if define || !Names(lhs) || |lhs| != |rhs| || vs.None? then NoAnswer
      else Exec(g, ss[1..], Updated(s, lhs, vs.value), k)
    case Branch(continues, target) =>
      if continues then Continued(s, target) else NoAnswer
    case Labeled(tag, stmt) =>
      if !stmt.For? || !stmt.plain || k == 0 then NoAnswer else
        var o := Exec(g, stmt.loop, s, k - 1);
        if o.FellThrough? || Restarts(o, tag) then Exec(g, ss, o.s, k - 1) else o
    case _ => NoAnswer
  }

  // ---------------------------------------------------- a deeper bound agrees

  lemma {:induction false} GoEvalMonotone(g: GoWorld, x: Expr, s: Store, k: nat, k': nat)
    requires k <= k' && GoEval(g, x, s, k).Some?
    ensures GoEval(g, x, s, k') == GoEval(g, x, s, k)
    decreases k, 0, x
  {
    match x
    case Paren(y) => GoEvalMonotone(g, y, s, k, k');
    case Binary(_, l, r) =>
      GoEvalMonotone(g, l, s, k, k');
      GoEvalMonotone(g, r, s, k, k');
    case CallExpr(fun, args, _) =>
      GoEvalsMonotone(g, args, s, k, k');
      GoCallMonotone(g, g.resolve(fun).value, GoEvals(g, args, s, k).value, k - 1, k' - 1);
    case _ =>
  }

  lemma {:induction false} GoEvalsMonotone(g: GoWorld, xs: seq<Expr>, s: Store, k: nat, k': nat)
    requires k <= k' && GoEvals(g, xs, s, k).Some?
    ensures GoEvals(g, xs, s, k') == GoEvals(g, xs, s, k)
    decreases k, 0, xs
  {
    if xs != [] {
      GoEvalMonotone(g, xs[0], s, k, k');
      GoEvalsMonotone(g, xs[1..], s, k, k');
    }
  }

  lemma {:induction false} GoCallMonotone(g: GoWorld, fn: string, vs: seq<int>, k: nat, k': nat)
    requires k <= k' && GoCall(g, fn, vs, k).Some?
    ensures GoCall(g, fn, vs, k') == GoCall(g, fn, vs, k)
    decreases k, 3, 0
  {
    if fn in g.funcs {
      ExecMonotone(g, g.funcs[fn].body, Bind(g.funcs[fn].params, vs), k, k');
    }
  }

  lemma {:induction false} GoCondMonotone(g: GoWorld, x: Expr, s: Store, k: nat, k': nat)
    requires k <= k' && GoCond(g, x, s, k).Some?
    ensures GoCond(g, x, s, k') == GoCond(g, x, s, k)
    decreases k, 1, 0
  {
    GoEvalMonotone(g, x.l, s, k, k');
    GoEvalMonotone(g, x.r, s, k, k');
  }

  lemma {:induction false} ExecMonotone(g: GoWorld, ss: seq<Stmt>, s: Store, k: nat, k': nat)
    requires k <= k' && Exec(g, ss, s, k) != NoAnswer
    ensures Exec(g, ss, s, k') == Exec(g, ss, s, k)
    decreases k, 2, Size(ss)
  {
    if ss != [] {
      match ss[0]
      case Return(results) => GoEvalMonotone(g, results[0], s, k, k');
      case IfStmt(_, _, _, _) => ExecIfMonotone(g, ss, s, k, k');
      case Block(_) => ExecBlockMonotone(g, ss, s, k, k');
      case Assign(_, _, _) => ExecAssignMonotone(g, ss, s, k, k');
      case Branch(_, _) =>
      case Labeled(_, _) => ExecLoopMonotone(g, ss, s, k, k');
    }
  }

  lemma {:induction false} ExecBlockMonotone(g: GoWorld, ss: seq<Stmt>, s: Store, k: nat, k': nat)
    requires k <= k' && ss != [] && ss[0].Block? && Exec(g, ss, s, k) != NoAnswer
    ensures Exec(g, ss, s, k') == Exec(g, ss, s, k)
    decreases k, 2, Size(ss), 0
  {
    var o := Exec(g, ss[0].list, s, k);
    ExecMonotone(g, ss[0].list, s, k, k');
    if o.FellThrough? {
      ExecMonotone(g, ss[1..], o.s, k, k');
    }
  }

  lemma {:induction false} ExecAssignMonotone(g: GoWorld, ss: seq<Stmt>, s: Store, k: nat, k': nat)
    requires k <= k' && ss != [] && ss[0].Assign? && Exec(g, ss, s, k) != NoAnswer
    ensures Exec(g, ss, s, k') == Exec(g, ss, s, k)
    decreases k, 2, Size(ss), 0
  {
    GoEvalsMonotone(g, ss[0].rhs, s, k, k');
    ExecMonotone(g, ss[1..], Updated(s, ss[0].lhs, GoEvals(g, ss[0].rhs, s, k).value), k, k');
  }

  lemma {:induction false} ExecLoopMonotone(g: GoWorld, ss: seq<Stmt>, s: Store, k: nat, k': nat)
    requires k <= k' && ss != [] && ss[0].Labeled? && Exec(g, ss, s, k) != NoAnswer
    ensures Exec(g, ss, s, k') == Exec(g, ss, s, k)
    decreases k, 2, Size(ss), 0
  {
    var Labeled(tag, stmt) := ss[0];
    var o := Exec(g, stmt.loop, s, k - 1);
    ExecMonotone(g, stmt.loop, s, k - 1, k' - 1);
    if o.FellThrough? || Restarts(o, tag) {
      ExecMonotone(g, ss, o.s, k - 1, k' - 1);
    }
  }

  lemma {:induction false} ExecIfMonotone(g: GoWorld, ss: seq<Stmt>, s: Store, k: nat, k': nat)
    requires k <= k' && ss != [] && ss[0].IfStmt? && Exec(g, ss, s, k) != NoAnswer
    ensures Exec(g, ss, s, k') == Exec(g, ss, s, k)
    decreases k, 2, Size(ss), 0
  {
    var IfStmt(_, cond, body, els) := ss[0];
    GoCondMonotone(g, cond, s, k, k');
    var b := GoCond(g, cond, s, k).value;
    var o := if b then Exec(g, body, s, k) else if els.Some? then Exec(g, [els.value], s, k) else FellThrough(s);
    if b {
      ExecMonotone(g, body, s, k, k');
    } else if els.Some? {
      ExecMonotone(g, [els.value], s, k, k');
    }
    if o.FellThrough? {
      ExecMonotone(g, ss[1..], o.s, k, k');
    }
  }

  // ------------------------------------------------------------- programs

  /** A total function as its author wrote it; `tag` is the label lowering picks. */
  datatype Source = Source(params: seq<string>, tag: string, body: seq<Stmt>)

  type Sources = map<string, Source>

  predicate PlainExpr(x: Expr) {
    match x
    case Paren(y) => PlainExpr(y)
    case Selector(_, _) => false
    case Binary(_, l, r) => PlainExpr(l) && PlainExpr(r)
    case CallExpr(_, args, ellipsis) => !ellipsis && forall i | 0 <= i < |args| :: PlainExpr(args[i])
    case _ => true
  }

  /**
   * If, return, recur and the hand-written form of recur, over unqualified
   * names; `tags` are the loops a continue may name.
   */
  predicate Authored(tags: set<string>, ss: seq<Stmt>)
    decreases ss
  {
    forall i | 0 <= i < |ss| :: AuthoredStmt(tags, ss[i])
  }

  predicate AuthoredStmt(tags: set<string>, s: Stmt)
    decreases s
  {
    match s
    case ExprStmt(x) => PlainExpr(x)
    case Return(results) => forall i | 0 <= i < |results| :: PlainExpr(results[i])
    case IfStmt(_, cond, body, els) =>
      && PlainExpr(cond) && Authored(tags, body)
      && match els {
           case None => true
           case Some(e) => if e.Block? then Authored(tags, e.list) else e.IfStmt? && AuthoredStmt(tags, e)
         }
    case Block(list) =>
      && |list| == 2 && list[0].Assign? && (forall i | 0 <= i < |list[0].rhs| :: PlainExpr(list[0].rhs[i]))
      && list[1].Branch? && list[1].continues && list[1].target in tags
    case _ => false
  }

  // ------------------------------------------------- loops around a whole body

  /** A labelled loop and nothing else. */
  predicate Looped(ss: seq<Stmt>) {
    |ss| == 1 && ss[0].Labeled? && ss[0].stmt.For? && ss[0].stmt.plain
  }

  /** What the loops around a whole body enclose. */
  function Core(ss: seq<Stmt>): seq<Stmt>
    decreases Size(ss)
  {
    if Looped(ss) then Core(ss[0].stmt.loop) else ss
  }

  function Labels(ss: seq<Stmt>): set<string>
    decreases Size(ss)
  {
    if Looped(ss) then {ss[0].tag} + Labels(ss[0].stmt.loop) else {}
  }

  /** The targets of a continue in the core, the empty one being no label. */
  function Tags(ss: seq<Stmt>): set<string> {
    if Looped(ss) then Labels(ss) + {""} else {}
  }

  function CtxOf(srcs: Sources, resolve: Expr -> Option<string>, fn: string): Ctx
    requires fn in srcs
  {
    Ctx(fn, srcs[fn].params, resolve)
  }

  /** The generated Go program beside the elaborated definitions. */
  ghost predicate Compiled(srcs: Sources, g: GoWorld, w: World) {
    && g.funcs.Keys == w.defs.Keys == srcs.Keys && g.ext == w.ext
    && forall fn | fn in srcs ::
      && Distinct(srcs[fn].params) && Authored(Tags(srcs[fn].body), Core(srcs[fn].body))
      && g.funcs[fn] == GoFunc(srcs[fn].params, Lowered(srcs[fn].params, srcs[fn].tag, srcs[fn].body))
      && w.defs[fn].params == srcs[fn].params
      && ElabBlock(CtxOf(srcs, g.resolve, fn), srcs[fn].body) == Ok(w.defs[fn].body)
  }

  // ------------------------------------------- every answer of Go is the term's

  lemma {:induction false} EvalRefines(srcs: Sources, g: GoWorld, w: World, c: Ctx, x: Expr, s: Store, k: nat)
      returns (m: nat)
    requires Compiled(srcs, g, w) && c.resolve == g.resolve && PlainExpr(x)
    requires ElabExpr(c, x).Ok? && GoEval(g, x, s, k).Some?
    ensures Ref(w, ElabExpr(c, x).value, s, m) == GoEval(g, x, s, k)
    decreases k, 0, x
  {
    match x
    case Ident(_) => m := 1;
    case IntLit(_) => m := 1;
    case Paren(y) => m := EvalRefines(srcs, g, w, c, y, s, k);
    case Binary(_, l, r) =>
      var i := EvalRefines(srcs, g, w, c, l, s, k);
      var j := EvalRefines(srcs, g, w, c, r, s, k);
      m := Max(i, j);
      RefMonotone(w, ElabExpr(c, l).value, s, i, m);
      RefMonotone(w, ElabExpr(c, r).value, s, j, m);
      m := m + 1;
    case CallExpr(fun, args, _) =>
      var i := EvalsRefine(srcs, g, w, c, args, s, k);
      var vs := GoEvals(g, args, s, k).value;
      var j := CallRefines(srcs, g, w, g.resolve(fun).value, vs, k - 1);
      m := Max(i, j);
      RefAllMonotone(w, ElabExprs(c, args).value, s, i, m);
      ApplyMonotone(w, g.resolve(fun).value, vs, j, m);
      m := m + 1;
  }

  lemma {:induction false} EvalsRefine(srcs: Sources, g: GoWorld, w: World, c: Ctx, xs: seq<Expr>, s: Store, k: nat)
      returns (m: nat)
    requires Compiled(srcs, g, w) && c.resolve == g.resolve && forall i | 0 <= i < |xs| :: PlainExpr(xs[i])
    requires ElabExprs(c, xs).Ok? && GoEvals(g, xs, s, k).Some?
    ensures RefAll(w, ElabExprs(c, xs).value, s, m) == GoEvals(g, xs, s, k)
    decreases k, 0, xs
  {
    m := 0;
    if xs != [] {
      var i := EvalRefines(srcs, g, w, c, xs[0], s, k);
      var j := EvalsRefine(srcs, g, w, c, xs[1..], s, k);
      m := Max(i, j);
      RefMonotone(w, ElabExpr(c, xs[0]).value, s, i, m);
      RefAllMonotone(w, ElabExprs(c, xs[1..]).value, s, j, m);
    }
  }

  lemma {:induction false} CallRefines(srcs: Sources, g: GoWorld, w: World, fn: string, vs: seq<int>, k: nat)
      returns (m: nat)
    requires Compiled(srcs, g, w) && GoCall(g, fn, vs, k).Some?
    ensures Apply(w, fn, vs, m) == GoCall(g, fn, vs, k)
    decreases k, 3, 0
  {
    m := 0;
    if fn in g.funcs {
      GeneratedCore(srcs[fn]);
      m := NestRefines(srcs, g, w, fn, g.funcs[fn].body, Bind(srcs[fn].params, vs), k);
    }
  }

  /** The generated body: the authored core lowered, inside its loops. */
  lemma GeneratedCore(src: Source)
    ensures Core(Lowered(src.params, src.tag, src.body)) == LowerBlock(src.params, src.tag, Core(src.body))
    ensures Tags(src.body) <= Tags(Lowered(src.params, src.tag, src.body))
    ensures HasRecur(Core(src.body)) ==> src.tag in Tags(Lowered(src.params, src.tag, src.body))
  {
    var ls := LowerBlock(src.params, src.tag, src.body);
    LoweredCore(src.params, src.tag, src.body);
    if HasRecur(src.body) {
      assert Looped([Labeled(src.tag, For(true, ls))]);
    } else {
      NoRecurUnchanged(src.params, src.tag, src.body);
    }
  }

  /** Lowering keeps the loops around a body and lowers what they enclose. */
  lemma {:induction false} LoweredCore(params: seq<string>, tag: string, ss: seq<Stmt>)
    ensures Core(LowerBlock(params, tag, ss)) == LowerBlock(params, tag, Core(ss))
    ensures Labels(LowerBlock(params, tag, ss)) == Labels(ss) && Looped(LowerBlock(params, tag, ss)) == Looped(ss)
    ensures HasRecur(Core(ss)) ==> HasRecur(ss)
    decreases Size(ss)
  {
    var ls := LowerBlock(params, tag, ss);
    if Looped(ss) {
      assert LowerStmt(params, tag, ss[0].stmt) == For(true, LowerBlock(params, tag, ss[0].stmt.loop));
      assert ls[0] == LowerStmt(params, tag, ss[0]) == Labeled(ss[0].tag, LowerStmt(params, tag, ss[0].stmt));
      LoweredCore(params, tag, ss[0].stmt.loop);
    } else if |ss| == 1 && ss[0].Labeled? {
      assert ls[0] == LowerStmt(params, tag, ss[0]) == Labeled(ss[0].tag, LowerStmt(params, tag, ss[0].stmt));
    }
  }

  /** The loops around a whole body do not change what the elaborator reads. */
  lemma {:induction false} CoreElaborates(c: Ctx, ss: seq<Stmt>)
    ensures ElabBlock(c, ss) == ElabBlock(c, Core(ss))
    decreases Size(ss)
  {
    if Looped(ss) {
      CoreElaborates(c, ss[0].stmt.loop);
    }
  }

  /** Loops around the core: each turn answers, leaves for an outer loop, or hands its state to the next turn. */
  lemma {:induction false} NestRefines(srcs: Sources, g: GoWorld, w: World, fn: string, ss: seq<Stmt>, s: Store, k: nat)
      returns (m: nat)
    requires Compiled(srcs, g, w) && fn in srcs && s.Keys == set p | p in srcs[fn].params
    requires Core(ss) == LowerBlock(srcs[fn].params, srcs[fn].tag, Core(srcs[fn].body))
    ensures Means(srcs, w, fn, w.defs[fn].body, s, Exec(g, ss, s, k), m)
    decreases k, 2
  {
    m := 0;
    if !Looped(ss) {
      CoreElaborates(CtxOf(srcs, g.resolve, fn), srcs[fn].body);
      m := BodyRefines(srcs, g, w, fn, Core(srcs[fn].body), s, k);
    } else if k > 0 {
      m := LoopRefines(srcs, g, w, fn, ss, s, k);
    }
  }

  lemma {:induction false} LoopRefines(srcs: Sources, g: GoWorld, w: World, fn: string, ss: seq<Stmt>, s: Store, k: nat)
      returns (m: nat)
    requires Compiled(srcs, g, w) && fn in srcs && s.Keys == set p | p in srcs[fn].params
    requires Looped(ss) && k > 0 && Core(ss) == LowerBlock(srcs[fn].params, srcs[fn].tag, Core(srcs[fn].body))
    ensures Means(srcs, w, fn, w.defs[fn].body, s, Exec(g, ss, s, k), m)
    decreases k - 1, 4
  {
    var turn := Exec(g, ss[0].stmt.loop, s, k - 1);
    m := NestRefines(srcs, g, w, fn, ss[0].stmt.loop, s, k - 1);
    LoopTurn(g, ss, s, k - 1);
    if Restarts(turn, ss[0].tag) {
      var j := NestRefines(srcs, g, w, fn, ss, turn.s, k - 1);
      Chained(srcs, w, fn, s, turn.s, Exec(g, ss, turn.s, k - 1), m, j);
      m := m + j;
    }
  }

  /** One turn of a loop that does not fall through. */
  lemma LoopTurn(g: GoWorld, ss: seq<Stmt>, s: Store, k: nat)
    requires Looped(ss) && !Exec(g, ss[0].stmt.loop, s, k).FellThrough?
    ensures var turn := Exec(g, ss[0].stmt.loop, s, k);
            Exec(g, ss, s, k + 1) == if Restarts(turn, ss[0].tag) then Exec(g, ss, turn.s, k) else turn
  {
  }

  lemma HandsOverTwice(w: World, body: Term, s: Store, s': Store, s'': Store, m: nat, j: nat)
    requires HandsOver(w, body, s, body, s', m) && HandsOver(w, body, s', body, s'', j)
    ensures HandsOver(w, body, s, body, s'', m + j)
  {
    forall i: nat, d: nat | Ref(w, body, s'', i).Some? && d >= m + j + i
      ensures Ref(w, body, s, d) == Ref(w, body, s'', i)
    {
      assert Ref(w, body, s', j + i) == Ref(w, body, s'', i);
    }
  }

  /** Handing over to a state, and what that state comes to. */
  lemma Chained(srcs: Sources, w: World, fn: string, s: Store, s': Store, o: Outcome, m: nat, j: nat)
    requires fn in srcs && fn in w.defs
    requires HandsOver(w, w.defs[fn].body, s, w.defs[fn].body, s', m)
    requires Means(srcs, w, fn, w.defs[fn].body, s', o, j)
    ensures Means(srcs, w, fn, w.defs[fn].body, s, o, m + j)
  {
    if o.Continued? {
      HandsOverTwice(w, w.defs[fn].body, s, s', o.s, m, j);
    }
  }

  /** `t` at `s` answers whatever `body` answers at `s'`, once both are given the depth. */
  ghost predicate HandsOver(w: World, t: Term, s: Store, body: Term, s': Store, m: nat) {
    forall j: nat, d: nat | Ref(w, body, s', j).Some? && d >= m + j :: Ref(w, t, s, d) == Ref(w, body, s', j)
  }

  /** What an outcome of the lowered statements says of the elaborated term. */
  ghost predicate Means(srcs: Sources, w: World, fn: string, t: Term, s: Store, o: Outcome, m: nat)
    requires fn in srcs && fn in w.defs
  {
    match o
    case Answered(n) => Ref(w, t, s, m) == Some(n)
    case Continued(s', _) =>
      s'.Keys == (set p | p in srcs[fn].params) && HandsOver(w, t, s, w.defs[fn].body, s', m)
    case FellThrough(_) => false
    case NoAnswer => true
  }

  /** The statements an if goes on to. */
  function Onward(s: Stmt, rest: seq<Stmt>, b: bool): seq<Stmt>
    requires s.IfStmt?
  {
    if b then s.body
    else if s.els.None? then rest
    else if s.els.value.Block? then s.els.value.list
    else [s.els.value]
  }

  lemma OnwardElaborates(c: Ctx, tags: set<string>, ss: seq<Stmt>, b: bool)
    requires ss != [] && ss[0].IfStmt? && Authored(tags, ss) && ElabBlock(c, ss).Ok?
    ensures Authored(tags, Onward(ss[0], ss[1..], b)) && Size(Onward(ss[0], ss[1..], b)) < Size(ss)
    ensures ElabIfGives(c, ss[0], ElabBlock(c, ss).value) && (ss[0].els.None? || |ss| == 1)
    ensures ElabBlock(c, Onward(ss[0], ss[1..], b))
        == Ok(if b then ElabBlock(c, ss).value.thn else ElabBlock(c, ss).value.els)
  {
    assert ElabBlock(c, ss) == ElabIf(c, ss[0], ss[1..]);
    IfElaborates(c, tags, ss[0], ss[1..], b);
    OnwardAuthored(tags, ss, b);
  }

  /** The condition of the term is the condition of the statement. */
  predicate ElabIfGives(c: Ctx, s: Stmt, t: Term) {
    s.IfStmt? && !s.hasInit && t.If? && PlainExpr(s.cond) && ElabCond(c, s.cond) == Ok(Condition(t.cmp, t.a, t.b))
  }

  lemma IfElaborates(c: Ctx, tags: set<string>, s: Stmt, rest: seq<Stmt>, b: bool)
    requires s.IfStmt? && AuthoredStmt(tags, s) && ElabIf(c, s, rest).Ok?
    ensures ElabIfGives(c, s, ElabIf(c, s, rest).value)
    ensures ElabBlock(c, Onward(s, rest, b))
        == Ok(if b then ElabIf(c, s, rest).value.thn else ElabIf(c, s, rest).value.els)
  {
    assert ElabElse(c, s.els, rest) == ElabBlock(c, Onward(s, rest, false));
  }

  lemma OnwardAuthored(tags: set<string>, ss: seq<Stmt>, b: bool)
    requires ss != [] && ss[0].IfStmt? && Authored(tags, ss)
    ensures Authored(tags, Onward(ss[0], ss[1..], b)) && Size(Onward(ss[0], ss[1..], b)) < Size(ss)
  {
    assert AuthoredStmt(tags, ss[0]);
  }

  lemma OnwardExecutes(g: GoWorld, params: seq<string>, tag: string, ss: seq<Stmt>, s: Store, k: nat)
    requires ss != [] && ss[0].IfStmt? && !ss[0].hasInit && GoCond(g, ss[0].cond, s, k).Some?
    requires ss[0].els.None? || |ss| == 1
    requires var o := Exec(g, LowerBlock(params, tag, Onward(ss[0], ss[1..], GoCond(g, ss[0].cond, s, k).value)), s, k);
             !o.FellThrough?
    ensures Exec(g, LowerBlock(params, tag, ss), s, k)
         == Exec(g, LowerBlock(params, tag, Onward(ss[0], ss[1..], GoCond(g, ss[0].cond, s, k).value)), s, k)
  {
    var ls := LowerBlock(params, tag, ss);
    assert ls[1..] == LowerBlock(params, tag, ss[1..]);
    if ss[0].els.Some? {
      assert LowerBlock(params, tag, [ss[0].els.value]) == [LowerStmt(params, tag, ss[0].els.value)];
    }
  }

  lemma {:induction false} GoEvalsAt(g: GoWorld, xs: seq<Expr>, s: Store, k: nat, i: nat)
    requires i < |xs| && GoEvals(g, xs, s, k).Some?
    ensures GoEval(g, xs[i], s, k) == Some(GoEvals(g, xs, s, k).value[i])
    decreases i
  {
    if i > 0 {
      GoEvalsAt(g, xs[1..], s, k, i - 1);
    }
  }

  lemma {:induction false} GoEvalsFrom(g: GoWorld, xs: seq<Expr>, s: Store, k: nat)
    requires forall i | 0 <= i < |xs| :: GoEval(g, xs[i], s, k).Some?
    ensures GoEvals(g, xs, s, k).Some?
    decreases |xs|
  {
    if xs != [] {
      assert forall i | 0 <= i < |xs[1..]| :: xs[1..][i] == xs[i + 1];
      GoEvalsFrom(g, xs[1..], s, k);
    }
  }

  lemma BindSnoc<T>(names: seq<string>, vals: seq<T>, p: string, v: T)
    requires |names| == |vals|
    ensures Bind(names + [p], vals + [v]) == Bind(names, vals)[p := v]
  {
    assert (names + [p])[..|names|] == names && (vals + [v])[..|vals|] == vals;
  }

  lemma SelectSnoc<T>(xs: seq<T>, ks: seq<nat>, k: nat)
    requires Below(ks, |xs|) && k < |xs|
    ensures Select(xs, ks + [k]) == Select(xs, ks) + [xs[k]]
  {
  }

  /** The store after assigning the first n parameters, all of them or only those lowering keeps. */
  ghost function FullStore(params: seq<string>, full: seq<int>, s: Store, n: nat): Store
    requires n <= |params| == |full|
  {
    s + Bind(params[..n], full[..n])
  }

  ghost function KeptStore(params: seq<string>, args: seq<Expr>, full: seq<int>, s: Store, n: nat): Store
    requires n <= |params| == |args| == |full|
  {
    s + Bind(Select(params, Kept(params, args, n)), Select(full, Kept(params, args, n)))
  }

  /** Leaving out parameters that keep their value does not change the assignment. */
  lemma KeptBind(params: seq<string>, args: seq<Expr>, full: seq<int>, s: Store, n: nat)
    requires n <= |params| == |args| == |full| && Distinct(params)
    requires forall i | 0 <= i < |params| && args[i] == Ident(params[i]) :: params[i] in s && full[i] == s[params[i]]
    ensures FullStore(params, full, s, n) == KeptStore(params, args, full, s, n)
  {
    NothingBound(params, full, s);
    for m := 0 to n
      invariant FullStore(params, full, s, m) == KeptStore(params, args, full, s, m)
    {
      KeptBindStep(params, args, full, s, m);
    }
  }

  lemma KeptBindStep(params: seq<string>, args: seq<Expr>, full: seq<int>, s: Store, m: nat)
    requires m < |params| == |args| == |full| && Distinct(params)
    requires args[m] == Ident(params[m]) ==> params[m] in s && full[m] == s[params[m]]
    requires FullStore(params, full, s, m) == KeptStore(params, args, full, s, m)
    ensures FullStore(params, full, s, m + 1) == KeptStore(params, args, full, s, m + 1)
  {
    FullStep(params, full, s, m);
    KeptStep(params, args, full, s, m);
  }

  lemma NothingBound(params: seq<string>, full: seq<int>, s: Store)
    requires |params| == |full|
    ensures FullStore(params, full, s, 0) == s
  {
    assert params[..0] == [];
  }

  lemma FullStep(params: seq<string>, full: seq<int>, s: Store, m: nat)
    requires m < |params| == |full| && Distinct(params)
    ensures FullStore(params, full, s, m + 1) == FullStore(params, full, s, m)[params[m] := full[m]]
    ensures params[m] in s && full[m] == s[params[m]]
        ==> FullStore(params, full, s, m + 1) == FullStore(params, full, s, m)
  {
    BindPrefix(params, full, m);
    BoundLast(s, Bind(params[..m], full[..m]), params[m], full[m]);
  }

  lemma BoundLast(s: Store, b: Store, p: string, v: int)
    ensures s + b[p := v] == (s + b)[p := v]
    ensures p !in b && p in s && v == s[p] ==> s + b[p := v] == s + b
  {
  }

  lemma KeptStep(params: seq<string>, args: seq<Expr>, full: seq<int>, s: Store, m: nat)
    requires m < |params| == |args| == |full|
    ensures KeptStore(params, args, full, s, m + 1)
         == if args[m] == Ident(params[m]) then KeptStore(params, args, full, s, m)
            else KeptStore(params, args, full, s, m)[params[m] := full[m]]
  {
    var js := Kept(params, args, m);
    if args[m] == Ident(params[m]) {
      assert Kept(params, args, m + 1) == js;
    } else {
      assert Kept(params, args, m + 1) == js + [m];
      SelectBindSnoc(params, full, js, m);
      BoundLast(s, Bind(Select(params, js), Select(full, js)), params[m], full[m]);
    }
  }

  lemma BindPrefix(params: seq<string>, full: seq<int>, m: nat)
    requires m < |params| == |full| && Distinct(params)
    ensures Bind(params[..m + 1], full[..m + 1]) == Bind(params[..m], full[..m])[params[m] := full[m]]
    ensures params[m] !in Bind(params[..m], full[..m])
  {
    assert params[..m + 1] == params[..m] + [params[m]] && full[..m + 1] == full[..m] + [full[m]];
    BindSnoc(params[..m], full[..m], params[m], full[m]);
  }

  lemma SelectBindSnoc(params: seq<string>, full: seq<int>, js: seq<nat>, m: nat)
    requires m < |params| == |full| && Below(js, m)
    ensures Below(js + [m], |params|)
    ensures Bind(Select(params, js + [m]), Select(full, js + [m]))
         == Bind(Select(params, js), Select(full, js))[params[m] := full[m]]
  {
    SelectSnoc(params, js, m);
    SelectSnoc(full, js, m);
    BindSnoc(Select(params, js), Select(full, js), params[m], full[m]);
  }

  /** A lowered recur continues the loop in the state the recursive call would start in. */
  lemma RecurContinues(g: GoWorld, params: seq<string>, tag: string, args: seq<Expr>, s: Store, k: nat)
    requires |args| == |params| && Distinct(params) && s.Keys == set p | p in params
    ensures Exec(g, [Replacement(params, tag, args)], s, k)
         == if GoEvals(g, args, s, k).Some? then Continued(Bind(params, GoEvals(g, args, s, k).value), tag)
             else NoAnswer
  {
    var ks := Kept(params, args, |params|);
    ReplacementExecutes(g, params, tag, args, s, k);
    if GoEvals(g, args, s, k).Some? {
      KeptValues(g, params, args, s, k);
    } else if GoEvals(g, Select(args, ks), s, k).Some? {
      KeptSuffice(g, params, args, s, k);
      assert false;
    }
  }

  lemma SelectEvals(g: GoWorld, args: seq<Expr>, s: Store, k: nat, ks: seq<nat>)
    requires GoEvals(g, args, s, k).Some? && Below(ks, |args|)
    ensures GoEvals(g, Select(args, ks), s, k) == Some(Select(GoEvals(g, args, s, k).value, ks))
  {
    var kept, full := Select(args, ks), GoEvals(g, args, s, k).value;
    forall i | 0 <= i < |ks| ensures GoEval(g, kept[i], s, k) == Some(full[ks[i]]) {
      GoEvalsAt(g, args, s, k, ks[i]);
    }
    GoEvalsFrom(g, kept, s, k);
    forall i | 0 <= i < |ks| ensures GoEvals(g, kept, s, k).value[i] == full[ks[i]] {
      GoEvalsAt(g, kept, s, k, i);
    }
    assert GoEvals(g, kept, s, k).value == Select(full, ks);
  }

  lemma KeptValues(g: GoWorld, params: seq<string>, args: seq<Expr>, s: Store, k: nat)
    requires |args| == |params| && Distinct(params) && s.Keys == set p | p in params
    requires GoEvals(g, args, s, k).Some?
    ensures var ks := Kept(params, args, |params|);
            && GoEvals(g, Select(args, ks), s, k).Some?
            && s + Bind(Select(params, ks), GoEvals(g, Select(args, ks), s, k).value)
               == Bind(params, GoEvals(g, args, s, k).value)
  {
    var n, ks, full := |params|, Kept(params, args, |params|), GoEvals(g, args, s, k).value;
    SelectEvals(g, args, s, k, ks);
    forall i | 0 <= i < n && args[i] == Ident(params[i]) ensures full[i] == s[params[i]] {
      GoEvalsAt(g, args, s, k, i);
    }
    KeptBind(params, args, full, s, n);
    assert params[..n] == params && full[..n] == full;
    Overwritten(s, Bind(params, full));
  }

  lemma Overwritten(s: Store, m: Store)
    requires s.Keys == m.Keys
    ensures s + m == m
  {
  }

  lemma KeptSuffice(g: GoWorld, params: seq<string>, args: seq<Expr>, s: Store, k: nat)
    requires |args| == |params| && s.Keys == set p | p in params
    requires GoEvals(g, Select(args, Kept(params, args, |params|)), s, k).Some?
    ensures GoEvals(g, args, s, k).Some?
  {
    var ks := Kept(params, args, |params|);
    forall i | 0 <= i < |args| ensures GoEval(g, args[i], s, k).Some? {
      if args[i] == Ident(params[i]) {
        assert params[i] in s;
      } else {
        KeptHolds(params, args, |params|, i);
        var m :| 0 <= m < |ks| && ks[m] == i;
        GoEvalsAt(g, Select(args, ks), s, k, m);
      }
    }
    GoEvalsFrom(g, args, s, k);
  }

  lemma {:induction false} KeptHolds(params: seq<string>, args: seq<Expr>, n: nat, i: nat)
    requires i < n <= |params| && n <= |args| && args[i] != Ident(params[i])
    ensures exists m :: 0 <= m < |Kept(params, args, n)| && Kept(params, args, n)[m] == i
    decreases n
  {
    var ks := Kept(params, args, n);
    if i == n - 1 {
      assert ks[|ks| - 1] == i;
    } else {
      KeptHolds(params, args, n - 1, i);
      var m :| 0 <= m < |Kept(params, args, n - 1)| && Kept(params, args, n - 1)[m] == i;
      assert ks[m] == i;
    }
  }

  lemma ReplacementExecutes(g: GoWorld, params: seq<string>, tag: string, args: seq<Expr>, s: Store, k: nat)
    requires |args| == |params|
    ensures var ks := Kept(params, args, |params|);
            var rhs := GoEvals(g, Select(args, ks), s, k);
            Exec(g, [Replacement(params, tag, args)], s, k)
            == if rhs.Some? then Continued(s + Bind(Select(params, ks), rhs.value), tag) else NoAnswer
  {
    var ks, r := Kept(params, args, |params|), Replacement(params, tag, args);
    if ks == [] {
      assert s + Bind(Select(params, ks), []) == s;
    } else {
      assert NamesOf(Idents(Select(params, ks))) == Select(params, ks);
      AssignThenContinue(g, r.list[0], tag, s, k);
      SingleBlock(g, r, s, k);
    }
  }

  lemma SingleBlock(g: GoWorld, b: Stmt, s: Store, k: nat)
    requires b.Block?
    ensures Exec(g, [b], s, k) == Exec(g, b.list, s, k)
  {
    var none: seq<Stmt> := [b][1..];
    assert none == [];
  }

  lemma AssignThenContinue(g: GoWorld, a: Stmt, tag: string, s: Store, k: nat)
    requires a.Assign? && !a.define && Names(a.lhs) && |a.lhs| == |a.rhs|
    ensures Exec(g, [a, Branch(true, tag)], s, k)
         == if GoEvals(g, a.rhs, s, k).Some? then Continued(Updated(s, a.lhs, GoEvals(g, a.rhs, s, k).value), tag)
             else NoAnswer
  {
    assert [a, Branch(true, tag)][1..] == [Branch(true, tag)];
  }

  lemma {:induction false} BodyRefines(
      srcs: Sources, g: GoWorld, w: World, fn: string, ss: seq<Stmt>, s: Store, k: nat) returns (m: nat)
    requires Compiled(srcs, g, w) && fn in srcs && s.Keys == set p | p in srcs[fn].params
    requires Authored(Tags(srcs[fn].body), ss) && ElabBlock(CtxOf(srcs, g.resolve, fn), ss).Ok?
    ensures Means(srcs, w, fn, ElabBlock(CtxOf(srcs, g.resolve, fn), ss).value, s,
                  Exec(g, LowerBlock(srcs[fn].params, srcs[fn].tag, ss), s, k), m)
    decreases k, 1, Size(ss)
  {
    var c, src := CtxOf(srcs, g.resolve, fn), srcs[fn];
    assert AuthoredStmt(Tags(src.body), ss[0]);
    var ls := LowerBlock(src.params, src.tag, ss);
    m := 0;
    match ss[0]
    case ExprStmt(x) =>
      assert ls == [Replacement(src.params, src.tag, x.args)];
      RecurContinues(g, src.params, src.tag, x.args, s, k);
      m := RecurRefines(srcs, g, w, fn, x.args, s, k, Exec(g, ls, s, k));
    case Return(results) =>
      assert ls == ss;
      if GoEval(g, results[0], s, k).Some? {
        m := EvalRefines(srcs, g, w, c, results[0], s, k);
      }
    case IfStmt(_, cond, _, _) =>
      if GoCond(g, cond, s, k).Some? {
        m := IfRefines(srcs, g, w, fn, ss, s, k);
      }
    case Block(list) =>
      HandWrittenContinues(g, c, src.tag, ss[0], s, k);
      assert ls == [ss[0]] && ss == [ss[0]];
      m := RecurRefines(srcs, g, w, fn, list[0].rhs, s, k, Exec(g, ls, s, k));
  }

  /** A state a recursive call on `args` would start in, or no answer when an argument has none. */
  ghost predicate Recurs(g: GoWorld, params: seq<string>, args: seq<Expr>, s: Store, k: nat, o: Outcome)
    requires |args| == |params|
  {
    var vs := GoEvals(g, args, s, k);
    if vs.Some? then o.Continued? && o.s == Bind(params, vs.value) else o.NoAnswer?
  }

  /** The hand-written form: all parameters assigned, then continue. */
  lemma HandWrittenContinues(g: GoWorld, c: Ctx, tag: string, b: Stmt, s: Store, k: nat)
    requires b.Block? && |b.list| == 2 && RecurAssignment(c, b.list[0]) && b.list[1].Branch? && b.list[1].continues
    requires s.Keys == set p | p in c.params
    ensures LowerBlock(c.params, tag, [b]) == [b]
    ensures Recurs(g, c.params, b.list[0].rhs, s, k, Exec(g, [b], s, k))
    ensures Exec(g, [b], s, k).Continued? ==> Exec(g, [b], s, k).tag == b.list[1].target
  {
    var a := b.list[0];
    PairRebind(c.params, tag, b.list);
    assert b.list == [a, Branch(true, b.list[1].target)];
    SingleBlock(g, b, s, k);
    AssignThenContinue(g, a, b.list[1].target, s, k);
    assert NamesOf(a.lhs) == c.params;
    if GoEvals(g, a.rhs, s, k).Some? {
      Overwritten(s, Bind(c.params, GoEvals(g, a.rhs, s, k).value));
    }
  }

  lemma {:induction false} RecurRefines(
      srcs: Sources, g: GoWorld, w: World, fn: string, args: seq<Expr>, s: Store, k: nat, o: Outcome) returns (m: nat)
    requires Compiled(srcs, g, w) && fn in srcs && s.Keys == set p | p in srcs[fn].params
    requires ElabRecur(CtxOf(srcs, g.resolve, fn), args).Ok? && forall i | 0 <= i < |args| :: PlainExpr(args[i])
    requires Recurs(g, srcs[fn].params, args, s, k, o)
    ensures Means(srcs, w, fn, ElabRecur(CtxOf(srcs, g.resolve, fn), args).value, s, o, m)
    decreases k, 1, 0
  {
    m := 0;
    if o.Continued? {
      var vs := GoEvals(g, args, s, k).value;
      var c := CtxOf(srcs, g.resolve, fn);
      var i := EvalsRefine(srcs, g, w, c, args, s, k);
      m := i + 1;
      CallHandsOver(w, fn, ElabExprs(c, args).value, vs, s, i);
    }
  }

  lemma CallHandsOver(w: World, fn: string, ts: seq<Term>, vs: seq<int>, s: Store, i: nat)
    requires fn in w.defs && |vs| == |w.defs[fn].params| && RefAll(w, ts, s, i) == Some(vs)
    ensures HandsOver(w, Call(fn, ts), s, w.defs[fn].body, Bind(w.defs[fn].params, vs), i + 1)
  {
    var body, s' := w.defs[fn].body, Bind(w.defs[fn].params, vs);
    forall j: nat, d: nat | Ref(w, body, s', j).Some? && d >= i + 1 + j
      ensures Ref(w, Call(fn, ts), s, d) == Ref(w, body, s', j)
    {
      RefAllMonotone(w, ts, s, i, d - 1);
      RefMonotone(w, body, s', j, d - 1);
    }
  }

  lemma {:induction false} IfRefines(
      srcs: Sources, g: GoWorld, w: World, fn: string, ss: seq<Stmt>, s: Store, k: nat) returns (m: nat)
    requires Compiled(srcs, g, w) && fn in srcs && s.Keys == set p | p in srcs[fn].params
    requires Authored(Tags(srcs[fn].body), ss) && ss != [] && ss[0].IfStmt? && GoCond(g, ss[0].cond, s, k).Some?
    requires ElabBlock(CtxOf(srcs, g.resolve, fn), ss).Ok?
    ensures Means(srcs, w, fn, ElabBlock(CtxOf(srcs, g.resolve, fn), ss).value, s,
                  Exec(g, LowerBlock(srcs[fn].params, srcs[fn].tag, ss), s, k), m)
    decreases k, 1, Size(ss), 0
  {
    var c, src := CtxOf(srcs, g.resolve, fn), srcs[fn];
    var t, b := ElabBlock(c, ss).value, GoCond(g, ss[0].cond, s, k).value;
    OnwardElaborates(c, Tags(src.body), ss, b);
    var i := CondRefines(srcs, g, w, c, ss[0], t, s, k);
    var o := Exec(g, LowerBlock(src.params, src.tag, Onward(ss[0], ss[1..], b)), s, k);
    var d := BodyRefines(srcs, g, w, fn, Onward(ss[0], ss[1..], b), s, k);
    BranchMeans(srcs, w, fn, t, b, s, o, i, d);
    OnwardExecutes(g, src.params, src.tag, ss, s, k);
    m := Max(i, d) + 1;
  }

  lemma {:induction false} CondRefines(
      srcs: Sources, g: GoWorld, w: World, c: Ctx, st: Stmt, t: Term, s: Store, k: nat) returns (m: nat)
    requires Compiled(srcs, g, w) && c.resolve == g.resolve
    requires ElabIfGives(c, st, t) && GoCond(g, st.cond, s, k).Some?
    ensures Ref(w, t.a, s, m).Some? && Ref(w, t.b, s, m).Some?
    ensures GoCond(g, st.cond, s, k) == Some(Compare(t.cmp, Ref(w, t.a, s, m).value, Ref(w, t.b, s, m).value))
    decreases k, 1, 0
  {
    var i := EvalRefines(srcs, g, w, c, st.cond.l, s, k);
    var j := EvalRefines(srcs, g, w, c, st.cond.r, s, k);
    m := Max(i, j);
    RefMonotone(w, t.a, s, i, m);
    RefMonotone(w, t.b, s, j, m);
  }

  lemma BranchMeans(srcs: Sources, w: World, fn: string, t: Term, b: bool, s: Store, o: Outcome, i: nat, d: nat)
    requires fn in srcs && fn in w.defs && t.If?
    requires Ref(w, t.a, s, i).Some? && Ref(w, t.b, s, i).Some?
    requires b == Compare(t.cmp, Ref(w, t.a, s, i).value, Ref(w, t.b, s, i).value)
    requires Means(srcs, w, fn, if b then t.thn else t.els, s, o, d)
    ensures Means(srcs, w, fn, t, s, o, Max(i, d) + 1)
  {
    var m, taken := Max(i, d) + 1, if b then t.thn else t.els;
    if o.Answered? {
      IfAt(w, t, s, i, d, m - 1);
    } else if o.Continued? {
      var body := w.defs[fn].body;
      forall j: nat, e: nat | Ref(w, body, o.s, j).Some? && e >= m + j ensures Ref(w, t, s, e) == Ref(w, body, o.s, j) {
        IfAt(w, t, s, i, d + j, e - 1);
      }
    }
  }

  /** An if answers what its taken branch answers. */
  lemma IfAt(w: World, t: Term, s: Store, i: nat, j: nat, d: nat)
    requires t.If? && i <= d && j <= d && Ref(w, t.a, s, i).Some? && Ref(w, t.b, s, i).Some?
    requires var taken := if Compare(t.cmp, Ref(w, t.a, s, i).value, Ref(w, t.b, s, i).value) then t.thn else t.els;
             Ref(w, taken, s, j).Some?
    ensures Ref(w, t, s, d + 1)
         == Ref(w, if Compare(t.cmp, Ref(w, t.a, s, i).value, Ref(w, t.b, s, i).value) then t.thn else t.els, s, j)
  {
    RefMonotone(w, t.a, s, i, d);
    RefMonotone(w, t.b, s, i, d);
    RefMonotone(w, if Compare(t.cmp, Ref(w, t.a, s, i).value, Ref(w, t.b, s, i).value) then t.thn else t.els, s, j, d);
  }

  lemma {:induction false} NoRecurUnchanged(params: seq<string>, tag: string, ss: seq<Stmt>)
    requires !HasRecur(ss)
    ensures LowerBlock(params, tag, ss) == ss
    decreases ss
  {
    if ss != [] {
      NoRecurUnchangedIn(params, tag, ss[0]);
      NoRecurUnchanged(params, tag, ss[1..]);
    }
  }

  lemma {:induction false} NoRecurUnchangedIn(params: seq<string>, tag: string, s: Stmt)
    requires !HasRecurIn(s)
    ensures LowerStmt(params, tag, s) == s
    decreases s
  {
    match s
    case IfStmt(_, _, body, els) =>
      NoRecurUnchanged(params, tag, body);
      if els.Some? {
        NoRecurUnchangedIn(params, tag, els.value);
      }
    case Block(list) => NoRecurUnchanged(params, tag, list);
    case Labeled(_, stmt) => NoRecurUnchangedIn(params, tag, stmt);
    case For(_, loop) => NoRecurUnchanged(params, tag, loop);
    case _ =>
  }

  // ------------------------------------------- every answer of the term is Go's

  lemma {:induction false} EvalReflects(srcs: Sources, g: GoWorld, w: World, c: Ctx, x: Expr, s: Store, k: nat)
      returns (m: nat)
    requires Compiled(srcs, g, w) && c.resolve == g.resolve && PlainExpr(x) && ElabExpr(c, x).Ok?
    requires Ref(w, ElabExpr(c, x).value, s, k).Some?
    ensures GoEval(g, x, s, m) == Ref(w, ElabExpr(c, x).value, s, k)
    decreases k, 0, x
  {
    match x
    case Ident(_) => m := 0;
    case IntLit(_) => m := 0;
    case Paren(y) => m := EvalReflects(srcs, g, w, c, y, s, k);
    case Binary(_, l, r) =>
      var i := EvalReflects(srcs, g, w, c, l, s, k - 1);
      var j := EvalReflects(srcs, g, w, c, r, s, k - 1);
      m := Max(i, j);
      GoEvalMonotone(g, l, s, i, m);
      GoEvalMonotone(g, r, s, j, m);
    case CallExpr(fun, args, _) =>
      m := CallExprReflects(srcs, g, w, c, x, s, k);
  }

  lemma {:induction false} CallExprReflects(srcs: Sources, g: GoWorld, w: World, c: Ctx, x: Expr, s: Store, k: nat)
      returns (m: nat)
    requires Compiled(srcs, g, w) && c.resolve == g.resolve && PlainExpr(x) && x.CallExpr? && ElabExpr(c, x).Ok?
    requires Ref(w, ElabExpr(c, x).value, s, k).Some?
    ensures GoEval(g, x, s, m) == Ref(w, ElabExpr(c, x).value, s, k)
    decreases k - 1, 4
  {
    var fn, ts := g.resolve(x.fun).value, ElabExprs(c, x.args).value;
    var vs := RefAll(w, ts, s, k - 1).value;
    var i := EvalsReflect(srcs, g, w, c, x.args, s, k - 1);
    var j := CallReflects(srcs, g, w, fn, vs, k - 1);
    m := CallAnswers(g, x, s, fn, vs, i, j);
  }

  lemma CallAnswers(g: GoWorld, x: Expr, s: Store, fn: string, vs: seq<int>, i: nat, j: nat) returns (m: nat)
    requires x.CallExpr? && !x.ellipsis && g.resolve(x.fun) == Some(fn)
    requires GoEvals(g, x.args, s, i) == Some(vs) && GoCall(g, fn, vs, j).Some?
    ensures GoEval(g, x, s, m) == GoCall(g, fn, vs, j)
  {
    m := Max(i, j) + 1;
    GoEvalsMonotone(g, x.args, s, i, m);
    GoCallMonotone(g, fn, vs, j, m - 1);
  }

  lemma {:induction false} EvalsReflect(srcs: Sources, g: GoWorld, w: World, c: Ctx, xs: seq<Expr>, s: Store, k: nat)
      returns (m: nat)
    requires Compiled(srcs, g, w) && c.resolve == g.resolve && ElabExprs(c, xs).Ok?
    requires forall i | 0 <= i < |xs| :: PlainExpr(xs[i])
    requires RefAll(w, ElabExprs(c, xs).value, s, k).Some?
    ensures GoEvals(g, xs, s, m) == RefAll(w, ElabExprs(c, xs).value, s, k)
    decreases k, 0, xs
  {
    m := 0;
    if xs != [] {
      var i := EvalReflects(srcs, g, w, c, xs[0], s, k);
      var j := EvalsReflect(srcs, g, w, c, xs[1..], s, k);
      m := Max(i, j);
      GoEvalMonotone(g, xs[0], s, i, m);
      GoEvalsMonotone(g, xs[1..], s, j, m);
    }
  }

  lemma {:induction false} CallReflects(srcs: Sources, g: GoWorld, w: World, fn: string, vs: seq<int>, k: nat)
      returns (m: nat)
    requires Compiled(srcs, g, w) && Apply(w, fn, vs, k).Some?
    ensures GoCall(g, fn, vs, m) == Apply(w, fn, vs, k)
    decreases k, 3
  {
    m := 0;
    if fn in w.defs {
      var j;
      GeneratedCore(srcs[fn]);
      m, j := NestReflects(srcs, g, w, fn, g.funcs[fn].body, Bind(srcs[fn].params, vs), k);
    }
  }

  /** Running the loops around the core: an answer, or a state for an outer loop that the body answers from sooner. */
  lemma {:induction false} NestReflects(
      srcs: Sources, g: GoWorld, w: World, fn: string, ss: seq<Stmt>, s: Store, k: nat)
      returns (m: nat, j: nat)
    requires Compiled(srcs, g, w) && fn in srcs && s.Keys == set p | p in srcs[fn].params
    requires Core(ss) == LowerBlock(srcs[fn].params, srcs[fn].tag, Core(srcs[fn].body))
    requires Ref(w, w.defs[fn].body, s, k).Some?
    ensures StandsFor(srcs, w, fn, Exec(g, ss, s, m), Ref(w, w.defs[fn].body, s, k).value, k, j)
    ensures Leaves(Tags(g.funcs[fn].body), ss, Exec(g, ss, s, m))
    decreases k, 2, Size(ss), 1
  {
    if !Looped(ss) {
      m, j := CoreReflects(srcs, g, w, fn, s, k);
    } else {
      m, j := LoopReflects(srcs, g, w, fn, ss, s, k);
    }
  }

  lemma {:induction false} LoopReflects(
      srcs: Sources, g: GoWorld, w: World, fn: string, ss: seq<Stmt>, s: Store, k: nat)
      returns (m: nat, j: nat)
    requires Compiled(srcs, g, w) && fn in srcs && s.Keys == set p | p in srcs[fn].params
    requires Looped(ss) && Core(ss) == LowerBlock(srcs[fn].params, srcs[fn].tag, Core(srcs[fn].body))
    requires Ref(w, w.defs[fn].body, s, k).Some?
    ensures StandsFor(srcs, w, fn, Exec(g, ss, s, m), Ref(w, w.defs[fn].body, s, k).value, k, j)
    ensures Leaves(Tags(g.funcs[fn].body), ss, Exec(g, ss, s, m))
    decreases k, 2, Size(ss), 0
  {
    m, j := NestReflects(srcs, g, w, fn, ss[0].stmt.loop, s, k);
    var turn := Exec(g, ss[0].stmt.loop, s, m);
    if Restarts(turn, ss[0].tag) {
      var i, j' := NestReflects(srcs, g, w, fn, ss, turn.s, j);
      NextTurn(g, ss, s, turn, m, i);
      m, j := Max(m, i) + 1, j';
    } else {
      LoopTurn(g, ss, s, m);
      m := m + 1;
    }
  }

  /** A continue goes to a loop further out. */
  predicate Leaves(tags: set<string>, ss: seq<Stmt>, o: Outcome) {
    o.Continued? ==> o.tag in tags && o.tag !in Labels(ss) && (Looped(ss) ==> o.tag != "")
  }

  lemma NextTurn(g: GoWorld, ss: seq<Stmt>, s: Store, turn: Outcome, m: nat, i: nat)
    requires Looped(ss) && turn == Exec(g, ss[0].stmt.loop, s, m) && Restarts(turn, ss[0].tag)
    requires var o := Exec(g, ss, turn.s, i); o.Answered? || o.Continued?
    ensures Exec(g, ss, s, Max(m, i) + 1) == Exec(g, ss, turn.s, i)
  {
    var d := Max(m, i);
    ExecMonotone(g, ss[0].stmt.loop, s, m, d);
    ExecMonotone(g, ss, turn.s, i, d);
    LoopTurn(g, ss, s, d);
  }

  lemma {:induction false} CoreReflects(srcs: Sources, g: GoWorld, w: World, fn: string, s: Store, k: nat)
      returns (m: nat, j: nat)
    requires Compiled(srcs, g, w) && fn in srcs && s.Keys == set p | p in srcs[fn].params
    requires Ref(w, w.defs[fn].body, s, k).Some?
    ensures var o := Exec(g, LowerBlock(srcs[fn].params, srcs[fn].tag, Core(srcs[fn].body)), s, m);
            && StandsFor(srcs, w, fn, o, Ref(w, w.defs[fn].body, s, k).value, k, j)
            && (o.Continued? ==> o.tag in Tags(g.funcs[fn].body))
    decreases k, 2, 0, 0
  {
    var src := srcs[fn];
    CoreElaborates(CtxOf(srcs, g.resolve, fn), src.body);
    m, j := BodyReflects(srcs, g, w, fn, Core(src.body), s, k);
    GeneratedCore(src);
    ContinuesWithin(g, src.params, src.tag, Tags(src.body), Core(src.body), s, m);
  }

  /** Not a continue, or one to a loop in scope. */
  predicate Within(o: Outcome, tags: set<string>, recurs: bool, tag: string) {
    o.Continued? ==> o.tag in tags || (recurs && o.tag == tag)
  }

  /** A continue goes to the loop lowering adds, when there is a recur, or to one the author wrote. */
  lemma {:induction false} ContinuesWithin(
      g: GoWorld, params: seq<string>, tag: string, tags: set<string>, ss: seq<Stmt>, s: Store, k: nat)
    requires Authored(tags, ss)
    ensures Within(Exec(g, LowerBlock(params, tag, ss), s, k), tags, HasRecur(ss), tag)
    decreases Size(ss), 0
  {
    if ss != [] {
      assert AuthoredStmt(tags, ss[0]);
      forall s' ensures Within(Exec(g, LowerBlock(params, tag, ss[1..]), s', k), tags, HasRecur(ss[1..]), tag) {
        ContinuesWithin(g, params, tag, tags, ss[1..], s', k);
      }
      match ss[0]
      case ExprStmt(x) => RecurWithin(g, params, tag, x, ss, s, k);
      case IfStmt(_, cond, body, els) =>
        ContinuesWithin(g, params, tag, tags, body, s, k);
        if els.Some? {
          ElseWithin(g, params, tag, tags, els.value, s, k);
        }
        IfWithin(g, params, tag, tags, ss, s, k);
      case Block(list) =>
        BlockWithin(g, params, tag, tags, ss, s, k);
      case _ =>
    }
  }

  lemma IfWithin(g: GoWorld, params: seq<string>, tag: string, tags: set<string>, ss: seq<Stmt>, s: Store, k: nat)
    requires ss != [] && ss[0].IfStmt?
    requires Within(Exec(g, LowerBlock(params, tag, ss[0].body), s, k), tags, HasRecur(ss[0].body), tag)
    requires ss[0].els.Some? ==>
      Within(Exec(g, [LowerStmt(params, tag, ss[0].els.value)], s, k), tags, HasRecurIn(ss[0].els.value), tag)
    requires forall s' :: Within(Exec(g, LowerBlock(params, tag, ss[1..]), s', k), tags, HasRecur(ss[1..]), tag)
    ensures Within(Exec(g, LowerBlock(params, tag, ss), s, k), tags, HasRecur(ss), tag)
  {
    var ls := LowerBlock(params, tag, ss);
    assert ls[0] == LowerStmt(params, tag, ss[0]) && ls[1..] == LowerBlock(params, tag, ss[1..]);
    assert HasRecur(ss) <==> HasRecurIn(ss[0]) || HasRecur(ss[1..]);
  }

  lemma BlockWithin(g: GoWorld, params: seq<string>, tag: string, tags: set<string>, ss: seq<Stmt>, s: Store, k: nat)
    requires ss != [] && ss[0].Block? && AuthoredStmt(tags, ss[0])
    ensures Within(Exec(g, LowerBlock(params, tag, ss), s, k), tags, HasRecur(ss), tag)
  {
    PairRebind(params, tag, ss[0].list);
    PairWithin(g, ss[0].list, s, k);
    assert LowerBlock(params, tag, ss)[0] == LowerStmt(params, tag, ss[0]) == ss[0];
  }

  lemma RecurWithin(g: GoWorld, params: seq<string>, tag: string, x: Expr, ss: seq<Stmt>, s: Store, k: nat)
    requires ss != [] && ss[0] == ExprStmt(x)
    ensures var o := Exec(g, LowerBlock(params, tag, ss), s, k); o.Continued? ==> HasRecur(ss) && o.tag == tag
  {
    var ls := LowerBlock(params, tag, ss);
    if IsRecur(x) && |x.args| == |params| && ls[0].Block? {
      PairWithin(g, ls[0].list, s, k);
    }
  }

  /** An assignment and a continue. */
  lemma PairWithin(g: GoWorld, list: seq<Stmt>, s: Store, k: nat)
    requires |list| == 2 && list[0].Assign? && list[1].Branch? && list[1].continues
    ensures var o := Exec(g, list, s, k); o.NoAnswer? || (o.Continued? && o.tag == list[1].target)
  {
    assert list[1..] == [list[1]];
  }

  lemma {:induction false} ElseWithin(
      g: GoWorld, params: seq<string>, tag: string, tags: set<string>, e: Stmt, s: Store, k: nat)
    requires if e.Block? then Authored(tags, e.list) else e.IfStmt? && AuthoredStmt(tags, e)
    ensures Within(Exec(g, [LowerStmt(params, tag, e)], s, k), tags, HasRecurIn(e), tag)
    decreases SizeOf(e), 1
  {
    if e.Block? {
      ContinuesWithin(g, params, tag, tags, e.list, s, k);
      LoweredBlock(params, tag, e);
      SingleBlock(g, LowerStmt(params, tag, e), s, k);
    } else {
      ContinuesWithin(g, params, tag, tags, [e], s, k);
      LoweredSingle(params, tag, e);
    }
  }

  lemma LoweredBlock(params: seq<string>, tag: string, e: Stmt)
    requires e.Block?
    ensures LowerStmt(params, tag, e) == Block(LowerBlock(params, tag, e.list)) && HasRecurIn(e) == HasRecur(e.list)
  {
  }

  lemma LoweredSingle(params: seq<string>, tag: string, e: Stmt)
    ensures LowerBlock(params, tag, [e]) == [LowerStmt(params, tag, e)] && HasRecur([e]) == HasRecurIn(e)
  {
    assert [e][1..] == [];
  }

  /** The outcome that stands for the answer of `t`: the answer itself, or a state the body answers from sooner. */
  ghost predicate StandsFor(srcs: Sources, w: World, fn: string, o: Outcome, n: int, k: nat, j: nat)
    requires fn in srcs && fn in w.defs
  {
    || o == Answered(n)
    || (o.Continued? && o.s.Keys == (set p | p in srcs[fn].params)
        && j < k && Ref(w, w.defs[fn].body, o.s, j) == Some(n))
  }

  lemma {:induction false} BodyReflects(
      srcs: Sources, g: GoWorld, w: World, fn: string, ss: seq<Stmt>, s: Store, k: nat) returns (m: nat, j: nat)
    requires Compiled(srcs, g, w) && fn in srcs && s.Keys == set p | p in srcs[fn].params
    requires Authored(Tags(srcs[fn].body), ss) && ElabBlock(CtxOf(srcs, g.resolve, fn), ss).Ok?
    requires Ref(w, ElabBlock(CtxOf(srcs, g.resolve, fn), ss).value, s, k).Some?
    ensures StandsFor(srcs, w, fn, Exec(g, LowerBlock(srcs[fn].params, srcs[fn].tag, ss), s, m),
                      Ref(w, ElabBlock(CtxOf(srcs, g.resolve, fn), ss).value, s, k).value, k, j)
    decreases k, 1
  {
    var c, src := CtxOf(srcs, g.resolve, fn), srcs[fn];
    assert AuthoredStmt(Tags(src.body), ss[0]);
    m, j := 0, 0;
    match ss[0]
    case ExprStmt(x) =>
      assert LowerBlock(src.params, src.tag, ss) == [Replacement(src.params, src.tag, x.args)];
      m, j := RecurReflects(srcs, g, w, fn, x.args, s, k);
      RecurContinues(g, src.params, src.tag, x.args, s, m);
    case Return(results) =>
      assert LowerBlock(src.params, src.tag, ss) == ss;
      m := EvalReflects(srcs, g, w, c, results[0], s, k);
    case IfStmt(_, _, _, _) =>
      m, j := IfReflects(srcs, g, w, fn, ss, s, k);
    case Block(list) =>
      assert ss == [ss[0]];
      m, j := RecurReflects(srcs, g, w, fn, list[0].rhs, s, k);
      HandWrittenContinues(g, c, src.tag, ss[0], s, m);
  }

  /** Where the arguments have their values, the state they are bound in stands for the call. */
  lemma {:induction false} RecurReflects(
      srcs: Sources, g: GoWorld, w: World, fn: string, args: seq<Expr>, s: Store, k: nat) returns (m: nat, j: nat)
    requires Compiled(srcs, g, w) && fn in srcs && s.Keys == set p | p in srcs[fn].params
    requires ElabRecur(CtxOf(srcs, g.resolve, fn), args).Ok? && forall i | 0 <= i < |args| :: PlainExpr(args[i])
    requires Ref(w, ElabRecur(CtxOf(srcs, g.resolve, fn), args).value, s, k).Some?
    ensures forall o | Recurs(g, srcs[fn].params, args, s, m, o) ::
              StandsFor(srcs, w, fn, o, Ref(w, ElabRecur(CtxOf(srcs, g.resolve, fn), args).value, s, k).value, k, j)
    decreases k, 0
  {
    var c := CtxOf(srcs, g.resolve, fn);
    m := EvalsReflect(srcs, g, w, c, args, s, k - 1);
    j := k - 1;
  }

  lemma {:induction false} IfReflects(
      srcs: Sources, g: GoWorld, w: World, fn: string, ss: seq<Stmt>, s: Store, k: nat) returns (m: nat, j: nat)
    requires Compiled(srcs, g, w) && fn in srcs && s.Keys == set p | p in srcs[fn].params
    requires Authored(Tags(srcs[fn].body), ss) && ss != [] && ss[0].IfStmt?
        && ElabBlock(CtxOf(srcs, g.resolve, fn), ss).Ok?
    requires Ref(w, ElabBlock(CtxOf(srcs, g.resolve, fn), ss).value, s, k).Some?
    ensures StandsFor(srcs, w, fn, Exec(g, LowerBlock(srcs[fn].params, srcs[fn].tag, ss), s, m),
                      Ref(w, ElabBlock(CtxOf(srcs, g.resolve, fn), ss).value, s, k).value, k, j)
    decreases k, 0
  {
    var c, src := CtxOf(srcs, g.resolve, fn), srcs[fn];
    var t := ElabBlock(c, ss).value;
    IfCondition(c, Tags(src.body), ss);
    var x, y := RefIf(w, t, s, k);
    var b := Compare(t.cmp, x, y);
    var i := CondReflects(srcs, g, w, c, ss[0], t, s, k - 1, x, y);
    m, j := BranchReflects(srcs, g, w, fn, ss, t, s, k - 1, b, i);
  }

  lemma {:induction false} BranchReflects(
      srcs: Sources, g: GoWorld, w: World, fn: string, ss: seq<Stmt>, t: Term, s: Store, k: nat, b: bool, i: nat)
      returns (m: nat, j: nat)
    requires Compiled(srcs, g, w) && fn in srcs && s.Keys == set p | p in srcs[fn].params
    requires Authored(Tags(srcs[fn].body), ss) && ss != [] && ss[0].IfStmt?
        && ElabBlock(CtxOf(srcs, g.resolve, fn), ss) == Ok(t) && t.If?
    requires Ref(w, if b then t.thn else t.els, s, k).Some? && GoCond(g, ss[0].cond, s, i) == Some(b)
    ensures StandsFor(srcs, w, fn, Exec(g, LowerBlock(srcs[fn].params, srcs[fn].tag, ss), s, m),
                      Ref(w, if b then t.thn else t.els, s, k).value, k + 1, j)
    decreases k, 2
  {
    var src := srcs[fn];
    OnwardElaborates(CtxOf(srcs, g.resolve, fn), Tags(src.body), ss, b);
    var d;
    d, j := BodyReflects(srcs, g, w, fn, Onward(ss[0], ss[1..], b), s, k);
    m := GoneOnward(g, src.params, src.tag, ss, s, b, i, d);
  }

  lemma IfCondition(c: Ctx, tags: set<string>, ss: seq<Stmt>)
    requires ss != [] && ss[0].IfStmt? && Authored(tags, ss) && ElabBlock(c, ss).Ok?
    ensures ElabIfGives(c, ss[0], ElabBlock(c, ss).value)
  {
    OnwardElaborates(c, tags, ss, true);
  }

  lemma RefIf(w: World, t: Term, s: Store, k: nat) returns (x: int, y: int)
    requires t.If? && Ref(w, t, s, k).Some?
    ensures k > 0 && Ref(w, t.a, s, k - 1) == Some(x) && Ref(w, t.b, s, k - 1) == Some(y)
    ensures Ref(w, t, s, k) == Ref(w, if Compare(t.cmp, x, y) then t.thn else t.els, s, k - 1)
  {
    x, y := Ref(w, t.a, s, k - 1).value, Ref(w, t.b, s, k - 1).value;
  }

  lemma GoneOnward(
      g: GoWorld, params: seq<string>, tag: string, ss: seq<Stmt>, s: Store, b: bool, i: nat, d: nat)
      returns (m: nat)
    requires ss != [] && ss[0].IfStmt? && !ss[0].hasInit && (ss[0].els.None? || |ss| == 1)
    requires GoCond(g, ss[0].cond, s, i) == Some(b)
    requires var o := Exec(g, LowerBlock(params, tag, Onward(ss[0], ss[1..], b)), s, d); o.Answered? || o.Continued?
    ensures Exec(g, LowerBlock(params, tag, ss), s, m)
        == Exec(g, LowerBlock(params, tag, Onward(ss[0], ss[1..], b)), s, d)
  {
    m := Max(i, d);
    GoCondMonotone(g, ss[0].cond, s, i, m);
    ExecMonotone(g, LowerBlock(params, tag, Onward(ss[0], ss[1..], b)), s, d, m);
    OnwardExecutes(g, params, tag, ss, s, m);
  }

  lemma {:induction false} CondReflects(
      srcs: Sources, g: GoWorld, w: World, c: Ctx, st: Stmt, t: Term, s: Store, k: nat, x: int, y: int)
      returns (m: nat)
    requires Compiled(srcs, g, w) && c.resolve == g.resolve
    requires ElabIfGives(c, st, t) && Ref(w, t.a, s, k) == Some(x) && Ref(w, t.b, s, k) == Some(y)
    ensures GoCond(g, st.cond, s, m) == Some(Compare(t.cmp, x, y))
    decreases k, 1
  {
    var i := EvalReflects(srcs, g, w, c, st.cond.l, s, k);
    var j := EvalReflects(srcs, g, w, c, st.cond.r, s, k);
    m := Max(i, j);
    GoEvalMonotone(g, st.cond.l, s, i, m);
    GoEvalMonotone(g, st.cond.r, s, j, m);
  }

  /** The generated loops and the elaborated definitions answer the same, on every argument vector. */
  lemma LoweredLoopsAgree(srcs: Sources, g: GoWorld, w: World, fn: string, vs: seq<int>, n: int)
    requires Compiled(srcs, g, w)
    ensures (exists k :: GoCall(g, fn, vs, k) == Some(n)) <==> (exists k :: Apply(w, fn, vs, k) == Some(n))
  {
    if k :| GoCall(g, fn, vs, k) == Some(n) {
      var m := CallRefines(srcs, g, w, fn, vs, k);
    }
    if k :| Apply(w, fn, vs, k) == Some(n) {
      var m := CallReflects(srcs, g, w, fn, vs, k);
    }
  }
}
