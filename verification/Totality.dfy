/**
 * Termination checking (internal/core/total.go): every self-call must shrink
 * some argument, by the shape `param + c` with c <= -1.
 *
 * Main result: definitions accepted by both checkers in dependency order, one
 * parameter position descending at every self-call, answer a natural number on
 * every vector of naturals. The position hypothesis is needed, and so is the
 * order: a definition and a pair of definitions the checkers accept diverge.
 */
module Totality {
  import opened Options
  import opened Linear
  import opened Decider
  import opened Terms
  import opened Obligations

  /** Linearises over variables; products, calls and ifs opt out. */
  function SymbolicLin(t: Term): Option<Lin<string>> {
    match t
    case Nat(n) => Some(Const(n))
    case Var(x) => Some(Atom(x))
    case Prim(op, l, r) =>
      if op.Times? then None else
        var a, b := SymbolicLin(l), SymbolicLin(r);
        if a.Some? && b.Some? then Some(Add(a.value, b.value, if op.Plus? then 1 else -1)) else None
    case _ => None
  }

  /** `arg` is parameter `i` plus a constant of at most -1. */
  predicate Decreases(def: Def, arg: Term, i: nat)
    requires i < |def.params|
  {
    var l := SymbolicLin(arg);
    && l.Some?
    && l.value.c <= -1
    && |l.value.coef| == 1
    && At(l.value, def.params[i]) == 1
  }

  datatype Verdict = Accepted | NotCallable(fn: string) | WrongArity(got: nat) | ShrinksNothing

  function Walk(def: Def, callable: string -> bool, t: Term): Verdict {
    match t
    case Var(_) => Accepted
    case Nat(_) => Accepted
    case Prim(_, l, r) =>
      var a := Walk(def, callable, l);
      if a != Accepted then a else Walk(def, callable, r)
    case Call(fn, args) =>
      var a := WalkAll(def, callable, args);
      if a != Accepted then a else
      if fn != def.name then
        if callable(fn) then Accepted else NotCallable(fn)
      else if |args| != |def.params| then
        WrongArity(|args|)
      else if exists i: nat | i < |args| :: Decreases(def, args[i], i) then
        Accepted
      else
        ShrinksNothing
    case If(_, l, r, thn, els) =>
      var a := Walk(def, callable, l);
      if a != Accepted then a else
      var b := Walk(def, callable, r);
      if b != Accepted then b else
      var c := Walk(def, callable, thn);
      if c != Accepted then c else Walk(def, callable, els)
  }

  function WalkAll(def: Def, callable: string -> bool, ts: seq<Term>): Verdict {
    if ts == [] then Accepted else
      var a := Walk(def, callable, ts[0]);
      if a != Accepted then a else WalkAll(def, callable, ts[1..])
  }

  function CheckTotal(def: Def, callable: string -> bool): Verdict {
    Walk(def, callable, def.body)
  }

  /** At every self-call inside `t`, position `i` is the one that shrinks. */
  predicate DescendsAt(def: Def, t: Term, i: nat) {
    match t
    case Var(_) => true
    case Nat(_) => true
    case Prim(_, l, r) => DescendsAt(def, l, i) && DescendsAt(def, r, i)
    case Call(fn, args) =>
      && (forall j | 0 <= j < |args| :: DescendsAt(def, args[j], i))
      && (fn == def.name ==> i < |args| && i < |def.params| && Decreases(def, args[i], i))
    case If(_, l, r, thn, els) =>
      DescendsAt(def, l, i) && DescendsAt(def, r, i) && DescendsAt(def, thn, i) && DescendsAt(def, els, i)
  }

  // ------------------------------------------------------------- programs

  predicate Names(ds: seq<Def>, fn: string) {
    exists i | 0 <= i < |ds| :: ds[i].name == fn
  }

  /** What definition `j` may call besides itself: earlier definitions and functions of other packages. */
  function Callable(ds: seq<Def>, j: nat): string -> bool
    requires j <= |ds|
  {
    fn => Names(ds[..j], fn) || !Names(ds, fn)
  }

  /** What the Go type checker guarantees: variables are parameters and calls have the callee's arity. */
  predicate Scoped(ds: seq<Def>, params: seq<string>, t: Term) {
    match t
    case Var(x) => x in params
    case Nat(_) => true
    case Prim(_, l, r) => Scoped(ds, params, l) && Scoped(ds, params, r)
    case Call(fn, args) =>
      && (forall j | 0 <= j < |args| :: Scoped(ds, params, args[j]))
      && (forall i | 0 <= i < |ds| && ds[i].name == fn :: |ds[i].params| == |args|)
    case If(_, l, r, thn, els) =>
      Scoped(ds, params, l) && Scoped(ds, params, r) && Scoped(ds, params, thn) && Scoped(ds, params, els)
  }

  predicate WellFormed(ds: seq<Def>) {
    && (forall i, j | 0 <= i < j < |ds| :: ds[i].name != ds[j].name)
    && (forall j | 0 <= j < |ds| :: Distinct(ds[j].params) && Scoped(ds, ds[j].params, ds[j].body))
  }

  /** Both checkers accept every definition, in dependency order. */
  ghost predicate AcceptedProgram(ds: seq<Def>) {
    && WellFormed(ds)
    && forall j | 0 <= j < |ds| :: Admitted(ds[j]) && CheckTotal(ds[j], Callable(ds, j)) == Accepted
  }

  /** One descending position for each definition. */
  ghost predicate CommonPositions(ds: seq<Def>, pos: seq<nat>) {
    |pos| == |ds| && forall j | 0 <= j < |ds| :: DescendsAt(ds[j], ds[j].body, pos[j])
  }

  ghost predicate Program(w: World, ds: seq<Def>) {
    && AcceptedProgram(ds)
    && w.defs.Keys == (set j | 0 <= j < |ds| :: ds[j].name)
    && (forall j | 0 <= j < |ds| :: w.defs[ds[j].name] == ds[j])
    && (forall fn, vs :: w.ext(fn, vs) >= 0)
  }

  /** A world of one definition. */
  lemma OneProgram(w: World, def: Def)
    requires w.defs == map[def.name := def] && AcceptedProgram([def]) && forall fn, vs :: w.ext(fn, vs) >= 0
    ensures Program(w, [def])
  {
    var ds := [def];
    assert ds[0] == def;
    assert (set j | 0 <= j < |ds| :: ds[j].name) == {ds[0].name} == w.defs.Keys;
  }

  lemma ProgramAdmitted(w: World, ds: seq<Def>)
    requires Program(w, ds)
    ensures AdmittedWorld(w)
  {
    forall fn | fn in w.defs ensures Admitted(w.defs[fn]) {
      var j :| 0 <= j < |ds| && ds[j].name == fn;
    }
  }

  // ---------------------------------------------------------- termination

  ghost function StoreReading(s: Store): string -> int {
    x => if x in s then s[x] else 0
  }

  lemma SymbolicPrim(op: PrimOp, l: Term, r: Term, v: string -> int)
    requires SymbolicLin(Prim(op, l, r)).Some?
    ensures SymbolicLin(l).Some? && SymbolicLin(r).Some?
    ensures Val(SymbolicLin(Prim(op, l, r)).value, v)
         == Arith(op, Val(SymbolicLin(l).value, v), Val(SymbolicLin(r).value, v))
  {
    ValAdd(SymbolicLin(l).value, SymbolicLin(r).value, if op.Plus? then 1 else -1, v);
  }

  lemma {:induction false} SymbolicValue(w: World, t: Term, s: Store, k: nat)
    requires SymbolicLin(t).Some? && Ref(w, t, s, k).Some?
    ensures Ref(w, t, s, k).value == Val(SymbolicLin(t).value, StoreReading(s))
    decreases t
  {
    match t
    case Nat(n) =>
      ValConst(n, StoreReading(s));
    case Var(x) =>
      ValAtom(x, StoreReading(s));
    case Prim(op, l, r) =>
      SymbolicValue(w, l, s, k - 1);
      SymbolicValue(w, r, s, k - 1);
      SymbolicPrim(op, l, r, StoreReading(s));
  }

  lemma SingleAtom(l: Lin<string>, p: string)
    requires |l.coef| == 1 && At(l, p) == 1
    ensures l.coef == map[p := 1]
  {
    assert |l.coef.Keys - {p}| == 0;
    assert l.coef.Keys == {p};
  }

  /** A shrinking argument evaluates below its parameter. */
  lemma DecreasesBelow(w: World, def: Def, arg: Term, i: nat, s: Store, k: nat)
    requires i < |def.params| && Decreases(def, arg, i)
    requires Ref(w, arg, s, k).Some? && def.params[i] in s
    ensures Ref(w, arg, s, k).value < s[def.params[i]]
  {
    var l, p := SymbolicLin(arg).value, def.params[i];
    SymbolicValue(w, arg, s, k);
    SingleAtom(l, p);
    ValDrop(l, p, StoreReading(s));
    assert Drop(l, p).coef == map[];
  }

  lemma BindDistinct(params: seq<string>, vs: seq<int>, i: nat)
    requires |params| == |vs| && i < |params| && Distinct(params)
    ensures Bind(params, vs)[params[i]] == vs[i]
  {
    var j := BindIndex(params, vs, vs, params[i]);
  }

  /** The walk's reading of the parameter a definition descends on. */
  ghost function Size(def: Def, i: nat, s: Store): nat {
    if i < |def.params| && def.params[i] in s && s[def.params[i]] >= 0 then s[def.params[i]] else 0
  }

  ghost predicate HoldFrom(w: World, hyps: seq<Fact<Term>>, s: Store, k: nat) {
    forall top: nat | top >= k :: AllHold(hyps, Reading(w, s, top))
  }

  /** `t` is a part of definition j's body, reached under facts that hold from depth `base`. */
  ghost predicate Part(w: World, ds: seq<Def>, i: nat, j: nat, t: Term, hyps: seq<Fact<Term>>, s: Store, base: nat) {
    && j < |ds|
    && Scoped(ds, ds[j].params, t) && DescendsAt(ds[j], t, i) && Walk(ds[j], Callable(ds, j), t) == Accepted
    && Passes(t, hyps) && HoldFrom(w, hyps, s, base)
    && NaturalStore(s) && s.Keys == set p | p in ds[j].params
  }

  lemma {:induction false} PartAnswers(
      w: World, ds: seq<Def>, pos: seq<nat>, j: nat, t: Term, hyps: seq<Fact<Term>>, s: Store, base: nat)
      returns (k: nat)
    requires Program(w, ds) && CommonPositions(ds, pos) && j < |ds| && Part(w, ds, pos[j], j, t, hyps, s, base)
    ensures k >= base && Ref(w, t, s, k).Some? && Ref(w, t, s, k).value >= 0
    ensures forall top: nat | top >= k :: Sound(w, t, s, k, top)
    decreases j, Size(ds[j], pos[j], s), 0, t
  {
    match t {
      case Var(_) => k := base + 1;
      case Nat(_) => k := base + 1;
      case Prim(_, _, _) => k := PrimAnswers(w, ds, pos, j, t, hyps, s, base);
      case Call(_, _) => k := CallAnswers(w, ds, pos, j, t, hyps, s, base);
      case If(_, _, _, _, _) => k := IfAnswers(w, ds, pos, j, t, hyps, s, base);
    }
    PartSound(w, ds, t, hyps, s, base, k);
  }

  lemma PrimParts(w: World, ds: seq<Def>, i: nat, j: nat, t: Term, hyps: seq<Fact<Term>>, s: Store, base: nat)
    requires t.Prim? && Part(w, ds, i, j, t, hyps, s, base)
    ensures Part(w, ds, i, j, t.l, hyps, s, base) && Part(w, ds, i, j, t.r, hyps, s, base)
  {
  }

  lemma CondParts(w: World, ds: seq<Def>, i: nat, j: nat, t: Term, hyps: seq<Fact<Term>>, s: Store, base: nat)
    requires t.If? && Part(w, ds, i, j, t, hyps, s, base)
    ensures Part(w, ds, i, j, t.a, hyps, s, base) && Part(w, ds, i, j, t.b, hyps, s, base)
  {
  }

  lemma BranchParts(w: World, ds: seq<Def>, i: nat, j: nat, t: Term, hyps: seq<Fact<Term>>, s: Store, base: nat, m: nat)
    requires t.If? && Part(w, ds, i, j, t, hyps, s, base)
    ensures HoldFrom(w, hyps + ThenFacts(t), s, m) ==> Part(w, ds, i, j, t.thn, hyps + ThenFacts(t), s, m)
    ensures HoldFrom(w, hyps + ElseFacts(t), s, m) ==> Part(w, ds, i, j, t.els, hyps + ElseFacts(t), s, m)
  {
  }

  lemma ArgPart(w: World, ds: seq<Def>, i: nat, j: nat, t: Term, hyps: seq<Fact<Term>>, s: Store, base: nat, n: nat)
    requires t.Call? && n < |t.args| && Part(w, ds, i, j, t, hyps, s, base)
    ensures Part(w, ds, i, j, t.args[n], hyps, s, base)
  {
    WalkAllEach(ds[j], Callable(ds, j), t.args, n);
  }

  lemma {:induction false} PrimAnswers(
      w: World, ds: seq<Def>, pos: seq<nat>, j: nat, t: Term, hyps: seq<Fact<Term>>, s: Store, base: nat)
      returns (k: nat)
    requires t.Prim? && Program(w, ds) && CommonPositions(ds, pos) && j < |ds|
        && Part(w, ds, pos[j], j, t, hyps, s, base)
    ensures k >= base && Ref(w, t, s, k).Some?
    decreases j, Size(ds[j], pos[j], s), 0, t, 0
  {
    PrimParts(w, ds, pos[j], j, t, hyps, s, base);
    var kl := PartAnswers(w, ds, pos, j, t.l, hyps, s, base);
    var kr := PartAnswers(w, ds, pos, j, t.r, hyps, s, base);
    k := BothAnswer(w, t, s, kl, kr);
  }

  lemma BothAnswer(w: World, t: Term, s: Store, kl: nat, kr: nat) returns (k: nat)
    requires t.Prim? && Ref(w, t.l, s, kl).Some? && Ref(w, t.r, s, kr).Some?
    ensures k > kl && k > kr && Ref(w, t, s, k).Some?
  {
    k := Max(kl, kr) + 1;
    RefMonotone(w, t.l, s, kl, k - 1);
    RefMonotone(w, t.r, s, kr, k - 1);
  }

  lemma PartSound(w: World, ds: seq<Def>, t: Term, hyps: seq<Fact<Term>>, s: Store, base: nat, k: nat)
    requires Program(w, ds) && Passes(t, hyps) && HoldFrom(w, hyps, s, base) && NaturalStore(s)
    requires k >= base && Ref(w, t, s, k).Some?
    ensures Ref(w, t, s, k).value >= 0
    ensures forall top: nat | top >= k :: Sound(w, t, s, k, top)
  {
    ProgramAdmitted(w, ds);
    forall top: nat | top >= k ensures Sound(w, t, s, k, top) {
      WalkSafe(w, t, hyps, s, k, top);
    }
    assert Sound(w, t, s, k, k);
  }

  lemma {:induction false} IfAnswers(
      w: World, ds: seq<Def>, pos: seq<nat>, j: nat, t: Term, hyps: seq<Fact<Term>>, s: Store, base: nat)
      returns (k: nat)
    requires t.If? && Program(w, ds) && CommonPositions(ds, pos) && j < |ds| && Part(w, ds, pos[j], j, t, hyps, s, base)
    ensures k >= base && Ref(w, t, s, k).Some?
    decreases j, Size(ds[j], pos[j], s), 0, t, 1
  {
    var m := CondAnswers(w, ds, pos, j, t, hyps, s, base);
    BranchParts(w, ds, pos[j], j, t, hyps, s, base, m);
    if Compare(t.cmp, Ref(w, t.a, s, m).value, Ref(w, t.b, s, m).value) {
      var kt := PartAnswers(w, ds, pos, j, t.thn, hyps + ThenFacts(t), s, m);
      k := BranchTaken(w, t, s, m, kt);
    } else {
      var kt := PartAnswers(w, ds, pos, j, t.els, hyps + ElseFacts(t), s, m);
      k := BranchTaken(w, t, s, m, kt);
    }
  }

  lemma BranchTaken(w: World, t: Term, s: Store, m: nat, kt: nat) returns (k: nat)
    requires t.If? && kt >= m && Ref(w, t.a, s, m).Some? && Ref(w, t.b, s, m).Some?
    requires var x, y := Ref(w, t.a, s, m).value, Ref(w, t.b, s, m).value;
             Ref(w, if Compare(t.cmp, x, y) then t.thn else t.els, s, kt).Some?
    ensures k == kt + 1 && Ref(w, t, s, k).Some?
  {
    RefMonotone(w, t.a, s, m, kt);
    RefMonotone(w, t.b, s, m, kt);
    k := kt + 1;
  }

  /** Both sides of a condition answer, and from there on the branch it takes has its facts. */
  lemma {:induction false} CondAnswers(
      w: World, ds: seq<Def>, pos: seq<nat>, j: nat, t: Term, hyps: seq<Fact<Term>>, s: Store, base: nat)
      returns (m: nat)
    requires t.If? && Program(w, ds) && CommonPositions(ds, pos) && j < |ds| && Part(w, ds, pos[j], j, t, hyps, s, base)
    ensures m >= base && Ref(w, t.a, s, m).Some? && Ref(w, t.b, s, m).Some?
    ensures var x, y := Ref(w, t.a, s, m).value, Ref(w, t.b, s, m).value;
            HoldFrom(w, hyps + if Compare(t.cmp, x, y) then ThenFacts(t) else ElseFacts(t), s, m)
    decreases j, Size(ds[j], pos[j], s), 0, t, 0
  {
    CondParts(w, ds, pos[j], j, t, hyps, s, base);
    var ka := PartAnswers(w, ds, pos, j, t.a, hyps, s, base);
    var kb := PartAnswers(w, ds, pos, j, t.b, hyps, s, base);
    m := Max(ka, kb);
    RefMonotone(w, t.a, s, ka, m);
    RefMonotone(w, t.b, s, kb, m);
    var x, y := Ref(w, t.a, s, m).value, Ref(w, t.b, s, m).value;
    var facts := if Compare(t.cmp, x, y) then ThenFacts(t) else ElseFacts(t);
    forall top: nat | top >= m ensures AllHold(hyps + facts, Reading(w, s, top)) {
      assert Sound(w, t.a, s, ka, top) && Sound(w, t.b, s, kb, top);
      BranchFacts(w, t, s, top, x, y);
      AllHoldAppend(hyps, facts, Reading(w, s, top));
    }
  }

  lemma BranchFacts(w: World, t: Term, s: Store, top: nat, x: int, y: int)
    requires t.If? && x >= 0 && y >= 0 && Read(w, t.a, s, top, x) && Read(w, t.b, s, top, y)
    ensures AllHold(if Compare(t.cmp, x, y) then ThenFacts(t) else ElseFacts(t), Reading(w, s, top))
  {
    var v := Reading(w, s, top);
    NegateRight(t.cmp, x, y);
    CondFactsExact(t.cmp, ObligLin(t.a), ObligLin(t.b), v);
    CondFactsExact(Negate(t.cmp), ObligLin(t.a), ObligLin(t.b), v);
  }

  lemma {:induction false} WalkAllEach(def: Def, callable: string -> bool, ts: seq<Term>, i: nat)
    requires WalkAll(def, callable, ts) == Accepted && i < |ts|
    ensures Walk(def, callable, ts[i]) == Accepted
    decreases i
  {
    if i > 0 {
      WalkAllEach(def, callable, ts[1..], i - 1);
    }
  }

  lemma {:induction false} ArgsAnswer(
      w: World, ds: seq<Def>, pos: seq<nat>, j: nat, t: Term, hyps: seq<Fact<Term>>, s: Store, base: nat, n: nat)
      returns (k: nat)
    requires t.Call? && n <= |t.args|
    requires Program(w, ds) && CommonPositions(ds, pos) && j < |ds| && Part(w, ds, pos[j], j, t, hyps, s, base)
    ensures k >= base && forall i | 0 <= i < n :: Ref(w, t.args[i], s, k).Some? && Ref(w, t.args[i], s, k).value >= 0
    decreases j, Size(ds[j], pos[j], s), 0, t, n
  {
    k := base;
    if n > 0 {
      var k0 := ArgsAnswer(w, ds, pos, j, t, hyps, s, base, n - 1);
      ArgPart(w, ds, pos[j], j, t, hyps, s, base, n - 1);
      var k1 := PartAnswers(w, ds, pos, j, t.args[n - 1], hyps, s, base);
      k := Max(k0, k1);
      RefMonotone(w, t.args[n - 1], s, k1, k);
      forall i | 0 <= i < n - 1 ensures Ref(w, t.args[i], s, k).Some? && Ref(w, t.args[i], s, k).value >= 0 {
        RefMonotone(w, t.args[i], s, k0, k);
      }
    }
  }

  lemma {:induction false} CallAnswers(
      w: World, ds: seq<Def>, pos: seq<nat>, j: nat, t: Term, hyps: seq<Fact<Term>>, s: Store, base: nat)
      returns (k: nat)
    requires t.Call?
    requires Program(w, ds) && CommonPositions(ds, pos) && j < |ds| && Part(w, ds, pos[j], j, t, hyps, s, base)
    ensures k >= base && Ref(w, t, s, k).Some?
    decreases j, Size(ds[j], pos[j], s), 0, t, |t.args| + 1
  {
    var m := ArgsAnswer(w, ds, pos, j, t, hyps, s, base, |t.args|);
    var vs := ArgValues(w, t.args, s, m);
    var kc := 0;
    if t.fn in w.defs {
      var j' := Callee(w, ds, pos[j], j, t, hyps, s, base);
      if j' == j {
        SelfCallShrinks(w, ds, pos[j], j, t, vs, s, m);
      }
      kc := DefinitionAnswers(w, ds, pos, j', vs);
    }
    k := CallReturns(w, t, s, vs, m, kc);
  }

  lemma CallReturns(w: World, t: Term, s: Store, vs: seq<int>, m: nat, kc: nat) returns (k: nat)
    requires t.Call? && RefAll(w, t.args, s, m) == Some(vs) && Apply(w, t.fn, vs, kc).Some?
    ensures k > m && Ref(w, t, s, k).Some?
  {
    k := Max(m, kc) + 1;
    RefAllMonotone(w, t.args, s, m, k - 1);
    ApplyMonotone(w, t.fn, vs, kc, k - 1);
  }

  lemma ArgValues(w: World, args: seq<Term>, s: Store, m: nat) returns (vs: seq<int>)
    requires forall i | 0 <= i < |args| :: Ref(w, args[i], s, m).Some? && Ref(w, args[i], s, m).value >= 0
    ensures |vs| == |args| && RefAll(w, args, s, m) == Some(vs)
    ensures forall i | 0 <= i < |vs| :: vs[i] >= 0 && Ref(w, args[i], s, m) == Some(vs[i])
  {
    RefAllFrom(w, args, s, m);
    vs := RefAll(w, args, s, m).value;
    forall i | 0 <= i < |vs| ensures vs[i] >= 0 && Ref(w, args[i], s, m) == Some(vs[i]) {
      RefAllAt(w, args, s, m, i);
    }
  }

  /** A callee with a definition is the definition itself or an earlier one, called with its arity. */
  lemma Callee(
      w: World, ds: seq<Def>, i: nat, j: nat, t: Term, hyps: seq<Fact<Term>>, s: Store, base: nat)
      returns (j': nat)
    requires Program(w, ds) && t.Call? && t.fn in w.defs && Part(w, ds, i, j, t, hyps, s, base)
    ensures j' <= j && ds[j'].name == t.fn && |ds[j'].params| == |t.args|
  {
    j' :| 0 <= j' < |ds| && ds[j'].name == t.fn;
    if j' != j {
      assert t.fn != ds[j].name;
      assert Callable(ds, j)(t.fn);
      assert Names(ds, t.fn);
      var i :| 0 <= i < |ds[..j]| && ds[..j][i].name == t.fn;
    }
  }

  lemma SelfCallShrinks(w: World, ds: seq<Def>, i: nat, j: nat, t: Term, vs: seq<int>, s: Store, m: nat)
    requires j < |ds| && t.Call? && t.fn == ds[j].name && DescendsAt(ds[j], t, i) && Distinct(ds[j].params)
    requires |vs| == |t.args| == |ds[j].params| && s.Keys == set p | p in ds[j].params
    requires forall n | 0 <= n < |vs| :: vs[n] >= 0 && Ref(w, t.args[n], s, m) == Some(vs[n])
    ensures Size(ds[j], i, Bind(ds[j].params, vs)) < Size(ds[j], i, s)
  {
    DecreasesBelow(w, ds[j], t.args[i], i, s, m);
    BindDistinct(ds[j].params, vs, i);
  }

  /** A definition of the program answers on naturals. */
  lemma {:induction false} DefinitionAnswers(
      w: World, ds: seq<Def>, pos: seq<nat>, j: nat, vs: seq<int>)
      returns (k: nat)
    requires Program(w, ds) && CommonPositions(ds, pos) && j < |ds| && |vs| == |ds[j].params| && Naturals(vs)
    ensures Apply(w, ds[j].name, vs, k).Some?
    decreases j, Size(ds[j], pos[j], Bind(ds[j].params, vs)), 1
  {
    var def := ds[j];
    var s := Bind(def.params, vs);
    BindNatural(def.params, vs);
    assert Part(w, ds, pos[j], j, def.body, [], s, 0);
    k := PartAnswers(w, ds, pos, j, def.body, [], s, 0);
  }

  /** Accepted programs are total on naturals: they terminate, never under-subtract, and answer a natural. */
  lemma AcceptedProgramsTotal(w: World, ds: seq<Def>, pos: seq<nat>, j: nat, vs: seq<int>)
    requires Program(w, ds) && CommonPositions(ds, pos) && j < |ds| && |vs| == |ds[j].params| && Naturals(vs)
    ensures exists k, n :: n >= 0 && Apply(w, ds[j].name, vs, k) == Some(n)
    ensures forall k :: SafeCall(w, ds[j].name, vs, k)
  {
    ProgramAdmitted(w, ds);
    forall k ensures SafeCall(w, ds[j].name, vs, k) {
      CallSafe(w, ds[j].name, vs, k);
    }
    var k := DefinitionAnswers(w, ds, pos, j, vs);
    CallSafe(w, ds[j].name, vs, k);
    assert Apply(w, ds[j].name, vs, k) == Some(Apply(w, ds[j].name, vs, k).value);
  }

  /** With one parameter the common position is no extra hypothesis. */
  lemma {:induction false} SingleParameterDescends(def: Def, callable: string -> bool, t: Term)
    requires |def.params| <= 1 && Walk(def, callable, t) == Accepted
    ensures DescendsAt(def, t, 0)
    decreases t
  {
    match t
    case Var(_) =>
    case Nat(_) =>
    case Prim(_, l, r) =>
      SingleParameterDescends(def, callable, l);
      SingleParameterDescends(def, callable, r);
    case Call(fn, args) =>
      forall j | 0 <= j < |args| ensures DescendsAt(def, args[j], 0) {
        WalkAllEach(def, callable, args, j);
        SingleParameterDescends(def, callable, args[j]);
      }
      if fn == def.name {
        var i: nat :| i < |args| && Decreases(def, args[i], i);
        assert i == 0;
      }
    case If(_, l, r, thn, els) =>
      SingleParameterDescends(def, callable, l);
      SingleParameterDescends(def, callable, r);
      SingleParameterDescends(def, callable, thn);
      SingleParameterDescends(def, callable, els);
  }

  /** Programs of one-parameter functions need no hypothesis beyond acceptance. */
  lemma SingleParameterProgramsTotal(w: World, ds: seq<Def>, j: nat, n: int)
    requires Program(w, ds) && j < |ds| && n >= 0 && forall i | 0 <= i < |ds| :: |ds[i].params| == 1
    ensures exists k, r :: r >= 0 && Apply(w, ds[j].name, [n], k) == Some(r)
  {
    var pos := seq(|ds|, i => 0);
    forall i | 0 <= i < |ds| ensures DescendsAt(ds[i], ds[i].body, pos[i]) {
      SingleParameterDescends(ds[i], Callable(ds, i), ds[i].body);
    }
    AcceptedProgramsTotal(w, ds, pos, j, [n]);
  }
}
