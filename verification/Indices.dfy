/**
 * Clients of the decider over index terms: pruning match arms by index clash
 * (internal/core/oblig.go), discharging propositions at a call
 * (internal/core/term.go) and the facts relations contribute
 * (internal/core/prop.go). A true answer is a statement about the integers the
 * terms evaluate to, calls answering naturals.
 */
module Indices {
  import opened Options
  import opened Linear
  import opened Decider
  import opened Terms
  import opened Values
  import opened Elaborator
  import opened Normalizer
  import opened Atoms

  const SYMBOLIC_FUEL := 65536

  datatype PropOp = PropEq | PropLe | PropLt

  predicate Relates(op: PropOp, a: int, b: int) {
    match op
    case PropEq => a == b
    case PropLe => a <= b
    case PropLt => a < b
  }

  /** The fact of a relation: a < b is b >= a + 1. */
  function FactOf(op: PropOp, a: Lin<Neutral>, b: Lin<Neutral>): Fact<Neutral> {
    match op
    case PropEq => Fact(FactEq, Add(a, b, -1))
    case PropLe => Fact(FactGe, Add(b, a, -1))
    case PropLt => Fact(FactGe, Add(Add(b, a, -1), Const(1), -1))
  }

  /** Every free variable an atom. */
  function SymbolicEnv(t: Term): Env {
    map x | x in FreeVars(t) :: NatVar(x)
  }

  ghost function SymbolicValue(defs: Defs, t: Term): Option<Value> {
    var r := Evaluate(defs, true, t, SymbolicEnv(t), SYMBOLIC_FUEL).0;
    if r.Ok? then Some(r.value) else None
  }

  /** A constant one way and coefficients not the other way: no natural root. */
  predicate NeverZero(d: Lin<Neutral>) {
    || (d.c > 0 && forall k | k in d.coef :: d.coef[k] >= 0)
    || (d.c < 0 && forall k | k in d.coef :: d.coef[k] <= 0)
  }

  // ---------------------------------------------------------- renaming apart

  function RenameFree(t: Term, prefix: string): Term {
    match t
    case Var(x) => Var(prefix + x)
    case Nat(_) => t
    case Prim(op, l, r) => Prim(op, RenameFree(l, prefix), RenameFree(r, prefix))
    case Call(fn, args) => Call(fn, RenameFreeAll(args, prefix))
    case If(_, _, _, _, _) => t
  }

  function RenameFreeAll(ts: seq<Term>, prefix: string): (rs: seq<Term>)
    ensures |rs| == |ts| && forall i | 0 <= i < |ts| :: rs[i] == RenameFree(ts[i], prefix)
  {
    if ts == [] then [] else [RenameFree(ts[0], prefix)] + RenameFreeAll(ts[1..], prefix)
  }

  const VARIANT := "goplus\U{B7}v\U{B7}"

  // ------------------------------------------------------------ substitution

  function SubstVars(t: Term, sub: map<string, Term>): Term {
    match t
    case Var(x) => if x in sub then sub[x] else t
    case Nat(_) => t
    case Prim(op, l, r) => Prim(op, SubstVars(l, sub), SubstVars(r, sub))
    case Call(fn, args) => Call(fn, SubstVarsAll(args, sub))
    case If(op, a, b, thn, els) =>
      If(op, SubstVars(a, sub), SubstVars(b, sub), SubstVars(thn, sub), SubstVars(els, sub))
  }

  function SubstVarsAll(ts: seq<Term>, sub: map<string, Term>): (rs: seq<Term>)
    ensures |rs| == |ts| && forall i | 0 <= i < |ts| :: rs[i] == SubstVars(ts[i], sub)
  {
    if ts == [] then [] else [SubstVars(ts[0], sub)] + SubstVarsAll(ts[1..], sub)
  }

  // ------------------------------------------------------------- the answers

  function Above(a: Value, b: Value): Fact<Neutral> {
    Fact(FactGe, Add(Add(AsLin(a), AsLin(b), -1), Const(1), -1))
  }

  /** `r` is a possible answer of the hypothesis-driven test. */
  ghost predicate ApartAnswer(hyps: seq<Fact<Neutral>>, a: Value, b: Value, r: bool) {
    if hyps == [] then !r else
      || (r && Decides(Above(a, b), hyps, true))
      || (Decides(Above(a, b), hyps, false) && Decides(Above(b, a), hyps, r))
  }

  ghost predicate ClashAnswer(hyps: seq<Fact<Neutral>>, use: Term, variant: Term, r: bool) {
    var a, b := SymbolicValue(map[], use), SymbolicValue(map[], RenameFree(variant, VARIANT));
    if a.None? || b.None? then !r
    else if NeverZero(Add(AsLin(a.value), AsLin(b.value), -1)) then r
    else ApartAnswer(hyps, a.value, b.value, r)
  }

  ghost predicate PropAnswer(
      hyps: seq<Fact<Neutral>>, op: PropOp, a: Term, b: Term, sub: map<string, Term>, defs: Defs, r: bool)
  {
    var x, y := SymbolicValue(defs, SubstVars(a, sub)), SymbolicValue(defs, SubstVars(b, sub));
    if x.None? || y.None? then !r else Decides(FactOf(op, AsLin(x.value), AsLin(y.value)), hyps, r)
  }

  method EvalSymbolic(defs: Defs, t: Term) returns (v: Option<Value>)
    ensures v == SymbolicValue(defs, t)
  {
    var ev := new Evaluator(defs, true, SYMBOLIC_FUEL);
    var r := ev.Eval(t, SymbolicEnv(t));
    v := if r.Ok? then Some(r.value) else None;
  }

  method NeverEqualUnder(hyps: seq<Fact<Neutral>>, a: Value, b: Value) returns (r: bool)
    ensures ApartAnswer(hyps, a, b, r)
  {
    if |hyps| == 0 {
      return false;
    }
    r := Decide(Above(a, b), hyps);
    if !r {
      r := Decide(Above(b, a), hyps);
    }
  }

  method IndexClashUnder(hyps: seq<Fact<Neutral>>, use: Term, variant: Term) returns (r: bool)
    ensures ClashAnswer(hyps, use, variant, r)
  {
    var a := EvalSymbolic(map[], use);
    var b := EvalSymbolic(map[], RenameFree(variant, VARIANT));
    if a.None? || b.None? {
      return false;
    }
    var diff := LinAdd(AsLin(a.value), AsLin(b.value), -1);
    if NeverZero(diff) {
      return true;
    }
    r := NeverEqualUnder(hyps, a.value, b.value);
  }

  method DecidePropUnder(hyps: seq<Fact<Neutral>>, op: PropOp, a: Term, b: Term, sub: map<string, Term>, defs: Defs)
      returns (r: bool)
    ensures PropAnswer(hyps, op, a, b, sub, defs, r)
  {
    var x := EvalSymbolic(defs, SubstVars(a, sub));
    var y := EvalSymbolic(defs, SubstVars(b, sub));
    if x.None? || y.None? {
      return false;
    }
    r := Decide(FactOf(op, AsLin(x.value), AsLin(y.value)), hyps);
  }

  // ------------------------------------------------------- atoms are naturals

  /** The natural valuation of atoms the decider's answers are read under. */
  ghost function Reading(w: World, rho: Valuation, k: nat): Neutral -> int {
    a => var d := DenoteAtom(w, rho, a, k); if d.Some? && d.value >= 0 then d.value else 0
  }

  lemma ReadingNatural(w: World, rho: Valuation, k: nat)
    ensures Natural(Reading(w, rho, k))
  {
  }

  lemma ReadingValue(w: World, rho: Valuation, v: Value, k: nat)
    requires PlainValue(v) && NaturalAtoms(w, rho, v, k) && Denote(w, rho, v, k).Some?
    ensures Val(AsLin(v), Reading(w, rho, k)) == Denote(w, rho, v, k).value
  {
    DenoteAsLin(w, rho, v, k);
    forall a | a in AsLin(v).coef ensures Reading(w, rho, k)(a) == AtomVal(w, rho, k)(a) {
      assert NaturalAtom(w, rho, a, k);
    }
    ValCongruent(AsLin(v), Reading(w, rho, k), AtomVal(w, rho, k));
  }

  ghost function StoreValuation(s: Store): Valuation {
    x => if x in s && s[x] >= 0 then s[x] else 0
  }

  ghost predicate ReadsFrom(w: World, v: Value, s: Store, n: int, m: nat) {
    forall m' | m' >= m :: Val(AsLin(v), Reading(w, StoreValuation(s), m')) == n
  }

  ghost predicate ReadTrueFrom(w: World, fs: seq<Fact<Neutral>>, s: Store, m: nat) {
    forall m' | m' >= m :: AllHold(fs, Reading(w, StoreValuation(s), m'))
  }

  /** From some depth on, the symbolic value of `t` reads as what `t` evaluates to. */
  lemma SymbolicReads(w: World, defs: Defs, t: Term, s: Store, k: nat) returns (m: nat)
    requires Knows(w, defs) && TailDefs(defs) && NaturalCalls(w) && NaturalStore(s) && FreeVars(t) <= s.Keys
    requires NoIf(t) && SymbolicValue(defs, t).Some? && Runs(w, t, s, k)
    ensures ReadsFrom(w, SymbolicValue(defs, t).value, s, Ref(w, t, s, k).value, m)
  {
    var rho, env, v := StoreValuation(s), SymbolicEnv(t), SymbolicValue(defs, t).value;
    var own := map x | x in FreeVars(t) :: s[x];
    RefAgree(w, t, s, own, k);
    RunAgree(w, t, s, own, k);
    VariablesDenote(w, t, s);
    var i := EvaluateSound(w, defs, true, t, env, SYMBOLIC_FUEL, rho, own, 1, k);
    var j := EvaluateNatural(w, defs, true, t, env, SYMBOLIC_FUEL, rho, own, 1, k);
    SymbolicPlain(defs, t);
    m := Max(i, j);
    forall m' | m' >= m ensures Val(AsLin(v), Reading(w, rho, m')) == Ref(w, t, s, k).value {
      DenoteMonotone(w, rho, v, i, m');
      NaturalAtomsMonotone(w, rho, v, j, m');
      ReadingValue(w, rho, v, m');
    }
  }

  lemma VariablesDenote(w: World, t: Term, s: Store)
    requires NaturalStore(s) && FreeVars(t) <= s.Keys
    ensures Represents(w, StoreValuation(s), SymbolicEnv(t), map x | x in FreeVars(t) :: s[x], 1)
    ensures NaturalEnv(w, StoreValuation(s), SymbolicEnv(t), 1)
  {
    forall x | x in SymbolicEnv(t)
      ensures Denote(w, StoreValuation(s), SymbolicEnv(t)[x], 1) == Some(s[x])
      ensures NaturalAtoms(w, StoreValuation(s), SymbolicEnv(t)[x], 1)
    {
      VariableDenotes(w, x, s);
    }
  }

  lemma VariableDenotes(w: World, x: string, s: Store)
    requires NaturalStore(s) && x in s
    ensures Denote(w, StoreValuation(s), NatVar(x), 1) == Some(s[x])
    ensures NaturalAtoms(w, StoreValuation(s), NatVar(x), 1)
  {
    DenoteAsLin(w, StoreValuation(s), VNeu(NVar(x)), 1);
    assert DenoteAtom(w, StoreValuation(s), NVar(x), 1) == Some(s[x]);
  }

  lemma SymbolicPlain(defs: Defs, t: Term)
    requires TailDefs(defs) && NoIf(t) && SymbolicValue(defs, t).Some?
    ensures PlainValue(SymbolicValue(defs, t).value)
  {
    NoIfIsTail(t);
    EvaluatePlain(defs, t, SymbolicEnv(t), SYMBOLIC_FUEL);
  }

  // -------------------------------------------------------- propositions hold

  lemma FactOfHolds(op: PropOp, a: Lin<Neutral>, b: Lin<Neutral>, w: Neutral -> int)
    ensures Holds(FactOf(op, a, b), w) <==> Relates(op, Val(a, w), Val(b, w))
  {
    match op
    case PropEq =>
      ValAdd(a, b, -1, w);
    case PropLe =>
      ValAdd(b, a, -1, w);
    case PropLt =>
      ValAdd(b, a, -1, w);
      ValConst(1, w);
      ValAdd(Add(b, a, -1), Const(1), -1, w);
  }

  /** A proposition in scope, between two terms of the caller. */
  datatype Prop = Prop(op: PropOp, a: Term, b: Term)

  /** Both terms reduce to a value, so the proposition contributes its fact. */
  ghost predicate PropBuilt(defs: Defs, p: Prop) {
    NoIf(p.a) && NoIf(p.b) && SymbolicValue(defs, p.a).Some? && SymbolicValue(defs, p.b).Some?
  }

  ghost function PropFact(defs: Defs, p: Prop): Fact<Neutral>
    requires PropBuilt(defs, p)
  {
    FactOf(p.op, AsLin(SymbolicValue(defs, p.a).value), AsLin(SymbolicValue(defs, p.b).value))
  }

  ghost predicate Known(defs: Defs, ps: seq<Prop>, hyps: seq<Fact<Neutral>>) {
    |ps| == |hyps| && forall i | 0 <= i < |ps| :: PropBuilt(defs, ps[i]) && hyps[i] == PropFact(defs, ps[i])
  }

  /** The proposition is true of the caller's variables `s`, its terms making their calls on naturals. */
  ghost predicate True(w: World, p: Prop, s: Store, k: nat) {
    && FreeVars(p.a) <= s.Keys && FreeVars(p.b) <= s.Keys
    && Runs(w, p.a, s, k) && Runs(w, p.b, s, k)
    && Relates(p.op, Ref(w, p.a, s, k).value, Ref(w, p.b, s, k).value)
  }

  ghost predicate AllTrue(w: World, ps: seq<Prop>, s: Store, k: nat) {
    forall i | 0 <= i < |ps| :: True(w, ps[i], s, k)
  }

  /** A true proposition is a fact that holds. */
  lemma FactHolds(w: World, defs: Defs, p: Prop, s: Store, k: nat) returns (m: nat)
    requires Knows(w, defs) && TailDefs(defs) && NaturalCalls(w) && NaturalStore(s)
    requires PropBuilt(defs, p) && True(w, p, s, k)
    ensures ReadTrueFrom(w, [PropFact(defs, p)], s, m)
  {
    var a, b := SymbolicValue(defs, p.a).value, SymbolicValue(defs, p.b).value;
    var ma := SymbolicReads(w, defs, p.a, s, k);
    var mb := SymbolicReads(w, defs, p.b, s, k);
    m := Max(ma, mb);
    forall m' | m' >= m ensures AllHold([PropFact(defs, p)], Reading(w, StoreValuation(s), m')) {
      FactOfHolds(p.op, AsLin(a), AsLin(b), Reading(w, StoreValuation(s), m'));
    }
  }

  lemma ReadTrueAppend(w: World, fs: seq<Fact<Neutral>>, gs: seq<Fact<Neutral>>, s: Store, i: nat, j: nat)
    requires ReadTrueFrom(w, fs, s, i) && ReadTrueFrom(w, gs, s, j)
    ensures ReadTrueFrom(w, fs + gs, s, Max(i, j))
  {
    forall m' | m' >= Max(i, j) ensures AllHold(fs + gs, Reading(w, StoreValuation(s), m')) {
      var v := Reading(w, StoreValuation(s), m');
      assert AllHold(fs, v) && AllHold(gs, v);
      forall n | 0 <= n < |fs + gs| ensures Holds((fs + gs)[n], v) {
        assert n < |fs| ==> Holds(fs[n], v);
        assert n >= |fs| ==> Holds(gs[n - |fs|], v);
      }
    }
  }

  /** True propositions are facts that hold. */
  lemma {:induction false} HypothesesHold(
      w: World, defs: Defs, ps: seq<Prop>, hyps: seq<Fact<Neutral>>, s: Store, k: nat)
      returns (m: nat)
    requires Knows(w, defs) && TailDefs(defs) && NaturalCalls(w) && NaturalStore(s)
    requires Known(defs, ps, hyps) && AllTrue(w, ps, s, k)
    ensures ReadTrueFrom(w, hyps, s, m)
    decreases |ps|
  {
    m := 0;
    if ps != [] {
      var n := |ps| - 1;
      LastProp(w, defs, ps, hyps, s, k);
      var i := HypothesesHold(w, defs, ps[..n], hyps[..n], s, k);
      var j := FactHolds(w, defs, ps[n], s, k);
      ReadTrueAppend(w, hyps[..n], [PropFact(defs, ps[n])], s, i, j);
      m := Max(i, j);
    }
  }

  lemma LastKnown(defs: Defs, ps: seq<Prop>, hyps: seq<Fact<Neutral>>, n: nat)
    requires Known(defs, ps, hyps) && |ps| == n + 1
    ensures PropBuilt(defs, ps[n]) && hyps == hyps[..n] + [PropFact(defs, ps[n])]
  {
    assert PropBuilt(defs, ps[n]) && hyps[n] == PropFact(defs, ps[n]);
    LastOf(hyps, n);
  }

  lemma LastOf<T>(xs: seq<T>, n: nat)
    requires |xs| == n + 1
    ensures xs == xs[..n] + [xs[n]]
  {
  }

  lemma EarlierKnown(defs: Defs, ps: seq<Prop>, hyps: seq<Fact<Neutral>>, n: nat)
    requires Known(defs, ps, hyps) && n <= |ps|
    ensures Known(defs, ps[..n], hyps[..n])
  {
    forall i | 0 <= i < n ensures PropBuilt(defs, ps[..n][i]) && hyps[..n][i] == PropFact(defs, ps[..n][i]) {
      assert ps[..n][i] == ps[i] && PropBuilt(defs, ps[i]);
    }
  }

  lemma EarlierTrue(w: World, ps: seq<Prop>, s: Store, k: nat, n: nat)
    requires AllTrue(w, ps, s, k) && n <= |ps|
    ensures AllTrue(w, ps[..n], s, k)
  {
    forall i | 0 <= i < n ensures True(w, ps[..n][i], s, k) {
      assert ps[..n][i] == ps[i] && True(w, ps[i], s, k);
    }
  }

  lemma LastProp(w: World, defs: Defs, ps: seq<Prop>, hyps: seq<Fact<Neutral>>, s: Store, k: nat)
    requires ps != [] && Known(defs, ps, hyps) && AllTrue(w, ps, s, k)
    ensures var n := |ps| - 1;
            && Known(defs, ps[..n], hyps[..n]) && AllTrue(w, ps[..n], s, k)
            && PropBuilt(defs, ps[n]) && True(w, ps[n], s, k)
            && hyps == hyps[..n] + [PropFact(defs, ps[n])]
  {
    var n := |ps| - 1;
    LastKnown(defs, ps, hyps, n);
    assert True(w, ps[n], s, k);
    EarlierKnown(defs, ps, hyps, n);
    EarlierTrue(w, ps, s, k, n);
  }

  // --------------------------------------------------------- substitution lemma

  /** The callee's variables as the call sets them: arguments evaluated in the caller, others passed through. */
  ghost predicate SetBy(w: World, sub: map<string, Term>, s: Store, callee: Store, k: nat) {
    forall x | x in callee ::
      if x in sub then Ref(w, sub[x], s, k) == Some(callee[x]) else x in s && s[x] == callee[x]
  }

  /** Evaluating after substitution is evaluating at the arguments' values. */
  lemma {:induction false} SubstituteMeans(
      w: World, t: Term, sub: map<string, Term>, s: Store, callee: Store, k: nat, j: nat)
    requires SetBy(w, sub, s, callee, j) && Ref(w, t, callee, k).Some?
    ensures Ref(w, SubstVars(t, sub), s, k + j) == Ref(w, t, callee, k)
    decreases k, 0, 0
  {
    match t
    case Var(x) =>
      if x in sub {
        RefMonotone(w, sub[x], s, j, k + j);
      }
    case Nat(_) =>
    case Prim(_, l, r) =>
      SubstituteMeans(w, l, sub, s, callee, k - 1, j);
      SubstituteMeans(w, r, sub, s, callee, k - 1, j);
    case Call(fn, args) =>
      SubstituteAllMeans(w, args, sub, s, callee, k - 1, j);
      SubstituteCallMeans(w, fn, args, sub, s, callee, k - 1, k - 1 + j);
    case If(op, a, b, thn, els) =>
      SubstituteIfMeans(w, t, sub, s, callee, k, j);
  }

  lemma SubstituteCallMeans(
      w: World, fn: string, args: seq<Term>, sub: map<string, Term>, s: Store, callee: Store, k: nat, k': nat)
    requires k <= k' && RefAll(w, args, callee, k).Some? && Apply(w, fn, RefAll(w, args, callee, k).value, k).Some?
    requires RefAll(w, SubstVarsAll(args, sub), s, k') == RefAll(w, args, callee, k)
    ensures Ref(w, SubstVars(Call(fn, args), sub), s, k' + 1) == Ref(w, Call(fn, args), callee, k + 1)
  {
    ApplyMonotone(w, fn, RefAll(w, args, callee, k).value, k, k');
  }

  lemma {:induction false} SubstituteIfMeans(
      w: World, t: Term, sub: map<string, Term>, s: Store, callee: Store, k: nat, j: nat)
    requires t.If? && k > 0 && SetBy(w, sub, s, callee, j) && Ref(w, t, callee, k).Some?
    ensures Ref(w, SubstVars(t, sub), s, k + j) == Ref(w, t, callee, k)
    decreases k - 1, 2, 0
  {
    SubstituteMeans(w, t.a, sub, s, callee, k - 1, j);
    SubstituteMeans(w, t.b, sub, s, callee, k - 1, j);
    if Compare(t.cmp, Ref(w, t.a, callee, k - 1).value, Ref(w, t.b, callee, k - 1).value) {
      SubstituteMeans(w, t.thn, sub, s, callee, k - 1, j);
    } else {
      SubstituteMeans(w, t.els, sub, s, callee, k - 1, j);
    }
  }

  lemma {:induction false} SubstituteAllMeans(
      w: World, ts: seq<Term>, sub: map<string, Term>, s: Store, callee: Store, k: nat, j: nat)
    requires SetBy(w, sub, s, callee, j) && RefAll(w, ts, callee, k).Some?
    ensures RefAll(w, SubstVarsAll(ts, sub), s, k + j) == RefAll(w, ts, callee, k)
    decreases k, 1, |ts|
  {
    if ts != [] {
      SubstituteMeans(w, ts[0], sub, s, callee, k, j);
      SubstituteAllMeans(w, ts[1..], sub, s, callee, k, j);
    }
  }

  /** The arguments a call passes, run in the caller, make their calls on naturals. */
  ghost predicate ArgsRun(w: World, sub: map<string, Term>, s: Store, callee: Store, k: nat) {
    forall x | x in callee && x in sub :: NaturalRun(w, sub[x], s, k)
  }

  /** The substituted term makes the calls of the term and of its arguments. */
  lemma {:induction false} SubstituteRuns(
      w: World, t: Term, sub: map<string, Term>, s: Store, callee: Store, k: nat, j: nat)
    requires NoIf(t) && SetBy(w, sub, s, callee, j) && ArgsRun(w, sub, s, callee, j) && Runs(w, t, callee, k)
    ensures NaturalRun(w, SubstVars(t, sub), s, k + j)
    decreases t
  {
    match t
    case Var(x) =>
      if x in sub {
        RunMonotone(w, sub[x], s, j, k + j);
      }
    case Nat(_) =>
    case Prim(_, l, r) =>
      SubstituteRuns(w, l, sub, s, callee, k - 1, j);
      SubstituteRuns(w, r, sub, s, callee, k - 1, j);
    case Call(fn, args) =>
      var vs := RefAll(w, args, callee, k - 1).value;
      forall i | 0 <= i < |args| ensures NaturalRun(w, SubstVarsAll(args, sub)[i], s, k - 1 + j) {
        RefAllAt(w, args, callee, k - 1, i);
        SubstituteRuns(w, args[i], sub, s, callee, k - 1, j);
      }
      SubstituteAllMeans(w, args, sub, s, callee, k - 1, j);
      CallMonotone(w, fn, vs, k - 1, k - 1 + j);
  }

  lemma {:induction false} SubstNoIf(t: Term, sub: map<string, Term>)
    requires NoIf(t) && forall x | x in sub :: NoIf(sub[x])
    ensures NoIf(SubstVars(t, sub))
    decreases t
  {
    match t
    case Var(_) =>
    case Nat(_) =>
    case Prim(_, l, r) =>
      SubstNoIf(l, sub);
      SubstNoIf(r, sub);
    case Call(_, args) =>
      forall i | 0 <= i < |args| ensures NoIf(SubstVars(args[i], sub)) {
        SubstNoIf(args[i], sub);
      }
  }

  lemma {:induction false} SubstFree(t: Term, sub: map<string, Term>, vars: set<string>)
    requires forall x | x in FreeVars(t) :: if x in sub then FreeVars(sub[x]) <= vars else x in vars
    ensures FreeVars(SubstVars(t, sub)) <= vars
    decreases t
  {
    match t
    case Var(_) =>
    case Nat(_) =>
    case Prim(_, l, r) =>
      SubstFree(l, sub, vars);
      SubstFree(r, sub, vars);
    case Call(_, args) => SubstFreeAll(args, sub, vars);
    case If(_, a, b, thn, els) =>
      SubstFree(a, sub, vars);
      SubstFree(b, sub, vars);
      SubstFree(thn, sub, vars);
      SubstFree(els, sub, vars);
  }

  lemma {:induction false} SubstFreeAll(ts: seq<Term>, sub: map<string, Term>, vars: set<string>)
    requires forall x | x in FreeVarsAll(ts) :: if x in sub then FreeVars(sub[x]) <= vars else x in vars
    ensures FreeVarsAll(SubstVarsAll(ts, sub)) <= vars
    decreases ts
  {
    if ts != [] {
      SubstFree(ts[0], sub, vars);
      SubstFreeAll(ts[1..], sub, vars);
    }
  }

  /** What a call site passes: if-free arguments over the caller's variables, covering the two terms. */
  ghost predicate CallSite(a: Term, b: Term, sub: map<string, Term>, s: Store) {
    && NoIf(a) && NoIf(b)
    && (forall x | x in sub :: NoIf(sub[x]) && FreeVars(sub[x]) <= s.Keys)
    && (forall x | x in FreeVars(a) + FreeVars(b) :: x in sub || x in s)
  }

  /**
   * A discharged proposition is true: the relation holds between the callee's
   * terms evaluated at the call's arguments, for every natural valuation of the
   * caller's variables that makes the propositions in scope true.
   */
  lemma DischargedIsTrue(
      w: World, defs: Defs, ps: seq<Prop>, hyps: seq<Fact<Neutral>>, op: PropOp, a: Term, b: Term,
      sub: map<string, Term>, s: Store, callee: Store, k: nat)
    requires Knows(w, defs) && TailDefs(defs) && NaturalCalls(w) && NaturalStore(s)
    requires Known(defs, ps, hyps) && AllTrue(w, ps, s, k)
    requires CallSite(a, b, sub, s) && SetBy(w, sub, s, callee, k) && ArgsRun(w, sub, s, callee, k)
    requires Runs(w, a, callee, k) && Runs(w, b, callee, k)
    requires PropAnswer(hyps, op, a, b, sub, defs, true)
    ensures Relates(op, Ref(w, a, callee, k).value, Ref(w, b, callee, k).value)
  {
    var x, y := SubstVars(a, sub), SubstVars(b, sub);
    var m, n := Ref(w, a, callee, k).value, Ref(w, b, callee, k).value;
    var deep := k + k;
    PropAnswerDecides(hyps, op, a, b, sub, defs);
    CallSiteShape(a, b, sub, s);
    SubstitutedAnswer(w, a, sub, s, callee, k, deep, m);
    SubstitutedAnswer(w, b, sub, s, callee, k, deep, n);
    DecidedRelates(w, defs, ps, hyps, op, x, y, s, k, deep, m, n);
  }

  lemma PropAnswerDecides(hyps: seq<Fact<Neutral>>, op: PropOp, a: Term, b: Term, sub: map<string, Term>, defs: Defs)
    requires PropAnswer(hyps, op, a, b, sub, defs, true)
    ensures var x, y := SymbolicValue(defs, SubstVars(a, sub)), SymbolicValue(defs, SubstVars(b, sub));
            x.Some? && y.Some? && Decides(FactOf(op, AsLin(x.value), AsLin(y.value)), hyps, true)
  {
  }

  ghost predicate Answers(w: World, t: Term, s: Store, k: nat, n: int) {
    Ref(w, t, s, k) == Some(n) && NaturalRun(w, t, s, k)
  }

  lemma SubstitutedAnswer(w: World, t: Term, sub: map<string, Term>, s: Store, callee: Store, k: nat, deep: nat, n: int)
    requires NoIf(t) && SetBy(w, sub, s, callee, k) && ArgsRun(w, sub, s, callee, k)
    requires Answers(w, t, callee, k, n) && deep == k + k
    ensures Answers(w, SubstVars(t, sub), s, deep, n)
  {
    SubstituteMeans(w, t, sub, s, callee, k, k);
    SubstituteRuns(w, t, sub, s, callee, k, k);
  }

  lemma DecidedRelates(
      w: World, defs: Defs, ps: seq<Prop>, hyps: seq<Fact<Neutral>>, op: PropOp, x: Term, y: Term, s: Store, k: nat,
      j: nat,
      m: int, n: int)
    requires Knows(w, defs) && TailDefs(defs) && NaturalCalls(w) && NaturalStore(s)
    requires Known(defs, ps, hyps) && AllTrue(w, ps, s, k)
    requires NoIf(x) && NoIf(y) && FreeVars(x) <= s.Keys && FreeVars(y) <= s.Keys
    requires Answers(w, x, s, j, m) && Answers(w, y, s, j, n)
    requires SymbolicValue(defs, x).Some? && SymbolicValue(defs, y).Some?
    requires Decides(FactOf(op, AsLin(SymbolicValue(defs, x).value), AsLin(SymbolicValue(defs, y).value)), hyps, true)
    ensures Relates(op, m, n)
  {
    var m0 := HypothesesHold(w, defs, ps, hyps, s, k);
    var ma := SymbolicReads(w, defs, x, s, j);
    var mb := SymbolicReads(w, defs, y, s, j);
    RelatesFrom(w, hyps, op, SymbolicValue(defs, x).value, SymbolicValue(defs, y).value, s, m, n, m0, ma, mb);
  }

  /** A decided relation holds of what both sides read as at a great enough depth. */
  lemma RelatesFrom(
      w: World, hyps: seq<Fact<Neutral>>, op: PropOp, a: Value, b: Value, s: Store, m: int, n: int, i: nat, j: nat,
      k: nat)
    requires ReadTrueFrom(w, hyps, s, i) && ReadsFrom(w, a, s, m, j) && ReadsFrom(w, b, s, n, k)
    requires Decides(FactOf(op, AsLin(a), AsLin(b)), hyps, true)
    ensures Relates(op, m, n)
  {
    var deep := Max(i, Max(j, k));
    var v := Reading(w, StoreValuation(s), deep);
    assert AllHold(hyps, v) && Val(AsLin(a), v) == m && Val(AsLin(b), v) == n;
    ReadingNatural(w, StoreValuation(s), deep);
    AcceptedRelates(hyps, op, a, b, v);
  }

  lemma CallSiteShape(a: Term, b: Term, sub: map<string, Term>, s: Store)
    requires CallSite(a, b, sub, s)
    ensures NoIf(SubstVars(a, sub)) && NoIf(SubstVars(b, sub))
    ensures FreeVars(SubstVars(a, sub)) <= s.Keys && FreeVars(SubstVars(b, sub)) <= s.Keys
  {
    SubstNoIf(a, sub);
    SubstNoIf(b, sub);
    SubstFree(a, sub, s.Keys);
    SubstFree(b, sub, s.Keys);
  }

  lemma AcceptedRelates(hyps: seq<Fact<Neutral>>, op: PropOp, x: Value, y: Value, v: Neutral -> int)
    requires Natural(v) && AllHold(hyps, v) && Decides(FactOf(op, AsLin(x), AsLin(y)), hyps, true)
    ensures Relates(op, Val(AsLin(x), v), Val(AsLin(y), v))
  {
    DecideSound(FactOf(op, AsLin(x), AsLin(y)), hyps);
    assert Holds(FactOf(op, AsLin(x), AsLin(y)), v);
    FactOfHolds(op, AsLin(x), AsLin(y), v);
  }

  // -------------------------------------------------------------- index clash

  lemma NeverZeroVal(d: Lin<Neutral>, v: Neutral -> int)
    requires NeverZero(d) && Natural(v)
    ensures Val(d, v) != 0
  {
    if d.c > 0 {
      NonNegVal(Add(d, Const(1), -1), v);
      ValAdd(d, Const(1), -1, v);
    } else {
      var up := Add(Scale(d, -1), Const(1), -1);
      assert NonNeg(up);
      NonNegVal(up, v);
      ValAdd(Scale(d, -1), Const(1), -1, v);
      ValScale(d, -1, v);
    }
    ValConst(1, v);
  }

  /** `s` holds the variant's variables under their renamed-apart names. */
  ghost predicate RenamedInto(t: Term, variant: Store, s: Store) {
    forall x | x in FreeVars(t) :: x in variant && VARIANT + x in s && s[VARIANT + x] == variant[x]
  }

  lemma {:induction false} RenameMeans(w: World, t: Term, s: Store, variant: Store, k: nat)
    requires NoIf(t) && RenamedInto(t, variant, s)
    ensures Ref(w, RenameFree(t, VARIANT), s, k) == Ref(w, t, variant, k)
    decreases t
  {
    if k > 0 {
      match t
      case Var(_) =>
      case Nat(_) =>
      case Prim(_, l, r) =>
        RenameMeans(w, l, s, variant, k - 1);
        RenameMeans(w, r, s, variant, k - 1);
      case Call(_, args) => RenameAllMeans(w, args, s, variant, k - 1);
    }
  }

  lemma {:induction false} RenameAllMeans(w: World, ts: seq<Term>, s: Store, variant: Store, k: nat)
    requires forall i | 0 <= i < |ts| :: NoIf(ts[i])
    requires forall x | x in FreeVarsAll(ts) :: x in variant && VARIANT + x in s && s[VARIANT + x] == variant[x]
    ensures RefAll(w, RenameFreeAll(ts, VARIANT), s, k) == RefAll(w, ts, variant, k)
    decreases ts
  {
    if ts != [] {
      RenameMeans(w, ts[0], s, variant, k);
      RenameAllMeans(w, ts[1..], s, variant, k);
    }
  }

  lemma {:induction false} RenameRuns(w: World, t: Term, s: Store, variant: Store, k: nat)
    requires NoIf(t) && RenamedInto(t, variant, s)
    ensures NaturalRun(w, RenameFree(t, VARIANT), s, k) == NaturalRun(w, t, variant, k)
    decreases t
  {
    if k > 0 {
      match t
      case Var(_) =>
      case Nat(_) =>
      case Prim(_, l, r) =>
        RenameRuns(w, l, s, variant, k - 1);
        RenameRuns(w, r, s, variant, k - 1);
      case Call(_, args) =>
        RenameAllMeans(w, args, s, variant, k - 1);
        RenameAllRuns(w, args, s, variant, k - 1);
    }
  }

  lemma {:induction false} RenameAllRuns(w: World, ts: seq<Term>, s: Store, variant: Store, k: nat)
    requires forall i | 0 <= i < |ts| :: NoIf(ts[i])
    requires forall x | x in FreeVarsAll(ts) :: x in variant && VARIANT + x in s && s[VARIANT + x] == variant[x]
    ensures forall i | 0 <= i < |ts| ::
      NaturalRun(w, RenameFreeAll(ts, VARIANT)[i], s, k) == NaturalRun(w, ts[i], variant, k)
    decreases ts
  {
    if ts != [] {
      RenameRuns(w, ts[0], s, variant, k);
      RenameAllRuns(w, ts[1..], s, variant, k);
      forall i | 0 <= i < |ts|
        ensures NaturalRun(w, RenameFreeAll(ts, VARIANT)[i], s, k) == NaturalRun(w, ts[i], variant, k)
      {
        if i > 0 {
          assert ts[i] == ts[1..][i - 1] && RenameFreeAll(ts, VARIANT)[i] == RenameFreeAll(ts[1..], VARIANT)[i - 1];
        }
      }
    }
  }

  lemma {:induction false} RenameShape(t: Term)
    requires NoIf(t)
    ensures NoIf(RenameFree(t, VARIANT))
    ensures FreeVars(RenameFree(t, VARIANT)) == set x | x in FreeVars(t) :: VARIANT + x
    decreases t
  {
    match t
    case Var(_) =>
    case Nat(_) =>
    case Prim(_, l, r) =>
      RenameShape(l);
      RenameShape(r);
    case Call(_, args) => RenameAllShape(args);
  }

  lemma {:induction false} RenameAllShape(ts: seq<Term>)
    requires forall i | 0 <= i < |ts| :: NoIf(ts[i])
    ensures forall i | 0 <= i < |ts| :: NoIf(RenameFree(ts[i], VARIANT))
    ensures FreeVarsAll(RenameFreeAll(ts, VARIANT)) == set x | x in FreeVarsAll(ts) :: VARIANT + x
    decreases ts
  {
    if ts != [] {
      RenameShape(ts[0]);
      RenameAllShape(ts[1..]);
    }
  }

  /** No identifier of the source language starts with the renaming prefix. */
  predicate CallerNames(vars: set<string>) {
    forall x | x in vars :: !(VARIANT <= x)
  }

  /** Caller and variant variables side by side. */
  ghost function Joined(s: Store, variant: Store): Store {
    s + map y | y in (set x | x in variant :: VARIANT + x) :: variant[y[|VARIANT|..]]
  }

  lemma JoinedHolds(s: Store, variant: Store)
    requires CallerNames(s.Keys)
    ensures forall x | x in s :: x in Joined(s, variant) && Joined(s, variant)[x] == s[x]
    ensures forall x | x in variant ::
        VARIANT + x in Joined(s, variant) && Joined(s, variant)[VARIANT + x] == variant[x]
    ensures NaturalStore(s) && NaturalStore(variant) ==> NaturalStore(Joined(s, variant))
  {
    var renamed := map y | y in (set x | x in variant :: VARIANT + x) :: variant[y[|VARIANT|..]];
    forall x | x in variant ensures VARIANT + x in renamed && renamed[VARIANT + x] == variant[x] {
      assert (VARIANT + x)[|VARIANT|..] == x;
    }
    forall y | y in renamed ensures VARIANT <= y {
    }
  }

  lemma AllTrueJoined(w: World, defs: Defs, ps: seq<Prop>, hyps: seq<Fact<Neutral>>, s: Store, s': Store, k: nat)
    requires Known(defs, ps, hyps)
    requires AllTrue(w, ps, s, k) && forall x | x in s :: x in s' && s'[x] == s[x]
    ensures AllTrue(w, ps, s', k)
  {
    forall i | 0 <= i < |ps| ensures True(w, ps[i], s', k) {
      assert True(w, ps[i], s, k) && PropBuilt(defs, ps[i]);
      RefAgree(w, ps[i].a, s, s', k);
      RefAgree(w, ps[i].b, s, s', k);
      RunAgree(w, ps[i].a, s, s', k);
      RunAgree(w, ps[i].b, s, s', k);
    }
  }

  /**
   * A clash is a proof: no natural values of the caller's variables that make
   * the propositions in scope true, and none of the variant's own variables,
   * make the use-site index and the variant's index equal.
   */
  lemma ClashNeverEqual(
      w: World, defs: Defs, ps: seq<Prop>, hyps: seq<Fact<Neutral>>, use: Term, variant: Term,
      s: Store, own: Store, k: nat)
    requires Knows(w, defs) && TailDefs(defs) && NaturalCalls(w) && NaturalStore(s) && NaturalStore(own)
    requires Known(defs, ps, hyps) && AllTrue(w, ps, s, k) && CallerNames(s.Keys)
    requires NoIf(use) && NoIf(variant) && FreeVars(use) <= s.Keys && FreeVars(variant) <= own.Keys
    requires Runs(w, use, s, k) && Runs(w, variant, own, k)
    requires ClashAnswer(hyps, use, variant, true)
    ensures Ref(w, use, s, k).value != Ref(w, variant, own, k).value
  {
    var all, renamed := Joined(s, own), RenameFree(variant, VARIANT);
    JoinedHolds(s, own);
    AllTrueJoined(w, defs, ps, hyps, s, all, k);
    RefAgree(w, use, s, all, k);
    RunAgree(w, use, s, all, k);
    RenameMeans(w, variant, all, own, k);
    RenameRuns(w, variant, all, own, k);
    RenameShape(variant);
    JoinedClash(w, defs, ps, hyps, use, renamed, all, k);
  }

  lemma JoinedClash(
      w: World, defs: Defs, ps: seq<Prop>, hyps: seq<Fact<Neutral>>, use: Term, renamed: Term, s: Store, k: nat)
    requires Knows(w, defs) && TailDefs(defs) && NaturalCalls(w) && NaturalStore(s)
    requires Known(defs, ps, hyps) && AllTrue(w, ps, s, k)
    requires NoIf(use) && NoIf(renamed) && FreeVars(use) <= s.Keys && FreeVars(renamed) <= s.Keys
    requires Runs(w, use, s, k) && Runs(w, renamed, s, k)
    requires SymbolicValue(map[], use).Some? && SymbolicValue(map[], renamed).Some?
    requires var a, b := SymbolicValue(map[], use).value, SymbolicValue(map[], renamed).value;
             NeverZero(Add(AsLin(a), AsLin(b), -1)) || ApartAnswer(hyps, a, b, true)
    ensures Ref(w, use, s, k).value != Ref(w, renamed, s, k).value
  {
    var m0 := HypothesesHold(w, defs, ps, hyps, s, k);
    var ma := SymbolicReads(w, map[], use, s, k);
    var mb := SymbolicReads(w, map[], renamed, s, k);
    ApartFrom(w, hyps, SymbolicValue(map[], use).value, SymbolicValue(map[], renamed).value, s,
              Ref(w, use, s, k).value, Ref(w, renamed, s, k).value, m0, ma, mb);
  }

  lemma ApartFrom(
      w: World, hyps: seq<Fact<Neutral>>, a: Value, b: Value, s: Store, m: int, n: int, i: nat, j: nat, k: nat)
    requires ReadTrueFrom(w, hyps, s, i) && ReadsFrom(w, a, s, m, j) && ReadsFrom(w, b, s, n, k)
    requires NeverZero(Add(AsLin(a), AsLin(b), -1)) || ApartAnswer(hyps, a, b, true)
    ensures m != n
  {
    var deep := Max(i, Max(j, k));
    var v := Reading(w, StoreValuation(s), deep);
    assert AllHold(hyps, v) && Val(AsLin(a), v) == m && Val(AsLin(b), v) == n;
    ReadingNatural(w, StoreValuation(s), deep);
    ApartIsApart(hyps, a, b, v);
  }

  lemma NeverZeroApart(a: Lin<Neutral>, b: Lin<Neutral>, v: Neutral -> int)
    requires Natural(v) && NeverZero(Add(a, b, -1))
    ensures Val(a, v) != Val(b, v)
  {
    ValAdd(a, b, -1, v);
    NeverZeroVal(Add(a, b, -1), v);
  }

  lemma ApartIsApart(hyps: seq<Fact<Neutral>>, a: Value, b: Value, v: Neutral -> int)
    requires Natural(v) && AllHold(hyps, v)
    requires NeverZero(Add(AsLin(a), AsLin(b), -1)) || ApartAnswer(hyps, a, b, true)
    ensures Val(AsLin(a), v) != Val(AsLin(b), v)
  {
    if NeverZero(Add(AsLin(a), AsLin(b), -1)) {
      NeverZeroApart(AsLin(a), AsLin(b), v);
    } else if Decides(Above(a, b), hyps, true) {
      AboveHolds(hyps, a, b, v);
    } else {
      AboveHolds(hyps, b, a, v);
    }
  }

  lemma AboveHolds(hyps: seq<Fact<Neutral>>, a: Value, b: Value, v: Neutral -> int)
    requires Natural(v) && AllHold(hyps, v) && Decides(Above(a, b), hyps, true)
    ensures Val(AsLin(a), v) > Val(AsLin(b), v)
  {
    DecideSound(Above(a, b), hyps);
    assert Holds(Above(a, b), v);
    ValConst(1, v);
    ValAdd(AsLin(a), AsLin(b), -1, v);
    ValAdd(Add(AsLin(a), AsLin(b), -1), Const(1), -1, v);
  }
}
