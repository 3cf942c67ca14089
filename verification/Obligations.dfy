/**
 * Subtraction obligations (internal/core/oblig.go): `a - b` is admitted only
 * where the path proves a >= b. Terms that are not sums or differences are
 * atoms; each branch of an if gains what its condition says.
 *
 * Main result: no run of admitted definitions on naturals executes a
 * subtraction whose left operand is the smaller, and every answer is natural.
 */
module Obligations {
  import opened Options
  import opened Linear
  import opened Terms
  import opened Decider

  function ObligLin(t: Term): Lin<Term> {
    match t
    case Nat(n) => Const(n)
    case Prim(Plus, l, r) => Add(ObligLin(l), ObligLin(r), 1)
    case Prim(Minus, l, r) => Add(ObligLin(l), ObligLin(r), -1)
    case _ => Atom(t)
  }

  function AtLeast(a: Lin<Term>, b: Lin<Term>): Fact<Term> {
    Fact(FactGe, Add(a, b, -1))
  }

  /** What a comparison contributes; != is usable only against zero. */
  function CondFacts(op: Cmp, l: Lin<Term>, r: Lin<Term>): seq<Fact<Term>> {
    var one: Lin<Term> := Const(1);
    match op
    case CmpEq => [Fact(FactEq, Add(l, r, -1))]
    case CmpNe =>
      if Ground(r) && r.c == 0 then [AtLeast(l, one)]
      else if Ground(l) && l.c == 0 then [AtLeast(r, one)]
      else []
    case CmpLt => [AtLeast(r, Add(l, one, 1))]
    case CmpLe => [AtLeast(r, l)]
    case CmpGt => [AtLeast(l, Add(r, one, 1))]
    case CmpGe => [AtLeast(l, r)]
  }

  function Negate(op: Cmp): Cmp {
    match op
    case CmpEq => CmpNe
    case CmpNe => CmpEq
    case CmpLt => CmpGe
    case CmpLe => CmpGt
    case CmpGt => CmpLe
    case CmpGe => CmpLt
  }

  function Goal(l: Term, r: Term): Fact<Term> {
    AtLeast(ObligLin(l), ObligLin(r))
  }

  function ThenFacts(t: Term): seq<Fact<Term>>
    requires t.If?
  {
    CondFacts(t.cmp, ObligLin(t.a), ObligLin(t.b))
  }

  function ElseFacts(t: Term): seq<Fact<Term>>
    requires t.If?
  {
    CondFacts(Negate(t.cmp), ObligLin(t.a), ObligLin(t.b))
  }

  // --------------------------------------------------- what the walk decides

  /** Every obligation of `t` can be answered true under its path facts. */
  ghost predicate Passes(t: Term, hyps: seq<Fact<Term>>) {
    match t
    case Var(_) => true
    case Nat(_) => true
    case Prim(op, l, r) => Passes(l, hyps) && Passes(r, hyps) && (op.Minus? ==> Decides(Goal(l, r), hyps, true))
    case Call(_, args) => forall i | 0 <= i < |args| :: Passes(args[i], hyps)
    case If(_, a, b, thn, els) =>
      Passes(a, hyps) && Passes(b, hyps) && Passes(thn, hyps + ThenFacts(t)) && Passes(els, hyps + ElseFacts(t))
  }

  /** `l - r` is the first obligation answered false. */
  ghost predicate Fails(t: Term, hyps: seq<Fact<Term>>, x: Term, y: Term) {
    match t
    case Var(_) => false
    case Nat(_) => false
    case Prim(op, l, r) =>
      || Fails(l, hyps, x, y)
      || (Passes(l, hyps) && Fails(r, hyps, x, y))
      || (Passes(l, hyps) && Passes(r, hyps) && op.Minus? && x == l && y == r && Decides(Goal(l, r), hyps, false))
    case Call(_, args) =>
      exists i | 0 <= i < |args| ::
        Fails(args[i], hyps, x, y) && forall j | 0 <= j < i :: Passes(args[j], hyps)
    case If(_, a, b, thn, els) =>
      || Fails(a, hyps, x, y)
      || (Passes(a, hyps) && Fails(b, hyps, x, y))
      || (Passes(a, hyps) && Passes(b, hyps) && Fails(thn, hyps + ThenFacts(t), x, y))
      || (Passes(a, hyps) && Passes(b, hyps) && Passes(thn, hyps + ThenFacts(t))
         && Fails(els, hyps + ElseFacts(t), x, y))
  }

  datatype Report = Discharged | Unproved(l: Term, r: Term)

  method WalkOblig(t: Term, hyps: seq<Fact<Term>>) returns (r: Report)
    ensures r.Discharged? ==> Passes(t, hyps)
    ensures r.Unproved? ==> Fails(t, hyps, r.l, r.r)
    decreases t
  {
    match t
    case Var(_) => r := Discharged;
    case Nat(_) => r := Discharged;
    case Prim(op, x, y) =>
      r := WalkOblig(x, hyps);
      if r.Unproved? { return; }
      r := WalkOblig(y, hyps);
      if r.Unproved? { return; }
      if op.Minus? {
        var diff := LinAdd(ObligLin(x), ObligLin(y), -1);
        var ok := Decide(Fact(FactGe, diff), hyps);
        if !ok {
          r := Unproved(x, y);
        }
      }
    case Call(_, args) =>
      var i := 0;
      while i < |args|
        invariant 0 <= i <= |args|
        invariant forall j | 0 <= j < i :: Passes(args[j], hyps)
      {
        r := WalkOblig(args[i], hyps);
        if r.Unproved? { return; }
        i := i + 1;
      }
      r := Discharged;
    case If(op, a, b, thn, els) =>
      r := WalkOblig(a, hyps);
      if r.Unproved? { return; }
      r := WalkOblig(b, hyps);
      if r.Unproved? { return; }
      r := WalkOblig(thn, hyps + ThenFacts(t));
      if r.Unproved? { return; }
      r := WalkOblig(els, hyps + ElseFacts(t));
  }

  method CheckSubtractions(def: Def) returns (r: Report)
    ensures r.Discharged? ==> Admitted(def)
    ensures r.Unproved? ==> Fails(def.body, [], r.l, r.r)
  {
    r := WalkOblig(def.body, []);
  }

  ghost predicate Admitted(def: Def) {
    Passes(def.body, [])
  }

  // ------------------------------------------------------------ safe runs

  /** Each subtraction the run executes, to depth `k`, has left operand >= right operand. */
  ghost predicate Safe(w: World, t: Term, s: Store, k: nat)
    decreases k, 0, 0
  {
    k > 0 ==>
    match t
    case Var(_) => true
    case Nat(_) => true
    case Prim(op, l, r) =>
      var a, b := Ref(w, l, s, k - 1), Ref(w, r, s, k - 1);
      && Safe(w, l, s, k - 1) && Safe(w, r, s, k - 1)
      && (op.Minus? && a.Some? && b.Some? ==> a.value >= b.value)
    case Call(fn, args) =>
      var vs := RefAll(w, args, s, k - 1);
      && (forall i | 0 <= i < |args| :: Safe(w, args[i], s, k - 1))
      && (vs.Some? ==> SafeCall(w, fn, vs.value, k - 1))
    case If(op, l, r, thn, els) =>
      var a, b := Ref(w, l, s, k - 1), Ref(w, r, s, k - 1);
      && Safe(w, l, s, k - 1) && Safe(w, r, s, k - 1)
      && (a.Some? && b.Some? ==> Safe(w, if Compare(op, a.value, b.value) then thn else els, s, k - 1))
  }

  ghost predicate SafeCall(w: World, fn: string, vs: seq<int>, k: nat)
    decreases k, 1, 0
  {
    fn in w.defs && |vs| == |w.defs[fn].params| ==> Safe(w, w.defs[fn].body, Bind(w.defs[fn].params, vs), k)
  }

  ghost predicate NaturalAnswer(r: Option<int>) {
    r.Some? ==> r.value >= 0
  }

  /** Definitions are admitted; functions without a definition answer naturals. */
  ghost predicate AdmittedWorld(w: World) {
    && (forall fn | fn in w.defs :: Admitted(w.defs[fn]))
    && (forall fn, vs :: w.ext(fn, vs) >= 0)
  }

  /** Atoms read at depth `k`: the values the run gives them. */
  ghost function Reading(w: World, s: Store, k: nat): Term -> int {
    t => var r := Ref(w, t, s, k); if r.Some? && r.value >= 0 then r.value else 0
  }

  /** The form of `t` denotes the answer `n`. */
  ghost predicate Read(w: World, t: Term, s: Store, k: nat, n: int) {
    Val(ObligLin(t), Reading(w, s, k)) == n
  }

  lemma BindNatural(params: seq<string>, vs: seq<int>)
    requires |params| == |vs| && forall i | 0 <= i < |vs| :: vs[i] >= 0
    ensures NaturalStore(Bind(params, vs))
  {
    forall p | p in Bind(params, vs) ensures Bind(params, vs)[p] >= 0 {
      var i := BindIndex(params, vs, vs, p);
    }
  }

  /** The comparisons that contribute nothing: != between two forms other than zero. */
  predicate Silent(op: Cmp, l: Lin<Term>, r: Lin<Term>) {
    op.CmpNe? && l != Const(0) && r != Const(0)
  }

  /** A comparison's facts say exactly the comparison, where != has facts at all. */
  lemma CondFactsExact(op: Cmp, l: Lin<Term>, r: Lin<Term>, w: Term -> int)
    requires Val(l, w) >= 0 && Val(r, w) >= 0
    ensures AllHold(CondFacts(op, l, r), w) <==> Silent(op, l, r) || Compare(op, Val(l, w), Val(r, w))
  {
    var one: Lin<Term> := Const(1);
    ValConst(1, w);
    match op
    case CmpEq =>
      ValAdd(l, r, -1, w);
      SingleHolds(Fact(FactEq, Add(l, r, -1)), w);
    case CmpNe =>
      NotEqualFacts(l, r, w);
    case CmpLt =>
      ValAdd(l, one, 1, w);
      AtLeastHolds(r, Add(l, one, 1), w);
    case CmpLe =>
      AtLeastHolds(r, l, w);
    case CmpGt =>
      ValAdd(r, one, 1, w);
      AtLeastHolds(l, Add(r, one, 1), w);
    case CmpGe =>
      AtLeastHolds(l, r, w);
  }

  lemma NotEqualFacts(l: Lin<Term>, r: Lin<Term>, w: Term -> int)
    requires Val(l, w) >= 0 && Val(r, w) >= 0
    ensures AllHold(CondFacts(CmpNe, l, r), w) <==> Silent(CmpNe, l, r) || Val(l, w) != Val(r, w)
  {
    var one: Lin<Term> := Const(1);
    ValConst(0, w);
    ValConst(1, w);
    if r == Const(0) {
      AtLeastHolds(l, one, w);
    } else if l == Const(0) {
      AtLeastHolds(r, one, w);
    }
  }

  lemma SingleHolds(f: Fact<Term>, w: Term -> int)
    ensures AllHold([f], w) <==> Holds(f, w)
  {
    assert [f][0] == f;
  }

  lemma AtLeastHolds(a: Lin<Term>, b: Lin<Term>, w: Term -> int)
    ensures AllHold([AtLeast(a, b)], w) <==> Val(a, w) >= Val(b, w)
  {
    ValAdd(a, b, -1, w);
    SingleHolds(AtLeast(a, b), w);
  }

  lemma NegateRight(op: Cmp, a: int, b: int)
    ensures Compare(Negate(op), a, b) <==> !Compare(op, a, b)
  {
  }

  lemma AllHoldAppend(fs: seq<Fact<Term>>, gs: seq<Fact<Term>>, w: Term -> int)
    requires AllHold(fs, w) && AllHold(gs, w)
    ensures AllHold(fs + gs, w)
  {
    forall i | 0 <= i < |fs + gs| ensures Holds((fs + gs)[i], w) {
      if i >= |fs| {
        assert (fs + gs)[i] == gs[i - |fs|];
      }
    }
  }

  /** An atom reads as the answer the run gave it. */
  lemma ReadAtom(w: World, t: Term, s: Store, k: nat, top: nat)
    requires ObligLin(t) == Atom(t) && k <= top
    requires Ref(w, t, s, k).Some? && Ref(w, t, s, k).value >= 0
    ensures Read(w, t, s, top, Ref(w, t, s, k).value)
  {
    RefMonotone(w, t, s, k, top);
    ValAtom(t, Reading(w, s, top));
  }

  /** Safe to depth `k`, and any answer is natural and is what the form denotes. */
  ghost predicate Sound(w: World, t: Term, s: Store, k: nat, top: nat) {
    var r := Ref(w, t, s, k);
    Safe(w, t, s, k) && (r.Some? ==> r.value >= 0 && Read(w, t, s, top, r.value))
  }

  /** The invariant of the walk: run `t` to any depth `k` under facts that hold at depth `top`. */
  lemma {:induction false} WalkSafe(w: World, t: Term, hyps: seq<Fact<Term>>, s: Store, k: nat, top: nat)
    requires AdmittedWorld(w) && NaturalStore(s) && k <= top
    requires Passes(t, hyps) && AllHold(hyps, Reading(w, s, top))
    ensures Sound(w, t, s, k, top)
    decreases k, 0, t
  {
    if k > 0 {
      match t
      case Var(_) =>
        WalkSafeLeaf(w, t, s, k, top);
      case Nat(_) =>
        WalkSafeLeaf(w, t, s, k, top);
      case Prim(op, l, r) =>
        WalkSafe(w, l, hyps, s, k - 1, top);
        WalkSafe(w, r, hyps, s, k - 1, top);
        WalkSafePrim(w, op, l, r, hyps, s, k, top);
      case Call(fn, args) =>
        forall i | 0 <= i < |args| ensures Sound(w, args[i], s, k - 1, top) {
          WalkSafe(w, args[i], hyps, s, k - 1, top);
        }
        WalkSafeCall(w, fn, args, s, k, top);
      case If(_, a, b, _, _) =>
        WalkSafe(w, a, hyps, s, k - 1, top);
        WalkSafe(w, b, hyps, s, k - 1, top);
        WalkSafeIf(w, t, hyps, s, k, top);
    }
  }

  lemma WalkSafeLeaf(w: World, t: Term, s: Store, k: nat, top: nat)
    requires NaturalStore(s) && 0 < k <= top && (t.Var? || t.Nat?)
    ensures Sound(w, t, s, k, top)
  {
    if t.Nat? {
      ValConst(t.n, Reading(w, s, top));
    } else if t.name in s {
      ReadAtom(w, t, s, k, top);
    }
  }

  lemma WalkSafePrim(w: World, op: PrimOp, l: Term, r: Term, hyps: seq<Fact<Term>>, s: Store, k: nat, top: nat)
    requires 0 < k <= top && Passes(Prim(op, l, r), hyps) && AllHold(hyps, Reading(w, s, top))
    requires Sound(w, l, s, k - 1, top) && Sound(w, r, s, k - 1, top)
    ensures Sound(w, Prim(op, l, r), s, k, top)
  {
    if Ref(w, l, s, k - 1).Some? && Ref(w, r, s, k - 1).Some? {
      PrimSound(w, op, l, r, hyps, s, k, top);
    }
  }

  lemma PrimSound(w: World, op: PrimOp, l: Term, r: Term, hyps: seq<Fact<Term>>, s: Store, k: nat, top: nat)
    requires 0 < k <= top && Passes(Prim(op, l, r), hyps) && AllHold(hyps, Reading(w, s, top))
    requires var a, b := Ref(w, l, s, k - 1), Ref(w, r, s, k - 1);
             && a.Some? && b.Some? && a.value >= 0 && b.value >= 0
             && Read(w, l, s, top, a.value) && Read(w, r, s, top, b.value)
    ensures op.Minus? ==> Ref(w, l, s, k - 1).value >= Ref(w, r, s, k - 1).value
    ensures Ref(w, Prim(op, l, r), s, k).value >= 0
    ensures Read(w, Prim(op, l, r), s, top, Ref(w, Prim(op, l, r), s, k).value)
  {
    var v := Reading(w, s, top);
    match op
    case Plus =>
      ValAdd(ObligLin(l), ObligLin(r), 1, v);
    case Minus =>
      ValAdd(ObligLin(l), ObligLin(r), -1, v);
      DecideSound(Goal(l, r), hyps);
      assert Natural(v);
      assert Holds(Goal(l, r), v);
    case Times =>
      TimesNatural(w, l, r, s, k);
      ReadAtom(w, Prim(op, l, r), s, k, top);
  }

  lemma TimesNatural(w: World, l: Term, r: Term, s: Store, k: nat)
    requires k > 0
    requires var a, b := Ref(w, l, s, k - 1), Ref(w, r, s, k - 1); a.Some? && b.Some? && a.value >= 0 && b.value >= 0
    ensures Ref(w, Prim(Times, l, r), s, k).Some? && Ref(w, Prim(Times, l, r), s, k).value >= 0
  {
    Sums.ProductNonneg(Ref(w, l, s, k - 1).value, Ref(w, r, s, k - 1).value);
  }

  lemma {:induction false} WalkSafeCall(w: World, fn: string, args: seq<Term>, s: Store, k: nat, top: nat)
    requires AdmittedWorld(w) && 0 < k <= top
    requires forall i | 0 <= i < |args| :: Sound(w, args[i], s, k - 1, top)
    ensures Sound(w, Call(fn, args), s, k, top)
    decreases k - 1, 2
  {
    if RefAll(w, args, s, k - 1).Some? {
      var vs := RefAll(w, args, s, k - 1).value;
      forall i | 0 <= i < |vs| ensures vs[i] >= 0 {
        RefAllAt(w, args, s, k - 1, i);
      }
      CallSafe(w, fn, vs, k - 1);
      if Ref(w, Call(fn, args), s, k).Some? {
        ReadAtom(w, Call(fn, args), s, k, top);
      }
    }
  }

  /** A call of an admitted definition on naturals is safe and natural. */
  lemma {:induction false} CallSafe(w: World, fn: string, vs: seq<int>, k: nat)
    requires AdmittedWorld(w) && forall i | 0 <= i < |vs| :: vs[i] >= 0
    ensures SafeCall(w, fn, vs, k) && NaturalAnswer(Apply(w, fn, vs, k))
    decreases k, 1, fn
  {
    if fn in w.defs && |vs| == |w.defs[fn].params| {
      var def := w.defs[fn];
      BindNatural(def.params, vs);
      assert Admitted(def);
      WalkSafe(w, def.body, [], Bind(def.params, vs), k, k);
    }
  }

  lemma {:induction false} WalkSafeIf(w: World, t: Term, hyps: seq<Fact<Term>>, s: Store, k: nat, top: nat)
    requires AdmittedWorld(w) && NaturalStore(s) && 0 < k <= top
    requires t.If? && Passes(t, hyps) && AllHold(hyps, Reading(w, s, top))
    requires Sound(w, t.a, s, k - 1, top) && Sound(w, t.b, s, k - 1, top)
    ensures Sound(w, t, s, k, top)
    decreases k - 1, 4
  {
    if Ref(w, t.a, s, k - 1).Some? && Ref(w, t.b, s, k - 1).Some? {
      BranchSafe(w, t, hyps, s, k, top);
      if Ref(w, t, s, k).Some? {
        ReadAtom(w, t, s, k, top);
      }
    }
  }

  lemma {:induction false} BranchSafe(w: World, t: Term, hyps: seq<Fact<Term>>, s: Store, k: nat, top: nat)
    requires AdmittedWorld(w) && NaturalStore(s) && 0 < k <= top
    requires t.If? && Passes(t, hyps) && AllHold(hyps, Reading(w, s, top))
    requires Ref(w, t.a, s, k - 1).Some? && Ref(w, t.b, s, k - 1).Some?
    requires Sound(w, t.a, s, k - 1, top) && Sound(w, t.b, s, k - 1, top)
    ensures var a, b := Ref(w, t.a, s, k - 1).value, Ref(w, t.b, s, k - 1).value;
            Sound(w, if Compare(t.cmp, a, b) then t.thn else t.els, s, k - 1, top)
    decreases k - 1, 3
  {
    var a, b := Ref(w, t.a, s, k - 1).value, Ref(w, t.b, s, k - 1).value;
    var v := Reading(w, s, top);
    if Compare(t.cmp, a, b) {
      CondFactsExact(t.cmp, ObligLin(t.a), ObligLin(t.b), v);
      AllHoldAppend(hyps, ThenFacts(t), v);
      WalkSafe(w, t.thn, hyps + ThenFacts(t), s, k - 1, top);
    } else {
      NegateRight(t.cmp, a, b);
      CondFactsExact(Negate(t.cmp), ObligLin(t.a), ObligLin(t.b), v);
      AllHoldAppend(hyps, ElseFacts(t), v);
      WalkSafe(w, t.els, hyps + ElseFacts(t), s, k - 1, top);
    }
  }

  /** With no path facts a rejection is never a false alarm: some reading of the atoms refutes it. */
  lemma UnguardedRejectionExact(l: Term, r: Term, answer: bool)
    requires Decides(Goal(l, r), [], answer)
    ensures answer <==> forall v: Term -> int | Natural(v) :: Val(ObligLin(l), v) >= Val(ObligLin(r), v)
  {
    DecideExact(Goal(l, r), answer);
    forall v: Term -> int ensures Holds(Goal(l, r), v) <==> Val(ObligLin(l), v) >= Val(ObligLin(r), v) {
      ValAdd(ObligLin(l), ObligLin(r), -1, v);
    }
    if forall v: Term -> int | Natural(v) :: Val(ObligLin(l), v) >= Val(ObligLin(r), v) {
      assert Entails([], Goal(l, r));
    }
    if answer {
      var none: seq<Fact<Term>> := [];
      forall v: Term -> int | Natural(v) ensures Val(ObligLin(l), v) >= Val(ObligLin(r), v) {
        assert AllHold(none, v);
        assert Holds(Goal(l, r), v);
      }
    }
  }
}
