/**
 * Two index terms with calls: one whose clash is the theorem at work, and one
 * that calls a total function on `n-1` without knowing n, where a clash is no
 * proof.
 */
module IndexCases {
  import opened Options
  import opened Linear
  import opened Decider
  import opened Terms
  import opened Values
  import opened Elaborator
  import opened Normalizer
  import opened Atoms
  import opened Indices
  import Obligations
  import Totality
  import Divergence
  import Computes

  // ------------------------------------------------------------- addition

  /** Plus(a, b) = if a == 0 then b else Plus(a-1, b) + 1 */
  const Rest: Term := Call("Plus", [Prim(Minus, Var("a"), Nat(1)), Var("b")])
  const Sum: Def := Def("Plus", ["a", "b"], If(CmpEq, Var("a"), Nat(0), Var("b"), Prim(Plus, Rest, Nat(1))))

  ghost predicate SumWorld(w: World) {
    w.defs == map["Plus" := Sum] && forall fn, vs :: w.ext(fn, vs) >= 0
  }

  lemma SumAdmitted()
    ensures Obligations.Admitted(Sum)
  {
    var none: seq<Fact<Term>> := [];
    var facts := none + Obligations.ElseFacts(Sum.body);
    Divergence.GuardFacts("a", Sum.body.thn, Sum.body.els);
    Divergence.GuardedPredecessor("a", facts);
    assert Obligations.Passes(Rest, facts);
    Divergence.GuardPasses(Sum.body, none);
  }

  lemma SumChecked(callable: string -> bool)
    ensures Totality.CheckTotal(Sum, callable) == Totality.Accepted
  {
    Divergence.PredecessorDecreases(Sum, 0);
    Divergence.WalkPair(Sum, callable, Rest.args);
    Divergence.WalkSelf(Sum, callable, Rest, 0);
    Divergence.WalkGuard(Sum, callable, Sum.body);
  }

  lemma SumScoped(ds: seq<Def>)
    requires ds == [Sum]
    ensures Totality.WellFormed(ds)
  {
    var ps := Sum.params;
    assert ps[0] == "a" && ps[1] == "b";
    assert Totality.Scoped(ds, ps, Var("a")) && Totality.Scoped(ds, ps, Var("b"));
    assert Totality.Scoped(ds, ps, Nat(0)) && Totality.Scoped(ds, ps, Nat(1));
    assert Totality.Scoped(ds, ps, Rest);
    Divergence.GuardedScoped(ds, ps, Sum.body);
  }

  lemma SumDescends()
    ensures Totality.CommonPositions([Sum], [0])
  {
    Divergence.PredecessorDecreases(Sum, 0);
    assert Totality.DescendsAt(Sum, Rest, 0);
  }

  /** Addition meets the totality theorem's hypotheses, so it answers on all naturals. */
  lemma SumAnswers(w: World, m: int, n: int) returns (k: nat)
    requires SumWorld(w) && m >= 0 && n >= 0
    ensures Apply(w, "Plus", [m, n], k).Some?
  {
    var ds := [Sum];
    SumAdmitted();
    SumChecked(Totality.Callable(ds, 0));
    SumScoped(ds);
    SumDescends();
    Totality.OneProgram(w, Sum);
    Totality.AcceptedProgramsTotal(w, ds, [0], 0, [m, n]);
    var d, r :| r >= 0 && Apply(w, ds[0].name, [m, n], d) == Some(r);
    k := d;
  }

  lemma SumBranch(w: World, m: int, n: int, k: nat)
    requires SumWorld(w) && m >= 0 && n >= 0 && Apply(w, "Plus", [m, n], k).Some?
    ensures var s: Store := map["a" := m, "b" := n];
            k > 1 && Apply(w, "Plus", [m, n], k) == Ref(w, if m == 0 then Sum.body.thn else Sum.body.els, s, k - 1)
  {
    Divergence.BindPair([m, n]);
    var s: Store := map["a" := m, "b" := n];
    assert Ref(w, Sum.body, s, k).Some?;
    assert Ref(w, Var("a"), s, k - 1) == Some(m) && Ref(w, Nat(0), s, k - 1) == Some(0);
  }

  /** One turn of the recursion. */
  lemma SumStep(w: World, m: int, n: int, k: nat)
    requires SumWorld(w) && m > 0 && n >= 0 && Apply(w, "Plus", [m, n], k).Some?
    ensures k > 2 && Apply(w, "Plus", [m - 1, n], k - 3).Some?
    ensures Apply(w, "Plus", [m, n], k).value == Apply(w, "Plus", [m - 1, n], k - 3).value + 1
  {
    SumBranch(w, m, n, k);
    var s: Store := map["a" := m, "b" := n];
    assert Ref(w, Rest, s, k - 2).Some?;
    Divergence.RefAllPair(w, Rest.args, s, k - 3, m - 1, n);
    assert Ref(w, Rest, s, k - 2) == Apply(w, "Plus", [m - 1, n], k - 3);
  }

  lemma {:induction false} SumIs(w: World, m: int, n: int, k: nat)
    requires SumWorld(w) && m >= 0 && n >= 0 && Apply(w, "Plus", [m, n], k).Some?
    ensures Apply(w, "Plus", [m, n], k) == Some(m + n)
    decreases k
  {
    if m > 0 {
      SumStep(w, m, n, k);
      SumIs(w, m - 1, n, k - 3);
    } else {
      SumBranch(w, m, n, k);
    }
  }

  lemma RefLiterals(w: World, m: nat, n: nat, s: Store, k: nat)
    requires k > 0
    ensures RefAll(w, [Nat(m), Nat(n)], s, k) == Some([m, n])
  {
    var ts := [Nat(m), Nat(n)];
    assert ts[1..] == [Nat(n)] && ts[1..][1..] == [];
    assert Ref(w, ts[0], s, k) == Some(m) && Ref(w, ts[1..][0], s, k) == Some(n);
    assert RefAll(w, ts[1..][1..], s, k).Some?;
    assert RefAll(w, ts[1..], s, k).Some?;
    Divergence.RefAllPair(w, ts, s, k, m, n);
  }

  lemma SumDefined(defs: Defs)
    requires "Plus" in defs
    ensures Computes.Defined(defs, Sum.body)
  {
    assert Computes.Defined(defs, Rest);
  }

  /** The normal form of Plus(m, n) is the literal m + n. */
  lemma SumComputes(w: World, permissive: bool, m: nat, n: nat) returns (fuel: nat)
    requires SumWorld(w)
    ensures Computes.Gives(map["Plus" := Sum], permissive, Call("Plus", [Nat(m), Nat(n)]), map[], fuel, m + n)
  {
    var k := SumAnswers(w, m, n);
    SumIs(w, m, n, k);
    var t, deep := Call("Plus", [Nat(m), Nat(n)]), k + 1;
    var once := Apply(w, "Plus", [m, n], deep);
    assert once == Some(m + n) by {
      Divergence.BindPair([m, n]);
      RefMonotone(w, Sum.body, map["a" := m, "b" := n], k, deep);
    }
    RefLiterals(w, m, n, map[], deep);
    assert Ref(w, t, map[], deep + 1) == Some(m + n);
    SumDefined(map["Plus" := Sum]);
    fuel := Computes.ClosedComputes(w, map["Plus" := Sum], permissive, t, map[], map[], deep + 1, m + n);
  }

  // ----------------------------------------------------- a clash that holds

  /** An index fn(args) + 1. */
  function Successor(fn: string, args: seq<Term>): Term {
    Prim(Plus, Call(fn, args), Nat(1))
  }

  ghost predicate Normalises(args: seq<Term>, env: Env, fuel: int) {
    EvaluateAll(map[], true, args, env, fuel).0.Ok? && EvaluateAll(map[], true, args, env, fuel).1 > 1
  }

  /** The normal form of fn(args) + 1 is an atom and one. */
  lemma SuccessorForm(fn: string, args: seq<Term>, env: Env, fuel: int)
    requires fuel > 2 && Normalises(args, env, fuel - 2)
    ensures var r := Evaluate(map[], true, Successor(fn, args), env, fuel).0;
            && r.Ok? && r.value.VLin? && r.value.lin.c == 1
            && forall n | n in r.value.lin.coef :: r.value.lin.coef[n] >= 0
  {
    var (vs, f) := EvaluateAll(map[], true, args, env, fuel - 2);
    var call := VNeu(NCall(fn, vs.value));
    assert EvaluateCall(map[], true, fn, args, env, fuel - 2) == (Result.Ok(call), f);
    assert Evaluate(map[], true, Call(fn, args), env, fuel - 1) == (Result.Ok(call), f);
    assert Evaluate(map[], true, Nat(1), env, f) == (Result.Ok(VLin(Const(1))), f - 1);
  }

  /** So it clashes with zero, whatever the function. */
  lemma SuccessorClash(fn: string, args: seq<Term>)
    requires Normalises(args, SymbolicEnv(Successor(fn, args)), SYMBOLIC_FUEL - 2)
    ensures ClashAnswer([], Successor(fn, args), Nat(0), true)
  {
    var t := Successor(fn, args);
    SuccessorForm(fn, args, SymbolicEnv(t), SYMBOLIC_FUEL);
    assert RenameFree(Nat(0), VARIANT) == Nat(0);
    assert SymbolicValue(map[], Nat(0)) == Some(VLin(Const(0)));
    var v := SymbolicValue(map[], t).value;
    var d := Add(AsLin(v), Const(0), -1);
    assert d.c == 1 && forall n | n in d.coef :: d.coef[n] == AsLin(v).coef[n];
    assert NeverZero(d);
  }

  const Both: seq<Term> := [Var("m"), Var("n")]

  lemma BothNormalise(env: Env, fuel: int)
    requires fuel > 10 && "m" in env && "n" in env
    ensures Normalises(Both, env, fuel)
  {
    assert Both[1..] == [Var("n")] && Both[1..][1..] == [];
    assert Evaluate(map[], true, Var("m"), env, fuel) == (Result.Ok(env["m"]), fuel - 1);
    assert Evaluate(map[], true, Var("n"), env, fuel - 1) == (Result.Ok(env["n"]), fuel - 2);
    assert EvaluateAll(map[], true, Both[1..][1..], env, fuel - 2).0.Ok?;
    assert EvaluateAll(map[], true, Both[1..], env, fuel - 1).0.Ok?;
    assert EvaluateAll(map[], true, Both[1..], env, fuel - 1).1 == fuel - 2;
  }

  lemma BothFree()
    ensures FreeVars(Successor("Plus", Both)) == {"m", "n"}
  {
    assert Both[1..] == [Var("n")] && Both[1..][1..] == [];
    assert FreeVarsAll(Both[1..]) == {"n"};
  }

  lemma SumClash()
    ensures ClashAnswer([], Successor("Plus", Both), Nat(0), true)
  {
    BothFree();
    BothNormalise(SymbolicEnv(Successor("Plus", Both)), SYMBOLIC_FUEL - 2);
    SuccessorClash("Plus", Both);
  }

  lemma SumWorldNatural(w: World)
    requires SumWorld(w)
    ensures Obligations.AdmittedWorld(w) && NaturalCalls(w) && TailDefs(w.defs)
  {
    SumAdmitted();
    OneAdmitted(w, "Plus", Sum);
    AdmittedNatural(w);
    SumTail();
    OneTail(w.defs, "Plus", Sum);
  }

  lemma SumTail()
    ensures TailIf(Sum.body)
  {
    assert NoIf(Rest);
  }

  lemma OneAdmitted(w: World, fn: string, def: Def)
    requires w.defs == map[fn := def] && Obligations.Admitted(def) && forall fn, vs :: w.ext(fn, vs) >= 0
    ensures Obligations.AdmittedWorld(w)
  {
  }

  lemma OneTail(defs: Defs, fn: string, def: Def)
    requires defs == map[fn := def] && TailIf(def.body)
    ensures TailDefs(defs)
  {
  }

  /** The clash theorem against the index zero, nothing in scope. */
  lemma NeverZeroIndex(w: World, use: Term, s: Store, k: nat)
    requires TailDefs(w.defs) && NaturalCalls(w) && NaturalStore(s) && CallerNames(s.Keys)
    requires NoIf(use) && FreeVars(use) <= s.Keys && k > 0 && Runs(w, use, s, k)
    requires ClashAnswer([], use, Nat(0), true)
    ensures Ref(w, use, s, k).value != 0
  {
    var ps: seq<Prop> := [];
    ClashNeverEqual(w, w.defs, ps, [], use, Nat(0), s, map[], k);
  }

  lemma SumShape(s: Store, m: int, n: int)
    requires s == map["m" := m, "n" := n]
    ensures NoIf(Successor("Plus", Both)) && FreeVars(Successor("Plus", Both)) == s.Keys && CallerNames(s.Keys)
  {
    BothFree();
    assert VARIANT[0] == 'g';
  }

  /** A vector of length Plus(m, n) + 1 is never empty: the clash theorem in a world with addition. */
  lemma SuccessorOfSumNotZero(w: World, m: int, n: int) returns (k: nat)
    requires SumWorld(w) && m >= 0 && n >= 0
    ensures var r := Ref(w, Successor("Plus", Both), map["m" := m, "n" := n], k); r.Some? && r.value != 0
  {
    var s := map["m" := m, "n" := n];
    k := SumRunsNatural(w, m, n, s);
    SumWorldNatural(w);
    SumSettles(w, m, n, s, k);
    NotZero(w, Successor("Plus", Both), s, k);
  }

  /** What the clash theorem asks of an index that clashes with zero. */
  ghost predicate Settles(w: World, use: Term, s: Store, k: nat) {
    && TailDefs(w.defs) && NaturalCalls(w) && NaturalStore(s) && CallerNames(s.Keys)
    && NoIf(use) && FreeVars(use) <= s.Keys && k > 0 && Runs(w, use, s, k)
    && ClashAnswer([], use, Nat(0), true)
  }

  lemma SumSettles(w: World, m: int, n: int, s: Store, k: nat)
    requires TailDefs(w.defs) && NaturalCalls(w) && m >= 0 && n >= 0 && s == map["m" := m, "n" := n]
    requires k > 0 && Runs(w, Successor("Plus", Both), s, k)
    ensures Settles(w, Successor("Plus", Both), s, k)
  {
    SumClash();
    SumShape(s, m, n);
  }

  lemma NotZero(w: World, use: Term, s: Store, k: nat)
    requires Settles(w, use, s, k)
    ensures Ref(w, use, s, k).Some? && Ref(w, use, s, k).value != 0
  {
    NeverZeroIndex(w, use, s, k);
  }

  lemma SumRunsNatural(w: World, m: int, n: int, s: Store) returns (k: nat)
    requires SumWorld(w) && m >= 0 && n >= 0 && s == map["m" := m, "n" := n]
    ensures k > 0 && Runs(w, Successor("Plus", Both), s, k)
  {
    k := SumRuns(w, m, n);
    SumWorldNatural(w);
    SumPasses();
    PassingRuns(w, Successor("Plus", Both), s, k);
  }

  lemma SumPasses()
    ensures Obligations.Passes(Successor("Plus", Both), [])
  {
    assert Obligations.Passes(Call("Plus", Both), []);
  }

  lemma SumRuns(w: World, m: int, n: int) returns (k: nat)
    requires SumWorld(w) && m >= 0 && n >= 0
    ensures Ref(w, Successor("Plus", Both), map["m" := m, "n" := n], k).Some?
  {
    var s := map["m" := m, "n" := n];
    var d := SumAnswers(w, m, n);
    k := d + 3;
    RefAllFrom(w, Both, s, k - 2);
    RefAllAt(w, Both, s, k - 2, 0);
    RefAllAt(w, Both, s, k - 2, 1);
    assert RefAll(w, Both, s, k - 2).value == [m, n];
    ApplyMonotone(w, "Plus", [m, n], d, k - 2);
    assert Ref(w, Call("Plus", Both), s, k - 1).Some?;
  }

  // ------------------------------------------- a clash that is no proof

  /** g(a) = if a == 0 then 0 else a */
  const Same: Def := Def("g", ["a"], If(CmpEq, Var("a"), Nat(0), Nat(0), Var("a")))
  const Before: seq<Term> := [Prim(Minus, Var("n"), Nat(1))]

  lemma BeforeNormalises(env: Env, fuel: int)
    requires fuel > 10 && "n" in env
    ensures Normalises(Before, env, fuel)
  {
    assert Before[1..] == [];
    assert Evaluate(map[], true, Var("n"), env, fuel - 1) == (Result.Ok(env["n"]), fuel - 2);
    assert Evaluate(map[], true, Nat(1), env, fuel - 2) == (Result.Ok(VLin(Const(1))), fuel - 3);
    assert Evaluate(map[], true, Before[0], env, fuel).0.Ok?
        && Evaluate(map[], true, Before[0], env, fuel).1 == fuel - 3;
  }

  lemma SameAdmitted()
    ensures Obligations.Admitted(Same)
  {
    var none: seq<Fact<Term>> := [];
    Divergence.GuardPasses(Same.body, none);
  }

  lemma SameAt(w: World, k: nat)
    requires w.defs == map["g" := Same] && k == 6
    ensures Ref(w, Successor("g", Before), map["n" := 0], k) == Some(0)
  {
    var s, inner := map["n" := 0], Bind(["a"], [-1]);
    assert ["a"][..0] == [] && [-1][..0] == [];
    assert inner == map["a" := -1];
    assert Ref(w, Var("a"), inner, 3) == Some(-1) && Ref(w, Nat(0), inner, 3) == Some(0);
    assert Ref(w, Same.body, inner, 4) == Some(-1);
    assert Ref(w, Before[0], s, 4) == Some(-1);
    RefAllFrom(w, Before, s, 4);
    RefAllAt(w, Before, s, 4, 0);
    assert RefAll(w, Before, s, 4).value == [-1];
    assert Apply(w, "g", [-1], 4) == Some(-1);
    assert Ref(w, Call("g", Before), s, 5) == Some(-1);
  }

  lemma SameClash()
    ensures ClashAnswer([], Successor("g", Before), Nat(0), true)
  {
    var t := Successor("g", Before);
    assert FreeVars(Before[0]) == {"n"} && FreeVars(t) == FreeVarsAll(Before);
    BeforeNormalises(SymbolicEnv(t), SYMBOLIC_FUEL - 2);
    SuccessorClash("g", Before);
  }

  lemma CalledBelowZero(w: World, s: Store)
    requires s == map["n" := 0]
    ensures !NaturalRun(w, Successor("g", Before), s, 6)
  {
    assert Ref(w, Before[0], s, 4) == Some(-1);
    RefAllFrom(w, Before, s, 4);
    RefAllAt(w, Before, s, 4, 0);
    assert !Naturals(RefAll(w, Before, s, 4).value);
    assert !NaturalRun(w, Call("g", Before), s, 5);
  }

  /**
   * Indices are not checked for subtraction: g(n-1) + 1 is said never to be
   * zero, and is zero at n = 0. The run calls g on -1, outside the theorem.
   */
  lemma UncheckedIndexClash(w: World, s: Store)
    requires w.defs == map["g" := Same] && (forall fn, vs :: w.ext(fn, vs) >= 0) && s == map["n" := 0]
    ensures Obligations.AdmittedWorld(w) && ClashAnswer([], Successor("g", Before), Nat(0), true)
    ensures Ref(w, Successor("g", Before), s, 6) == Some(0) && Ref(w, Nat(0), map[], 6) == Some(0)
    ensures !NaturalRun(w, Successor("g", Before), s, 6)
  {
    SameAdmitted();
    OneAdmitted(w, "g", Same);
    SameClash();
    SameAt(w, 6);
    CalledBelowZero(w, s);
  }
}
