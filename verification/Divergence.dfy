/**
 * Why the totality theorem has its two hypotheses: definitions that both
 * checkers accept and that no run of any length answers.
 */
module Divergence {
  import opened Options
  import opened Linear
  import opened Decider
  import opened Terms
  import opened Obligations
  import opened Totality

  /** f(a, b) = if a == 0 then 0 else if b == 0 then f(a-1, b+2) else f(a+1, b-1) */
  const Up: Term := Call("f", [Prim(Minus, Var("a"), Nat(1)), Prim(Plus, Var("b"), Nat(2))])
  const Down: Term := Call("f", [Prim(Plus, Var("a"), Nat(1)), Prim(Minus, Var("b"), Nat(1))])
  const Inner: Term := If(CmpEq, Var("b"), Nat(0), Up, Down)
  const Alternating: Def := Def("f", ["a", "b"], If(CmpEq, Var("a"), Nat(0), Nat(0), Inner))

  /** The guard `x != 0` is the very fact that `x - 1` asks for. */
  lemma GuardedPredecessor(x: string, hyps: seq<Fact<Term>>)
    requires Goal(Var(x), Nat(1)) in hyps
    ensures Passes(Prim(Minus, Var(x), Nat(1)), hyps)
  {
    HypothesisAccepted(Goal(Var(x), Nat(1)), hyps);
  }

  lemma GuardFacts(x: string, thn: Term, els: Term)
    ensures ElseFacts(If(CmpEq, Var(x), Nat(0), thn, els)) == [Goal(Var(x), Nat(1))]
  {
  }

  lemma SuccessorPasses(x: string, n: nat, hyps: seq<Fact<Term>>)
    ensures Passes(Prim(Plus, Var(x), Nat(n)), hyps)
  {
  }

  /** Both calls are guarded: each shrinks the variable its path knows to be positive. */
  lemma CallPasses(x: string, y: string, n: nat, hyps: seq<Fact<Term>>)
    requires Goal(Var(x), Nat(1)) in hyps
    ensures Passes(Call("f", [Prim(Minus, Var(x), Nat(1)), Prim(Plus, Var(y), Nat(n))]), hyps)
    ensures Passes(Call("f", [Prim(Plus, Var(y), Nat(n)), Prim(Minus, Var(x), Nat(1))]), hyps)
  {
    GuardedPredecessor(x, hyps);
    SuccessorPasses(y, n, hyps);
  }

  lemma GuardPasses(t: Term, hyps: seq<Fact<Term>>)
    requires t.If? && t.a.Var? && t.b.Nat?
    requires Passes(t.thn, hyps + ThenFacts(t)) && Passes(t.els, hyps + ElseFacts(t))
    ensures Passes(t, hyps)
  {
  }

  lemma InnerPasses(x: string, y: string, t: Term, hyps: seq<Fact<Term>>)
    requires t == If(CmpEq, Var(y), Nat(0), Call("f", [Prim(Minus, Var(x), Nat(1)), Prim(Plus, Var(y), Nat(2))]),
                                            Call("f", [Prim(Plus, Var(x), Nat(1)), Prim(Minus, Var(y), Nat(1))]))
    requires Goal(Var(x), Nat(1)) in hyps
    ensures Passes(t, hyps)
  {
    GuardFacts(y, t.thn, t.els);
    var els := hyps + ElseFacts(t);
    assert els[|hyps|] == Goal(Var(y), Nat(1));
    CallPasses(x, y, 2, hyps + ThenFacts(t));
    CallPasses(y, x, 1, els);
    GuardPasses(t, hyps);
  }

  lemma OuterPasses(x: string, t: Term, none: seq<Fact<Term>>)
    requires t.If? && t.cmp.CmpEq? && t.a == Var(x) && t.b == Nat(0) && t.thn == Nat(0) && none == []
    requires Passes(t.els, [Goal(Var(x), Nat(1))])
    ensures Passes(t, none)
  {
    GuardFacts(x, t.thn, t.els);
    assert none + ElseFacts(t) == [Goal(Var(x), Nat(1))];
    GuardPasses(t, none);
  }

  lemma AlternatingAdmitted()
    ensures Admitted(Alternating)
  {
    InnerPasses("a", "b", Inner, [Goal(Var("a"), Nat(1))]);
    OuterPasses("a", Alternating.body, []);
  }

  lemma PredecessorDecreases(def: Def, i: nat)
    requires i < |def.params|
    ensures Decreases(def, Prim(Minus, Var(def.params[i]), Nat(1)), i)
  {
    var p := def.params[i];
    assert SymbolicLin(Var(p)) == Some(Atom(p)) && SymbolicLin(Nat(1)) == Some(Const(1));
    var l := Add(Atom(p), Const(1), -1);
    assert SymbolicLin(Prim(Minus, Var(p), Nat(1))) == Some(l);
    assert l.coef == map[p := 1];
  }

  lemma AlternatingTotal(callable: string -> bool)
    ensures CheckTotal(Alternating, callable) == Totality.Accepted
  {
    PredecessorDecreases(Alternating, 0);
    PredecessorDecreases(Alternating, 1);
    WalkPair(Alternating, callable, Up.args);
    WalkPair(Alternating, callable, Down.args);
    WalkSelf(Alternating, callable, Up, 0);
    WalkSelf(Alternating, callable, Down, 1);
    WalkGuard(Alternating, callable, Inner);
    WalkGuard(Alternating, callable, Alternating.body);
  }

  lemma WalkSelf(def: Def, callable: string -> bool, t: Term, i: nat)
    requires t.Call? && t.fn == def.name && WalkAll(def, callable, t.args) == Totality.Accepted
    requires |t.args| == |def.params| && i < |t.args| && Decreases(def, t.args[i], i)
    ensures Walk(def, callable, t) == Totality.Accepted
  {
  }

  lemma WalkGuard(def: Def, callable: string -> bool, t: Term)
    requires t.If? && Walk(def, callable, t.a) == Totality.Accepted && Walk(def, callable, t.b) == Totality.Accepted
    requires Walk(def, callable, t.thn) == Totality.Accepted && Walk(def, callable, t.els) == Totality.Accepted
    ensures Walk(def, callable, t) == Totality.Accepted
  {
  }

  lemma WalkPair(def: Def, callable: string -> bool, ts: seq<Term>)
    requires |ts| == 2
    requires Walk(def, callable, ts[0]) == Totality.Accepted && Walk(def, callable, ts[1]) == Totality.Accepted
    ensures WalkAll(def, callable, ts) == Totality.Accepted
  {
    assert ts[1..] == [ts[1]] && ts[1..][1..] == [];
    assert WalkAll(def, callable, ts[1..]) == Totality.Accepted;
  }

  /** The states of the run from (1, 2). */
  predicate Trapped(a: int, b: int) {
    (b == 2 && a >= 1) || (b == 1 && a >= 2) || (b == 0 && a >= 3)
  }

  lemma BindPair(vs: seq<int>)
    requires |vs| == 2
    ensures Bind(["a", "b"], vs) == map["a" := vs[0], "b" := vs[1]]
  {
    assert ["a", "b"][..1] == ["a"];
    assert ["a"][..0] == [];
    assert Bind(["a"], vs[..1]) == map["a" := vs[0]];
  }

  lemma {:induction false} RefAllPair(w: World, ts: seq<Term>, s: Store, k: nat, x: int, y: int)
    requires |ts| == 2 && RefAll(w, ts, s, k).Some?
    requires Ref(w, ts[0], s, k).Some? ==> Ref(w, ts[0], s, k) == Some(x)
    requires Ref(w, ts[1], s, k).Some? ==> Ref(w, ts[1], s, k) == Some(y)
    ensures RefAll(w, ts, s, k) == Some([x, y])
  {
    RefAllAt(w, ts, s, k, 0);
    RefAllAt(w, ts, s, k, 1);
    assert RefAll(w, ts, s, k).value == [x, y];
  }

  /** One turn: an answer at (a, b) would need an answer at the next state, sooner. */
  lemma AlternatingStep(w: World, a: int, b: int, k: nat)
    requires "f" in w.defs && w.defs["f"] == Alternating && a > 0 && b >= 0
    requires Apply(w, "f", [a, b], k).Some?
    ensures k > 2 && Apply(w, "f", if b == 0 then [a - 1, b + 2] else [a + 1, b - 1], k - 3).Some?
  {
    BindPair([a, b]);
    var s: Store := map["a" := a, "b" := b];
    assert Ref(w, Alternating.body, s, k).Some?;
    assert Ref(w, Inner, s, k - 1).Some?;
    if b == 0 {
      assert Ref(w, Up, s, k - 2).Some?;
      RefAllPair(w, Up.args, s, k - 3, a - 1, b + 2);
    } else {
      assert Ref(w, Down, s, k - 2).Some?;
      RefAllPair(w, Down.args, s, k - 3, a + 1, b - 1);
    }
  }

  lemma {:induction false} TrappedForever(w: World, a: int, b: int, k: nat)
    requires "f" in w.defs && w.defs["f"] == Alternating && Trapped(a, b)
    ensures Apply(w, "f", [a, b], k) == None
    decreases k
  {
    if Apply(w, "f", [a, b], k).Some? {
      AlternatingStep(w, a, b, k);
      if b == 0 {
        TrappedForever(w, a - 1, b + 2, k - 3);
      } else {
        TrappedForever(w, a + 1, b - 1, k - 3);
      }
    }
  }

  lemma GuardedScoped(ds: seq<Def>, ps: seq<string>, t: Term)
    requires t.If? && Scoped(ds, ps, t.a) && Scoped(ds, ps, t.b) && Scoped(ds, ps, t.thn) && Scoped(ds, ps, t.els)
    ensures Scoped(ds, ps, t)
  {
  }

  lemma AlternatingScoped(ds: seq<Def>)
    requires ds == [Alternating]
    ensures WellFormed(ds)
  {
    var ps := Alternating.params;
    assert ps[0] == "a" && ps[1] == "b";
    assert Scoped(ds, ps, Var("a")) && Scoped(ds, ps, Var("b")) && Scoped(ds, ps, Nat(0)) && Scoped(ds, ps, Nat(1))
        && Scoped(ds, ps, Nat(2));
    assert Scoped(ds, ps, Up) && Scoped(ds, ps, Down);
    GuardedScoped(ds, ps, Inner);
    GuardedScoped(ds, ps, Alternating.body);
  }

  lemma AlternatingAccepted()
    ensures AcceptedProgram([Alternating])
  {
    AlternatingScoped([Alternating]);
    AlternatingAdmitted();
    AlternatingTotal(Callable([Alternating], 0));
  }

  lemma AlternatingProgram(w: World)
    requires w.defs == map["f" := Alternating] && forall fn, vs :: w.ext(fn, vs) >= 0
    ensures Program(w, [Alternating])
  {
    AlternatingAccepted();
    OneProgram(w, Alternating);
  }

  /** Without a common position acceptance does not mean termination: f(1, 2) never answers. */
  lemma AcceptedYetDiverges(w: World)
    requires w.defs == map["f" := Alternating] && forall fn, vs :: w.ext(fn, vs) >= 0
    ensures Program(w, [Alternating])
    ensures forall k :: Apply(w, "f", [1, 2], k) == None
    ensures !exists pos :: CommonPositions([Alternating], pos)
  {
    var ds := [Alternating];
    AlternatingProgram(w);
    forall k ensures Apply(w, "f", [1, 2], k) == None {
      TrappedForever(w, 1, 2, k);
    }
    forall pos ensures !CommonPositions(ds, pos) {
      NotCommon(w, ds, pos, [1, 2]);
    }
  }

  /** A program that does not answer somewhere has no common positions. */
  lemma NotCommon(w: World, ds: seq<Def>, pos: seq<nat>, vs: seq<int>)
    requires Program(w, ds) && |ds| == 1 && |vs| == |ds[0].params| && Naturals(vs)
    requires forall k :: Apply(w, ds[0].name, vs, k) == None
    ensures !CommonPositions(ds, pos)
  {
    if CommonPositions(ds, pos) {
      AcceptedProgramsTotal(w, ds, pos, 0, vs);
    }
  }

  // ------------------------------------------------------ mutual recursion

  /** ping(n) = pong(n), pong(n) = ping(n) */
  const Ping: Def := Def("ping", ["n"], Call("pong", [Var("n")]))
  const Pong: Def := Def("pong", ["n"], Call("ping", [Var("n")]))

  /** What the driver admits: every function of the package, whatever the order. */
  predicate Local(fn: string) {
    fn == "ping" || fn == "pong"
  }

  lemma PingPongStep(w: World, here: Def, there: Def, n: int, k: nat)
    requires here.name in w.defs && w.defs[here.name] == here && here.params == ["n"]
    requires here.body == Call(there.name, [Var("n")])
    requires Apply(w, here.name, [n], k).Some?
    ensures k > 0 && Apply(w, there.name, [n], k - 1).Some?
  {
    var s := Bind(["n"], [n]);
    assert ["n"][..0] == [] && [n][..0] == [];
    assert s == map["n" := n];
    assert Ref(w, here.body, s, k).Some?;
    RefAllAt(w, [Var("n")], s, k - 1, 0);
    assert RefAll(w, [Var("n")], s, k - 1).value == [n];
  }

  lemma {:induction false} PingPongForever(w: World, n: int, k: nat)
    requires w.defs == map["ping" := Ping, "pong" := Pong]
    ensures Apply(w, "ping", [n], k) == None && Apply(w, "pong", [n], k) == None
    decreases k
  {
    if Apply(w, "ping", [n], k).Some? {
      PingPongStep(w, Ping, Pong, n, k);
      PingPongForever(w, n, k - 1);
    }
    if Apply(w, "pong", [n], k).Some? {
      PingPongStep(w, Pong, Ping, n, k);
      PingPongForever(w, n, k - 1);
    }
  }

  /** The driver's callable set lets mutual recursion through both checkers. */
  lemma OrderNeeded(w: World, n: int, k: nat)
    requires w.defs == map["ping" := Ping, "pong" := Pong]
    ensures Admitted(Ping) && Admitted(Pong)
    ensures CheckTotal(Ping, Local) == Totality.Accepted && CheckTotal(Pong, Local) == Totality.Accepted
    ensures Apply(w, "ping", [n], k) == None
    ensures CheckTotal(Ping, Callable([Ping, Pong], 0)) == NotCallable("pong")
  {
    assert [Var("n")][1..] == [];
    assert WalkAll(Ping, Local, [Var("n")]) == Totality.Accepted;
    assert WalkAll(Pong, Local, [Var("n")]) == Totality.Accepted;
    assert WalkAll(Ping, Callable([Ping, Pong], 0), [Var("n")]) == Totality.Accepted;
    assert [Ping, Pong][1].name == "pong";
    assert Names([Ping, Pong], "pong") && !Names([Ping, Pong][..0], "pong");
    PingPongForever(w, n, k);
  }

  // ------------------------------------------- the hypotheses can be met

  /** double(n) = if n == 0 then 0 else double(n-1) + 2 */
  const Again: Term := Call("double", [Prim(Minus, Var("n"), Nat(1))])
  const Doubling: Def := Def("double", ["n"], If(CmpEq, Var("n"), Nat(0), Nat(0), Prim(Plus, Again, Nat(2))))

  lemma DoublingAdmitted()
    ensures Admitted(Doubling)
  {
    var facts := [Goal(Var("n"), Nat(1))];
    GuardedPredecessor("n", facts);
    assert Passes(Again, facts);
    OuterPasses("n", Doubling.body, []);
  }

  lemma DoublingChecked(callable: string -> bool)
    ensures CheckTotal(Doubling, callable) == Totality.Accepted
  {
    PredecessorDecreases(Doubling, 0);
    assert Again.args[1..] == [];
    assert WalkAll(Doubling, callable, Again.args) == Totality.Accepted;
    WalkSelf(Doubling, callable, Again, 0);
    WalkGuard(Doubling, callable, Doubling.body);
  }

  lemma DoublingScoped(ds: seq<Def>)
    requires ds == [Doubling]
    ensures WellFormed(ds)
  {
    var ps := Doubling.params;
    assert ps[0] == "n";
    assert Scoped(ds, ps, Var("n")) && Scoped(ds, ps, Nat(0)) && Scoped(ds, ps, Nat(1)) && Scoped(ds, ps, Nat(2));
    assert Scoped(ds, ps, Again);
    GuardedScoped(ds, ps, Doubling.body);
  }

  /** A program the totality theorem speaks about. */
  lemma DoublingTotal(w: World, n: int)
    requires w.defs == map["double" := Doubling] && (forall fn, vs :: w.ext(fn, vs) >= 0) && n >= 0
    ensures Program(w, [Doubling])
    ensures exists k, r :: r >= 0 && Apply(w, "double", [n], k) == Some(r)
  {
    var ds := [Doubling];
    DoublingAdmitted();
    DoublingChecked(Callable(ds, 0));
    DoublingScoped(ds);
    OneProgram(w, Doubling);
    SingleParameterProgramsTotal(w, ds, 0, n);
  }
}
