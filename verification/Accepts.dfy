/**
 * What the decider must answer true (internal/core/arith.go): laws about every
 * schedule, stated over what facts mean and not over how they are combined.
 */
module Accepts {
  import opened Options
  import opened Linear
  import opened Decider
  import opened Schedules

  /** True is the only answer. */
  ghost predicate Accepted<K(!new)>(goal: Fact<K>, hyps: seq<Fact<K>>) {
    Decides(goal, hyps, true) && !Decides(goal, hyps, false)
  }

  // ------------------------------------------------ substitution is linear

  lemma SubstAdd<K(!new)>(a: Lin<K>, b: Lin<K>, k: K, r: Lin<K>)
    ensures Subst(Add(a, b, 1), k, r) == Add(Subst(a, k, r), Subst(b, k, r), 1)
  {
    forall j ensures At(Subst(Add(a, b, 1), k, r), j) == At(Add(Subst(a, k, r), Subst(b, k, r), 1), j) {
      SubstAddAt(a, b, k, r, j);
    }
    SubstAddConst(a, b, k, r);
    SameForm(Subst(Add(a, b, 1), k, r), Add(Subst(a, k, r), Subst(b, k, r), 1));
  }

  lemma SubstAddConst<K(!new)>(a: Lin<K>, b: Lin<K>, k: K, r: Lin<K>)
    ensures Subst(Add(a, b, 1), k, r).c == Add(Subst(a, k, r), Subst(b, k, r), 1).c
  {
    SubstConst(Add(a, b, 1), k, r);
    SubstConst(a, k, r);
    SubstConst(b, k, r);
    AtAdd(a, b, 1, k);
    Spread(At(a, k), At(b, k), r.c);
  }

  lemma SubstAddAt<K(!new)>(a: Lin<K>, b: Lin<K>, k: K, r: Lin<K>, j: K)
    ensures At(Subst(Add(a, b, 1), k, r), j) == At(Add(Subst(a, k, r), Subst(b, k, r), 1), j)
  {
    AtSubst(Add(a, b, 1), k, r, j);
    AtSubst(a, k, r, j);
    AtSubst(b, k, r, j);
    AtAdd(a, b, 1, j);
    AtAdd(a, b, 1, k);
    AtAdd(Subst(a, k, r), Subst(b, k, r), 1, j);
    Spread(At(a, k), At(b, k), At(r, j));
  }

  lemma Spread(a: int, b: int, c: int)
    ensures (a + 1 * b) * c == a * c + 1 * (b * c)
  {
  }

  lemma AddConst<K(!new)>(l: Lin<K>, c: int)
    ensures Add(Add(l, Const(c), 1), l, -1) == Const(c)
  {
    SameForm(Add(Add(l, Const(c), 1), l, -1), Const(c));
  }

  lemma ZeroAnd<K(!new)>(c: int)
    ensures Add<K>(Const(0), Const(c), 1) == Const(c)
  {
  }

  // ------------------------------------------------ a hypothesis and a bit more

  /** The goal is some fact plus a non-negative constant, or just the constant. */
  ghost predicate Near<K(!new)>(s: State<K>, c: nat) {
    s.goal.op.FactGe? &&
    (s.goal.l == Const(c) || exists j :: 0 <= j < |s.facts| && s.goal.l == Add(s.facts[j].l, Const(c), 1))
  }

  lemma AfterNear<K(!new)>(s: State<K>, m: Move<K>, c: nat)
    requires Near(s, c) && Legal(s, m)
    ensures Near(After(s, m), c)
  {
    var t, r := After(s, m), Solved(s.facts[m.i].l, m.atom);
    if s.goal.l != Const(c) {
      var j :| 0 <= j < |s.facts| && s.goal.l == Add(s.facts[j].l, Const(c), 1);
      SubstAdd(s.facts[j].l, Const(c), m.atom, r);
      SubstAbsent(Const(c), m.atom, r);
      if j == m.i {
        SolvedCancels(s.facts[j].l, m.atom);
        ZeroAnd<K>(c);
      } else {
        assert t.goal.l == Add(t.facts[j].l, Const(c), 1);
      }
    }
  }

  lemma {:induction false} RunNear<K(!new)>(s: State<K>, ms: seq<Move<K>>, c: nat)
    requires Near(s, c) && LegalRun(s, ms)
    ensures Near(Run(s, ms), c)
    decreases |ms|
  {
    if ms != [] {
      RunNear(s, ms[..|ms| - 1], c);
      AfterNear(Run(s, ms[..|ms| - 1]), ms[|ms| - 1], c);
    }
  }

  lemma NearVerdict<K(!new)>(s: State<K>, c: nat)
    requires Near(s, c)
    ensures Verdict(s)
  {
    if s.goal.l != Const(c) {
      var j :| 0 <= j < |s.facts| && s.goal.l == Add(s.facts[j].l, Const(c), 1);
      InequalityListed(s.facts, j);
      AddConst(s.facts[j].l, c);
      var hs := Inequalities(s.facts);
      var i :| 0 <= i < |hs| && hs[i] == s.facts[j].l;
      assert NonNeg(Add(s.goal.l, hs[i], -1));
    }
  }

  /** l == 0 or l >= 0 among the hypotheses: l + c >= 0 is accepted. */
  lemma ShiftAccepted<K(!new)>(goal: Fact<K>, hyps: seq<Fact<K>>, j: nat, c: nat)
    requires j < |hyps| && goal.op.FactGe? && goal.l == Add(hyps[j].l, Const(c), 1)
    ensures Accepted(goal, hyps)
  {
    AnswerExists(goal, hyps);
    forall ms: seq<Move<K>> ensures !AnswersBy(State(hyps, goal), ms, false) {
      if LegalRun(State(hyps, goal), ms) {
        RunNear(State(hyps, goal), ms, c);
        NearVerdict(Run(State(hyps, goal), ms), c);
      }
    }
  }

  // ------------------------------------------------------- two hypotheses

  ghost predicate NearTwo<K(!new)>(s: State<K>, i: nat, j: nat, c: nat) {
    && i < j < |s.facts| && s.goal.op.FactGe? && s.facts[i].op.FactGe? && s.facts[j].op.FactGe?
    && s.goal.l == Add(Add(s.facts[i].l, s.facts[j].l, 1), Const(c), 1)
  }

  lemma AfterNearTwo<K(!new)>(s: State<K>, m: Move<K>, i: nat, j: nat, c: nat)
    requires NearTwo(s, i, j, c) && Legal(s, m)
    ensures NearTwo(After(s, m), i, j, c)
  {
    var r, a, b := Solved(s.facts[m.i].l, m.atom), s.facts[i].l, s.facts[j].l;
    SubstAdd(Add(a, b, 1), Const(c), m.atom, r);
    SubstAdd(a, b, m.atom, r);
    SubstAbsent(Const(c), m.atom, r);
  }

  lemma {:induction false} RunNearTwo<K(!new)>(s: State<K>, ms: seq<Move<K>>, i: nat, j: nat, c: nat)
    requires NearTwo(s, i, j, c) && LegalRun(s, ms)
    ensures NearTwo(Run(s, ms), i, j, c)
    decreases |ms|
  {
    if ms != [] {
      RunNearTwo(s, ms[..|ms| - 1], i, j, c);
      AfterNearTwo(Run(s, ms[..|ms| - 1]), ms[|ms| - 1], i, j, c);
    }
  }

  /** Inequalities keep the order of the facts they come from. */
  lemma {:induction false} ListedInOrder<K(!new)>(fs: seq<Fact<K>>, i: nat, j: nat) returns (p: nat, q: nat)
    requires i < j < |fs|
    ensures p < q < |Inequalities(fs)| && Inequalities(fs)[p] == fs[i].l && Inequalities(fs)[q] == fs[j].l
    decreases i
  {
    var first := |Inequalities(fs)| - |Inequalities(fs[1..])|;
    if i == 0 {
      InequalityListed(fs[1..], j - 1);
      var n :| 0 <= n < |Inequalities(fs[1..])| && Inequalities(fs[1..])[n] == fs[1..][j - 1].l;
      p, q := 0, first + n;
    } else {
      p, q := ListedInOrder(fs[1..], i - 1, j - 1);
      p, q := first + p, first + q;
    }
  }

  lemma TwoTakenOff<K(!new)>(a: Lin<K>, b: Lin<K>, c: int)
    ensures Add(Add(Add(Add(a, b, 1), Const(c), 1), a, -1), b, -1) == Const(c)
  {
    var whole := Add(Add(a, b, 1), Const(c), 1);
    forall k ensures At(Add(Add(whole, a, -1), b, -1), k) == 0 {
      AtAdd(a, b, 1, k);
      AtAdd(Add(a, b, 1), Const(c), 1, k);
      AtAdd(whole, a, -1, k);
      AtAdd(Add(whole, a, -1), b, -1, k);
    }
    SameForm(Add(Add(whole, a, -1), b, -1), Const(c));
  }

  /** The sum of any two inequality hypotheses, wherever they stand, is accepted. */
  lemma SumAccepted<K(!new)>(goal: Fact<K>, hyps: seq<Fact<K>>, i: nat, j: nat, c: nat)
    requires i < j < |hyps| && goal.op.FactGe? && hyps[i].op.FactGe? && hyps[j].op.FactGe?
    requires goal.l == Add(Add(hyps[i].l, hyps[j].l, 1), Const(c), 1)
    ensures Accepted(goal, hyps)
  {
    AnswerExists(goal, hyps);
    forall ms: seq<Move<K>> ensures !AnswersBy(State(hyps, goal), ms, false) {
      if LegalRun(State(hyps, goal), ms) {
        RunNearTwo(State(hyps, goal), ms, i, j, c);
        var t := Run(State(hyps, goal), ms);
        var p, q := ListedInOrder(t.facts, i, j);
        TwoTakenOff(t.facts[i].l, t.facts[j].l, c);
        var hs := Inequalities(t.facts);
        assert NonNeg(Add(Add(t.goal.l, hs[p], -1), hs[q], -1));
      }
    }
  }

  // ---------------------------------------------------- false hypotheses

  /** A hypothesis that mentions no atom and does not hold. */
  ghost predicate False<K(!new)>(f: Fact<K>) {
    f.l.coef == map[] && forall w: K -> int :: !Holds(f, w)
  }

  lemma FalseContradicts<K(!new)>(fs: seq<Fact<K>>, j: nat)
    requires j < |fs| && False(fs[j])
    ensures Contradiction(fs)
  {
    ZeroVal(fs[j].l);
    assert !Holds(fs[j], (k: K) => 0);
    assert Absurd(fs[j]);
  }

  /** False hypotheses entail anything, also those that turn out false by elimination. */
  lemma FalseAccepted<K(!new)>(goal: Fact<K>, hyps: seq<Fact<K>>, ms: seq<Move<K>>, j: nat)
    requires Settles(State(hyps, goal), ms)
    requires j < |Run(State(hyps, goal), ms).facts| && False(Run(State(hyps, goal), ms).facts[j])
    ensures Decides(goal, hyps, true)
  {
    var s := State(hyps, goal);
    FalseContradicts(Run(s, ms).facts, j);
    if !Contradiction(hyps) {
      assert AnswersBy(s, ms, true);
    }
  }

  // ------------------------------------------------- definitions are exact

  /** Hypotheses that say nothing: inequalities with nothing negative in them. */
  predicate Empty<K(==)>(fs: seq<Fact<K>>) {
    forall i | 0 <= i < |fs| :: fs[i].op.FactGe? && NonNeg(fs[i].l)
  }

  lemma EmptyHold<K(!new)>(fs: seq<Fact<K>>, w: K -> int)
    requires Empty(fs) && Natural(w)
    ensures AllHold(fs, w)
  {
    forall i | 0 <= i < |fs| ensures Holds(fs[i], w) {
      NonNegVal(fs[i].l, w);
    }
  }

  /**
   * Where elimination uses the hypotheses up, the verdict is exact: true if and
   * only if the original hypotheses entail the original goal.
   */
  lemma DefinitionsExact<K(!new)>(goal: Fact<K>, hyps: seq<Fact<K>>, ms: seq<Move<K>>)
    requires LegalRun(State(hyps, goal), ms) && Empty(Run(State(hyps, goal), ms).facts)
    ensures Verdict(Run(State(hyps, goal), ms)) <==> Entails(hyps, goal)
  {
    var s := State(hyps, goal);
    var t := Run(s, ms);
    EliminationExact(s, ms);
    if Verdict(t) {
      forall w: K -> int | Natural(w) && AllHold(t.facts, w) ensures Holds(t.goal, w) {
        VerdictSound(t, w);
      }
    }
    if Entails(t.facts, t.goal) && !Tautology(t.goal) {
      Refutes(t.goal);
      EmptyHold(t.facts, Refuter(t.goal));
      assert false;
    }
  }
}
