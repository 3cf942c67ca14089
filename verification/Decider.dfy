/**
 * The linear-arithmetic decider (internal/core/arith.go). Facts range over
 * natural-valued atoms. The source eliminates equalities in place and takes
 * whichever unit atom its map iteration meets first, so the answer is a
 * relation, `Decides`: some legal schedule of eliminations ends in that answer.
 */
module Decider {
  import opened Options
  import opened Sums
  import opened Linear

  datatype FactOp = FactEq | FactGe

  /** FactEq reads l == 0, FactGe reads l >= 0. */
  datatype Fact<K(==)> = Fact(op: FactOp, l: Lin<K>)

  ghost predicate Holds<K(!new)>(f: Fact<K>, w: K -> int) {
    match f.op
    case FactEq => Val(f.l, w) == 0
    case FactGe => Val(f.l, w) >= 0
  }

  ghost predicate AllHold<K(!new)>(fs: seq<Fact<K>>, w: K -> int) {
    forall i | 0 <= i < |fs| :: Holds(fs[i], w)
  }

  /** Semantic consequence over natural valuations of the atoms. */
  ghost predicate Entails<K(!new)>(hyps: seq<Fact<K>>, goal: Fact<K>) {
    forall w: K -> int | Natural(w) && AllHold(hyps, w) :: Holds(goal, w)
  }

  // ------------------------------------------------------ what is computed

  predicate NonNeg<K(==)>(l: Lin<K>) {
    l.c >= 0 && forall k | k in l.coef :: l.coef[k] >= 0
  }

  predicate Absurd<K(==)>(f: Fact<K>) {
    Ground(f.l) && if f.op.FactEq? then f.l.c != 0 else f.l.c < 0
  }

  predicate Contradiction<K(==)>(fs: seq<Fact<K>>) {
    exists i | 0 <= i < |fs| :: Absurd(fs[i])
  }

  predicate Unit<K(==)>(l: Lin<K>, k: K) {
    k in l.coef && (l.coef[k] == 1 || l.coef[k] == -1)
  }

  /** The definition of atom `k` read off l == 0. */
  function Solved<K(==)>(l: Lin<K>, k: K): Lin<K>
    requires Unit(l, k)
  {
    Scale(Drop(l, k), -l.coef[k])
  }

  datatype State<K(==)> = State(facts: seq<Fact<K>>, goal: Fact<K>)
  datatype Move<K(==)> = Move(i: nat, atom: K)

  predicate Legal<K(==)>(s: State<K>, m: Move<K>) {
    m.i < |s.facts| && s.facts[m.i].op.FactEq? && Unit(s.facts[m.i].l, m.atom)
  }

  function SubstFact<K(==)>(f: Fact<K>, k: K, repl: Lin<K>): Fact<K> {
    f.(l := Subst(f.l, k, repl))
  }

  /** One elimination: the equality becomes the atom's own non-negativity. */
  function After<K(==)>(s: State<K>, m: Move<K>): State<K>
    requires Legal(s, m)
  {
    var repl := Solved(s.facts[m.i].l, m.atom);
    State(seq(|s.facts|, j requires 0 <= j < |s.facts| =>
            if j == m.i then Fact(FactGe, repl) else SubstFact(s.facts[j], m.atom, repl)),
          SubstFact(s.goal, m.atom, repl))
  }

  ghost predicate LegalRun<K>(s: State<K>, ms: seq<Move<K>>)
    decreases |ms|, 0
  {
    ms == [] || (LegalRun(s, ms[..|ms| - 1]) && Legal(Run(s, ms[..|ms| - 1]), ms[|ms| - 1]))
  }

  ghost function Run<K>(s: State<K>, ms: seq<Move<K>>): State<K>
    requires LegalRun(s, ms)
    decreases |ms|, 1
  {
    if ms == [] then s else After(Run(s, ms[..|ms| - 1]), ms[|ms| - 1])
  }

  /** No equality defines an atom any more. */
  ghost predicate Settled<K(!new)>(fs: seq<Fact<K>>) {
    forall i, k | 0 <= i < |fs| && fs[i].op.FactEq? :: !Unit(fs[i].l, k)
  }

  /** Residual equalities contribute both directions. */
  function Inequalities<K(==)>(fs: seq<Fact<K>>): seq<Lin<K>> {
    if fs == [] then [] else
      (if fs[0].op.FactGe? then [fs[0].l] else [fs[0].l, Scale(fs[0].l, -1)]) + Inequalities(fs[1..])
  }

  /** l is non-negative as it stands, or after one or two inequalities are taken off. */
  predicate Covered<K(==)>(l: Lin<K>, hs: seq<Lin<K>>) {
    || NonNeg(l)
    || (exists i | 0 <= i < |hs| :: NonNeg(Add(l, hs[i], -1)))
    || (exists i, j | 0 <= i < j < |hs| :: NonNeg(Add(Add(l, hs[i], -1), hs[j], -1)))
  }

  predicate Verdict<K(==)>(s: State<K>) {
    var hs := Inequalities(s.facts);
    || Contradiction(s.facts)
    || (if s.goal.op.FactEq? then
          s.goal.l == Const(0) || (Covered(s.goal.l, hs) && Covered(Scale(s.goal.l, -1), hs))
        else
          Covered(s.goal.l, hs))
  }

  /** `r` is a possible answer: some schedule of eliminations settles and yields it. */
  ghost predicate Decides<K(!new)>(goal: Fact<K>, hyps: seq<Fact<K>>, r: bool) {
    if Contradiction(hyps) then r else
      exists ms: seq<Move<K>> :: AnswersBy(State(hyps, goal), ms, r)
  }

  ghost predicate AnswersBy<K(!new)>(s: State<K>, ms: seq<Move<K>>, r: bool) {
    LegalRun(s, ms) && Settled(Run(s, ms).facts) && r == Verdict(Run(s, ms))
  }

  // ------------------------------------------------------------- the code

  method UnitAtom<K(==)>(l: Lin<K>) returns (r: Option<K>)
    ensures r.Some? ==> Unit(l, r.value)
    ensures r.None? ==> forall k :: !Unit(l, k)
  {
    var todo := l.coef.Keys;
    while todo != {}
      invariant todo <= l.coef.Keys
      invariant forall k | k in l.coef.Keys - todo :: !Unit(l, k)
      decreases todo
    {
      var k :| k in todo;
      if l.coef[k] == 1 || l.coef[k] == -1 {
        return Some(k);
      }
      todo := todo - {k};
    }
    assert l.coef.Keys - todo == l.coef.Keys;
    return None;
  }

  /** The substitution loop of one elimination, in place. */
  method Eliminate<K(==, !new)>(facts: array<Fact<K>>, i: nat, k: K, repl: Lin<K>)
    requires i < facts.Length
    modifies facts
    ensures facts[..] == seq(facts.Length, j requires 0 <= j < facts.Length =>
              if j == i then Fact(FactGe, repl) else SubstFact(old(facts[..])[j], k, repl))
  {
    var j := 0;
    while j < facts.Length
      invariant 0 <= j <= facts.Length
      invariant forall m | 0 <= m < facts.Length ::
        facts[m] == if m < j && m != i then SubstFact(old(facts[..])[m], k, repl) else old(facts[..])[m]
    {
      if j != i {
        var l := SubstAtom(facts[j].l, k, repl);
        facts[j] := facts[j].(l := l);
      }
      j := j + 1;
    }
    facts[i] := Fact(FactGe, repl);
  }

  ghost function Equalities<K(!new)>(fs: seq<Fact<K>>): nat {
    |set i | 0 <= i < |fs| && fs[i].op.FactEq?|
  }

  lemma AfterShrinks<K(!new)>(s: State<K>, m: Move<K>)
    requires Legal(s, m)
    ensures Equalities(After(s, m).facts) == Equalities(s.facts) - 1
  {
    var t := After(s, m);
    var before := set i | 0 <= i < |s.facts| && s.facts[i].op.FactEq?;
    var after := set i | 0 <= i < |t.facts| && t.facts[i].op.FactEq?;
    assert before == after + {m.i};
  }

  lemma RunSnoc<K(!new)>(s: State<K>, ms: seq<Move<K>>, m: Move<K>)
    requires LegalRun(s, ms) && Legal(Run(s, ms), m)
    ensures LegalRun(s, ms + [m]) && Run(s, ms + [m]) == After(Run(s, ms), m)
  {
    var ns := ms + [m];
    assert ns[..|ns| - 1] == ms;
  }

  method EliminateOne<K(==, !new)>(facts: array<Fact<K>>, g: Fact<K>, i: nat, k: K) returns (g': Fact<K>)
    requires Legal(State(facts[..], g), Move(i, k))
    modifies facts
    ensures State(facts[..], g') == After(State(old(facts[..]), g), Move(i, k))
  {
    var repl := LinScale(Drop(facts[i].l, k), -facts[i].l.coef[k]);
    Eliminate(facts, i, k, repl);
    var gl := SubstAtom(g.l, k, repl);
    g' := g.(l := gl);
  }

  /** The elimination loop: passes over the facts until one changes nothing. */
  method EliminateAll<K(==, !new)>(facts: array<Fact<K>>, g: Fact<K>) returns (g': Fact<K>, ghost ms: seq<Move<K>>)
    modifies facts
    ensures LegalRun(State(old(facts[..]), g), ms)
    ensures Run(State(old(facts[..]), g), ms) == State(facts[..], g')
    ensures Settled(facts[..])
  {
    ghost var s := State(facts[..], g);
    g', ms := g, [];
    var changed := true;
    while changed
      invariant LegalRun(s, ms) && Run(s, ms) == State(facts[..], g')
      invariant !changed ==> Settled(facts[..])
      decreases Equalities(facts[..]), changed
    {
      changed := false;
      ghost var before := facts[..];
      var i := 0;
      while i < facts.Length
        invariant 0 <= i <= facts.Length
        invariant LegalRun(s, ms) && Run(s, ms) == State(facts[..], g')
        invariant if changed then Equalities(facts[..]) < Equalities(before) else facts[..] == before
        invariant !changed ==> forall j, k | 0 <= j < i && before[j].op.FactEq? :: !Unit(before[j].l, k)
      {
        if facts[i].op.FactEq? {
          var found := UnitAtom(facts[i].l);
          if found.Some? {
            ghost var m := Move(i, found.value);
            RunSnoc(s, ms, m);
            AfterShrinks(State(facts[..], g'), m);
            g' := EliminateOne(facts, g', i, found.value);
            ms := ms + [m];
            changed := true;
          }
        }
        i := i + 1;
      }
    }
  }

  method Decide<K(==, !new)>(goal: Fact<K>, hyps: seq<Fact<K>>) returns (r: bool)
    ensures Decides(goal, hyps, r)
    decreases goal.op.FactEq?
  {
    var facts := new Fact<K>[|hyps|](i requires 0 <= i < |hyps| => hyps[i]);
    assert facts[..] == hyps;
    if Contradiction(facts[..]) {
      return true;
    }
    ghost var s := State(hyps, goal);
    var g, ms := EliminateAll(facts, goal);
    RunKeepsOp(s, ms);
    if Contradiction(facts[..]) {
      assert AnswersBy(s, ms, true);
      return true;
    }
    match g.op
    case FactEq =>
      if Ground(g.l) && g.l.c == 0 {
        r := true;
      } else {
        r := Decide(Fact(FactGe, g.l), facts[..]);
        SettledDecides(Fact(FactGe, g.l), facts[..], r);
        if r {
          var neg := LinScale(g.l, -1);
          r := Decide(Fact(FactGe, neg), facts[..]);
          SettledDecides(Fact(FactGe, neg), facts[..], r);
        }
      }
      assert AnswersBy(s, ms, r);
    case FactGe =>
      r := Cover(g.l, Inequalities(facts[..]));
      assert AnswersBy(s, ms, r);
  }

  lemma {:induction false} RunKeepsOp<K(!new)>(s: State<K>, ms: seq<Move<K>>)
    requires LegalRun(s, ms)
    ensures Run(s, ms).goal.op == s.goal.op
    decreases |ms|
  {
    if ms != [] {
      RunKeepsOp(s, ms[..|ms| - 1]);
    }
  }

  method Cover<K(==, !new)>(l: Lin<K>, hs: seq<Lin<K>>) returns (r: bool)
    ensures r == Covered(l, hs)
  {
    if NonNeg(l) {
      return true;
    }
    var i := 0;
    while i < |hs|
      invariant 0 <= i <= |hs|
      invariant forall m | 0 <= m < i :: !NonNeg(Add(l, hs[m], -1))
      invariant forall m, n | 0 <= m < i && m < n < |hs| :: !NonNeg(Add(Add(l, hs[m], -1), hs[n], -1))
    {
      var d := LinAdd(l, hs[i], -1);
      if NonNeg(d) {
        return true;
      }
      var j := i + 1;
      while j < |hs|
        invariant i < j <= |hs|
        invariant forall n | i < n < j :: !NonNeg(Add(d, hs[n], -1))
      {
        var e := LinAdd(d, hs[j], -1);
        if NonNeg(e) {
          return true;
        }
        j := j + 1;
      }
      i := i + 1;
    }
    return false;
  }

  /** Once settled there is one schedule, the empty one. */
  lemma SettledDecides<K(!new)>(goal: Fact<K>, fs: seq<Fact<K>>, r: bool)
    requires Settled(fs) && Decides(goal, fs, r)
    ensures r == Verdict(State(fs, goal))
  {
    if !Contradiction(fs) {
      var ms: seq<Move<K>> :| AnswersBy(State(fs, goal), ms, r);
      SettledStops(State(fs, goal), ms);
    }
  }

  lemma {:induction false} SettledStops<K(!new)>(s: State<K>, ms: seq<Move<K>>)
    requires Settled(s.facts) && LegalRun(s, ms)
    ensures ms == []
    decreases |ms|
  {
    if ms != [] {
      SettledStops(s, ms[..|ms| - 1]);
      assert false;
    }
  }

  // ------------------------------------------------------------ soundness

  lemma NonNegVal<K(!new)>(l: Lin<K>, w: K -> int)
    requires NonNeg(l) && Natural(w)
    ensures Val(l, w) >= 0
  {
    forall k | k in l.coef ensures Weighted(l, w)(k) >= 0 {
      ProductNonneg(At(l, k), w(k));
    }
    SumNonneg(l.coef.Keys, Weighted(l, w));
  }

  lemma SolveUnit(c: int, rest: int, x: int)
    requires c == 1 || c == -1
    ensures rest + c * x == 0 <==> x == -c * rest
  {
    if c == 1 {
      assert c * x == x && -c * rest == -rest;
    } else {
      assert c * x == -x && -c * rest == rest;
    }
  }

  lemma SolvedVal<K(!new)>(l: Lin<K>, k: K, w: K -> int)
    requires Unit(l, k)
    ensures Val(l, w) == 0 <==> w(k) == Val(Solved(l, k), w)
  {
    var rest := Drop(l, k);
    ValDrop(l, k, w);
    ValScale(rest, -l.coef[k], w);
    SolveUnit(l.coef[k], Val(rest, w), w(k));
  }

  /** A valuation of the hypotheses survives an elimination and the goal keeps its value. */
  lemma StepForward<K(!new)>(s: State<K>, m: Move<K>, w: K -> int)
    requires Legal(s, m) && Natural(w) && AllHold(s.facts, w)
    ensures AllHold(After(s, m).facts, w)
    ensures Val(After(s, m).goal.l, w) == Val(s.goal.l, w)
  {
    var l := s.facts[m.i].l;
    assert Holds(s.facts[m.i], w);
    SolvedVal(l, m.atom, w);
    var repl := Solved(l, m.atom);
    forall j | 0 <= j < |s.facts| ensures Holds(After(s, m).facts[j], w) {
      assert Holds(s.facts[j], w);
      if j != m.i {
        ValSubst(s.facts[j].l, m.atom, repl, w, w);
      }
    }
    ValSubst(s.goal.l, m.atom, repl, w, w);
  }

  ghost function Update<K(!new)>(w: K -> int, k: K, v: int): K -> int {
    j => if j == k then v else w(j)
  }

  /** Every valuation of the eliminated state extends to one of the state before. */
  lemma StepBackward<K(!new)>(s: State<K>, m: Move<K>, w: K -> int)
    requires Legal(s, m) && Natural(w) && AllHold(After(s, m).facts, w)
    ensures var w' := Update(w, m.atom, Val(Solved(s.facts[m.i].l, m.atom), w));
            Natural(w') && AllHold(s.facts, w') && Val(s.goal.l, w') == Val(After(s, m).goal.l, w)
  {
    var l := s.facts[m.i].l;
    var repl := Solved(l, m.atom);
    var w' := Update(w, m.atom, Val(repl, w));
    assert Holds(After(s, m).facts[m.i], w);
    ValCongruent(repl, w, w');
    SolvedVal(l, m.atom, w');
    forall j | 0 <= j < |s.facts| ensures Holds(s.facts[j], w') {
      assert Holds(After(s, m).facts[j], w);
      if j != m.i {
        ValSubst(s.facts[j].l, m.atom, repl, w, w');
      }
    }
    ValSubst(s.goal.l, m.atom, repl, w, w');
  }

  lemma {:induction false} RunForward<K(!new)>(s: State<K>, ms: seq<Move<K>>, w: K -> int)
    requires LegalRun(s, ms) && Natural(w) && AllHold(s.facts, w)
    ensures AllHold(Run(s, ms).facts, w)
    ensures Val(Run(s, ms).goal.l, w) == Val(s.goal.l, w)
    decreases |ms|
  {
    if ms != [] {
      RunForward(s, ms[..|ms| - 1], w);
      StepForward(Run(s, ms[..|ms| - 1]), ms[|ms| - 1], w);
    }
  }

  /** Elimination loses nothing: entailment before and after any schedule is the same. */
  lemma {:induction false} EliminationExact<K(!new)>(s: State<K>, ms: seq<Move<K>>)
    requires LegalRun(s, ms)
    ensures Entails(s.facts, s.goal) <==> Entails(Run(s, ms).facts, Run(s, ms).goal)
    decreases |ms|
  {
    if ms != [] {
      var mid, m := Run(s, ms[..|ms| - 1]), ms[|ms| - 1];
      EliminationExact(s, ms[..|ms| - 1]);
      if Entails(mid.facts, mid.goal) {
        forall w: K -> int | Natural(w) && AllHold(After(mid, m).facts, w) ensures Holds(After(mid, m).goal, w) {
          StepBackward(mid, m, w);
          assert Holds(mid.goal, Update(w, m.atom, Val(Solved(mid.facts[m.i].l, m.atom), w)));
        }
      }
      if Entails(After(mid, m).facts, After(mid, m).goal) {
        forall w: K -> int | Natural(w) && AllHold(mid.facts, w) ensures Holds(mid.goal, w) {
          StepForward(mid, m, w);
          assert Holds(After(mid, m).goal, w);
        }
      }
    }
  }

  /** Each elimination spends an equality, so schedules are no longer than the hypotheses. */
  lemma {:induction false} ScheduleBounded<K(!new)>(s: State<K>, ms: seq<Move<K>>)
    requires LegalRun(s, ms)
    ensures |ms| + Equalities(Run(s, ms).facts) == Equalities(s.facts)
    decreases |ms|
  {
    if ms != [] {
      ScheduleBounded(s, ms[..|ms| - 1]);
      AfterShrinks(Run(s, ms[..|ms| - 1]), ms[|ms| - 1]);
    }
  }

  lemma {:induction false} InequalitiesHold<K(!new)>(fs: seq<Fact<K>>, w: K -> int)
    requires AllHold(fs, w)
    ensures forall i | 0 <= i < |Inequalities(fs)| :: Val(Inequalities(fs)[i], w) >= 0
    decreases |fs|
  {
    if fs != [] {
      assert Holds(fs[0], w);
      ValScale(fs[0].l, -1, w);
      assert forall i | 0 <= i < |fs[1..]| :: fs[1..][i] == fs[i + 1];
      InequalitiesHold(fs[1..], w);
    }
  }

  lemma CoveredVal<K(!new)>(l: Lin<K>, hs: seq<Lin<K>>, w: K -> int)
    requires Covered(l, hs) && Natural(w)
    requires forall i | 0 <= i < |hs| :: Val(hs[i], w) >= 0
    ensures Val(l, w) >= 0
  {
    if NonNeg(l) {
      NonNegVal(l, w);
    } else if i :| 0 <= i < |hs| && NonNeg(Add(l, hs[i], -1)) {
      NonNegVal(Add(l, hs[i], -1), w);
      ValAdd(l, hs[i], -1, w);
    } else {
      var i, j :| 0 <= i < j < |hs| && NonNeg(Add(Add(l, hs[i], -1), hs[j], -1));
      NonNegVal(Add(Add(l, hs[i], -1), hs[j], -1), w);
      ValAdd(Add(l, hs[i], -1), hs[j], -1, w);
      ValAdd(l, hs[i], -1, w);
    }
  }

  lemma NoModel<K(!new)>(fs: seq<Fact<K>>, w: K -> int)
    requires Contradiction(fs)
    ensures !AllHold(fs, w)
  {
    var i :| 0 <= i < |fs| && Absurd(fs[i]);
    assert Val(fs[i].l, w) == fs[i].l.c;
    assert !Holds(fs[i], w);
  }

  lemma VerdictSound<K(!new)>(s: State<K>, w: K -> int)
    requires Verdict(s) && Natural(w) && AllHold(s.facts, w)
    ensures Holds(s.goal, w)
  {
    if Contradiction(s.facts) {
      NoModel(s.facts, w);
    } else {
      InequalitiesHold(s.facts, w);
      ValScale(s.goal.l, -1, w);
      if s.goal.l != Const(0) {
        CoveredVal(s.goal.l, Inequalities(s.facts), w);
        if s.goal.op.FactEq? {
          CoveredVal(Scale(s.goal.l, -1), Inequalities(s.facts), w);
        }
      }
    }
  }

  /** A true answer is a proof, whichever atoms the map iteration picked. */
  lemma DecideSound<K(!new)>(goal: Fact<K>, hyps: seq<Fact<K>>)
    requires Decides(goal, hyps, true)
    ensures Entails(hyps, goal)
  {
    forall w: K -> int | Natural(w) && AllHold(hyps, w) ensures Holds(goal, w) {
      if Contradiction(hyps) {
        NoModel(hyps, w);
      } else {
        var s := State(hyps, goal);
        var ms: seq<Move<K>> :| AnswersBy(s, ms, true);
        RunForward(s, ms, w);
        RunKeepsOp(s, ms);
        VerdictSound(Run(s, ms), w);
      }
    }
  }

  // ------------------------------------------------------------ exactness

  ghost function Spike<K(!new)>(k: K, v: int): K -> int {
    j => if j == k then v else 0
  }

  lemma SpikeVal<K(!new)>(l: Lin<K>, k: K, v: int)
    ensures Val(l, Spike(k, v)) == l.c + At(l, k) * v
  {
    ValDrop(l, k, Spike(k, v));
    var rest := Drop(l, k);
    SumSuperset(rest.coef.Keys, {}, Weighted(rest, Spike(k, v)));
  }

  lemma ZeroVal<K(!new)>(l: Lin<K>)
    ensures Val(l, (k: K) => 0) == l.c
  {
    SumSuperset(l.coef.Keys, {}, Weighted(l, (k: K) => 0));
  }

  /** A natural valuation refuting `goal`, built the way the two failing tests fail. */
  ghost function Refuter<K(!new)>(goal: Fact<K>): K -> int {
    if goal.l.c < 0 || (goal.op.FactEq? && goal.l.c != 0) || goal.l.coef == map[] then
      (k: K) => 0
    else if goal.op.FactEq? then
      var k :| k in goal.l.coef; Spike(k, 1)
    else if exists k :: k in goal.l.coef && goal.l.coef[k] < 0 then
      var k :| k in goal.l.coef && goal.l.coef[k] < 0; Spike(k, goal.l.c + 1)
    else
      (k: K) => 0
  }

  predicate Tautology<K(==)>(goal: Fact<K>) {
    if goal.op.FactEq? then goal.l == Const(0) else NonNeg(goal.l)
  }

  lemma Refutes<K(!new)>(goal: Fact<K>)
    requires !Tautology(goal)
    ensures Natural(Refuter(goal)) && !Holds(goal, Refuter(goal))
  {
    var l := goal.l;
    ZeroVal(l);
    if goal.op.FactEq? {
      if l.c == 0 {
        assert l.coef != map[];
        var k :| k in l.coef && Refuter(goal) == Spike(k, 1);
        SpikeVal(l, k, 1);
      }
    } else if l.c >= 0 {
      var k :| k in l.coef && l.coef[k] < 0 && Refuter(goal) == Spike(k, l.c + 1);
      SpikeVal(l, k, l.c + 1);
      Overshoot(l.coef[k], l.c);
    }
  }

  lemma Overshoot(a: int, c: int)
    requires a < 0 <= c
    ensures c + a * (c + 1) < 0
  {
    assert a * (c + 1) <= -1 * (c + 1);
  }

  /** With no hypotheses the decider is exact, and false answers have a counter-valuation. */
  lemma DecideExact<K(!new)>(goal: Fact<K>, r: bool)
    requires Decides(goal, [], r)
    ensures r <==> Entails([], goal)
    ensures !r ==> Natural(Refuter(goal)) && !Holds(goal, Refuter(goal))
  {
    var none: seq<Fact<K>> := [];
    assert Settled(none);
    SettledDecides(goal, none, r);
    if r {
      DecideSound(goal, []);
    } else {
      Refutes(goal);
      assert AllHold([], Refuter(goal));
    }
  }

  // ------------------------------------------- hypotheses are never refused

  /** Some schedule settles from every state, so every question has an answer. */
  lemma {:induction false} SettlingRun<K(!new)>(s: State<K>, ms: seq<Move<K>>) returns (all: seq<Move<K>>)
    requires LegalRun(s, ms)
    ensures LegalRun(s, all) && Settled(Run(s, all).facts)
    decreases Equalities(Run(s, ms).facts)
  {
    var t := Run(s, ms);
    if i, k :| 0 <= i < |t.facts| && t.facts[i].op.FactEq? && Unit(t.facts[i].l, k) {
      RunSnoc(s, ms, Move(i, k));
      AfterShrinks(t, Move(i, k));
      all := SettlingRun(s, ms + [Move(i, k)]);
    } else {
      all := ms;
    }
  }

  lemma AnswerExists<K(!new)>(goal: Fact<K>, hyps: seq<Fact<K>>)
    ensures Decides(goal, hyps, true) || Decides(goal, hyps, false)
  {
    if !Contradiction(hyps) {
      var s := State(hyps, goal);
      var ms := SettlingRun(s, []);
      assert AnswersBy(s, ms, Verdict(Run(s, ms)));
    }
  }

  /** The goal is still among the facts, or has cancelled to zero. */
  ghost predicate Present<K>(s: State<K>) {
    s.goal in s.facts || s.goal.l == Const(0)
  }

  lemma {:induction false} PresentKept<K(!new)>(s: State<K>, ms: seq<Move<K>>)
    requires Present(s) && LegalRun(s, ms)
    ensures Present(Run(s, ms))
    decreases |ms|
  {
    if ms != [] {
      var t, m := Run(s, ms[..|ms| - 1]), ms[|ms| - 1];
      PresentKept(s, ms[..|ms| - 1]);
      if t.goal.l == Const(0) {
        assert After(t, m).goal.l == Const(0);
      } else {
        var j :| 0 <= j < |t.facts| && t.facts[j] == t.goal;
        if j == m.i {
          SolvedCancels(t.goal.l, m.atom);
        } else {
          assert After(t, m).facts[j] == After(t, m).goal;
        }
      }
    }
  }

  lemma SolvedCancels<K(!new)>(l: Lin<K>, k: K)
    requires Unit(l, k)
    ensures Subst(l, k, Solved(l, k)) == Const(0)
  {
    var c, rest, repl := l.coef[k], Drop(l, k), Solved(l, k);
    forall j ensures At(Scale(repl, c), j) == -At(rest, j) {
      assert At(repl, j) == -c * At(rest, j);
      assert c * (-c) == -1;
    }
    var r := Add(rest, Scale(repl, c), 1);
    assert forall j :: At(r, j) == 0;
    assert r.coef == map[];
  }

  lemma AddSelf<K(!new)>(l: Lin<K>)
    ensures Add(l, l, -1) == Const(0)
  {
  }

  lemma {:induction false} InequalityListed<K(!new)>(fs: seq<Fact<K>>, j: nat)
    requires j < |fs|
    ensures fs[j].l in Inequalities(fs)
    ensures fs[j].op.FactEq? ==> Scale(fs[j].l, -1) in Inequalities(fs)
    decreases j
  {
    if j > 0 {
      InequalityListed(fs[1..], j - 1);
    }
  }

  lemma CoveredByMember<K(!new)>(l: Lin<K>, hs: seq<Lin<K>>)
    requires l in hs
    ensures Covered(l, hs)
  {
    var i :| 0 <= i < |hs| && hs[i] == l;
    AddSelf(l);
    assert NonNeg(Add(l, hs[i], -1));
  }

  lemma PresentVerdict<K(!new)>(s: State<K>)
    requires Present(s)
    ensures Verdict(s)
  {
    if s.goal.l != Const(0) {
      var j :| 0 <= j < |s.facts| && s.facts[j] == s.goal;
      InequalityListed(s.facts, j);
      CoveredByMember(s.goal.l, Inequalities(s.facts));
      if s.goal.op.FactEq? {
        CoveredByMember(Scale(s.goal.l, -1), Inequalities(s.facts));
      }
    }
  }

  /** A goal that is one of the hypotheses is always answered true. */
  lemma HypothesisAccepted<K(!new)>(goal: Fact<K>, hyps: seq<Fact<K>>)
    requires goal in hyps
    ensures Decides(goal, hyps, true) && !Decides(goal, hyps, false)
  {
    AnswerExists(goal, hyps);
    forall ms: seq<Move<K>> ensures !AnswersBy(State(hyps, goal), ms, false) {
      if LegalRun(State(hyps, goal), ms) {
        PresentKept(State(hyps, goal), ms);
        PresentVerdict(Run(State(hyps, goal), ms));
      }
    }
  }

  // ------------------------------------------- the answer depends on the schedule

  lemma AtAdd<K(!new)>(a: Lin<K>, b: Lin<K>, s: int, k: K)
    ensures At(Add(a, b, s), k) == At(a, k) + s * At(b, k)
  {
  }

  lemma AtSubst<K(!new)>(l: Lin<K>, k: K, repl: Lin<K>, j: K)
    ensures At(Subst(l, k, repl), j) == (if j == k then 0 else At(l, j)) + At(l, k) * At(repl, j)
  {
  }

  lemma AtSolved<K(!new)>(l: Lin<K>, k: K, j: K)
    requires Unit(l, k)
    ensures At(Solved(l, k), j) == if j == k then 0 else -At(l, k) * At(l, j)
  {
  }

  /** A single elimination that leaves only inequalities answers by its verdict. */
  lemma SingleMove<K(!new)>(goal: Fact<K>, hyps: seq<Fact<K>>, m: Move<K>, r: bool)
    requires !Contradiction(hyps) && Legal(State(hyps, goal), m)
    requires forall f | f in After(State(hyps, goal), m).facts :: f.op.FactGe?
    requires r == Verdict(After(State(hyps, goal), m))
    ensures Decides(goal, hyps, r)
  {
    RunSnoc(State(hyps, goal), [], m);
    assert AnswersBy(State(hyps, goal), [] + [m], r);
  }

  lemma ThreeInequalities<K(!new)>(fs: seq<Fact<K>>)
    requires |fs| == 3 && forall i | 0 <= i < 3 :: fs[i].op.FactGe?
    ensures Inequalities(fs) == [fs[0].l, fs[1].l, fs[2].l]
  {
    assert fs[1..] == [fs[1], fs[2]] && fs[1..][1..] == [fs[2]];
    assert Inequalities(fs[1..][1..]) == [fs[2].l];
    assert Inequalities(fs[1..]) == [fs[1].l] + [fs[2].l];
  }

  ghost predicate Is(l: Lin<int>, f: int -> int) {
    l.c == 0 && forall j :: At(l, j) == f(j)
  }

  /** x = y + z, a >= b, c >= d  |-  y + a + c >= b + d, with atoms x..d numbered 0..6. */
  ghost predicate OrderProblem(hyps: seq<Fact<int>>, goal: Fact<int>) {
    && |hyps| == 3 && hyps[0].op.FactEq? && hyps[1].op.FactGe? && hyps[2].op.FactGe? && goal.op.FactGe?
    && Is(hyps[0].l, j => if j == 0 then 1 else if j == 1 || j == 2 then -1 else 0)
    && Is(hyps[1].l, j => if j == 3 then 1 else if j == 4 then -1 else 0)
    && Is(hyps[2].l, j => if j == 5 then 1 else if j == 6 then -1 else 0)
    && Is(goal.l, j => if j == 1 || j == 3 || j == 5 then 1 else if j == 4 || j == 6 then -1 else 0)
  }

  lemma OrderNotAbsurd(hyps: seq<Fact<int>>, goal: Fact<int>)
    requires OrderProblem(hyps, goal)
    ensures !Contradiction(hyps)
    ensures Legal(State(hyps, goal), Move(0, 0)) && Legal(State(hyps, goal), Move(0, 1))
  {
    assert At(hyps[0].l, 0) == 1 && At(hyps[0].l, 1) == -1 && At(hyps[1].l, 3) == 1 && At(hyps[2].l, 5) == 1;
  }

  /** What is left after eliminating atom k. */
  lemma OrderAfter(hyps: seq<Fact<int>>, goal: Fact<int>, k: int)
    requires OrderProblem(hyps, goal) && (k == 0 || k == 1) && Legal(State(hyps, goal), Move(0, k))
    ensures var t := After(State(hyps, goal), Move(0, k));
            && t.goal.op.FactGe? && |t.facts| == 3 && t.facts[0].op.FactGe? && !Contradiction(t.facts)
            && t.facts[1] == hyps[1] && t.facts[2] == hyps[2]
            && Is(t.facts[0].l, j => if k == 0 then (if 1 <= j <= 2 then 1 else 0)
                                     else if j == 0 then 1 else if j == 2 then -1 else 0)
            && (k == 0 ==> t.goal == goal)
            && (k == 1 ==> Is(t.goal.l, j => if j == 0 || j == 3 || j == 5 then 1
                                             else if j == 2 || j == 4 || j == 6 then -1 else 0))
  {
    var t := After(State(hyps, goal), Move(0, k));
    var repl := Solved(hyps[0].l, k);
    forall j ensures At(repl, j) == if j == k then 0 else -At(hyps[0].l, k) * At(hyps[0].l, j) {
      AtSolved(hyps[0].l, k, j);
    }
    forall j ensures At(t.goal.l, j) == (if j == k then 0 else At(goal.l, j)) + At(goal.l, k) * At(repl, j) {
      AtSubst(goal.l, k, repl, j);
    }
    assert At(hyps[1].l, k) == 0 && At(hyps[2].l, k) == 0 && At(hyps[1].l, 3) == 1 && At(hyps[2].l, 5) == 1;
    assert At(repl, 2) != 0;
  }

  lemma NonNegRest(g: Lin<int>, h: Lin<int>, h': Lin<int>)
    requires g.c - h.c - h'.c >= 0 && forall j :: At(g, j) - At(h, j) - At(h', j) >= 0
    ensures NonNeg(Add(Add(g, h, -1), h', -1))
  {
    var e := Add(Add(g, h, -1), h', -1);
    forall j | j in e.coef ensures e.coef[j] >= 0 {
      AtAdd(g, h, -1, j);
      AtAdd(Add(g, h, -1), h', -1, j);
    }
  }

  lemma OrderTrue(hyps: seq<Fact<int>>, goal: Fact<int>)
    requires OrderProblem(hyps, goal)
    ensures Decides(goal, hyps, true)
  {
    OrderNotAbsurd(hyps, goal);
    OrderAfter(hyps, goal, 0);
    var t := After(State(hyps, goal), Move(0, 0));
    ThreeInequalities(t.facts);
    NonNegRest(t.goal.l, hyps[1].l, hyps[2].l);
    var hs := Inequalities(t.facts);
    assert NonNeg(Add(Add(t.goal.l, hs[1], -1), hs[2], -1));
    SingleMove(goal, hyps, Move(0, 0), true);
  }

  /** Three disjoint differences cannot all be taken off with two hypotheses. */
  lemma ThreeNeeded(g: Lin<int>, hs: seq<Lin<int>>, p: seq<int>)
    requires |hs| == 3 && |p| == 3
    requires forall i | 0 <= i < 3 :: At(g, p[i]) == -1
    requires forall i, j | 0 <= i < 3 && 0 <= j < 3 && i != j :: At(hs[i], p[j]) == 0
    ensures !Covered(g, hs)
  {
    assert At(g, p[0]) == -1;
    forall i | 0 <= i < 3 ensures !NonNeg(Add(g, hs[i], -1)) {
      var j := if i == 0 then 1 else 0;
      AtAdd(g, hs[i], -1, p[j]);
    }
    forall i, i' | 0 <= i < i' < 3 ensures !NonNeg(Add(Add(g, hs[i], -1), hs[i'], -1)) {
      var j := 3 - i - i';
      AtAdd(g, hs[i], -1, p[j]);
      AtAdd(Add(g, hs[i], -1), hs[i'], -1, p[j]);
    }
  }

  lemma OrderFalse(hyps: seq<Fact<int>>, goal: Fact<int>)
    requires OrderProblem(hyps, goal)
    ensures Decides(goal, hyps, false)
  {
    OrderNotAbsurd(hyps, goal);
    OrderAfter(hyps, goal, 1);
    var t := After(State(hyps, goal), Move(0, 1));
    ThreeInequalities(t.facts);
    ThreeNeeded(t.goal.l, Inequalities(t.facts), [2, 4, 6]);
    SingleMove(goal, hyps, Move(0, 1), false);
  }

  lemma OrderExists()
    ensures exists hyps: seq<Fact<int>>, goal: Fact<int> :: OrderProblem(hyps, goal)
  {
    var e: Lin<int> := Form(0, map[0 := 1, 1 := -1, 2 := -1]);
    var h: Lin<int> := Form(0, map[3 := 1, 4 := -1]);
    var h': Lin<int> := Form(0, map[5 := 1, 6 := -1]);
    var g: Lin<int> := Form(0, map[1 := 1, 3 := 1, 4 := -1, 5 := 1, 6 := -1]);
    assert Is(e, j => if j == 0 then 1 else if j == 1 || j == 2 then -1 else 0);
    assert Is(h, j => if j == 3 then 1 else if j == 4 then -1 else 0);
    assert Is(h', j => if j == 5 then 1 else if j == 6 then -1 else 0);
    assert Is(g, j => if j == 1 || j == 3 || j == 5 then 1 else if j == 4 || j == 6 then -1 else 0);
    var hyps := [Fact(FactEq, e), Fact(FactGe, h), Fact(FactGe, h')];
    assert hyps[0].l == e && hyps[1].l == h && hyps[2].l == h';
    assert OrderProblem(hyps, Fact(FactGe, g));
  }

  /** One question, both answers: the map order decides whether a valid goal is accepted. */
  lemma AnswerDependsOnOrder()
    ensures exists hyps: seq<Fact<int>>, goal: Fact<int> ::
      Entails(hyps, goal) && Decides(goal, hyps, true) && Decides(goal, hyps, false)
  {
    OrderExists();
    var hyps: seq<Fact<int>>, goal: Fact<int> :| OrderProblem(hyps, goal);
    OrderTrue(hyps, goal);
    OrderFalse(hyps, goal);
    DecideSound(goal, hyps);
  }
}
