/**
 * When the decider's answer does not depend on which atoms are eliminated
 * first (internal/core/arith.go): a diamond property of its moves.
 */
module Schedules {
  import opened Linear
  import opened Decider

  /** Each equality has at most one atom to eliminate, and that atom is in no other equality. */
  ghost predicate Separate<K(!new)>(fs: seq<Fact<K>>) {
    forall i, k | 0 <= i < |fs| && fs[i].op.FactEq? && Unit(fs[i].l, k) :: Own(fs, i, k)
  }

  ghost predicate Own<K(!new)>(fs: seq<Fact<K>>, i: int, k: K)
    requires 0 <= i < |fs|
  {
    && (forall k' | Unit(fs[i].l, k') :: k' == k)
    && (forall j | 0 <= j < |fs| && j != i && fs[j].op.FactEq? :: k !in fs[j].l.coef)
  }

  // -------------------------------------------------------- substitutions commute

  lemma SameForm<K(!new)>(a: Lin<K>, b: Lin<K>)
    requires a.c == b.c && forall k :: At(a, k) == At(b, k)
    ensures a == b
  {
    forall k ensures k in a.coef <==> k in b.coef {
      assert At(a, k) == At(b, k);
    }
    forall k | k in a.coef ensures a.coef[k] == b.coef[k] {
      assert At(a, k) == At(b, k);
    }
  }

  lemma SubstConst<K(!new)>(l: Lin<K>, k: K, repl: Lin<K>)
    ensures Subst(l, k, repl).c == l.c + At(l, k) * repl.c
  {
  }

  lemma SubstAbsent<K(!new)>(l: Lin<K>, k: K, repl: Lin<K>)
    requires k !in l.coef
    ensures Subst(l, k, repl) == l
  {
  }

  /** Neither replacement mentions either atom. */
  lemma SubstsCommute<K(!new)>(l: Lin<K>, k: K, r: Lin<K>, k': K, r': Lin<K>)
    requires k != k' && At(r, k) == 0 && At(r, k') == 0 && At(r', k) == 0 && At(r', k') == 0
    ensures Subst(Subst(l, k, r), k', r') == Subst(Subst(l, k', r'), k, r)
  {
    var a, b := Subst(l, k, r), Subst(l, k', r');
    forall j ensures At(Subst(a, k', r'), j) == At(Subst(b, k, r), j) {
      TwiceAt(l, k, r, k', r', j);
      TwiceAt(l, k', r', k, r, j);
    }
    TwiceConst(l, k, r, k', r');
    TwiceConst(l, k', r', k, r);
    SameForm(Subst(a, k', r'), Subst(b, k, r));
  }

  lemma TwiceAt<K(!new)>(l: Lin<K>, k: K, r: Lin<K>, k': K, r': Lin<K>, j: K)
    requires k != k' && At(r, k') == 0 && At(r', k) == 0 && At(r, k) == 0 && At(r', k') == 0
    ensures At(Subst(Subst(l, k, r), k', r'), j)
         == (if j == k || j == k' then 0 else At(l, j)) + At(l, k) * At(r, j) + At(l, k') * At(r', j)
  {
    var a := Subst(l, k, r);
    AtSubst(a, k', r', j);
    AtSubst(l, k, r, j);
    AtSubst(l, k, r, k');
    assert At(l, k) * 0 == 0;
  }

  lemma TwiceConst<K(!new)>(l: Lin<K>, k: K, r: Lin<K>, k': K, r': Lin<K>)
    requires k != k' && At(r, k') == 0
    ensures Subst(Subst(l, k, r), k', r').c == l.c + At(l, k) * r.c + At(l, k') * r'.c
  {
    SubstConst(Subst(l, k, r), k', r');
    SubstConst(l, k, r);
    AtSubst(l, k, r, k');
    assert At(l, k) * 0 == 0;
  }

  // --------------------------------------------------------------- the diamond

  /** Other equalities stay as they were, so separateness is kept. */
  lemma AfterSeparate<K(!new)>(s: State<K>, m: Move<K>)
    requires Separate(s.facts) && Legal(s, m)
    ensures Separate(After(s, m).facts)
    ensures forall j | 0 <= j < |s.facts| && j != m.i && s.facts[j].op.FactEq? :: After(s, m).facts[j] == s.facts[j]
  {
    var t := After(s, m);
    assert Own(s.facts, m.i, m.atom);
    forall i, k | 0 <= i < |t.facts| && t.facts[i].op.FactEq? && Unit(t.facts[i].l, k) ensures Own(t.facts, i, k) {
      assert t.facts[i] == s.facts[i] && Own(s.facts, i, k);
    }
  }

  lemma SolvedMentions<K(!new)>(l: Lin<K>, k: K, j: K)
    requires Unit(l, k) && (j == k || j !in l.coef)
    ensures At(Solved(l, k), j) == 0
  {
    AtSolved(l, k, j);
    assert -At(l, k) * 0 == 0;
  }

  /** Two different moves give the same state in either order. */
  lemma MovesCommute<K(!new)>(s: State<K>, m: Move<K>, n: Move<K>)
    requires Separate(s.facts) && Legal(s, m) && Legal(s, n) && m != n
    ensures Legal(After(s, m), n) && Legal(After(s, n), m)
    ensures After(After(s, m), n) == After(After(s, n), m)
  {
    assert Own(s.facts, m.i, m.atom) && Own(s.facts, n.i, n.atom);
    assert m.i != n.i;
    AfterSeparate(s, m);
    AfterSeparate(s, n);
    var r, q := Solved(s.facts[m.i].l, m.atom), Solved(s.facts[n.i].l, n.atom);
    SolvedMentions(s.facts[m.i].l, m.atom, m.atom);
    SolvedMentions(s.facts[m.i].l, m.atom, n.atom);
    SolvedMentions(s.facts[n.i].l, n.atom, m.atom);
    SolvedMentions(s.facts[n.i].l, n.atom, n.atom);
    FactsCommute(s, m, n, r, q);
    SubstsCommute(s.goal.l, m.atom, r, n.atom, q);
    assert After(After(s, m), n).facts == After(After(s, n), m).facts;
  }

  lemma FactsCommute<K(!new)>(s: State<K>, m: Move<K>, n: Move<K>, r: Lin<K>, q: Lin<K>)
    requires Legal(s, m) && Legal(s, n) && m.i != n.i && m.atom != n.atom
    requires r == Solved(s.facts[m.i].l, m.atom) && q == Solved(s.facts[n.i].l, n.atom)
    requires At(r, m.atom) == 0 && At(r, n.atom) == 0 && At(q, m.atom) == 0 && At(q, n.atom) == 0
    requires Legal(After(s, m), n) && After(s, m).facts[n.i] == s.facts[n.i]
    requires Legal(After(s, n), m) && After(s, n).facts[m.i] == s.facts[m.i]
    ensures forall j | 0 <= j < |s.facts| :: After(After(s, m), n).facts[j] == After(After(s, n), m).facts[j]
  {
    forall j | 0 <= j < |s.facts| ensures After(After(s, m), n).facts[j] == After(After(s, n), m).facts[j] {
      if j == m.i {
        SubstAbsent(r, n.atom, q);
      } else if j == n.i {
        SubstAbsent(q, m.atom, r);
      } else {
        SubstsCommute(s.facts[j].l, m.atom, r, n.atom, q);
      }
    }
  }

  // ---------------------------------------------------------- whole schedules

  /** A schedule seen from its first move. */
  lemma {:induction false} RunCons<K(!new)>(s: State<K>, ms: seq<Move<K>>)
    requires ms != [] && LegalRun(s, ms)
    ensures Legal(s, ms[0]) && LegalRun(After(s, ms[0]), ms[1..]) && Run(After(s, ms[0]), ms[1..]) == Run(s, ms)
    decreases |ms|
  {
    var last := |ms| - 1;
    if last == 0 {
      assert ms[..last] == [] && ms[1..] == [];
    } else {
      RunCons(s, ms[..last]);
      assert ms[..last][1..] == ms[1..][..last - 1] && ms[1..][last - 1] == ms[last];
    }
  }

  lemma {:induction false} RunFrom<K(!new)>(s: State<K>, m: Move<K>, ms: seq<Move<K>>)
    requires Legal(s, m) && LegalRun(After(s, m), ms)
    ensures LegalRun(s, [m] + ms) && Run(s, [m] + ms) == Run(After(s, m), ms)
    decreases |ms|
  {
    if ms == [] {
      RunSnoc(s, [], m);
      assert [m] + ms == [] + [m];
    } else {
      var first, n := ms[..|ms| - 1], ms[|ms| - 1];
      assert LegalRun(After(s, m), first) && Legal(Run(After(s, m), first), n);
      assert Run(After(s, m), ms) == After(Run(After(s, m), first), n);
      RunFrom(s, m, first);
      RunSnoc(s, [m] + first, n);
      Regroup(m, first, n, ms);
    }
  }

  lemma Regroup<M>(m: M, first: seq<M>, n: M, ms: seq<M>)
    requires ms == first + [n]
    ensures [m] + ms == [m] + first + [n]
  {
  }

  ghost predicate Settles<K(!new)>(s: State<K>, ms: seq<Move<K>>) {
    LegalRun(s, ms) && Settled(Run(s, ms).facts)
  }

  /** All schedules that settle end in the same state. */
  lemma {:induction false} OneOutcome<K(!new)>(s: State<K>, ms: seq<Move<K>>, ns: seq<Move<K>>)
    requires Separate(s.facts) && Settles(s, ms) && Settles(s, ns)
    ensures Run(s, ms) == Run(s, ns)
    decreases Equalities(s.facts)
  {
    if ms == [] {
      SettledStops(s, ns);
    } else if ns == [] {
      SettledStops(s, ms);
    } else {
      RunCons(s, ms);
      RunCons(s, ns);
      AfterShrinks(s, ms[0]);
      AfterShrinks(s, ns[0]);
      AfterSeparate(s, ms[0]);
      AfterSeparate(s, ns[0]);
      if ms[0] == ns[0] {
        OneOutcome(After(s, ms[0]), ms[1..], ns[1..]);
      } else {
        MovesCommute(s, ms[0], ns[0]);
        var rest := SettlingRun(After(After(s, ms[0]), ns[0]), []);
        RunFrom(After(s, ms[0]), ns[0], rest);
        RunFrom(After(s, ns[0]), ms[0], rest);
        OneOutcome(After(s, ms[0]), ms[1..], [ns[0]] + rest);
        OneOutcome(After(s, ns[0]), ns[1..], [ms[0]] + rest);
      }
    }
  }

  /**
   * The answer is determined when the hypotheses are separate (in particular
   * when no equality defines an atom), contradictory, contain the goal, or do
   * not entail it.
   */
  lemma AnswerUnique<K(!new)>(goal: Fact<K>, hyps: seq<Fact<K>>)
    requires Separate(hyps) || Contradiction(hyps) || goal in hyps || !Entails(hyps, goal)
    ensures !(Decides(goal, hyps, true) && Decides(goal, hyps, false))
  {
    if Decides(goal, hyps, true) {
      DecideSound(goal, hyps);
    }
    if goal in hyps {
      HypothesisAccepted(goal, hyps);
    } else if Separate(hyps) && !Contradiction(hyps) && Decides(goal, hyps, true) && Decides(goal, hyps, false) {
      var s := State(hyps, goal);
      var ms: seq<Move<K>> :| AnswersBy(s, ms, true);
      var ns: seq<Move<K>> :| AnswersBy(s, ns, false);
      OneOutcome(s, ms, ns);
    }
  }

  lemma SettledSeparate<K(!new)>(fs: seq<Fact<K>>)
    requires Settled(fs)
    ensures Separate(fs)
  {
  }
}
