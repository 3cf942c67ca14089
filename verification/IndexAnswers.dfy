/**
 * What the index tests answer, told by meaning: exactly when two indices clash
 * (internal/core/oblig.go) and a proposition is discharged
 * (internal/core/term.go) with no facts in scope, and that facts which say as
 * much make them.
 */
module IndexAnswers {
  import opened Options
  import opened Sums
  import opened Linear
  import opened Decider
  import opened Schedules
  import opened Terms
  import opened Values
  import opened Indices

  // -------------------------------------------------- forms without a root

  /** `k` times the value of `d` at the rational point `w / k`. */
  ghost function Scaled(d: Lin<Neutral>, w: Neutral -> int, k: nat): int {
    Val(d, w) + (k - 1) * d.c
  }

  /** Zero at no non-negative rational point. */
  ghost predicate Rootless(d: Lin<Neutral>) {
    forall w: Neutral -> int, k: nat | Natural(w) && k >= 1 :: Scaled(d, w, k) != 0
  }

  /** The sign test misses no form without a non-negative root, and admits no other. */
  lemma NeverZeroExact(d: Lin<Neutral>)
    ensures NeverZero(d) <==> Rootless(d)
  {
    if NeverZero(d) {
      forall w: Neutral -> int, k: nat | Natural(w) && k >= 1 ensures Scaled(d, w, k) != 0 {
        ScaledRoot(d, w, k);
      }
    } else {
      SomeRoot(d);
    }
  }

  lemma ScaledRoot(d: Lin<Neutral>, w: Neutral -> int, k: nat)
    requires NeverZero(d) && Natural(w) && k >= 1
    ensures Scaled(d, w, k) != 0
  {
    var more := Form(k * d.c, d.coef);
    assert d.c > 0 ==> k * d.c > 0;
    assert d.c < 0 ==> k * d.c < 0;
    NeverZeroVal(more, w);
    assert Val(more, w) == Val(d, w) + k * d.c - d.c by {
      assert forall x :: Weighted(more, w)(x) == Weighted(d, w)(x);
      SumCongruent(d.coef.Keys, Weighted(more, w), Weighted(d, w));
    }
    assert (k - 1) * d.c == k * d.c - d.c;
  }

  lemma SomeRoot(d: Lin<Neutral>)
    requires !NeverZero(d)
    ensures !Rootless(d)
  {
    if d.c == 0 {
      ZeroRoot(d);
    } else {
      var x :| x in d.coef && if d.c > 0 then d.coef[x] < 0 else d.coef[x] > 0;
      var k, w := if d.c > 0 then -d.coef[x] else d.coef[x], Spike(x, if d.c > 0 then d.c else -d.c);
      SpikeVal(d, x, if d.c > 0 then d.c else -d.c);
      assert Natural(w);
      Cancels(d.c, d.coef[x]);
      assert Scaled(d, w, k) == 0;
    }
  }

  lemma ZeroRoot(d: Lin<Neutral>)
    requires d.c == 0
    ensures !Rootless(d)
  {
    var w: Neutral -> int := x => 0;
    ValNought(d);
    assert Natural(w) && Scaled(d, w, 1) == 0;
  }

  lemma ValNought(d: Lin<Neutral>)
    ensures Val(d, x => 0) == d.c
  {
    SumSuperset(d.coef.Keys, {}, Weighted(d, x => 0));
  }

  lemma Cancels(c: int, a: int)
    ensures c > 0 && a < 0 ==> c + a * c + (-a - 1) * c == 0
    ensures c < 0 && a > 0 ==> c + a * -c + (a - 1) * c == 0
  {
  }

  /** With no facts in scope two indices clash exactly when their difference is rootless. */
  lemma ClashExact(use: Term, variant: Term, r: bool)
    requires ClashAnswer([], use, variant, r)
    ensures var a, b := SymbolicValue(map[], use), SymbolicValue(map[], RenameFree(variant, VARIANT));
            r <==> a.Some? && b.Some? && Rootless(Add(AsLin(a.value), AsLin(b.value), -1))
  {
    var a, b := SymbolicValue(map[], use), SymbolicValue(map[], RenameFree(variant, VARIANT));
    if a.Some? && b.Some? {
      NeverZeroExact(Add(AsLin(a.value), AsLin(b.value), -1));
    }
  }

  /** With no facts in scope a relation is discharged exactly when it holds whatever naturals the atoms are. */
  lemma PropExact(op: PropOp, a: Term, b: Term, sub: map<string, Term>, defs: Defs, r: bool)
    requires PropAnswer([], op, a, b, sub, defs, r)
    ensures var x, y := SymbolicValue(defs, SubstVars(a, sub)), SymbolicValue(defs, SubstVars(b, sub));
            r <==> x.Some? && y.Some? && Always(op, AsLin(x.value), AsLin(y.value))
  {
    var x, y := SymbolicValue(defs, SubstVars(a, sub)), SymbolicValue(defs, SubstVars(b, sub));
    if x.Some? && y.Some? {
      var goal := FactOf(op, AsLin(x.value), AsLin(y.value));
      DecideExact(goal, r);
      EntailedAlways(op, AsLin(x.value), AsLin(y.value));
    }
  }

  ghost predicate Always(op: PropOp, a: Lin<Neutral>, b: Lin<Neutral>) {
    forall w: Neutral -> int | Natural(w) :: Relates(op, Val(a, w), Val(b, w))
  }

  lemma EntailedAlways(op: PropOp, a: Lin<Neutral>, b: Lin<Neutral>)
    ensures Entails([], FactOf(op, a, b)) <==> Always(op, a, b)
  {
    forall w: Neutral -> int ensures Holds(FactOf(op, a, b), w) <==> Relates(op, Val(a, w), Val(b, w)) {
      FactOfHolds(op, a, b, w);
    }
    if Entails([], FactOf(op, a, b)) {
      forall w: Neutral -> int | Natural(w) ensures Relates(op, Val(a, w), Val(b, w)) {
        assert AllHold([], w);
      }
    }
  }

  /** Two values are definitionally equal exactly when they agree whatever the atoms stand for. */
  lemma EqualExact(a: Value, b: Value)
    ensures Equal(a, b) <==> forall w: Neutral -> int :: Val(AsLin(a), w) == Val(AsLin(b), w)
  {
    if Equal(a, b) {
      assert AsLin(a) == AsLin(b);
    }
    if forall w: Neutral -> int :: Val(AsLin(a), w) == Val(AsLin(b), w) {
      SameReadings(AsLin(a), AsLin(b));
      if a.VNeu? && b.VNeu? {
        assert a.n in AsLin(a).coef && a.n in AsLin(b).coef;
      }
    }
  }

  lemma SameReadings(a: Lin<Neutral>, b: Lin<Neutral>)
    requires forall w: Neutral -> int :: Val(a, w) == Val(b, w)
    ensures a == b
  {
    forall k ensures a.c == b.c && At(a, k) == At(b, k) {
      SpikeVal(a, k, 0);
      SpikeVal(b, k, 0);
      SpikeVal(a, k, 1);
      SpikeVal(b, k, 1);
      assert Val(a, Spike(k, 0)) == Val(b, Spike(k, 0)) && Val(a, Spike(k, 1)) == Val(b, Spike(k, 1));
    }
    ValNought(a);
    ValNought(b);
    SameForm(a, b);
  }

  /** Indices a fact in scope tells apart, either way round, clash. */
  lemma ApartByHypothesis(hyps: seq<Fact<Neutral>>, a: Value, b: Value, r: bool)
    requires ApartAnswer(hyps, a, b, r) && (Above(a, b) in hyps || Above(b, a) in hyps)
    ensures r
  {
    if Above(a, b) in hyps {
      HypothesisAccepted(Above(a, b), hyps);
    } else {
      HypothesisAccepted(Above(b, a), hyps);
    }
  }

  /** A relation that is among the facts in scope is discharged. */
  lemma PropByHypothesis(
      hyps: seq<Fact<Neutral>>, op: PropOp, a: Term, b: Term, sub: map<string, Term>, defs: Defs, r: bool)
    requires PropAnswer(hyps, op, a, b, sub, defs, r)
    requires var x, y := SymbolicValue(defs, SubstVars(a, sub)), SymbolicValue(defs, SubstVars(b, sub));
             x.Some? && y.Some? && FactOf(op, AsLin(x.value), AsLin(y.value)) in hyps
    ensures r
  {
    var x, y := SymbolicValue(defs, SubstVars(a, sub)).value, SymbolicValue(defs, SubstVars(b, sub)).value;
    HypothesisAccepted(FactOf(op, AsLin(x), AsLin(y)), hyps);
  }
}
