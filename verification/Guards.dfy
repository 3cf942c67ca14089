/**
 * What the subtraction walk must let through (internal/core/oblig.go): guards
 * that imply an obligation, whatever else is known on the path, and exactly the
 * valid obligations where nothing is. What it asks altogether: each subtraction
 * discharged from the conditions on its way, and nothing else.
 */
module Guards {
  import opened Options
  import opened Linear
  import opened Decider
  import opened Schedules
  import opened Accepts
  import opened Terms
  import opened Obligations

  // ---------------------------------------------------------- guards admit

  /** The comparison implies m >= n + d on naturals. */
  ghost predicate Implies(op: Cmp, d: nat) {
    forall m: nat, n: nat :: Compare(op, m, n) ==> m >= n + d
  }

  /** Its failure does. */
  ghost predicate FailureImplies(op: Cmp, d: nat) {
    forall m: nat, n: nat :: !Compare(op, m, n) ==> m >= n + d
  }

  lemma WhichImply(op: Cmp)
    ensures Implies(op, 0) <==> op.CmpEq? || op.CmpGt? || op.CmpGe?
    ensures FailureImplies(op, 0) <==> op.CmpNe? || op.CmpLt? || op.CmpLe?
  {
    assert Compare(CmpNe, 0, 1) && Compare(CmpLt, 0, 1) && Compare(CmpLe, 0, 1);
    assert !Compare(CmpEq, 0, 1) && !Compare(CmpGt, 0, 1) && !Compare(CmpGe, 0, 1);
    assert Implies(op, 0) ==> !Compare(op, 0, 1);
    assert FailureImplies(op, 0) ==> Compare(op, 0, 1);
  }

  /** The one fact of such a comparison, and how far the obligation is from it. */
  function Slack(op: Cmp): nat {
    if op.CmpGt? then 1 else 0
  }

  lemma FactsNear(op: Cmp, l: Lin<Term>, r: Lin<Term>)
    requires op.CmpEq? || op.CmpGt? || op.CmpGe?
    ensures |CondFacts(op, l, r)| == 1
    ensures Add(l, r, -1) == Add(CondFacts(op, l, r)[0].l, Const(Slack(op)), 1)
  {
    if op.CmpGt? {
      OneLess(l, r);
    } else {
      NothingLess(Add(l, r, -1));
    }
  }

  lemma NothingLess(l: Lin<Term>)
    ensures l == Add(l, Const(0), 1)
  {
    SameForm(l, Add(l, Const(0), 1));
  }

  lemma OneLess(l: Lin<Term>, r: Lin<Term>)
    ensures Add(l, r, -1) == Add(Add(l, Add(r, Const(1), 1), -1), Const(1), 1)
  {
    forall k ensures At(Add(l, r, -1), k) == At(Add(Add(l, Add(r, Const(1), 1), -1), Const(1), 1), k) {
      AtAdd(l, r, -1, k);
      AtAdd(r, Const(1), 1, k);
      AtAdd(l, Add(r, Const(1), 1), -1, k);
      AtAdd(Add(l, Add(r, Const(1), 1), -1), Const(1), 1, k);
    }
    SameForm(Add(l, r, -1), Add(Add(l, Add(r, Const(1), 1), -1), Const(1), 1));
  }

  /** The facts of a comparison that implies a >= b settle a - b. */
  lemma FormsSettle(op: Cmp, l: Lin<Term>, r: Lin<Term>, hyps: seq<Fact<Term>>)
    requires op.CmpEq? || op.CmpGt? || op.CmpGe?
    ensures Decides(AtLeast(l, r), hyps + CondFacts(op, l, r), true)
  {
    FactsNear(op, l, r);
    var facts := CondFacts(op, l, r);
    assert (hyps + facts)[|hyps|] == facts[0];
    ShiftAccepted(AtLeast(l, r), hyps + facts, |hyps|, Slack(op));
  }

  lemma FactsSettle(op: Cmp, a: Term, b: Term, hyps: seq<Fact<Term>>)
    requires op.CmpEq? || op.CmpGt? || op.CmpGe?
    ensures Decides(Goal(a, b), hyps + CondFacts(op, ObligLin(a), ObligLin(b)), true)
  {
    FormsSettle(op, ObligLin(a), ObligLin(b), hyps);
  }

  lemma PassesIf(op: Cmp, a: Term, b: Term, thn: Term, els: Term, hyps: seq<Fact<Term>>)
    ensures Passes(If(op, a, b, thn, els), hyps)
        <==> && Passes(a, hyps) && Passes(b, hyps)
             && Passes(thn, hyps + CondFacts(op, ObligLin(a), ObligLin(b)))
             && Passes(els, hyps + CondFacts(Negate(op), ObligLin(a), ObligLin(b)))
  {
  }

  lemma PassesMinus(a: Term, b: Term, hyps: seq<Fact<Term>>)
    ensures Passes(Prim(Minus, a, b), hyps) <==> Passes(Prim(Plus, a, b), hyps) && Decides(Goal(a, b), hyps, true)
  {
  }

  /**
   * A guard that implies a >= b admits a - b in its branch, under any facts of
   * the path, wherever it admits a + b there.
   */
  lemma GuardAdmits(op: Cmp, a: Term, b: Term, els: Term, hyps: seq<Fact<Term>>)
    requires Implies(op, 0) && Passes(If(op, a, b, Prim(Plus, a, b), els), hyps)
    ensures Passes(If(op, a, b, Prim(Minus, a, b), els), hyps)
  {
    WhichImply(op);
    FactsSettle(op, a, b, hyps);
    PassesIf(op, a, b, Prim(Plus, a, b), els, hyps);
    PassesIf(op, a, b, Prim(Minus, a, b), els, hyps);
    PassesMinus(a, b, hyps + CondFacts(op, ObligLin(a), ObligLin(b)));
  }

  /** And in the else branch, where its failure implies a >= b. */
  lemma GuardAdmitsElse(op: Cmp, a: Term, b: Term, thn: Term, hyps: seq<Fact<Term>>)
    requires FailureImplies(op, 0) && Passes(If(op, a, b, thn, Prim(Plus, a, b)), hyps)
    ensures Passes(If(op, a, b, thn, Prim(Minus, a, b)), hyps)
  {
    WhichImply(op);
    FactsSettle(Negate(op), a, b, hyps);
    PassesIf(op, a, b, thn, Prim(Plus, a, b), hyps);
    PassesIf(op, a, b, thn, Prim(Minus, a, b), hyps);
    PassesMinus(a, b, hyps + CondFacts(Negate(op), ObligLin(a), ObligLin(b)));
  }

  // ------------------------------------------------------ guards against zero

  function Guard(op: Cmp, flipped: bool, a: Term, thn: Term, els: Term): Term {
    if flipped then If(op, Nat(0), a, thn, els) else If(op, a, Nat(0), thn, els)
  }

  predicate Against(op: Cmp, flipped: bool, m: nat) {
    if flipped then Compare(op, 0, m) else Compare(op, m, 0)
  }

  /** A comparison with zero, either way round, that says m >= 1 and can be met. */
  ghost predicate Positive(op: Cmp, flipped: bool) {
    (exists m: nat :: Against(op, flipped, m)) && forall m: nat :: Against(op, flipped, m) ==> m >= 1
  }

  ghost predicate FailurePositive(op: Cmp, flipped: bool) {
    (exists m: nat :: !Against(op, flipped, m)) && forall m: nat :: !Against(op, flipped, m) ==> m >= 1
  }

  lemma WhichPositive(op: Cmp, flipped: bool)
    ensures Positive(op, flipped) <==> op.CmpNe? || (if flipped then op.CmpLt? else op.CmpGt?)
    ensures FailurePositive(op, flipped) <==> op.CmpEq? || (if flipped then op.CmpGe? else op.CmpLe?)
  {
    assert Against(op, flipped, 0) == Compare(op, 0, 0);
    assert Against(op, flipped, 1) == if flipped then Compare(op, 0, 1) else Compare(op, 1, 0);
  }

  /** Its one fact is the obligation itself. */
  lemma ZeroFacts(op: Cmp, flipped: bool, a: Term)
    requires op.CmpNe? || (if flipped then op.CmpLt? else op.CmpGt?)
    ensures var l, z := ObligLin(a), ObligLin(Nat(0));
            CondFacts(op, if flipped then z else l, if flipped then l else z) == [Goal(a, Nat(1))]
  {
    assert Add<Term>(Const(0), Const(1), 1) == Const(1);
  }

  lemma ZeroSettles(op: Cmp, flipped: bool, a: Term, hyps: seq<Fact<Term>>)
    requires op.CmpNe? || (if flipped then op.CmpLt? else op.CmpGt?)
    ensures var l, z := ObligLin(a), ObligLin(Nat(0));
            Decides(Goal(a, Nat(1)), hyps + CondFacts(op, if flipped then z else l, if flipped then l else z), true)
  {
    ZeroFacts(op, flipped, a);
    var all := hyps + [Goal(a, Nat(1))];
    assert all[|hyps|] == Goal(a, Nat(1));
    HypothesisAccepted(Goal(a, Nat(1)), all);
  }

  /** a != 0, a > 0, 0 != a and 0 < a admit a - 1. */
  lemma PositiveAdmits(op: Cmp, flipped: bool, a: Term, els: Term, hyps: seq<Fact<Term>>)
    requires Positive(op, flipped) && Passes(Guard(op, flipped, a, Prim(Plus, a, Nat(1)), els), hyps)
    ensures Passes(Guard(op, flipped, a, Prim(Minus, a, Nat(1)), els), hyps)
  {
    WhichPositive(op, flipped);
    ZeroSettles(op, flipped, a, hyps);
    var x, y := if flipped then Nat(0) else a, if flipped then a else Nat(0);
    PassesIf(op, x, y, Prim(Plus, a, Nat(1)), els, hyps);
    PassesIf(op, x, y, Prim(Minus, a, Nat(1)), els, hyps);
    PassesMinus(a, Nat(1), hyps + CondFacts(op, ObligLin(x), ObligLin(y)));
  }

  /** And the else branches of a == 0, a <= 0, 0 == a and 0 >= a. */
  lemma PositiveAdmitsElse(op: Cmp, flipped: bool, a: Term, thn: Term, hyps: seq<Fact<Term>>)
    requires FailurePositive(op, flipped) && Passes(Guard(op, flipped, a, thn, Prim(Plus, a, Nat(1))), hyps)
    ensures Passes(Guard(op, flipped, a, thn, Prim(Minus, a, Nat(1))), hyps)
  {
    WhichPositive(op, flipped);
    ZeroSettles(Negate(op), flipped, a, hyps);
    var x, y := if flipped then Nat(0) else a, if flipped then a else Nat(0);
    PassesIf(op, x, y, thn, Prim(Plus, a, Nat(1)), hyps);
    PassesIf(op, x, y, thn, Prim(Minus, a, Nat(1)), hyps);
    PassesMinus(a, Nat(1), hyps + CondFacts(Negate(op), ObligLin(x), ObligLin(y)));
  }

  // ----------------------------------------------------- without any guard

  /** A term read arithmetically: sums and differences of numbers and of whatever else `v` gives values. */
  function Reads(t: Term, v: Term -> int): int {
    match t
    case Nat(n) => n
    case Prim(op, l, r) => if op.Times? then v(t) else Arith(op, Reads(l, v), Reads(r, v))
    case _ => v(t)
  }

  lemma {:induction false} FormReads(t: Term, v: Term -> int)
    ensures Val(ObligLin(t), v) == Reads(t, v)
    decreases t
  {
    match t
    case Nat(n) => ValConst(n, v);
    case Prim(op, l, r) =>
      if op.Times? {
        ValAtom(t, v);
      } else {
        FormReads(l, v);
        FormReads(r, v);
        ValAdd(ObligLin(l), ObligLin(r), if op.Plus? then 1 else -1, v);
      }
    case _ => ValAtom(t, v);
  }

  /** With no facts on the path a subtraction is discharged exactly when it is safe whatever naturals its parts are. */
  lemma UnguardedExact(l: Term, r: Term, answer: bool)
    requires Decides(Goal(l, r), [], answer)
    ensures answer <==> forall v: Term -> int | Natural(v) :: Reads(l, v) >= Reads(r, v)
  {
    UnguardedRejectionExact(l, r, answer);
    forall v: Term -> int ensures Val(ObligLin(l), v) == Reads(l, v) && Val(ObligLin(r), v) == Reads(r, v) {
      FormReads(l, v);
      FormReads(r, v);
    }
  }

  lemma UnguardedAdmitsExactly(l: Term, r: Term)
    requires Passes(l, []) && Passes(r, [])
    ensures Passes(Prim(Minus, l, r), []) <==> forall v: Term -> int | Natural(v) :: Reads(l, v) >= Reads(r, v)
  {
    AnswerExists(Goal(l, r), []);
    if Decides(Goal(l, r), [], true) {
      UnguardedExact(l, r, true);
    } else {
      UnguardedExact(l, r, false);
    }
  }

  /** Monus(a, b) = if a >= b then a - b else 0 is admitted. */
  lemma MonusAdmitted()
    ensures Admitted(Def("Monus", ["a", "b"], If(CmpGe, Var("a"), Var("b"), Prim(Minus, Var("a"), Var("b")), Nat(0))))
  {
    GuardAdmits(CmpGe, Var("a"), Var("b"), Nat(0), []);
  }

  // ------------------------------------------------------- the whole walk

  /** A condition on the way to a part of a term, and the branch taken. */
  datatype Turn = Turn(op: Cmp, a: Term, b: Term, holds: bool)

  function FactsAt(turn: Turn): seq<Fact<Term>> {
    CondFacts(if turn.holds then turn.op else Negate(turn.op), ObligLin(turn.a), ObligLin(turn.b))
  }

  function FactsAlong(path: seq<Turn>): seq<Fact<Term>> {
    if path == [] then [] else FactsAt(path[0]) + FactsAlong(path[1..])
  }

  /** The subtraction x - y stands in `t` behind the conditions of `path`. */
  predicate Stands(t: Term, path: seq<Turn>, x: Term, y: Term) {
    match t
    case Var(_) => false
    case Nat(_) => false
    case Prim(op, l, r) =>
      (op.Minus? && path == [] && x == l && y == r) || Stands(l, path, x, y) || Stands(r, path, x, y)
    case Call(_, args) => exists i | 0 <= i < |args| :: Stands(args[i], path, x, y)
    case If(op, a, b, thn, els) =>
      || Stands(a, path, x, y) || Stands(b, path, x, y)
      || (path != [] && path[0] == Turn(op, a, b, true) && Stands(thn, path[1..], x, y))
      || (path != [] && path[0] == Turn(op, a, b, false) && Stands(els, path[1..], x, y))
  }

  /** The decider can discharge x - y from the facts in scope and those of the path. */
  ghost predicate Granted(hyps: seq<Fact<Term>>, path: seq<Turn>, x: Term, y: Term) {
    Decides(Goal(x, y), hyps + FactsAlong(path), true)
  }

  ghost predicate AllGranted(t: Term, hyps: seq<Fact<Term>>) {
    forall path, x, y | Stands(t, path, x, y) :: Granted(hyps, path, x, y)
  }

  /** The conditions may be counted from inside the first. */
  lemma FirstTurn(hyps: seq<Fact<Term>>, turn: Turn, path: seq<Turn>, x: Term, y: Term)
    ensures Granted(hyps, [turn] + path, x, y) <==> Granted(hyps + FactsAt(turn), path, x, y)
  {
    assert ([turn] + path)[1..] == path;
    assert hyps + FactsAlong([turn] + path) == (hyps + FactsAt(turn)) + FactsAlong(path);
  }

  function TurnOf(t: Term, holds: bool): Turn
    requires t.If?
  {
    Turn(t.cmp, t.a, t.b, holds)
  }

  function BranchOf(t: Term, holds: bool): Term
    requires t.If?
  {
    if holds then t.thn else t.els
  }

  lemma StandsInBranch(t: Term, holds: bool, path: seq<Turn>, x: Term, y: Term)
    requires t.If? && Stands(BranchOf(t, holds), path, x, y)
    ensures Stands(t, [TurnOf(t, holds)] + path, x, y)
  {
    assert ([TurnOf(t, holds)] + path)[1..] == path;
  }

  /** What stands in a branch stands in the if, one condition further. */
  lemma BranchGranted(t: Term, hyps: seq<Fact<Term>>, holds: bool)
    requires t.If? && AllGranted(t, hyps)
    ensures AllGranted(BranchOf(t, holds), hyps + FactsAt(TurnOf(t, holds)))
  {
    forall path, x, y | Stands(BranchOf(t, holds), path, x, y)
      ensures Granted(hyps + FactsAt(TurnOf(t, holds)), path, x, y)
    {
      StandsInBranch(t, holds, path, x, y);
      FirstTurn(hyps, TurnOf(t, holds), path, x, y);
    }
  }

  lemma TestGranted(t: Term, hyps: seq<Fact<Term>>)
    requires t.If? && AllGranted(t, hyps)
    ensures AllGranted(t.a, hyps) && AllGranted(t.b, hyps)
  {
    forall path, x, y | Stands(t.a, path, x, y) || Stands(t.b, path, x, y) ensures Granted(hyps, path, x, y) {
      assert Stands(t, path, x, y);
    }
  }

  lemma IfGranted(t: Term, hyps: seq<Fact<Term>>)
    requires t.If? && AllGranted(t.a, hyps) && AllGranted(t.b, hyps)
    requires forall holds :: AllGranted(BranchOf(t, holds), hyps + FactsAt(TurnOf(t, holds)))
    ensures AllGranted(t, hyps)
  {
    forall path: seq<Turn>, x: Term, y: Term | Stands(t, path, x, y) ensures Granted(hyps, path, x, y) {
      if !Stands(t.a, path, x, y) && !Stands(t.b, path, x, y) {
        var turn, rest := path[0], path[1..];
        FirstTurn(hyps, turn, rest, x, y);
        assert [turn] + rest == path;
        assert Stands(BranchOf(t, turn.holds), rest, x, y);
      }
    }
  }

  lemma CallGranted(t: Term, hyps: seq<Fact<Term>>)
    requires t.Call?
    ensures AllGranted(t, hyps) <==> forall i | 0 <= i < |t.args| :: AllGranted(t.args[i], hyps)
  {
    if AllGranted(t, hyps) {
      forall i, path, x, y | 0 <= i < |t.args| && Stands(t.args[i], path, x, y) ensures Granted(hyps, path, x, y) {
        assert Stands(t, path, x, y);
      }
    }
  }

  lemma HereGranted(hyps: seq<Fact<Term>>, x: Term, y: Term)
    ensures Granted(hyps, [], x, y) <==> Decides(Goal(x, y), hyps, true)
  {
    assert hyps + FactsAlong([]) == hyps;
  }

  lemma PrimGranted(t: Term, hyps: seq<Fact<Term>>)
    requires t.Prim?
    ensures AllGranted(t, hyps) <==>
      AllGranted(t.l, hyps) && AllGranted(t.r, hyps) && (t.op.Minus? ==> Granted(hyps, [], t.l, t.r))
  {
    if AllGranted(t, hyps) {
      assert t.op.Minus? ==> Stands(t, [], t.l, t.r);
      forall path, x, y | Stands(t.l, path, x, y) || Stands(t.r, path, x, y) ensures Granted(hyps, path, x, y) {
        assert Stands(t, path, x, y);
      }
    }
  }

  /**
   * The walk asks of every subtraction, wherever it stands, that the decider can
   * discharge it from the conditions on the way there, and asks nothing else.
   */
  lemma {:induction false} PassesExactly(t: Term, hyps: seq<Fact<Term>>)
    ensures Passes(t, hyps) <==> AllGranted(t, hyps)
    decreases t, 1
  {
    match t
    case Var(_) =>
    case Nat(_) =>
    case Prim(_, l, r) =>
      PassesExactly(l, hyps);
      PassesExactly(r, hyps);
      PrimGranted(t, hyps);
      HereGranted(hyps, l, r);
    case Call(_, args) =>
      forall i | 0 <= i < |args| ensures Passes(args[i], hyps) <==> AllGranted(args[i], hyps) {
        PassesExactly(args[i], hyps);
      }
      CallGranted(t, hyps);
    case If(_, _, _, _, _) =>
      IfPassesExactly(t, hyps);
  }

  lemma PassesParts(t: Term, hyps: seq<Fact<Term>>)
    requires t.If?
    ensures Passes(t, hyps) <==>
      Passes(t.a, hyps) && Passes(t.b, hyps) &&
      forall holds :: Passes(BranchOf(t, holds), hyps + FactsAt(TurnOf(t, holds)))
  {
    assert FactsAt(TurnOf(t, true)) == ThenFacts(t) && FactsAt(TurnOf(t, false)) == ElseFacts(t);
    assert BranchOf(t, true) == t.thn && BranchOf(t, false) == t.els;
  }

  lemma {:induction false} IfPassesExactly(t: Term, hyps: seq<Fact<Term>>)
    requires t.If?
    ensures Passes(t, hyps) <==> AllGranted(t, hyps)
    decreases t, 0
  {
    PassesParts(t, hyps);
    PassesExactly(t.a, hyps);
    PassesExactly(t.b, hyps);
    forall holds: bool
      ensures Passes(BranchOf(t, holds), hyps + FactsAt(TurnOf(t, holds)))
         <==> AllGranted(BranchOf(t, holds), hyps + FactsAt(TurnOf(t, holds)))
    {
      PassesExactly(BranchOf(t, holds), hyps + FactsAt(TurnOf(t, holds)));
    }
    if AllGranted(t, hyps) {
      TestGranted(t, hyps);
      BranchGranted(t, hyps, true);
      BranchGranted(t, hyps, false);
    } else if Passes(t, hyps) {
      IfGranted(t, hyps);
    }
  }
}
