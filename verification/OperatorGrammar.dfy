/**
 * Which token lists stand for which operator expression, parentheses allowed
 * around any part, and that parseOp (internal/goml/parser.go) reads exactly
 * these.
 */
module OperatorGrammar {
  import opened Options
  import opened Tokens
  import opened OperatorSyntax

  // ---------------------------------------------------------- the grammar

  /** `ts` is a way to write `e` where operators of precedence `q` and above may stand bare. */
  ghost predicate Writes(e: Expr, q: nat, ts: seq<Token>)
    decreases |ts|, 4
  {
    || WritesOperand(e, ts)
    || (e.Binop? && Prec(e.op) >= q && Prec(e.op) > 0 && exists i :: SplitsAt(e, ts, i))
  }

  /** The operator of `e` stands at `i`: the left operand may use its precedence bare, the right one only higher. */
  ghost predicate SplitsAt(e: Expr, ts: seq<Token>, i: int)
    requires e.Binop?
    decreases |ts|, 0
  {
    && 0 <= i < |ts| && ts[i] == Sym(e.op)
    && Writes(e.l, Prec(e.op), ts[..i]) && Writes(e.r, Prec(e.op) + 1, ts[i + 1..])
  }

  /** Tries stand after the prefix operators of their operand. */
  ghost predicate WritesOperand(e: Expr, ts: seq<Token>)
    decreases |ts|, 3
  {
    || WritesUnary(e, ts)
    || (e.Try? && ts != [] && ts[|ts| - 1] == Question && WritesOperand(e.x, ts[..|ts| - 1]))
  }

  ghost predicate WritesUnary(e: Expr, ts: seq<Token>)
    decreases |ts|, 2
  {
    || WritesAtom(e, ts)
    || (e.Unary? && Prefix(e.op) && ts != [] && ts[0] == Sym(e.op) && WritesUnary(e.x, ts[1..]))
  }

  /** Any expression, in parentheses. */
  ghost predicate WritesAtom(e: Expr, ts: seq<Token>)
    decreases |ts|, 1
  {
    || (e.Name? && ts == [Ident(e.text)])
    || (e.Literal? && LiteralToken(e.tok) && ts == [e.tok])
    || (|ts| >= 2 && ts[0] == LParen && ts[|ts| - 1] == RParen && Writes(e, 1, ts[1..|ts| - 1]))
  }

  // -------------------------------------------------- what is written is read

  lemma {:induction false} AtomRead(e: Expr, ts: seq<Token>, rest: seq<Token>)
    requires WritesAtom(e, ts)
    ensures ParseAtom(ts + rest) == Some((e, rest))
    decreases |ts|, 1
  {
    if |ts| == 1 {
      assert (ts + rest)[1..] == rest;
    } else {
      var inner, more := ts[1..|ts| - 1], [RParen] + rest;
      assert (ts + rest)[1..] == inner + more;
      OpRead(1, 1, e, inner, more);
      assert more[1..] == rest;
    }
  }

  lemma {:induction false} UnaryRead(e: Expr, ts: seq<Token>, rest: seq<Token>)
    requires WritesUnary(e, ts) && !StartsOperand(rest)
    ensures ParseUnary(ts + rest) == Some((e, rest))
    decreases |ts|, 2
  {
    if WritesAtom(e, ts) {
      AtomRead(e, ts, rest);
      assert !Peek(ts + rest).Sym?;
    } else {
      assert (ts + rest)[1..] == ts[1..] + rest;
      UnaryRead(e.x, ts[1..], rest);
    }
  }

  lemma {:induction false} OperandRead(e: Expr, ts: seq<Token>, rest: seq<Token>)
    requires WritesOperand(e, ts) && !StartsOperand(rest)
    ensures ParseOperand(ts + rest) == Some(MoreTries(e, rest))
    decreases |ts|, 3
  {
    if WritesUnary(e, ts) {
      UnaryRead(e, ts, rest);
    } else {
      var more := [Question] + rest;
      assert ts + rest == ts[..|ts| - 1] + more;
      OperandRead(e.x, ts[..|ts| - 1], more);
      assert more[1..] == rest;
    }
  }

  /** Climbing over a written expression resumes with it as the left operand. */
  lemma {:induction false} OpRead(min: nat, q: nat, e: Expr, ts: seq<Token>, rest: seq<Token>)
    requires Writes(e, q, ts) && Follows(rest) && 1 <= min <= q && NextPrec(rest) <= q
    ensures ParseOp(min, ts + rest) == MoreOps(min, e, rest)
    decreases |ts|, 4
  {
    if WritesOperand(e, ts) {
      OperandRead(e, ts, rest);
    } else {
      var i :| SplitsAt(e, ts, i);
      BinopRead(min, e, ts, i, rest);
    }
  }

  lemma {:induction false} BinopRead(min: nat, e: Expr, ts: seq<Token>, i: nat, rest: seq<Token>)
    requires e.Binop? && SplitsAt(e, ts, i) && Follows(rest) && 1 <= min <= Prec(e.op) && NextPrec(rest) <= Prec(e.op)
    ensures ParseOp(min, ts + rest) == MoreOps(min, e, rest)
    decreases |ts|, 0
  {
    var p, after := Prec(e.op), ts[i + 1..] + rest;
    var more := [Sym(e.op)] + after;
    assert ts + rest == ts[..i] + more;
    OpRead(min, p, e.l, ts[..i], more);
    assert more[1..] == after;
    OpRead(p + 1, p + 1, e.r, ts[i + 1..], rest);
    assert MoreOps(p + 1, e.r, rest) == Some((e.r, rest));
  }

  // -------------------------------------------------- what is read is written

  predicate Stops(min: nat, ts: seq<Token>) {
    NextPrec(ts) == 0 || NextPrec(ts) < min
  }

  lemma {:induction false} AtomWritten(ts: seq<Token>)
    requires ParseAtom(ts).Some?
    ensures var (e, rest) := ParseAtom(ts).value; Ends(ts, rest) && WritesAtom(e, Used(ts, rest))
    decreases |ts|, 1
  {
    var (e, rest) := ParseAtom(ts).value;
    if Peek(ts).LParen? {
      OpWritten(1, ts[1..]);
      ParenUsed(ts, ParseOp(1, ts[1..]).value.1);
    } else {
      assert Used(ts, rest) == [ts[0]];
    }
  }

  lemma {:induction false} UnaryWritten(ts: seq<Token>)
    requires ParseUnary(ts).Some?
    ensures var (e, rest) := ParseUnary(ts).value; Ends(ts, rest) && WritesUnary(e, Used(ts, rest))
    decreases |ts|, 2
  {
    if Peek(ts).Sym? && Prefix(Peek(ts).op) {
      UnaryWritten(ts[1..]);
      FirstUsed(ts, ParseUnary(ts[1..]).value.1);
    } else {
      AtomWritten(ts);
    }
  }

  lemma {:induction false} TriesWritten(e: Expr, pre: seq<Token>, ts: seq<Token>)
    requires WritesOperand(e, pre)
    ensures var (e', rest) := MoreTries(e, ts); Ends(ts, rest) && WritesOperand(e', pre + Used(ts, rest))
    decreases |ts|
  {
    if Peek(ts).Question? {
      var more := pre + [Question];
      assert more[..|more| - 1] == pre;
      TriesWritten(Try(e), more, ts[1..]);
      var rest := MoreTries(e, ts).1;
      assert pre + Used(ts, rest) == more + Used(ts[1..], rest);
    } else {
      assert pre + Used(ts, ts) == pre;
    }
  }

  lemma OperandWritten(ts: seq<Token>)
    requires ParseOperand(ts).Some?
    requires ParseUnary(ts).Some? ==> var (e, rest) := ParseUnary(ts).value;
               Ends(ts, rest) && WritesUnary(e, Used(ts, rest))
    ensures var (e, rest) := ParseOperand(ts).value; Ends(ts, rest) && WritesOperand(e, Used(ts, rest))
  {
    var (u, more) := ParseUnary(ts).value;
    TriesWritten(u, Used(ts, more), more);
    EndsThen(ts, more, ParseOperand(ts).value.1);
  }

  lemma Lower(e: Expr, q: nat, min: nat, ts: seq<Token>)
    requires Writes(e, q, ts) && min <= q
    ensures Writes(e, min, ts)
  {
  }

  lemma AtomWrites(e: Expr, q: nat, ts: seq<Token>)
    requires WritesAtom(e, ts)
    ensures Writes(e, q, ts) && WritesOperand(e, ts) && WritesUnary(e, ts)
  {
    assert WritesUnary(e, ts);
    assert WritesOperand(e, ts);
  }

  lemma Joined(op: Symbol, l: Expr, r: Expr, before: seq<Token>, after: seq<Token>)
    requires Prec(op) > 0 && Writes(l, Prec(op), before) && Writes(r, Prec(op) + 1, after)
    ensures Writes(Binop(op, l, r), Prec(op), before + [Sym(op)] + after)
  {
    var e, ts := Binop(op, l, r), before + [Sym(op)] + after;
    assert ts[..|before|] == before && ts[|before| + 1..] == after;
    assert SplitsAt(e, ts, |before|);
  }

  function Larger(a: nat, b: nat): nat {
    if a < b then b else a
  }

  lemma {:induction false} OpWritten(min: nat, ts: seq<Token>)
    requires min >= 1 && ParseOp(min, ts).Some?
    ensures var (e, rest) := ParseOp(min, ts).value;
            Ends(ts, rest) && Writes(e, min, Used(ts, rest)) && Stops(min, rest)
    decreases |ts|, 4
  {
    var (left, more) := ParseOperand(ts).value;
    UnaryWritten(ts);
    OperandWritten(ts);
    MoreWritten(min, left, Used(ts, more), more);
    EndsThen(ts, more, ParseOp(min, ts).value.1);
  }

  lemma OneMore(min: nat, left: Expr, right: Expr, pre: seq<Token>, ts: seq<Token>, more: seq<Token>)
    requires var prec := NextPrec(ts); prec >= min && prec > 0 && Writes(left, prec, pre)
    requires Ends(ts[1..], more) && Writes(right, NextPrec(ts) + 1, Used(ts[1..], more))
    requires Stops(NextPrec(ts) + 1, more)
    ensures Ends(ts, more)
    ensures Writes(Binop(ts[0].op, left, right), Larger(min, NextPrec(more)), pre + Used(ts, more))
  {
    var op, after := ts[0].op, Used(ts[1..], more);
    Joined(op, left, right, pre, after);
    assert pre + Used(ts, more) == pre + [Sym(op)] + after;
    Lower(Binop(op, left, right), Prec(op), Larger(min, NextPrec(more)), pre + [Sym(op)] + after);
  }

  /** The loop's left operand is always written with operators that bind at least as tightly as the next. */
  lemma {:induction false} MoreWritten(min: nat, left: Expr, pre: seq<Token>, ts: seq<Token>)
    requires min >= 1 && Writes(left, Larger(min, NextPrec(ts)), pre) && MoreOps(min, left, ts).Some?
    ensures var (e, rest) := MoreOps(min, left, ts).value;
            Ends(ts, rest) && Writes(e, min, pre + Used(ts, rest)) && Stops(min, rest)
    decreases |ts|, 0
  {
    var prec := NextPrec(ts);
    if prec == 0 || prec < min {
      assert pre + Used(ts, ts) == pre;
      Lower(left, Larger(min, prec), min, pre);
    } else {
      OpWritten(prec + 1, ts[1..]);
      var (right, more) := ParseOp(prec + 1, ts[1..]).value;
      OneMore(min, left, right, pre, ts, more);
      MoreWritten(min, Binop(ts[0].op, left, right), pre + Used(ts, more), more);
      var rest := MoreOps(min, left, ts).value.1;
      EndsThen(ts, more, rest);
      Reassociate(pre, Used(ts, more), Used(more, rest));
    }
  }

  // ---------------------------------------------------------- the theorems

  /** The parser reads a token list as a tree exactly when the list is a way to write the tree. */
  lemma ParsesWhatIsWritten(e: Expr, ts: seq<Token>)
    ensures ParseOp(1, ts) == Some((e, [])) <==> Writes(e, 1, ts)
  {
    if Writes(e, 1, ts) {
      OpRead(1, 1, e, ts, []);
      assert ts + [] == ts;
    }
    if ParseOp(1, ts) == Some((e, [])) {
      OpWritten(1, ts);
      assert Used(ts, []) == ts;
    }
  }

  /** So no token list is a way to write two trees. */
  lemma WritesOne(e: Expr, f: Expr, ts: seq<Token>)
    requires Writes(e, 1, ts) && Writes(f, 1, ts)
    ensures e == f
  {
    ParsesWhatIsWritten(e, ts);
    ParsesWhatIsWritten(f, ts);
  }

  /** What is printed is a way to write the tree it is read back as. */
  lemma PrintWrites(e: Expr)
    requires WellFormed(e)
    ensures Writes(Reread(e), 1, Print(e, 0))
  {
    PrintParse(e, []);
    assert Print(e, 0) + [] == Print(e, 0);
    ParsesWhatIsWritten(Reread(e), Print(e, 0));
  }

  /** No way to write a tree is shorter than what is printed for it. */
  lemma {:induction false} PrintShortest(e: Expr, q: nat, ts: seq<Token>)
    requires Writes(e, q, ts)
    ensures |Print(e, q)| <= |ts|
    decreases |ts|, 4
  {
    if WritesOperand(e, ts) {
      OperandShortest(e, ts);
    } else {
      var i :| SplitsAt(e, ts, i);
      PrintShortest(e.l, Prec(e.op), ts[..i]);
      PrintShortest(e.r, Prec(e.op) + 1, ts[i + 1..]);
    }
  }

  lemma {:induction false} OperandShortest(e: Expr, ts: seq<Token>)
    requires WritesOperand(e, ts)
    ensures |Print(e, ATOM)| <= |ts|
    decreases |ts|, 3
  {
    if WritesUnary(e, ts) {
      UnaryShortest(e, ts);
    } else {
      OperandShortest(e.x, ts[..|ts| - 1]);
    }
  }

  lemma {:induction false} UnaryShortest(e: Expr, ts: seq<Token>)
    requires WritesUnary(e, ts)
    ensures |Print(e, ATOM)| <= |ts|
    decreases |ts|, 2
  {
    if WritesAtom(e, ts) {
      if |ts| >= 2 {
        PrintShortest(e, 1, ts[1..|ts| - 1]);
      }
    } else {
      UnaryShortest(e.x, ts[1..]);
    }
  }

  /** A tree without prefix operators on tries is printed as itself, and with no parentheses to spare. */
  lemma PrintMinimal(e: Expr, ts: seq<Token>)
    requires WellFormed(e) && Plain(e)
    ensures Writes(e, 1, Print(e, 0))
    ensures Writes(e, 1, ts) ==> |Print(e, 0)| <= |ts|
  {
    PrintWrites(e);
    RereadPlain(e);
    if Writes(e, 1, ts) {
      PrintShortest(e, 1, ts);
    }
  }

  /** Every part in parentheses. */
  function Spell(e: Expr): (ts: seq<Token>) {
    match e
    case Name(text) => [Ident(text)]
    case Literal(tok) => [tok]
    case Unary(op, x) => [LParen] + ([Sym(op)] + Spell(x)) + [RParen]
    case Try(x) => [LParen] + (Spell(x) + [Question]) + [RParen]
    case Binop(op, l, r) => [LParen] + (Spell(l) + [Sym(op)] + Spell(r)) + [RParen]
  }

  lemma Parenthesised(e: Expr, inner: seq<Token>)
    requires Writes(e, 1, inner)
    ensures WritesAtom(e, [LParen] + inner + [RParen])
  {
    var ts := [LParen] + inner + [RParen];
    assert ts[1..|ts| - 1] == inner;
  }

  lemma {:induction false} SpellWrites(e: Expr)
    requires WellFormed(e)
    ensures WritesAtom(e, Spell(e))
  {
    match e
    case Name(_) =>
    case Literal(_) =>
    case Unary(op, x) =>
      SpellWrites(x);
      PrefixWrites(op, x, Spell(x));
      Parenthesised(e, [Sym(op)] + Spell(x));
    case Try(x) =>
      SpellWrites(x);
      TryWrites(x, Spell(x));
      Parenthesised(e, Spell(x) + [Question]);
    case Binop(op, l, r) =>
      SpellWrites(l);
      SpellWrites(r);
      AtomWrites(l, Prec(op), Spell(l));
      AtomWrites(r, Prec(op) + 1, Spell(r));
      Joined(op, l, r, Spell(l), Spell(r));
      Lower(e, Prec(op), 1, Spell(l) + [Sym(op)] + Spell(r));
      Parenthesised(e, Spell(l) + [Sym(op)] + Spell(r));
  }

  lemma PrefixWrites(op: Symbol, x: Expr, ts: seq<Token>)
    requires Prefix(op) && WritesAtom(x, ts)
    ensures Writes(Unary(op, x), 1, [Sym(op)] + ts)
  {
    AtomWrites(x, 1, ts);
    var whole := [Sym(op)] + ts;
    assert whole[1..] == ts;
    assert WritesUnary(Unary(op, x), whole);
    assert WritesOperand(Unary(op, x), whole);
  }

  lemma TryWrites(x: Expr, ts: seq<Token>)
    requires WritesAtom(x, ts)
    ensures Writes(Try(x), 1, ts + [Question])
  {
    AtomWrites(x, 1, ts);
    var whole := ts + [Question];
    assert whole[..|whole| - 1] == ts;
    assert WritesOperand(Try(x), whole);
  }

  lemma {:induction false} WrittenWellFormed(e: Expr, q: nat, ts: seq<Token>)
    requires Writes(e, q, ts)
    ensures WellFormed(e)
    decreases |ts|, 4
  {
    if WritesOperand(e, ts) {
      OperandWellFormed(e, ts);
    } else {
      var i :| SplitsAt(e, ts, i);
      WrittenWellFormed(e.l, Prec(e.op), ts[..i]);
      WrittenWellFormed(e.r, Prec(e.op) + 1, ts[i + 1..]);
    }
  }

  lemma {:induction false} OperandWellFormed(e: Expr, ts: seq<Token>)
    requires WritesOperand(e, ts)
    ensures WellFormed(e)
    decreases |ts|, 3
  {
    if WritesUnary(e, ts) {
      UnaryWellFormed(e, ts);
    } else {
      OperandWellFormed(e.x, ts[..|ts| - 1]);
    }
  }

  lemma {:induction false} UnaryWellFormed(e: Expr, ts: seq<Token>)
    requires WritesUnary(e, ts)
    ensures WellFormed(e)
    decreases |ts|, 2
  {
    if WritesAtom(e, ts) {
      if |ts| >= 2 {
        WrittenWellFormed(e, 1, ts[1..|ts| - 1]);
      }
    } else {
      UnaryWellFormed(e.x, ts[1..]);
    }
  }

  /** Every well-formed tree, tries under prefix operators included, can be written and read; no other is read. */
  lemma ParserImage(e: Expr)
    ensures WellFormed(e) <==> exists ts :: ParseOp(1, ts) == Some((e, []))
  {
    if WellFormed(e) {
      SpellWrites(e);
      AtomWrites(e, 1, Spell(e));
      ParsesWhatIsWritten(e, Spell(e));
    }
    forall ts | ParseOp(1, ts) == Some((e, [])) ensures WellFormed(e) {
      ParsesWhatIsWritten(e, ts);
      WrittenWellFormed(e, 1, ts);
    }
  }
}
