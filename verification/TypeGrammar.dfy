/**
 * Which token lists stand for which type, parentheses allowed around any part,
 * and that parseType (internal/goml/parser.go) reads exactly these.
 */
module TypeGrammar {
  import opened Options
  import opened Tokens
  import opened TypeSyntax

  // ---------------------------------------------------------- the grammar

  /** `ts` is a way to write `t`. */
  ghost predicate Writes(t: Type, ts: seq<Token>)
    decreases |ts|, 5
  {
    || WritesIndex(t, ts)
    || (t.Arrow? && exists i :: ArrowAt(t, ts, i))
    || (t.Equal? && exists i :: EqualAt(t, ts, i))
  }

  ghost predicate ArrowAt(t: Type, ts: seq<Token>, i: int)
    requires t.Arrow?
    decreases |ts|, 0
  {
    0 <= i < |ts| && ts[i] == RArrow && WritesIndex(t.from, ts[..i]) && Writes(t.to, ts[i + 1..])
  }

  ghost predicate EqualAt(t: Type, ts: seq<Token>, i: int)
    requires t.Equal?
    decreases |ts|, 0
  {
    0 <= i < |ts| && ts[i] == Eq && WritesIndex(t.l, ts[..i]) && WritesIndex(t.r, ts[i + 1..])
  }

  /** Index operators all bind alike, to the left. */
  ghost predicate WritesIndex(t: Type, ts: seq<Token>)
    decreases |ts|, 4
  {
    WritesApp(t, ts) || (t.Index? && IndexOp(t.op) && exists i :: OperatorAt(t, ts, i))
  }

  ghost predicate OperatorAt(t: Type, ts: seq<Token>, i: int)
    requires t.Index?
    decreases |ts|, 0
  {
    0 <= i < |ts| && ts[i] == Sym(t.op) && WritesIndex(t.l, ts[..i]) && WritesApp(t.r, ts[i + 1..])
  }

  /** Only a name takes arguments. */
  ghost predicate WritesApp(t: Type, ts: seq<Token>)
    decreases |ts|, 3
  {
    WritesAtom(t, ts) || (t.App? && t.head.Name? && t.args != [] && exists i :: ArgsFrom(t.head, t.args, ts, i))
  }

  ghost predicate ArgsFrom(head: Type, args: seq<Type>, ts: seq<Token>, i: int)
    decreases |ts|, 0
  {
    0 < i < |ts| && WritesAtom(head, ts[..i]) && WritesArgs(args, ts[i..])
  }

  ghost predicate WritesArgs(args: seq<Type>, ts: seq<Token>)
    decreases |ts|, 2
  {
    if args == [] then ts == [] else ts != [] && exists i :: ArgUpTo(args, ts, i)
  }

  ghost predicate ArgUpTo(args: seq<Type>, ts: seq<Token>, i: int)
    requires args != [] && ts != []
    decreases |ts|, 1
  {
    0 < i <= |ts| && WritesAtom(args[0], ts[..i]) && WritesArgs(args[1..], ts[i..])
  }

  /** A name, qualified or not, a literal, or any type in parentheses. */
  ghost predicate WritesAtom(t: Type, ts: seq<Token>)
    decreases |ts|, 0
  {
    || (t.Name? && t.pkg == "" && ts == [Ident(t.name)])
    || (t.Name? && ts == [Ident(t.pkg), Dot, Ident(t.name)])
    || (t.Nat? && ts == [Int(t.lit)])
    || (|ts| >= 2 && ts[0] == LParen && ts[|ts| - 1] == RParen && Writes(t, ts[1..|ts| - 1]))
  }

  // -------------------------------------------------- what is written is read

  lemma AtomStarts(t: Type, ts: seq<Token>, rest: seq<Token>)
    requires WritesAtom(t, ts)
    ensures StartsAtom(ts + rest) && !Qualifies(ts + rest) && ts != []
  {
  }

  lemma {:induction false} AtomRead(t: Type, ts: seq<Token>, rest: seq<Token>)
    requires WritesAtom(t, ts) && !Qualifies(rest)
    ensures ParseAtom(ts + rest) == Some((t, rest))
    decreases |ts|, 0
  {
    if ts[0].LParen? {
      var inner, more := ts[1..|ts| - 1], [RParen] + rest;
      assert (ts + rest)[1..] == inner + more;
      TypeRead(t, inner, more);
      assert more[1..] == rest;
    } else if |ts| == 1 {
      assert (ts + rest)[1..] == rest;
    } else {
      assert (ts + rest)[1..] == [Dot, Ident(t.name)] + rest;
    }
  }

  lemma {:induction false} ArgsRead(args: seq<Type>, ts: seq<Token>, rest: seq<Token>)
    requires WritesArgs(args, ts) && EndsArgs(rest)
    ensures ParseArgs(ts + rest) == Some((args, rest)) && !Qualifies(ts + rest)
    decreases |ts|, 2
  {
    if args == [] {
      assert ts + rest == rest;
    } else {
      var i :| ArgUpTo(args, ts, i);
      var more := ts[i..] + rest;
      assert ts + rest == ts[..i] + more;
      ArgsRead(args[1..], ts[i..], rest);
      AtomRead(args[0], ts[..i], more);
      AtomStarts(args[0], ts[..i], more);
      OneMoreArg(ts + rest, args[0], more, args[1..], rest);
      assert [args[0]] + args[1..] == args;
    }
  }

  lemma {:induction false} AppRead(t: Type, ts: seq<Token>, rest: seq<Token>)
    requires WritesApp(t, ts) && EndsArgs(rest)
    ensures ParseApp(ts + rest) == Some((t, rest))
    decreases |ts|, 3
  {
    if WritesAtom(t, ts) {
      AtomRead(t, ts, rest);
    } else {
      var i :| ArgsFrom(t.head, t.args, ts, i);
      var more := ts[i..] + rest;
      assert ts + rest == ts[..i] + more;
      ArgsRead(t.args, ts[i..], rest);
      AtomRead(t.head, ts[..i], more);
    }
  }

  /** The loop resumes with what is written as its left operand. */
  lemma {:induction false} IndexRead(t: Type, ts: seq<Token>, rest: seq<Token>)
    requires WritesIndex(t, ts) && EndsArgs(rest)
    ensures ParseIndex(ts + rest) == MoreIndex(t, rest)
    decreases |ts|, 4
  {
    if WritesApp(t, ts) {
      AppRead(t, ts, rest);
    } else {
      var i :| OperatorAt(t, ts, i);
      var after := ts[i + 1..] + rest;
      var more := [Sym(t.op)] + after;
      assert ts + rest == ts[..i] + more;
      IndexRead(t.l, ts[..i], more);
      assert more[1..] == after;
      AppRead(t.r, ts[i + 1..], rest);
    }
  }

  lemma {:induction false} TypeRead(t: Type, ts: seq<Token>, rest: seq<Token>)
    requires Writes(t, ts) && EndsType(rest)
    ensures ParseType(ts + rest) == Some((t, rest))
    decreases |ts|, 5
  {
    if WritesIndex(t, ts) {
      IndexRead(t, ts, rest);
    } else if t.Arrow? {
      var i :| ArrowAt(t, ts, i);
      var after := ts[i + 1..] + rest;
      var more := [RArrow] + after;
      assert ts + rest == ts[..i] + more;
      IndexRead(t.from, ts[..i], more);
      assert more[1..] == after;
      TypeRead(t.to, ts[i + 1..], rest);
    } else {
      var i :| EqualAt(t, ts, i);
      var after := ts[i + 1..] + rest;
      var more := [Eq] + after;
      assert ts + rest == ts[..i] + more;
      IndexRead(t.l, ts[..i], more);
      assert more[1..] == after;
      IndexRead(t.r, ts[i + 1..], rest);
    }
  }

  // -------------------------------------------------- what is read is written

  lemma {:induction false} AtomWritten(ts: seq<Token>)
    requires ParseAtom(ts).Some?
    ensures var (t, rest) := ParseAtom(ts).value; Ends(ts, rest) && WritesAtom(t, Used(ts, rest))
    decreases |ts|, 0
  {
    var (t, rest) := ParseAtom(ts).value;
    if Peek(ts).LParen? {
      TypeWritten(ts[1..]);
      ParenUsed(ts, ParseType(ts[1..]).value.1);
    } else if Peek(ts).Int? {
      assert Used(ts, rest) == [ts[0]];
    } else {
      assert Used(ts, rest) == if Qualifies(ts[1..]) then [ts[0], ts[1], ts[2]] else [ts[0]];
    }
  }

  lemma {:induction false} ArgsWritten(ts: seq<Token>)
    requires ParseArgs(ts).Some?
    ensures var (args, rest) := ParseArgs(ts).value; Ends(ts, rest) && WritesArgs(args, Used(ts, rest))
    decreases |ts|, 1
  {
    if StartsAtom(ts) {
      var (a, more) := ParseAtom(ts).value;
      AtomWritten(ts);
      ArgsWritten(more);
      ArgJoined(ts, a, more, ParseArgs(more).value.0, ParseArgs(more).value.1);
    } else {
      assert Used(ts, ts) == [];
    }
  }

  lemma ArgJoined(ts: seq<Token>, a: Type, more: seq<Token>, args: seq<Type>, rest: seq<Token>)
    requires Ends(ts, more) && |more| < |ts| && WritesAtom(a, Used(ts, more))
    requires Ends(more, rest) && WritesArgs(args, Used(more, rest))
    ensures Ends(ts, rest) && WritesArgs([a] + args, Used(ts, rest))
  {
    EndsThen(ts, more, rest);
    var all, used, n := [a] + args, Used(ts, rest), |Used(ts, more)|;
    assert all[0] == a && all[1..] == args;
    assert used[..n] == Used(ts, more) && used[n..] == Used(more, rest);
    assert ArgUpTo(all, used, n);
  }

  lemma {:induction false} AppWritten(ts: seq<Token>)
    requires ParseApp(ts).Some?
    ensures var (t, rest) := ParseApp(ts).value; Ends(ts, rest) && WritesApp(t, Used(ts, rest))
    decreases |ts|, 2
  {
    var (head, more) := ParseAtom(ts).value;
    AtomWritten(ts);
    if head.Name? {
      ArgsWritten(more);
      AppJoined(ts, head, more, ParseArgs(more).value.0, ParseArgs(more).value.1);
    }
  }

  lemma AppJoined(ts: seq<Token>, head: Type, more: seq<Token>, args: seq<Type>, rest: seq<Token>)
    requires head.Name? && Ends(ts, more) && |more| < |ts| && WritesAtom(head, Used(ts, more))
    requires Ends(more, rest) && WritesArgs(args, Used(more, rest))
    ensures Ends(ts, rest) && WritesApp(if args == [] then head else App(head, args), Used(ts, rest))
  {
    EndsThen(ts, more, rest);
    var used, n := Used(ts, rest), |Used(ts, more)|;
    assert used[..n] == Used(ts, more) && used[n..] == Used(more, rest);
    if args == [] {
      assert used == Used(ts, more);
    } else {
      assert ArgsFrom(head, args, used, n);
    }
  }

  lemma {:induction false} IndexWritten(ts: seq<Token>)
    requires ParseIndex(ts).Some?
    ensures var (t, rest) := ParseIndex(ts).value; Ends(ts, rest) && WritesIndex(t, Used(ts, rest))
    decreases |ts|, 3
  {
    var (t, more) := ParseApp(ts).value;
    AppWritten(ts);
    MoreWritten(t, Used(ts, more), more);
    EndsThen(ts, more, ParseIndex(ts).value.1);
  }

  lemma {:induction false} MoreWritten(t: Type, pre: seq<Token>, ts: seq<Token>)
    requires WritesIndex(t, pre) && MoreIndex(t, ts).Some?
    ensures var (t', rest) := MoreIndex(t, ts).value; Ends(ts, rest) && WritesIndex(t', pre + Used(ts, rest))
    decreases |ts|, 0
  {
    if AtIndexOp(ts) {
      var (r, more) := ParseApp(ts[1..]).value;
      AppWritten(ts[1..]);
      OperatorJoined(t, pre, ts, r, more);
      MoreWritten(Index(ts[0].op, t, r), pre + Used(ts, more), more);
      var rest := MoreIndex(t, ts).value.1;
      EndsThen(ts, more, rest);
      Reassociate(pre, Used(ts, more), Used(more, rest));
    } else {
      assert pre + Used(ts, ts) == pre;
    }
  }

  lemma OperatorJoined(l: Type, pre: seq<Token>, ts: seq<Token>, r: Type, more: seq<Token>)
    requires WritesIndex(l, pre) && AtIndexOp(ts) && Ends(ts[1..], more) && WritesApp(r, Used(ts[1..], more))
    ensures Ends(ts, more) && WritesIndex(Index(ts[0].op, l, r), pre + Used(ts, more))
  {
    var used := pre + Used(ts, more);
    assert used == pre + [ts[0]] + Used(ts[1..], more);
    assert used[..|pre|] == pre && used[|pre| + 1..] == Used(ts[1..], more);
    assert OperatorAt(Index(ts[0].op, l, r), used, |pre|);
  }

  lemma {:induction false} TypeWritten(ts: seq<Token>)
    requires ParseType(ts).Some?
    ensures var (t, rest) := ParseType(ts).value; Ends(ts, rest) && Writes(t, Used(ts, rest))
    decreases |ts|, 4
  {
    var (l, more) := ParseIndex(ts).value;
    IndexWritten(ts);
    if Peek(more).Eq? {
      IndexWritten(more[1..]);
      EqualJoined(ts, l, more, ParseIndex(more[1..]).value.0, ParseIndex(more[1..]).value.1);
    } else if Peek(more).RArrow? {
      TypeWritten(more[1..]);
      ArrowJoined(ts, l, more, ParseType(more[1..]).value.0, ParseType(more[1..]).value.1);
    }
  }

  lemma EqualJoined(ts: seq<Token>, l: Type, more: seq<Token>, r: Type, rest: seq<Token>)
    requires Ends(ts, more) && WritesIndex(l, Used(ts, more)) && Peek(more) == Eq
    requires Ends(more[1..], rest) && WritesIndex(r, Used(more[1..], rest))
    ensures Ends(ts, rest) && Writes(Equal(l, r), Used(ts, rest))
  {
    var used, n := Used(ts, rest), |Used(ts, more)|;
    assert used == Used(ts, more) + [Eq] + Used(more[1..], rest);
    assert used[..n] == Used(ts, more) && used[n + 1..] == Used(more[1..], rest);
    assert EqualAt(Equal(l, r), used, n);
  }

  lemma ArrowJoined(ts: seq<Token>, l: Type, more: seq<Token>, r: Type, rest: seq<Token>)
    requires Ends(ts, more) && WritesIndex(l, Used(ts, more)) && Peek(more) == RArrow
    requires Ends(more[1..], rest) && Writes(r, Used(more[1..], rest))
    ensures Ends(ts, rest) && Writes(Arrow(l, r), Used(ts, rest))
  {
    var used, n := Used(ts, rest), |Used(ts, more)|;
    assert used == Used(ts, more) + [RArrow] + Used(more[1..], rest);
    assert used[..n] == Used(ts, more) && used[n + 1..] == Used(more[1..], rest);
    assert ArrowAt(Arrow(l, r), used, n);
  }

  // ---------------------------------------------------------- the theorems

  /** The parser reads a token list as a type exactly when the list is a way to write it. */
  lemma ParsesWhatIsWritten(t: Type, ts: seq<Token>)
    ensures ParseType(ts) == Some((t, [])) <==> Writes(t, ts)
  {
    assert ts + [] == ts;
    if Writes(t, ts) {
      TypeRead(t, ts, []);
    }
    if ParseType(ts) == Some((t, [])) {
      TypeWritten(ts);
      assert Used(ts, []) == ts;
    }
  }

  lemma WritesOne(t: Type, u: Type, ts: seq<Token>)
    requires Writes(t, ts) && Writes(u, ts)
    ensures t == u
  {
    ParsesWhatIsWritten(t, ts);
    ParsesWhatIsWritten(u, ts);
  }

  /** What is printed is a way to write the type printed. */
  lemma PrintWrites(t: Type)
    requires WellFormed(t)
    ensures Writes(t, Print(t, 0))
  {
    TypeReadsBack(t, []);
    assert Print(t, 0) + [] == Print(t, 0);
    ParsesWhatIsWritten(t, Print(t, 0));
  }

  // ------------------------------------------------ parentheses to spare

  /** An operand printed in parentheses it could do without. */
  function Guarded(t: Type): nat {
    if t.App? || t.Index? then 1 else 0
  }

  /** How many operands of index operators and equalities are applications or operations themselves. */
  function Spare(t: Type): nat
    decreases t
  {
    match t
    case Name(_, _) => 0
    case Nat(_) => 0
    case App(head, args) => Spare(head) + SpareAll(args)
    case Arrow(from, to) => Spare(from) + Spare(to)
    case Index(_, l, r) => Spare(l) + Spare(r) + Guarded(l) + Guarded(r)
    case Equal(l, r) => Spare(l) + Spare(r) + Guarded(l) + Guarded(r)
  }

  function SpareAll(args: seq<Type>): nat
    decreases args
  {
    if args == [] then 0 else Spare(args[0]) + SpareAll(args[1..])
  }

  lemma PrintLengths(t: Type)
    ensures |Print(t, 0)| <= |Print(t, 1)| <= |Print(t, 2)| <= |Print(t, 1)| + 2 * Guarded(t)
    ensures |Print(t, 2)| <= |Print(t, 0)| + 2
    ensures (t.Name? || t.Nat?) ==> |Print(t, 2)| == |Print(t, 0)|
  {
  }

  lemma {:induction false} AtomLength(t: Type, ts: seq<Token>)
    requires WritesAtom(t, ts)
    ensures |Print(t, 2)| <= |ts| + 2 * Spare(t)
    decreases |ts|, 0
  {
    PrintLengths(t);
    if ts[0].LParen? {
      TypeLength(t, ts[1..|ts| - 1]);
    }
  }

  lemma {:induction false} ArgsLength(args: seq<Type>, ts: seq<Token>)
    requires WritesArgs(args, ts)
    ensures |PrintAll(args)| <= |ts| + 2 * SpareAll(args)
    decreases |ts|, 2
  {
    if args != [] {
      var i :| ArgUpTo(args, ts, i);
      AtomLength(args[0], ts[..i]);
      ArgsLength(args[1..], ts[i..]);
    }
  }

  lemma {:induction false} AppLength(t: Type, ts: seq<Token>)
    requires WritesApp(t, ts)
    ensures |Print(t, 1)| <= |ts| + 2 * Spare(t)
    decreases |ts|, 3
  {
    PrintLengths(t);
    if WritesAtom(t, ts) {
      AtomLength(t, ts);
    } else {
      var i :| ArgsFrom(t.head, t.args, ts, i);
      AtomLength(t.head, ts[..i]);
      ArgsLength(t.args, ts[i..]);
    }
  }

  lemma {:induction false} IndexLength(t: Type, ts: seq<Token>)
    requires WritesIndex(t, ts)
    ensures |Print(t, 1)| <= |ts| + 2 * Spare(t)
    decreases |ts|, 4
  {
    if WritesApp(t, ts) {
      AppLength(t, ts);
    } else {
      var i :| OperatorAt(t, ts, i);
      IndexLength(t.l, ts[..i]);
      AppLength(t.r, ts[i + 1..]);
      PrintLengths(t.l);
      PrintLengths(t.r);
    }
  }

  /**
   * No way to write a type is shorter than the printed one, but for the
   * parentheses around operands of index operators and equalities that are
   * applications or operations.
   */
  lemma {:induction false} TypeLength(t: Type, ts: seq<Token>)
    requires Writes(t, ts)
    ensures |Print(t, 0)| <= |ts| + 2 * Spare(t)
    decreases |ts|, 5
  {
    PrintLengths(t);
    if WritesIndex(t, ts) {
      IndexLength(t, ts);
    } else if t.Arrow? {
      var i :| ArrowAt(t, ts, i);
      IndexLength(t.from, ts[..i]);
      TypeLength(t.to, ts[i + 1..]);
    } else {
      var i :| EqualAt(t, ts, i);
      IndexLength(t.l, ts[..i]);
      IndexLength(t.r, ts[i + 1..]);
      PrintLengths(t.l);
      PrintLengths(t.r);
    }
  }
}
