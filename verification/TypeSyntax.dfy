/**
 * Types of goml on tokens: the printer (gomlTypeString in
 * internal/goml/repl_type.go) and the parser (parseType in
 * internal/goml/parser.go), and that they are inverse.
 */
module TypeSyntax {
  import opened Options
  import opened Tokens

  /** The operators index types are built with. */
  predicate IndexOp(op: Symbol) {
    op in {Plus, Minus, Star}
  }

  /** `pkg` is empty for an unqualified name. */
  datatype Type =
    | Name(pkg: string, name: string)
    | Nat(lit: string)
    | App(head: Type, args: seq<Type>)
    | Arrow(from: Type, to: Type)
    | Index(op: Symbol, l: Type, r: Type)
    | Equal(l: Type, r: Type)

  // ------------------------------------------------------------- printing

  /** `prec`: 0 anywhere, 1 to the left of an arrow, 2 as an application argument. */
  function Print(t: Type, prec: nat): seq<Token>
    decreases t
  {
    match t
    case Name(pkg, name) => if pkg != "" then [Ident(pkg), Dot, Ident(name)] else [Ident(name)]
    case Nat(lit) => [Int(lit)]
    case App(head, args) => Paren(prec >= 2, Print(head, 2) + PrintAll(args))
    case Arrow(from, to) => Paren(prec >= 1, Print(from, 1) + [RArrow] + Print(to, 0))
    case Index(op, l, r) => Paren(prec >= 2, Print(l, 2) + [Sym(op)] + Print(r, 2))
    case Equal(l, r) => Paren(prec >= 1, Print(l, 2) + [Eq] + Print(r, 2))
  }

  function PrintAll(args: seq<Type>): seq<Token>
    decreases args
  {
    if args == [] then [] else Print(args[0], 2) + PrintAll(args[1..])
  }

  // -------------------------------------------------------------- parsing

  type Parsed<T> = Option<(T, seq<Token>)>

  predicate AtIndexOp(ts: seq<Token>) {
    Peek(ts).Sym? && IndexOp(Peek(ts).op)
  }

  predicate StartsAtom(ts: seq<Token>) {
    Peek(ts).Ident? || Peek(ts).Int? || Peek(ts).LParen?
  }

  /** At `. name`, continuing a qualified name. */
  predicate Qualifies(ts: seq<Token>) {
    Peek(ts).Dot? && |ts| > 1 && ts[1].Ident?
  }

  function ParseType(ts: seq<Token>): (p: Parsed<Type>)
    ensures p.Some? ==> |p.value.1| < |ts|
    decreases |ts|, 4
  {
    match ParseIndex(ts)
    case None => None
    case Some((t, rest)) =>
      if Peek(rest).Eq? then
        match ParseIndex(rest[1..]) {
          case None => None
          case Some((r, rest')) => Some((Equal(t, r), rest'))
        }
      else if Peek(rest).RArrow? then
        match ParseType(rest[1..]) {
          case None => None
          case Some((to, rest')) => Some((Arrow(t, to), rest'))
        }
      else Some((t, rest))
  }

  function ParseIndex(ts: seq<Token>): (p: Parsed<Type>)
    ensures p.Some? ==> |p.value.1| < |ts|
    decreases |ts|, 3
  {
    match ParseApp(ts)
    case None => None
    case Some((t, rest)) => MoreIndex(t, rest)
  }

  function MoreIndex(t: Type, ts: seq<Token>): (p: Parsed<Type>)
    ensures p.Some? ==> |p.value.1| <= |ts|
    decreases |ts|, 0
  {
    if !AtIndexOp(ts) then Some((t, ts)) else
      match ParseApp(ts[1..])
      case None => None
      case Some((r, rest)) => MoreIndex(Index(ts[0].op, t, r), rest)
  }

  function ParseApp(ts: seq<Token>): (p: Parsed<Type>)
    ensures p.Some? ==> |p.value.1| < |ts|
    decreases |ts|, 2
  {
    match ParseAtom(ts)
    case None => None
    case Some((head, rest)) =>
      if !head.Name? then Some((head, rest)) else
        match ParseArgs(rest)
        case None => None
        case Some((args, rest')) => Some((if args == [] then head else App(head, args), rest'))
  }

  function ParseArgs(ts: seq<Token>): (p: Parsed<seq<Type>>)
    ensures p.Some? ==> |p.value.1| <= |ts|
    decreases |ts|, 1
  {
    if !StartsAtom(ts) then Some(([], ts)) else
      match ParseAtom(ts)
      case None => None
      case Some((a, rest)) =>
        match ParseArgs(rest)
        case None => None
        case Some((more, rest')) => Some(([a] + more, rest'))
  }

  function ParseAtom(ts: seq<Token>): (p: Parsed<Type>)
    ensures p.Some? ==> |p.value.1| < |ts|
    decreases |ts|, 0
  {
    match Peek(ts)
    case Ident(text) =>
      if Qualifies(ts[1..]) then Some((Name(text, ts[2].text), ts[3..])) else Some((Name("", text), ts[1..]))
    case Int(text) => Some((Nat(text), ts[1..]))
    case LParen =>
      (match ParseType(ts[1..])
       case None => None
       case Some((t, rest)) => if Peek(rest).RParen? then Some((t, rest[1..])) else None)
    case _ => None
  }

  // ----------------------------------------------------------- the parser

  // The parser's methods move its cursor; a failed parse reports None.

  method ReadType(p: Cursor) returns (r: Option<Type>)
    requires p.Valid()
    modifies p
    ensures p.Valid() && p.Left() <= old(p.Left())
    ensures match ParseType(old(p.Ahead()))
            case None => r == None
            case Some((t, rest)) => r == Some(t) && p.Ahead() == rest
    decreases p.Left(), 4
  {
    var t := ReadIndex(p);
    if t == None {
      return None;
    }
    if Peek(p.Ahead()).Eq? {
      p.Advance();
      var right := ReadIndex(p);
      return if right == None then None else Some(Equal(t.value, right.value));
    }
    if Peek(p.Ahead()).RArrow? {
      p.Advance();
      var to := ReadType(p);
      return if to == None then None else Some(Arrow(t.value, to.value));
    }
    return t;
  }

  method ReadIndex(p: Cursor) returns (r: Option<Type>)
    requires p.Valid()
    modifies p
    ensures p.Valid() && p.Left() <= old(p.Left())
    ensures match ParseIndex(old(p.Ahead()))
            case None => r == None
            case Some((t, rest)) => r == Some(t) && p.Ahead() == rest
    decreases p.Left(), 3
  {
    ghost var whole := ParseIndex(p.Ahead());
    r := ReadApp(p);
    if r == None {
      return;
    }
    var t := r.value;
    while AtIndexOp(p.Ahead())
      invariant p.Valid() && p.Left() < old(p.Left())
      invariant whole == MoreIndex(t, p.Ahead())
      decreases p.Left()
    {
      var op := p.toks[p.i].op;
      p.Advance();
      var right := ReadApp(p);
      if right == None {
        return None;
      }
      t := Index(op, t, right.value);
    }
    return Some(t);
  }

  method ReadApp(p: Cursor) returns (r: Option<Type>)
    requires p.Valid()
    modifies p
    ensures p.Valid() && p.Left() <= old(p.Left())
    ensures match ParseApp(old(p.Ahead()))
            case None => r == None
            case Some((t, rest)) => r == Some(t) && p.Ahead() == rest
    decreases p.Left(), 2
  {
    var head := ReadAtom(p);
    if head == None || !head.value.Name? {
      return head;
    }
    ghost var all := ParseArgs(p.Ahead());
    var args: seq<Type> := [];
    while StartsAtom(p.Ahead())
      invariant p.Valid() && p.Left() < old(p.Left())
      invariant match ParseArgs(p.Ahead())
                case None => all == None
                case Some((more, rest)) => all.Some? && all.value.0 == args + more && all.value.1 == rest
      decreases p.Left()
    {
      var a := ReadAtom(p);
      if a == None {
        return None;
      }
      args := args + [a.value];
    }
    assert args + [] == args;
    return Some(if args == [] then head.value else App(head.value, args));
  }

  method ReadAtom(p: Cursor) returns (r: Option<Type>)
    requires p.Valid()
    modifies p
    ensures p.Valid() && p.Left() <= old(p.Left())
    ensures match ParseAtom(old(p.Ahead()))
            case None => r == None
            case Some((t, rest)) => r == Some(t) && p.Ahead() == rest
    decreases p.Left(), 0
  {
    match Peek(p.Ahead())
    case Ident(text) =>
      p.Advance();
      if Qualifies(p.Ahead()) {
        var name := p.toks[p.i + 1].text;
        p.Advance();
        p.Advance();
        return Some(Name(text, name));
      }
      return Some(Name("", text));
    case Int(text) =>
      p.Advance();
      return Some(Nat(text));
    case LParen =>
      p.Advance();
      r := ReadType(p);
      if r != None {
        if !Peek(p.Ahead()).RParen? {
          return None;
        }
        p.Advance();
      }
    case _ =>
      return None;
  }

  // ----------------------------------------------------------- round trip

  /** A tree the parser can produce: an application has a named head and an argument. */
  predicate WellFormed(t: Type)
    decreases t
  {
    match t
    case Name(_, _) => true
    case Nat(_) => true
    case App(head, args) => head.Name? && args != [] && AllWellFormed(args)
    case Arrow(from, to) => WellFormed(from) && WellFormed(to)
    case Index(op, l, r) => IndexOp(op) && WellFormed(l) && WellFormed(r)
    case Equal(l, r) => WellFormed(l) && WellFormed(r)
  }

  predicate AllWellFormed(args: seq<Type>)
    decreases args
  {
    args == [] || (WellFormed(args[0]) && AllWellFormed(args[1..]))
  }

  /** What may follow a printed type without being read as part of it. */
  predicate EndsArgs(ts: seq<Token>) {
    !StartsAtom(ts) && !Qualifies(ts)
  }

  predicate EndsIndex(ts: seq<Token>) {
    EndsArgs(ts) && !AtIndexOp(ts)
  }

  predicate EndsType(ts: seq<Token>) {
    EndsIndex(ts) && !Peek(ts).Eq? && !Peek(ts).RArrow?
  }

  lemma ReadParenthesised(inside: seq<Token>, t: Type, rest: seq<Token>)
    requires ParseType(inside + [RParen] + rest) == Some((t, [RParen] + rest))
    ensures ParseAtom([LParen] + inside + [RParen] + rest) == Some((t, rest))
  {
    var ts := [LParen] + inside + [RParen] + rest;
    assert ts[1..] == inside + [RParen] + rest;
    assert ([RParen] + rest)[1..] == rest;
  }

  lemma StartsPrinted(t: Type, rest: seq<Token>)
    requires WellFormed(t)
    ensures StartsAtom(Print(t, 2) + rest)
    ensures !Qualifies(Print(t, 2) + rest)
  {
  }

  lemma {:induction false} AtomReadsBack(t: Type, rest: seq<Token>)
    requires WellFormed(t) && !Qualifies(rest)
    ensures ParseAtom(Print(t, 2) + rest) == Some((t, rest))
    decreases t, 4
  {
    match t
    case Name(pkg, name) =>
      assert (Print(t, 2) + rest)[1..] == if pkg != "" then [Dot, Ident(name)] + rest else rest;
    case Nat(lit) =>
      assert (Print(t, 2) + rest)[1..] == rest;
    case _ =>
      var inside := Print(t, 0);
      assert Print(t, 2) == [LParen] + inside + [RParen];
      TypeReadsBack(t, [RParen] + rest);
      assert inside + ([RParen] + rest) == inside + [RParen] + rest;
      ReadParenthesised(inside, t, rest);
      assert Print(t, 2) + rest == [LParen] + inside + [RParen] + rest;
  }

  lemma {:induction false} ArgsReadBack(args: seq<Type>, rest: seq<Token>)
    requires AllWellFormed(args) && EndsArgs(rest)
    ensures ParseArgs(PrintAll(args) + rest) == Some((args, rest))
    decreases args, 0
  {
    if args == [] {
      assert PrintAll(args) + rest == rest;
    } else {
      var a, others := args[0], args[1..];
      var more := PrintAll(others) + rest;
      assert PrintAll(args) + rest == Print(a, 2) + more;
      ArgsReadBack(others, rest);
      AfterArg(others, rest);
      StartsPrinted(a, more);
      AtomReadsBack(a, more);
      OneMoreArg(Print(a, 2) + more, a, more, others, rest);
      assert [a] + others == args;
    }
  }

  lemma OneMoreArg(ts: seq<Token>, a: Type, more: seq<Token>, others: seq<Type>, rest: seq<Token>)
    requires StartsAtom(ts) && ParseAtom(ts) == Some((a, more)) && ParseArgs(more) == Some((others, rest))
    ensures ParseArgs(ts) == Some(([a] + others, rest))
  {
  }

  lemma AfterArg(args: seq<Type>, rest: seq<Token>)
    requires AllWellFormed(args) && EndsArgs(rest)
    ensures !Qualifies(PrintAll(args) + rest)
  {
    if args == [] {
      assert PrintAll(args) + rest == rest;
    } else {
      StartsPrinted(args[0], PrintAll(args[1..]) + rest);
      assert PrintAll(args) + rest == Print(args[0], 2) + (PrintAll(args[1..]) + rest);
    }
  }

  /** An operand printed as an argument is read back as an application. */
  lemma {:induction false} OperandReadsBack(t: Type, rest: seq<Token>)
    requires WellFormed(t) && EndsArgs(rest)
    ensures ParseApp(Print(t, 2) + rest) == Some((t, rest))
    decreases t, 5
  {
    AtomReadsBack(t, rest);
  }

  lemma {:induction false} AppReadsBack(head: Type, args: seq<Type>, rest: seq<Token>)
    requires head.Name? && args != [] && AllWellFormed(args) && EndsArgs(rest)
    ensures ParseApp(Print(App(head, args), 0) + rest) == Some((App(head, args), rest))
    decreases args, 1
  {
    var more := PrintAll(args) + rest;
    assert Print(App(head, args), 0) + rest == Print(head, 2) + more;
    StartsPrinted(args[0], PrintAll(args[1..]) + rest);
    assert more == Print(args[0], 2) + (PrintAll(args[1..]) + rest);
    NameReadsBack(head, more);
    ArgsReadBack(args, rest);
  }

  lemma NameReadsBack(t: Type, rest: seq<Token>)
    requires (t.Name? || t.Nat?) && !Qualifies(rest)
    ensures ParseAtom(Print(t, 2) + rest) == Some((t, rest))
  {
    var after := if t.Name? && t.pkg != "" then [Dot, Ident(t.name)] + rest else rest;
    assert (Print(t, 2) + rest)[1..] == after;
  }

  /** The forms that need no parentheses to the left of an arrow. */
  lemma {:induction false} IndexReadsBack(t: Type, rest: seq<Token>)
    requires WellFormed(t) && EndsIndex(rest) && !t.Arrow? && !t.Equal?
    ensures ParseIndex(Print(t, 0) + rest) == Some((t, rest))
    decreases t, 2
  {
    match t
    case App(head, args) =>
      AppReadsBack(head, args, rest);
    case Index(op, l, r) =>
      OperandReadsBack(l, [Sym(op)] + (Print(r, 2) + rest));
      OperandReadsBack(r, rest);
      OperationReadsBack(op, l, r, rest);
    case Name(_, _) =>
      LeafReadsBack(t, rest);
    case Nat(_) =>
      LeafReadsBack(t, rest);
  }

  lemma LeafReadsBack(t: Type, rest: seq<Token>)
    requires (t.Name? || t.Nat?) && EndsIndex(rest)
    ensures ParseIndex(Print(t, 0) + rest) == Some((t, rest))
  {
    NameReadsBack(t, rest);
    assert Print(t, 0) == Print(t, 2) && ParseArgs(rest) == Some(([], rest));
    assert ParseApp(Print(t, 0) + rest) == Some((t, rest));
  }

  lemma OperationReadsBack(op: Symbol, l: Type, r: Type, rest: seq<Token>)
    requires IndexOp(op) && EndsIndex(rest)
    requires ParseApp(Print(l, 2) + ([Sym(op)] + (Print(r, 2) + rest))) == Some((l, [Sym(op)] + (Print(r, 2) + rest)))
    requires ParseApp(Print(r, 2) + rest) == Some((r, rest))
    ensures ParseIndex(Print(Index(op, l, r), 0) + rest) == Some((Index(op, l, r), rest))
  {
    var after := Print(r, 2) + rest;
    var more := [Sym(op)] + after;
    assert Print(Index(op, l, r), 0) + rest == Print(l, 2) + more;
    assert more[0] == Sym(op) && more[1..] == after;
    assert MoreIndex(l, more) == MoreIndex(Index(op, l, r), rest);
  }

  lemma {:induction false} LeftReadsBack(t: Type, rest: seq<Token>)
    requires WellFormed(t) && EndsIndex(rest)
    ensures ParseIndex(Print(t, 1) + rest) == Some((t, rest))
    decreases t, 5
  {
    if t.Arrow? || t.Equal? {
      assert Print(t, 1) == Print(t, 2);
      AtomReadsBack(t, rest);
    } else {
      IndexReadsBack(t, rest);
      assert Print(t, 1) == Print(t, 0);
    }
  }

  lemma {:induction false} SideReadsBack(t: Type, rest: seq<Token>)
    requires WellFormed(t) && EndsIndex(rest)
    ensures ParseIndex(Print(t, 2) + rest) == Some((t, rest))
    decreases t, 6
  {
    OperandReadsBack(t, rest);
  }

  lemma {:induction false} TypeReadsBack(t: Type, rest: seq<Token>)
    requires WellFormed(t) && EndsType(rest)
    ensures ParseType(Print(t, 0) + rest) == Some((t, rest))
    decreases t, 3
  {
    match t
    case Arrow(from, to) =>
      var more := [RArrow] + (Print(to, 0) + rest);
      assert Print(t, 0) + rest == Print(from, 1) + more;
      LeftReadsBack(from, more);
      assert more[1..] == Print(to, 0) + rest;
      TypeReadsBack(to, rest);
    case Equal(l, r) =>
      var more := [Eq] + (Print(r, 2) + rest);
      assert Print(t, 0) + rest == Print(l, 2) + more;
      SideReadsBack(l, more);
      assert more[1..] == Print(r, 2) + rest;
      SideReadsBack(r, rest);
    case _ =>
      IndexReadsBack(t, rest);
  }

  // ------------------------------------------------- what the parser makes

  predicate MadeType(p: Parsed<Type>) {
    p.Some? ==> WellFormed(p.value.0)
  }

  lemma {:induction false} AppendWellFormed(args: seq<Type>, a: Type)
    requires WellFormed(a) && AllWellFormed(args)
    ensures AllWellFormed([a] + args)
  {
    assert ([a] + args)[1..] == args;
  }

  lemma {:induction false} ParseTypeMakes(ts: seq<Token>)
    ensures MadeType(ParseType(ts))
    decreases |ts|, 4
  {
    ParseIndexMakes(ts);
    var p := ParseIndex(ts);
    if p.Some? && Peek(p.value.1).Eq? {
      ParseIndexMakes(p.value.1[1..]);
    } else if p.Some? && Peek(p.value.1).RArrow? {
      ParseTypeMakes(p.value.1[1..]);
    }
  }

  lemma {:induction false} ParseIndexMakes(ts: seq<Token>)
    ensures MadeType(ParseIndex(ts))
    decreases |ts|, 3
  {
    ParseAppMakes(ts);
    var p := ParseApp(ts);
    if p.Some? {
      MoreIndexMakes(p.value.0, p.value.1);
    }
  }

  lemma {:induction false} MoreIndexMakes(t: Type, ts: seq<Token>)
    requires WellFormed(t)
    ensures MadeType(MoreIndex(t, ts))
    decreases |ts|, 0
  {
    if AtIndexOp(ts) {
      ParseAppMakes(ts[1..]);
      var p := ParseApp(ts[1..]);
      if p.Some? {
        MoreIndexMakes(Index(ts[0].op, t, p.value.0), p.value.1);
      }
    }
  }

  lemma {:induction false} ParseAppMakes(ts: seq<Token>)
    ensures MadeType(ParseApp(ts))
    decreases |ts|, 2
  {
    ParseAtomMakes(ts);
    var p := ParseAtom(ts);
    if p.Some? {
      ParseArgsMakes(p.value.1);
    }
  }

  lemma {:induction false} ParseArgsMakes(ts: seq<Token>)
    ensures ParseArgs(ts).Some? ==> AllWellFormed(ParseArgs(ts).value.0)
    decreases |ts|, 1
  {
    if StartsAtom(ts) {
      ParseAtomMakes(ts);
      var p := ParseAtom(ts);
      if p.Some? {
        ParseArgsMakes(p.value.1);
        var q := ParseArgs(p.value.1);
        if q.Some? {
          AppendWellFormed(q.value.0, p.value.0);
        }
      }
    }
  }

  lemma {:induction false} ParseAtomMakes(ts: seq<Token>)
    ensures MadeType(ParseAtom(ts))
    decreases |ts|, 0
  {
    if Peek(ts).LParen? {
      ParseTypeMakes(ts[1..]);
    }
  }

  /** Whatever the parser reads, printing it and parsing again gives the same tree. */
  lemma ParsePrintParse(ts: seq<Token>, rest: seq<Token>)
    requires ParseType(ts).Some? && EndsType(rest)
    ensures var t := ParseType(ts).value.0; ParseType(Print(t, 0) + rest) == Some((t, rest))
  {
    ParseTypeMakes(ts);
    TypeReadsBack(ParseType(ts).value.0, rest);
  }

  /** The well-formed trees are exactly those some token stream parses to. */
  lemma ParserImage(t: Type)
    ensures WellFormed(t) <==> exists ts :: ParseType(ts).Some? && ParseType(ts).value.0 == t
  {
    if WellFormed(t) {
      TypeReadsBack(t, [Eof]);
      assert ParseType(Print(t, 0) + [Eof]).value.0 == t;
    }
    forall ts | ParseType(ts).Some? && ParseType(ts).value.0 == t ensures WellFormed(t) {
      ParseTypeMakes(ts);
    }
  }
}
