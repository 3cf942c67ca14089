/**
 * Operator expressions of goml on tokens: exprString's operator cases
 * (internal/goml/func.go) against precedence climbing (parseOp in
 * internal/goml/parser.go).
 */
module OperatorSyntax {
  import opened Options
  import opened Tokens

  datatype Expr =
    | Name(text: string)
    | Literal(tok: Token)
    | Unary(op: Symbol, x: Expr)
    | Try(x: Expr)
    | Binop(op: Symbol, l: Expr, r: Expr)

  /** 0 for a symbol that is not a binary operator. */
  function Prec(op: Symbol): (p: nat)
    ensures p <= 6
  {
    match op
    case Pipe | Compose | Kleisli => 1
    case OrOr => 2
    case AndAnd => 3
    case EqEq | NotEq | Lt | LtEq | Gt | GtEq => 4
    case Plus | Minus => 5
    case Star | Slash | Percent => 6
    case Bang | Amp | LArrow => 0
  }

  predicate Prefix(op: Symbol) {
    op in {Minus, Bang, Amp, LArrow, Star}
  }

  predicate LiteralToken(t: Token) {
    t.Int? || t.Float? || t.Str?
  }

  predicate WellFormed(e: Expr) {
    match e
    case Name(_) => true
    case Literal(tok) => LiteralToken(tok)
    case Unary(op, x) => Prefix(op) && WellFormed(x)
    case Try(x) => WellFormed(x)
    case Binop(op, l, r) => Prec(op) > 0 && WellFormed(l) && WellFormed(r)
  }

  // ------------------------------------------------------------- printing

  const ATOM := 7

  function Print(e: Expr, prec: nat): seq<Token> {
    match e
    case Name(text) => [Ident(text)]
    case Literal(tok) => [tok]
    case Unary(op, x) => [Sym(op)] + Print(x, ATOM)
    case Try(x) => Print(x, ATOM) + [Question]
    case Binop(op, l, r) => Paren(Prec(op) < prec, Print(l, Prec(op)) + [Sym(op)] + Print(r, Prec(op) + 1))
  }

  // -------------------------------------------------------------- parsing

  type Parsed = Option<(Expr, seq<Token>)>

  /** The binary precedence of the next token, 0 if it is not a binary operator. */
  function NextPrec(ts: seq<Token>): nat {
    if Peek(ts).Sym? then Prec(Peek(ts).op) else 0
  }

  /** An argument of an application by juxtaposition would start here. */
  predicate StartsOperand(ts: seq<Token>) {
    var t := Peek(ts);
    || t.Ident? || LiteralToken(t) || t.LParen? || t == Sym(Amp)
    || (t.Question? && |ts| > 1 && ts[1].Ident?)
  }

  function ParseOp(min: nat, ts: seq<Token>): (p: Parsed)
    ensures p.Some? ==> |p.value.1| < |ts|
    decreases |ts|, 4
  {
    match ParseOperand(ts)
    case None => None
    case Some((left, rest)) => MoreOps(min, left, rest)
  }

  /** Left-associative: the right operand takes only operators that bind tighter. */
  function MoreOps(min: nat, left: Expr, ts: seq<Token>): (p: Parsed)
    ensures p.Some? ==> |p.value.1| <= |ts|
    decreases |ts|, 0
  {
    var prec := NextPrec(ts);
    if prec == 0 || prec < min then Some((left, ts)) else
      match ParseOp(prec + 1, ts[1..])
      case None => None
      case Some((right, rest)) => MoreOps(min, Binop(ts[0].op, left, right), rest)
  }

  function ParseOperand(ts: seq<Token>): (p: Parsed)
    ensures p.Some? ==> |p.value.1| < |ts|
    decreases |ts|, 3
  {
    match ParseUnary(ts)
    case None => None
    case Some((e, rest)) => Some(MoreTries(e, rest))
  }

  function MoreTries(e: Expr, ts: seq<Token>): (p: (Expr, seq<Token>))
    ensures |p.1| <= |ts|
    decreases |ts|
  {
    if Peek(ts).Question? then MoreTries(Try(e), ts[1..]) else (e, ts)
  }

  function ParseUnary(ts: seq<Token>): (p: Parsed)
    ensures p.Some? ==> |p.value.1| < |ts|
    decreases |ts|, 2
  {
    if Peek(ts).Sym? && Prefix(Peek(ts).op) then
      match ParseUnary(ts[1..])
      case None => None
      case Some((x, rest)) => Some((Unary(ts[0].op, x), rest))
    else
      match ParseAtom(ts)
      case None => None
      case Some((e, rest)) => if StartsOperand(rest) then None else Some((e, rest))
  }

  function ParseAtom(ts: seq<Token>): (p: Parsed)
    ensures p.Some? ==> |p.value.1| < |ts|
    decreases |ts|, 1
  {
    var t := Peek(ts);
    if t.Ident? then Some((Name(t.text), ts[1..]))
    else if LiteralToken(t) then Some((Literal(t), ts[1..]))
    else if !t.LParen? then None
    else
      match ParseOp(1, ts[1..])
      case None => None
      case Some((e, rest)) => if Peek(rest).RParen? then Some((e, rest[1..])) else None
  }

  // ----------------------------------------------------------- the parser

  method ReadOp(p: Cursor, min: nat) returns (r: Option<Expr>)
    requires p.Valid()
    modifies p
    ensures p.Valid() && p.Left() <= old(p.Left())
    ensures match ParseOp(min, old(p.Ahead()))
            case None => r == None
            case Some((e, rest)) => r == Some(e) && p.Ahead() == rest
    decreases p.Left(), 4
  {
    ghost var whole := ParseOp(min, p.Ahead());
    r := ReadOperand(p);
    if r == None {
      return;
    }
    var left := r.value;
    while true
      invariant p.Valid() && p.Left() < old(p.Left())
      invariant whole == MoreOps(min, left, p.Ahead())
      decreases p.Left()
    {
      var prec := NextPrec(p.Ahead());
      if prec == 0 || prec < min {
        return Some(left);
      }
      var op := p.toks[p.i].op;
      p.Advance();
      var right := ReadOp(p, prec + 1);
      if right == None {
        return None;
      }
      left := Binop(op, left, right.value);
    }
  }

  method ReadOperand(p: Cursor) returns (r: Option<Expr>)
    requires p.Valid()
    modifies p
    ensures p.Valid() && p.Left() <= old(p.Left())
    ensures match ParseOperand(old(p.Ahead()))
            case None => r == None
            case Some((e, rest)) => r == Some(e) && p.Ahead() == rest
    decreases p.Left(), 3
  {
    ghost var whole := ParseOperand(p.Ahead());
    r := ReadUnary(p);
    if r == None {
      return;
    }
    var e := r.value;
    while Peek(p.Ahead()).Question?
      invariant p.Valid() && p.Left() < old(p.Left())
      invariant whole == Some(MoreTries(e, p.Ahead()))
      decreases p.Left()
    {
      p.Advance();
      e := Try(e);
    }
    return Some(e);
  }

  method ReadUnary(p: Cursor) returns (r: Option<Expr>)
    requires p.Valid()
    modifies p
    ensures p.Valid() && p.Left() <= old(p.Left())
    ensures match ParseUnary(old(p.Ahead()))
            case None => r == None
            case Some((e, rest)) => r == Some(e) && p.Ahead() == rest
    decreases p.Left(), 2
  {
    if Peek(p.Ahead()).Sym? && Prefix(Peek(p.Ahead()).op) {
      var op := p.toks[p.i].op;
      p.Advance();
      r := ReadUnary(p);
      return if r == None then None else Some(Unary(op, r.value));
    }
    r := ReadAtom(p);
    if r != None && StartsOperand(p.Ahead()) {
      return None;
    }
  }

  method ReadAtom(p: Cursor) returns (r: Option<Expr>)
    requires p.Valid()
    modifies p
    ensures p.Valid() && p.Left() <= old(p.Left())
    ensures match ParseAtom(old(p.Ahead()))
            case None => r == None
            case Some((e, rest)) => r == Some(e) && p.Ahead() == rest
    decreases p.Left(), 1
  {
    var t := Peek(p.Ahead());
    if t.Ident? {
      p.Advance();
      return Some(Name(t.text));
    }
    if LiteralToken(t) {
      p.Advance();
      return Some(Literal(t));
    }
    if !t.LParen? {
      return None;
    }
    p.Advance();
    r := ReadOp(p, 1);
    if r != None {
      if !Peek(p.Ahead()).RParen? {
        return None;
      }
      p.Advance();
    }
  }

  // ----------------------------------------------------------- round trip

  /** A printed `?` binds outside the prefix operators printed before it. */
  function Reread(e: Expr): Expr {
    match e
    case Name(_) => e
    case Literal(_) => e
    case Unary(op, x) => Outside(op, Reread(x))
    case Try(x) => Try(Reread(x))
    case Binop(op, l, r) => Binop(op, Reread(l), Reread(r))
  }

  /** The prefix operator goes under the tries of its operand. */
  function Outside(op: Symbol, x: Expr): Expr {
    if x.Try? then Try(Outside(op, x.x)) else Unary(op, x)
  }

  function Core(e: Expr): Expr {
    if e.Try? then Core(e.x) else e
  }

  function Marks(e: Expr): seq<Token> {
    if e.Try? then Marks(e.x) + [Question] else []
  }

  /** No prefix operator is applied directly to a try. */
  predicate Plain(e: Expr) {
    match e
    case Name(_) => true
    case Literal(_) => true
    case Unary(_, x) => !x.Try? && Plain(x)
    case Try(x) => Plain(x)
    case Binop(_, l, r) => Plain(l) && Plain(r)
  }

  lemma {:induction false} OutsideCore(op: Symbol, x: Expr)
    ensures Core(Outside(op, x)) == Unary(op, Core(x))
    ensures Marks(Outside(op, x)) == Marks(x)
  {
    if x.Try? {
      OutsideCore(op, x.x);
    }
  }

  lemma {:induction false} RereadPlain(e: Expr)
    ensures Reread(e) == e <==> Plain(e)
    ensures Reread(e).Try? <== e.Try?
  {
    match e
    case Name(_) =>
    case Literal(_) =>
    case Unary(op, x) => RereadPlain(x);
    case Try(x) => RereadPlain(x);
    case Binop(op, l, r) =>
      RereadPlain(l);
      RereadPlain(r);
  }

  /** What may follow an operand. */
  predicate Follows(ts: seq<Token>) {
    !StartsOperand(ts) && !Peek(ts).Question?
  }

  lemma {:induction false} TriesReadBack(e: Expr, rest: seq<Token>)
    ensures MoreTries(Core(e), Marks(e) + rest) == MoreTries(e, rest)
  {
    if e.Try? {
      var more := [Question] + rest;
      assert Marks(e) + rest == Marks(e.x) + more;
      TriesReadBack(e.x, more);
      assert more[1..] == rest;
    } else {
      assert Marks(e) + rest == rest;
    }
  }

  /** The prefix operators and the atom, leaving the tries. */
  lemma {:induction false} UnaryReadsBack(e: Expr, rest: seq<Token>)
    requires WellFormed(e) && !StartsOperand(rest)
    ensures ParseUnary(Print(e, ATOM) + rest) == Some((Core(Reread(e)), Marks(Reread(e)) + rest))
    decreases e, 1
  {
    match e
    case Name(_) =>
      LeafReadsBack(e, rest);
    case Literal(_) =>
      LeafReadsBack(e, rest);
    case Unary(op, x) =>
      UnaryReadsBack(x, rest);
      PrefixReadsBack(op, x, rest);
    case Try(x) =>
      UnaryReadsBack(x, [Question] + rest);
      TryReadsBack(x, rest);
    case Binop(op, l, r) =>
      OpReadsBack(1, 1, e, [RParen] + rest);
      ParenReadsBack(e, rest);
      assert Marks(Reread(e)) + rest == rest;
  }

  lemma PrefixReadsBack(op: Symbol, x: Expr, rest: seq<Token>)
    requires Prefix(op)
    requires ParseUnary(Print(x, ATOM) + rest) == Some((Core(Reread(x)), Marks(Reread(x)) + rest))
    ensures var e := Unary(op, x); ParseUnary(Print(e, ATOM) + rest) == Some((Core(Reread(e)), Marks(Reread(e)) + rest))
  {
    OutsideCore(op, Reread(x));
    Reassociate([Sym(op)], Print(x, ATOM), rest);
    PrefixParsed(op, Print(x, ATOM) + rest);
  }

  lemma PrefixParsed(op: Symbol, ts: seq<Token>)
    requires Prefix(op) && ParseUnary(ts).Some?
    ensures ParseUnary([Sym(op)] + ts) == Some((Unary(op, ParseUnary(ts).value.0), ParseUnary(ts).value.1))
  {
    assert ([Sym(op)] + ts)[1..] == ts;
  }

  lemma TryReadsBack(x: Expr, rest: seq<Token>)
    requires var more := [Question] + rest;
             ParseUnary(Print(x, ATOM) + more) == Some((Core(Reread(x)), Marks(Reread(x)) + more))
    ensures var e := Try(x); ParseUnary(Print(e, ATOM) + rest) == Some((Core(Reread(e)), Marks(Reread(e)) + rest))
  {
    Reassociate(Print(x, ATOM), [Question], rest);
    Reassociate(Marks(Reread(x)), [Question], rest);
  }

  lemma ParenReadsBack(e: Expr, rest: seq<Token>)
    requires WellFormed(e) && e.Binop? && !StartsOperand(rest)
    requires ParseOp(1, Print(e, 1) + ([RParen] + rest)) == MoreOps(1, Reread(e), [RParen] + rest)
    ensures ParseUnary(Print(e, ATOM) + rest) == Some((Reread(e), rest))
  {
    var more := [RParen] + rest;
    assert MoreOps(1, Reread(e), more) == Some((Reread(e), more));
    assert (Print(e, ATOM) + rest)[1..] == Print(e, 1) + more;
    assert more[1..] == rest;
  }

  lemma LeafReadsBack(e: Expr, rest: seq<Token>)
    requires WellFormed(e) && (e.Name? || e.Literal?) && !StartsOperand(rest)
    ensures ParseUnary(Print(e, ATOM) + rest) == Some((e, [] + rest))
  {
    assert (Print(e, ATOM) + rest)[1..] == rest == [] + rest;
  }

  lemma {:induction false} OperandReadsBack(e: Expr, rest: seq<Token>)
    requires WellFormed(e) && Follows(rest)
    ensures ParseOperand(Print(e, ATOM) + rest) == Some((Reread(e), rest))
    decreases e, 2
  {
    UnaryReadsBack(e, rest);
    TriesReadBack(Reread(e), rest);
  }

  /** Climbing over an expression printed at `q` resumes with it as the left operand. */
  lemma {:induction false} OpReadsBack(min: nat, q: nat, e: Expr, rest: seq<Token>)
    requires WellFormed(e) && Follows(rest) && 1 <= min <= q <= ATOM && NextPrec(rest) <= q
    ensures ParseOp(min, Print(e, q) + rest) == MoreOps(min, Reread(e), rest)
    decreases e, if e.Binop? && Prec(e.op) >= q then 0 else 3
  {
    if e.Binop? && Prec(e.op) >= q {
      BinopReadsBack(min, e, rest);
    } else {
      assert Print(e, q) == Print(e, ATOM);
      OperandReadsBack(e, rest);
    }
  }

  lemma {:induction false} BinopReadsBack(min: nat, e: Expr, rest: seq<Token>)
    requires WellFormed(e) && e.Binop? && Follows(rest) && 1 <= min <= Prec(e.op) && NextPrec(rest) <= Prec(e.op)
    ensures ParseOp(min, Print(e, Prec(e.op)) + rest) == MoreOps(min, Reread(e), rest)
    decreases e, -1
  {
    var p := Prec(e.op);
    var after := Print(e.r, p + 1) + rest;
    var more := [Sym(e.op)] + after;
    assert Print(e, p) + rest == Print(e.l, p) + more;
    OpReadsBack(min, p, e.l, more);
    assert more[1..] == after;
    OpReadsBack(p + 1, p + 1, e.r, rest);
    assert MoreOps(p + 1, Reread(e.r), rest) == Some((Reread(e.r), rest));
  }

  /** Printing and parsing moves tries outwards, and changes nothing else. */
  lemma PrintParse(e: Expr, rest: seq<Token>)
    requires WellFormed(e) && Follows(rest) && NextPrec(rest) == 0
    ensures ParseOp(1, Print(e, 0) + rest) == Some((Reread(e), rest))
  {
    OpReadsBack(1, 1, e, rest);
    assert Print(e, 0) == Print(e, 1);
  }

  /** The tree is read back just as it was exactly when no prefix operator sits on a try. */
  lemma RoundTripExact(e: Expr, rest: seq<Token>)
    requires WellFormed(e) && Follows(rest) && NextPrec(rest) == 0
    ensures ParseOp(1, Print(e, 0) + rest) == Some((e, rest)) <==> Plain(e)
  {
    PrintParse(e, rest);
    RereadPlain(e);
  }
}
