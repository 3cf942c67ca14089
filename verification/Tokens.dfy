/** Tokens of goml and the parser's cursor over them (internal/goml/parser.go). */
module Tokens {

  datatype Symbol =
    | Pipe | Compose | Kleisli
    | OrOr | AndAnd
    | EqEq | NotEq | Lt | LtEq | Gt | GtEq
    | Plus | Minus
    | Star | Slash | Percent
    | Bang | Amp | LArrow

  datatype Token =
    | Ident(text: string)
    | Int(text: string)
    | Float(text: string)
    | Str(text: string)
    | Sym(op: Symbol)
    | LParen
    | RParen
    | RArrow
    | Eq
    | Dot
    | Question
    | Other(text: string)
    | Eof

  /** The token at the cursor; the stream ends in Eof and stays there. */
  function Peek(ts: seq<Token>): Token {
    if ts == [] then Eof else ts[0]
  }

  /** parenIf */
  function Paren(cond: bool, ts: seq<Token>): seq<Token> {
    if cond then [LParen] + ts + [RParen] else ts
  }

  /** `rest` is what is left of `ts` when its front is used up. */
  predicate Ends(ts: seq<Token>, rest: seq<Token>) {
    |rest| <= |ts| && ts[|ts| - |rest|..] == rest
  }

  function Used(ts: seq<Token>, rest: seq<Token>): (r: seq<Token>)
    requires Ends(ts, rest)
    ensures ts == r + rest
  {
    ts[..|ts| - |rest|]
  }

  lemma EndsThen(a: seq<Token>, b: seq<Token>, c: seq<Token>)
    requires Ends(a, b) && Ends(b, c)
    ensures Ends(a, c) && Used(a, c) == Used(a, b) + Used(b, c)
  {
  }

  lemma FirstUsed(ts: seq<Token>, rest: seq<Token>)
    requires ts != [] && Ends(ts[1..], rest)
    ensures Ends(ts, rest) && Used(ts, rest) == [ts[0]] + Used(ts[1..], rest)
    ensures Used(ts, rest)[1..] == Used(ts[1..], rest)
  {
  }

  lemma ParenUsed(ts: seq<Token>, inner: seq<Token>)
    requires Peek(ts).LParen? && Ends(ts[1..], inner) && Peek(inner).RParen?
    ensures Ends(ts, inner[1..])
    ensures var used := Used(ts, inner[1..]);
            used == [LParen] + Used(ts[1..], inner) + [RParen] && used[1..|used| - 1] == Used(ts[1..], inner)
  {
    assert ts == [LParen] + ts[1..] && inner == [RParen] + inner[1..];
    assert ts == [LParen] + Used(ts[1..], inner) + [RParen] + inner[1..];
  }

  lemma Reassociate(a: seq<Token>, b: seq<Token>, c: seq<Token>)
    ensures (a + b) + c == a + (b + c)
  {
  }

  class Cursor {
    const toks: seq<Token>
    var i: nat

    constructor (toks: seq<Token>)
      ensures this.toks == toks && i == 0
      ensures Valid() && Ahead() == toks
    {
      this.toks := toks;
      i := 0;
    }

    predicate Valid()
      reads this
    {
      i <= |toks|
    }

    function Ahead(): seq<Token>
      requires Valid()
      reads this
    {
      toks[i..]
    }

    function Left(): nat
      requires Valid()
      reads this
    {
      |toks| - i
    }

    method Advance()
      requires Valid() && i < |toks|
      modifies this
      ensures Valid() && Ahead() == old(Ahead())[1..] && Left() == old(Left()) - 1
    {
      i := i + 1;
    }
  }
}
