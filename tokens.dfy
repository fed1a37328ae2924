/** Optional values, as the cursor's `peek` and `next` return them. */
module Wrappers {
  datatype Option<+T> = None | Some(value: T)
}

/**
 * Lexical tokens as the parser receives them. The lexer is not part of this model: a token
 * stream is a given sequence of these values, and the line-terminator information the lexer
 * would provide is a flag on each token.
 */
module Tokens {
  /** An interned identifier. The interner is opaque, so a symbol is only a handle. */
  type Sym = int

  /** Where a token starts in the source text; diagnostics report it unchanged. */
  datatype Position = Position(line: nat, column: nat)

  datatype Keyword =
    | Var | Let | Const | Delete | Void | TypeOf | Yield | Await
    | OtherKeyword(code: nat)

  datatype Punctuator =
    | Semicolon | Comma | Assign | OpenBlock | CloseBlock | OpenParen | CloseParen
    | Exp | Add | Sub | Mul | Div | Not | Neg | Inc | Dec
    | OtherPunctuator(code: nat)

  datatype TokenKind =
    | Keyword(keyword: Keyword)
    | Punctuator(punctuator: Punctuator)
    | Identifier(name: Sym)
    | NumericLiteral(number: int)
    | StringLiteral(text: string)
    | BooleanLiteral(truth: bool)
    | NullLiteral

  /**
   * A token, the position where it starts, and whether at least one line terminator
   * separates it from the token before it.
   */
  datatype Token = Token(kind: TokenKind, pos: Position, newlineBefore: bool)
}

/** Parse failures and results. */
module Errors {
  import opened Tokens

  /** One entry of a diagnostic's expected set: a particular token, or any identifier. */
  datatype Expectation = ExpectedToken(kind: TokenKind) | ExpectedIdentifier

  /**
   * The two failure kinds: a token other than the expected ones (with the token found, its
   * position and the name of the production that failed), or an input that ended too early.
   * The found token is kept as its kind rather than as rendered text.
   */
  datatype ParseError =
    | Expected(expected: seq<Expectation>, found: TokenKind, pos: Position, context: string)
    | AbruptEnd

  datatype ParseResult<+T> = Ok(value: T) | Err(error: ParseError)

  /** What running a production from some cursor position gives: its result and the new position. */
  datatype Step<+T> = Step(result: ParseResult<T>, end: nat)

  /**
   * The progress contract every production keeps: the cursor never moves back and stays
   * within the stream, and a success consumes at least one token.
   */
  predicate Advances<T>(s: Step<T>, start: nat, n: nat) {
    start <= s.end <= n && (s.result.Ok? ==> start < s.end)
  }
}

/** The nodes of the syntax tree that these productions build. */
module Ast {
  import opened Wrappers
  import opened Tokens

  datatype NumOp = Add | Sub | Div | Mul | Exp | Mod

  datatype BinOp = Num(op: NumOp)

  datatype Node =
    /** A binary operation; the node owns both operands. */
    | BinOp(op: BinOp, lhs: Node, rhs: Node)
    /** A `var` declaration list: each declared name with its initializer, in source order. */
    | VarDecl(declarations: seq<(Sym, Option<Node>)>)
    /** Any node built by a production outside this model, told apart only by a tag. */
    | Other(tag: int)

  /** The `**` node built by the exponentiation production. */
  function ExpNode(lhs: Node, rhs: Node): Node {
    BinOp(Num(NumOp.Exp), lhs, rhs)
  }
}
