/**
 * The grammar parameters and the productions this model calls but does not open.
 *
 * UpdateExpression, UnaryExpression and Initializer are given only by their effect: each is a
 * deterministic function of the token sequence, the cursor position and the grammar flags, and
 * yields a result together with the position where it leaves the cursor. All that is assumed
 * of them is the progress contract `Advances`.
 */
module Grammar {
  import opened Tokens
  import opened Errors
  import opened Ast
  import opened Cursors

  /** The `[In]`, `[Yield]` and `[Await]` grammar parameters, passed by value. */
  datatype Context = Context(allowIn: bool, allowYield: bool, allowAwait: bool)

  /** A production parameterised by `[Yield]` and `[Await]` only. */
  type ExpressionParser = (seq<Token>, nat, bool, bool) -> Step<Node>

  /** A production parameterised by all three flags. */
  type ContextParser = (seq<Token>, nat, Context) -> Step<Node>

  datatype SubGrammar = SubGrammar(
    update: ExpressionParser,
    unary: ExpressionParser,
    initializer: ContextParser)

  /** Each sub-production keeps the progress contract from every position in any stream. */
  ghost predicate WellBehaved(g: SubGrammar) {
    && (forall ts: seq<Token>, p: nat, y: bool, a: bool | p <= |ts| :: Advances(g.update(ts, p, y, a), p, |ts|))
    && (forall ts: seq<Token>, p: nat, y: bool, a: bool | p <= |ts| :: Advances(g.unary(ts, p, y, a), p, |ts|))
    && (forall ts: seq<Token>, p: nat, ctx: Context | p <= |ts| :: Advances(g.initializer(ts, p, ctx), p, |ts|))
  }

  /** `UpdateExpression::parse`. */
  method UpdateExpression(c: Cursor, allowYield: bool, allowAwait: bool, g: SubGrammar) returns (r: ParseResult<Node>)
    requires c.Valid() && WellBehaved(g)
    modifies c
    ensures c.Valid() && Step(r, c.pos) == g.update(c.tokens, old(c.pos), allowYield, allowAwait)
    ensures old(c.pos) <= c.pos && (r.Ok? ==> old(c.pos) < c.pos)
    ensures !c.canBack
  {
    var s := g.update(c.tokens, c.pos, allowYield, allowAwait);
    c.pos, c.canBack := s.end, false;
    r := s.result;
  }

  /** `UnaryExpression::parse`. */
  method UnaryExpression(c: Cursor, allowYield: bool, allowAwait: bool, g: SubGrammar) returns (r: ParseResult<Node>)
    requires c.Valid() && WellBehaved(g)
    modifies c
    ensures c.Valid() && Step(r, c.pos) == g.unary(c.tokens, old(c.pos), allowYield, allowAwait)
    ensures old(c.pos) <= c.pos && (r.Ok? ==> old(c.pos) < c.pos)
    ensures !c.canBack
  {
    var s := g.unary(c.tokens, c.pos, allowYield, allowAwait);
    c.pos, c.canBack := s.end, false;
    r := s.result;
  }

  /** `Initializer::parse`, entered with the cursor on the `=` token. */
  method Initializer(c: Cursor, ctx: Context, g: SubGrammar) returns (r: ParseResult<Node>)
    requires c.Valid() && WellBehaved(g)
    modifies c
    ensures c.Valid() && Step(r, c.pos) == g.initializer(c.tokens, old(c.pos), ctx)
    ensures old(c.pos) <= c.pos && (r.Ok? ==> old(c.pos) < c.pos)
    ensures !c.canBack
  {
    var s := g.initializer(c.tokens, c.pos, ctx);
    c.pos, c.canBack := s.end, false;
    r := s.result;
  }
}
