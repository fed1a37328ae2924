/**
 * The exponentiation production (section 13.6 of ECMA-262):
 *
 *   ExponentiationExpression : UnaryExpression | UpdateExpression `**` ExponentiationExpression
 *
 * An expression that starts with a unary operator is handed to UnaryExpression whole, since a
 * unary expression cannot stand to the left of `**`. Otherwise an UpdateExpression is the left
 * operand and, when `**` follows, the production calls itself for the right operand, which
 * makes `**` right-associative.
 */
module Exponentiation {
  import opened Wrappers
  import opened Tokens
  import opened Errors
  import opened Ast
  import opened Cursors
  import opened Grammar

  /** The tokens that open a unary expression. */
  const UnaryOperators: set<TokenKind> := {
    Keyword(Delete), Keyword(Void), Keyword(TypeOf),
    Punctuator(Punctuator.Add), Punctuator(Punctuator.Sub), Punctuator(Not), Punctuator(Neg)
  }

  /**
   * `is_unary_expression`: whether the next token is a unary operator. It only peeks, so the
   * cursor is not touched; at the end of the stream the answer is no.
   */
  function IsUnaryExpression(tokens: seq<Token>, pos: nat): (b: bool)
    requires pos <= |tokens|
    ensures b <==> pos < |tokens| && tokens[pos].kind in UnaryOperators
    ensures pos == |tokens| ==> !b
  {
    match PeekAt(tokens, pos, 0)
    case Some(tok) =>
      (match tok.kind
       case Keyword(Delete) => true
       case Keyword(Void) => true
       case Keyword(TypeOf) => true
       case Punctuator(Add) => true
       case Punctuator(Sub) => true
       case Punctuator(Not) => true
       case Punctuator(Neg) => true
       case _ => false)
    case None => false
  }

  /** Whether the token at `pos` is the `**` punctuator. */
  predicate ExpOperatorAt(tokens: seq<Token>, pos: nat) {
    pos < |tokens| && tokens[pos].kind == Punctuator(Punctuator.Exp)
  }

  /**
   * What the production yields from `pos`: the result and the final cursor position. When
   * the token after the left operand is not `**` (or there is none), the production has
   * consumed it and pushed it back, so the cursor ends just after the left operand.
   */
  function ExponentiationSpec(g: SubGrammar, tokens: seq<Token>, pos: nat, allowYield: bool, allowAwait: bool): (s: Step<Node>)
    requires WellBehaved(g) && pos <= |tokens|
    ensures Advances(s, pos, |tokens|)
    decreases |tokens| - pos
  {
    if IsUnaryExpression(tokens, pos) then g.unary(tokens, pos, allowYield, allowAwait)
    else
      var lhs := g.update(tokens, pos, allowYield, allowAwait);
      if lhs.result.Err? then lhs
      else if ExpOperatorAt(tokens, lhs.end) then
        var rhs := ExponentiationSpec(g, tokens, lhs.end + 1, allowYield, allowAwait);
        if rhs.result.Err? then rhs
        else Step(Ok(ExpNode(lhs.result.value, rhs.result.value)), rhs.end)
      else lhs
  }

  /** `ExponentiationExpression::parse`, recursing on the cursor it mutates. */
  method ExponentiationExpression(c: Cursor, allowYield: bool, allowAwait: bool, g: SubGrammar) returns (r: ParseResult<Node>)
    requires c.Valid() && WellBehaved(g)
    modifies c
    ensures c.Valid()
    ensures Step(r, c.pos) == ExponentiationSpec(g, c.tokens, old(c.pos), allowYield, allowAwait)
    decreases |c.tokens| - c.pos
  {
    if IsUnaryExpression(c.tokens, c.pos) {
      r := UnaryExpression(c, allowYield, allowAwait, g);
      return;
    }
    var lhs := UpdateExpression(c, allowYield, allowAwait, g);
    if lhs.Err? {
      return Err(lhs.error);
    }
    var tok := c.Next();
    if tok.Some? {
      if tok.value.kind == Punctuator(Punctuator.Exp) {
        var rhs := ExponentiationExpression(c, allowYield, allowAwait, g);
        if rhs.Err? {
          return Err(rhs.error);
        }
        return Ok(ExpNode(lhs.value, rhs.value));
      } else {
        c.Back();
      }
    }
    r := lhs;
  }

  /** With a unary operator next, result and cursor effect are exactly UnaryExpression's. */
  lemma UnaryDelegation(g: SubGrammar, tokens: seq<Token>, pos: nat, allowYield: bool, allowAwait: bool)
    requires WellBehaved(g) && pos <= |tokens|
    requires IsUnaryExpression(tokens, pos)
    ensures ExponentiationSpec(g, tokens, pos, allowYield, allowAwait) == g.unary(tokens, pos, allowYield, allowAwait)
  {
  }

  /**
   * When the left operand is not followed by `**`, including at the end of the stream, the left
   * operand is the result, unchanged, and the cursor is left just after it.
   */
  lemma OperandAlone(g: SubGrammar, tokens: seq<Token>, pos: nat, allowYield: bool, allowAwait: bool)
    requires WellBehaved(g) && pos <= |tokens|
    requires !IsUnaryExpression(tokens, pos)
    requires g.update(tokens, pos, allowYield, allowAwait).result.Ok?
    requires !ExpOperatorAt(tokens, g.update(tokens, pos, allowYield, allowAwait).end)
    ensures ExponentiationSpec(g, tokens, pos, allowYield, allowAwait) == g.update(tokens, pos, allowYield, allowAwait)
  {
  }

  /** Errors of the left operand and of the right operand come out unchanged, and no node with them. */
  lemma ErrorsPropagate(g: SubGrammar, tokens: seq<Token>, pos: nat, allowYield: bool, allowAwait: bool)
    requires WellBehaved(g) && pos <= |tokens|
    requires !IsUnaryExpression(tokens, pos)
    ensures var lhs := g.update(tokens, pos, allowYield, allowAwait);
            lhs.result.Err? ==> ExponentiationSpec(g, tokens, pos, allowYield, allowAwait) == lhs
    ensures var lhs := g.update(tokens, pos, allowYield, allowAwait);
            lhs.result.Ok? && ExpOperatorAt(tokens, lhs.end) &&
            ExponentiationSpec(g, tokens, lhs.end + 1, allowYield, allowAwait).result.Err? ==>
              ExponentiationSpec(g, tokens, pos, allowYield, allowAwait) ==
              ExponentiationSpec(g, tokens, lhs.end + 1, allowYield, allowAwait)
  {
  }

  /** `o1 ** (o2 ** (... ** on))`: the right-nested tree over the operands, in order. */
  function RightFold(operands: seq<Node>): Node
    requires |operands| >= 1
  {
    if |operands| == 1 then operands[0] else ExpNode(operands[0], RightFold(operands[1..]))
  }

  /**
   * The stream from `pos` reads `o1 ** o2 ** ... ** on`, ending at `end`: each `oi` is what
   * UpdateExpression yields where it starts (not at a unary operator), consecutive operands are
   * separated by `**`, and no `**` follows the last one.
   */
  ghost predicate OperandChain(g: SubGrammar, tokens: seq<Token>, pos: nat, allowYield: bool, allowAwait: bool,
                               operands: seq<Node>, end: nat)
    requires WellBehaved(g) && pos <= |tokens|
    decreases |operands|
  {
    var lhs := g.update(tokens, pos, allowYield, allowAwait);
    && |operands| >= 1
    && !IsUnaryExpression(tokens, pos)
    && lhs.result == Ok(operands[0])
    && if |operands| == 1 then lhs.end == end && !ExpOperatorAt(tokens, end)
       else ExpOperatorAt(tokens, lhs.end) && OperandChain(g, tokens, lhs.end + 1, allowYield, allowAwait, operands[1..], end)
  }

  /** Right-associativity: a chain of `**` operands parses to the right-nested tree over them. */
  lemma {:induction false} ChainIsRightNested(g: SubGrammar, tokens: seq<Token>, pos: nat, allowYield: bool, allowAwait: bool,
                                              operands: seq<Node>, end: nat)
    requires WellBehaved(g) && pos <= |tokens|
    requires OperandChain(g, tokens, pos, allowYield, allowAwait, operands, end)
    ensures ExponentiationSpec(g, tokens, pos, allowYield, allowAwait) == Step(Ok(RightFold(operands)), end)
    decreases |operands|
  {
    var lhs := g.update(tokens, pos, allowYield, allowAwait);
    if |operands| > 1 {
      ChainIsRightNested(g, tokens, lhs.end + 1, allowYield, allowAwait, operands[1..], end);
    }
  }

  /** The number of binary-operation nodes in a tree, not counting inside declaration lists. */
  function OperatorCount(n: Node): nat {
    if n.BinOp? then 1 + OperatorCount(n.lhs) + OperatorCount(n.rhs) else 0
  }

  /** `a ** b ** c` parses as `a ** (b ** c)`, never as `(a ** b) ** c`. */
  lemma RightAssociative(g: SubGrammar, tokens: seq<Token>, pos: nat, allowYield: bool, allowAwait: bool,
                         a: Node, b: Node, c: Node, end: nat)
    requires WellBehaved(g) && pos <= |tokens|
    requires OperandChain(g, tokens, pos, allowYield, allowAwait, [a, b, c], end)
    ensures ExponentiationSpec(g, tokens, pos, allowYield, allowAwait) == Step(Ok(ExpNode(a, ExpNode(b, c))), end)
    ensures ExponentiationSpec(g, tokens, pos, allowYield, allowAwait).result != Ok(ExpNode(ExpNode(a, b), c))
  {
    ChainIsRightNested(g, tokens, pos, allowYield, allowAwait, [a, b, c], end);
    assert [a, b, c][1..] == [b, c] && [b, c][1..] == [c];
    assert RightFold([b, c]) == ExpNode(b, c);
    assert RightFold([a, b, c]) == ExpNode(a, ExpNode(b, c));
    assert OperatorCount(ExpNode(a, b)) > OperatorCount(a);
  }

  /**
   * The production forwards its `[Yield]` and `[Await]` flags unchanged: its outcome depends on
   * the sub-productions only through what they do under those same flags.
   */
  lemma {:induction false} ForwardsFlags(g1: SubGrammar, g2: SubGrammar, tokens: seq<Token>, pos: nat, allowYield: bool, allowAwait: bool)
    requires WellBehaved(g1) && WellBehaved(g2) && pos <= |tokens|
    requires forall q: nat :: g1.update(tokens, q, allowYield, allowAwait) == g2.update(tokens, q, allowYield, allowAwait)
    requires forall q: nat :: g1.unary(tokens, q, allowYield, allowAwait) == g2.unary(tokens, q, allowYield, allowAwait)
    ensures ExponentiationSpec(g1, tokens, pos, allowYield, allowAwait) == ExponentiationSpec(g2, tokens, pos, allowYield, allowAwait)
    decreases |tokens| - pos
  {
    var lhs := g1.update(tokens, pos, allowYield, allowAwait);
    if !IsUnaryExpression(tokens, pos) && lhs.result.Ok? && ExpOperatorAt(tokens, lhs.end) {
      ForwardsFlags(g1, g2, tokens, lhs.end + 1, allowYield, allowAwait);
    }
  }
}
