/**
 * The variable statement productions (section 14.3.2 of ECMA-262):
 *
 *   VariableStatement       : `var` VariableDeclarationList `;`
 *   VariableDeclarationList : VariableDeclaration | VariableDeclarationList `,` VariableDeclaration
 *   VariableDeclaration     : BindingIdentifier Initializer?
 *
 * The list ends where the cursor says the statement can end. That test is boa's simplified form
 * of the automatic semicolon insertion rules of section 12.10 of ECMA-262: it ends the statement
 * before any token on a new line, even one the grammar allows there, such as a `,`.
 */
module Variables {
  import opened Wrappers
  import opened Tokens
  import opened Errors
  import opened Ast
  import opened Cursors
  import opened Grammar

  /** One declarator: the declared name and its initializer, if any. */
  type Declaration = (Sym, Option<Node>)

  const SemicolonOrComma: seq<Expectation> :=
    [ExpectedToken(Punctuator(Semicolon)), ExpectedToken(Punctuator(Comma))]

  /**
   * `VariableDeclaration::parse` from `pos`: one identifier, then the initializer when the
   * next token is `=`. The `=` is only peeked here; the initializer starts on it.
   */
  function DeclarationSpec(g: SubGrammar, tokens: seq<Token>, pos: nat, ctx: Context): (s: Step<Declaration>)
    requires WellBehaved(g) && pos <= |tokens|
    ensures Advances(s, pos, |tokens|)
    ensures s.result.Ok? ==> tokens[pos].kind == Identifier(s.result.value.0)
  {
    if pos == |tokens| then Step(Err(AbruptEnd), pos)
    else
      var tok := tokens[pos];
      if !tok.kind.Identifier? then
        Step(Err(Expected([ExpectedIdentifier], tok.kind, tok.pos, "variable declaration")), pos + 1)
      else
        var next := PeekAt(tokens, pos + 1, 0);
        if next.Some? && next.value.kind == Punctuator(Assign) then
          var init := g.initializer(tokens, pos + 1, ctx);
          if init.result.Err? then Step(Err(init.result.error), init.end)
          else Step(Ok((tok.kind.name, Some(init.result.value))), init.end)
        else Step(Ok((tok.kind.name, None)), pos + 1)
  }

  /**
   * The declaration-list loop entered at `pos` with the declarations `list` already collected.
   * A success appends at least one declaration to `list`, keeps `list` as it was in front, and
   * ends where the statement can end.
   */
  function DeclarationLoop(g: SubGrammar, tokens: seq<Token>, pos: nat, ctx: Context, list: seq<Declaration>): (s: Step<Node>)
    requires WellBehaved(g) && pos <= |tokens|
    ensures Advances(s, pos, |tokens|)
    ensures s.result.Ok? ==> (s.result.value.VarDecl?
                              && |list| < |s.result.value.declarations|
                              && s.result.value.declarations[..|list|] == list)
    ensures s.result.Ok? ==> tokens[pos].kind == Identifier(s.result.value.declarations[|list|].0)
    ensures s.result.Ok? ==> CanTerminate(tokens, s.end, false).0
    decreases |tokens| - pos
  {
    var decl := DeclarationSpec(g, tokens, pos, ctx);
    if decl.result.Err? then Step(Err(decl.result.error), decl.end)
    else
      var list' := list + [decl.result.value];
      var (term, tk) := CanTerminate(tokens, decl.end, false);
      if term then Step(Ok(VarDecl(list')), decl.end)
      else if tk.value.kind == Punctuator(Comma) then DeclarationLoop(g, tokens, decl.end + 1, ctx, list')
      else Step(Err(Expected(SemicolonOrComma, tk.value.kind, tk.value.pos, "lexical declaration")), decl.end)
  }

  /** `VariableDeclarationList::parse` from `pos`: a non-empty list, ending where the statement can end. */
  function DeclarationListSpec(g: SubGrammar, tokens: seq<Token>, pos: nat, ctx: Context): (s: Step<Node>)
    requires WellBehaved(g) && pos <= |tokens|
    ensures Advances(s, pos, |tokens|)
    ensures s.result.Ok? ==> s.result.value.VarDecl? && |s.result.value.declarations| >= 1
    ensures s.result.Ok? ==> CanTerminate(tokens, s.end, false).0
  {
    DeclarationLoop(g, tokens, pos, ctx, [])
  }

  /**
   * `VariableStatement::parse` from `pos`: `var`, then the list with `[In]` set and the
   * statement's own `[Yield]` and `[Await]`, then the statement end.
   */
  function VariableStatementSpec(g: SubGrammar, tokens: seq<Token>, pos: nat, allowYield: bool, allowAwait: bool): (s: Step<Node>)
    requires WellBehaved(g) && pos <= |tokens|
    ensures Advances(s, pos, |tokens|)
    ensures s.result.Ok? ==> pos < |tokens| && tokens[pos].kind == Keyword(Var)
    ensures s.result.Ok? ==> s.result.value.VarDecl? && |s.result.value.declarations| >= 1
  {
    var kw := ExpectAt(tokens, pos, Keyword(Var), "variable statement");
    if kw.result.Err? then Step(Err(kw.result.error), kw.end)
    else
      var list := DeclarationListSpec(g, tokens, kw.end, Context(true, allowYield, allowAwait));
      if list.result.Err? then list
      else
        var semi := ExpectSemicolonAt(tokens, list.end, false, "variable statement");
        match semi.result
        case Err(e) => Step(Err(e), semi.end)
        case Ok(_) => Step(list.result, semi.end)
  }

  /** `VariableDeclaration::parse`. */
  method VariableDeclaration(c: Cursor, ctx: Context, g: SubGrammar) returns (r: ParseResult<Declaration>)
    requires c.Valid() && WellBehaved(g)
    modifies c
    ensures c.Valid()
    ensures Step(r, c.pos) == DeclarationSpec(g, c.tokens, old(c.pos), ctx)
  {
    var tok := c.Next();
    if tok.None? {
      return Err(AbruptEnd);
    }
    if !tok.value.kind.Identifier? {
      return Err(Expected([ExpectedIdentifier], tok.value.kind, tok.value.pos, "variable declaration"));
    }
    var name := tok.value.kind.name;
    var next := c.Peek(0);
    if next.Some? && next.value.kind == Punctuator(Assign) {
      var init := Initializer(c, ctx, g);
      if init.Err? {
        return Err(init.error);
      }
      return Ok((name, Some(init.value)));
    }
    r := Ok((name, None));
  }

  /** `VariableDeclarationList::parse`: push declarations until the statement can end. */
  method VariableDeclarationList(c: Cursor, ctx: Context, g: SubGrammar) returns (r: ParseResult<Node>)
    requires c.Valid() && WellBehaved(g)
    modifies c
    ensures c.Valid()
    ensures Step(r, c.pos) == DeclarationListSpec(g, c.tokens, old(c.pos), ctx)
  {
    var list: seq<Declaration> := [];
    while true
      invariant c.Valid()
      invariant DeclarationLoop(g, c.tokens, c.pos, ctx, list) == DeclarationListSpec(g, c.tokens, old(c.pos), ctx)
      decreases |c.tokens| - c.pos
    {
      var decl := VariableDeclaration(c, ctx, g);
      if decl.Err? {
        return Err(decl.error);
      }
      list := list + [decl.value];
      var (term, tk) := c.PeekSemicolon(false);
      if term {
        break;
      }
      if tk.value.kind == Punctuator(Comma) {
        var _ := c.Next();
      } else {
        return Err(Expected(SemicolonOrComma, tk.value.kind, tk.value.pos, "lexical declaration"));
      }
    }
    r := Ok(VarDecl(list));
  }

  /** `VariableStatement::parse`. */
  method VariableStatement(c: Cursor, allowYield: bool, allowAwait: bool, g: SubGrammar) returns (r: ParseResult<Node>)
    requires c.Valid() && WellBehaved(g)
    modifies c
    ensures c.Valid()
    ensures Step(r, c.pos) == VariableStatementSpec(g, c.tokens, old(c.pos), allowYield, allowAwait)
  {
    var kw := c.Expect(Keyword(Var), "variable statement");
    if kw.Err? {
      return Err(kw.error);
    }
    var list := VariableDeclarationList(c, Context(true, allowYield, allowAwait), g);
    if list.Err? {
      return list;
    }
    var semi := c.ExpectSemicolon(false, "variable statement");
    match semi {
      case Err(e) => return Err(e);
      case Ok(_) =>
    }
    r := list;
  }

  /** Abrupt end of input, and a first token other than an identifier. */
  lemma DeclarationErrors(g: SubGrammar, tokens: seq<Token>, pos: nat, ctx: Context)
    requires WellBehaved(g) && pos <= |tokens|
    ensures pos == |tokens| ==> DeclarationSpec(g, tokens, pos, ctx) == Step(Err(AbruptEnd), pos)
    ensures pos < |tokens| && !tokens[pos].kind.Identifier? ==>
              DeclarationSpec(g, tokens, pos, ctx) ==
              Step(Err(Expected([ExpectedIdentifier], tokens[pos].kind, tokens[pos].pos, "variable declaration")), pos + 1)
  {
  }

  /**
   * After the identifier: with `=` next, the initializer's outcome decides (its node in `Some`,
   * or its error unchanged); otherwise the name alone, with only the identifier consumed.
   */
  lemma DeclarationInitializer(g: SubGrammar, tokens: seq<Token>, pos: nat, ctx: Context)
    requires WellBehaved(g) && pos < |tokens| && tokens[pos].kind.Identifier?
    ensures var name := tokens[pos].kind.name;
            var init := g.initializer(tokens, pos + 1, ctx);
            pos + 1 < |tokens| && tokens[pos + 1].kind == Punctuator(Assign) ==>
              DeclarationSpec(g, tokens, pos, ctx) ==
              Step(if init.result.Ok? then Ok((name, Some(init.result.value))) else Err(init.result.error), init.end)
    ensures !(pos + 1 < |tokens| && tokens[pos + 1].kind == Punctuator(Assign)) ==>
              DeclarationSpec(g, tokens, pos, ctx) == Step(Ok((tokens[pos].kind.name, None)), pos + 1)
  {
  }

  /**
   * One turn of the list loop after a declaration: stop without consuming where the statement
   * can end; consume a comma and go on; otherwise fail with expected `;` or `,` at the token.
   */
  lemma ListAfterDeclaration(g: SubGrammar, tokens: seq<Token>, pos: nat, ctx: Context, list: seq<Declaration>)
    requires WellBehaved(g) && pos <= |tokens|
    requires DeclarationSpec(g, tokens, pos, ctx).result.Ok?
    ensures var d := DeclarationSpec(g, tokens, pos, ctx);
            CanTerminate(tokens, d.end, false).0 ==>
              DeclarationLoop(g, tokens, pos, ctx, list) == Step(Ok(VarDecl(list + [d.result.value])), d.end)
    ensures var d := DeclarationSpec(g, tokens, pos, ctx);
            !CanTerminate(tokens, d.end, false).0 && tokens[d.end].kind == Punctuator(Comma) ==>
              DeclarationLoop(g, tokens, pos, ctx, list) == DeclarationLoop(g, tokens, d.end + 1, ctx, list + [d.result.value])
    ensures var d := DeclarationSpec(g, tokens, pos, ctx);
            !CanTerminate(tokens, d.end, false).0 && tokens[d.end].kind != Punctuator(Comma) ==>
              DeclarationLoop(g, tokens, pos, ctx, list) ==
              Step(Err(Expected(SemicolonOrComma, tokens[d.end].kind, tokens[d.end].pos, "lexical declaration")), d.end)
  {
  }

  /**
   * The stream from `pos` reads `d1 , d2 , ... , dn`, ending at `end`: each `di` is what
   * VariableDeclaration yields where it starts, consecutive declarators are separated by a comma
   * where the statement cannot end, and the statement can end after the last one.
   */
  ghost predicate DeclaratorChain(g: SubGrammar, tokens: seq<Token>, pos: nat, ctx: Context,
                                  decls: seq<Declaration>, end: nat)
    requires WellBehaved(g) && pos <= |tokens|
    decreases |decls|
  {
    var d := DeclarationSpec(g, tokens, pos, ctx);
    && |decls| >= 1
    && d.result == Ok(decls[0])
    && if |decls| == 1 then d.end == end && CanTerminate(tokens, end, false).0
       else !CanTerminate(tokens, d.end, false).0 && tokens[d.end].kind == Punctuator(Comma)
            && DeclaratorChain(g, tokens, d.end + 1, ctx, decls[1..], end)
  }

  /**
   * A chain of declarators is collected exactly: the loop appends them to `list`, one entry per
   * declarator, in source order, and nothing else, and stops after the last one.
   */
  lemma {:induction false} ListIsItsDeclarators(g: SubGrammar, tokens: seq<Token>, pos: nat, ctx: Context,
                                                list: seq<Declaration>, decls: seq<Declaration>, end: nat)
    requires WellBehaved(g) && pos <= |tokens|
    requires DeclaratorChain(g, tokens, pos, ctx, decls, end)
    ensures DeclarationLoop(g, tokens, pos, ctx, list) == Step(Ok(VarDecl(list + decls)), end)
    decreases |decls|
  {
    var d := DeclarationSpec(g, tokens, pos, ctx);
    if |decls| == 1 {
      assert decls == [decls[0]];
    } else {
      ListIsItsDeclarators(g, tokens, d.end + 1, ctx, list + [decls[0]], decls[1..], end);
      assert (list + [decls[0]]) + decls[1..] == list + decls;
    }
  }

  /**
   * Conversely, whatever the loop collects on success is a chain of declarators starting at
   * `pos` and ending where the loop stops: no entry is added, dropped or altered.
   */
  lemma {:induction false} LoopIsAChain(g: SubGrammar, tokens: seq<Token>, pos: nat, ctx: Context, list: seq<Declaration>)
    requires WellBehaved(g) && pos <= |tokens|
    requires DeclarationLoop(g, tokens, pos, ctx, list).result.Ok?
    ensures var s := DeclarationLoop(g, tokens, pos, ctx, list);
            DeclaratorChain(g, tokens, pos, ctx, s.result.value.declarations[|list|..], s.end)
    decreases |tokens| - pos
  {
    var s := DeclarationLoop(g, tokens, pos, ctx, list);
    var d := DeclarationSpec(g, tokens, pos, ctx);
    var list' := list + [d.result.value];
    var decls := s.result.value.declarations[|list|..];
    if CanTerminate(tokens, d.end, false).0 {
      assert decls == [d.result.value];
    } else {
      var r := DeclarationLoop(g, tokens, d.end + 1, ctx, list');
      LoopIsAChain(g, tokens, d.end + 1, ctx, list');
      var all := r.result.value.declarations;
      assert all[..|list'|] == list';
      assert decls[0] == d.result.value;
      assert decls[1..] == all[|list'|..];
    }
  }

  /** A declaration list over a chain of declarators is exactly those declarators, in source order. */
  lemma ListIsDeclarators(g: SubGrammar, tokens: seq<Token>, pos: nat, ctx: Context, decls: seq<Declaration>, end: nat)
    requires WellBehaved(g) && pos <= |tokens|
    requires DeclaratorChain(g, tokens, pos, ctx, decls, end)
    ensures DeclarationListSpec(g, tokens, pos, ctx) == Step(Ok(VarDecl(decls)), end)
  {
    ListIsItsDeclarators(g, tokens, pos, ctx, [], decls, end);
    assert [] + decls == decls;
  }

  /** Without `var` first, the statement fails before any declaration is parsed. */
  lemma StatementNeedsVar(g: SubGrammar, tokens: seq<Token>, pos: nat, allowYield: bool, allowAwait: bool)
    requires WellBehaved(g) && pos <= |tokens|
    ensures pos == |tokens| ==> VariableStatementSpec(g, tokens, pos, allowYield, allowAwait) == Step(Err(AbruptEnd), pos)
    ensures pos < |tokens| && tokens[pos].kind != Keyword(Var) ==>
              VariableStatementSpec(g, tokens, pos, allowYield, allowAwait) ==
              Step(Err(Expected([ExpectedToken(Keyword(Var))], tokens[pos].kind, tokens[pos].pos, "variable statement")), pos + 1)
  {
  }

  /**
   * After `var`, the statement's outcome is that of the declaration list parsed with `[In]` set
   * and the statement's own `[Yield]` and `[Await]`: the closing `expect_semicolon` never fails,
   * and it consumes an explicit `;` and nothing else.
   */
  lemma StatementIsItsList(g: SubGrammar, tokens: seq<Token>, pos: nat, allowYield: bool, allowAwait: bool)
    requires WellBehaved(g) && pos < |tokens| && tokens[pos].kind == Keyword(Var)
    ensures var list := DeclarationListSpec(g, tokens, pos + 1, Context(true, allowYield, allowAwait));
            var s := VariableStatementSpec(g, tokens, pos, allowYield, allowAwait);
            && s.result == list.result
            && s.end == if list.result.Ok? && list.end < |tokens| && tokens[list.end].kind == Punctuator(Semicolon)
                        then list.end + 1 else list.end
  {
  }

  /** The loop depends on the initializer only through what it does under the loop's own context. */
  lemma {:induction false} LoopForwardsContext(g1: SubGrammar, g2: SubGrammar, tokens: seq<Token>, pos: nat, ctx: Context, list: seq<Declaration>)
    requires WellBehaved(g1) && WellBehaved(g2) && pos <= |tokens|
    requires forall q: nat :: g1.initializer(tokens, q, ctx) == g2.initializer(tokens, q, ctx)
    ensures DeclarationLoop(g1, tokens, pos, ctx, list) == DeclarationLoop(g2, tokens, pos, ctx, list)
    decreases |tokens| - pos
  {
    var d := DeclarationSpec(g1, tokens, pos, ctx);
    assert d == DeclarationSpec(g2, tokens, pos, ctx);
    if d.result.Ok? && !CanTerminate(tokens, d.end, false).0 && tokens[d.end].kind == Punctuator(Comma) {
      LoopForwardsContext(g1, g2, tokens, d.end + 1, ctx, list + [d.result.value]);
    }
  }

  /**
   * The statement hands `[In]` = true and its own `[Yield]` and `[Await]` to the list, the
   * declarations and the initializer: its outcome depends on the sub-productions only through
   * the initializer under exactly that context.
   */
  lemma StatementForwardsFlags(g1: SubGrammar, g2: SubGrammar, tokens: seq<Token>, pos: nat, allowYield: bool, allowAwait: bool)
    requires WellBehaved(g1) && WellBehaved(g2) && pos <= |tokens|
    requires forall q: nat :: g1.initializer(tokens, q, Context(true, allowYield, allowAwait))
                              == g2.initializer(tokens, q, Context(true, allowYield, allowAwait))
    ensures VariableStatementSpec(g1, tokens, pos, allowYield, allowAwait) == VariableStatementSpec(g2, tokens, pos, allowYield, allowAwait)
  {
    if pos < |tokens| {
      LoopForwardsContext(g1, g2, tokens, pos + 1, Context(true, allowYield, allowAwait), []);
    }
  }

  /** `var x;` is the one-element list `[(x, None)]`, and the `;` is consumed. */
  lemma SingleDeclaration(g: SubGrammar, tokens: seq<Token>, x: Sym, allowYield: bool, allowAwait: bool)
    requires WellBehaved(g) && |tokens| >= 3
    requires tokens[0].kind == Keyword(Var) && tokens[1].kind == Identifier(x)
    requires tokens[2].kind == Punctuator(Semicolon)
    ensures VariableStatementSpec(g, tokens, 0, allowYield, allowAwait) == Step(Ok(VarDecl([(x, None)])), 3)
  {
  }

  /**
   * `var x = 1, y;` is `[(x, Some(init)), (y, None)]` in source order, where `init` is what the
   * initializer yields from the `=` through the `1`.
   */
  lemma TwoDeclarations(g: SubGrammar, tokens: seq<Token>, x: Sym, y: Sym, init: Node, allowYield: bool, allowAwait: bool)
    requires WellBehaved(g) && |tokens| >= 7
    requires tokens[0].kind == Keyword(Var) && tokens[1].kind == Identifier(x)
    requires tokens[2].kind == Punctuator(Assign)
    requires g.initializer(tokens, 2, Context(true, allowYield, allowAwait)) == Step(Ok(init), 4)
    requires tokens[4].kind == Punctuator(Comma) && !tokens[4].newlineBefore
    requires tokens[5].kind == Identifier(y) && tokens[6].kind == Punctuator(Semicolon)
    ensures VariableStatementSpec(g, tokens, 0, allowYield, allowAwait) == Step(Ok(VarDecl([(x, Some(init)), (y, None)])), 7)
  {
    var ctx := Context(true, allowYield, allowAwait);
    assert DeclarationSpec(g, tokens, 1, ctx) == Step(Ok((x, Some(init))), 4);
    assert DeclarationSpec(g, tokens, 5, ctx) == Step(Ok((y, None)), 6);
    ListAfterDeclaration(g, tokens, 1, ctx, []);
    ListAfterDeclaration(g, tokens, 5, ctx, [(x, Some(init))]);
    assert [] + [(x, Some(init))] == [(x, Some(init))];
    assert [(x, Some(init))] + [(y, None)] == [(x, Some(init)), (y, None)];
    assert DeclarationListSpec(g, tokens, 1, ctx) == Step(Ok(VarDecl([(x, Some(init)), (y, None)])), 6);
  }

  /** `var x` followed by `y` on the next line ends before `y`: automatic semicolon insertion. */
  lemma NewlineEndsStatement(g: SubGrammar, tokens: seq<Token>, x: Sym, y: Sym, allowYield: bool, allowAwait: bool)
    requires WellBehaved(g) && |tokens| >= 3
    requires tokens[0].kind == Keyword(Var) && tokens[1].kind == Identifier(x)
    requires tokens[2].kind == Identifier(y) && tokens[2].newlineBefore
    ensures VariableStatementSpec(g, tokens, 0, allowYield, allowAwait) == Step(Ok(VarDecl([(x, None)])), 2)
  {
  }

  /** `var x }` ends before the `}`, which is left for the enclosing block. */
  lemma BraceEndsStatement(g: SubGrammar, tokens: seq<Token>, x: Sym, allowYield: bool, allowAwait: bool)
    requires WellBehaved(g) && |tokens| >= 3
    requires tokens[0].kind == Keyword(Var) && tokens[1].kind == Identifier(x)
    requires tokens[2].kind == Punctuator(CloseBlock)
    ensures VariableStatementSpec(g, tokens, 0, allowYield, allowAwait) == Step(Ok(VarDecl([(x, None)])), 2)
  {
  }

  /** `var x` at the end of the input is a complete statement. */
  lemma EndOfInputEndsStatement(g: SubGrammar, tokens: seq<Token>, x: Sym, allowYield: bool, allowAwait: bool)
    requires WellBehaved(g) && |tokens| == 2
    requires tokens[0].kind == Keyword(Var) && tokens[1].kind == Identifier(x)
    ensures VariableStatementSpec(g, tokens, 0, allowYield, allowAwait) == Step(Ok(VarDecl([(x, None)])), 2)
  {
  }

  /** `var x y` on one line fails with expected `;` or `,` at `y`. */
  lemma MissingSeparator(g: SubGrammar, tokens: seq<Token>, x: Sym, y: Sym, allowYield: bool, allowAwait: bool)
    requires WellBehaved(g) && |tokens| >= 3
    requires tokens[0].kind == Keyword(Var) && tokens[1].kind == Identifier(x)
    requires tokens[2].kind == Identifier(y) && !tokens[2].newlineBefore
    ensures VariableStatementSpec(g, tokens, 0, allowYield, allowAwait) ==
            Step(Err(Expected(SemicolonOrComma, Identifier(y), tokens[2].pos, "lexical declaration")), 2)
  {
  }

  /** `var 5;` fails with expected identifier at the `5`. */
  lemma MissingIdentifier(g: SubGrammar, tokens: seq<Token>, allowYield: bool, allowAwait: bool)
    requires WellBehaved(g) && |tokens| >= 3
    requires tokens[0].kind == Keyword(Var) && tokens[1].kind == NumericLiteral(5)
    requires tokens[2].kind == Punctuator(Semicolon)
    ensures VariableStatementSpec(g, tokens, 0, allowYield, allowAwait) ==
            Step(Err(Expected([ExpectedIdentifier], NumericLiteral(5), tokens[1].pos, "variable declaration")), 2)
  {
  }

  /**
   * The newline test comes before the comma test, so a comma at the start of a new line ends the
   * statement in front of it: `var x` then `, y` on the next line declares only `x`. Section
   * 12.10.1 of ECMA-262 inserts a semicolon only before a token the grammar does not allow, and
   * a `,` is allowed after a declarator, so by the standard this is one statement declaring both.
   */
  lemma NewlineBeforeCommaEndsStatement(g: SubGrammar, tokens: seq<Token>, x: Sym, y: Sym, allowYield: bool, allowAwait: bool)
    requires WellBehaved(g) && |tokens| >= 4
    requires tokens[0].kind == Keyword(Var) && tokens[1].kind == Identifier(x)
    requires tokens[2].kind == Punctuator(Comma) && tokens[2].newlineBefore
    requires tokens[3].kind == Identifier(y)
    ensures VariableStatementSpec(g, tokens, 0, allowYield, allowAwait) == Step(Ok(VarDecl([(x, None)])), 2)
  {
  }

  /** Parsing the same tokens twice, each time with a fresh cursor, gives the same outcome. */
  method ParseTwice(tokens: seq<Token>, allowYield: bool, allowAwait: bool, g: SubGrammar) returns (r1: ParseResult<Node>, r2: ParseResult<Node>)
    requires WellBehaved(g)
    ensures r1 == r2
    ensures r1 == VariableStatementSpec(g, tokens, 0, allowYield, allowAwait).result
  {
    var c1 := new Cursor(tokens);
    r1 := VariableStatement(c1, allowYield, allowAwait, g);
    var c2 := new Cursor(tokens);
    r2 := VariableStatement(c2, allowYield, allowAwait, g);
  }
}
