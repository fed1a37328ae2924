# Exponentiation and variable statements in the boa ECMAScript parser, in Dafny

This project models two recursive-descent productions of boa's ECMAScript parser. Both parse
over a token cursor and return either a syntax-tree node or a parse error.

- **`ExponentiationExpression`** (section 13.6 of ECMA-262). If the next token is a unary
  operator (`delete`, `void`, `typeof`, `+`, `-`, `!`, `~`), the whole parse goes to
  UnaryExpression. Otherwise the production parses an UpdateExpression as the left operand and
  consumes one more token. If that token is `**`, the production calls itself for the right
  operand, so `**` groups to the right. If it is not, the production pushes it back.
- **`VariableStatement`, `VariableDeclarationList` and `VariableDeclaration`** (section 14.3.2
  of ECMA-262). A statement is `var` followed by a non-empty, comma-separated list of
  identifiers, each with an optional initializer. The list ends where the cursor says the
  statement can end: at `;`, at `}`, at the end of the input, or before a token on a new line.
  This is boa's simplified form of the automatic semicolon insertion rules of section 12.10 of
  ECMA-262: it ends the statement before any token on a new line, whether or not the grammar
  allows that token there.

Layout:

- `tokens.dfy`: tokens (`Tokens`), diagnostics and results (`Errors`), `Option` (`Wrappers`) and
  syntax-tree nodes (`Ast`).
- `cursor.dfy` (`Cursors`): the operations the two productions use, as pure functions of the
  token sequence and a position. The `Cursor` class performs them in place. It holds the
  tokens, the position and a one-slot pushback flag.
- `grammar.dfy` (`Grammar`): the `[In]`/`[Yield]`/`[Await]` context and the sub-productions
  these two files call but do not define (UpdateExpression, UnaryExpression, Initializer).
- `exponentiation.dfy` (`Exponentiation`) and `variable.dfy` (`Variables`): the productions.

Each production is an imperative method that drives the cursor as the source does. Its
postcondition says that its result and the final cursor position equal a pure reference
function (`ExponentiationSpec`, `DeclarationSpec`, `DeclarationListSpec`,
`VariableStatementSpec`). The properties are proved about those functions.

UpdateExpression, UnaryExpression and Initializer are given as function-valued fields of a
`SubGrammar`. Each maps the tokens, the position and the flags to a result and an end position.
The only assumption about them is `WellBehaved`:
- the cursor never moves back and never leaves the stream;
- a success consumes at least one token.

Every theorem therefore holds for any sub-grammar with that progress property.

Behaviour of the code as written:

- `VariableDeclaration` only peeks at the `=`. The initializer is entered on the `=` token,
  not after it.
- The list loop tests "the statement can end here" before it tests for a comma. So a comma that
  starts a new line ends the statement in front of the comma (`NewlineBeforeCommaEndsStatement`).
  Here boa and the standard differ. Section 12.10.1 of ECMA-262 inserts a semicolon before a
  token on a new line only when the grammar does not allow that token, and a `,` is allowed
  after a declarator. So by the standard, `var x` then `, y;` on the next line is one statement
  declaring both `x` and `y`.
- The closing `expect_semicolon` in `VariableStatement` never fails, because the list stops only
  where the statement can end (`StatementIsItsList`). The model still propagates its error as
  the source's `?` does.
- `unreachable!()` in the list loop is also provably dead: `CanTerminate` never answers "cannot
  end" without a token.

## Model

| member | source | states |
|---|---|---|
| Cursors.CanTerminate | boa/src/syntax/parser/statement/variable.rs:105-121 | the statement can end exactly at `;`, `}`, the end of input, or (when not strict) before a token on a new line; it returns the next token, and "cannot end" always comes with a token, so the `unreachable!()` arm is dead |
| Cursors.ExpectAt | boa/src/syntax/parser/statement/variable.rs:47 | `expect` succeeds exactly when the next token has the expected kind; it gives abrupt end exactly at the end of input, and otherwise an expected-that-kind error with the found token, its position and the label; one token is consumed when there is one |
| Cursors.ExpectSemicolonAt | boa/src/syntax/parser/statement/variable.rs:52 | `expect_semicolon` succeeds exactly where the statement can end; it consumes an explicit `;` and nothing else; a failure is expected {";"} with the found token, its position and the label |
| Cursors.Cursor.Peek | boa/src/syntax/parser/statement/variable.rs:178 | `peek(offset)` returns the token that many places ahead, or nothing past the end; it changes nothing |
| Cursors.Cursor.PeekSemicolon | boa/src/syntax/parser/statement/variable.rs:105 | `peek_semicolon` on the cursor is `CanTerminate` at its position and never answers (false, None) |
| Cursors.Cursor.Next | boa/src/syntax/parser/expression/assignment/exponentiation.rs:86 | `next` returns the token at the position and steps past it, or returns nothing at the end and stays; only after a token may `back` follow |
| Cursors.Cursor.Back | boa/src/syntax/parser/expression/assignment/exponentiation.rs:94 | `back` is allowed only right after a `next` that returned a token, and it moves the position back by exactly one |
| Cursors.Cursor.Expect | boa/src/syntax/parser/statement/variable.rs:47 | the in-place `expect` has the result and final position of `ExpectAt`; `back` is allowed afterwards exactly when a token was consumed |
| Cursors.Cursor.ExpectSemicolon | boa/src/syntax/parser/statement/variable.rs:52 | the in-place `expect_semicolon` has the result and final position of `ExpectSemicolonAt`; consuming the `;` allows `back`, and consuming nothing leaves the pushback flag as it was |
| Cursors.BackThenNext | boa/src/syntax/parser/expression/assignment/exponentiation.rs:86-95 | `back` then `next` gives back the token the undone `next` returned and restores the position |
| Grammar.UpdateExpression | boa/src/syntax/parser/expression/assignment/exponentiation.rs:84-85 | the left operand's parse: on success the cursor strictly advances within bounds, and errors pass through unchanged; `back` is not allowed afterwards |
| Grammar.UnaryExpression | boa/src/syntax/parser/expression/assignment/exponentiation.rs:80-81 | the unary parse: on success the cursor strictly advances within bounds, and errors pass through unchanged; `back` is not allowed afterwards |
| Grammar.Initializer | boa/src/syntax/parser/statement/variable.rs:182-183 | the initializer parse, entered on the `=`: on success the cursor strictly advances within bounds, and errors pass through unchanged; `back` is not allowed afterwards |
| Exponentiation.IsUnaryExpression | boa/src/syntax/parser/expression/assignment/exponentiation.rs:57-72 | true exactly when the next token is `delete`, `void`, `typeof`, `+`, `-`, `!` or `~`; false at the end of the stream; it only peeks, so the cursor is untouched |
| Exponentiation.ExponentiationSpec | boa/src/syntax/parser/expression/assignment/exponentiation.rs:78-98 | every outcome keeps the progress contract: the cursor stays within the stream and a success consumes at least one token; this is the recursion's termination argument |
| Exponentiation.ExponentiationExpression | boa/src/syntax/parser/expression/assignment/exponentiation.rs:78-98 | the recursive in-place parse, with `next`/`back`, yields exactly the result and cursor position of `ExponentiationSpec` |
| Exponentiation.UnaryDelegation | boa/src/syntax/parser/expression/assignment/exponentiation.rs:79-82 | with a unary operator next, the result and cursor effect are exactly UnaryExpression's; no `**` is consumed by this production |
| Exponentiation.OperandAlone | boa/src/syntax/parser/expression/assignment/exponentiation.rs:86-97 | when no `**` follows the left operand (including at the end of input), the left operand is returned unchanged and the cursor is left just after it |
| Exponentiation.ErrorsPropagate | boa/src/syntax/parser/expression/assignment/exponentiation.rs:84-92 | an error of the left operand, or of the recursive right operand, is the production's outcome unchanged, with no node built |
| Exponentiation.ChainIsRightNested | boa/src/syntax/parser/expression/assignment/exponentiation.rs:86-92 | a chain `o1 ** o2 ** ... ** on` parses to `o1 ** (o2 ** (... ** on))` and ends after `on` |
| Exponentiation.RightAssociative | boa/src/syntax/parser/expression/assignment/exponentiation.rs:86-92 | `a ** b ** c` yields `BinOp(Exp, a, BinOp(Exp, b, c))` and never `BinOp(Exp, BinOp(Exp, a, b), c)` |
| Exponentiation.ForwardsFlags | boa/src/syntax/parser/expression/assignment/exponentiation.rs:80-91 | the production hands its own `[Yield]` and `[Await]` unchanged to UnaryExpression, UpdateExpression and itself; its outcome depends on them only under those flags |
| Variables.DeclarationSpec | boa/src/syntax/parser/statement/variable.rs:161-188 | a declaration keeps the progress contract, and on success its name is the identifier at the start position |
| Variables.DeclarationLoop | boa/src/syntax/parser/statement/variable.rs:97-125 | the loop keeps the progress contract; a success appends at least one declaration, keeps those already collected in front, puts first the identifier at the position where it started, and ends where the statement can end |
| Variables.DeclarationListSpec | boa/src/syntax/parser/statement/variable.rs:96-126 | a successful list is a `VarDecl` with at least one entry, ending where the statement can end; its entries are exactly the declarators, in source order (`ListIsDeclarators`) |
| Variables.ListIsItsDeclarators | boa/src/syntax/parser/statement/variable.rs:97-125 | over a chain of declarators separated by commas and followed by a place where the statement can end, the loop appends exactly those declarators to what it has collected, one entry each, in source order, and stops after the last |
| Variables.LoopIsAChain | boa/src/syntax/parser/statement/variable.rs:97-125 | conversely, every successful loop's new entries form such a chain of declarators ending where the loop stops: no entry is added, dropped or altered |
| Variables.ListIsDeclarators | boa/src/syntax/parser/statement/variable.rs:96-126 | the declaration list over a chain of declarators is `VarDecl` of exactly those declarators, initializers included, in source order |
| Variables.VariableStatementSpec | boa/src/syntax/parser/statement/variable.rs:46-55 | a successful statement starts with `var` and is a non-empty `VarDecl` |
| Variables.VariableDeclaration | boa/src/syntax/parser/statement/variable.rs:161-188 | the in-place declarator parse yields exactly the result and cursor position of `DeclarationSpec` |
| Variables.VariableDeclarationList | boa/src/syntax/parser/statement/variable.rs:96-126 | the `push` loop with its `break`/`return` exits yields exactly the result and cursor position of `DeclarationListSpec` |
| Variables.VariableStatement | boa/src/syntax/parser/statement/variable.rs:46-55 | the in-place statement parse yields exactly the result and cursor position of `VariableStatementSpec` |
| Variables.DeclarationErrors | boa/src/syntax/parser/statement/variable.rs:166-176 | abrupt end at the end of input; a non-identifier gives expected {identifier} with that token, its position and the label "variable declaration" |
| Variables.DeclarationInitializer | boa/src/syntax/parser/statement/variable.rs:178-187 | with `=` next, the initializer's node is returned in `Some` (or its error unchanged); otherwise `None`, with nothing beyond the identifier consumed |
| Variables.ListAfterDeclaration | boa/src/syntax/parser/statement/variable.rs:105-120 | after a declaration: where the statement can end, stop without consuming; at a comma, consume it and parse another; otherwise fail with expected {";", ","}, that token, its position and the label "lexical declaration" |
| Variables.StatementNeedsVar | boa/src/syntax/parser/statement/variable.rs:47 | without `var` first, the statement fails with expected `var` labelled "variable statement" (or abrupt end), before any declaration is parsed |
| Variables.StatementIsItsList | boa/src/syntax/parser/statement/variable.rs:49-54 | after `var`, the statement's result is the list's, parsed with `[In]` set and the statement's own flags; the closing `expect_semicolon` never fails and consumes only an explicit `;` |
| Variables.LoopForwardsContext | boa/src/syntax/parser/statement/variable.rs:99-103 | the list loop hands its context unchanged to every declaration and so to every initializer |
| Variables.StatementForwardsFlags | boa/src/syntax/parser/statement/variable.rs:49-50 | the statement passes `[In]` = true and its own `[Yield]`/`[Await]` down; its outcome depends on the sub-productions only under that context |
| Variables.SingleDeclaration | boa/src/syntax/parser/statement/variable.rs:97-125 | `var x;` is `[(x, None)]`, with the `;` consumed |
| Variables.TwoDeclarations | boa/src/syntax/parser/statement/variable.rs:97-125 | `var x = 1, y;` is `[(x, Some(init)), (y, None)]`, in source order |
| Variables.NewlineEndsStatement | boa/src/syntax/parser/statement/variable.rs:105-106 | `var x` followed by `y` on a new line ends before `y` |
| Variables.BraceEndsStatement | boa/src/syntax/parser/statement/variable.rs:105-106 | `var x }` ends before the `}` |
| Variables.EndOfInputEndsStatement | boa/src/syntax/parser/statement/variable.rs:105-106 | `var x` at the end of input is complete |
| Variables.MissingSeparator | boa/src/syntax/parser/statement/variable.rs:110-119 | `var x y` on one line fails with expected {";", ","} at `y`, labelled "lexical declaration" |
| Variables.MissingIdentifier | boa/src/syntax/parser/statement/variable.rs:166-176 | `var 5;` fails with expected {identifier} at the `5`, labelled "variable declaration" |
| Variables.NewlineBeforeCommaEndsStatement | boa/src/syntax/parser/statement/variable.rs:105-109 | the newline test comes before the comma test, so a comma on a new line ends the statement before it |
| Variables.ParseTwice | boa/src/syntax/parser/statement/variable.rs:46-55 | parsing the same tokens twice, each time with a fresh cursor, gives the same outcome |

## Left out

- The lexer. A token stream is a given sequence. Whether a line terminator precedes a token is a flag on the token, not a separate line-terminator token.
- The interner. Symbols are opaque integers.
- Error rendering. The found token is kept as its kind, not its displayed text. The expected set is a list of `Expectation` values, not strings.
- The cursor implementation. cursor.rs is not part of this model. The `Cursor` class covers only what these two files use. The uses of `peek` are at offset 0.
- The bodies of UpdateExpression, UnaryExpression and Initializer. Their files are not part of this model. They are pure functions of tokens, position and flags, known only by their progress contract. They clear the pushback flag.
- Grammar.UpdateExpression: promises only progress and error pass-through, not which expressions it accepts.
- Grammar.UnaryExpression: promises only progress and error pass-through, not which expressions it accepts.
- Grammar.Initializer: promises only progress and error pass-through, not which expressions it accepts.
- The `new` constructors and the `Into<Allow…>` conversions. The flags are plain booleans, passed as parameters or as a `Context` value.
- The meaning of `NumOp::Exp`. It is only a tag in the tree; nothing is evaluated.
- The `Interner` argument threaded through every `parse`. Nothing in these productions reads it except to render errors.
