/**
 * The token cursor: a position over a fixed token sequence that moves forward and can retreat
 * one step. Only the operations the two productions use are modelled. The pure functions
 * state what each operation observes at a given position; the class performs them in place.
 */
module Cursors {
  import opened Wrappers
  import opened Tokens
  import opened Errors

  /** The token `offset` places after `pos`, if the stream is that long. */
  function PeekAt(tokens: seq<Token>, pos: nat, offset: nat): (r: Option<Token>)
    ensures r.Some? <==> pos + offset < |tokens|
    ensures r.Some? ==> r.value == tokens[pos + offset]
  {
    if pos + offset < |tokens| then Some(tokens[pos + offset]) else None
  }

  /** The punctuators that let a statement end just before them. */
  const StatementEnders: set<TokenKind> := {Punctuator(Semicolon), Punctuator(CloseBlock)}

  /**
   * `peek_semicolon`: whether a statement can end before the token at `pos`, together with that
   * token. It can end before `;` or `}`, at the end of the stream, and, unless `strict`, before
   * any token on a new line. This is boa's simplified form of the automatic semicolon insertion
   * rules of section 12.10 of ECMA-262, which insert a semicolon before a token on a new line
   * only when the grammar does not allow that token there. The answer "cannot end, and no token"
   * is impossible, since the end of the stream is a terminator.
   */
  function CanTerminate(tokens: seq<Token>, pos: nat, strict: bool): (r: (bool, Option<Token>))
    requires pos <= |tokens|
    ensures r.1 == PeekAt(tokens, pos, 0)
    ensures r.0 <==> pos == |tokens| || tokens[pos].kind in StatementEnders
                     || (!strict && tokens[pos].newlineBefore)
    ensures !r.0 ==> r.1.Some?
  {
    match PeekAt(tokens, pos, 0)
    case None => (true, None)
    case Some(tk) =>
      if tk.kind == Punctuator(Semicolon) || tk.kind == Punctuator(CloseBlock) then (true, Some(tk))
      else if !strict && tk.newlineBefore then (true, Some(tk))
      else (false, Some(tk))
  }

  /** `expect`: consume the next token and fail unless it is `kind`. */
  function ExpectAt(tokens: seq<Token>, pos: nat, kind: TokenKind, context: string): (s: Step<()>)
    requires pos <= |tokens|
    ensures Advances(s, pos, |tokens|)
    ensures s.result.Ok? <==> pos < |tokens| && tokens[pos].kind == kind
    ensures s.result == Err(AbruptEnd) <==> pos == |tokens|
    ensures pos < |tokens| ==> s.end == pos + 1
    ensures s.result.Err? && pos < |tokens| ==>
              s.result.error == Expected([ExpectedToken(kind)], tokens[pos].kind, tokens[pos].pos, context)
  {
    if pos == |tokens| then Step(Err(AbruptEnd), pos)
    else if tokens[pos].kind == kind then Step(Ok(()), pos + 1)
    else Step(Err(Expected([ExpectedToken(kind)], tokens[pos].kind, tokens[pos].pos, context)), pos + 1)
  }

  /**
   * `expect_semicolon`: succeed exactly where a statement can end, consuming the token only
   * when it is an explicit `;`; otherwise fail with an expected-`;` diagnostic.
   */
  function ExpectSemicolonAt(tokens: seq<Token>, pos: nat, strict: bool, context: string): (s: Step<()>)
    requires pos <= |tokens|
    ensures s.result.Ok? <==> CanTerminate(tokens, pos, strict).0
    ensures s.end == pos || (s.end == pos + 1 && pos < |tokens| && tokens[pos].kind == Punctuator(Semicolon))
    ensures s.result.Ok? && pos < |tokens| && tokens[pos].kind == Punctuator(Semicolon) ==> s.end == pos + 1
    ensures s.result.Err? ==>
              pos < |tokens| &&
              s.result.error == Expected([ExpectedToken(Punctuator(Semicolon))], tokens[pos].kind, tokens[pos].pos, context)
  {
    var (term, tk) := CanTerminate(tokens, pos, strict);
    if term then
      if tk.Some? && tk.value.kind == Punctuator(Semicolon) then Step(Ok(()), pos + 1)
      else Step(Ok(()), pos)
    else
      Step(Err(Expected([ExpectedToken(Punctuator(Semicolon))], tk.value.kind, tk.value.pos, context)), pos)
  }

  class Cursor {
    const tokens: seq<Token>
    var pos: nat
    /** True exactly when the last operation was a `Next` that returned a token: `Back` may follow. */
    var canBack: bool

    ghost predicate Valid()
      reads this
    {
      pos <= |tokens| && (canBack ==> 0 < pos)
    }

    constructor (tokens: seq<Token>)
      ensures Valid() && this.tokens == tokens && pos == 0 && !canBack
    {
      this.tokens := tokens;
      pos := 0;
      canBack := false;
    }

    /** `peek(offset)`: look ahead without consuming. */
    function Peek(offset: nat): (r: Option<Token>)
      reads this
      requires Valid()
      ensures r.Some? <==> pos + offset < |tokens|
      ensures r.Some? ==> r.value == tokens[pos + offset]
    {
      PeekAt(tokens, pos, offset)
    }

    /** `peek_semicolon(strict)`. */
    function PeekSemicolon(strict: bool): (r: (bool, Option<Token>))
      reads this
      requires Valid()
      ensures r == CanTerminate(tokens, pos, strict)
      ensures !r.0 ==> r.1.Some?
    {
      CanTerminate(tokens, pos, strict)
    }

    /** `next()`: consume and return the next token, or nothing at the end of the stream. */
    method Next() returns (t: Option<Token>)
      requires Valid()
      modifies this
      ensures Valid()
      ensures t == PeekAt(tokens, old(pos), 0)
      ensures pos == if t.Some? then old(pos) + 1 else old(pos)
      ensures canBack == t.Some?
    {
      if pos < |tokens| {
        t := Some(tokens[pos]);
        pos := pos + 1;
        canBack := true;
      } else {
        t := None;
        canBack := false;
      }
    }

    /** `back()`: undo the `Next` just performed; allowed only directly after it. */
    method Back()
      requires Valid() && canBack
      modifies this
      ensures Valid() && pos == old(pos) - 1 && !canBack
    {
      pos := pos - 1;
      canBack := false;
    }

    /** `expect(kind, context)`. */
    method Expect(kind: TokenKind, context: string) returns (r: ParseResult<()>)
      requires Valid()
      modifies this
      ensures Valid()
      ensures Step(r, pos) == ExpectAt(tokens, old(pos), kind, context)
      ensures canBack == (old(pos) < |tokens|)
    {
      var t := Next();
      if t.None? {
        r := Err(AbruptEnd);
      } else if t.value.kind == kind {
        r := Ok(());
      } else {
        r := Err(Expected([ExpectedToken(kind)], t.value.kind, t.value.pos, context));
      }
    }

    /** `expect_semicolon(strict, context)`. */
    method ExpectSemicolon(strict: bool, context: string) returns (r: ParseResult<()>)
      requires Valid()
      modifies this
      ensures Valid()
      ensures Step(r, pos) == ExpectSemicolonAt(tokens, old(pos), strict, context)
      ensures pos == old(pos) + 1 ==> canBack
      ensures pos == old(pos) ==> canBack == old(canBack)
    {
      var (term, tk) := PeekSemicolon(strict);
      if term {
        if tk.Some? && tk.value.kind == Punctuator(Semicolon) {
          var _ := Next();
        }
        r := Ok(());
      } else {
        r := Err(Expected([ExpectedToken(Punctuator(Semicolon))], tk.value.kind, tk.value.pos, context));
      }
    }
  }

  /**
   * `back()` followed by `next()` gives back the token the undone `next()` returned and
   * puts the cursor where it was before the pair.
   */
  method BackThenNext(c: Cursor) returns (t: Option<Token>)
    requires c.Valid() && c.canBack
    modifies c
    ensures c.Valid() && c.pos == old(c.pos) && c.canBack
    ensures t == Some(c.tokens[old(c.pos) - 1])
  {
    c.Back();
    t := c.Next();
  }
}
