/** The token cursor the recursive-descent parser is built on: a fixed token
    sequence and the index of the next token. The parse* methods themselves
    are not part of this model. */
module Parsing {
  import opened Wrappers
  import opened Tokens

  class Parser {
    const tokens: seq<Token>
    var current: nat

    /** Advance never moves past the end, so the cursor stays in range. */
    ghost predicate Valid()
      reads this
    {
      current <= |tokens|
    }

    constructor (tokens: seq<Token>)
      ensures this.tokens == tokens && current == 0
      ensures Valid()
    {
      this.tokens := tokens;
      current := 0;
    }

    function IsAtEnd(): (b: bool)
      reads this
      ensures b <==> current >= |tokens|
    {
      current >= |tokens|
    }

    /** The next token, or the last one once the cursor is at the end.
        The vector is never indexed past its end. */
    function Peek(): (t: Token)
      reads this
      requires |tokens| > 0
      ensures t in tokens
      ensures current < |tokens| ==> t == tokens[current]
      ensures current >= |tokens| ==> t == tokens[|tokens| - 1]
    {
      if !IsAtEnd() then tokens[current] else tokens[|tokens| - 1]
    }

    /** Whether the next token has the given kind; never at the end. */
    function Check(kind: TokenKind): (b: bool)
      reads this
      ensures b <==> current < |tokens| && tokens[current].kind == kind
      ensures b ==> !IsAtEnd()
    {
      if IsAtEnd() then false else tokens[current].kind == kind
    }

    /** tokens.at(current - 1): with an unsigned cursor, 0 - 1 wraps to the
        largest value, which `at` refuses like any index past the end. */
    function Previous(): (r: Result<Token>)
      reads this
      ensures r.Ok? <==> 0 < current <= |tokens|
      ensures r.Ok? ==> r.value == tokens[current - 1]
      ensures r.Err? ==> r.error == OutOfRange
    {
      if 0 < current <= |tokens| then Ok(tokens[current - 1]) else Err(OutOfRange)
    }

    /** The token under the cursor, stepping over it unless at the end. */
    method Advance() returns (t: Token)
      requires Valid() && |tokens| > 0
      modifies this
      ensures Valid()
      ensures t == old(Peek())
      ensures current == if old(IsAtEnd()) then old(current) else old(current) + 1
      ensures !old(IsAtEnd()) ==> Previous() == Ok(t)
    {
      if !IsAtEnd() {
        t := tokens[current];
        current := current + 1;
        return;
      }
      t := tokens[|tokens| - 1];
    }

    /** The first listed kind the next token has is consumed; Match returns
        whether there was one, and moves by one token exactly then. */
    method Match(types: seq<TokenKind>) returns (b: bool)
      requires Valid() && |tokens| > 0
      modifies this
      ensures Valid()
      ensures b <==> old(current) < |tokens| && tokens[old(current)].kind in types
      ensures current == if b then old(current) + 1 else old(current)
      ensures b ==> Previous() == Ok(old(Peek()))
    {
      var i := 0;
      while i < |types|
        invariant 0 <= i <= |types|
        invariant current == old(current)
        invariant forall j :: 0 <= j < i ==> IsAtEnd() || tokens[current].kind != types[j]
      {
        if !IsAtEnd() && Peek().kind == types[i] {
          var _ := Advance();
          return true;
        }
        i := i + 1;
      }
      return false;
    }

    /** Steps over a token of the expected kind, or fails with the message
        and the lexeme of the token found instead. */
    method Consume(kind: TokenKind, message: string) returns (r: Option<Error>)
      requires Valid() && |tokens| > 0
      modifies this
      ensures Valid()
      ensures r.None? <==> old(Check(kind))
      ensures r.None? ==> current == old(current) + 1
      ensures r.None? ==> Previous() == Ok(old(Peek()))
      ensures r.Some? ==> current == old(current)
      ensures r.Some? ==> r.value == ParseFailure(message + " instead found " + old(Peek()).lexeme)
    {
      if Check(kind) {
        var _ := Advance();
        return None;
      }
      return Some(ParseFailure(message + " instead found " + Peek().lexeme));
    }
  }
}
