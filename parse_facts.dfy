/** What the parser does at the edges: where each loop stops without
    consuming anything, which error `expect` and `parseBlock` raise, and
    the whole-program result of `parse`. */
module ParseFacts {
  import opened Tokens
  import opened Tree
  import opened ParseSpec
  import opened ParseProps

  /** `parse` (parse.js:40-47): on success the body's leaves are exactly
      the elements consumed, from the first one on, and it is a body of
      statements. */
  lemma ParseConserves(elems: seq<Elem>)
    ensures var r := Parse(elems);
      r.Ok? ==> Leaves(r.value.0) == elems[..r.value.1] && IsBody(r.value.0)
  {
    BlockShape(elems, 0);
    var r := Parse(elems);
    if r.Ok? {
      CoversSlice(elems, 0, r.value.0, r.value.1);
    }
  }

  /** The loop of `parseBlock` (parse.js:51-66) returns at once, with the
      statements it was given, exactly at the end of the input or before
      `end`, `elseif` or `else`. */
  lemma BlockLoopStops(elems: seq<Elem>, pos: nat, kids: seq<Child>)
    requires pos <= |elems|
    ensures BlockLoopF(elems, pos, kids) == Ok((kids, pos)) <==> AtBlockEnd(elems, pos)
  {
    if !AtBlockEnd(elems, pos) {
      BlockLoopMoves(elems, pos, kids);
    }
  }

  /** Away from the end of a block the loop either fails or parses a
      statement, which consumes at least one element. */
  lemma BlockLoopMoves(elems: seq<Elem>, pos: nat, kids: seq<Child>)
    requires pos <= |elems| && !AtBlockEnd(elems, pos)
    ensures var r := BlockLoopF(elems, pos, kids);
      r.Ok? ==> pos < r.value.1
  {
    var tok := PeekToken(elems, pos);
    if !(tok.Some? && tok.value.kind != Ident && !TestKeyword(tok, ["for"]) && !TestKeyword(tok, ["if"])) {
      var s := if TestKeyword(tok, ["for"]) then ParseForF(elems, pos)
               else if TestKeyword(tok, ["if"]) then ParseIfF(elems, pos)
               else ParseFunctionCallF(elems, pos);
      if s.Ok? {
        BlockLoopDef(elems, pos, kids);
        assert pos < s.value.1;
      }
    }
  }

  /** `tryParseOp` (parse.js:153-171) leaves the expression and the
      cursor as they are exactly when no binary operator follows. */
  lemma TryParseOpKeeps(elems: seq<Elem>, pos: nat, kids: seq<Child>)
    requires pos <= |elems| && |kids| > 0
    ensures TryParseOpF(elems, pos, kids) == Ok((kids, pos)) <==> !NextIsBinaryOp(elems, pos)
  {
    if NextIsBinaryOp(elems, pos) {
      OpDef(elems, pos, kids);
      var (k, op, p) := NextTokenF(elems, pos, [kids[|kids| - 1]]).value;
      var rhs := ParseExprF(elems, p);
      if rhs.Ok? {
        assert pos < p < rhs.value.1;
      }
    }
  }

  /** The `elseif` loop (parse.js:195-197) adds nothing exactly when the
      next token is not the keyword `elseif`. */
  lemma ElseIfLoopStops(elems: seq<Elem>, pos: nat, kids: seq<Child>)
    requires pos <= |elems|
    ensures ElseIfLoopF(elems, pos, kids) == Ok((kids, pos)) <==> !TestKeyword(PeekToken(elems, pos), ["elseif"])
  {
    if TestKeyword(PeekToken(elems, pos), ["elseif"]) {
      ElseIfLoopDef(elems, pos, kids);
      var s := ParseElseIfF(elems, pos);
      if s.Ok? {
        assert pos < s.value.1;
      }
    }
  }

  /** The `else` part (parse.js:198-202) adds nothing exactly when the
      next token is not the keyword `else`. */
  lemma ElseBranchStops(elems: seq<Elem>, pos: nat, kids: seq<Child>)
    requires pos <= |elems|
    ensures ElseBranchF(elems, pos, kids) == Ok((kids, pos)) <==> !TestKeyword(PeekToken(elems, pos), ["else"])
  {
    if TestKeyword(PeekToken(elems, pos), ["else"]) {
      ElseBranchDef(elems, pos, kids);
      var a := ExpectF(elems, pos, [], Keyword, "else");
      if a.Ok? {
        var body := ParseBlockF(elems, a.value.1);
        if body.Ok? {
          assert pos < a.value.1 <= body.value.1;
        }
      }
    }
  }

  /** `expect` (parse.js:123-132) reports the end of the input when no
      token is left, then a token of the wrong kind, then one of the
      right kind with the wrong text. */
  lemma ExpectErrorKind(elems: seq<Elem>, pos: nat, kids: seq<Child>, kind: TokenKind, text: string)
    requires pos <= |elems|
    ensures var r := ExpectF(elems, pos, kids, kind, text);
      var t := PeekToken(elems, pos);
      r.Err? <==> t != Some(Token(kind, text))
    ensures var r := ExpectF(elems, pos, kids, kind, text);
      var t := PeekToken(elems, pos);
      r.Err? ==>
        r.error.kind == (if t.None? then UnexpectedEof
                         else if t.value.kind != kind then UnexpectedToken
                         else UnexpectedValue)
  {
    var nt := NextTokenF(elems, pos, kids);
    if nt.Ok? {
      var (k, t, p) := nt.value;
      assert PeekToken(elems, pos) == Some(t);
    }
  }

  /** `parseBlock` (parse.js:62-64) rejects any token it cannot start a
      statement with, naming that token. */
  lemma UnknownTokenError(elems: seq<Elem>, pos: nat, kids: seq<Child>)
    requires pos <= |elems|
    ensures var t := PeekToken(elems, pos);
      t.Some? && t.value.kind != Ident && !TestKeyword(t, ["for", "if", "end", "elseif", "else"]) ==>
        BlockLoopF(elems, pos, kids) == Err(ParseError(UnknownToken, t, TokenIndex(elems, pos).value))
  {
    var t := PeekToken(elems, pos);
    if t.Some? && t.value.kind != Ident && !TestKeyword(t, ["for", "if", "end", "elseif", "else"]) {
      assert !TestKeyword(t, ["for"]) && !TestKeyword(t, ["if"]);
      assert !TestKeyword(t, ["end", "elseif", "else"]);
    }
  }

  /** A program whose first token closes a block parses to an empty body
      and consumes nothing: `parse` (parse.js:40-47) does not check that
      the input was used up. */
  lemma StrayEnd(elems: seq<Elem>)
    requires TestKeyword(PeekToken(elems, 0), ["end", "elseif", "else"])
    ensures Parse(elems) == Ok((Node(Body, []), 0))
  {
    BlockLoopStops(elems, 0, []);
  }
}
