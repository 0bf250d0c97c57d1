/** The recursive-descent parser of parse.js as pure functions over a
    cursor. The lexed elements are an immutable sequence and a cursor `pos`
    stands for what is left of the source's `$tokens` queue (the elements
    from `pos` on). Every production returns the node it built and the
    cursor after it, or the error the source throws. */
module ParseSpec {
  import opened Tokens
  import opened Tree

  datatype ErrorKind =
    | UnexpectedEof       // nextToken, parse.js:113-114
    | UnexpectedToken     // expect, parse.js:125-126
    | UnexpectedValue     // expect, parse.js:127-128
    | UnknownToken        // parseBlock, parse.js:63-64
    | ExpectedIdentifier  // parseLhs, parse.js:104-105

  /** What `err` throws: the message kind, the offending token (none at end
      of input) and the index of that token among the lexed elements. */
  datatype ParseError = ParseError(kind: ErrorKind, found: Option<Token>, at: nat)

  datatype Result<+T> = Ok(value: T) | Err(error: ParseError) {
    predicate IsFailure() {
      Err?
    }

    function PropagateFailure<U>(): Result<U>
      requires Err?
    {
      Err(error)
    }

    function Extract(): T
      requires Ok?
    {
      value
    }
  }

  /** An error raised while parsing from `pos`: it names a token at or
      after `pos`, or else the end of the input. */
  predicate Located(elems: seq<Elem>, pos: nat, e: ParseError) {
    pos <= e.at <= |elems| &&
    (e.found.None? <==> e.kind == UnexpectedEof) &&
    (e.found.None? ==> e.at == |elems|) &&
    (e.found.Some? ==> e.at < |elems| && elems[e.at] == Tok(e.found.value))
  }

  predicate NoTokens(elems: seq<Elem>, i: nat, j: nat)
    requires i <= j <= |elems|
  {
    forall k :: i <= k < j ==> !elems[k].Tok?
  }

  /** The index of the first real token at or after `pos`. */
  function TokenIndex(elems: seq<Elem>, pos: nat): (r: Option<nat>)
    requires pos <= |elems|
    ensures r.Some? ==> pos <= r.value < |elems| && elems[r.value].Tok? && NoTokens(elems, pos, r.value)
    ensures r.None? <==> NoTokens(elems, pos, |elems|)
    decreases |elems| - pos
  {
    if pos == |elems| then None
    else if elems[pos].Tok? then Some(pos)
    else TokenIndex(elems, pos + 1)
  }

  /** `peekToken` (parse.js:75-77): the first remaining element with the
      `token` class, without consuming anything. */
  function PeekToken(elems: seq<Elem>, pos: nat): (r: Option<Token>)
    requires pos <= |elems|
    ensures r.None? <==> NoTokens(elems, pos, |elems|)
  {
    match TokenIndex(elems, pos)
    case None => None
    case Some(i) => Some(elems[i].token)
  }

  /** `PeekToken` returns `t` exactly when `t` is the first remaining
      token: only non-token elements come before it. Kept apart from the
      contract of `PeekToken`, which every production mentions. */
  lemma PeekTokenFirst(elems: seq<Elem>, pos: nat, t: Token)
    requires pos <= |elems|
    ensures PeekToken(elems, pos) == Some(t) <==>
      exists i :: pos <= i < |elems| && elems[i] == Tok(t) && NoTokens(elems, pos, i)
  {
  }

  /** `testKeyword` (parse.js:79-86): a keyword token whose text is one of `words`. */
  predicate TestKeyword(t: Option<Token>, words: seq<string>) {
    t.Some? && t.value.kind == Keyword && t.value.text in words
  }

  /** The next token is one `tryParseOp` folds into an operator node. */
  predicate NextIsBinaryOp(elems: seq<Elem>, pos: nat)
    requires pos <= |elems|
  {
    var t := PeekToken(elems, pos);
    t.Some? && IsBinaryOp(t.value)
  }

  /** Where `parseBlock` stops (parse.js:53-60). */
  predicate AtBlockEnd(elems: seq<Elem>, pos: nat)
    requires pos <= |elems|
  {
    var t := PeekToken(elems, pos);
    t.None? || TestKeyword(t, ["end", "elseif", "else"])
  }


  // ---------------------------------------------------------------------
  // Consuming tokens

  /** Skipped elements, against the rest of the input. */
  lemma SkipRest(elems: seq<Elem>, pos: nat, i: nat, a: seq<Elem>, b: seq<Elem>)
    requires pos <= i <= |elems| && b == a + elems[pos..i]
    ensures b + elems[i..] == a + elems[pos..]
  {
    calc {
      b + elems[i..];
      a + (elems[pos..i] + elems[i..]);
      { assert elems[pos..i] + elems[i..] == elems[pos..]; }
      a + elems[pos..];
    }
  }

  /** `nextToken` (parse.js:110-121): the non-token elements in front of
      the next token go to the node being built, in order, and the token
      is consumed and returned (the caller decides where it goes). */
  function NextTokenF(elems: seq<Elem>, pos: nat, kids: seq<Child>): (r: Result<(seq<Child>, Token, nat)>)
    requires pos <= |elems|
    ensures r.Ok? <==> PeekToken(elems, pos).Some?
    ensures r.Err? ==> r.error == ParseError(UnexpectedEof, None, |elems|)
    ensures r.Ok? ==>
      var (k, t, p) := r.value;
      pos < p <= |elems| && elems[p - 1] == Tok(t) && PeekToken(elems, pos) == Some(t) &&
      ChildLeaves(k) == ChildLeaves(kids) + elems[pos..p - 1] && Sig(k) == Sig(kids) &&
      ChildLeaves(k) + elems[p - 1..] == ChildLeaves(kids) + elems[pos..]
  {
    match TokenIndex(elems, pos)
    case None => Err(ParseError(UnexpectedEof, None, |elems|))
    case Some(i) =>
      var k := kids + Wrap(elems[pos..i]);
      ChildLeavesAppend(kids, Wrap(elems[pos..i]));
      ChildLeavesWrap(elems[pos..i]);
      SigAppend(kids, Wrap(elems[pos..i]));
      SigWrapSkipped(elems[pos..i]);
      SkipRest(elems, pos, i, ChildLeaves(kids), ChildLeaves(k));
      Ok((k, elems[i].token, i + 1))
  }

  /** `expect` (parse.js:123-132): the next token must have this kind, then
      this text; it is consumed and attached after the skipped elements. */
  function ExpectF(elems: seq<Elem>, pos: nat, kids: seq<Child>, kind: TokenKind, text: string): (r: Result<(seq<Child>, nat)>)
    requires pos <= |elems|
    ensures r.Ok? <==> PeekToken(elems, pos) == Some(Token(kind, text))
    ensures r.Ok? ==> pos < r.value.1 <= |elems| && elems[r.value.1 - 1] == Tok(Token(kind, text))
    ensures r.Ok? ==>
      ChildLeaves(r.value.0) == ChildLeaves(kids) + elems[pos..r.value.1] &&
      Sig(r.value.0) == Sig(kids) + [Leaf(kind, text)]
    ensures r.Err? ==> Located(elems, pos, r.error) && r.error.found == PeekToken(elems, pos)
  {
    var nt :- NextTokenF(elems, pos, kids);
    var (k, t, p) := nt;
    if t.kind != kind then Err(ParseError(UnexpectedToken, Some(t), p - 1))
    else if t.text != text then Err(ParseError(UnexpectedValue, Some(t), p - 1))
    else
      Ok((AttachElem(k, Tok(t)), p))
  }

  /** `parseLhs` (parse.js:101-108): the next token must be an identifier. */
  function ParseLhsF(elems: seq<Elem>, pos: nat): (r: Result<(Node, nat)>)
    requires pos <= |elems|
    ensures r.Ok? <==> PeekToken(elems, pos).Some? && PeekToken(elems, pos).value.kind == Ident
    ensures r.Ok? ==>
      var (n, p) := r.value;
      pos < p <= |elems| && Leaves(n) == elems[pos..p] && IsLhs(n)
    ensures r.Err? ==> Located(elems, pos, r.error) && r.error.found == PeekToken(elems, pos)
    ensures r.Err? ==> r.error.kind == (if PeekToken(elems, pos).None? then UnexpectedEof else ExpectedIdentifier)
  {
    var nt :- NextTokenF(elems, pos, []);
    var (k, t, p) := nt;
    if t.kind != Ident then Err(ParseError(ExpectedIdentifier, Some(t), p - 1))
    else
      assert elems[pos..p] == elems[pos..p - 1] + [elems[p - 1]];
      Ok((Node(Lhs, AttachElem(k, Tok(t))), p))
  }

  // ---------------------------------------------------------------------
  // The mutually recursive productions. Each call either consumes input
  // or moves to a production of lower rank (the second decreases term).
  // What the trees they build look like, and that they hold exactly the
  // elements consumed, is proved in module ParseProps.

  /** `parseBlock` (parse.js:49-67): statements up to the end of input or a
      block-closing keyword, which is left for the caller. */
  function ParseBlockF(elems: seq<Elem>, pos: nat): (r: Result<(Node, nat)>)
    requires pos <= |elems|
    ensures r.Ok? ==> pos <= r.value.1 <= |elems| && r.value.0.kind == Body && AtBlockEnd(elems, r.value.1)
    ensures r.Err? ==> Located(elems, pos, r.error)
    decreases |elems| - pos, 4
  {
    var b :- BlockLoopF(elems, pos, []);
    Ok((Node(Body, b.0), b.1))
  }

  /** The loop of `parseBlock` after the statements `kids`: dispatch on the
      next token (parse.js:52-65). */
  function BlockLoopF(elems: seq<Elem>, pos: nat, kids: seq<Child>): (r: Result<(seq<Child>, nat)>)
    requires pos <= |elems|
    ensures r.Ok? ==> pos <= r.value.1 <= |elems| && AtBlockEnd(elems, r.value.1)
    ensures r.Err? ==> Located(elems, pos, r.error)
    decreases |elems| - pos, 3
  {
    var tok := PeekToken(elems, pos);
    if tok.None? then
      Ok((kids, pos))
    else if TestKeyword(tok, ["for"]) then
      var s :- ParseForF(elems, pos);
      BlockLoopF(elems, s.1, kids + [N(s.0)])
    else if TestKeyword(tok, ["if"]) then
      var s :- ParseIfF(elems, pos);
      BlockLoopF(elems, s.1, kids + [N(s.0)])
    else if TestKeyword(tok, ["end", "elseif", "else"]) then
      Ok((kids, pos))
    else if tok.value.kind == Ident then
      var s :- ParseFunctionCallF(elems, pos);
      BlockLoopF(elems, s.1, kids + [N(s.0)])
    else
      Err(ParseError(UnknownToken, tok, TokenIndex(elems, pos).value))
  }

  /** `parseFunctionCall` (parse.js:93-99): `Lhs ( Expr )`. */
  function ParseFunctionCallF(elems: seq<Elem>, pos: nat): (r: Result<(Node, nat)>)
    requires pos <= |elems|
    ensures r.Ok? ==> pos < r.value.1 <= |elems| && r.value.0.kind == Function
    ensures r.Err? ==> Located(elems, pos, r.error)
    decreases |elems| - pos, 2
  {
    var l :- ParseLhsF(elems, pos);
    var a :- ExpectF(elems, l.1, [N(l.0)], Op, "(");
    var e :- ParseExprF(elems, a.1);
    var b :- ExpectF(elems, e.1, a.0 + [N(e.0)], Op, ")");
    Ok((Node(Function, b.0), b.1))
  }

  /** `parseExpr` (parse.js:134-144): an operand, then perhaps an operator
      and a further expression. It stops only where no binary operator
      follows. */
  function ParseExprF(elems: seq<Elem>, pos: nat): (r: Result<(Node, nat)>)
    requires pos <= |elems|
    ensures r.Ok? ==> pos < r.value.1 <= |elems| && r.value.0.kind == Expr && !NextIsBinaryOp(elems, r.value.1)
    ensures r.Err? ==> Located(elems, pos, r.error)
    decreases |elems| - pos, 0
  {
    var nt :- NextTokenF(elems, pos, []);
    var (k, t, p) := nt;
    var o :- if t == Token(Op, "(") then ParseParenF(elems, p, t)
             else Ok((Node(Expr, [E(Tok(t))]), p));
    var x :- TryParseOpF(elems, o.1, k + [N(o.0)]);
    Ok((Node(Expr, x.0), x.1))
  }

  /** `parseParen` (parse.js:146-151): after the `(` already consumed, an
      expression and `)`. */
  function ParseParenF(elems: seq<Elem>, pos: nat, open: Token): (r: Result<(Node, nat)>)
    requires pos <= |elems|
    ensures r.Ok? ==> pos < r.value.1 <= |elems| && r.value.0.kind == Expr
    ensures r.Err? ==> Located(elems, pos, r.error)
    decreases |elems| - pos, 1
  {
    var e :- ParseExprF(elems, pos);
    var c :- ExpectF(elems, e.1, [E(Tok(open)), N(e.0)], Op, ")");
    Ok((Node(Expr, c.0), c.1))
  }

  /** `tryParseOp` (parse.js:153-171): when a binary operator follows, the
      last child of the expression node is moved into a new operator node,
      followed by the operator and the expression after it. */
  function TryParseOpF(elems: seq<Elem>, pos: nat, kids: seq<Child>): (r: Result<(seq<Child>, nat)>)
    requires pos <= |elems| && |kids| > 0
    ensures r.Ok? ==> pos <= r.value.1 <= |elems| && !NextIsBinaryOp(elems, r.value.1)
    ensures r.Ok? ==> |r.value.0| == |kids| && r.value.0[..|kids| - 1] == kids[..|kids| - 1]
    ensures r.Err? ==> Located(elems, pos, r.error)
    decreases |elems| - pos, 0
  {
    var tok := PeekToken(elems, pos);
    if tok.None? || tok.value.kind != Op || tok.value.text in ["(", ")", ","] then
      Ok((kids, pos))
    else
      var prev := kids[|kids| - 1];
      // a token was peeked, so `nextToken` cannot run out here
      var (k, op, p) := NextTokenF(elems, pos, [prev]).value;
      var rhs :- ParseExprF(elems, p);
      var m := Node(Expr, k + [E(Tok(op)), N(rhs.0)]);
      Ok((kids[..|kids| - 1] + [N(m)], rhs.1))
  }

  /** `parseFor` (parse.js:173-186): all three loop expressions are required. */
  function ParseForF(elems: seq<Elem>, pos: nat): (r: Result<(Node, nat)>)
    requires pos <= |elems|
    ensures r.Ok? ==> pos < r.value.1 <= |elems| && r.value.0.kind == For
    ensures r.Err? ==> Located(elems, pos, r.error)
    decreases |elems| - pos, 2
  {
    var a :- ExpectF(elems, pos, [], Keyword, "for");
    var l :- ParseLhsF(elems, a.1);
    var b :- ExpectF(elems, l.1, a.0 + [N(l.0)], Op, "=");
    var e1 :- ParseExprF(elems, b.1);
    var c :- ExpectF(elems, e1.1, b.0 + [N(e1.0)], Op, ",");
    var e2 :- ParseExprF(elems, c.1);
    var d :- ExpectF(elems, e2.1, c.0 + [N(e2.0)], Op, ",");
    var e3 :- ParseExprF(elems, d.1);
    var f :- ExpectF(elems, e3.1, d.0 + [N(e3.0)], Keyword, "do");
    var body :- ParseBlockF(elems, f.1);
    var g :- ExpectF(elems, body.1, f.0 + [N(body.0)], Keyword, "end");
    Ok((Node(For, g.0), g.1))
  }

  /** `parseIf` (parse.js:188-204). */
  function ParseIfF(elems: seq<Elem>, pos: nat): (r: Result<(Node, nat)>)
    requires pos <= |elems|
    ensures r.Ok? ==> pos < r.value.1 <= |elems| && r.value.0.kind == If
    ensures r.Err? ==> Located(elems, pos, r.error)
    decreases |elems| - pos, 2
  {
    var a :- ExpectF(elems, pos, [], Keyword, "if");
    var c :- ParseExprF(elems, a.1);
    var b :- ExpectF(elems, c.1, a.0 + [N(c.0)], Keyword, "then");
    var body :- ParseBlockF(elems, b.1);
    var ei :- ElseIfLoopF(elems, body.1, b.0 + [N(body.0)]);
    var el :- ElseBranchF(elems, ei.1, ei.0);
    var e :- ExpectF(elems, el.1, el.0, Keyword, "end");
    Ok((Node(If, e.0), e.1))
  }

  /** The `elseif` loop of `parseIf` (parse.js:195-197). */
  function ElseIfLoopF(elems: seq<Elem>, pos: nat, kids: seq<Child>): (r: Result<(seq<Child>, nat)>)
    requires pos <= |elems|
    ensures r.Ok? ==> pos <= r.value.1 <= |elems| && !TestKeyword(PeekToken(elems, r.value.1), ["elseif"])
    ensures r.Err? ==> Located(elems, pos, r.error)
    decreases |elems| - pos, 1
  {
    if TestKeyword(PeekToken(elems, pos), ["elseif"]) then
      var s :- ParseElseIfF(elems, pos);
      ElseIfLoopF(elems, s.1, kids + [N(s.0)])
    else
      Ok((kids, pos))
  }

  /** `parseElseIf` (parse.js:206-212). */
  function ParseElseIfF(elems: seq<Elem>, pos: nat): (r: Result<(Node, nat)>)
    requires pos <= |elems|
    ensures r.Ok? ==> pos < r.value.1 <= |elems| && r.value.0.kind == ElseIf
    ensures r.Err? ==> Located(elems, pos, r.error)
    decreases |elems| - pos, 0
  {
    var a :- ExpectF(elems, pos, [], Keyword, "elseif");
    var c :- ParseExprF(elems, a.1);
    var b :- ExpectF(elems, c.1, a.0 + [N(c.0)], Keyword, "then");
    var body :- ParseBlockF(elems, b.1);
    Ok((Node(ElseIf, b.0 + [N(body.0)]), body.1))
  }

  /** The optional `else` part of `parseIf` (parse.js:198-202): an `else`
      node is added only when the next token is the keyword `else`. */
  function ElseBranchF(elems: seq<Elem>, pos: nat, kids: seq<Child>): (r: Result<(seq<Child>, nat)>)
    requires pos <= |elems|
    ensures r.Ok? ==> pos <= r.value.1 <= |elems|
    ensures r.Err? ==> Located(elems, pos, r.error)
    decreases |elems| - pos, 0
  {
    if TestKeyword(PeekToken(elems, pos), ["else"]) then
      var a :- ExpectF(elems, pos, [], Keyword, "else");
      var body :- ParseBlockF(elems, a.1);
      Ok((kids + [N(Node(Else, a.0 + [N(body.0)]))], body.1))
    else
      Ok((kids, pos))
  }

  /** `parse` (parse.js:40-47): one block from the first element. */
  function Parse(elems: seq<Elem>): (r: Result<(Node, nat)>)
    ensures r.Ok? ==> r.value.1 <= |elems| && r.value.0.kind == Body && AtBlockEnd(elems, r.value.1)
    ensures r.Err? ==> Located(elems, 0, r.error)
  {
    ParseBlockF(elems, 0)
  }
}
