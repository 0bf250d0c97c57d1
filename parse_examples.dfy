/** Concrete inputs worked through the parser: a call, right-nested
    operators, a `for` loop and an `if` cut short. Each element
    list is what the lexer emits for the program named in its comment. */
module ParseExamples {
  import opened Tokens
  import opened Tree
  import opened ParseSpec
  import opened ParseProps
  import opened ParseFacts

  function T(kind: TokenKind, text: string): Elem {
    Tok(Token(kind, text))
  }

  /** The operand node `parseExpr` builds from a single token. */
  function Operand(e: Elem): Node {
    Node(Expr, [E(e)])
  }

  /** The expression node around one operand or operator node. */
  function ExprOf(n: Node): Node {
    Node(Expr, [N(n)])
  }

  /** A token right at the cursor is the next one, with nothing skipped. */
  lemma NextAt(elems: seq<Elem>, i: nat, kids: seq<Child>)
    requires i < |elems| && elems[i].Tok?
    ensures NextTokenF(elems, i, kids) == Ok((kids, elems[i].token, i + 1))
  {
    assert TokenIndex(elems, i) == Some(i);
    assert elems[i..i] == [];
    assert kids + Wrap([]) == kids;
  }

  /** An expression that starts with a token other than `(` right at the cursor. */
  lemma ExprParsedAt(elems: seq<Elem>, i: nat, xs: seq<Child>, q: nat)
    requires i < |elems| && elems[i].Tok? && elems[i].token != Token(Op, "(")
    requires TryParseOpF(elems, i + 1, [N(Operand(elems[i]))]) == Ok((xs, q))
    ensures ParseExprF(elems, i) == Ok((Node(Expr, xs), q))
  {
    NextAt(elems, i, []);
    assert [] + [N(Operand(elems[i]))] == [N(Operand(elems[i]))];
  }

  /** A binary operator right at the cursor, after the operand `lhs`. */
  lemma BinaryOpAt(elems: seq<Elem>, i: nat, lhs: Node, rhs: Node, q: nat)
    requires i < |elems| && elems[i].Tok? && IsBinaryOp(elems[i].token)
    requires ParseExprF(elems, i + 1) == Ok((rhs, q))
    ensures TryParseOpF(elems, i, [N(lhs)]) == Ok(([N(Node(Expr, [N(lhs), E(elems[i]), N(rhs)]))], q))
  {
    NextAt(elems, i, [N(lhs)]);
    assert TokenIndex(elems, i) == Some(i);
    OpDef(elems, i, [N(lhs)]);
    OneOperand(lhs, elems[i], rhs);
  }

  /** The children of the operator node over a single operand. */
  lemma OneOperand(lhs: Node, op: Elem, rhs: Node)
    ensures [N(lhs)][..0] + [N(Node(Expr, [N(lhs)] + [E(op), N(rhs)]))] == [N(Node(Expr, [N(lhs), E(op), N(rhs)]))]
  {
    assert [N(lhs)] + [E(op), N(rhs)] == [N(lhs), E(op), N(rhs)];
  }

  /** No binary operator at the cursor: the expression ends. */
  lemma NoBinaryOpAt(elems: seq<Elem>, i: nat, kids: seq<Child>)
    requires i <= |elems| && |kids| > 0 && !NextIsBinaryOp(elems, i)
    ensures TryParseOpF(elems, i, kids) == Ok((kids, i))
  {
  }

  // `a == b == c`
  const chain: seq<Elem> := [T(Ident, "a"), T(Op, "=="), T(Ident, "b"), T(Op, "=="), T(Ident, "c")]

  /** `b == c`, the right operand of the first `==`. */
  lemma ChainTail()
    ensures var c := ExprOf(Operand(chain[4]));
      ParseExprF(chain, 2) == Ok((ExprOf(Node(Expr, [N(Operand(chain[2])), E(chain[3]), N(c)])), 5))
  {
    assert TokenIndex(chain, 5) == None;
    NoBinaryOpAt(chain, 5, [N(Operand(chain[4]))]);
    ExprParsedAt(chain, 4, [N(Operand(chain[4]))], 5);
    var c := ExprOf(Operand(chain[4]));
    BinaryOpAt(chain, 3, Operand(chain[2]), c, 5);
    ExprParsedAt(chain, 2, [N(Node(Expr, [N(Operand(chain[2])), E(chain[3]), N(c)]))], 5);
  }

  /** `a == b == c` nests to the right: `a == (b == c)` (parse.js:153-171). */
  lemma RightNesting()
    ensures var c := ExprOf(Operand(chain[4]));
      var bc := ExprOf(Node(Expr, [N(Operand(chain[2])), E(chain[3]), N(c)]));
      ParseExprF(chain, 0) == Ok((ExprOf(Node(Expr, [N(Operand(chain[0])), E(chain[1]), N(bc)])), 5))
  {
    ChainTail();
    var c := ExprOf(Operand(chain[4]));
    var bc := ExprOf(Node(Expr, [N(Operand(chain[2])), E(chain[3]), N(c)]));
    BinaryOpAt(chain, 1, Operand(chain[0]), bc, 5);
    ExprParsedAt(chain, 0, [N(Node(Expr, [N(Operand(chain[0])), E(chain[1]), N(bc)]))], 5);
  }

  /** The expected token right at the cursor. */
  lemma ExpectAt(elems: seq<Elem>, i: nat, kids: seq<Child>, kind: TokenKind, text: string)
    requires i < |elems| && elems[i] == T(kind, text)
    ensures ExpectF(elems, i, kids, kind, text) == Ok((kids + [E(elems[i])], i + 1))
  {
    NextAt(elems, i, kids);
  }

  /** An identifier right at the cursor is a left-hand side. */
  lemma LhsParsedAt(elems: seq<Elem>, i: nat)
    requires i < |elems| && elems[i].Tok? && elems[i].token.kind == Ident
    ensures ParseLhsF(elems, i) == Ok((Node(Lhs, [E(elems[i])]), i + 1))
  {
    NextAt(elems, i, []);
  }

  /** `parseFunctionCall` when each of its steps succeeds. */
  lemma CallFrom(elems: seq<Elem>, i: nat, l: Node, p: nat, a: seq<Child>, q: nat, e: Node, r: nat, b: seq<Child>, t: nat)
    requires i <= |elems|
    requires ParseLhsF(elems, i) == Ok((l, p))
    requires ExpectF(elems, p, [N(l)], Op, "(") == Ok((a, q))
    requires ParseExprF(elems, q) == Ok((e, r))
    requires ExpectF(elems, r, a + [N(e)], Op, ")") == Ok((b, t))
    ensures ParseFunctionCallF(elems, i) == Ok((Node(Function, b), t))
  {
  }

  /** `foo(1)` as lexed: four tokens. */
  predicate IsCallText(elems: seq<Elem>) {
    |elems| == 4 && elems[0] == T(Ident, "foo") && elems[1] == T(Op, "(") &&
    elems[2] == T(Number, "1") && elems[3] == T(Op, ")")
  }

  /** The argument `1`, up to the closing parenthesis. */
  lemma CallArgument(elems: seq<Elem>)
    requires IsCallText(elems)
    ensures ParseExprF(elems, 2) == Ok((ExprOf(Operand(elems[2])), 3))
  {
    assert TokenIndex(elems, 3) == Some(3);
    NoBinaryOpAt(elems, 3, [N(Operand(elems[2]))]);
    ExprParsedAt(elems, 2, [N(Operand(elems[2]))], 3);
  }

  /** The name of `foo(1)` and the opening parenthesis. */
  lemma CallOpen(elems: seq<Elem>)
    requires IsCallText(elems)
    ensures var l := Node(Lhs, [E(elems[0])]);
      ParseLhsF(elems, 0) == Ok((l, 1)) &&
      ExpectF(elems, 1, [N(l)], Op, "(") == Ok(([N(l), E(elems[1])], 2))
  {
    LhsParsedAt(elems, 0);
    var l := Node(Lhs, [E(elems[0])]);
    ExpectAt(elems, 1, [N(l)], Op, "(");
    assert [N(l)] + [E(elems[1])] == [N(l), E(elems[1])];
  }

  /** The closing parenthesis of `foo(1)`. */
  lemma CallClose(elems: seq<Elem>, l: Node, e: Node)
    requires IsCallText(elems)
    ensures ExpectF(elems, 3, [N(l), E(elems[1]), N(e)], Op, ")") == Ok(([N(l), E(elems[1]), N(e), E(elems[3])], 4))
  {
    ExpectAt(elems, 3, [N(l), E(elems[1]), N(e)], Op, ")");
    assert [N(l), E(elems[1]), N(e)] + [E(elems[3])] == [N(l), E(elems[1]), N(e), E(elems[3])];
  }

  /** The call node: `Lhs ( Expr )` (parse.js:93-99). */
  lemma CallNode(elems: seq<Elem>)
    requires IsCallText(elems)
    ensures ParseFunctionCallF(elems, 0) ==
      Ok((Node(Function, [N(Node(Lhs, [E(elems[0])])), E(elems[1]), N(ExprOf(Operand(elems[2]))), E(elems[3])]), 4))
  {
    CallOpen(elems);
    CallArgument(elems);
    var l := Node(Lhs, [E(elems[0])]);
    var e := ExprOf(Operand(elems[2]));
    CallClose(elems, l, e);
    assert [N(l), E(elems[1])] + [N(e)] == [N(l), E(elems[1]), N(e)];
    CallFrom(elems, 0, l, 1, [N(l), E(elems[1])], 2, e, 3, [N(l), E(elems[1]), N(e), E(elems[3])], 4);
  }

  /** A call statement at the cursor: the loop of `parseBlock` goes on after it. */
  lemma CallStatement(elems: seq<Elem>, pos: nat, kids: seq<Child>, f: Node, p: nat)
    requires pos < |elems| && elems[pos].Tok? && elems[pos].token.kind == Ident
    requires ParseFunctionCallF(elems, pos) == Ok((f, p))
    ensures BlockLoopF(elems, pos, kids) == BlockLoopF(elems, p, kids + [N(f)])
  {
    assert TokenIndex(elems, pos) == Some(pos);
    BlockLoopDef(elems, pos, kids);
  }

  /** At the end of the input the loop of `parseBlock` stops. */
  lemma LoopAtEnd(elems: seq<Elem>, kids: seq<Child>)
    ensures BlockLoopF(elems, |elems|, kids) == Ok((kids, |elems|))
  {
    assert TokenIndex(elems, |elems|) == None;
  }

  /** `foo(1)` is a body holding one call statement, and every element is consumed. */
  lemma CallProgram(elems: seq<Elem>)
    requires IsCallText(elems)
    ensures var f := Node(Function, [N(Node(Lhs, [E(elems[0])])), E(elems[1]), N(ExprOf(Operand(elems[2]))), E(elems[3])]);
      Parse(elems) == Ok((Node(Body, [N(f)]), 4))
  {
    CallNode(elems);
    var f := Node(Function, [N(Node(Lhs, [E(elems[0])])), E(elems[1]), N(ExprOf(Operand(elems[2]))), E(elems[3])]);
    CallStatement(elems, 0, [], f, 4);
    assert [] + [N(f)] == [N(f)];
    LoopAtEnd(elems, [N(f)]);
  }

  /** A skipped element right at the cursor, then a token. */
  lemma NextAfterSkip(elems: seq<Elem>, i: nat, kids: seq<Child>)
    requires i + 1 < |elems| && !elems[i].Tok? && elems[i + 1].Tok?
    ensures NextTokenF(elems, i, kids) == Ok((kids + [E(elems[i])], elems[i + 1].token, i + 2))
  {
    assert TokenIndex(elems, i + 1) == Some(i + 1);
    assert Wrap(elems[i..i + 1]) == [E(elems[i])];
  }

  /** `parseIf` when everything before `end` succeeds and `end` is not there. */
  lemma IfWithoutEnd(elems: seq<Elem>, i: nat, a: seq<Child>, p: nat, c: Node, q: nat, b: seq<Child>, r: nat,
                     body: Node, t: nat)
    requires i <= |elems|
    requires ExpectF(elems, i, [], Keyword, "if") == Ok((a, p))
    requires ParseExprF(elems, p) == Ok((c, q))
    requires ExpectF(elems, q, a + [N(c)], Keyword, "then") == Ok((b, r))
    requires ParseBlockF(elems, r) == Ok((body, t))
    requires !TestKeyword(PeekToken(elems, t), ["elseif"]) && !TestKeyword(PeekToken(elems, t), ["else"])
    ensures var e := ExpectF(elems, t, b + [N(body)], Keyword, "end");
      e.Err? ==> ParseIfF(elems, i) == Err(e.error)
  {
    ElseIfLoopStops(elems, t, b + [N(body)]);
    ElseBranchStops(elems, t, b + [N(body)]);
  }

  /** `if x then` as lexed: the keywords and the name, single spaces
      between them, and nothing after `then`. */
  predicate IsOpenIfText(elems: seq<Elem>) {
    |elems| == 5 && elems[0] == T(Keyword, "if") && elems[1] == Ignored([IgnoredChar(Space, ' ')]) &&
    elems[2] == T(Ident, "x") && elems[3] == Ignored([IgnoredChar(Space, ' ')]) &&
    elems[4] == T(Keyword, "then")
  }

  /** The condition `x`, with the space before it. */
  lemma OpenIfCondition(elems: seq<Elem>)
    requires IsOpenIfText(elems)
    ensures ParseExprF(elems, 1) == Ok((Node(Expr, [E(elems[1]), N(Operand(elems[2]))]), 3))
  {
    NextAfterSkip(elems, 1, []);
    assert TokenIndex(elems, 3) == Some(4);
    NoBinaryOpAt(elems, 3, [E(elems[1]), N(Operand(elems[2]))]);
    assert [] + [E(elems[1])] + [N(Operand(elems[2]))] == [E(elems[1]), N(Operand(elems[2]))];
  }

  /** A block that ends at once is an empty body. */
  lemma EmptyBlock(elems: seq<Elem>, pos: nat)
    requires pos <= |elems| && AtBlockEnd(elems, pos)
    ensures ParseBlockF(elems, pos) == Ok((Node(Body, []), pos))
  {
    BlockLoopStops(elems, pos, []);
  }

  /** `then`, with the space before it. */
  lemma OpenIfThen(elems: seq<Elem>, c: Node)
    requires IsOpenIfText(elems)
    ensures ExpectF(elems, 3, [E(elems[0]), N(c)], Keyword, "then") ==
      Ok(([E(elems[0]), N(c), E(elems[3]), E(elems[4])], 5))
  {
    NextAfterSkip(elems, 3, [E(elems[0]), N(c)]);
    assert [E(elems[0]), N(c)] + [E(elems[3])] + [E(elems[4])] == [E(elems[0]), N(c), E(elems[3]), E(elems[4])];
  }

  /** The `if` statement runs out of input where `end` should be. */
  lemma OpenIfStatement(elems: seq<Elem>)
    requires IsOpenIfText(elems)
    ensures ParseIfF(elems, 0) == Err(ParseError(UnexpectedEof, None, 5))
  {
    ExpectAt(elems, 0, [], Keyword, "if");
    assert [] + [E(elems[0])] == [E(elems[0])];
    OpenIfCondition(elems);
    var c := Node(Expr, [E(elems[1]), N(Operand(elems[2]))]);
    OpenIfThen(elems, c);
    assert [E(elems[0])] + [N(c)] == [E(elems[0]), N(c)];
    var b := [E(elems[0]), N(c), E(elems[3]), E(elems[4])];
    assert TokenIndex(elems, 5) == None;
    EmptyBlock(elems, 5);
    IfWithoutEnd(elems, 0, [E(elems[0])], 1, c, 3, b, 5, Node(Body, []), 5);
  }

  /** A failing `if` statement makes the whole block fail with its error. */
  lemma IfFailsBlock(elems: seq<Elem>, pos: nat, kids: seq<Child>)
    requires pos <= |elems| && TestKeyword(PeekToken(elems, pos), ["if"]) && ParseIfF(elems, pos).Err?
    ensures BlockLoopF(elems, pos, kids) == Err(ParseIfF(elems, pos).error)
  {
    assert !TestKeyword(PeekToken(elems, pos), ["for"]);
  }

  /** `if x then` without `end` fails at the end of the input (parse.js:113-114, 188-204). */
  lemma OpenIfFails(elems: seq<Elem>)
    requires IsOpenIfText(elems)
    ensures Parse(elems) == Err(ParseError(UnexpectedEof, None, 5))
  {
    OpenIfStatement(elems);
    assert TokenIndex(elems, 0) == Some(0);
    IfFailsBlock(elems, 0, []);
  }

  // ---------------------------------------------------------------------
  // `for i=1,10,1 do end`

  const Blank: Elem := Ignored([IgnoredChar(Space, ' ')])

  /** `for i=1,10,1 do end` as lexed: the tokens, with the spaces after
      `for`, after the last `1` and after `do`. */
  predicate IsForText(elems: seq<Elem>) {
    |elems| == 13 && elems[0] == T(Keyword, "for") && elems[1] == Blank &&
    elems[2] == T(Ident, "i") && elems[3] == T(Op, "=") && elems[4] == T(Number, "1") &&
    elems[5] == T(Op, ",") && elems[6] == T(Number, "10") && elems[7] == T(Op, ",") &&
    elems[8] == T(Number, "1") && elems[9] == Blank && elems[10] == T(Keyword, "do") &&
    elems[11] == Blank && elems[12] == T(Keyword, "end")
  }

  /** A skipped element, then the expected token. */
  lemma ExpectAfterSkip(elems: seq<Elem>, i: nat, kids: seq<Child>, kind: TokenKind, text: string)
    requires i + 1 < |elems| && !elems[i].Tok? && elems[i + 1] == T(kind, text)
    ensures ExpectF(elems, i, kids, kind, text) == Ok(((kids + [E(elems[i])]) + [E(elems[i + 1])], i + 2))
  {
    NextAfterSkip(elems, i, kids);
  }

  /** A skipped element, then an identifier: a left-hand side. */
  lemma LhsAfterSkip(elems: seq<Elem>, i: nat)
    requires i + 1 < |elems| && !elems[i].Tok? && elems[i + 1].Tok? && elems[i + 1].token.kind == Ident
    ensures ParseLhsF(elems, i) == Ok((Node(Lhs, ([] + [E(elems[i])]) + [E(elems[i + 1])]), i + 2))
  {
    NextAfterSkip(elems, i, []);
  }

  /** A single-token operand whose next token, at `j`, is no binary operator. */
  lemma OperandBefore(elems: seq<Elem>, i: nat, j: nat)
    requires i < j < |elems| && elems[i].Tok? && elems[i].token != Token(Op, "(")
    requires TokenIndex(elems, i + 1) == Some(j) && !IsBinaryOp(elems[j].token)
    ensures ParseExprF(elems, i) == Ok((ExprOf(Operand(elems[i])), i + 1))
  {
    NoBinaryOpAt(elems, i + 1, [N(Operand(elems[i]))]);
    ExprParsedAt(elems, i, [N(Operand(elems[i]))], i + 1);
  }

  /** `parseFor` when each of its steps succeeds. */
  lemma ForFrom(elems: seq<Elem>, i: nat, a: seq<Child>, p1: nat, l: Node, p2: nat, b: seq<Child>, p3: nat,
                x1: Node, p4: nat, c: seq<Child>, p5: nat, x2: Node, p6: nat, d: seq<Child>, p7: nat,
                x3: Node, p8: nat, f: seq<Child>, p9: nat, body: Node, p10: nat, g: seq<Child>, p11: nat)
    requires i <= |elems|
    requires ExpectF(elems, i, [], Keyword, "for") == Ok((a, p1))
    requires ParseLhsF(elems, p1) == Ok((l, p2))
    requires ExpectF(elems, p2, a + [N(l)], Op, "=") == Ok((b, p3))
    requires ParseExprF(elems, p3) == Ok((x1, p4))
    requires ExpectF(elems, p4, b + [N(x1)], Op, ",") == Ok((c, p5))
    requires ParseExprF(elems, p5) == Ok((x2, p6))
    requires ExpectF(elems, p6, c + [N(x2)], Op, ",") == Ok((d, p7))
    requires ParseExprF(elems, p7) == Ok((x3, p8))
    requires ExpectF(elems, p8, d + [N(x3)], Keyword, "do") == Ok((f, p9))
    requires ParseBlockF(elems, p9) == Ok((body, p10))
    requires ExpectF(elems, p10, f + [N(body)], Keyword, "end") == Ok((g, p11))
    ensures ParseForF(elems, i) == Ok((Node(For, g), p11))
  {
    ForDef(elems, i);
  }

  /** The three loop expressions, each a single number. */
  lemma ForNumbers(elems: seq<Elem>)
    requires IsForText(elems)
    ensures ParseExprF(elems, 4) == Ok((ExprOf(Operand(elems[4])), 5))
    ensures ParseExprF(elems, 6) == Ok((ExprOf(Operand(elems[6])), 7))
    ensures ParseExprF(elems, 8) == Ok((ExprOf(Operand(elems[8])), 9))
  {
    assert TokenIndex(elems, 5) == Some(5);
    OperandBefore(elems, 4, 5);
    assert TokenIndex(elems, 7) == Some(7);
    OperandBefore(elems, 6, 7);
    assert TokenIndex(elems, 10) == Some(10);
    assert TokenIndex(elems, 9) == Some(10);
    OperandBefore(elems, 8, 10);
  }

  /** The empty loop body stops before `end`. */
  lemma ForBody(elems: seq<Elem>)
    requires IsForText(elems)
    ensures ParseBlockF(elems, 11) == Ok((Node(Body, []), 11))
  {
    assert TokenIndex(elems, 12) == Some(12);
    assert TokenIndex(elems, 11) == Some(12);
    EmptyBlock(elems, 11);
  }

  /** The children of the `for` node, in the order `parseFor` attaches them. */
  function ForKids(elems: seq<Elem>): seq<Child>
    requires IsForText(elems)
  {
    [E(elems[0]), N(Node(Lhs, [E(elems[1]), E(elems[2])])), E(elems[3]), N(ExprOf(Operand(elems[4]))),
     E(elems[5]), N(ExprOf(Operand(elems[6]))), E(elems[7]), N(ExprOf(Operand(elems[8]))),
     E(elems[9]), E(elems[10]), N(Node(Body, [])), E(elems[11]), E(elems[12])]
  }

  /** The children built step by step are `ForKids`. */
  lemma ForKidsBuilt(elems: seq<Elem>, l: Node)
    requires IsForText(elems) && l == Node(Lhs, ([] + [E(elems[1])]) + [E(elems[2])])
    ensures var a := [] + [E(elems[0])];
      var b := (a + [N(l)]) + [E(elems[3])];
      var c := (b + [N(ExprOf(Operand(elems[4])))]) + [E(elems[5])];
      var d := (c + [N(ExprOf(Operand(elems[6])))]) + [E(elems[7])];
      var f := ((d + [N(ExprOf(Operand(elems[8])))]) + [E(elems[9])]) + [E(elems[10])];
      ((f + [N(Node(Body, []))]) + [E(elems[11])]) + [E(elems[12])] == ForKids(elems)
  {
    assert ([] + [E(elems[1])]) + [E(elems[2])] == [E(elems[1]), E(elems[2])];
  }

  /** The `for` node: every part in place, and all thirteen elements consumed (parse.js:173-186). */
  lemma ForNode(elems: seq<Elem>)
    requires IsForText(elems)
    ensures ParseForF(elems, 0) == Ok((Node(For, ForKids(elems)), 13))
  {
    var a := [] + [E(elems[0])];
    ExpectAt(elems, 0, [], Keyword, "for");
    LhsAfterSkip(elems, 1);
    var l := Node(Lhs, ([] + [E(elems[1])]) + [E(elems[2])]);
    ExpectAt(elems, 3, a + [N(l)], Op, "=");
    var b := (a + [N(l)]) + [E(elems[3])];
    ForNumbers(elems);
    var x1, x2, x3 := ExprOf(Operand(elems[4])), ExprOf(Operand(elems[6])), ExprOf(Operand(elems[8]));
    ExpectAt(elems, 5, b + [N(x1)], Op, ",");
    var c := (b + [N(x1)]) + [E(elems[5])];
    ExpectAt(elems, 7, c + [N(x2)], Op, ",");
    var d := (c + [N(x2)]) + [E(elems[7])];
    ExpectAfterSkip(elems, 9, d + [N(x3)], Keyword, "do");
    var f := ((d + [N(x3)]) + [E(elems[9])]) + [E(elems[10])];
    ForBody(elems);
    var body := Node(Body, []);
    ExpectAfterSkip(elems, 11, f + [N(body)], Keyword, "end");
    var g := ((f + [N(body)]) + [E(elems[11])]) + [E(elems[12])];
    ForFrom(elems, 0, a, 1, l, 3, b, 4, x1, 5, c, 6, x2, 7, d, 8, x3, 9, f, 11, body, 11, g, 13);
    ForKidsBuilt(elems, l);
  }

  /** A `for` statement at the cursor: the loop of `parseBlock` goes on after it. */
  lemma ForStatement(elems: seq<Elem>, pos: nat, kids: seq<Child>, s: Node, p: nat)
    requires pos < |elems| && elems[pos] == T(Keyword, "for")
    requires ParseForF(elems, pos) == Ok((s, p))
    ensures BlockLoopF(elems, pos, kids) == BlockLoopF(elems, p, kids + [N(s)])
  {
    assert TokenIndex(elems, pos) == Some(pos);
    BlockLoopDef(elems, pos, kids);
  }

  /** `for i=1,10,1 do end` is a body holding one `for` statement, and
      every element is consumed. */
  lemma ForProgram(elems: seq<Elem>)
    requires IsForText(elems)
    ensures Parse(elems) == Ok((Node(Body, [N(Node(For, ForKids(elems)))]), 13))
  {
    ForNode(elems);
    var s := Node(For, ForKids(elems));
    ForStatement(elems, 0, [], s, 13);
    assert [] + [N(s)] == [N(s)];
    LoopAtEnd(elems, [N(s)]);
  }
}
