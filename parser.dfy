/** The parser of parse.js as the source runs it: one object holding the
    lexed elements and a cursor that `nextToken` advances (the source's
    destructive `shift` of the `$tokens` queue), with one method per
    production. Each method builds its node's children as a growing list
    and is proved to do what the production function of `ParseSpec` says. */
module Parser {
  import opened Tokens
  import opened Tree
  import opened ParseSpec

  /** The method result `r`, with the cursor left at `p`, is what the
      production function returned: the same node or children and the same
      cursor on success, the same error on failure. */
  predicate Agrees<T(==)>(r: Result<T>, s: Result<(T, nat)>, p: nat) {
    match s
    case Ok(v) => r == Ok(v.0) && p == v.1
    case Err(e) => r == Err(e)
  }

  lemma WrapSnoc(elems: seq<Elem>, i: nat, j: nat)
    requires i <= j < |elems|
    ensures Wrap(elems[i..j + 1]) == Wrap(elems[i..j]) + [E(elems[j])]
  {
  }

  class Parser {
    const elems: seq<Elem>
    var pos: nat

    predicate Valid()
      reads this
    {
      pos <= |elems|
    }

    constructor (elems: seq<Elem>)
      ensures this.elems == elems && pos == 0
    {
      this.elems := elems;
      pos := 0;
    }

    /** `peekToken` (parse.js:75-77): scans for the first token without
        moving the cursor. */
    method PeekToken() returns (t: Option<Token>)
      requires Valid()
      ensures t == ParseSpec.PeekToken(elems, pos)
    {
      var i := pos;
      while i < |elems| && !elems[i].Tok?
        invariant pos <= i <= |elems|
        invariant TokenIndex(elems, i) == TokenIndex(elems, pos)
        decreases |elems| - i
      {
        i := i + 1;
      }
      if i == |elems| {
        return None;
      }
      return Some(elems[i].token);
    }

    /** `nextToken` (parse.js:110-121): takes elements off the front until
        a token comes; the others go to the node's children. At the end of
        the input every element has been taken. */
    method NextToken(kids: seq<Child>) returns (r: Result<(seq<Child>, Token)>)
      requires Valid()
      modifies this
      ensures Valid()
      ensures match NextTokenF(elems, old(pos), kids)
        case Ok((k, t, p)) => r == Ok((k, t)) && pos == p
        case Err(e) => r == Err(e) && pos == |elems|
    {
      ghost var start := pos;
      var k := kids;
      while true
        invariant start <= pos <= |elems|
        invariant k == kids + Wrap(elems[start..pos])
        invariant TokenIndex(elems, pos) == TokenIndex(elems, start)
        decreases |elems| - pos
      {
        if pos == |elems| {
          return Err(ParseError(UnexpectedEof, None, |elems|));
        }
        var el := elems[pos];
        WrapSnoc(elems, start, pos);
        pos := pos + 1;
        if el.Tok? {
          return Ok((k, el.token));
        }
        k := k + [E(el)];
      }
    }

    /** `expect` (parse.js:123-132). */
    method Expect(kids: seq<Child>, kind: TokenKind, text: string) returns (r: Result<seq<Child>>)
      requires Valid()
      modifies this
      ensures Valid()
      ensures Agrees(r, ExpectF(elems, old(pos), kids, kind, text), pos)
    {
      var nt :- NextToken(kids);
      var (k, t) := nt;
      if t.kind != kind {
        return Err(ParseError(UnexpectedToken, Some(t), pos - 1));
      } else if t.text != text {
        return Err(ParseError(UnexpectedValue, Some(t), pos - 1));
      }
      return Ok(AttachElem(k, Tok(t)));
    }

    /** `parseLhs` (parse.js:101-108). */
    method ParseLhs() returns (r: Result<Node>)
      requires Valid()
      modifies this
      ensures Valid()
      ensures Agrees(r, ParseLhsF(elems, old(pos)), pos)
    {
      var nt :- NextToken([]);
      var (k, t) := nt;
      if t.kind != Ident {
        return Err(ParseError(ExpectedIdentifier, Some(t), pos - 1));
      }
      return Ok(Node(Lhs, AttachElem(k, Tok(t))));
    }

    /** `parseBlock` (parse.js:49-67): the `while (true)` loop dispatching
        on the next token. */
    method ParseBlock() returns (r: Result<Node>)
      requires Valid()
      modifies this
      ensures Valid()
      ensures Agrees(r, ParseBlockF(elems, old(pos)), pos)
      decreases |elems| - pos, 4
    {
      ghost var start := pos;
      var kids: seq<Child> := [];
      while true
        invariant start <= pos <= |elems|
        invariant BlockLoopF(elems, pos, kids) == BlockLoopF(elems, start, [])
        decreases |elems| - pos
      {
        var tok := PeekToken();
        if tok.None? {
          return Ok(Node(Body, kids));
        } else if TestKeyword(tok, ["for"]) {
          var s :- ParseFor();
          kids := kids + [N(s)];
        } else if TestKeyword(tok, ["if"]) {
          var s :- ParseIf();
          kids := kids + [N(s)];
        } else if TestKeyword(tok, ["end", "elseif", "else"]) {
          return Ok(Node(Body, kids));
        } else if tok.value.kind == Ident {
          var s :- ParseFunctionCall();
          kids := kids + [N(s)];
        } else {
          return Err(ParseError(UnknownToken, tok, TokenIndex(elems, pos).value));
        }
      }
    }

    /** `parseFunctionCall` (parse.js:93-99). */
    method ParseFunctionCall() returns (r: Result<Node>)
      requires Valid()
      modifies this
      ensures Valid()
      ensures Agrees(r, ParseFunctionCallF(elems, old(pos)), pos)
      decreases |elems| - pos, 2
    {
      var l :- ParseLhs();
      var a :- Expect([N(l)], Op, "(");
      var e :- ParseExpr();
      var b :- Expect(a + [N(e)], Op, ")");
      return Ok(Node(Function, b));
    }

    /** `parseExpr` (parse.js:134-144). */
    method ParseExpr() returns (r: Result<Node>)
      requires Valid()
      modifies this
      ensures Valid()
      ensures Agrees(r, ParseExprF(elems, old(pos)), pos)
      decreases |elems| - pos, 0
    {
      var nt :- NextToken([]);
      var (k, t) := nt;
      var o: Node;
      if t == Token(Op, "(") {
        o :- ParseParen(t);
      } else {
        o := Node(Expr, [E(Tok(t))]);
      }
      var x :- TryParseOp(k + [N(o)]);
      return Ok(Node(Expr, x));
    }

    /** `parseParen` (parse.js:146-151). */
    method ParseParen(open: Token) returns (r: Result<Node>)
      requires Valid()
      modifies this
      ensures Valid()
      ensures Agrees(r, ParseParenF(elems, old(pos), open), pos)
      decreases |elems| - pos, 1
    {
      var e :- ParseExpr();
      var c :- Expect([E(Tok(open)), N(e)], Op, ")");
      return Ok(Node(Expr, c));
    }

    /** `tryParseOp` (parse.js:153-171): the last child is removed and
        becomes the first child of the new operator node. */
    method TryParseOp(kids: seq<Child>) returns (r: Result<seq<Child>>)
      requires Valid() && |kids| > 0
      modifies this
      ensures Valid()
      ensures Agrees(r, TryParseOpF(elems, old(pos), kids), pos)
      decreases |elems| - pos, 0
    {
      var tok := PeekToken();
      if tok.None? || tok.value.kind != Op || tok.value.text in ["(", ")", ","] {
        return Ok(kids);
      }
      var prev := kids[|kids| - 1];
      var nt := NextToken([prev]);
      var (k, op) := nt.value;
      var rhs :- ParseExpr();
      return Ok(kids[..|kids| - 1] + [N(Node(Expr, k + [E(Tok(op)), N(rhs)]))]);
    }

    /** `parseFor` (parse.js:173-186). */
    method ParseFor() returns (r: Result<Node>)
      requires Valid()
      modifies this
      ensures Valid()
      ensures Agrees(r, ParseForF(elems, old(pos)), pos)
      decreases |elems| - pos, 2
    {
      var a :- Expect([], Keyword, "for");
      var l :- ParseLhs();
      var b :- Expect(a + [N(l)], Op, "=");
      var e1 :- ParseExpr();
      var c :- Expect(b + [N(e1)], Op, ",");
      var e2 :- ParseExpr();
      var d :- Expect(c + [N(e2)], Op, ",");
      var e3 :- ParseExpr();
      var f :- Expect(d + [N(e3)], Keyword, "do");
      var body :- ParseBlock();
      var g :- Expect(f + [N(body)], Keyword, "end");
      return Ok(Node(For, g));
    }

    /** `parseIf` (parse.js:188-204), with its `elseif` loop. */
    method ParseIf() returns (r: Result<Node>)
      requires Valid()
      modifies this
      ensures Valid()
      ensures Agrees(r, ParseIfF(elems, old(pos)), pos)
      decreases |elems| - pos, 2
    {
      var a :- Expect([], Keyword, "if");
      var c :- ParseExpr();
      var b :- Expect(a + [N(c)], Keyword, "then");
      var body :- ParseBlock();
      var kids := b + [N(body)];
      ghost var p0, k0 := pos, kids;
      var tok := PeekToken();
      while TestKeyword(tok, ["elseif"])
        invariant p0 <= pos <= |elems|
        invariant tok == ParseSpec.PeekToken(elems, pos)
        invariant ElseIfLoopF(elems, pos, kids) == ElseIfLoopF(elems, p0, k0)
        decreases |elems| - pos
      {
        var s :- ParseElseIf();
        kids := kids + [N(s)];
        tok := PeekToken();
      }
      if TestKeyword(tok, ["else"]) {
        // the `else` keyword was just peeked, so `expect` cannot fail here
        var e := Expect([], Keyword, "else");
        var eb :- ParseBlock();
        kids := kids + [N(Node(Else, e.value + [N(eb)]))];
      }
      var z :- Expect(kids, Keyword, "end");
      return Ok(Node(If, z));
    }

    /** `parseElseIf` (parse.js:206-212). */
    method ParseElseIf() returns (r: Result<Node>)
      requires Valid()
      modifies this
      ensures Valid()
      ensures Agrees(r, ParseElseIfF(elems, old(pos)), pos)
      decreases |elems| - pos, 0
    {
      var a :- Expect([], Keyword, "elseif");
      var c :- ParseExpr();
      var b :- Expect(a + [N(c)], Keyword, "then");
      var body :- ParseBlock();
      return Ok(Node(ElseIf, b + [N(body)]));
    }
  }

  /** `parse` (parse.js:40-47): a fresh parser over the lexed elements
      parses one block; the cursor tells how much was consumed. */
  method Parse(elems: seq<Elem>) returns (r: Result<(Node, nat)>)
    ensures r == ParseSpec.Parse(elems)
  {
    var p := new Parser(elems);
    var b :- p.ParseBlock();
    return Ok((b, p.pos));
  }
}
