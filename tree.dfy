/** The syntax tree parse.js builds (as `div.ast` elements): a node has a
    kind and an ordered list of children, each either a further node or a
    lexed element attached as a leaf. The grammar predicates at the end
    are the shapes the productions of parse.js give each kind of node. */
module Tree {
  import opened Tokens

  datatype NodeKind = Body | Function | Lhs | Expr | For | If | ElseIf | Else

  datatype Node = Node(kind: NodeKind, children: seq<Child>)

  datatype Child = N(node: Node) | E(elem: Elem)

  /** The leaves of a node, left to right. */
  function Leaves(n: Node): seq<Elem>
    decreases n, 1
  {
    ChildLeaves(n.children)
  }

  function ChildLeaves(cs: seq<Child>): seq<Elem>
    decreases cs, 0
  {
    if cs == [] then []
    else ChildLeaves(cs[..|cs| - 1]) + LeavesOf(cs[|cs| - 1])
  }

  function LeavesOf(c: Child): seq<Elem>
    decreases c, 0
  {
    match c
    case E(e) => [e]
    case N(n) => Leaves(n)
  }

  lemma {:induction false} ChildLeavesAppend(a: seq<Child>, b: seq<Child>)
    ensures ChildLeaves(a + b) == ChildLeaves(a) + ChildLeaves(b)
    decreases |b|
  {
    if b == [] {
      assert a + b == a;
    } else {
      var b' := b[..|b| - 1];
      assert (a + b)[..|a + b| - 1] == a + b';
      ChildLeavesAppend(a, b');
    }
  }

  /** `append` of a finished node: its leaves follow those already there. */
  function Attach(kids: seq<Child>, n: Node): (r: seq<Child>)
    ensures r == kids + [N(n)]
    ensures ChildLeaves(r) == ChildLeaves(kids) + Leaves(n)
    ensures Sig(r) == Sig(kids) + [N(n)]
  {
    assert [N(n)][..0] == [];
    ChildLeavesAppend(kids, [N(n)]);
    SigAppend(kids, [N(n)]);
    kids + [N(n)]
  }

  /** Lexed elements attached one by one as leaves. */
  function Wrap(es: seq<Elem>): (cs: seq<Child>)
    ensures |cs| == |es|
    ensures forall i :: 0 <= i < |es| ==> cs[i] == E(es[i])
  {
    seq(|es|, i requires 0 <= i < |es| => E(es[i]))
  }

  lemma {:induction false} ChildLeavesWrap(es: seq<Elem>)
    ensures ChildLeaves(Wrap(es)) == es
    decreases |es|
  {
    if es != [] {
      var k := |es| - 1;
      assert Wrap(es)[..k] == Wrap(es[..k]);
      ChildLeavesWrap(es[..k]);
      assert es[..k] + [es[k]] == es;
    }
  }

  /** A child that a production put there on purpose: a node or a token.
      Comments and ignored groups that `nextToken` skipped are not. */
  predicate Significant(c: Child) {
    c.N? || c.elem.Tok?
  }

  /** The significant children, in order. */
  function Sig(cs: seq<Child>): seq<Child> {
    if cs == [] then []
    else Sig(cs[..|cs| - 1]) + (if Significant(cs[|cs| - 1]) then [cs[|cs| - 1]] else [])
  }

  lemma {:induction false} SigIn(cs: seq<Child>)
    ensures forall i :: 0 <= i < |Sig(cs)| ==> Sig(cs)[i] in cs && Significant(Sig(cs)[i])
    decreases |cs|
  {
    if cs != [] {
      SigIn(cs[..|cs| - 1]);
    }
  }

  /** `append` of a lexed element. */
  function AttachElem(kids: seq<Child>, e: Elem): (r: seq<Child>)
    ensures ChildLeaves(r) == ChildLeaves(kids) + [e]
    ensures Sig(r) == Sig(kids) + (if e.Tok? then [E(e)] else [])
  {
    assert (kids + [E(e)])[..|kids|] == kids;
    kids + [E(e)]
  }

  lemma {:induction false} SigAppend(a: seq<Child>, b: seq<Child>)
    ensures Sig(a + b) == Sig(a) + Sig(b)
    decreases |b|
  {
    if b == [] {
      assert a + b == a;
    } else {
      var b' := b[..|b| - 1];
      assert (a + b)[..|a + b| - 1] == a + b';
      SigAppend(a, b');
    }
  }

  lemma {:induction false} SigWrapSkipped(es: seq<Elem>)
    requires forall i :: 0 <= i < |es| ==> !es[i].Tok?
    ensures Sig(Wrap(es)) == []
    decreases |es|
  {
    if es != [] {
      var k := |es| - 1;
      assert Wrap(es)[..k] == Wrap(es[..k]);
      SigWrapSkipped(es[..k]);
    }
  }

  /** A significant child is one of the leaves, or holds leaves of its own. */
  lemma {:induction false} SigLeaf(cs: seq<Child>, i: nat)
    requires i < |Sig(cs)| && Sig(cs)[i].E?
    ensures Sig(cs)[i].elem in ChildLeaves(cs)
    decreases |cs|
  {
    var k := |cs| - 1;
    var last := cs[k];
    if i < |Sig(cs[..k])| {
      SigLeaf(cs[..k], i);
    } else {
      assert Sig(cs)[i] == last;
    }
  }

  function Leaf(kind: TokenKind, text: string): Child {
    E(Tok(Token(kind, text)))
  }

  predicate IsTokenChild(c: Child) {
    c.E? && c.elem.Tok?
  }

  // ---------------------------------------------------------------------
  // The grammar of parse.js, one predicate per node shape.

  /** An operator that `tryParseOp` treats as binary (parse.js:157-163). */
  predicate IsBinaryOp(t: Token) {
    t.kind == Op && t.text != "(" && t.text != ")" && t.text != ","
  }

  /** `Lhs := Identifier` (parse.js:101-108) */
  predicate IsLhs(n: Node) {
    var s := Sig(n.children);
    n.kind == Lhs && |s| == 1 && IsTokenChild(s[0]) && s[0].elem.token.kind == Ident
  }

  /** An operand: any single token but `(`, or `( Expr )` (parse.js:138-151). */
  predicate IsOperand(n: Node)
    decreases n, 0
  {
    var s := Sig(n.children);
    SigIn(n.children);
    n.kind == Expr &&
    ((|s| == 1 && IsTokenChild(s[0]) && s[0].elem.token != Token(Op, "(")) ||
     (|s| == 3 && s[0] == Leaf(Op, "(") && s[1].N? && IsExpr(s[1].node) && s[2] == Leaf(Op, ")")))
  }

  /** `Operand BinOp Expr`: the operator node `tryParseOp` builds (parse.js:165-170). */
  predicate IsBinary(n: Node)
    decreases n, 0
  {
    var s := Sig(n.children);
    SigIn(n.children);
    n.kind == Expr && |s| == 3 &&
    s[0].N? && IsOperand(s[0].node) &&
    IsTokenChild(s[1]) && IsBinaryOp(s[1].elem.token) &&
    s[2].N? && IsExpr(s[2].node)
  }

  /** The node `parseExpr` builds: one operand, or one operator node. */
  predicate IsExpr(n: Node)
    decreases n, 1
  {
    var s := Sig(n.children);
    SigIn(n.children);
    n.kind == Expr && |s| == 1 && s[0].N? && (IsOperand(s[0].node) || IsBinary(s[0].node))
  }

  /** `FunctionCall := Lhs '(' Expr ')'` (parse.js:93-99) */
  predicate IsCall(n: Node)
    decreases n, 0
  {
    var s := Sig(n.children);
    SigIn(n.children);
    n.kind == Function && |s| == 4 &&
    s[0].N? && IsLhs(s[0].node) && s[1] == Leaf(Op, "(") &&
    s[2].N? && IsExpr(s[2].node) && s[3] == Leaf(Op, ")")
  }

  /** `For := 'for' Lhs '=' Expr ',' Expr ',' Expr 'do' Body 'end'` (parse.js:173-186) */
  predicate IsFor(n: Node)
    decreases n, 0
  {
    var s := Sig(n.children);
    SigIn(n.children);
    n.kind == For && |s| == 11 &&
    s[0] == Leaf(Keyword, "for") && s[1].N? && IsLhs(s[1].node) && s[2] == Leaf(Op, "=") &&
    s[3].N? && IsExpr(s[3].node) && s[4] == Leaf(Op, ",") &&
    s[5].N? && IsExpr(s[5].node) && s[6] == Leaf(Op, ",") &&
    s[7].N? && IsExpr(s[7].node) && s[8] == Leaf(Keyword, "do") &&
    s[9].N? && IsBody(s[9].node) && s[10] == Leaf(Keyword, "end")
  }

  /** `ElseIf := 'elseif' Expr 'then' Body` (parse.js:206-212) */
  predicate IsElseIf(n: Node)
    decreases n, 0
  {
    var s := Sig(n.children);
    SigIn(n.children);
    n.kind == ElseIf && |s| == 4 &&
    s[0] == Leaf(Keyword, "elseif") && s[1].N? && IsExpr(s[1].node) &&
    s[2] == Leaf(Keyword, "then") && s[3].N? && IsBody(s[3].node)
  }

  /** `Else := 'else' Body` (parse.js:199-201) */
  predicate IsElse(n: Node)
    decreases n, 0
  {
    var s := Sig(n.children);
    SigIn(n.children);
    n.kind == Else && |s| == 2 && s[0] == Leaf(Keyword, "else") && s[1].N? && IsBody(s[1].node)
  }

  /** `If := 'if' Expr 'then' Body ElseIf* Else? 'end'` (parse.js:188-204) */
  predicate IsIf(n: Node)
    decreases n, 0
  {
    var s := Sig(n.children);
    SigIn(n.children);
    n.kind == If && |s| >= 5 &&
    s[0] == Leaf(Keyword, "if") && s[1].N? && IsExpr(s[1].node) &&
    s[2] == Leaf(Keyword, "then") && s[3].N? && IsBody(s[3].node) &&
    s[|s| - 1] == Leaf(Keyword, "end") &&
    forall i :: 4 <= i < |s| - 1 ==>
      s[i].N? && (IsElseIf(s[i].node) || (i == |s| - 2 && IsElse(s[i].node)))
  }

  predicate IsStatement(n: Node)
    decreases n, 1
  {
    IsFor(n) || IsIf(n) || IsCall(n)
  }

  /** The node `parseBlock` builds: statements only (parse.js:49-67). */
  predicate IsBody(n: Node)
    decreases n, 0
  {
    var s := Sig(n.children);
    SigIn(n.children);
    n.kind == Body && forall i :: 0 <= i < |s| ==> s[i].N? && IsStatement(s[i].node)
  }
}
