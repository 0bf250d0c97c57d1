/** What the productions of parse.js build: every successful production
    holds, as the leaves of its node, exactly the elements it consumed
    (skipped comments and white space included, in order), and its
    significant children have the shape of its grammar rule. */
module ParseProps {
  import opened Tokens
  import opened Tree
  import opened ParseSpec

  /** The children `k` are `kids` followed by the elements from `pos` up
      to the cursor `p`: stated against the rest of the input, so that
      consecutive steps chain by equality. */
  predicate Extends(elems: seq<Elem>, pos: nat, kids: seq<Child>, k: seq<Child>, p: nat)
    requires pos <= |elems| && p <= |elems|
  {
    ChildLeaves(k) + elems[p..] == ChildLeaves(kids) + elems[pos..]
  }

  /** The leaves of `n` are the elements from `pos` up to the cursor `p`. */
  predicate Covers(elems: seq<Elem>, pos: nat, n: Node, p: nat)
    requires pos <= |elems| && p <= |elems|
  {
    Leaves(n) + elems[p..] == elems[pos..]
  }

  lemma CoversSlice(elems: seq<Elem>, pos: nat, n: Node, p: nat)
    requires pos <= p <= |elems| && Covers(elems, pos, n, p)
    ensures Leaves(n) == elems[pos..p]
  {
    assert elems[pos..] == elems[pos..p] + elems[p..];
    assert |Leaves(n)| == p - pos;
    assert Leaves(n) == (Leaves(n) + elems[p..])[..p - pos];
  }

  /** A node built from children that extend the empty list covers what they hold. */
  lemma NodeCovers(elems: seq<Elem>, pos: nat, kind: NodeKind, k: seq<Child>, p: nat)
    requires pos <= |elems| && p <= |elems| && Extends(elems, pos, [], k, p)
    ensures Covers(elems, pos, Node(kind, k), p)
  {
    assert ChildLeaves([]) == [];
  }

  /** Significant children are all statements. */
  predicate AllStatements(cs: seq<Child>) {
    forall i :: 0 <= i < |Sig(cs)| ==> Sig(cs)[i].N? && IsStatement(Sig(cs)[i].node)
  }

  /** Children that are all `elseif` nodes. */
  predicate AllElseIfs(s: seq<Child>) {
    forall i :: 0 <= i < |s| ==> s[i].N? && IsElseIf(s[i].node)
  }

  // ---------------------------------------------------------------------
  // One step at a time.

  /** `nextToken` attaches the skipped elements; the token it returns is
      the element just before the new cursor. */
  lemma NextTokenStep(elems: seq<Elem>, pos: nat, kids: seq<Child>)
    requires pos <= |elems| && NextTokenF(elems, pos, kids).Ok?
    ensures var (k, t, p) := NextTokenF(elems, pos, kids).value;
      Extends(elems, pos, kids, k, p - 1)
  {
    var (k, t, p) := NextTokenF(elems, pos, kids).value;
    SkipExtends(elems, pos, kids, k, p - 1);
  }

  /** Children that add the skipped elements from `pos` up to `i`. */
  lemma SkipExtends(elems: seq<Elem>, pos: nat, kids: seq<Child>, k: seq<Child>, i: nat)
    requires pos <= i <= |elems| && ChildLeaves(k) == ChildLeaves(kids) + elems[pos..i]
    ensures Extends(elems, pos, kids, k, i)
  {
    SkipRest(elems, pos, i, ChildLeaves(kids), ChildLeaves(k));
  }

  /** One element consumed, against the rest of the input. */
  lemma TakeRest(elems: seq<Elem>, p: nat, a: seq<Elem>)
    requires 0 < p <= |elems|
    ensures (a + [elems[p - 1]]) + elems[p..] == a + elems[p - 1..]
  {
    calc {
      (a + [elems[p - 1]]) + elems[p..];
      a + ([elems[p - 1]] + elems[p..]);
      { assert [elems[p - 1]] + elems[p..] == elems[p - 1..]; }
      a + elems[p - 1..];
    }
  }

  /** Attaching the token just consumed. */
  lemma TokenStep(elems: seq<Elem>, p: nat, kids: seq<Child>)
    requires 0 < p <= |elems| && elems[p - 1].Tok?
    ensures Extends(elems, p - 1, kids, AttachElem(kids, elems[p - 1]), p)
    ensures Sig(AttachElem(kids, elems[p - 1])) == Sig(kids) + [E(elems[p - 1])]
  {
    TakeRest(elems, p, ChildLeaves(kids));
  }

  /** `expect` attaches the skipped elements and the expected token. */
  lemma ExpectStep(elems: seq<Elem>, pos: nat, kids: seq<Child>, kind: TokenKind, text: string)
    requires pos <= |elems| && ExpectF(elems, pos, kids, kind, text).Ok?
    ensures var (k, p) := ExpectF(elems, pos, kids, kind, text).value;
      Extends(elems, pos, kids, k, p) && Sig(k) == Sig(kids) + [Leaf(kind, text)]
  {
    var (k0, t, p) := NextTokenF(elems, pos, kids).value;
    assert ExpectF(elems, pos, kids, kind, text) == Ok((AttachElem(k0, Tok(t)), p));
    NextTokenStep(elems, pos, kids);
    TokenStep(elems, p, k0);
  }

  /** Appending a node that covers the next elements. */
  lemma AttachStep(elems: seq<Elem>, p: nat, kids: seq<Child>, n: Node, q: nat)
    requires p <= |elems| && q <= |elems| && Covers(elems, p, n, q)
    ensures Extends(elems, p, kids, kids + [N(n)], q)
    ensures Sig(kids + [N(n)]) == Sig(kids) + [N(n)]
  {
    var k := Attach(kids, n);
    assert ChildLeaves(k) + elems[q..] == ChildLeaves(kids) + (Leaves(n) + elems[q..]);
  }

  /** Statements stay statements when one more is appended. */
  lemma StatementsSnoc(kids: seq<Child>, n: Node)
    requires AllStatements(kids) && IsStatement(n)
    ensures AllStatements(kids + [N(n)])
  {
    var k := Attach(kids, n);
    assert Sig(k) == Sig(kids) + [N(n)];
  }

  /** The operator node replaces the last child, holding it first. */
  lemma ReplaceLast(elems: seq<Elem>, pos: nat, kids: seq<Child>, m: Node, q: nat)
    requires pos <= |elems| && q <= |elems| && |kids| > 0
    requires Leaves(m) + elems[q..] == LeavesOf(kids[|kids| - 1]) + elems[pos..]
    ensures Extends(elems, pos, kids, kids[..|kids| - 1] + [N(m)], q)
  {
    var front := kids[..|kids| - 1];
    var k := Attach(front, m);
    calc {
      ChildLeaves(k) + elems[q..];
      ChildLeaves(front) + (Leaves(m) + elems[q..]);
      ChildLeaves(front) + (LeavesOf(kids[|kids| - 1]) + elems[pos..]);
      (ChildLeaves(front) + LeavesOf(kids[|kids| - 1])) + elems[pos..];
      ChildLeaves(kids) + elems[pos..];
    }
  }

  /** A single child's leaves. */
  lemma OneChild(c: Child)
    ensures ChildLeaves([c]) == LeavesOf(c)
    ensures Sig([c]) == if Significant(c) then [c] else []
  {
    assert [c][..0] == [];
  }

  // ---------------------------------------------------------------------
  // The productions.

  /** `parseExpr` unfolded once, on the path where every step succeeds. */
  lemma ExprDef(elems: seq<Elem>, pos: nat)
    requires pos <= |elems| && NextTokenF(elems, pos, []).Ok?
    ensures var (k, t, p) := NextTokenF(elems, pos, []).value;
      var o := if t == Token(Op, "(") then ParseParenF(elems, p, t) else Ok((Node(Expr, [E(Tok(t))]), p));
      o.Ok? ==>
      var x := TryParseOpF(elems, o.value.1, k + [N(o.value.0)]);
      x.Ok? ==> ParseExprF(elems, pos) == Ok((Node(Expr, x.value.0), x.value.1))
  {
  }

  /** The operand `parseExpr` builds from a token other than `(`. */
  lemma LeafOperand(elems: seq<Elem>, p: nat, t: Token)
    requires 0 < p <= |elems| && elems[p - 1] == Tok(t) && t != Token(Op, "(")
    ensures Covers(elems, p - 1, Node(Expr, [E(Tok(t))]), p) && IsOperand(Node(Expr, [E(Tok(t))]))
  {
    OneChild(E(Tok(t)));
    TakeRest(elems, p, []);
  }

  /** An expression node: the skipped elements, then one operand or operator node. */
  lemma ExprCompose(elems: seq<Elem>, pos: nat, k: seq<Child>, p: nat, on: Node, q: nat, xs: seq<Child>, e: nat)
    requires 0 < p <= |elems| && pos <= |elems| && q <= |elems| && e <= |elems|
    requires Extends(elems, pos, [], k, p - 1) && Sig(k) == []
    requires Covers(elems, p - 1, on, q) && IsOperand(on)
    requires Extends(elems, q, k + [N(on)], xs, e)
    requires |xs| == |k| + 1 && xs[..|k|] == k
    requires xs[|k|].N? && (IsOperand(xs[|k|].node) || IsBinary(xs[|k|].node))
    ensures Covers(elems, pos, Node(Expr, xs), e) && IsExpr(Node(Expr, xs))
  {
    AttachStep(elems, p - 1, k, on, q);
    NodeCovers(elems, pos, Expr, xs, e);
    assert xs[..|xs| - 1] == k;
    assert Sig(xs) == [xs[|k|]];
  }

  /** The operand `parseExpr` builds from the token just consumed: a
      parenthesised expression after `(`, otherwise the token alone. */
  lemma {:induction false} OperandShape(elems: seq<Elem>, p: nat, t: Token)
    requires 0 < p <= |elems| && elems[p - 1] == Tok(t)
    ensures var o := if t == Token(Op, "(") then ParseParenF(elems, p, t) else Ok((Node(Expr, [E(Tok(t))]), p));
      o.Ok? ==> Covers(elems, p - 1, o.value.0, o.value.1) && IsOperand(o.value.0)
    decreases |elems| - p, 2
  {
    if t == Token(Op, "(") {
      ParenShape(elems, p, t);
    } else {
      LeafOperand(elems, p, t);
    }
  }

  /** `parseExpr` when every step succeeds, from what each step built. */
  lemma ExprStep(elems: seq<Elem>, pos: nat, k: seq<Child>, t: Token, p: nat, on: Node, q: nat, xs: seq<Child>, e: nat)
    requires pos <= |elems| && NextTokenF(elems, pos, []) == Ok((k, t, p))
    requires (if t == Token(Op, "(") then ParseParenF(elems, p, t) else Ok((Node(Expr, [E(Tok(t))]), p))) == Ok((on, q))
    requires TryParseOpF(elems, q, k + [N(on)]) == Ok((xs, e))
    requires Covers(elems, p - 1, on, q) && IsOperand(on)
    requires Extends(elems, q, k + [N(on)], xs, e)
    requires xs[|k + [N(on)]| - 1].N? &&
      (IsOperand(xs[|k + [N(on)]| - 1].node) || IsBinary(xs[|k + [N(on)]| - 1].node))
    ensures ParseExprF(elems, pos) == Ok((Node(Expr, xs), e))
    ensures Covers(elems, pos, Node(Expr, xs), e) && IsExpr(Node(Expr, xs))
  {
    NextTokenStep(elems, pos, []);
    ExprDef(elems, pos);
    assert (k + [N(on)])[..|k|] == k;
    ExprCompose(elems, pos, k, p, on, q, xs, e);
  }

  /** When `parseExpr` succeeds, so did each of its steps: these are their results. */
  lemma ExprOk(elems: seq<Elem>, pos: nat) returns (k: seq<Child>, t: Token, p: nat, on: Node, q: nat)
    requires pos <= |elems| && ParseExprF(elems, pos).Ok?
    ensures NextTokenF(elems, pos, []) == Ok((k, t, p))
    ensures (if t == Token(Op, "(") then ParseParenF(elems, p, t) else Ok((Node(Expr, [E(Tok(t))]), p))) == Ok((on, q))
    ensures TryParseOpF(elems, q, k + [N(on)]).Ok?
  {
    k, t, p := NextTokenF(elems, pos, []).value.0, NextTokenF(elems, pos, []).value.1, NextTokenF(elems, pos, []).value.2;
    var o := if t == Token(Op, "(") then ParseParenF(elems, p, t) else Ok((Node(Expr, [E(Tok(t))]), p));
    on, q := o.value.0, o.value.1;
  }

  /** `parseExpr` (parse.js:134-144): its node holds exactly the elements
      it consumed and is an expression. */
  lemma {:induction false} ExprShape(elems: seq<Elem>, pos: nat)
    requires pos <= |elems|
    ensures var r := ParseExprF(elems, pos);
      r.Ok? ==> Covers(elems, pos, r.value.0, r.value.1) && IsExpr(r.value.0)
    decreases |elems| - pos, 0
  {
    if ParseExprF(elems, pos).Ok? {
      var k, t, p, on, q := ExprOk(elems, pos);
      NextTokenStep(elems, pos, []);
      OperandShape(elems, p, t);
      var x := TryParseOpF(elems, q, k + [N(on)]);
      TryParseOpShape(elems, q, k + [N(on)]);
      ExprStep(elems, pos, k, t, p, on, q, x.value.0, x.value.1);
    }
  }

  /** `parseParen` unfolded once, on the path where every step succeeds. */
  lemma ParenDef(elems: seq<Elem>, pos: nat, open: Token)
    requires pos <= |elems| && ParseExprF(elems, pos).Ok?
    ensures var (en, p) := ParseExprF(elems, pos).value;
      var c := ExpectF(elems, p, [E(Tok(open)), N(en)], Op, ")");
      c.Ok? ==> ParseParenF(elems, pos, open) == Ok((Node(Expr, c.value.0), c.value.1))
  {
  }

  /** A parenthesised operand: `(`, an expression, the skipped elements and `)`. */
  lemma ParenCompose(elems: seq<Elem>, pos: nat, open: Token, en: Node, p: nat, cs: seq<Child>, q: nat)
    requires 0 < pos <= |elems| && p <= |elems| && q <= |elems|
    requires elems[pos - 1] == Tok(open) && open == Token(Op, "(")
    requires Covers(elems, pos, en, p) && IsExpr(en)
    requires Extends(elems, p, [E(Tok(open)), N(en)], cs, q)
    requires Sig(cs) == Sig([E(Tok(open)), N(en)]) + [Leaf(Op, ")")]
    ensures Covers(elems, pos - 1, Node(Expr, cs), q) && IsOperand(Node(Expr, cs))
  {
    var kids := [E(Tok(open)), N(en)];
    OneChild(E(Tok(open)));
    assert kids == [E(Tok(open))] + [N(en)];
    TakeRest(elems, pos, []);
    AttachStep(elems, pos, [E(Tok(open))], en, p);
    NodeCovers(elems, pos - 1, Expr, cs, q);
  }

  /** `parseParen` (parse.js:146-151): after the `(` just consumed, the
      node holds it, an expression and the closing `)`. */
  lemma {:induction false} ParenShape(elems: seq<Elem>, pos: nat, open: Token)
    requires 0 < pos <= |elems| && elems[pos - 1] == Tok(open) && open == Token(Op, "(")
    ensures var r := ParseParenF(elems, pos, open);
      r.Ok? ==> Covers(elems, pos - 1, r.value.0, r.value.1) && IsOperand(r.value.0)
    decreases |elems| - pos, 1
  {
    var e := ParseExprF(elems, pos);
    if e.Ok? {
      var (en, p) := e.value;
      ExprShape(elems, pos);
      ParenDef(elems, pos, open);
      var c := ExpectF(elems, p, [E(Tok(open)), N(en)], Op, ")");
      if c.Ok? {
        ExpectStep(elems, p, [E(Tok(open)), N(en)], Op, ")");
        ParenCompose(elems, pos, open, en, p, c.value.0, c.value.1);
      }
    }
  }

  /** `tryParseOp` unfolded once where a binary operator follows. */
  lemma OpDef(elems: seq<Elem>, pos: nat, kids: seq<Child>)
    requires pos <= |elems| && |kids| > 0 && NextIsBinaryOp(elems, pos)
    ensures NextTokenF(elems, pos, [kids[|kids| - 1]]).Ok?
    ensures var (k, op, p) := NextTokenF(elems, pos, [kids[|kids| - 1]]).value;
      var rhs := ParseExprF(elems, p);
      rhs.Ok? ==>
        TryParseOpF(elems, pos, kids) ==
        Ok((kids[..|kids| - 1] + [N(Node(Expr, k + [E(Tok(op)), N(rhs.value.0)]))], rhs.value.1))
  {
  }

  /** The children of an operator node, built as `tryParseOp` appends them. */
  lemma OpChildren(k: seq<Child>, op: Elem, rn: Node)
    ensures k + [E(op), N(rn)] == Attach(AttachElem(k, op), rn)
    ensures Sig(k + [E(op), N(rn)]) == Sig(k) + (if op.Tok? then [E(op)] else []) + [N(rn)]
  {
    assert k + [E(op), N(rn)] == (k + [E(op)]) + [N(rn)];
  }

  /** The operator node: the previous operand, the skipped elements, the
      operator and the expression after it. */
  lemma OpCompose(elems: seq<Elem>, pos: nat, kids: seq<Child>, k: seq<Child>, p: nat, rn: Node, q: nat)
    requires pos <= |elems| && 0 < p <= |elems| && q <= |elems| && |kids| > 0 && elems[p - 1].Tok?
    requires Extends(elems, pos, [kids[|kids| - 1]], k, p - 1)
    requires Covers(elems, p, rn, q)
    ensures Extends(elems, pos, kids, kids[..|kids| - 1] + [N(Node(Expr, k + [E(elems[p - 1]), N(rn)]))], q)
  {
    var prev := kids[|kids| - 1];
    OneChild(prev);
    var k1 := AttachElem(k, elems[p - 1]);
    TokenStep(elems, p, k);
    AttachStep(elems, p, k1, rn, q);
    OpChildren(k, elems[p - 1], rn);
    var m := Node(Expr, k + [E(elems[p - 1]), N(rn)]);
    assert Leaves(m) + elems[q..] == LeavesOf(prev) + elems[pos..];
    ReplaceLast(elems, pos, kids, m, q);
  }

  /** The operator node is `Operand BinOp Expr`. */
  lemma BinaryCompose(prev: Child, k: seq<Child>, op: Token, rn: Node)
    requires prev.N? && IsOperand(prev.node) && Sig(k) == Sig([prev])
    requires IsBinaryOp(op) && IsExpr(rn)
    ensures IsBinary(Node(Expr, k + [E(Tok(op)), N(rn)]))
  {
    BinarySig(prev, k, Tok(op), rn);
    BinaryOfSig(Node(Expr, k + [E(Tok(op)), N(rn)]), prev, op, rn);
  }

  /** The significant children of the operator node. */
  lemma BinarySig(prev: Child, k: seq<Child>, op: Elem, rn: Node)
    requires prev.N? && Sig(k) == Sig([prev]) && op.Tok?
    ensures Sig(k + [E(op), N(rn)]) == [prev, E(op), N(rn)]
  {
    OneChild(prev);
    OpChildren(k, op, rn);
  }

  /** A node whose significant children are an operand, an operator and an expression. */
  lemma BinaryOfSig(n: Node, prev: Child, op: Token, rn: Node)
    requires n.kind == Expr && Sig(n.children) == [prev, E(Tok(op)), N(rn)]
    requires prev.N? && IsOperand(prev.node) && IsBinaryOp(op) && IsExpr(rn)
    ensures IsBinary(n)
  {
  }

  /** One operator step, with the token after the operand and the
      expression after the operator already parsed. */
  lemma OpStep(elems: seq<Elem>, pos: nat, kids: seq<Child>, k: seq<Child>, op: Token, p: nat, rn: Node, q: nat)
    requires pos <= |elems| && |kids| > 0 && NextIsBinaryOp(elems, pos)
    requires NextTokenF(elems, pos, [kids[|kids| - 1]]) == Ok((k, op, p))
    requires ParseExprF(elems, p) == Ok((rn, q))
    requires Covers(elems, p, rn, q) && IsExpr(rn)
    ensures var m := Node(Expr, k + [E(Tok(op)), N(rn)]);
      TryParseOpF(elems, pos, kids) == Ok((kids[..|kids| - 1] + [N(m)], q)) &&
      Extends(elems, pos, kids, kids[..|kids| - 1] + [N(m)], q)
    ensures var prev := kids[|kids| - 1];
      prev.N? && IsOperand(prev.node) ==> IsBinary(Node(Expr, k + [E(Tok(op)), N(rn)]))
  {
    var prev := kids[|kids| - 1];
    OpResult(elems, pos, kids, k, op, p, rn, q);
    OpExtends(elems, pos, kids, k, op, p, rn, q);
    if prev.N? && IsOperand(prev.node) {
      BinaryCompose(prev, k, op, rn);
    }
  }

  /** The operator step's result, from the definition of `tryParseOp`. */
  lemma OpResult(elems: seq<Elem>, pos: nat, kids: seq<Child>, k: seq<Child>, op: Token, p: nat, rn: Node, q: nat)
    requires pos <= |elems| && |kids| > 0 && NextIsBinaryOp(elems, pos)
    requires NextTokenF(elems, pos, [kids[|kids| - 1]]) == Ok((k, op, p))
    requires ParseExprF(elems, p) == Ok((rn, q))
    ensures TryParseOpF(elems, pos, kids) == Ok((kids[..|kids| - 1] + [N(Node(Expr, k + [E(Tok(op)), N(rn)]))], q))
  {
    OpDef(elems, pos, kids);
  }

  /** The operator step keeps the consumed elements as leaves. */
  lemma OpExtends(elems: seq<Elem>, pos: nat, kids: seq<Child>, k: seq<Child>, op: Token, p: nat, rn: Node, q: nat)
    requires pos <= |elems| && |kids| > 0 && q <= |elems|
    requires NextTokenF(elems, pos, [kids[|kids| - 1]]) == Ok((k, op, p))
    requires Covers(elems, p, rn, q)
    ensures Extends(elems, pos, kids, kids[..|kids| - 1] + [N(Node(Expr, k + [E(Tok(op)), N(rn)]))], q)
  {
    NextTokenStep(elems, pos, [kids[|kids| - 1]]);
    OpCompose(elems, pos, kids, k, p, rn, q);
  }

  /** `tryParseOp` (parse.js:153-171): when a binary operator follows,
      the last child is replaced by an operator node that holds it, the
      skipped elements, the operator and the expression after it. */
  lemma {:induction false} TryParseOpShape(elems: seq<Elem>, pos: nat, kids: seq<Child>)
    requires pos <= |elems| && |kids| > 0
    ensures var r := TryParseOpF(elems, pos, kids);
      r.Ok? ==> Extends(elems, pos, kids, r.value.0, r.value.1)
    ensures var r := TryParseOpF(elems, pos, kids);
      var last := kids[|kids| - 1];
      r.Ok? && last.N? && IsOperand(last.node) ==>
        r.value.0[|kids| - 1].N? &&
        (IsOperand(r.value.0[|kids| - 1].node) || IsBinary(r.value.0[|kids| - 1].node))
    decreases |elems| - pos, 0
  {
    if NextIsBinaryOp(elems, pos) {
      var nt := NextTokenF(elems, pos, [kids[|kids| - 1]]);
      if nt.Ok? {
        var (k, op, p) := nt.value;
        var rhs := ParseExprF(elems, p);
        if rhs.Ok? {
          ExprShape(elems, p);
          OpStep(elems, pos, kids, k, op, p, rhs.value.0, rhs.value.1);
        }
      }
    }
  }

  /** A node whose leaves are a slice covers that slice. */
  lemma SliceCovers(elems: seq<Elem>, pos: nat, n: Node, p: nat)
    requires pos <= p <= |elems| && Leaves(n) == elems[pos..p]
    ensures Covers(elems, pos, n, p)
  {
    assert elems[pos..p] + elems[p..] == elems[pos..];
  }

  /** `parseLhs` (parse.js:101-108) covers what it consumed. */
  lemma LhsShape(elems: seq<Elem>, pos: nat)
    requires pos <= |elems|
    ensures var r := ParseLhsF(elems, pos);
      r.Ok? ==> Covers(elems, pos, r.value.0, r.value.1) && IsLhs(r.value.0)
  {
    var r := ParseLhsF(elems, pos);
    if r.Ok? {
      SliceCovers(elems, pos, r.value.0, r.value.1);
    }
  }

  /** A first child that covers the first elements. */
  lemma FirstStep(elems: seq<Elem>, pos: nat, n: Node, p: nat)
    requires pos <= |elems| && p <= |elems| && Covers(elems, pos, n, p)
    ensures Extends(elems, pos, [], [N(n)], p) && Sig([N(n)]) == [N(n)]
  {
    OneChild(N(n));
  }

  // ---------------------------------------------------------------------
  // parseFunctionCall

  /** `parseFunctionCall` unfolded once, on the path where every step succeeds. */
  lemma CallDef(elems: seq<Elem>, pos: nat)
    requires pos <= |elems| && ParseLhsF(elems, pos).Ok?
    ensures var (ln, l1) := ParseLhsF(elems, pos).value;
      var a := ExpectF(elems, l1, [N(ln)], Op, "(");
      a.Ok? ==>
      var e := ParseExprF(elems, a.value.1);
      e.Ok? ==>
      var b := ExpectF(elems, e.value.1, a.value.0 + [N(e.value.0)], Op, ")");
      b.Ok? ==>
      ParseFunctionCallF(elems, pos) == Ok((Node(Function, b.value.0), b.value.1))
  {
  }

  lemma CallCompose(elems: seq<Elem>, pos: nat, ln: Node, l1: nat, a0: seq<Child>, a1: nat,
                    en: Node, e1: nat, b0: seq<Child>, b1: nat)
    requires pos <= |elems| && l1 <= |elems| && a1 <= |elems| && e1 <= |elems| && b1 <= |elems|
    requires Covers(elems, pos, ln, l1) && IsLhs(ln)
    requires Extends(elems, l1, [N(ln)], a0, a1) && Sig(a0) == Sig([N(ln)]) + [Leaf(Op, "(")]
    requires Covers(elems, a1, en, e1) && IsExpr(en)
    requires Extends(elems, e1, a0 + [N(en)], b0, b1) && Sig(b0) == Sig(a0 + [N(en)]) + [Leaf(Op, ")")]
    ensures Covers(elems, pos, Node(Function, b0), b1) && IsCall(Node(Function, b0))
  {
    FirstStep(elems, pos, ln, l1);
    AttachStep(elems, a1, a0, en, e1);
    NodeCovers(elems, pos, Function, b0, b1);
    assert Sig(b0) == [N(ln), Leaf(Op, "("), N(en), Leaf(Op, ")")];
  }

  /** `parseFunctionCall` (parse.js:93-99): `Lhs ( Expr )`. */
  lemma CallShape(elems: seq<Elem>, pos: nat)
    requires pos <= |elems|
    ensures var r := ParseFunctionCallF(elems, pos);
      r.Ok? ==> Covers(elems, pos, r.value.0, r.value.1) && IsCall(r.value.0)
  {
    var l := ParseLhsF(elems, pos);
    if l.Ok? {
      var (ln, l1) := l.value;
      LhsShape(elems, pos);
      CallDef(elems, pos);
      var a := ExpectF(elems, l1, [N(ln)], Op, "(");
      if a.Ok? {
        ExpectStep(elems, l1, [N(ln)], Op, "(");
        var e := ParseExprF(elems, a.value.1);
        if e.Ok? {
          ExprShape(elems, a.value.1);
          var b := ExpectF(elems, e.value.1, a.value.0 + [N(e.value.0)], Op, ")");
          if b.Ok? {
            ExpectStep(elems, e.value.1, a.value.0 + [N(e.value.0)], Op, ")");
            CallCompose(elems, pos, ln, l1, a.value.0, a.value.1, e.value.0, e.value.1, b.value.0, b.value.1);
          }
        }
      }
    }
  }

  // ---------------------------------------------------------------------
  // parseBlock, parseFor, parseIf and parseElseIf

  /** A node covering the next elements, then an expected token. */
  lemma NodeThenToken(elems: seq<Elem>, pos: nat, kids: seq<Child>, x: Node, p: nat, q: nat,
                      c0: seq<Child>, c1: nat, kind: TokenKind, text: string)
    requires pos <= |elems| && p <= |elems| && q <= |elems| && c1 <= |elems|
    requires Extends(elems, pos, [], kids, p) && Covers(elems, p, x, q)
    requires Extends(elems, q, kids + [N(x)], c0, c1) && Sig(c0) == Sig(kids + [N(x)]) + [Leaf(kind, text)]
    ensures Extends(elems, pos, [], c0, c1) && Sig(c0) == Sig(kids) + [N(x), Leaf(kind, text)]
  {
    AttachStep(elems, p, kids, x, q);
  }

  /** One more statement in a block. */
  lemma BlockStep(elems: seq<Elem>, pos: nat, kids: seq<Child>, n: Node, p: nat, r0: seq<Child>, r1: nat)
    requires pos <= |elems| && p <= |elems| && r1 <= |elems|
    requires Covers(elems, pos, n, p) && IsStatement(n)
    requires Extends(elems, p, kids + [N(n)], r0, r1)
    requires AllStatements(kids + [N(n)]) ==> AllStatements(r0)
    ensures Extends(elems, pos, kids, r0, r1) && (AllStatements(kids) ==> AllStatements(r0))
  {
    AttachStep(elems, pos, kids, n, p);
    if AllStatements(kids) {
      StatementsSnoc(kids, n);
    }
  }

  /** The loop of `parseBlock` unfolded once at a statement. */
  lemma BlockLoopDef(elems: seq<Elem>, pos: nat, kids: seq<Child>)
    requires pos <= |elems|
    ensures var tok := PeekToken(elems, pos);
      var s := ParseForF(elems, pos);
      TestKeyword(tok, ["for"]) && s.Ok? ==>
        BlockLoopF(elems, pos, kids) == BlockLoopF(elems, s.value.1, kids + [N(s.value.0)])
    ensures var tok := PeekToken(elems, pos);
      var s := ParseIfF(elems, pos);
      !TestKeyword(tok, ["for"]) && TestKeyword(tok, ["if"]) && s.Ok? ==>
        BlockLoopF(elems, pos, kids) == BlockLoopF(elems, s.value.1, kids + [N(s.value.0)])
    ensures var tok := PeekToken(elems, pos);
      var s := ParseFunctionCallF(elems, pos);
      tok.Some? && !TestKeyword(tok, ["for"]) && !TestKeyword(tok, ["if"]) &&
      !TestKeyword(tok, ["end", "elseif", "else"]) && tok.value.kind == Ident && s.Ok? ==>
        BlockLoopF(elems, pos, kids) == BlockLoopF(elems, s.value.1, kids + [N(s.value.0)])
  {
  }

  /** The loop of `parseBlock` (parse.js:51-66) appends statements that
      cover the elements it consumed. */
  lemma {:induction false} BlockLoopShape(elems: seq<Elem>, pos: nat, kids: seq<Child>)
    requires pos <= |elems|
    ensures var r := BlockLoopF(elems, pos, kids);
      r.Ok? ==> Extends(elems, pos, kids, r.value.0, r.value.1) &&
                (AllStatements(kids) ==> AllStatements(r.value.0))
    decreases |elems| - pos, 3
  {
    var tok := PeekToken(elems, pos);
    BlockLoopDef(elems, pos, kids);
    if tok.None? || (!TestKeyword(tok, ["for"]) && !TestKeyword(tok, ["if"]) &&
                     (TestKeyword(tok, ["end", "elseif", "else"]) || tok.value.kind != Ident)) {
    } else {
      var s := if TestKeyword(tok, ["for"]) then ParseForF(elems, pos)
               else if TestKeyword(tok, ["if"]) then ParseIfF(elems, pos)
               else ParseFunctionCallF(elems, pos);
      if s.Ok? {
        if TestKeyword(tok, ["for"]) {
          ForShape(elems, pos);
        } else if TestKeyword(tok, ["if"]) {
          IfShape(elems, pos);
        } else {
          CallShape(elems, pos);
        }
        var (n, p) := s.value;
        BlockLoopShape(elems, p, kids + [N(n)]);
        var r := BlockLoopF(elems, p, kids + [N(n)]);
        if r.Ok? {
          BlockStep(elems, pos, kids, n, p, r.value.0, r.value.1);
        }
      }
    }
  }

  /** `parseBlock` (parse.js:49-67): a body of statements that holds
      exactly the elements consumed. */
  lemma {:induction false} BlockShape(elems: seq<Elem>, pos: nat)
    requires pos <= |elems|
    ensures var r := ParseBlockF(elems, pos);
      r.Ok? ==> Covers(elems, pos, r.value.0, r.value.1) && IsBody(r.value.0)
    decreases |elems| - pos, 4
  {
    BlockLoopShape(elems, pos, []);
    var r := BlockLoopF(elems, pos, []);
    if r.Ok? {
      NodeCovers(elems, pos, Body, r.value.0, r.value.1);
    }
  }

  /** `parseFor` unfolded once, on the path where every step succeeds. */
  lemma ForDef(elems: seq<Elem>, pos: nat)
    requires pos <= |elems|
    ensures var a := ExpectF(elems, pos, [], Keyword, "for"); a.Ok? ==>
      var l := ParseLhsF(elems, a.value.1); l.Ok? ==>
      var b := ExpectF(elems, l.value.1, a.value.0 + [N(l.value.0)], Op, "="); b.Ok? ==>
      var e1 := ParseExprF(elems, b.value.1); e1.Ok? ==>
      var c := ExpectF(elems, e1.value.1, b.value.0 + [N(e1.value.0)], Op, ","); c.Ok? ==>
      var e2 := ParseExprF(elems, c.value.1); e2.Ok? ==>
      var d := ExpectF(elems, e2.value.1, c.value.0 + [N(e2.value.0)], Op, ","); d.Ok? ==>
      var e3 := ParseExprF(elems, d.value.1); e3.Ok? ==>
      var f := ExpectF(elems, e3.value.1, d.value.0 + [N(e3.value.0)], Keyword, "do"); f.Ok? ==>
      var body := ParseBlockF(elems, f.value.1); body.Ok? ==>
      var g := ExpectF(elems, body.value.1, f.value.0 + [N(body.value.0)], Keyword, "end"); g.Ok? ==>
      ParseForF(elems, pos) == Ok((Node(For, g.value.0), g.value.1))
  {
  }

  /** The tokens a `for` node holds, at the places `parseFor` expects them. */
  predicate ForTokens(s: seq<Child>) {
    |s| == 11 &&
    s[0] == Leaf(Keyword, "for") && s[2] == Leaf(Op, "=") && s[4] == Leaf(Op, ",") &&
    s[6] == Leaf(Op, ",") && s[8] == Leaf(Keyword, "do") && s[10] == Leaf(Keyword, "end")
  }

  /** The significant children of a `for` node, in the order `parseFor` attaches them. */
  lemma ForSigs(sa: seq<Child>, sb: seq<Child>, sc: seq<Child>, sd: seq<Child>, sf: seq<Child>, sg: seq<Child>,
                l: Node, e1: Node, e2: Node, e3: Node, body: Node)
    requires sa == [Leaf(Keyword, "for")]
    requires sb == sa + [N(l), Leaf(Op, "=")]
    requires sc == sb + [N(e1), Leaf(Op, ",")]
    requires sd == sc + [N(e2), Leaf(Op, ",")]
    requires sf == sd + [N(e3), Leaf(Keyword, "do")]
    requires sg == sf + [N(body), Leaf(Keyword, "end")]
    ensures ForTokens(sg)
    ensures sg[1] == N(l) && sg[3] == N(e1) && sg[5] == N(e2) && sg[7] == N(e3) && sg[9] == N(body)
  {
  }

  // LhsChild, ExprChild and BodyChild restate a child's grammar fact in the
  // exact terms ForCompose expects, so that ForShape stays cheap to check.
  lemma LhsChild(s: seq<Child>, k: nat, n: Node)
    requires k < |s| && s[k] == N(n) && IsLhs(n)
    ensures s[k].N? && IsLhs(s[k].node)
  {
  }

  lemma ExprChild(s: seq<Child>, k: nat, n: Node)
    requires k < |s| && s[k] == N(n) && IsExpr(n)
    ensures s[k].N? && IsExpr(s[k].node)
  {
  }

  lemma BodyChild(s: seq<Child>, k: nat, n: Node)
    requires k < |s| && s[k] == N(n) && IsBody(n)
    ensures s[k].N? && IsBody(s[k].node)
  {
  }

  lemma ForCompose(cs: seq<Child>)
    requires ForTokens(Sig(cs))
    requires Sig(cs)[1].N? && IsLhs(Sig(cs)[1].node)
    requires Sig(cs)[3].N? && IsExpr(Sig(cs)[3].node)
    requires Sig(cs)[5].N? && IsExpr(Sig(cs)[5].node)
    requires Sig(cs)[7].N? && IsExpr(Sig(cs)[7].node)
    requires Sig(cs)[9].N? && IsBody(Sig(cs)[9].node)
    ensures IsFor(Node(For, cs))
  {
  }

  /** An expression, then an expected token, after the children `kids`. */
  lemma ExprThen(elems: seq<Elem>, pos: nat, kids: seq<Child>, p: nat, kind: TokenKind, text: string)
    requires pos <= |elems| && p <= |elems| && Extends(elems, pos, [], kids, p)
    ensures var e := ParseExprF(elems, p);
      e.Ok? ==>
        IsExpr(e.value.0) &&
        var c := ExpectF(elems, e.value.1, kids + [N(e.value.0)], kind, text);
        c.Ok? ==>
          Extends(elems, pos, [], c.value.0, c.value.1) &&
          Sig(c.value.0) == Sig(kids) + [N(e.value.0), Leaf(kind, text)]
  {
    var e := ParseExprF(elems, p);
    if e.Ok? {
      ExprShape(elems, p);
      var c := ExpectF(elems, e.value.1, kids + [N(e.value.0)], kind, text);
      if c.Ok? {
        ExpectStep(elems, e.value.1, kids + [N(e.value.0)], kind, text);
        NodeThenToken(elems, pos, kids, e.value.0, p, e.value.1, c.value.0, c.value.1, kind, text);
      }
    }
  }

  /** `parseFor` (parse.js:173-186). */
  lemma {:induction false} ForShape(elems: seq<Elem>, pos: nat)
    requires pos <= |elems|
    ensures var r := ParseForF(elems, pos);
      r.Ok? ==> Covers(elems, pos, r.value.0, r.value.1) && IsFor(r.value.0)
    decreases |elems| - pos, 2
  {
    ForDef(elems, pos);
    var a := ExpectF(elems, pos, [], Keyword, "for");
    if a.Err? { return; }
    ExpectStep(elems, pos, [], Keyword, "for");
    var l := ParseLhsF(elems, a.value.1);
    if l.Err? { return; }
    LhsShape(elems, a.value.1);
    var b := ExpectF(elems, l.value.1, a.value.0 + [N(l.value.0)], Op, "=");
    if b.Err? { return; }
    ExpectStep(elems, l.value.1, a.value.0 + [N(l.value.0)], Op, "=");
    NodeThenToken(elems, pos, a.value.0, l.value.0, a.value.1, l.value.1, b.value.0, b.value.1, Op, "=");
    ExprThen(elems, pos, b.value.0, b.value.1, Op, ",");
    var e1 := ParseExprF(elems, b.value.1);
    if e1.Err? { return; }
    var c := ExpectF(elems, e1.value.1, b.value.0 + [N(e1.value.0)], Op, ",");
    if c.Err? { return; }
    ExprThen(elems, pos, c.value.0, c.value.1, Op, ",");
    var e2 := ParseExprF(elems, c.value.1);
    if e2.Err? { return; }
    var d := ExpectF(elems, e2.value.1, c.value.0 + [N(e2.value.0)], Op, ",");
    if d.Err? { return; }
    ExprThen(elems, pos, d.value.0, d.value.1, Keyword, "do");
    var e3 := ParseExprF(elems, d.value.1);
    if e3.Err? { return; }
    var f := ExpectF(elems, e3.value.1, d.value.0 + [N(e3.value.0)], Keyword, "do");
    if f.Err? { return; }
    var body := ParseBlockF(elems, f.value.1);
    if body.Err? { return; }
    BlockShape(elems, f.value.1);
    var g := ExpectF(elems, body.value.1, f.value.0 + [N(body.value.0)], Keyword, "end");
    if g.Err? { return; }
    ExpectStep(elems, body.value.1, f.value.0 + [N(body.value.0)], Keyword, "end");
    NodeThenToken(elems, pos, f.value.0, body.value.0, f.value.1, body.value.1, g.value.0, g.value.1, Keyword, "end");
    NodeCovers(elems, pos, For, g.value.0, g.value.1);
    ForSigs(Sig(a.value.0), Sig(b.value.0), Sig(c.value.0), Sig(d.value.0), Sig(f.value.0), Sig(g.value.0),
            l.value.0, e1.value.0, e2.value.0, e3.value.0, body.value.0);
    var sg := Sig(g.value.0);
    LhsChild(sg, 1, l.value.0);
    ExprChild(sg, 3, e1.value.0);
    ExprChild(sg, 5, e2.value.0);
    ExprChild(sg, 7, e3.value.0);
    BodyChild(sg, 9, body.value.0);
    ForCompose(g.value.0);
  }

  /** `after` is `before` followed by `elseif` nodes only. */
  predicate ElseIfsAfter(before: seq<Child>, after: seq<Child>) {
    |before| <= |after| && after[..|before|] == before && AllElseIfs(after[|before|..])
  }

  /** `after` is `before`, perhaps followed by one `else` node. */
  predicate OptElseAfter(before: seq<Child>, after: seq<Child>) {
    |before| <= |after| <= |before| + 1 && after[..|before|] == before &&
    (|after| > |before| ==> after[|before|].N? && IsElse(after[|before|].node))
  }

  /** `parseElseIf` unfolded once, on the path where every step succeeds. */
  lemma ElseIfDef(elems: seq<Elem>, pos: nat)
    requires pos <= |elems|
    ensures var a := ExpectF(elems, pos, [], Keyword, "elseif"); a.Ok? ==>
      var c := ParseExprF(elems, a.value.1); c.Ok? ==>
      var b := ExpectF(elems, c.value.1, a.value.0 + [N(c.value.0)], Keyword, "then"); b.Ok? ==>
      var body := ParseBlockF(elems, b.value.1); body.Ok? ==>
      ParseElseIfF(elems, pos) == Ok((Node(ElseIf, b.value.0 + [N(body.value.0)]), body.value.1))
  {
  }

  /** A keyword, an expression, a second keyword and a block, as `if`
      and `elseif` both begin. */
  lemma GuardedBlock(elems: seq<Elem>, pos: nat, first: string, second: string,
                     a0: seq<Child>, a1: nat, c0: Node, c1: nat, b0: seq<Child>, b1: nat, body0: Node, body1: nat)
    requires pos <= |elems| && a1 <= |elems| && c1 <= |elems| && b1 <= |elems| && body1 <= |elems|
    requires Extends(elems, pos, [], a0, a1) && Sig(a0) == [Leaf(Keyword, first)]
    requires Covers(elems, a1, c0, c1)
    requires Extends(elems, c1, a0 + [N(c0)], b0, b1) && Sig(b0) == Sig(a0 + [N(c0)]) + [Leaf(Keyword, second)]
    requires Covers(elems, b1, body0, body1)
    ensures Extends(elems, pos, [], b0 + [N(body0)], body1)
    ensures Sig(b0 + [N(body0)]) == [Leaf(Keyword, first), N(c0), Leaf(Keyword, second), N(body0)]
  {
    NodeThenToken(elems, pos, a0, c0, a1, c1, b0, b1, Keyword, second);
    AttachStep(elems, b1, b0, body0, body1);
  }

  /** `parseElseIf` (parse.js:206-212). */
  lemma {:induction false} ElseIfShape(elems: seq<Elem>, pos: nat)
    requires pos <= |elems|
    ensures var r := ParseElseIfF(elems, pos);
      r.Ok? ==> Covers(elems, pos, r.value.0, r.value.1) && IsElseIf(r.value.0)
    decreases |elems| - pos, 0
  {
    ElseIfDef(elems, pos);
    var a := ExpectF(elems, pos, [], Keyword, "elseif");
    if a.Err? { return; }
    ExpectStep(elems, pos, [], Keyword, "elseif");
    var c := ParseExprF(elems, a.value.1);
    if c.Err? { return; }
    ExprShape(elems, a.value.1);
    var b := ExpectF(elems, c.value.1, a.value.0 + [N(c.value.0)], Keyword, "then");
    if b.Err? { return; }
    ExpectStep(elems, c.value.1, a.value.0 + [N(c.value.0)], Keyword, "then");
    var body := ParseBlockF(elems, b.value.1);
    if body.Err? { return; }
    BlockShape(elems, b.value.1);
    GuardedBlock(elems, pos, "elseif", "then", a.value.0, a.value.1, c.value.0, c.value.1,
                 b.value.0, b.value.1, body.value.0, body.value.1);
    NodeCovers(elems, pos, ElseIf, b.value.0 + [N(body.value.0)], body.value.1);
    ElseIfCompose(b.value.0 + [N(body.value.0)], c.value.0, body.value.0);
  }

  lemma ElseIfCompose(cs: seq<Child>, c: Node, body: Node)
    requires IsExpr(c) && IsBody(body)
    requires Sig(cs) == [Leaf(Keyword, "elseif"), N(c), Leaf(Keyword, "then"), N(body)]
    ensures IsElseIf(Node(ElseIf, cs))
  {
  }

  /** One more `elseif` node. */
  lemma ElseIfStep(elems: seq<Elem>, pos: nat, kids: seq<Child>, n: Node, p: nat, r0: seq<Child>, r1: nat)
    requires pos <= |elems| && p <= |elems| && r1 <= |elems|
    requires Covers(elems, pos, n, p) && IsElseIf(n)
    requires Extends(elems, p, kids + [N(n)], r0, r1) && ElseIfsAfter(Sig(kids + [N(n)]), Sig(r0))
    ensures Extends(elems, pos, kids, r0, r1) && ElseIfsAfter(Sig(kids), Sig(r0))
  {
    AttachStep(elems, pos, kids, n, p);
    var s, t := Sig(kids), Sig(r0);
    assert t[..|s| + 1] == s + [N(n)];
    assert t[..|s|] == s by { assert t[..|s|] == t[..|s| + 1][..|s|]; }
    forall i | 0 <= i < |t[|s|..]| ensures t[|s|..][i].N? && IsElseIf(t[|s|..][i].node) {
      if i == 0 {
        assert t[|s|..][0] == t[..|s| + 1][|s|];
      } else {
        assert t[|s|..][i] == t[|s| + 1..][i - 1];
      }
    }
  }

  /** The `elseif` loop of `parseIf` unfolded once. */
  lemma ElseIfLoopDef(elems: seq<Elem>, pos: nat, kids: seq<Child>)
    requires pos <= |elems| && TestKeyword(PeekToken(elems, pos), ["elseif"])
    ensures var s := ParseElseIfF(elems, pos);
      s.Ok? ==> ElseIfLoopF(elems, pos, kids) == ElseIfLoopF(elems, s.value.1, kids + [N(s.value.0)])
  {
  }

  /** The `elseif` loop (parse.js:195-197) appends `elseif` nodes only. */
  lemma {:induction false} ElseIfLoopShape(elems: seq<Elem>, pos: nat, kids: seq<Child>)
    requires pos <= |elems|
    ensures var r := ElseIfLoopF(elems, pos, kids);
      r.Ok? ==> Extends(elems, pos, kids, r.value.0, r.value.1) && ElseIfsAfter(Sig(kids), Sig(r.value.0))
    decreases |elems| - pos, 1
  {
    if TestKeyword(PeekToken(elems, pos), ["elseif"]) {
      ElseIfLoopDef(elems, pos, kids);
      var s := ParseElseIfF(elems, pos);
      if s.Ok? {
        var (n, p) := s.value;
        ElseIfShape(elems, pos);
        ElseIfLoopShape(elems, p, kids + [N(n)]);
        var r := ElseIfLoopF(elems, p, kids + [N(n)]);
        if r.Ok? {
          ElseIfStep(elems, pos, kids, n, p, r.value.0, r.value.1);
        }
      }
    } else {
      assert Sig(kids)[..|Sig(kids)|] == Sig(kids);
    }
  }

  /** The `else` part unfolded once where the next token is `else`. */
  lemma ElseBranchDef(elems: seq<Elem>, pos: nat, kids: seq<Child>)
    requires pos <= |elems| && TestKeyword(PeekToken(elems, pos), ["else"])
    ensures var a := ExpectF(elems, pos, [], Keyword, "else"); a.Ok? ==>
      var body := ParseBlockF(elems, a.value.1); body.Ok? ==>
      ElseBranchF(elems, pos, kids) == Ok((kids + [N(Node(Else, a.value.0 + [N(body.value.0)]))], body.value.1))
  {
  }

  /** The `else` node: the keyword and a block. */
  lemma ElseCompose(elems: seq<Elem>, pos: nat, kids: seq<Child>, a0: seq<Child>, a1: nat, body0: Node, body1: nat)
    requires pos <= |elems| && a1 <= |elems| && body1 <= |elems|
    requires Extends(elems, pos, [], a0, a1) && Sig(a0) == [Leaf(Keyword, "else")]
    requires Covers(elems, a1, body0, body1) && IsBody(body0)
    ensures var e := Node(Else, a0 + [N(body0)]);
      Extends(elems, pos, kids, kids + [N(e)], body1) && IsElse(e) &&
      OptElseAfter(Sig(kids), Sig(kids + [N(e)]))
  {
    AttachStep(elems, a1, a0, body0, body1);
    var e := Node(Else, a0 + [N(body0)]);
    NodeCovers(elems, pos, Else, a0 + [N(body0)], body1);
    AttachStep(elems, pos, kids, e, body1);
    assert (Sig(kids) + [N(e)])[..|Sig(kids)|] == Sig(kids);
  }

  /** The optional `else` part of `parseIf` (parse.js:198-202). */
  lemma {:induction false} ElseBranchShape(elems: seq<Elem>, pos: nat, kids: seq<Child>)
    requires pos <= |elems|
    ensures var r := ElseBranchF(elems, pos, kids);
      r.Ok? ==> Extends(elems, pos, kids, r.value.0, r.value.1) && OptElseAfter(Sig(kids), Sig(r.value.0))
    decreases |elems| - pos, 0
  {
    if TestKeyword(PeekToken(elems, pos), ["else"]) {
      ElseBranchDef(elems, pos, kids);
      var a := ExpectF(elems, pos, [], Keyword, "else");
      if a.Err? { return; }
      ExpectStep(elems, pos, [], Keyword, "else");
      var body := ParseBlockF(elems, a.value.1);
      if body.Err? { return; }
      BlockShape(elems, a.value.1);
      ElseCompose(elems, pos, kids, a.value.0, a.value.1, body.value.0, body.value.1);
    } else {
      assert Sig(kids)[..|Sig(kids)|] == Sig(kids);
    }
  }

  /** `parseIf` unfolded once, on the path where every step succeeds. */
  lemma IfDef(elems: seq<Elem>, pos: nat)
    requires pos <= |elems|
    ensures var a := ExpectF(elems, pos, [], Keyword, "if"); a.Ok? ==>
      var c := ParseExprF(elems, a.value.1); c.Ok? ==>
      var b := ExpectF(elems, c.value.1, a.value.0 + [N(c.value.0)], Keyword, "then"); b.Ok? ==>
      var body := ParseBlockF(elems, b.value.1); body.Ok? ==>
      var ei := ElseIfLoopF(elems, body.value.1, b.value.0 + [N(body.value.0)]); ei.Ok? ==>
      var el := ElseBranchF(elems, ei.value.1, ei.value.0); el.Ok? ==>
      var e := ExpectF(elems, el.value.1, el.value.0, Keyword, "end"); e.Ok? ==>
      ParseIfF(elems, pos) == Ok((Node(If, e.value.0), e.value.1))
  {
  }

  /** The significant children of an `if` node: the head, the `elseif`
      nodes, perhaps an `else` node, and `end`. */
  lemma IfCompose(h: seq<Child>, s1: seq<Child>, s2: seq<Child>, cs: seq<Child>, c: Node, body: Node)
    requires h == [Leaf(Keyword, "if"), N(c), Leaf(Keyword, "then"), N(body)]
    requires IsExpr(c) && IsBody(body)
    requires ElseIfsAfter(h, s1) && OptElseAfter(s1, s2) && Sig(cs) == s2 + [Leaf(Keyword, "end")]
    ensures IsIf(Node(If, cs))
  {
    var s := Sig(cs);
    assert s[..4] == s2[..4] == s1[..4] == h;
    forall i | 4 <= i < |s| - 1
      ensures s[i].N? && (IsElseIf(s[i].node) || (i == |s| - 2 && IsElse(s[i].node)))
    {
      assert s[i] == s2[i];
      if i < |s1| {
        assert s2[i] == s1[i] == s1[4..][i - 4];
      }
    }
  }

  /** `parseIf` (parse.js:188-204). */
  lemma {:induction false} IfShape(elems: seq<Elem>, pos: nat)
    requires pos <= |elems|
    ensures var r := ParseIfF(elems, pos);
      r.Ok? ==> Covers(elems, pos, r.value.0, r.value.1) && IsIf(r.value.0)
    decreases |elems| - pos, 2
  {
    IfDef(elems, pos);
    var a := ExpectF(elems, pos, [], Keyword, "if");
    if a.Err? { return; }
    ExpectStep(elems, pos, [], Keyword, "if");
    var c := ParseExprF(elems, a.value.1);
    if c.Err? { return; }
    ExprShape(elems, a.value.1);
    var b := ExpectF(elems, c.value.1, a.value.0 + [N(c.value.0)], Keyword, "then");
    if b.Err? { return; }
    ExpectStep(elems, c.value.1, a.value.0 + [N(c.value.0)], Keyword, "then");
    var body := ParseBlockF(elems, b.value.1);
    if body.Err? { return; }
    BlockShape(elems, b.value.1);
    GuardedBlock(elems, pos, "if", "then", a.value.0, a.value.1, c.value.0, c.value.1,
                 b.value.0, b.value.1, body.value.0, body.value.1);
    var head := b.value.0 + [N(body.value.0)];
    var ei := ElseIfLoopF(elems, body.value.1, head);
    if ei.Err? { return; }
    ElseIfLoopShape(elems, body.value.1, head);
    var el := ElseBranchF(elems, ei.value.1, ei.value.0);
    if el.Err? { return; }
    ElseBranchShape(elems, ei.value.1, ei.value.0);
    var e := ExpectF(elems, el.value.1, el.value.0, Keyword, "end");
    if e.Err? { return; }
    ExpectStep(elems, el.value.1, el.value.0, Keyword, "end");
    NodeCovers(elems, pos, If, e.value.0, e.value.1);
    IfCompose(Sig(head), Sig(ei.value.0), Sig(el.value.0), e.value.0, c.value.0, body.value.0);
  }
}
