# Lexer and parser of the Lua-to-x86 teaching compiler

This project models the front end of the browser-based Lua-to-x86 compiler:

- `lex` (`public/lex.js`) turns the program text into a flat list of spans:
  - `token` spans of five kinds: string, number, operator, keyword and identifier;
  - `comment` spans;
  - `ignored` groups of unmatched characters, each character classed by `selector`.
- `parse` (`public/parse.js`) is a recursive-descent parser over that list. It builds a tree of
  `ast` nodes: body, function, lhs, expr, for, if, elseif and else. The tree holds every element
  it consumed, comments and white space included, in order.

The project has these modules:

- `Tokens`: the element datatype both phases share.
- `LexSpec`: the six anchored regular expressions as character matchers, the ordered rule list,
  and `Scan`, the pure reference definition of one lexing pass.
- `Lexer`: the imperative scanning loop. It is proved equal to `Scan`.
- `LexProps`: what every pass guarantees:
  - it loses nothing;
  - every span belongs to its rule's class;
  - ignored groups are never adjacent;
  - every rule is greedy;
  - relexing the output gives the same result, a corollary of losing nothing.
- `LexExamples`: rule priority and word boundaries on short texts.
- `Tree`: the node and child datatypes and the grammar predicates.
- `ParseSpec`: one pure function per production. It returns the node (or the children built so
  far) and the new cursor, or the error that `err` throws.
- `Parser`: a class holding the elements and a cursor that `nextToken` advances. It has one
  method per production, each proved to agree with its production function.
- `ParseProps`: leaf conservation and grammar shape for every production.
- `ParseFacts`: where the loops stop and which error is raised.
- `ParseExamples`: right nesting, a whole call statement, a whole `for` statement, and an `if` without `end`.

A parse error is modelled as `ParseError(kind, found, at)`:

- `kind` is the message `err` would show;
- `found` is the offending token, or none at the end of input;
- `at` is that token's index among the lexed elements, or the number of elements when the input ran out.

## Model

| member | source | states |
|---|---|---|
| Lexer.Lex | public/lex.js:52-68 | The scanning loop returns exactly `Scan(text)`. Its spans concatenate back to the text, each span is well formed, no two ignored groups are adjacent, and every span is followed by what its greedy rule allows. |
| LexSpec.Scan | public/lex.js:52-68 | The reference pass: it yields no span exactly for the empty text, and never more spans than characters. Losslessness, well-formedness and maximal munch: `LexProps.ScanLossless`, `LexProps.ScanWellFormed`, `LexProps.ScanMaximalMunch`. |
| LexSpec.MatchString | public/lex.js:54 | `^"[^"]*"`: a match is a quoted run without inner quotes. No match means no prefix is such a literal. |
| LexSpec.MatchComment | public/lex.js:55 | `^--[^\r\n]*`: a match is a comment text that ends at a line break or at the end of input. No match means no prefix is a comment. |
| LexSpec.MatchNumber | public/lex.js:56 | `^-?\d+`: a match is an optionally signed run of ASCII digits, not followed by a digit. No match means no prefix is a number. |
| LexSpec.MatchOp | public/lex.js:57 | The matched prefix is an operator, and it is the first alternative of the alternation that is a prefix. It has no word boundary. No match means no alternative is a prefix. |
| LexSpec.MatchKeyword | public/lex.js:58 | The matched prefix is a keyword followed by `\b`. No match means no alternative matches with a boundary. |
| LexSpec.MatchIdent | public/lex.js:59 | A match is `[a-z][a-z0-9_]*` followed by `\b`. No match means no identifier prefix is followed by a word boundary, since backtracking cannot help. |
| LexSpec.FirstWord | public/lex.js:57-58 | The first alternative, in order, that matches; every earlier one fails. |
| LexSpec.FirstMatch | public/lex.js:53-60 | The first rule of the `\|\|` chain that matches, with its length. Every earlier rule fails. None means every rule fails. |
| LexSpec.Emit | public/lex.js:54-59 | Only the comment rule yields a comment span; every other rule yields a `token` span whose kind is that rule's (string, number, operator, keyword or identifier). The span's text is exactly the matched text. |
| LexSpec.Classify | public/lex.js:86-88 | `\r`, `\n`, tab and space each get their own class, and every other character is `other`. |
| LexSpec.AppendWhitespace | public/lex.js:70-75 | The open group is emitted only when it is non-empty, and then as the last element. The text is unchanged. |
| LexSpec.FlushBeforeSpan | public/lex.js:77-84 | `replace` flushes the open group and then appends the span. This equals placing the group in front of the span. |
| LexSpec.FlushAtEnd | public/lex.js:68 | The final flush equals placing the open group at the end. |
| LexSpec.JoinIgnoredJoin | public/lex.js:62-65 | Adding characters to the open group one at a time merges them into one group. |
| LexProps.ScanLossless | public/lex.js:52-67 | The texts of the emitted spans, ignored characters included, concatenate to the input. |
| LexProps.RelexIdempotent | public/lex.js:52-67 | Lexing the concatenated output again gives the same spans: a direct corollary of `ScanLossless`. |
| LexProps.ScanWellFormed | public/lex.js:52-67 | Every span holds text of its own class. An identifier is no keyword and starts with no operator. Ignored groups are non-empty, classed by `selector`, and never adjacent. |
| LexProps.EmitWellFormed | public/lex.js:54-59 | The span the first matching rule emits is well formed. |
| LexProps.IdentRuleReached | public/lex.js:57-59 | The identifier rule is reached only when the operator and keyword rules fail. |
| LexProps.IdentWellFormed | public/lex.js:57-59 | An identifier span is not a keyword and does not start with an operator. |
| LexProps.UnmatchedRun | public/lex.js:62-66 | Consecutive unmatched characters become one ignored group, classed character by character. |
| LexProps.ScanMaximalMunch | public/lex.js:54-59 | A number is never followed by a digit. A keyword or identifier is never followed by a word character. A comment runs to a line break or to the end. |
| LexExamples.FirstMatchChain | public/lex.js:53-60 | `FirstMatch` is the string, comment, number, operator, keyword, identifier chain. |
| LexExamples.CommentBeforeNumber | public/lex.js:55-56 | `--1` is one comment. |
| LexExamples.SignedNumber | public/lex.js:56 | `-12` is one number token, sign included. |
| LexExamples.StringBeforeKeyword | public/lex.js:54 | A quoted keyword is one string token. |
| LexExamples.OperatorThenIdent | public/lex.js:57-59 | `order` lexes as the operator `or` followed by the identifier `der`. |
| LexExamples.ForxIdent | public/lex.js:58-59 | `forx` is one identifier, because the keyword needs `\b`. |
| LexExamples.ElsewhereIdent | public/lex.js:58-59 | `elsewhere` is one identifier, not the keyword `else` followed by `where`, because no word boundary follows `else`. |
| LexExamples.ElseifToken | public/lex.js:58 | `elseif` is one keyword, not `else` followed by `if`. |
| LexExamples.ElseThenSpace | public/lex.js:58-68 | `else ` is a keyword and then one ignored group holding a space. |
| LexExamples.NoBoundaryNoIdent | public/lex.js:59-66 | `fooX` is no identifier. All four characters are one ignored group of `other` characters. |
| ParseSpec.PeekToken | public/parse.js:75-77 | None exactly when no `token` element remains. |
| ParseSpec.PeekTokenFirst | public/parse.js:75-77 | `PeekToken` returns a token exactly when it is a remaining `token` element with only non-token elements before it. |
| ParseSpec.NextTokenF | public/parse.js:110-121 | Fails with end-of-file exactly when no token remains. Otherwise it returns the first token, attaches the skipped elements in order, and leaves the cursor just past the token. |
| ParseSpec.ExpectF | public/parse.js:123-132 | Succeeds exactly when the next token has the kind and text expected. On success the children gain the skipped elements and then that token, whose leaf is the only new significant child, and the cursor is just past it. An error names the token found. |
| ParseSpec.ParseLhsF | public/parse.js:101-108 | Succeeds exactly when the next token is an identifier. Otherwise the error is end-of-file or expected-identifier, naming the token. |
| ParseSpec.ParseBlockF | public/parse.js:49-67 | A body node that stops at the end of input or before `end`, `elseif` or `else`. An error lies at or after the cursor. |
| ParseSpec.TryParseOpF | public/parse.js:153-171 | Only the last child can change, and no binary operator follows the result. |
| ParseSpec.ParseExprF | public/parse.js:134-144 | An expression node after which no binary operator follows. |
| ParseSpec.BlockLoopF | public/parse.js:52-65 | The dispatch loop stops only at the end of input or before `end`, `elseif` or `else`, never before the cursor. An error is end-of-file at the end of input, or names the token at its index, at or after the cursor. Leaves and statements: `ParseProps.BlockLoopShape`. |
| ParseSpec.ParseFunctionCallF | public/parse.js:93-99 | A `function` node that consumes at least one element. An error is end-of-file at the end of input, or names the token at its index, at or after the cursor. Leaves and grammar: `ParseProps.CallShape`. |
| ParseSpec.ParseParenF | public/parse.js:146-151 | An expression node that consumes at least one element after the `(`. An error is end-of-file at the end of input, or names the token at its index, at or after the cursor. Leaves and grammar: `ParseProps.ParenShape`. |
| ParseSpec.ParseForF | public/parse.js:173-186 | A `for` node that consumes at least one element. An error is end-of-file at the end of input, or names the token at its index, at or after the cursor. Leaves and grammar: `ParseProps.ForShape`. |
| ParseSpec.ParseIfF | public/parse.js:188-204 | An `if` node that consumes at least one element. An error is end-of-file at the end of input, or names the token at its index, at or after the cursor. Leaves and grammar: `ParseProps.IfShape`. |
| ParseSpec.ElseIfLoopF | public/parse.js:195-197 | Stops only where the next token is not `elseif`. An error is end-of-file at the end of input, or names the token at its index, at or after the cursor. Leaves and grammar: `ParseProps.ElseIfLoopShape`. |
| ParseSpec.ElseBranchF | public/parse.js:198-202 | The cursor never moves back. An error is end-of-file at the end of input, or names the token at its index, at or after the cursor. Leaves and grammar: `ParseProps.ElseBranchShape`, and when nothing is added: `ParseFacts.ElseBranchStops`. |
| ParseSpec.ParseElseIfF | public/parse.js:206-212 | An `elseif` node that consumes at least one element. An error is end-of-file at the end of input, or names the token at its index, at or after the cursor. Leaves and grammar: `ParseProps.ElseIfShape`. |
| ParseSpec.Parse | public/parse.js:40-47 | One body from the first element. It stops at the end of input or at a stray `end`, `elseif` or `else`. |
| ParseProps.LhsShape | public/parse.js:101-108 | The node holds exactly the consumed elements and is `Lhs`. |
| ParseProps.CallShape | public/parse.js:93-99 | The node holds exactly the consumed elements, and its significant children are `Lhs ( Expr )`. |
| ParseProps.ExprShape | public/parse.js:134-144 | The node holds exactly the consumed elements. It is an operand or a binary node whose right side is again an expression, so operators nest to the right. |
| ParseProps.ParenShape | public/parse.js:146-151 | The node holds the `(`, the elements consumed after it, an expression and `)`. |
| ParseProps.TryParseOpShape | public/parse.js:153-171 | The children keep all consumed elements in order. An operand last child becomes an operand or a binary node. |
| ParseProps.BlockLoopShape | public/parse.js:51-66 | The children gain exactly the consumed elements, and statements given in stay statements with only statements appended. |
| ParseProps.BlockShape | public/parse.js:49-67 | A body of statements holding exactly the consumed elements. |
| ParseProps.ForShape | public/parse.js:173-186 | `for Lhs = Expr , Expr , Expr do Body end`, holding exactly the consumed elements. |
| ParseProps.ElseIfShape | public/parse.js:206-212 | `elseif Expr then Body`, holding exactly the consumed elements. |
| ParseProps.ElseIfLoopShape | public/parse.js:195-197 | The loop appends only `elseif` nodes, keeping the consumed elements. |
| ParseProps.ElseBranchShape | public/parse.js:198-202 | At most one `else` node, holding `else` and a body. |
| ParseProps.IfShape | public/parse.js:188-204 | `if Expr then Body`, then `elseif` nodes, an optional `else` node and `end`, holding exactly the consumed elements. |
| ParseFacts.ParseConserves | public/parse.js:40-47 | On success the body's leaves are exactly the consumed prefix of the elements, and it is a body of statements. |
| ParseFacts.BlockLoopStops | public/parse.js:51-66 | The loop returns unchanged exactly at the end of input or before `end`, `elseif` or `else`. |
| ParseFacts.TryParseOpKeeps | public/parse.js:153-171 | The children and the cursor stay as they are exactly when no binary operator follows. |
| ParseFacts.ElseIfLoopStops | public/parse.js:195-197 | The loop adds nothing exactly when the next token is not `elseif`. |
| ParseFacts.ElseBranchStops | public/parse.js:198-202 | The else part adds nothing exactly when the next token is not `else`. |
| ParseFacts.ExpectErrorKind | public/parse.js:123-132 | Fails exactly when the next token differs from the one expected. The error is end-of-file, then wrong kind, then wrong text. |
| ParseFacts.UnknownTokenError | public/parse.js:61-64 | A token that starts no statement and ends no block is reported as unknown, at its index. |
| ParseFacts.StrayEnd | public/parse.js:40-60 | A program whose first token closes a block parses to an empty body and consumes nothing. |
| ParseExamples.RightNesting | public/parse.js:134-171 | `a == b == c` parses as `a == (b == c)`. |
| ParseExamples.CallProgram | public/parse.js:93-99 | `foo(1)` parses to a body holding one function node, and every element is consumed. |
| ParseExamples.ForNode | public/parse.js:173-186 | `for i=1,10,1 do end` parses to a `for` node holding the keyword, the left-hand side, `=`, three number expressions with their commas, `do`, an empty body and `end`, with each skipped space in place, and all thirteen elements are consumed. |
| ParseExamples.ForProgram | public/parse.js:40-67 | `for i=1,10,1 do end` parses to a body holding that one `for` node, and every element is consumed. |
| ParseExamples.OpenIfFails | public/parse.js:188-204 | `if x then` without `end` fails with end-of-file. |
| Parser.Parser.PeekToken | public/parse.js:75-77 | The loop finds the same token as `ParseSpec.PeekToken`, without moving the cursor. |
| Parser.Parser.NextToken | public/parse.js:110-121 | The cursor and the result agree with `NextTokenF`. At end of input the cursor is at the end. |
| Parser.Parser.Expect | public/parse.js:123-132 | Agrees with `ExpectF` on children, cursor and error. |
| Parser.Parser.ParseLhs | public/parse.js:101-108 | Agrees with `ParseLhsF`. |
| Parser.Parser.ParseBlock | public/parse.js:49-67 | The `while (true)` dispatch loop agrees with `ParseBlockF`. |
| Parser.Parser.ParseFunctionCall | public/parse.js:93-99 | Agrees with `ParseFunctionCallF`. |
| Parser.Parser.ParseExpr | public/parse.js:134-144 | Agrees with `ParseExprF`. |
| Parser.Parser.ParseParen | public/parse.js:146-151 | Agrees with `ParseParenF`. |
| Parser.Parser.TryParseOp | public/parse.js:153-171 | Agrees with `TryParseOpF`. |
| Parser.Parser.ParseFor | public/parse.js:173-186 | Agrees with `ParseForF`. |
| Parser.Parser.ParseIf | public/parse.js:188-204 | The `elseif` loop and the `else` part agree with `ParseIfF`. |
| Parser.Parser.ParseElseIf | public/parse.js:206-212 | Agrees with `ParseElseIfF`. |
| Parser.Parse | public/parse.js:40-47 | A fresh parser over the elements returns `ParseSpec.Parse`. |

## Left out

- The DOM and jQuery plumbing is not modelled:
  - reading and clearing the element's text (lex.js:34-38);
  - cloning and removing the children (parse.js:43-45);
  - creating `ast` divs and their CSS classes (parse.js:69-73).

  Spans are the `Elem` datatype, and nodes are the `Node` datatype.
- The regular-expression engine is not modelled. Each anchored expression of lex.js:54-59 is
  rewritten as a character matcher. `\d` and `\b` use their ASCII meanings.
- `Scan` and `Lex` take the text as a sequence of Unicode scalar values, whereas lex.js:63-65
  (`charAt`, `substr`) walks UTF-16 code units. So a character outside the Basic Multilingual
  Plane is one ignored character here, but two `other` spans, each a lone surrogate, in the
  source. Text holding lone surrogates cannot be represented at all.
- The exceptions and `err` (parse.js:88-91) are not modelled: the `parseError` span, the message
  strings, and the partly built tree left in the page. A failing production returns
  `Err(ParseError(kind, found, at))` instead, and every caller passes it on unchanged.
- `nextToken` (parse.js:112) calls `$tokens.shift()`, which stock jQuery objects do not have. The
  model assumes a `shift` supplied by the page that removes the first element and returns it as a
  jQuery object, one of length 0 when none is left; that is the only reading under which the code runs.
- The check `$tok === undefined` in `tryParseOp` (parse.js:155) is not modelled. `peekToken`
  always returns a jQuery object, so that check can never be true. The empty case is handled by
  the next test, since an empty selection has no `op` class.
- The parser methods are modelled differently from the source:
  - the methods build each node's children as a local sequence, whereas the source appends the
    node to its parent first (`ast`) and fills it afterwards;
  - `tryParseOp` removes the last child and re-adds it under a new node, which the model writes
    as replacing the last element of the sequence;
  - aliasing between DOM nodes is not modelled.
- Comments are spans without the `token` class, so `peekToken` and `nextToken` skip them like
  ignored groups. This follows the code, whose `nextToken` treats every non-token element alike.
- ParseFacts.UnknownTokenError: states only that such a token gives the unknown-token error. It
  does not state the converse: other errors come from inside the statements.
- Elements after the last statement are not part of the tree. `parse` does not check that the
  input was used up. `Parse` returns the cursor so this can be seen.
- `emit.js` and the compiler's back end are not part of this model.
