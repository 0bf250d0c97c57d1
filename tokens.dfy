/** The elements the lexer emits and the parser consumes.
    A lexed program is a flat sequence of elements: real tokens (the
    source's `... token` spans), comments (`comment` spans, which carry no
    `token` class), and groups of ignored characters (`ignored` spans). */
module Tokens {

  datatype Option<+T> = None | Some(value: T)

  /** The `token` kinds of lex.js:54-59 that the parser can see. */
  datatype TokenKind = String | Number | Op | Keyword | Ident

  datatype Token = Token(kind: TokenKind, text: string)

  /** The display classes `selector` gives an ignored character (lex.js:86-88). */
  datatype CharClass = CarriageReturn | LineFeed | Tab | Space | Other

  datatype IgnoredChar = IgnoredChar(cls: CharClass, ch: char)

  datatype Elem =
    | Tok(token: Token)
    | Comment(text: string)
    | Ignored(chars: seq<IgnoredChar>)

  /** The characters an ignored group holds, in order. */
  function GroupText(g: seq<IgnoredChar>): (r: string)
    ensures |r| == |g|
  {
    if g == [] then [] else [g[0].ch] + GroupText(g[1..])
  }

  /** The source text an element covers. */
  function ElemText(e: Elem): string {
    match e
    case Tok(t) => t.text
    case Comment(s) => s
    case Ignored(g) => GroupText(g)
  }

  /** The concatenated text of a sequence of elements. */
  function Flatten(es: seq<Elem>): string {
    if es == [] then [] else ElemText(es[0]) + Flatten(es[1..])
  }

  lemma {:induction false} FlattenAppend(a: seq<Elem>, b: seq<Elem>)
    ensures Flatten(a + b) == Flatten(a) + Flatten(b)
  {
    if a == [] {
      assert a + b == b;
    } else {
      assert (a + b)[1..] == a[1..] + b;
      FlattenAppend(a[1..], b);
    }
  }

  /** One element in front of others. */
  lemma FlattenCons(e: Elem, es: seq<Elem>)
    ensures Flatten([e] + es) == ElemText(e) + Flatten(es)
  {
    assert ([e] + es)[1..] == es;
  }

  lemma {:induction false} GroupTextAppend(a: seq<IgnoredChar>, b: seq<IgnoredChar>)
    ensures GroupText(a + b) == GroupText(a) + GroupText(b)
  {
    if a == [] {
      assert a + b == b;
    } else {
      assert (a + b)[1..] == a[1..] + b;
      GroupTextAppend(a[1..], b);
    }
  }
}
