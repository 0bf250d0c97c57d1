/** The lexical rules of lex.js, written as character-level matchers, and
    `Scan`, the pure reference definition of what one lexing pass emits.
    Each matcher stands for one anchored regular expression of lex.js:54-59
    and returns the length of the prefix that expression matches. */
module LexSpec {
  import opened Tokens

  predicate IsDigit(c: char) { '0' <= c <= '9' }
  predicate IsLower(c: char) { 'a' <= c <= 'z' }
  predicate IsIdentChar(c: char) { IsLower(c) || IsDigit(c) || c == '_' }
  predicate IsLineBreak(c: char) { c == '\r' || c == '\n' }
  predicate NotQuote(c: char) { c != '"' }
  predicate NotLineBreak(c: char) { !IsLineBreak(c) }

  /** A character of the regular-expression class `\w`: `[A-Za-z0-9_]`. */
  predicate IsWordChar(c: char) { IsDigit(c) || IsLower(c) || ('A' <= c <= 'Z') || c == '_' }

  /** `\b` after a prefix of length `n` that ends in a word character:
      the input ends there or the next character is not a word character. */
  predicate WordEnds(s: string, n: nat) { n >= |s| || !IsWordChar(s[n]) }

  /** The operator alternation of lex.js:57, in the order the alternation tries it. */
  const Operators: seq<string> := ["==", "<=", ">=", "!=", "=", "(", ")", ",", "and", "or"]

  /** The keyword alternation of lex.js:58, in the order the alternation tries it. */
  const Keywords: seq<string> := ["for", "if", "elseif", "else", "end", "do", "then"]

  // ---------------------------------------------------------------------
  // The lexical classes, stated independently of the matchers.

  /** `"` , no `"` , `"` */
  predicate IsStringLit(t: string) {
    |t| >= 2 && t[0] == '"' && t[|t| - 1] == '"' && forall k :: 0 < k < |t| - 1 ==> t[k] != '"'
  }

  /** `--` then no line terminator */
  predicate IsCommentText(t: string) {
    |t| >= 2 && t[0] == '-' && t[1] == '-' && forall k :: 2 <= k < |t| ==> !IsLineBreak(t[k])
  }

  predicate AllDigits(t: string) { forall k :: 0 <= k < |t| ==> IsDigit(t[k]) }

  /** An optional `-` then at least one decimal digit. */
  predicate IsNumberText(t: string) {
    (|t| >= 1 && AllDigits(t)) || (|t| >= 2 && t[0] == '-' && AllDigits(t[1..]))
  }

  /** A lower-case letter then `[a-z0-9_]*`. */
  predicate IsIdentText(t: string) {
    |t| >= 1 && IsLower(t[0]) && forall k :: 0 <= k < |t| ==> IsIdentChar(t[k])
  }

  // ---------------------------------------------------------------------
  // Matchers.

  /** The end of the longest run of characters satisfying `f` from `i` on. */
  function RunEnd(s: string, i: nat, f: char -> bool): (j: nat)
    requires i <= |s|
    ensures i <= j <= |s|
    ensures forall k :: i <= k < j ==> f(s[k])
    ensures j == |s| || !f(s[j])
    decreases |s| - i
  {
    if i == |s| || !f(s[i]) then i else RunEnd(s, i + 1, f)
  }

  /** `^"[^"]*"` (lex.js:54) */
  function MatchString(s: string): (r: Option<nat>)
    ensures r.Some? ==> 0 < r.value <= |s| && IsStringLit(s[..r.value])
    ensures r.None? ==> forall n :: 0 < n <= |s| ==> !IsStringLit(s[..n])
  {
    if |s| > 0 && s[0] == '"' then
      var j := RunEnd(s, 1, NotQuote);
      if j < |s| then
        assert forall k :: 0 < k < j ==> s[..j + 1][k] == s[k];
        Some(j + 1)
      else
        assert forall n :: 0 < n <= |s| ==> s[..n][n - 1] == s[n - 1];
        None
    else
      assert forall n :: 0 < n <= |s| ==> s[..n][0] == s[0];
      None
  }

  /** `^--[^\r\n]*` (lex.js:55): greedy, so the comment runs up to the line terminator. */
  function MatchComment(s: string): (r: Option<nat>)
    ensures r.Some? ==> 0 < r.value <= |s| && IsCommentText(s[..r.value])
    ensures r.Some? ==> r.value == |s| || IsLineBreak(s[r.value])
    ensures r.None? ==> forall n :: 0 < n <= |s| ==> !IsCommentText(s[..n])
  {
    if |s| >= 2 && s[0] == '-' && s[1] == '-' then
      var j := RunEnd(s, 2, NotLineBreak);
      assert forall k :: 2 <= k < j ==> s[..j][k] == s[k];
      Some(j)
    else
      assert forall n :: 1 < n <= |s| ==> s[..n][0] == s[0] && s[..n][1] == s[1];
      None
  }

  /** `^-?\d+` (lex.js:56): greedy, so the number takes every following digit. */
  function MatchNumber(s: string): (r: Option<nat>)
    ensures r.Some? ==> 0 < r.value <= |s| && IsNumberText(s[..r.value])
    ensures r.Some? ==> r.value == |s| || !IsDigit(s[r.value])
    ensures r.None? ==> forall n :: 0 < n <= |s| ==> !IsNumberText(s[..n])
  {
    if |s| >= 1 && IsDigit(s[0]) then
      var j := RunEnd(s, 0, IsDigit);
      assert forall k :: 0 <= k < j ==> s[..j][k] == s[k];
      Some(j)
    else if |s| >= 2 && s[0] == '-' && IsDigit(s[1]) then
      var j := RunEnd(s, 1, IsDigit);
      assert forall k :: 0 <= k < j - 1 ==> s[..j][1..][k] == s[k + 1];
      Some(j)
    else
      assert forall n :: 1 < n <= |s| ==> s[..n][0] == s[0] && s[..n][1..][0] == s[1];
      assert forall n :: 0 < n <= |s| ==> s[..n][0] == s[0];
      None
  }

  /** Word `w` matches at the front of `s`, followed by `\b` when `bounded`. */
  predicate WordAt(w: string, s: string, bounded: bool) {
    w <= s && (bounded ==> |w| > 0 && WordEnds(s, |w|))
  }

  /** The index of the first alternative of `words`, from `i` on, that matches at the front of `s`. */
  function FirstWord(words: seq<string>, s: string, bounded: bool, i: nat): (r: Option<nat>)
    requires i <= |words|
    ensures r.Some? ==> i <= r.value < |words| && WordAt(words[r.value], s, bounded)
    ensures r.Some? ==> forall j :: i <= j < r.value ==> !WordAt(words[j], s, bounded)
    ensures r.None? ==> forall j :: i <= j < |words| ==> !WordAt(words[j], s, bounded)
    decreases |words| - i
  {
    if i == |words| then None
    else if WordAt(words[i], s, bounded) then Some(i)
    else FirstWord(words, s, bounded, i + 1)
  }

  /** `^(==|<=|>=|!=|=|\(|\)|,|and|or)` (lex.js:57): no word boundary. */
  function MatchOp(s: string): (r: Option<nat>)
    ensures r.Some? ==> 0 < r.value <= |s| && s[..r.value] in Operators
    ensures r.Some? ==> exists i :: 0 <= i < |Operators| && Operators[i] == s[..r.value] &&
                                    forall j :: 0 <= j < i ==> !(Operators[j] <= s)
    ensures r.None? ==> forall j :: 0 <= j < |Operators| ==> !(Operators[j] <= s)
  {
    match FirstWord(Operators, s, false, 0)
    case Some(i) =>
      assert Operators[i] == s[..|Operators[i]|];
      Some(|Operators[i]|)
    case None => None
  }

  /** `^(for|if|elseif|else|end|do|then)\b` (lex.js:58). */
  function MatchKeyword(s: string): (r: Option<nat>)
    ensures r.Some? ==> 0 < r.value <= |s| && s[..r.value] in Keywords && WordEnds(s, r.value)
    ensures r.None? ==> forall j :: 0 <= j < |Keywords| ==> !WordAt(Keywords[j], s, true)
  {
    match FirstWord(Keywords, s, true, 0)
    case Some(i) =>
      assert Keywords[i] == s[..|Keywords[i]|];
      Some(|Keywords[i]|)
    case None => None
  }

  /** `^[a-z][a-z0-9_]*\b` (lex.js:59). The run is greedy; backing off inside
      it never reaches a word boundary, so a match exists only when the
      longest run is followed by the end of input or a non-word character. */
  function MatchIdent(s: string): (r: Option<nat>)
    ensures r.Some? ==> 0 < r.value <= |s| && IsIdentText(s[..r.value]) && WordEnds(s, r.value)
    ensures r.None? ==> forall n :: 0 < n <= |s| && IsIdentText(s[..n]) ==> !WordEnds(s, n)
  {
    if |s| >= 1 && IsLower(s[0]) then
      var j := RunEnd(s, 1, IsIdentChar);
      assert forall k :: 0 <= k < j ==> s[..j][k] == s[k];
      if WordEnds(s, j) then Some(j)
      else
        assert forall n :: j < n <= |s| ==> !IsIdentText(s[..n]) by {
          forall n | j < n <= |s| ensures !IsIdentText(s[..n]) {
            assert s[..n][j] == s[j];
          }
        }
        assert forall n :: 0 < n < j ==> IsWordChar(s[n]);
        None
    else
      assert forall n :: 0 < n <= |s| ==> s[..n][0] == s[0];
      None
  }

  // ---------------------------------------------------------------------
  // The ordered rule list of lex.js:53-60.

  datatype Rule = StringRule | CommentRule | NumberRule | OpRule | KeywordRule | IdentRule

  const Rules: seq<Rule> := [StringRule, CommentRule, NumberRule, OpRule, KeywordRule, IdentRule]

  function Match(rule: Rule, s: string): Option<nat> {
    match rule
    case StringRule => MatchString(s)
    case CommentRule => MatchComment(s)
    case NumberRule => MatchNumber(s)
    case OpRule => MatchOp(s)
    case KeywordRule => MatchKeyword(s)
    case IdentRule => MatchIdent(s)
  }

  /** The span a rule emits for the text it matched: every rule but the
      comment rule gives a `token` span (lex.js:54-59). */
  function Emit(rule: Rule, text: string): (e: Elem)
    ensures e.Comment? <==> rule == CommentRule
    ensures e.Tok? <==> rule != CommentRule
    ensures ElemText(e) == text
    ensures e.Tok? ==>
      (e.token.kind == String <==> rule == StringRule) &&
      (e.token.kind == Number <==> rule == NumberRule) &&
      (e.token.kind == Op <==> rule == OpRule) &&
      (e.token.kind == Keyword <==> rule == KeywordRule) &&
      (e.token.kind == Ident <==> rule == IdentRule)
  {
    match rule
    case StringRule => Tok(Token(String, text))
    case CommentRule => Comment(text)
    case NumberRule => Tok(Token(Number, text))
    case OpRule => Tok(Token(Op, text))
    case KeywordRule => Tok(Token(Keyword, text))
    case IdentRule => Tok(Token(Ident, text))
  }

  /** The first rule, from index `i` of `Rules` on, that matches the front of
      `s`, with the length it matched. */
  function FirstMatch(s: string, i: nat := 0): (r: Option<(nat, nat)>)
    requires i <= |Rules|
    ensures r.Some? ==> i <= r.value.0 < |Rules| && 0 < r.value.1 <= |s|
    ensures r.Some? ==> Match(Rules[r.value.0], s) == Some(r.value.1)
    ensures r.Some? ==> forall j :: i <= j < r.value.0 ==> Match(Rules[j], s).None?
    ensures r.None? ==> forall j :: i <= j < |Rules| ==> Match(Rules[j], s).None?
    decreases |Rules| - i
  {
    if i == |Rules| then None
    else match Match(Rules[i], s)
      case Some(n) => Some((i, n))
      case None => FirstMatch(s, i + 1)
  }

  // ---------------------------------------------------------------------
  // Ignored characters.

  /** `selector` (lex.js:86-88): the four white-space characters have
      their own class, every other character is `other`. */
  function Classify(c: char): (cls: CharClass)
    ensures cls == Other <==> c !in "\r\n\t "
    ensures cls == CarriageReturn <==> c == '\r'
    ensures cls == LineFeed <==> c == '\n'
    ensures cls == Tab <==> c == '\t'
    ensures cls == Space <==> c == ' '
  {
    match c
    case '\r' => CarriageReturn
    case '\n' => LineFeed
    case '\t' => Tab
    case ' ' => Space
    case _ => Other
  }

  /** The group `g` of ignored characters placed in front of `es`: it merges
      with a group that `es` starts with, since consecutive unmatched
      characters share one `ignored` span. */
  function JoinIgnored(g: seq<IgnoredChar>, es: seq<Elem>): seq<Elem> {
    if g == [] then es
    else if es != [] && es[0].Ignored? then [Ignored(g + es[0].chars)] + es[1..]
    else [Ignored(g)] + es
  }

  lemma JoinIgnoredJoin(g: seq<IgnoredChar>, h: seq<IgnoredChar>, es: seq<Elem>)
    requires h != []
    ensures JoinIgnored(g, JoinIgnored(h, es)) == JoinIgnored(g + h, es)
  {
    if g == [] {
      assert g + h == h;
    } else if es != [] && es[0].Ignored? {
      assert g + (h + es[0].chars) == (g + h) + es[0].chars;
    } else {
      assert ([Ignored(h)] + es)[1..] == es;
    }
  }

  lemma FlattenJoinIgnored(g: seq<IgnoredChar>, es: seq<Elem>)
    ensures Flatten(JoinIgnored(g, es)) == GroupText(g) + Flatten(es)
  {
    if g == [] {
      assert GroupText(g) == [];
    } else if es != [] && es[0].Ignored? {
      FlattenMerge(g, es);
    } else {
      FlattenCons(Ignored(g), es);
    }
  }

  /** A group merged with the group that starts `es`. */
  lemma FlattenMerge(g: seq<IgnoredChar>, es: seq<Elem>)
    requires es != [] && es[0].Ignored?
    ensures Flatten([Ignored(g + es[0].chars)] + es[1..]) == GroupText(g) + Flatten(es)
  {
    FlattenMergeSplit(g, es[0].chars, es[1..]);
    assert [Ignored(es[0].chars)] + es[1..] == es;
  }

  lemma FlattenMergeSplit(g: seq<IgnoredChar>, c: seq<IgnoredChar>, t: seq<Elem>)
    ensures Flatten([Ignored(g + c)] + t) == GroupText(g) + Flatten([Ignored(c)] + t)
  {
    FlattenCons(Ignored(g + c), t);
    FlattenCons(Ignored(c), t);
    GroupTextAppend(g, c);
    Regroup(GroupText(g + c), GroupText(g), GroupText(c), Flatten(t));
  }

  lemma Regroup(xy: string, x: string, y: string, z: string)
    requires xy == x + y
    ensures xy + z == x + (y + z)
  {
  }

  /** One left-to-right pass over `s`: the first matching rule emits one
      span and its text is removed; otherwise one character joins the
      ignored group (lex.js:52-67). */
  function Scan(s: string): (r: seq<Elem>)
    ensures r == [] <==> s == []
    ensures |r| <= |s|
    decreases |s|
  {
    if s == [] then []
    else match FirstMatch(s)
      case Some((i, n)) => [Emit(Rules[i], s[..n])] + Scan(s[n..])
      case None => JoinIgnored([IgnoredChar(Classify(s[0]), s[0])], Scan(s[1..]))
  }

  /** `appendWhitespace` (lex.js:70-75): the open group is emitted only when it holds a character. */
  function AppendWhitespace(out: seq<Elem>, g: seq<IgnoredChar>): (r: seq<Elem>)
    ensures Flatten(r) == Flatten(out) + GroupText(g)
    ensures g == [] ==> r == out
    ensures g != [] ==> |r| == |out| + 1 && r[..|out|] == out && r[|out|] == Ignored(g)
  {
    var r := if g == [] then out else out + [Ignored(g)];
    if g == [] then r
    else
      FlattenAppend(out, [Ignored(g)]);
      assert Flatten([Ignored(g)]) == GroupText(g) + Flatten([]);
      r
  }

  /** Flushing the open group before a span is the same as placing the
      group in front of the span. */
  lemma FlushBeforeSpan(out: seq<Elem>, g: seq<IgnoredChar>, span: Elem, es: seq<Elem>)
    requires !span.Ignored?
    ensures out + JoinIgnored(g, [span] + es) == AppendWhitespace(out, g) + [span] + es
  {
    if g != [] {
      assert out + ([Ignored(g)] + ([span] + es)) == (out + [Ignored(g)]) + [span] + es;
    }
  }

  /** Flushing the open group at the end of input. */
  lemma FlushAtEnd(out: seq<Elem>, g: seq<IgnoredChar>)
    ensures out + JoinIgnored(g, []) == AppendWhitespace(out, g)
  {
    if g == [] {
      assert out + [] == out;
    }
  }
}
