/** Rule priority and word boundaries on given inputs: what `lex`
    (lex.js:52-67) emits for short texts that tell the rules apart. */
module LexExamples {
  import opened Tokens
  import opened LexSpec
  import opened LexProps

  /** `FirstMatch` is the `||` chain of lex.js:53-60: the string rule, then
      comment, number, operator, keyword and identifier, first match wins. */
  lemma FirstMatchChain(s: string)
    ensures FirstMatch(s) ==
      if MatchString(s).Some? then Some((0, MatchString(s).value))
      else if MatchComment(s).Some? then Some((1, MatchComment(s).value))
      else if MatchNumber(s).Some? then Some((2, MatchNumber(s).value))
      else if MatchOp(s).Some? then Some((3, MatchOp(s).value))
      else if MatchKeyword(s).Some? then Some((4, MatchKeyword(s).value))
      else if MatchIdent(s).Some? then Some((5, MatchIdent(s).value))
      else None
  {
    assert FirstMatch(s, 5) == if MatchIdent(s).Some? then Some((5, MatchIdent(s).value)) else FirstMatch(s, 6);
    assert FirstMatch(s, 4) == if MatchKeyword(s).Some? then Some((4, MatchKeyword(s).value)) else FirstMatch(s, 5);
    assert FirstMatch(s, 3) == if MatchOp(s).Some? then Some((3, MatchOp(s).value)) else FirstMatch(s, 4);
    assert FirstMatch(s, 2) == if MatchNumber(s).Some? then Some((2, MatchNumber(s).value)) else FirstMatch(s, 3);
    assert FirstMatch(s, 1) == if MatchComment(s).Some? then Some((1, MatchComment(s).value)) else FirstMatch(s, 2);
  }

  /** The operator rule wins once string, comment and number fail. */
  lemma OpFirst(s: string, n: nat)
    requires MatchString(s).None? && MatchComment(s).None? && MatchNumber(s).None?
    requires MatchOp(s) == Some(n)
    ensures FirstMatch(s) == Some((3, n))
  {
    FirstMatchChain(s);
  }

  /** The keyword rule wins once the four rules before it fail. */
  lemma KeywordFirst(s: string, n: nat)
    requires MatchString(s).None? && MatchComment(s).None? && MatchNumber(s).None?
    requires MatchOp(s).None? && MatchKeyword(s) == Some(n)
    ensures FirstMatch(s) == Some((4, n))
  {
    FirstMatchChain(s);
  }

  /** The identifier rule wins once every other rule fails. */
  lemma IdentFirst(s: string, n: nat)
    requires MatchString(s).None? && MatchComment(s).None? && MatchNumber(s).None?
    requires MatchOp(s).None? && MatchKeyword(s).None? && MatchIdent(s) == Some(n)
    ensures FirstMatch(s) == Some((5, n))
  {
    FirstMatchChain(s);
  }

  /** No rule matches: lex.js:61-65 then takes one character as ignored. */
  lemma NoRule(s: string)
    requires MatchString(s).None? && MatchComment(s).None? && MatchNumber(s).None?
    requires MatchOp(s).None? && MatchKeyword(s).None? && MatchIdent(s).None?
    ensures FirstMatch(s).None?
  {
    FirstMatchChain(s);
  }

  // ---------------------------------------------------------------------
  // Each rule on the first characters of a text.

  /** Text that starts with a lower-case letter is no string, comment or number. */
  lemma LetterStart(s: string)
    requires s != [] && IsLower(s[0])
    ensures MatchString(s).None? && MatchComment(s).None? && MatchNumber(s).None?
  {
  }

  /** A word is not a prefix of a text that differs from it at `k`. */
  lemma NotPrefixAt(w: string, s: string, k: nat)
    requires k < |w| && k < |s| && w[k] != s[k]
    ensures !(w <= s)
  {
  }

  /** A text whose first character starts no operator matches no operator. */
  lemma NoOperatorAt(s: string)
    requires s != [] && s[0] !in "=<>!(),a"
    requires s[0] == 'o' ==> |s| < 2 || s[1] != 'r'
    ensures MatchOp(s).None?
  {
    forall j | 0 <= j < |Operators| ensures !WordAt(Operators[j], s, false) {
      if j < 9 {
        assert Operators[j][0] in "=<>!(),a";
      } else if s[0] != 'o' {
        NotPrefixAt(Operators[j], s, 0);
      } else if |s| >= 2 {
        NotPrefixAt(Operators[j], s, 1);
      }
    }
  }

  /** A text starting with `or` matches the last operator alternative,
      whatever follows: the operator rule has no word boundary. */
  lemma OperatorOr(s: string)
    requires |s| >= 2 && s[0] == 'o' && s[1] == 'r'
    ensures MatchOp(s) == Some(2)
  {
    forall j | 0 <= j < 9 ensures !WordAt(Operators[j], s, false) {
      assert Operators[j][0] != 'o';
    }
    assert Operators[9] <= s;
    assert FirstWord(Operators, s, false, 0) == Some(9);
  }

  /** Text that starts with a symbol other than `"` and `-` is no string,
      comment or number. */
  lemma SymbolStart(s: string)
    requires s != [] && s[0] !in "\"-" && !IsDigit(s[0])
    ensures MatchString(s).None? && MatchComment(s).None? && MatchNumber(s).None?
  {
  }

  /** Alternative `j` of an alternation is the first that matches. */
  lemma FirstWordIs(words: seq<string>, s: string, bounded: bool, j: nat)
    requires j < |words| && WordAt(words[j], s, bounded)
    requires forall i :: 0 <= i < j ==> !WordAt(words[i], s, bounded)
    ensures FirstWord(words, s, bounded, 0) == Some(j)
  {
  }

  /** `==`, `<=`, `>=` and `!=` each match as one operator, ahead of `=`. */
  lemma TwoCharOp(s: string)
    requires |s| >= 2 && s[0] in "=<>!" && s[1] == '='
    ensures MatchOp(s) == Some(2)
  {
    var j := if s[0] == '=' then 0 else if s[0] == '<' then 1 else if s[0] == '>' then 2 else 3;
    assert Operators[j] <= s;
    forall i | 0 <= i < j ensures !WordAt(Operators[i], s, false) {
      NotPrefixAt(Operators[i], s, 0);
    }
    FirstWordIs(Operators, s, false, j);
  }

  /** No keyword starts with any other letter than `f i e d t`. */
  lemma NoKeywordAt(s: string)
    requires s != [] && s[0] !in "fiedt"
    ensures MatchKeyword(s).None?
  {
    forall j | 0 <= j < |Keywords| ensures !WordAt(Keywords[j], s, true) {
      NotPrefixAt(Keywords[j], s, 0);
    }
  }

  /** The keyword alternative `j` is the first that matches. */
  lemma KeywordIs(s: string, j: nat)
    requires j < |Keywords| && WordAt(Keywords[j], s, true)
    requires forall i :: 0 <= i < j ==> !WordAt(Keywords[i], s, true)
    ensures MatchKeyword(s) == Some(|Keywords[j]|)
  {
    assert FirstWord(Keywords, s, true, 0) == Some(j);
  }

  /** No keyword alternative matches. */
  lemma KeywordNone(s: string)
    requires forall i :: 0 <= i < |Keywords| ==> !WordAt(Keywords[i], s, true)
    ensures MatchKeyword(s).None?
  {
  }

  /** The identifier rule matches the first `n` characters when they form
      a maximal `[a-z][a-z0-9_]*` run followed by a word boundary. */
  lemma IdentAt(s: string, n: nat)
    requires 0 < n <= |s| && IsLower(s[0])
    requires forall k :: 1 <= k < n ==> IsIdentChar(s[k])
    requires WordEnds(s, n)
    ensures MatchIdent(s) == Some(n)
  {
    assert RunEnd(s, 1, IsIdentChar) == n;
  }

  // ---------------------------------------------------------------------
  // Rule priority: which rule takes the front of a text.

  /** A double-quoted string is taken whole, whatever it holds (a keyword,
      `--`): the string rule is tried first. */
  lemma StringFirst(s: string)
    requires s != [] && s[0] == '"' && RunEnd(s, 1, NotQuote) < |s|
    ensures FirstMatch(s) == Some((0, RunEnd(s, 1, NotQuote) + 1))
  {
    assert Match(Rules[0], s) == MatchString(s);
  }

  /** `--` starts a comment that runs to the line break, even before a
      digit: the comment rule is tried before the number rule. */
  lemma CommentFirst(s: string)
    requires |s| >= 2 && s[0] == '-' && s[1] == '-'
    ensures FirstMatch(s) == Some((1, RunEnd(s, 2, NotLineBreak)))
  {
    assert MatchString(s).None?;
    assert FirstMatch(s, 1) == Some((1, RunEnd(s, 2, NotLineBreak)));
  }

  /** A `-` before a digit is the sign of a number, and the number takes
      every digit that follows. */
  lemma SignedNumberFirst(s: string)
    requires |s| >= 2 && s[0] == '-' && IsDigit(s[1])
    ensures FirstMatch(s) == Some((2, RunEnd(s, 1, IsDigit)))
  {
    assert MatchString(s).None? && MatchComment(s).None?;
    assert FirstMatch(s, 2) == Some((2, RunEnd(s, 1, IsDigit)));
  }

  lemma TwoCharFacts(s: string)
    requires |s| >= 2 && s[0] in "=<>!" && s[1] == '='
    ensures MatchString(s).None? && MatchComment(s).None? && MatchNumber(s).None?
    ensures MatchOp(s) == Some(2)
  {
    TwoCharOp(s);
    SymbolStart(s);
  }

  /** The two-character operators are each one operator token, though the
      single `=` is an operator too: the operator rule is the first to
      match, and its alternation lists the two-character forms first. */
  lemma TwoCharOperator(s: string)
    requires |s| >= 2 && s[0] in "=<>!" && s[1] == '='
    ensures FirstMatch(s) == Some((3, 2))
  {
    TwoCharFacts(s);
    OpFirst(s, 2);
  }

  /** `or` is taken as an operator even at the front of a longer word such
      as `order`: the operator rule has no word boundary and is tried
      before the identifier rule. */
  lemma OperatorInsideWord(s: string)
    requires |s| >= 2 && s[0] == 'o' && s[1] == 'r'
    ensures FirstMatch(s) == Some((3, 2))
  {
    LetterStart(s);
    OperatorOr(s);
    OpFirst(s, 2);
  }

  /** `for` followed by a word character is no keyword. */
  lemma ForNoKeyword(s: string)
    requires |s| >= 4 && s[0] == 'f' && s[1] == 'o' && s[2] == 'r' && IsIdentChar(s[3])
    ensures MatchKeyword(s).None?
  {
    forall j | 0 <= j < |Keywords| ensures !WordAt(Keywords[j], s, true) {
      if j == 0 {
        assert !WordEnds(s, 3);
      } else {
        assert Keywords[j][0] in "iedt";
      }
    }
  }

  lemma ForWordFacts(s: string, n: nat)
    requires |s| >= 4 && s[0] == 'f' && s[1] == 'o' && s[2] == 'r' && IsIdentChar(s[3])
    requires n == RunEnd(s, 1, IsIdentChar) && WordEnds(s, n)
    ensures MatchString(s).None? && MatchComment(s).None? && MatchNumber(s).None?
    ensures MatchOp(s).None? && MatchKeyword(s).None? && MatchIdent(s) == Some(n)
  {
    LetterStart(s);
    NoOperatorAt(s);
    ForNoKeyword(s);
    IdentAt(s, n);
  }

  /** A keyword needs a word boundary: `for` followed by a word character
      starts an identifier. */
  lemma KeywordNeedsBoundary(s: string)
    requires |s| >= 4 && s[0] == 'f' && s[1] == 'o' && s[2] == 'r' && IsIdentChar(s[3])
    requires WordEnds(s, RunEnd(s, 1, IsIdentChar))
    ensures FirstMatch(s) == Some((5, RunEnd(s, 1, IsIdentChar)))
  {
    var n := RunEnd(s, 1, IsIdentChar);
    ForWordFacts(s, n);
    IdentFirst(s, n);
  }

  lemma ElseifFacts(s: string)
    requires |s| >= 6 && s[..6] == "elseif" && WordEnds(s, 6)
    ensures MatchString(s).None? && MatchComment(s).None? && MatchNumber(s).None?
    ensures MatchOp(s).None? && MatchKeyword(s) == Some(6)
  {
    assert s[0] == 'e';
    LetterStart(s);
    NoOperatorAt(s);
    NotPrefixAt(Keywords[0], s, 0);
    NotPrefixAt(Keywords[1], s, 0);
    assert Keywords[2] == s[..6];
    KeywordIs(s, 2);
  }

  /** `elseif` is one keyword, not `else` followed by `if`: the alternation
      lists `elseif` before `else`. */
  lemma ElseifKeyword(s: string)
    requires |s| >= 6 && s[..6] == "elseif" && WordEnds(s, 6)
    ensures FirstMatch(s) == Some((4, 6))
  {
    ElseifFacts(s);
    KeywordFirst(s, 6);
  }

  lemma ElseFacts(s: string)
    requires |s| >= 4 && s[..4] == "else" && WordEnds(s, 4)
    ensures MatchString(s).None? && MatchComment(s).None? && MatchNumber(s).None?
    ensures MatchOp(s).None? && MatchKeyword(s) == Some(4)
  {
    assert s[0] == 'e';
    LetterStart(s);
    NoOperatorAt(s);
    NotPrefixAt(Keywords[0], s, 0);
    NotPrefixAt(Keywords[1], s, 0);
    if |s| >= 6 {
      NotPrefixAt(Keywords[2], s, 4);
    }
    assert Keywords[3] == s[..4];
    KeywordIs(s, 3);
  }

  /** `else` at a word boundary is the keyword `else`. */
  lemma ElseKeyword(s: string)
    requires |s| >= 4 && s[..4] == "else" && WordEnds(s, 4)
    ensures FirstMatch(s) == Some((4, 4))
  {
    ElseFacts(s);
    KeywordFirst(s, 4);
  }

  lemma BlankFacts(s: string)
    requires s != [] && (s[0] in " \t\r\n" || 'A' <= s[0] <= 'Z')
    ensures MatchString(s).None? && MatchComment(s).None? && MatchNumber(s).None?
    ensures MatchOp(s).None? && MatchKeyword(s).None? && MatchIdent(s).None?
  {
    SymbolStart(s);
    NoOperatorAt(s);
    NoKeywordAt(s);
  }

  /** White space and upper-case letters start no token. */
  lemma BlankNoRule(s: string)
    requires s != [] && (s[0] in " \t\r\n" || 'A' <= s[0] <= 'Z')
    ensures FirstMatch(s).None?
  {
    BlankFacts(s);
    NoRule(s);
  }

  // ---------------------------------------------------------------------
  // Whole texts.

  /** A text the first rule matches to its end is one span. */
  lemma ScanWhole(s: string, i: nat)
    requires s != [] && FirstMatch(s) == Some((i, |s|))
    ensures Scan(s) == [Emit(Rules[i], s)]
  {
    ScanMatched(s, i, |s|);
    WholeSlices(s);
    var e := Emit(Rules[i], s);
    assert [e] + [] == [e];
  }

  lemma WholeSlices(s: string)
    ensures s[..|s|] == s && Scan(s[|s|..]) == []
  {
    assert s[|s|..] == [];
  }

  /** `--1` is a comment, not a number. */
  lemma CommentBeforeNumber()
    ensures Scan("--1") == [Comment("--1")]
  {
    var s := "--1";
    assert RunEnd(s, 2, NotLineBreak) == 3;
    CommentFirst(s);
    ScanWhole(s, 1);
  }

  /** `-12` is one number token, sign included. */
  lemma SignedNumber()
    ensures Scan("-12") == [Tok(Token(Number, "-12"))]
  {
    var s := "-12";
    assert RunEnd(s, 1, IsDigit) == 3;
    SignedNumberFirst(s);
    ScanWhole(s, 2);
  }

  /** A quoted keyword is one string token. */
  lemma StringBeforeKeyword()
    ensures Scan("\"for\"") == [Tok(Token(String, "\"for\""))]
  {
    var s := "\"for\"";
    assert RunEnd(s, 1, NotQuote) == 4;
    StringFirst(s);
    ScanWhole(s, 0);
  }

  lemma DerFacts()
    ensures MatchString("der").None? && MatchComment("der").None? && MatchNumber("der").None?
    ensures MatchOp("der").None? && MatchKeyword("der").None? && MatchIdent("der") == Some(3)
  {
    var s := "der";
    LetterStart(s);
    NoOperatorAt(s);
    forall j | 0 <= j < |Keywords| ensures !WordAt(Keywords[j], s, true) {
      NotPrefixAt(Keywords[j], s, if j == 5 then 1 else 0);
    }
    KeywordNone(s);
    IdentAt(s, 3);
  }

  /** `order` is the operator `or` followed by the identifier `der`. */
  lemma OperatorThenIdent()
    ensures Scan("order") == [Tok(Token(Op, "or")), Tok(Token(Ident, "der"))]
  {
    var s := "order";
    OperatorInsideWord(s);
    ScanMatched(s, 3, 2);
    assert s[..2] == "or" && s[2..] == "der";
    DerIdent();
  }

  /** `der` is one identifier. */
  lemma DerIdent()
    ensures Scan("der") == [Tok(Token(Ident, "der"))]
  {
    DerFacts();
    IdentFirst("der", 3);
    ScanWhole("der", 5);
  }

  /** `forx` is one identifier. */
  lemma ForxIdent()
    ensures Scan("forx") == [Tok(Token(Ident, "forx"))]
  {
    var s := "forx";
    assert RunEnd(s, 1, IsIdentChar) == 4;
    KeywordNeedsBoundary(s);
    ScanWhole(s, 5);
  }

  /** No keyword matches `elsewhere`: `else` is a prefix but no word
      boundary follows it, and `elseif` and `end` are not prefixes. */
  lemma ElsewhereNoKeyword(s: string)
    requires s == "elsewhere"
    ensures MatchKeyword(s).None?
  {
    forall j | 0 <= j < |Keywords| ensures !WordAt(Keywords[j], s, true) {
      if j == 2 {
        NotPrefixAt(Keywords[j], s, 4);
      } else if j == 3 {
        assert !WordEnds(s, 4);
      } else if j == 4 {
        NotPrefixAt(Keywords[j], s, 1);
      } else {
        assert Keywords[j][0] in "fidt";
      }
    }
  }

  lemma ElsewhereFacts(s: string)
    requires s == "elsewhere"
    ensures MatchString(s).None? && MatchComment(s).None? && MatchNumber(s).None?
    ensures MatchOp(s).None? && MatchKeyword(s).None? && MatchIdent(s) == Some(9)
  {
    LetterStart(s);
    NoOperatorAt(s);
    ElsewhereNoKeyword(s);
    IdentAt(s, 9);
  }

  /** `elsewhere` is one identifier, not the keyword `else` followed by `where`. */
  lemma ElsewhereIdent()
    ensures Scan("elsewhere") == [Tok(Token(Ident, "elsewhere"))]
  {
    var s := "elsewhere";
    ElsewhereRule(s);
    ScanWhole(s, 5);
  }

  lemma ElsewhereRule(s: string)
    requires s == "elsewhere"
    ensures FirstMatch(s) == Some((5, |s|))
  {
    ElsewhereFacts(s);
    IdentFirst(s, 9);
  }

  /** `elseif` is one keyword token. */
  lemma ElseifToken()
    ensures Scan("elseif") == [Tok(Token(Keyword, "elseif"))]
  {
    var s := "elseif";
    assert s[..6] == s;
    ElseifKeyword(s);
    ScanWhole(s, 4);
  }

  /** A lone space is one ignored group. */
  lemma SpaceGroup()
    ensures Scan(" ") == [Ignored([IgnoredChar(Space, ' ')])]
  {
    var t := " ";
    BlankNoRule(t);
    ScanUnmatched(t);
    assert t[1..] == [];
  }

  /** `else ` is the keyword `else`, then an ignored group holding the space. */
  lemma ElseThenSpace()
    ensures Scan("else ") == [Tok(Token(Keyword, "else")), Ignored([IgnoredChar(Space, ' ')])]
  {
    var s := "else ";
    assert s[..4] == "else";
    ElseKeyword(s);
    calc {
      Scan(s);
      { ScanMatched(s, 4, 4); }
      [Emit(Rules[4], s[..4])] + Scan(s[4..]);
      { assert s[4..] == " "; SpaceGroup(); }
      [Tok(Token(Keyword, "else"))] + [Ignored([IgnoredChar(Space, ' ')])];
    }
  }

  /** The identifier run `[a-z][a-z0-9_]*` stops before an upper-case
      letter, where there is no word boundary, so the identifier rule fails. */
  lemma IdentRunBeforeUpper(s: string)
    requires |s| >= 2 && 'A' <= s[|s| - 1] <= 'Z'
    requires forall k :: 0 <= k < |s| - 1 ==> IsLower(s[k])
    ensures MatchIdent(s).None?
  {
    assert RunEnd(s, 1, IsIdentChar) == |s| - 1;
  }

  lemma LowerRunFacts(s: string)
    requires |s| >= 2 && 'A' <= s[|s| - 1] <= 'Z'
    requires forall k :: 0 <= k < |s| - 1 ==> s[k] == 'o'
    ensures MatchString(s).None? && MatchComment(s).None? && MatchNumber(s).None?
    ensures MatchOp(s).None? && MatchKeyword(s).None? && MatchIdent(s).None?
  {
    LetterStart(s);
    NoOperatorAt(s);
    NoKeywordAt(s);
    IdentRunBeforeUpper(s);
  }

  lemma FooXFacts()
    ensures MatchString("fooX").None? && MatchComment("fooX").None? && MatchNumber("fooX").None?
    ensures MatchOp("fooX").None? && MatchKeyword("fooX").None? && MatchIdent("fooX").None?
  {
    var s := "fooX";
    LetterStart(s);
    NoOperatorAt(s);
    forall j | 0 <= j < |Keywords| ensures !WordAt(Keywords[j], s, true) {
      NotPrefixAt(Keywords[j], s, if j == 0 then 2 else 0);
    }
    KeywordNone(s);
    IdentRunBeforeUpper(s);
  }

  /** No rule matches at any position of `fooX`. */
  lemma FooXUnmatched(k: nat)
    requires k < 4
    ensures FirstMatch("fooX"[k..]).None?
  {
    var s := "fooX";
    if k == 0 {
      FooXFacts();
      NoRule(s);
    } else if k < 3 {
      LowerRunFacts(s[k..]);
      NoRule(s[k..]);
    } else {
      BlankNoRule(s[k..]);
    }
  }

  lemma FooXRun()
    ensures Scan("fooX") == JoinIgnored(Classified("fooX"), [])
  {
    var s := "fooX";
    assert s + [] == s;
    forall k | 0 <= k < |s| ensures FirstMatch((s + [])[k..]).None? {
      FooXUnmatched(k);
    }
    UnmatchedRun(s, []);
  }

  lemma ClassifiedFooX()
    ensures Classified("fooX") == [IgnoredChar(Other, 'f'), IgnoredChar(Other, 'o'),
                                   IgnoredChar(Other, 'o'), IgnoredChar(Other, 'X')]
  {
    var g := Classified("fooX");
    assert g[0] == IgnoredChar(Other, 'f') && g[1] == IgnoredChar(Other, 'o');
    assert g[2] == IgnoredChar(Other, 'o') && g[3] == IgnoredChar(Other, 'X');
  }

  /** Without a word boundary after it, `foo` is no identifier: every
      character of `fooX` is ignored, in one group. */
  lemma NoBoundaryNoIdent()
    ensures Scan("fooX") == [Ignored([IgnoredChar(Other, 'f'), IgnoredChar(Other, 'o'),
                                      IgnoredChar(Other, 'o'), IgnoredChar(Other, 'X')])]
  {
    FooXRun();
    ClassifiedFooX();
  }
}
