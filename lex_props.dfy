/** What one lexing pass guarantees, proved about `Scan`: it loses nothing,
    every span belongs to the lexical class of the rule that emitted it,
    ignored groups are non-empty and never adjacent, and every rule takes
    the longest text it can. */
module LexProps {
  import opened Tokens
  import opened LexSpec

  /** Each emitted element, taken on its own, is well formed. */
  predicate WellFormedElem(e: Elem) {
    match e
    case Tok(Token(String, t)) => IsStringLit(t)
    case Tok(Token(Number, t)) => IsNumberText(t)
    case Tok(Token(Op, t)) => t in Operators
    case Tok(Token(Keyword, t)) => t in Keywords
    case Tok(Token(Ident, t)) =>
      IsIdentText(t) && t !in Keywords && forall j :: 0 <= j < |Operators| ==> !(Operators[j] <= t)
    case Comment(t) => IsCommentText(t)
    case Ignored(g) => g != [] && forall j :: 0 <= j < |g| ==> g[j].cls == Classify(g[j].ch)
  }

  /** No two ignored groups are adjacent: a group is flushed only before a
      span or at the end of input. */
  predicate GroupsSeparated(es: seq<Elem>) {
    forall i :: 0 <= i < |es| - 1 && es[i].Ignored? ==> !es[i + 1].Ignored?
  }

  /** What may follow an element in the input, given that its rule is greedy. */
  predicate Follows(e: Elem, rest: string) {
    match e
    case Tok(Token(Number, _)) => rest == [] || !IsDigit(rest[0])
    case Tok(Token(Keyword, _)) => rest == [] || !IsWordChar(rest[0])
    case Tok(Token(Ident, _)) => rest == [] || !IsWordChar(rest[0])
    case Comment(_) => rest == [] || IsLineBreak(rest[0])
    case _ => true
  }

  /** Lossless scan: the texts of the emitted spans, ignored characters
      included, concatenate to the input. */
  lemma {:induction false} ScanLossless(s: string)
    ensures Flatten(Scan(s)) == s
    decreases |s|
  {
    if s != [] {
      match FirstMatch(s)
      case Some((i, n)) =>
        ScanLossless(s[n..]);
        LosslessMatched(s, i, n);
      case None =>
        ScanLossless(s[1..]);
        LosslessUnmatched(s);
    }
  }

  /** One emitted span, then the rest. */
  lemma LosslessMatched(s: string, i: nat, n: nat)
    requires s != [] && FirstMatch(s) == Some((i, n))
    requires Flatten(Scan(s[n..])) == s[n..]
    ensures Flatten(Scan(s)) == s
  {
    ScanMatched(s, i, n);
    FlattenSplit(s, n, Emit(Rules[i], s[..n]), Scan(s[n..]));
  }

  /** A span covering the first `n` characters, then elements covering the rest. */
  lemma FlattenSplit(s: string, n: nat, e: Elem, rest: seq<Elem>)
    requires n <= |s| && ElemText(e) == s[..n] && Flatten(rest) == s[n..]
    ensures Flatten([e] + rest) == s
  {
    FlattenCons(e, rest);
    assert s[..n] + s[n..] == s;
  }

  /** One ignored character, then the rest. */
  lemma LosslessUnmatched(s: string)
    requires s != [] && FirstMatch(s).None?
    requires Flatten(Scan(s[1..])) == s[1..]
    ensures Flatten(Scan(s)) == s
  {
    ScanUnmatched(s);
    FlattenJoinIgnored([IgnoredChar(Classify(s[0]), s[0])], Scan(s[1..]));
    assert [s[0]] + s[1..] == s;
  }

  /** Lexing the concatenated output again gives the same elements. */
  lemma RelexIdempotent(s: string)
    ensures Scan(Flatten(Scan(s))) == Scan(s)
  {
    ScanLossless(s);
  }

  /** An identifier span agrees with the identifier class and was passed
      over by the operator and keyword rules that come before it. */
  lemma IdentWellFormed(s: string, n: nat)
    requires 0 < n <= |s|
    requires MatchOp(s).None? && MatchKeyword(s).None? && MatchIdent(s) == Some(n)
    ensures WellFormedElem(Tok(Token(Ident, s[..n])))
  {
    var t := s[..n];
    assert t <= s;
    forall j | 0 <= j < |Operators| ensures !(Operators[j] <= t) {
      assert !(Operators[j] <= s);
    }
    forall j | 0 <= j < |Keywords| ensures Keywords[j] != t {
      assert !WordAt(Keywords[j], s, true);
    }
  }

  lemma EmitWellFormed(s: string, i: nat, n: nat)
    requires FirstMatch(s) == Some((i, n))
    ensures WellFormedElem(Emit(Rules[i], s[..n]))
  {
    if i == 5 {
      IdentRuleReached(s, n);
      IdentWellFormed(s, n);
    } else {
      RuleWellFormed(Rules[i], s, n);
    }
  }

  /** The identifier rule is reached only when the operator and keyword
      rules before it did not match. */
  lemma IdentRuleReached(s: string, n: nat)
    requires FirstMatch(s) == Some((5, n))
    ensures 0 < n <= |s|
    ensures MatchOp(s).None? && MatchKeyword(s).None? && MatchIdent(s) == Some(n)
  {
    assert Match(Rules[3], s).None? && Match(Rules[4], s).None?;
  }

  /** What a rule other than the identifier rule emits belongs to its
      lexical class (identifiers are `IdentWellFormed`). */
  lemma RuleWellFormed(rule: Rule, s: string, n: nat)
    requires Match(rule, s) == Some(n) && rule != IdentRule
    ensures n <= |s| && WellFormedElem(Emit(rule, s[..n]))
  {
  }

  predicate AllWellFormed(es: seq<Elem>) {
    forall i :: 0 <= i < |es| ==> WellFormedElem(es[i])
  }

  /** One unfolding of `Scan` when a rule matches. */
  lemma ScanMatched(s: string, i: nat, n: nat)
    requires s != [] && FirstMatch(s) == Some((i, n))
    ensures Scan(s) == [Emit(Rules[i], s[..n])] + Scan(s[n..])
  {
  }

  /** One unfolding of `Scan` when no rule matches. */
  lemma ScanUnmatched(s: string)
    requires s != [] && FirstMatch(s).None?
    ensures Scan(s) == JoinIgnored([IgnoredChar(Classify(s[0]), s[0])], Scan(s[1..]))
  {
  }

  lemma WellFormedCons(e: Elem, rest: seq<Elem>)
    requires WellFormedElem(e) && !e.Ignored?
    requires AllWellFormed(rest) && GroupsSeparated(rest)
    ensures AllWellFormed([e] + rest) && GroupsSeparated([e] + rest)
  {
    assert forall k :: 1 <= k < |rest| + 1 ==> ([e] + rest)[k] == rest[k - 1];
  }

  lemma WellFormedJoin(g: seq<IgnoredChar>, rest: seq<Elem>)
    requires WellFormedElem(Ignored(g))
    requires AllWellFormed(rest) && GroupsSeparated(rest)
    ensures AllWellFormed(JoinIgnored(g, rest)) && GroupsSeparated(JoinIgnored(g, rest))
  {
    if rest != [] && rest[0].Ignored? {
      var h := g + rest[0].chars;
      assert JoinIgnored(g, rest) == [Ignored(h)] + rest[1..];
      assert forall j :: |g| <= j < |h| ==> h[j] == rest[0].chars[j - |g|];
      assert WellFormedElem(Ignored(h));
      assert forall k :: 1 <= k < |rest| ==> ([Ignored(h)] + rest[1..])[k] == rest[k];
    } else {
      assert forall k :: 1 <= k < |rest| + 1 ==> ([Ignored(g)] + rest)[k] == rest[k - 1];
    }
  }

  /** Every span is well formed, and ignored groups are separated. */
  lemma {:induction false} ScanWellFormed(s: string)
    ensures AllWellFormed(Scan(s))
    ensures GroupsSeparated(Scan(s))
    decreases |s|
  {
    if s != [] {
      var m := FirstMatch(s);
      if m.Some? {
        var (i, n) := m.value;
        ScanMatched(s, i, n);
        ScanWellFormed(s[n..]);
        EmitWellFormed(s, i, n);
        WellFormedCons(Emit(Rules[i], s[..n]), Scan(s[n..]));
      } else {
        ScanUnmatched(s);
        ScanWellFormed(s[1..]);
        WellFormedJoin([IgnoredChar(Classify(s[0]), s[0])], Scan(s[1..]));
      }
    }
  }

  /** The ignored characters a text becomes when no rule matches anywhere in it. */
  function Classified(u: string): (g: seq<IgnoredChar>)
    ensures |g| == |u|
    ensures forall k :: 0 <= k < |u| ==> g[k] == IgnoredChar(Classify(u[k]), u[k])
  {
    seq(|u|, k requires 0 <= k < |u| => IgnoredChar(Classify(u[k]), u[k]))
  }

  lemma ClassifiedCons(u: string)
    requires u != []
    ensures Classified(u) == [IgnoredChar(Classify(u[0]), u[0])] + Classified(u[1..])
  {
  }

  /** Consecutive unmatched characters form one ignored group, merged with
      any group that follows them. */
  lemma {:induction false} UnmatchedRun(u: string, rest: string)
    requires forall k :: 0 <= k < |u| ==> FirstMatch((u + rest)[k..]).None?
    ensures Scan(u + rest) == JoinIgnored(Classified(u), Scan(rest))
    decreases |u|
  {
    if u == [] {
      assert u + rest == rest;
    } else {
      var s := u + rest;
      var c := IgnoredChar(Classify(u[0]), u[0]);
      assert s[0..] == s;
      ScanUnmatched(s);
      UnmatchedShift(u, rest);
      UnmatchedRun(u[1..], rest);
      ClassifiedCons(u);
      if u[1..] == [] {
        assert Classified(u) == [c];
      } else {
        JoinIgnoredJoin([c], Classified(u[1..]), Scan(rest));
      }
    }
  }

  lemma UnmatchedShift(u: string, rest: string)
    requires u != []
    requires forall k :: 0 <= k < |u| ==> FirstMatch((u + rest)[k..]).None?
    ensures (u + rest)[1..] == u[1..] + rest
    ensures forall k :: 0 <= k < |u| - 1 ==> FirstMatch((u[1..] + rest)[k..]).None?
  {
    var s := u + rest;
    assert s[1..] == u[1..] + rest;
    forall k | 0 <= k < |u| - 1 ensures FirstMatch(s[1..][k..]).None? {
      assert s[1..][k..] == s[k + 1..];
    }
  }

  lemma FollowsMatch(s: string, i: nat, n: nat)
    requires FirstMatch(s) == Some((i, n))
    ensures Follows(Emit(Rules[i], s[..n]), s[n..])
  {
    if n < |s| {
      assert s[n..][0] == s[n];
    }
  }

  predicate AllFollow(es: seq<Elem>) {
    forall i :: 0 <= i < |es| ==> Follows(es[i], Flatten(es[i + 1..]))
  }

  lemma FollowCons(e: Elem, rest: seq<Elem>)
    requires Follows(e, Flatten(rest)) && AllFollow(rest)
    ensures AllFollow([e] + rest)
  {
    var es := [e] + rest;
    assert es[1..] == rest;
    forall k | 1 <= k < |es| ensures Follows(es[k], Flatten(es[k + 1..])) {
      assert es[k] == rest[k - 1] && es[k + 1..] == rest[k..];
    }
  }

  /** An ignored group put in place of the first element. */
  lemma FollowReplaceHead(h: Elem, rest: seq<Elem>)
    requires rest != [] && h.Ignored? && AllFollow(rest)
    ensures AllFollow([h] + rest[1..])
  {
    var es := [h] + rest[1..];
    forall k | 1 <= k < |es| ensures Follows(es[k], Flatten(es[k + 1..])) {
      assert es[k] == rest[k] && es[k + 1..] == rest[k + 1..];
    }
  }

  lemma FollowJoin(g: seq<IgnoredChar>, rest: seq<Elem>)
    requires AllFollow(rest)
    ensures AllFollow(JoinIgnored(g, rest))
  {
    if g == [] {
    } else if rest != [] && rest[0].Ignored? {
      FollowReplaceHead(Ignored(g + rest[0].chars), rest);
    } else {
      FollowCons(Ignored(g), rest);
    }
  }

  /** Greedy rules: a number is never followed by a digit, a keyword or
      identifier never by a word character, a comment only by a line
      terminator or the end of input. */
  lemma {:induction false} ScanMaximalMunch(s: string)
    ensures AllFollow(Scan(s))
    decreases |s|
  {
    if s != [] {
      var m := FirstMatch(s);
      if m.Some? {
        var (i, n) := m.value;
        ScanMatched(s, i, n);
        ScanMaximalMunch(s[n..]);
        ScanLossless(s[n..]);
        FollowsMatch(s, i, n);
        FollowCons(Emit(Rules[i], s[..n]), Scan(s[n..]));
      } else {
        ScanUnmatched(s);
        ScanMaximalMunch(s[1..]);
        FollowJoin([IgnoredChar(Classify(s[0]), s[0])], Scan(s[1..]));
      }
    }
  }
}
