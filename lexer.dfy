/** `lex` (lex.js:31-89): the imperative scanning loop. The text still to
    scan is reassigned after every step, and the open ignored group is
    accumulated and flushed, as in the source. */
module Lexer {
  import opened Tokens
  import opened LexSpec
  import opened LexProps

  /** Lexes `text` in one pass. The result is the reference `Scan`, so it
      loses nothing, every span is well formed, every rule took the
      longest text it could and ignored groups are never adjacent. */
  method Lex(text: string) returns (out: seq<Elem>)
    ensures out == Scan(text)
    ensures Flatten(out) == text
    ensures forall i :: 0 <= i < |out| ==> WellFormedElem(out[i])
    ensures GroupsSeparated(out)
    ensures forall i :: 0 <= i < |out| ==> Follows(out[i], Flatten(out[i + 1..]))
  {
    var rest := text;
    var whitespace: seq<IgnoredChar> := [];
    out := [];
    while rest != []
      invariant Scan(text) == out + JoinIgnored(whitespace, Scan(rest))
      decreases |rest|
    {
      var m := FirstMatch(rest);
      if m.Some? {
        // `replace`: flush the open group, emit the span, drop its text
        var (i, n) := m.value;
        var span := Emit(Rules[i], rest[..n]);
        ScanMatched(rest, i, n);
        FlushBeforeSpan(out, whitespace, span, Scan(rest[n..]));
        out := AppendWhitespace(out, whitespace);
        whitespace := [];
        out := out + [span];
        rest := rest[n..];
      } else {
        // no rule matched: one character joins the open group
        var c := IgnoredChar(Classify(rest[0]), rest[0]);
        ScanUnmatched(rest);
        JoinIgnoredJoin(whitespace, [c], Scan(rest[1..]));
        whitespace := whitespace + [c];
        rest := rest[1..];
      }
    }
    FlushAtEnd(out, whitespace);
    out := AppendWhitespace(out, whitespace);
    ScanLossless(text);
    ScanWellFormed(text);
    ScanMaximalMunch(text);
  }
}
