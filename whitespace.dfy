/** `Whitespace`, the syntax that skips leading whitespace of a character parser,
    src/whitespace.rs. */
module WhitespaceSkipping {
  import opened Wrappers
  import opened Streams
  import CharLexing

  /** What is left after the maximal whitespace prefix: a suffix of the input whose first
      character, if any, is not whitespace, and everything before it is. */
  function SkipLeading(s: seq<char>): (r: seq<char>)
    ensures |r| <= |s| && r == s[|s| - |r|..]
    ensures forall i :: 0 <= i < |s| - |r| ==> CharLexing.IsWhitespace(s[i])
    ensures r == [] || !CharLexing.IsWhitespace(r[0])
  {
    if s != [] && CharLexing.IsWhitespace(s[0]) then
      var r := SkipLeading(s[1..]);
      assert forall i :: 1 <= i < |s| - |r| ==> s[i] == s[1..][i - 1];
      r
    else s
  }

  /** With no leading whitespace nothing is consumed. */
  lemma SkipLeadingNone(s: seq<char>)
    requires s == [] || !CharLexing.IsWhitespace(s[0])
    ensures SkipLeading(s) == s
  {
  }

  /** Skipping twice is skipping once. */
  lemma SkipLeadingIdempotent(s: seq<char>)
    ensures SkipLeading(SkipLeading(s)) == SkipLeading(s)
  {
    SkipLeadingNone(SkipLeading(s));
  }

  /** `Whitespace::parse`: consume while the peeked character is whitespace; never fails. */
  method ParseWhitespace<E>(s: seq<char>) returns (r: Result<(), E>, s': seq<char>)
    ensures r == Ok(()) && s' == SkipLeading(s)
    ensures (r, s') == WhitespaceRule(s)
  {
    s' := s;
    while Peek(s').Some?
      invariant SkipLeading(s') == SkipLeading(s)
      decreases |s'|
    {
      if !CharLexing.IsWhitespace(Peek(s').value) {
        break;
      }
      s' := Next(s').1;
    }
    r := Ok(());
  }

  /** `Whitespace` as a rule, for `SeparateWhitespace`. */
  function WhitespaceRule<E>(s: seq<char>): (Result<(), E>, seq<char>)
  {
    (Ok(()), SkipLeading(s))
  }
}
