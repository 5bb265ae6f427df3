/** The JSON token set of examples/json.rs: four punctuation tokens and a string literal
    with no escapes, lexed from the character lexer. */
module JsonTokens {
  import opened Wrappers
  import opened Spans
  import opened Errors
  import opened CharLexing

  datatype LitStr = LitStr(span: Span, text: string)

  datatype JsonToken = OpenBrace | CloseBrace | Equal | Comma | Str(lit: LitStr)

  /** The first `"` of `s` at or after `i`. */
  function FindQuote(s: string, i: nat): (r: Option<nat>)
    requires i <= |s|
    ensures r.Some? ==> i <= r.value < |s| && s[r.value] == '"'
    ensures r.Some? ==> forall j :: i <= j < r.value ==> s[j] != '"'
    ensures r.None? ==> forall j :: i <= j < |s| ==> s[j] != '"'
    decreases |s| - i
  {
    if i == |s| then None else if s[i] == '"' then Some(i) else FindQuote(s, i + 1)
  }

  /** Consuming one more character after `n`. */
  lemma {:induction false} AdvanceNSucc(l: CharLexer, n: nat)
    requires n < |l.rest|
    ensures AdvanceN(l, n + 1) == Advance(AdvanceN(l, n))
    decreases n
  {
    if n > 0 {
      AdvanceNSucc(Advance(l), n - 1);
    }
  }

  lemma {:induction false} DrainIsAdvanceAll(l: CharLexer)
    ensures Drain(l) == AdvanceN(l, |l.rest|)
    decreases |l.rest|
  {
    if l.rest != [] {
      DrainIsAdvanceAll(Advance(l));
    }
  }

  /** `LitStr::lex`: an opening quote, then everything up to the next quote. At the end
      of input before a closing quote the error carries the span of the opening position;
      a literal spans from its opening quote to just after its closing one. */
  function LexLitStr(l: CharLexer): (r: (Result<LitStr, ParseError>, CharLexer))
    ensures Peek(l) != Some('"') ==> r == (Err(Expect(l, '"').0.error), Expect(l, '"').1)
    ensures r.0.Ok? ==>
      var t := r.0.value.text;
      && |t| + 2 <= |l.rest| && l.rest[..|t| + 2] == ['"'] + t + ['"']
      && (forall j :: 0 <= j < |t| ==> t[j] != '"')
      && r.1.rest == l.rest[|t| + 2..]
      && r.0.value.span.offset == l.offset && r.0.value.span.length == |t| + 2
    ensures Peek(l) == Some('"') && FindQuote(l.rest, 1).None? ==>
      r == (Err(Message(SpanAt(l, 0), "expected end to string")), Drain(Advance(l)))
  {
    var start := SpanAt(l, 0);
    var (quote, l1) := Expect(l, '"');
    if quote.Err? then (Err(quote.error), l1)
    else
      assert l1.rest == l.rest[1..];
      match FindQuote(l1.rest, 0)
      case None =>
        FindQuoteShift(l.rest, 0);
        (Err(Msg(start, "expected end to string")), Drain(l1))
      case Some(k) =>
        var l2 := AdvanceN(l1, k + 1);
        var t := l1.rest[..k];
        assert l.rest[..|t| + 2] == ['"'] + t + ['"'];
        (Ok(LitStr(Merge(start, SpanAt(l2, 0)), t)), l2)
  }

  /** Searching the tail from 0 is searching the whole from 1. */
  lemma {:induction false} FindQuoteShift(s: string, i: nat)
    requires s != [] && i <= |s| - 1
    ensures FindQuote(s[1..], i) == (if FindQuote(s, i + 1).Some? then Some(FindQuote(s, i + 1).value - 1) else None)
    decreases |s| - i
  {
    if i < |s| - 1 && s[i + 1] != '"' {
      FindQuoteShift(s, i + 1);
    }
  }

  /** The loop of `LitStr::lex` as written. */
  method LexLitStrLoop(l: CharLexer) returns (r: Result<LitStr, ParseError>, l': CharLexer)
    ensures (r, l') == LexLitStr(l)
  {
    var span := SpanAt(l, 0);
    var quote, cur := Expect(l, '"').0, Expect(l, '"').1;
    if quote.Err? {
      return Err(quote.error), cur;
    }
    ghost var l1 := cur;
    ghost var s := cur.rest;
    ghost var i: nat := 0;
    var text: string := [];
    while true
      invariant i <= |s| && cur == AdvanceN(l1, i) && text == s[..i]
      invariant FindQuote(s, 0) == FindQuote(s, i)
      decreases |cur.rest|
    {
      var c, next := CharLexing.Next(cur).0, CharLexing.Next(cur).1;
      if c.None? {
        DrainIsAdvanceAll(l1);
        return Err(Msg(span, "expected end to string")), next;
      }
      AdvanceNSucc(l1, i);
      if c.value == '"' {
        cur := next;
        span := Merge(span, SpanAt(cur, 0));
        break;
      }
      assert s[..i + 1] == s[..i] + [s[i]];
      text := text + [c.value];
      cur := next;
      i := i + 1;
    }
    MergeIdempotent(SpanAt(l, 0), SpanAt(cur, 0));
    r := Ok(LitStr(Merge(span, SpanAt(cur, 0)), text));
    l' := cur;
  }

  /** A quoted text without quotes lexes back to that text and leaves what followed. */
  lemma LitStrRoundTrip(t: string, rest: string, line: nat, column: nat, offset: nat)
    requires forall j :: 0 <= j < |t| ==> t[j] != '"'
    ensures var l := CharLexer(['"'] + t + ['"'] + rest, line, column, offset);
      && LexLitStr(l).0.Ok?
      && LexLitStr(l).0.value.text == t
      && LexLitStr(l).1.rest == rest
  {
    var l := CharLexer(['"'] + t + ['"'] + rest, line, column, offset);
    var r := LexLitStr(l);
    var s := l.rest;
    assert s[1..][|t|] == '"';
    assert FindQuote(s[1..], 0).Some?;
    assert r.0.value.text == s[1..|t| + 1] == t;
    assert s[|t| + 2..] == rest;
  }

  /** The generated `match_string`: the characters of `str`, one at a time. */
  function MatchString(l: CharLexer, str: string): (r: (Result<(), ParseError>, CharLexer))
    ensures r.0.Ok? <==> str <= l.rest
    ensures r.0.Ok? ==> r.1 == AdvanceN(l, |str|)
    decreases |str|
  {
    if str == [] then (Ok(()), l)
    else
      match CharLexing.Next(l)
      case (None, l') => (Err(Expected(SpanAt(l', 0), "<eof>", [str[0]])), l')
      case (Some(c), l') =>
        if c != str[0] then (Err(Expected(SpanAt(l', 0), [c], [str[0]])), l')
        else
          var (m, l'') := MatchString(l', str[1..]);
          assert str <= l.rest <==> str[1..] <= l'.rest;
          (m, l'')
  }

  /** The derived `JsonToken::lex`: each variant in declaration order on a fork, the first
      that lexes is committed; when none does, an end-of-input error names the token. */
  function LexJsonToken(l: CharLexer, name: string): (r: (Result<JsonToken, ParseError>, CharLexer))
    ensures Peek(l) == Some('{') ==> r == (Ok(OpenBrace), Advance(l))
    ensures Peek(l) == Some('}') ==> r == (Ok(CloseBrace), Advance(l))
    ensures Peek(l) == Some('=') ==> r == (Ok(Equal), Advance(l))
    ensures Peek(l) == Some(',') ==> r == (Ok(Comma), Advance(l))
    ensures Peek(l) == Some('"') && LexLitStr(l).0.Ok? ==> r == (Ok(Str(LexLitStr(l).0.value)), LexLitStr(l).1)
    ensures r.0.Err? ==> r == (Err(UnexpectedEof(SpanAt(l, 0), name)), l)
    ensures !(Peek(l) in {Some('{'), Some('}'), Some('='), Some(','), Some('"')}) ==> r.0.Err?
  {
    if MatchString(l, "{").0.Ok? then (Ok(OpenBrace), MatchString(l, "{").1)
    else if MatchString(l, "}").0.Ok? then (Ok(CloseBrace), MatchString(l, "}").1)
    else if MatchString(l, "=").0.Ok? then (Ok(Equal), MatchString(l, "=").1)
    else if MatchString(l, ",").0.Ok? then (Ok(Comma), MatchString(l, ",").1)
    else if LexLitStr(l).0.Ok? then (Ok(Str(LexLitStr(l).0.value)), LexLitStr(l).1)
    else (Err(Eof(SpanAt(l, 0), name)), l)
  }
}
