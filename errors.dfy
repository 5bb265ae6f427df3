/** The spanned error of the lexer generation and its rendering, src/error.rs. */
module Errors {
  import opened Spans
  import Digits

  /** Every variant carries the span that locates the failure. */
  datatype ParseError =
    | ExpectedOne(span: Span, expectedAll: seq<string>)
    | Expected(span: Span, found: string, expected: string)
    | UnexpectedEof(span: Span, expected: string)
    | Message(span: Span, msg: string)

  /** `ParseError::eof`. */
  function Eof(span: Span, expected: string): (e: ParseError)
    ensures e.UnexpectedEof? && e.span == span && e.expected == expected
  {
    UnexpectedEof(span, expected)
  }

  /** `ParseError::msg`. */
  function Msg(span: Span, msg: string): (e: ParseError)
    ensures e.Message? && e.span == span && e.msg == msg
  {
    Message(span, msg)
  }

  /** The `ExpectedOne` loop from index `i` on: every item but the last is followed by ", ". */
  function JoinFrom(items: seq<string>, i: nat): string
    decreases |items| - i
  {
    if i >= |items| then ""
    else (if i < |items| - 1 then items[i] + ", " else items[i]) + JoinFrom(items, i + 1)
  }

  /** Reference definition of a ", "-separated list. */
  function Join(items: seq<string>): string
  {
    if |items| == 0 then ""
    else if |items| == 1 then items[0]
    else items[0] + ", " + Join(items[1..])
  }

  lemma {:induction false} JoinFromIsJoin(items: seq<string>, i: nat)
    requires i <= |items|
    ensures JoinFrom(items, i) == Join(items[i..])
    decreases |items| - i
  {
    if i < |items| {
      JoinFromIsJoin(items, i + 1);
      assert items[i..][1..] == items[i + 1..];
    }
  }

  /** The joined list: empty for no items, the item for one, and each further item
      added after a single ", " separator (so there is never a trailing one). */
  lemma {:induction false} JoinAppend(items: seq<string>, x: string)
    ensures Join([]) == "" && Join([x]) == x
    ensures items != [] ==> Join(items + [x]) == Join(items) + ", " + x
  {
    if |items| > 1 {
      assert (items + [x])[1..] == items[1..] + [x];
      JoinAppend(items[1..], x);
    } else if |items| == 1 {
      assert (items + [x])[1..] == [x];
    }
  }

  function LineColumn(span: Span): string
  {
    "line: " + Digits.Decimal(span.line) + " column: " + Digits.Decimal(span.column)
  }

  /** `Display::fmt`. */
  function Render(e: ParseError): string
  {
    match e
    case ExpectedOne(span, items) =>
      "expected one of the following '" + JoinFrom(items, 0) + "' at " + LineColumn(span)
    case Expected(span, found, expected) =>
      "found " + found + " as " + LineColumn(span) + ", expected '" + expected + "'"
    case UnexpectedEof(span, expected) =>
      "found <eof> at " + LineColumn(span) + ", expected '" + expected + "'"
    case Message(span, msg) =>
      msg + " at line: " + Digits.Decimal(span.line) + " column " + Digits.Decimal(span.column)
  }

  /** The `ExpectedOne` message quotes the items in order, separated by ", ". */
  lemma RenderExpectedOne(span: Span, items: seq<string>)
    ensures Render(ExpectedOne(span, items))
         == "expected one of the following '" + Join(items) + "' at " + LineColumn(span)
  {
    JoinFromIsJoin(items, 0);
    assert items[0..] == items;
  }

  predicate EndsWith(s: string, t: string)
  {
    |t| <= |s| && s[|s| - |t|..] == t
  }

  lemma EndsWithConcat(a: string, t: string)
    ensures EndsWith(a + t, t)
  {
    assert (a + t)[|a + t| - |t|..] == t;
  }

  lemma EndsWithExtend(p: string, s: string, t: string)
    requires EndsWith(s, t)
    ensures EndsWith(p + s, t)
  {
    assert (p + s)[|p + s| - |t|..] == s[|s| - |t|..];
  }

  /** A suffix stays a suffix when the same text is appended to both. */
  lemma EndsWithAppend(s: string, t: string, u: string)
    requires EndsWith(s, t)
    ensures EndsWith(s + u, t + u)
  {
    assert (s + u)[|s + u| - |t + u|..] == s[|s| - |t|..] + u;
  }

  /** The expectation part closing an `Expected` or `UnexpectedEof` rendering. */
  function Expectation(span: Span, expected: string): string
  {
    LineColumn(span) + ", expected '" + expected + "'"
  }

  lemma EndsWithExpectation(prefix: string, span: Span, expected: string)
    ensures EndsWith(prefix + LineColumn(span) + ", expected '" + expected + "'", Expectation(span, expected))
  {
    EndsWithConcat(prefix, LineColumn(span));
    EndsWithAppend(prefix + LineColumn(span), LineColumn(span), ", expected '");
    EndsWithAppend(prefix + LineColumn(span) + ", expected '", LineColumn(span) + ", expected '", expected);
    EndsWithAppend(prefix + LineColumn(span) + ", expected '" + expected, LineColumn(span) + ", expected '" + expected, "'");
  }

  /** `ExpectedOne` and `Message` renderings end with the span's column; `Expected` and
      `UnexpectedEof` end with the quoted expectation, after the span's line and column. */
  lemma RenderEnding(e: ParseError)
    ensures e.ExpectedOne? || e.Message? ==> EndsWith(Render(e), Digits.Decimal(e.span.column))
    ensures e.Expected? || e.UnexpectedEof? ==> EndsWith(Render(e), Expectation(e.span, e.expected))
  {
    match e
    case ExpectedOne(span, items) =>
      var c := Digits.Decimal(span.column);
      EndsWithConcat("line: " + Digits.Decimal(span.line) + " column: ", c);
      EndsWithExtend("expected one of the following '" + JoinFrom(items, 0) + "' at ", LineColumn(span), c);
    case Expected(span, found, expected) =>
      EndsWithExpectation("found " + found + " as ", span, expected);
    case UnexpectedEof(span, expected) =>
      EndsWithExpectation("found <eof> at ", span, expected);
    case Message(span, msg) =>
      EndsWithConcat(msg + " at line: " + Digits.Decimal(span.line) + " column ", Digits.Decimal(span.column));
  }
}
