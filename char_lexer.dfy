/** The character lexer every `Lexer<Output = char>` of the lexer generation reads from:
    the remaining characters and the position of the first of them. */
module CharLexing {
  import opened Wrappers
  import opened Spans
  import opened Errors

  datatype CharLexer = CharLexer(rest: seq<char>, line: nat, column: nat, offset: nat)

  /** Unicode White_Space, the set `char::is_whitespace` tests. */
  predicate IsWhitespace(c: char)
  {
    var n := c as int;
    || 0x09 <= n <= 0x0D || n == 0x20 || n == 0x85 || n == 0xA0 || n == 0x1680
    || 0x2000 <= n <= 0x200A || n == 0x2028 || n == 0x2029 || n == 0x202F
    || n == 0x205F || n == 0x3000
  }

  /** `span(length)`: a span of `length` characters at the cursor. */
  function SpanAt(l: CharLexer, length: nat): (s: Span)
    ensures s.offset == l.offset && s.length == length
  {
    Span(l.line, l.column, l.offset, length)
  }

  /** Steps past the first character; a newline starts the next line. */
  function Advance(l: CharLexer): (r: CharLexer)
    requires l.rest != []
    ensures r.rest == l.rest[1..] && r.offset == l.offset + 1
  {
    if l.rest[0] == '\n' then CharLexer(l.rest[1..], l.line + 1, 0, l.offset + 1)
    else CharLexer(l.rest[1..], l.line, l.column + 1, l.offset + 1)
  }

  /** `next()`: the first character and the lexer past it, or `None` and no change at the end. */
  function Next(l: CharLexer): (r: (Option<char>, CharLexer))
    ensures l.rest == [] ==> r == (None, l)
    ensures l.rest != [] ==> r.0 == Some(l.rest[0]) && r.1 == Advance(l)
  {
    if l.rest == [] then (None, l) else (Some(l.rest[0]), Advance(l))
  }

  function Peek(l: CharLexer): (r: Option<char>)
    ensures r == Next(l).0
  {
    if l.rest == [] then None else Some(l.rest[0])
  }

  function IsEmpty(l: CharLexer): bool
  {
    l.rest == []
  }

  /** `expect(c)`: consumes one character whether or not it is `c`. */
  function Expect(l: CharLexer, c: char): (r: (Result<(), ParseError>, CharLexer))
    ensures r.1 == Next(l).1
    ensures r.0.Ok? <==> Peek(l) == Some(c)
    ensures l.rest == [] ==> r.0 == Err(UnexpectedEof(SpanAt(l, 0), [c]))
  {
    match Next(l)
    case (None, l') => (Err(Eof(SpanAt(l, 0), [c])), l')
    case (Some(d), l') =>
      if d == c then (Ok(()), l') else (Err(Expected(SpanAt(l, 1), [d], [c])), l')
  }

  /** `b` was reached from `a` by consuming characters: its input is a suffix of `a`'s and
      its offset moved by the number consumed. */
  ghost predicate Consumed(a: CharLexer, b: CharLexer)
  {
    |b.rest| <= |a.rest| && b.rest == a.rest[|a.rest| - |b.rest|..]
    && b.offset == a.offset + (|a.rest| - |b.rest|)
  }

  lemma ConsumedTrans(a: CharLexer, b: CharLexer, c: CharLexer)
    requires Consumed(a, b) && Consumed(b, c)
    ensures Consumed(a, c)
  {
    assert a.rest[|a.rest| - |b.rest|..][|b.rest| - |c.rest|..] == a.rest[|a.rest| - |c.rest|..];
  }

  lemma ConsumedNext(a: CharLexer)
    ensures Consumed(a, Next(a).1)
  {
  }

  /** The lexer after consuming `n` characters. */
  function AdvanceN(l: CharLexer, n: nat): (r: CharLexer)
    requires n <= |l.rest|
    ensures r.rest == l.rest[n..] && r.offset == l.offset + n
    decreases n
  {
    if n == 0 then l else AdvanceN(Advance(l), n - 1)
  }

  /** The lexer after consuming everything. */
  function Drain(l: CharLexer): (r: CharLexer)
    ensures r.rest == [] && r.offset == l.offset + |l.rest|
    decreases |l.rest|
  {
    if l.rest == [] then l else Drain(Advance(l))
  }
}
