/** The parser generation whose `Parser` has a `Source` type and lexes tokens on demand,
    and the two adapters between parsers and lexers, src/parser_lexer.rs.
    Here `next::<T>()` is the token's own `lex` applied to the parser's state, so a parser
    is the record of the operations it has besides that. */
module SourceParsing {
  import opened Wrappers
  import opened Spans
  import opened Errors

  /** The operations of a `Parser<Source = ..>` over its state `S`. */
  datatype SourceParser<!S> = SourceParser(
    span: (S, nat) -> (Span, S),
    isEmpty: S -> (bool, S),
    fork: S -> S)

  /** The operations of a `Lexer<Output = O>` over its state `L`. */
  datatype LexerOps<!L, O> = LexerOps(
    span: (L, nat) -> (Span, L),
    next: L -> (Spanned<Option<O>>, L),
    isEmpty: L -> (bool, L),
    fork: L -> L)

  /** `LexerParser`: a parser whose state is the lexer itself. Every operation is the
      lexer's, and `next::<T>()` hands the lexer to `T::lex` unchanged. */
  function LexerParser<L(!new), O>(lx: LexerOps<L, O>): (p: SourceParser<L>)
    ensures forall l, n :: p.span(l, n) == lx.span(l, n)
    ensures forall l :: p.isEmpty(l) == lx.isEmpty(l)
    ensures forall l :: p.fork(l) == lx.fork(l)
  {
    SourceParser(lx.span, lx.isEmpty, lx.fork)
  }

  /** The fields of a `ParserLexer`: the wrapped parser's state and the peek cache. */
  datatype LexState<S, T> = LexState(parser: S, peek: Option<Spanned<T>>)

  /** `ParserLexer::span`: the wrapped parser's span; the cache is untouched. */
  function PlSpan<S, T>(p: SourceParser<S>, st: LexState<S, T>, length: nat)
    : (r: (Span, LexState<S, T>))
    ensures r == (p.span(st.parser, length).0, LexState(p.span(st.parser, length).1, st.peek))
  {
    var (sp, s1) := p.span(st.parser, length);
    (sp, LexState(s1, st.peek))
  }

  /** `ParserLexer::next`: a cached value is taken first; otherwise an empty parser, or
      a parse that fails, yields `None` at `span(0)`, and a parse that succeeds yields its
      value and span. The failure itself is dropped. */
  function PlNext<S, T>(p: SourceParser<S>, parse: S -> (Result<Spanned<T>, ParseError>, S),
                        st: LexState<S, T>)
    : (r: (Spanned<Option<T>>, LexState<S, T>))
    ensures r.1.peek == None
    ensures st.peek.Some? ==>
      r == (Spanned(Some(st.peek.value.value), st.peek.value.span), LexState(st.parser, None))
    ensures st.peek.None? ==>
      var (empty, s1) := p.isEmpty(st.parser);
      && (empty ==> r == (Spanned(None, p.span(s1, 0).0), LexState(p.span(s1, 0).1, None)))
      && (!empty && parse(s1).0.Ok? ==>
            r == (Spanned(Some(parse(s1).0.value.value), parse(s1).0.value.span),
                  LexState(parse(s1).1, None)))
      && (!empty && parse(s1).0.Err? ==>
            var s2 := parse(s1).1;
            r == (Spanned(None, p.span(s2, 0).0), LexState(p.span(s2, 0).1, None)))
  {
    match st.peek
    case Some(t) => (Spanned(Some(t.value), t.span), LexState(st.parser, None))
    case None =>
      var (empty, s1) := p.isEmpty(st.parser);
      if empty then
        var (sp, s2) := p.span(s1, 0);
        (Spanned(None, sp), LexState(s2, None))
      else
        var (parsed, s2) := parse(s1);
        if parsed.Ok? then
          (Spanned(Some(parsed.value.value), parsed.value.span), LexState(s2, None))
        else
          var (sp, s3) := p.span(s2, 0);
          (Spanned(None, sp), LexState(s3, None))
  }

  /** `ParserLexer::peek`: the cached value, or `next` with a present value stored. */
  function PlPeek<S, T>(p: SourceParser<S>, parse: S -> (Result<Spanned<T>, ParseError>, S),
                        st: LexState<S, T>)
    : (r: (Spanned<Option<T>>, LexState<S, T>))
    ensures st.peek.Some? ==> r == (Spanned(Some(st.peek.value.value), st.peek.value.span), st)
    ensures st.peek.None? ==>
      var (n, st1) := PlNext(p, parse, st);
      && r.0 == n
      && r.1.parser == st1.parser
      && r.1.peek == (if n.value.Some? then Some(Spanned(n.value.value, n.span)) else None)
  {
    match st.peek
    case Some(t) => (Spanned(Some(t.value), t.span), st)
    case None =>
      var (n, st1) := PlNext(p, parse, st);
      if n.value.Some? then (n, LexState(st1.parser, Some(Spanned(n.value.value, n.span))))
      else (n, st1)
  }

  /** `ParserLexer::expect`: `Ok` exactly when the next value is `e`; a different value is
      reported with its span and text, no value as the end of input. */
  function PlExpect<S, T(==)>(p: SourceParser<S>, parse: S -> (Result<Spanned<T>, ParseError>, S),
                              show: T -> string, st: LexState<S, T>, e: T)
    : (r: (Result<(), ParseError>, LexState<S, T>))
    ensures var (n, st1) := PlNext(p, parse, st);
      && r.1 == st1
      && (r.0.Ok? <==> n.value == Some(e))
      && (n.value.Some? && n.value.value != e ==> r.0 == Err(Expected(n.span, show(n.value.value), show(e))))
      && (n.value.None? ==> r.0 == Err(UnexpectedEof(n.span, show(e))))
  {
    var (n, st1) := PlNext(p, parse, st);
    match n.value
    case Some(t) =>
      if t == e then (Ok(()), st1) else (Err(Expected(n.span, show(t), show(e))), st1)
    case None => (Err(Eof(n.span, show(e))), st1)
  }

  /** `ParserLexer::fork`: a fork of the parser and a copy of the cache. */
  function PlFork<S, T>(p: SourceParser<S>, st: LexState<S, T>): (r: LexState<S, T>)
    ensures r.parser == p.fork(st.parser) && r.peek == st.peek
  {
    LexState(p.fork(st.parser), st.peek)
  }

  /** Peeking twice gives the same value, and the second peek neither parses nor changes
      anything. */
  lemma PeekTwice<S, T>(p: SourceParser<S>, parse: S -> (Result<Spanned<T>, ParseError>, S),
                        st: LexState<S, T>)
    ensures var (first, st1) := PlPeek(p, parse, st);
      first.value.Some? ==> PlPeek(p, parse, st1) == (first, st1)
  {
  }

  /** `next` after a peek that found a value returns that value with its span, and leaves
      the parser where the peek left it. */
  lemma NextAfterPeek<S, T>(p: SourceParser<S>, parse: S -> (Result<Spanned<T>, ParseError>, S),
                            st: LexState<S, T>)
    ensures var (first, st1) := PlPeek(p, parse, st);
      first.value.Some? ==> PlNext(p, parse, st1) == (first, LexState(st1.parser, None))
  {
  }

  /** A parse error never escapes `next`: with no cache and a non-empty parser whose parse
      fails, `next` reports no value. */
  lemma NextSwallowsErrors<S, T>(p: SourceParser<S>, parse: S -> (Result<Spanned<T>, ParseError>, S),
                                 st: LexState<S, T>)
    requires st.peek.None?
    requires !p.isEmpty(st.parser).0 && parse(p.isEmpty(st.parser).1).0.Err?
    ensures PlNext(p, parse, st).0.value.None?
  {
  }

  class ParserLexer<S, T(==)> {
    const ops: SourceParser<S>
    const parse: S -> (Result<Spanned<T>, ParseError>, S)
    const show: T -> string
    var parser: S
    var peek: Option<Spanned<T>>

    function State(): LexState<S, T>
      reads this
    {
      LexState(parser, peek)
    }

    /** `ParserLexer::new`. */
    constructor (ops: SourceParser<S>, parse: S -> (Result<Spanned<T>, ParseError>, S),
                 show: T -> string, parser: S)
      ensures this.ops == ops && this.parse == parse && this.show == show
      ensures State() == LexState(parser, None)
    {
      this.ops := ops;
      this.parse := parse;
      this.show := show;
      this.parser := parser;
      this.peek := None;
    }

    method Span(length: nat) returns (sp: Span)
      modifies this
      ensures (sp, State()) == PlSpan(ops, old(State()), length)
    {
      sp, parser := ops.span(parser, length).0, ops.span(parser, length).1;
    }

    method Next() returns (r: Spanned<Option<T>>)
      modifies this
      ensures (r, State()) == PlNext(ops, parse, old(State()))
    {
      if peek.Some? {
        var t := peek.value;
        peek := None;
        return Spanned(Some(t.value), t.span);
      }
      var empty, s1 := ops.isEmpty(parser).0, ops.isEmpty(parser).1;
      parser := s1;
      if empty {
        var sp := Span(0);
        r := Spanned(None, sp);
      } else {
        var parsed, s2 := parse(parser).0, parse(parser).1;
        parser := s2;
        if parsed.Ok? {
          r := Spanned(Some(parsed.value.value), parsed.value.span);
        } else {
          var sp := Span(0);
          r := Spanned(None, sp);
        }
      }
    }

    method Peek() returns (r: Spanned<Option<T>>)
      modifies this
      ensures (r, State()) == PlPeek(ops, parse, old(State()))
    {
      if peek.Some? {
        return Spanned(Some(peek.value.value), peek.value.span);
      }
      r := Next();
      if r.value.Some? {
        peek := Some(Spanned(r.value.value, r.span));
      }
    }

    method Expect(e: T) returns (r: Result<(), ParseError>)
      modifies this
      ensures (r, State()) == PlExpect(ops, parse, show, old(State()), e)
    {
      var n := Next();
      if n.value.Some? {
        if n.value.value == e {
          r := Ok(());
        } else {
          r := Err(Expected(n.span, show(n.value.value), show(e)));
        }
      } else {
        r := Err(Eof(n.span, show(e)));
      }
    }

    method Fork() returns (f: ParserLexer<S, T>)
      ensures fresh(f) && f.ops == ops && f.parse == parse && f.show == show
      ensures f.State() == PlFork(ops, State())
    {
      f := new ParserLexer(ops, parse, show, ops.fork(parser));
      f.peek := peek;
    }
  }
}
