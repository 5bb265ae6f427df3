/** The sequence combinators of the lexer generation, src/vec.rs: `VecTerminated`, a
    list that ends at a terminator token or at the end of input, and `Punctuated`, values
    separated by punctuation. Components are parse functions over the parser's state. */
module VecParsing {
  import opened Wrappers
  import opened Spans
  import opened Errors
  import opened CharLexing
  import opened SourceParsing

  /** `Parser::try_parse` of this generation, whose body is not part of this model: parse
      on a fork and keep the fork only when the parse succeeds. */
  function TryParse<S, P>(p: SourceParser<S>, parse: S -> (Result<P, ParseError>, S), s: S)
    : (r: (Option<P>, S))
    ensures parse(p.fork(s)).0.Ok? ==> r == (Some(parse(p.fork(s)).0.value), parse(p.fork(s)).1)
    ensures parse(p.fork(s)).0.Err? ==> r == (None, s)
  {
    var (parsed, f) := parse(p.fork(s));
    if parsed.Ok? then (Some(parsed.value), f) else (None, s)
  }

  /** The measure that makes the loops below finite: `is_empty` and `fork` never add input,
      a successful element parse consumes some, and a successful punctuation parse none
      that it did not find. */
  ghost predicate Progress<S(!new), T>(p: SourceParser<S>, elem: S -> (Result<T, ParseError>, S), size: S -> nat)
  {
    && (forall s :: size(p.isEmpty(s).1) <= size(s))
    && (forall s :: size(p.fork(s)) <= size(s))
    && (forall s :: elem(s).0.Ok? ==> size(elem(s).1) < size(s))
  }

  ghost predicate NoGrowth<S(!new), T>(parse: S -> (Result<T, ParseError>, S), size: S -> nat)
  {
    forall s :: parse(s).0.Ok? ==> size(parse(s).1) <= size(s)
  }

  datatype VecTerminated<T, Term> = VecTerminated(span: Span, vec: seq<T>, termination: Option<Term>)

  datatype Punctuated<T, P> = Punctuated(span: Span, values: seq<T>, punctuation: seq<P>)

  /** The `while !parser.is_empty()` loop of `VecTerminated::parse` from state `s` with the
      elements `vec` collected so far: the collected list and the terminator, or the first
      element error, and the state left. */
  function TermLoop<S(!new), T, Term>(p: SourceParser<S>, elem: S -> (Result<T, ParseError>, S),
                                      term: S -> (Result<Term, ParseError>, S), ghost size: S -> nat,
                                      s: S, vec: seq<T>)
    : (r: (Result<(seq<T>, Option<Term>), ParseError>, S))
    requires Progress(p, elem, size)
    ensures r.0.Ok? ==> vec <= r.0.value.0
    decreases size(s)
  {
    var (empty, s1) := p.isEmpty(s);
    if empty then (Ok((vec, None)), s1)
    else
      var (t, f) := term(p.fork(s1));
      if t.Ok? then (Ok((vec, Some(t.value))), f)
      else
        var (e, s2) := elem(s1);
        if e.Err? then (Err(e.error), s2)
        else TermLoop(p, elem, term, size, s2, vec + [e.value])
  }

  /** `VecTerminated::parse`: the loop's result, spanning from the start to where it stopped. */
  method ParseVecTerminated<S(!new), T, Term>(p: SourceParser<S>, elem: S -> (Result<T, ParseError>, S),
                                              term: S -> (Result<Term, ParseError>, S), ghost size: S -> nat, s: S)
    returns (r: Result<VecTerminated<T, Term>, ParseError>, s': S)
    requires Progress(p, elem, size)
    ensures var (start, s0) := p.span(s, 0);
      var (loop, s1) := TermLoop(p, elem, term, size, s0, []);
      && (loop.Err? ==> r == Err(loop.error) && s' == s1)
      && (loop.Ok? ==>
            var (stop, s2) := p.span(s1, 0);
            r == Ok(VecTerminated(Merge(start, stop), loop.value.0, loop.value.1)) && s' == s2)
  {
    var start, cur := p.span(s, 0).0, p.span(s, 0).1;
    ghost var s0 := cur;
    var vec: seq<T> := [];
    var termination: Option<Term> := None;
    while true
      invariant TermLoop(p, elem, term, size, cur, vec) == TermLoop(p, elem, term, size, s0, [])
      decreases size(cur)
    {
      var empty, s1 := p.isEmpty(cur).0, p.isEmpty(cur).1;
      if empty {
        cur := s1;
        break;
      }
      var fork := p.fork(s1);
      var t, f := term(fork).0, term(fork).1;
      if t.Ok? {
        cur := f;
        termination := Some(t.value);
        break;
      }
      var e, s2 := elem(s1).0, elem(s1).1;
      if e.Err? {
        return Err(e.error), s2;
      }
      vec := vec + [e.value];
      cur := s2;
    }
    var stop, s2 := p.span(cur, 0).0, p.span(cur, 0).1;
    r := Ok(VecTerminated(Merge(start, stop), vec, termination));
    s' := s2;
  }

  /** How the loop can end. With no terminator, the last step was an `is_empty` that said
      yes; with a terminator, the state is the one the terminator's fork left, so the
      terminator is consumed; with an error, it is an element's error and state. */
  lemma {:induction false} TermLoopStops<S(!new), T, Term>(p: SourceParser<S>, elem: S -> (Result<T, ParseError>, S),
                                                          term: S -> (Result<Term, ParseError>, S), size: S -> nat,
                                                          s: S, vec: seq<T>)
    requires Progress(p, elem, size)
    ensures var (r, s') := TermLoop(p, elem, term, size, s, vec);
      && (r.Ok? && r.value.1.None? ==> exists x :: p.isEmpty(x) == (true, s'))
      && (r.Ok? && r.value.1.Some? ==>
            exists x :: !p.isEmpty(x).0 && term(p.fork(p.isEmpty(x).1)) == (Ok(r.value.1.value), s'))
      && (r.Err? ==> exists x :: elem(x) == (Err(r.error), s'))
    decreases size(s)
  {
    var (empty, s1) := p.isEmpty(s);
    if !empty {
      var (t, f) := term(p.fork(s1));
      if t.Err? {
        var (e, s2) := elem(s1);
        if e.Ok? {
          TermLoopStops(p, elem, term, size, s2, vec + [e.value]);
        }
      }
    }
  }

  /** The terminator is tried before every element: when the first position already
      holds a terminator the list is empty, and when the input is empty there is none. */
  lemma TermLoopFirstStep<S(!new), T, Term>(p: SourceParser<S>, elem: S -> (Result<T, ParseError>, S),
                                           term: S -> (Result<Term, ParseError>, S), size: S -> nat, s: S)
    requires Progress(p, elem, size)
    ensures var (r, _) := TermLoop(p, elem, term, size, s, []);
      && (p.isEmpty(s).0 ==> r == Ok(([], None)))
      && (!p.isEmpty(s).0 && term(p.fork(p.isEmpty(s).1)).0.Ok? ==>
            r == Ok(([], Some(term(p.fork(p.isEmpty(s).1)).0.value))))
  {
  }

  /** The punctuated loop from state `s`: a mandatory value, then punctuation tried on a fork;
      a punctuation found means another value follows. */
  function PunctLoop<S(!new), T, P>(p: SourceParser<S>, value: S -> (Result<T, ParseError>, S),
                                    punct: S -> (Result<P, ParseError>, S), ghost size: S -> nat,
                                    s: S, values: seq<T>, puncts: seq<P>)
    : (r: (Result<(seq<T>, seq<P>), ParseError>, S))
    requires Progress(p, value, size) && NoGrowth(punct, size)
    ensures r.0.Ok? ==> values < r.0.value.0 && puncts <= r.0.value.1
    decreases size(s)
  {
    var (v, s1) := value(s);
    if v.Err? then (Err(v.error), s1)
    else
      var (sep, s2) := TryParse(p, punct, s1);
      if sep.None? then (Ok((values + [v.value], puncts)), s2)
      else PunctLoop(p, value, punct, size, s2, values + [v.value], puncts + [sep.value])
  }

  /** `Punctuated::parse`: nothing on empty input, else the punctuated loop; the span runs
      from the start to where it stopped. */
  method ParsePunctuated<S(!new), T, P>(p: SourceParser<S>, value: S -> (Result<T, ParseError>, S),
                                        punct: S -> (Result<P, ParseError>, S), ghost size: S -> nat, s: S)
    returns (r: Result<Punctuated<T, P>, ParseError>, s': S)
    requires Progress(p, value, size) && NoGrowth(punct, size)
    ensures var (start, s0) := p.span(s, 0);
      var (empty, s1) := p.isEmpty(s0);
      var (loop, s2) := if empty then (Ok(([], [])), s1) else PunctLoop(p, value, punct, size, s1, [], []);
      && (loop.Err? ==> r == Err(loop.error) && s' == s2)
      && (loop.Ok? ==>
            var (stop, s3) := p.span(s2, 0);
            r == Ok(Punctuated(Merge(start, stop), loop.value.0, loop.value.1)) && s' == s3)
  {
    var start, cur := p.span(s, 0).0, p.span(s, 0).1;
    var values: seq<T> := [];
    var punctuation: seq<P> := [];
    var empty, s1 := p.isEmpty(cur).0, p.isEmpty(cur).1;
    cur := s1;
    if !empty {
      while true
        invariant PunctLoop(p, value, punct, size, cur, values, punctuation)
               == PunctLoop(p, value, punct, size, s1, [], [])
        decreases size(cur)
      {
        var v, s2 := value(cur).0, value(cur).1;
        if v.Err? {
          return Err(v.error), s2;
        }
        values := values + [v.value];
        var sep, s3 := TryParse(p, punct, s2).0, TryParse(p, punct, s2).1;
        cur := s3;
        if sep.None? {
          break;
        }
        punctuation := punctuation + [sep.value];
      }
    }
    var stop, s4 := p.span(cur, 0).0, p.span(cur, 0).1;
    r := Ok(Punctuated(Merge(start, stop), values, punctuation));
    s' := s4;
  }

  /** Values and punctuation alternate, starting and ending with a value. */
  lemma {:induction false} PunctLoopCounts<S(!new), T, P>(p: SourceParser<S>, value: S -> (Result<T, ParseError>, S),
                                                         punct: S -> (Result<P, ParseError>, S), size: S -> nat,
                                                         s: S, values: seq<T>, puncts: seq<P>)
    requires Progress(p, value, size) && NoGrowth(punct, size)
    requires |values| == |puncts|
    ensures var (r, _) := PunctLoop(p, value, punct, size, s, values, puncts);
      r.Ok? ==> |r.value.0| == |r.value.1| + 1
    decreases size(s)
  {
    var (v, s1) := value(s);
    if v.Ok? {
      var (sep, s2) := TryParse(p, punct, s1);
      if sep.Some? {
        PunctLoopCounts(p, value, punct, size, s2, values + [v.value], puncts + [sep.value]);
      }
    }
  }

  /** `LexerParser` over the character lexer: its state is the lexer, and `fork` copies it. */
  function CharSource(): (p: SourceParser<CharLexer>)
    ensures forall l :: p.isEmpty(l) == (l.rest == [], l) && p.fork(l) == l
  {
    SourceParser((l, n) => (SpanAt(l, n), l), l => (IsEmpty(l), l), l => l)
  }

  /** A token of any single character. */
  function AnyChar(l: CharLexer): (r: (Result<char, ParseError>, CharLexer))
    ensures r.0.Ok? <==> l.rest != []
    ensures r.1 == Next(l).1
  {
    if l.rest == [] then (Err(Eof(SpanAt(l, 0), "char")), l) else (Ok(l.rest[0]), Advance(l))
  }

  function Semicolon(l: CharLexer): (Result<(), ParseError>, CharLexer)
  {
    Expect(l, ';')
  }

  function Comma(l: CharLexer): (Result<(), ParseError>, CharLexer)
  {
    Expect(l, ',')
  }

  function Size(l: CharLexer): nat { |l.rest| }

  lemma CharProgress()
    ensures Progress(CharSource(), AnyChar, Size)
    ensures NoGrowth(Comma, Size)
  {
  }

  /** A character that is not the terminator is collected, and the loop goes on after it. */
  lemma CharTermTurn(l: CharLexer, vec: seq<char>)
    requires l.rest != [] && l.rest[0] != ';'
    ensures Progress(CharSource(), AnyChar, Size)
    ensures TermLoop(CharSource(), AnyChar, Semicolon, Size, l, vec)
            == TermLoop(CharSource(), AnyChar, Semicolon, Size, Advance(l), vec + [l.rest[0]])
  {
    CharProgress();
    assert Semicolon(l).0.Err?;
    assert AnyChar(l) == (Ok(l.rest[0]), Advance(l));
  }

  /** A terminator ends the loop with the collected list and is consumed. */
  lemma CharTermStop(l: CharLexer, vec: seq<char>)
    requires l.rest != [] && l.rest[0] == ';'
    ensures Progress(CharSource(), AnyChar, Size)
    ensures TermLoop(CharSource(), AnyChar, Semicolon, Size, l, vec) == (Ok((vec, Some(()))), Advance(l))
  {
    CharProgress();
    assert Semicolon(l) == (Ok(()), Advance(l));
  }

  /** On `ab;c` the list is `a`, `b`, the terminator is found and consumed, and `c` is left. */
  lemma TerminatedExample()
    ensures Progress(CharSource(), AnyChar, Size)
      && var (r, l') := TermLoop(CharSource(), AnyChar, Semicolon, Size, CharLexer("ab;c", 0, 0, 0), []);
      r == Ok((['a', 'b'], Some(()))) && l'.rest == "c"
  {
    var l0 := CharLexer("ab;c", 0, 0, 0);
    var l1 := Advance(l0);
    var l2 := Advance(l1);
    assert l1.rest == "b;c";
    assert l2.rest == ";c";
    assert Advance(l2).rest == "c";
    CharTermTurn(l0, []);
    assert [] + ['a'] == ['a'];
    CharTermTurn(l1, ['a']);
    assert ['a'] + ['b'] == ['a', 'b'];
    CharTermStop(l2, ['a', 'b']);
  }
}
