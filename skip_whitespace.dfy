/** `SkipWhitespace`, the character-level `Parser` that skips whitespace between tokens
    and caches one peeked token, src/parser.rs lines 106-175. */
module SkipWhitespaceParser {
  import opened Wrappers
  import opened Spans
  import opened Errors
  import opened CharLexing
  import opened Parsing
  import opened StartSets

  /** The fields of a `SkipWhitespace`: the wrapped lexer and the peek cache. */
  datatype SkipState<T> = SkipState(lexer: CharLexer, peek: Option<T>)

  /** The lexer after the `skip_whitespace` loop. */
  function SkipSpace(l: CharLexer): CharLexer
    decreases |l.rest|
  {
    if l.rest != [] && IsWhitespace(l.rest[0]) then SkipSpace(Advance(l)) else l
  }

  /** Skipping consumes exactly the leading whitespace: the first `k` characters are
      whitespace and the one after them, if any, is not. */
  lemma {:induction false} SkipSpaceIsMaximal(l: CharLexer)
    ensures Consumed(l, SkipSpace(l))
    ensures var k := |l.rest| - |SkipSpace(l).rest|;
      && (forall i :: 0 <= i < k ==> IsWhitespace(l.rest[i]))
      && (SkipSpace(l).rest == [] || !IsWhitespace(SkipSpace(l).rest[0]))
    decreases |l.rest|
  {
    if l.rest != [] && IsWhitespace(l.rest[0]) {
      var a := Advance(l);
      SkipSpaceIsMaximal(a);
      ConsumedNext(l);
      ConsumedTrans(l, a, SkipSpace(a));
      var k := |l.rest| - |SkipSpace(l).rest|;
      forall i | 0 <= i < k
        ensures IsWhitespace(l.rest[i])
      {
        if i > 0 {
          assert l.rest[i] == a.rest[i - 1];
        }
      }
    }
  }

  /** Input that does not start with whitespace is left alone. */
  lemma SkipSpaceNoLeading(l: CharLexer)
    requires l.rest == [] || !IsWhitespace(l.rest[0])
    ensures SkipSpace(l) == l
  {
  }

  /** `span(length)`: skips whitespace, then spans from the lexer's position. */
  function SkipSpan<T>(st: SkipState<T>, length: nat): (r: (Span, SkipState<T>))
    ensures r.1 == SkipState(SkipSpace(st.lexer), st.peek)
    ensures r.0 == SpanAt(SkipSpace(st.lexer), length)
  {
    var l := SkipSpace(st.lexer);
    (SpanAt(l, length), SkipState(l, st.peek))
  }

  /** `next`: takes the cached token if there is one, else lexes at the lexer's position. */
  function SkipNext<T>(lex: CharLexer -> (Result<T, ParseError>, CharLexer), st: SkipState<T>)
    : (r: (Result<T, ParseError>, SkipState<T>))
    ensures r.1.peek == None
    ensures st.peek.Some? ==> r == (Ok(st.peek.value), SkipState(st.lexer, None))
    ensures st.peek.None? ==> r == (lex(st.lexer).0, SkipState(lex(st.lexer).1, None))
  {
    match st.peek
    case Some(t) => (Ok(t), SkipState(st.lexer, None))
    case None =>
      var (t, l') := lex(st.lexer);
      (t, SkipState(l', None))
  }

  /** `peek`: returns the cached token, or skips whitespace, lexes and caches the token. */
  function SkipPeek<T>(lex: CharLexer -> (Result<T, ParseError>, CharLexer), st: SkipState<T>)
    : (r: (Result<Option<T>, ParseError>, SkipState<T>))
    ensures st.peek.Some? ==> r == (Ok(st.peek), st)
    ensures st.peek.None? ==> r.1.lexer == lex(SkipSpace(st.lexer)).1
    ensures st.peek.None? && lex(SkipSpace(st.lexer)).0.Ok? ==>
      r.0 == Ok(Some(lex(SkipSpace(st.lexer)).0.value)) && r.1.peek == r.0.value
    ensures st.peek.None? && lex(SkipSpace(st.lexer)).0.Err? ==>
      r.0 == Err(lex(SkipSpace(st.lexer)).0.error) && r.1.peek == None
  {
    match st.peek
    case Some(_) => (Ok(st.peek), st)
    case None =>
      var (t, l') := lex(SkipSpace(st.lexer));
      if t.Err? then (Err(t.error), SkipState(l', None))
      else (Ok(Some(t.value)), SkipState(l', Some(t.value)))
  }

  /** `is_empty`: skips whitespace and asks the lexer; the cache is not consulted. */
  function SkipIsEmpty<T>(st: SkipState<T>): (r: (bool, SkipState<T>))
    ensures r.1 == SkipState(SkipSpace(st.lexer), st.peek)
    ensures r.0 <==> forall i :: 0 <= i < |st.lexer.rest| ==> IsWhitespace(st.lexer.rest[i])
  {
    SkipSpaceIsMaximal(st.lexer);
    var l := SkipSpace(st.lexer);
    assert l.rest != [] ==> st.lexer.rest[|st.lexer.rest| - |l.rest|] == l.rest[0];
    (l.rest == [], SkipState(l, st.peek))
  }

  /** `fork`: a new parser over a copy of the lexer, with an empty cache. */
  function SkipFork<T>(st: SkipState<T>): (r: SkipState<T>)
    ensures r.lexer == st.lexer && r.peek == None
  {
    SkipState(st.lexer, None)
  }

  /** `SkipWhitespace` as an implementation of the `Parser` operations. */
  function SkipWhitespaceOps<T>(lex: CharLexer -> (Result<T, ParseError>, CharLexer))
    : ParserOps<SkipState<T>, T>
  {
    ParserOps((st, n) => SkipSpan(st, n), st => SkipNext(lex, st), st => SkipPeek(lex, st),
              st => SkipIsEmpty(st), st => SkipFork(st))
  }

  /** `is_next` on a `SkipWhitespace` with an empty cache skips whitespace, lexes one
      token into the cache and tests its kind; a lex error gives `None`. */
  lemma SkipIsNext<T, K>(lex: CharLexer -> (Result<T, ParseError>, CharLexer), start: StartTokens<K>,
                             kind: T -> K, st: SkipState<T>)
    requires st.peek.None?
    ensures var (t, l') := lex(SkipSpace(st.lexer));
      var (r, st') := IsNext(SkipWhitespaceOps(lex), start, kind, st);
      && st'.lexer == l'
      && (t.Ok? ==> r == Some(Contains(start, kind(t.value))) && st'.peek == Some(t.value))
      && (t.Err? ==> r == None && st'.peek == None)
  {
  }

  /** Peeking twice returns the same token and lexes only once: the second peek changes
      nothing. */
  lemma PeekTwice<T>(lex: CharLexer -> (Result<T, ParseError>, CharLexer), st: SkipState<T>)
    ensures var (first, st1) := SkipPeek(lex, st);
      first.Ok? ==> SkipPeek(lex, st1) == (first, st1)
  {
  }

  /** After a successful peek, `next` returns the peeked token and clears the cache
      without touching the lexer. */
  lemma NextAfterPeek<T>(lex: CharLexer -> (Result<T, ParseError>, CharLexer), st: SkipState<T>)
    ensures var (first, st1) := SkipPeek(lex, st);
      first.Ok? ==> SkipNext(lex, st1) == (Ok(first.value.value), SkipState(st1.lexer, None))
  {
  }

  /** `is_empty` ignores the cache: with only whitespace left in the lexer it says empty,
      while `next` still returns the cached token. */
  lemma EmptyDespiteCachedToken<T>(lex: CharLexer -> (Result<T, ParseError>, CharLexer), st: SkipState<T>)
    requires st.peek.Some?
    requires forall i :: 0 <= i < |st.lexer.rest| ==> IsWhitespace(st.lexer.rest[i])
    ensures var (empty, st1) := SkipIsEmpty(st);
      empty && SkipNext(lex, st1).0 == Ok(st.peek.value)
  {
  }

  class SkipWhitespace<T> {
    const lex: CharLexer -> (Result<T, ParseError>, CharLexer)
    var lexer: CharLexer
    var peek: Option<T>

    function State(): SkipState<T>
      reads this
    {
      SkipState(lexer, peek)
    }

    /** `SkipWhitespace::new`. */
    constructor (lex: CharLexer -> (Result<T, ParseError>, CharLexer), lexer: CharLexer)
      ensures this.lex == lex && State() == SkipState(lexer, None)
    {
      this.lex := lex;
      this.lexer := lexer;
      this.peek := None;
    }

    /** `skip_whitespace`: consume while the next character is whitespace. */
    method SkipSpaces()
      modifies this
      ensures lexer == SkipSpace(old(lexer)) && peek == old(peek)
    {
      while CharLexing.Peek(lexer).Some? && IsWhitespace(CharLexing.Peek(lexer).value)
        invariant SkipSpace(lexer) == SkipSpace(old(lexer)) && peek == old(peek)
        decreases |lexer.rest|
      {
        lexer := CharLexing.Next(lexer).1;
      }
    }

    method Span(length: nat) returns (s: Span)
      modifies this
      ensures (s, State()) == SkipSpan(old(State()), length)
    {
      SkipSpaces();
      s := SpanAt(lexer, length);
    }

    method Next() returns (r: Result<T, ParseError>)
      modifies this
      ensures (r, State()) == SkipNext(lex, old(State()))
    {
      if peek.Some? {
        r := Ok(peek.value);
        peek := None;
      } else {
        r, lexer := lex(lexer).0, lex(lexer).1;
      }
    }

    method Peek() returns (r: Result<Option<T>, ParseError>)
      modifies this
      ensures (r, State()) == SkipPeek(lex, old(State()))
    {
      if peek.Some? {
        r := Ok(peek);
      } else {
        SkipSpaces();
        var t, l' := lex(lexer).0, lex(lexer).1;
        lexer := l';
        if t.Err? {
          r := Err(t.error);
        } else {
          peek := Some(t.value);
          r := Ok(peek);
        }
      }
    }

    method IsEmpty() returns (empty: bool)
      modifies this
      ensures (empty, State()) == SkipIsEmpty(old(State()))
    {
      SkipSpaces();
      empty := lexer.rest == [];
    }

    method Fork() returns (f: SkipWhitespace<T>)
      ensures fresh(f) && f.lex == lex && f.State() == SkipFork(State())
    {
      f := new SkipWhitespace(lex, lexer);
    }
  }
}
