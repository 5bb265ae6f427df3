/** `TokenParser`, a parser of `Out` values over an inner parser of `In` tokens with a
    one-value peek cache, src/token_parser.rs. The inner parser is a token-stream state;
    its `is_empty` holds when no token is left. */
module TokenParsing {
  import opened Wrappers
  import opened Streams

  /** The inner parser's tokens and the cached peek. */
  datatype TpState<In, Out> = TpState(inner: seq<In>, peek: Option<Out>)

  /** A closure handed to `try_parse_with`, run on a `TokenParser`. */
  type TpRule<!In, !Out, X, E> = TpState<In, Out> -> (Result<X, E>, TpState<In, Out>)

  /** `next`: `None` on an empty inner parser; otherwise the cache is cleared first and a
      fresh `Out` is parsed, with a parse error propagated. */
  function TpNext<In, Out, E>(parse: Rule<In, Out, E>, st: TpState<In, Out>): (r: (Result<Option<Out>, E>, TpState<In, Out>))
    ensures st.inner == [] ==> r == (Ok(None), st)
    ensures st.inner != [] ==> r.1 == TpState(parse(st.inner).1, None)
    ensures st.inner != [] && parse(st.inner).0.Ok? ==> r.0 == Ok(Some(parse(st.inner).0.value))
    ensures st.inner != [] && parse(st.inner).0.Err? ==> r.0 == Err(parse(st.inner).0.error)
  {
    if st.inner == [] then (Ok(None), st)
    else
      var st := st.(peek := None);
      var (v, rest) := parse(st.inner);
      var st := st.(inner := rest);
      if v.Err? then (Err(v.error), st) else (Ok(Some(v.value)), st)
  }

  /** `peek`: the cached value when there is one, without touching the inner parser;
      otherwise `next`, whose value is stored in the cache. */
  function TpPeek<In, Out, E>(parse: Rule<In, Out, E>, st: TpState<In, Out>): (r: (Result<Option<Out>, E>, TpState<In, Out>))
    ensures st.peek.Some? ==> r == (Ok(st.peek), st)
    ensures st.peek.None? && TpNext(parse, st).0.Ok? ==>
              r == (TpNext(parse, st).0, TpNext(parse, st).1.(peek := TpNext(parse, st).0.value))
    ensures st.peek.None? && TpNext(parse, st).0.Err? ==> r == TpNext(parse, st)
  {
    if st.peek.Some? then (Ok(st.peek), st)
    else
      var (n, st') := TpNext(parse, st);
      if n.Err? then (Err(n.error), st') else (Ok(n.value), st'.(peek := n.value))
  }

  /** `expect(token)`: `next`, then `Ok` exactly when it produced `token`. */
  function TpExpect<In, Out(==), E>(parse: Rule<In, Out, E>, errors: ErrorOps<Out, E>, st: TpState<In, Out>, token: Out)
    : (r: (Result<(), E>, TpState<In, Out>))
    ensures r.1 == TpNext(parse, st).1
    ensures r.0.Ok? <==> TpNext(parse, st).0 == Ok(Some(token))
    ensures TpNext(parse, st).0 == Ok(None) ==> r.0 == Err(errors.unexpectedEof)
    ensures TpNext(parse, st).0.Err? ==> r.0 == Err(TpNext(parse, st).0.error)
    ensures TpNext(parse, st).0.Ok? && TpNext(parse, st).0.value.Some? && TpNext(parse, st).0.value.value != token ==>
              r.0 == Err(errors.expected(TpNext(parse, st).0.value, [token]))
  {
    var (found, st') := TpNext(parse, st);
    if found.Err? then (Err(found.error), st')
    else match found.value
      case Some(tok) => if tok == token then (Ok(()), st') else (Err(errors.expected(found.value, [token])), st')
      case None => (Err(errors.unexpectedEof), st')
  }

  /** `try_parse_with`: the inner parser's own `try_parse_with`, whose closure wraps the
      inner fork in a fresh `TokenParser` with an empty cache. On `Ok` the inner parser
      takes the fork's state and this parser's cache is kept; on `Err` nothing changes. */
  function TpTryParseWith<In, Out, X, E>(f: TpRule<In, Out, X, E>, st: TpState<In, Out>): (r: (Result<X, E>, TpState<In, Out>))
    ensures r.0 == f(TpState(st.inner, None)).0
    ensures r.0.Ok? ==> r.1 == TpState(f(TpState(st.inner, None)).1.inner, st.peek)
    ensures r.0.Err? ==> r.1 == st
  {
    var wrap := (fork: seq<In>) => var (res, par) := f(TpState(fork, None)); (res, par.inner);
    var (res, inner') := TryParseWith(wrap, st.inner);
    (res, st.(inner := inner'))
  }

  /** `next` never looks at the cache: a cached value is dropped, not returned. */
  lemma NextIgnoresCache<In, Out, E>(parse: Rule<In, Out, E>, st: TpState<In, Out>)
    ensures st.inner != [] ==> TpNext(parse, st) == TpNext(parse, TpState(st.inner, None))
    ensures st.inner == [] ==> TpNext(parse, st).1.peek == st.peek
  {
  }

  /** A second `peek` returns the same value as the first and parses nothing more. */
  lemma PeekTwice<In, Out, E>(parse: Rule<In, Out, E>, st: TpState<In, Out>)
    ensures var (p1, st1) := TpPeek(parse, st);
      p1.Ok? && p1.value.Some? ==> TpPeek(parse, st1) == (p1, st1)
  {
  }

  /** After a `peek` that parsed a value, `next` parses the value after it: the peeked
      value is skipped. */
  lemma NextAfterPeekSkips<In, Out, E>(parse: Rule<In, Out, E>, st: TpState<In, Out>)
    requires st.peek.None? && st.inner != [] && parse(st.inner).0.Ok?
    ensures TpPeek(parse, st).0 == Ok(Some(parse(st.inner).0.value))
    ensures TpNext(parse, TpPeek(parse, st).1).0 == TpNext(parse, TpState(parse(st.inner).1, None)).0
    ensures TpNext(parse, TpPeek(parse, st).1).1.inner == TpNext(parse, TpState(parse(st.inner).1, None)).1.inner
  {
    var (p, st1) := TpPeek(parse, st);
    assert st1.inner == parse(st.inner).1;
    NextIgnoresCache(parse, st1);
  }

  /** After peeking the last value, `next` finds the inner parser empty and returns
      `None`, but the stale cache survives: a following `peek` still reports the value. */
  lemma StaleCacheAfterLastPeek<In, Out, E>(parse: Rule<In, Out, E>, st: TpState<In, Out>)
    requires st.peek.None? && st.inner != [] && parse(st.inner).0.Ok? && parse(st.inner).1 == []
    ensures var st1 := TpPeek(parse, st).1;
      var (n, st2) := TpNext(parse, st1);
      n == Ok(None) && TpPeek(parse, st2).0 == Ok(Some(parse(st.inner).0.value))
  {
  }

  /** The closure that peeks one value and succeeds. */
  function PeekThenOk<In, Out, E>(parse: Rule<In, Out, E>): TpRule<In, Out, (), E>
  {
    (par: TpState<In, Out>) => var (p, par') := TpPeek(parse, par); if p.Err? then (Err(p.error), par') else (Ok(()), par')
  }

  /** A value peeked inside `try_parse_with` is lost when the closure succeeds: the inner
      parser has moved past it, and the fork's cache is dropped with the fork. */
  lemma CommittedPeekIsConsumed<In, Out, E>(parse: Rule<In, Out, E>, st: TpState<In, Out>)
    requires st.inner != [] && parse(st.inner).0.Ok?
    ensures TpTryParseWith(PeekThenOk(parse), st) == (Ok(()), TpState(parse(st.inner).1, st.peek))
  {
    var empty := TpState(st.inner, None);
    assert TpPeek(parse, empty).1.inner == parse(st.inner).1;
  }

  class TokenParser<In, Out(==), E> {
    const parse: Rule<In, Out, E>
    const errors: ErrorOps<Out, E>
    var inner: seq<In>
    var peek: Option<Out>

    function State(): TpState<In, Out>
      reads this
    {
      TpState(inner, peek)
    }

    /** `TokenParser::new` and `From<&mut P>`: an inner parser and an empty cache. */
    constructor (parse: Rule<In, Out, E>, errors: ErrorOps<Out, E>, inner: seq<In>)
      ensures this.parse == parse && this.errors == errors
      ensures State() == TpState(inner, None)
    {
      this.parse := parse;
      this.errors := errors;
      this.inner := inner;
      peek := None;
    }

    method Next() returns (r: Result<Option<Out>, E>)
      modifies this
      ensures (r, State()) == TpNext(parse, old(State()))
    {
      if inner == [] {
        return Ok(None);
      }
      peek := None;
      var v := parse(inner).0;
      inner := parse(inner).1;
      if v.Err? {
        return Err(v.error);
      }
      r := Ok(Some(v.value));
    }

    method Peek() returns (r: Result<Option<Out>, E>)
      modifies this
      ensures (r, State()) == TpPeek(parse, old(State()))
    {
      if peek.Some? {
        return Ok(peek);
      }
      var n := Next();
      if n.Err? {
        return Err(n.error);
      }
      peek := n.value;
      r := Ok(peek);
    }

    method Expect(token: Out) returns (r: Result<(), E>)
      modifies this
      ensures (r, State()) == TpExpect(parse, errors, old(State()), token)
    {
      var found := Next();
      if found.Err? {
        return Err(found.error);
      }
      if found.value.Some? {
        if found.value.value == token {
          r := Ok(());
        } else {
          r := Err(errors.expected(found.value, [token]));
        }
      } else {
        r := Err(errors.unexpectedEof);
      }
    }

    method TryParseWith<X>(f: TpRule<In, Out, X, E>) returns (r: Result<X, E>)
      modifies this
      ensures (r, State()) == TpTryParseWith(f, old(State()))
    {
      var res := f(TpState(inner, None)).0;
      if res.Ok? {
        inner := f(TpState(inner, None)).1.inner;
      }
      r := res;
    }
  }
}
