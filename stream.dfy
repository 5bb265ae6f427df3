/** The token-stream parser generation (src/parse_buffer.rs, src/chars_parser.rs and the
    combinators over them). A parser's state is the sequence of tokens it still holds;
    `fork` copies it and `*self = fork` replaces it. A grammar rule is a function from the
    state to its result and the state it leaves. */
module Streams {
  import opened Wrappers

  /** The `ParseError<Token>` constructor interface over an error type `E`. */
  datatype ErrorOps<!T, E> = ErrorOps(
    expected: (Option<T>, seq<T>) -> E,
    unexpectedEof: E,
    message: string -> E)

  /** A free implementation of `ParseError`: one constructor per operation. */
  datatype StreamError<T> = Expected(found: Option<T>, expected: seq<T>) | UnexpectedEof | Message(text: string)

  function FreeErrors<T>(): ErrorOps<T, StreamError<T>>
  {
    ErrorOps((found, expected) => Expected(found, expected), UnexpectedEof, text => Message(text))
  }

  /** `Parse::parse` of some syntax `X` over a parser holding tokens `T`. */
  type Rule<!T, X, E> = seq<T> -> (Result<X, E>, seq<T>)

  /** `next`: the first token and the rest, or `None` and no change at the end. */
  function Next<T>(s: seq<T>): (r: (Option<T>, seq<T>))
    ensures s == [] ==> r == (None, s)
    ensures s != [] ==> r == (Some(s[0]), s[1..]) && [s[0]] + r.1 == s
  {
    if s == [] then (None, s) else (Some(s[0]), s[1..])
  }

  /** `peek`: the first token, consuming nothing. */
  function Peek<T>(s: seq<T>): (r: Option<T>)
    ensures r == Next(s).0
  {
    if s == [] then None else Some(s[0])
  }

  /** `try_parse_with`: run `f` on a fork; success replaces the state with the fork's,
      failure returns the error and keeps the state. */
  function TryParseWith<T, X, E>(f: Rule<T, X, E>, s: seq<T>): (r: (Result<X, E>, seq<T>))
    ensures r.0 == f(s).0
    ensures r.1 == if f(s).0.Ok? then f(s).1 else s
  {
    var fork := s;
    var (res, fork') := f(fork);
    if res.Ok? then (res, fork') else (res, s)
  }

  /** `try_parse`: `try_parse_with` on a rule, with the error dropped. */
  function TryParse<T, X, E>(f: Rule<T, X, E>, s: seq<T>): (r: (Option<X>, seq<T>))
    ensures f(s).0.Ok? ==> r == (Some(f(s).0.value), f(s).1)
    ensures f(s).0.Err? ==> r == (None, s)
  {
    var (res, s') := TryParseWith(f, s);
    if res.Ok? then (Some(res.value), s') else (None, s')
  }

  /** A `try_parse_with` whose closure only records whether `f` parses and then fails with
      `unexpected_eof`: it reports the outcome and never moves the parser. */
  method Probe<T, X, E>(errors: ErrorOps<T, E>, f: Rule<T, X, E>, s: seq<T>) returns (parsed: bool, s': seq<T>)
    ensures parsed == f(s).0.Ok?
    ensures s' == s
  {
    // The closure's side effect: what `f` made of the fork.
    var fork := s;
    parsed := f(fork).0.Ok?;
    var closure: Rule<T, (), E> := (fork: seq<T>) => (Err(errors.unexpectedEof), f(fork).1);
    var res;
    res, s' := TryParseWith(closure, s).0, TryParseWith(closure, s).1;
    assert res.Err?;
  }

  /** A rule never adds tokens. */
  ghost predicate NoGrowth<T(!new), X, E>(f: Rule<T, X, E>)
  {
    forall s :: |f(s).1| <= |s|
  }

  /** A rule that succeeds consumes at least one token. */
  ghost predicate Consumes<T(!new), X, E>(f: Rule<T, X, E>)
  {
    forall s :: f(s).0.Ok? ==> |f(s).1| < |s|
  }

  /** The rule that reads one given token, as the `parse!` macro's `expect` form does for
      a token type: `Ok` and one token consumed exactly when the first token is `t`. */
  function TokenRule<T(==,!new), E>(errors: ErrorOps<T, E>, t: T): (f: Rule<T, T, E>)
    ensures forall s :: f(s).0.Ok? <==> s != [] && s[0] == t
    ensures forall s :: f(s).0.Ok? ==> f(s) == (Ok(t), s[1..])
    ensures forall s :: f(s).0.Err? ==> f(s).1 == Next(s).1
  {
    (s: seq<T>) =>
      if s == [] then (Err(errors.unexpectedEof), s)
      else if s[0] == t then (Ok(t), s[1..])
      else (Err(errors.expected(Some(s[0]), [t])), s[1..])
  }
}
