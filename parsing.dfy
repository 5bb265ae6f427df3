/** The `Parse`/`Parser` protocol of the lexer generation, src/parser.rs lines 55-104.
    A `Parser` implementation is a record of its operations over the parser's state `S`;
    every `&mut self` operation returns the state it leaves. */
module Parsing {
  import opened Wrappers
  import opened Spans
  import opened Errors
  import opened StartSets

  datatype ParserOps<!S, T> = ParserOps(
    span: (S, nat) -> (Span, S),
    next: S -> (Result<T, ParseError>, S),
    peek: S -> (Result<Option<T>, ParseError>, S),
    isEmpty: S -> (bool, S),
    fork: S -> S)

  /** A grammar rule: its `START` set and its `parse` function. */
  datatype Grammar<!S, K, P> = Grammar(start: StartTokens<K>, parse: S -> (Result<P, ParseError>, S))

  /** `Parse::is_next`: peek one token and test its kind against `START`; `None` when
      peeking fails or the input has ended. The state is what `peek` leaves. */
  function IsNext<S, T, K(==)>(ops: ParserOps<S, T>, start: StartTokens<K>, kind: T -> K, s: S)
    : (r: (Option<bool>, S))
    ensures r.1 == ops.peek(s).1
    ensures r.0.None? <==> ops.peek(s).0.Err? || ops.peek(s).0.value.None?
    ensures r.0.Some? ==> r.0.value == Contains(start, kind(ops.peek(s).0.value.value))
  {
    var (peeked, s1) := ops.peek(s);
    if peeked.Err? || peeked.value.None? then (None, s1)
    else (Some(Contains(start, kind(peeked.value.value))), s1)
  }

  /** `Parser::try_parse`: commit on a decisive yes, report absence on a decisive no, and
      otherwise parse a fork, keeping it only when the parse succeeds. */
  method TryParse<S, T, K(==), P>(ops: ParserOps<S, T>, g: Grammar<S, K, P>, kind: T -> K, s: S)
    returns (r: Result<Option<P>, ParseError>, s': S)
    ensures var (decision, s1) := IsNext(ops, g.start, kind, s);
      && (decision == Some(false) ==> r == Ok(None) && s' == s1)
      && (decision == Some(true) ==>
            s' == g.parse(s1).1
            && (g.parse(s1).0.Ok? ==> r == Ok(Some(g.parse(s1).0.value)))
            && (g.parse(s1).0.Err? ==> r == Err(g.parse(s1).0.error)))
      && (decision.None? ==>
            var (attempt, forked) := g.parse(ops.fork(s1));
            && (attempt.Ok? ==> r == Ok(Some(attempt.value)) && s' == forked)
            && (attempt.Err? ==> r == Err(attempt.error) && s' == s1))
  {
    var decision, s1 := IsNext(ops, g.start, kind, s).0, IsNext(ops, g.start, kind, s).1;
    s' := s1;
    match decision {
      case Some(true) =>
        var parsed, s2 := g.parse(s1).0, g.parse(s1).1;
        s' := s2;
        if parsed.Err? {
          r := Err(parsed.error);
        } else {
          r := Ok(Some(parsed.value));
        }
      case Some(false) =>
        r := Ok(None);
      case None =>
        var fork := ops.fork(s1);
        var parsed, fork' := g.parse(fork).0, g.parse(fork).1;
        if parsed.Err? {
          r := Err(parsed.error);
        } else {
          s' := fork';
          r := Ok(Some(parsed.value));
        }
    }
  }

  /** With the catch-all set `All`, a peeked token always commits the parse directly:
      the speculative fork is taken only when peeking fails or the input has ended. */
  lemma AllNeverSpeculates<S, T, K>(ops: ParserOps<S, T>, kind: T -> K, s: S)
    ensures ops.peek(s).0.Ok? && ops.peek(s).0.value.Some? ==> IsNext(ops, All, kind, s).0 == Some(true)
    ensures IsNext(ops, All, kind, s).0 != Some(false)
  {
  }

  /** With a precise start set, a peeked token whose kind none of the set's leaves names is
      rejected without parsing; a kind it names always commits. */
  lemma PreciseStartDecides<S, T, K>(ops: ParserOps<S, T>, start: StartTokens<K>, kind: T -> K, s: S)
    requires !HasAll(start)
    requires ops.peek(s).0.Ok? && ops.peek(s).0.value.Some?
    ensures IsNext(ops, start, kind, s).0 == Some(kind(ops.peek(s).0.value.value) in Leaves(start))
  {
    ContainsIsLeavesOrAll(start, kind(ops.peek(s).0.value.value));
  }
}
